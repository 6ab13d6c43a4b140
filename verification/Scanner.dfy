/** The note scanner: what the client knows of the pool from its event log. */
module Scanner {
  import opened Wrappers
  import opened EventPaging

  datatype PoolEvent =
    | NewCommitment(index: nat, commitment: int, ciphertext: seq<int>, mvkTag: int)
    | NewNullifier(nullifier: nat)
    | MvkBound(tag: int, mvkCt: seq<int>)
    | OtherEvent

  datatype CommitmentRecord = CommitmentRecord(
    leafIndex: nat, commitment: int, ciphertext: seq<int>, mvkTag: int, ledger: nat, ts: nat, txHash: int)

  datatype NullifierRecord = NullifierRecord(nullifier: nat, ledger: nat, ts: nat, txHash: int)

  datatype MvkBindingRecord = MvkBindingRecord(tag: int, mvkCt: seq<int>, ledger: nat)

  /** The commitments are a sparse array: `extent` is its length, one past the largest index stored. */
  datatype ScannerState = ScannerState(
    commitments: map<nat, CommitmentRecord>,
    extent: nat,
    nullifiers: set<nat>,
    nullifierRecords: map<nat, NullifierRecord>,
    mvkBindings: seq<MvkBindingRecord>,
    cursorLedger: nat)

  function Max(a: nat, b: nat): nat
  {
    if a < b then b else a
  }

  function Fresh(startLedger: nat): ScannerState
  {
    ScannerState(map[], 0, {}, map[], [], startLedger)
  }

  function RecordOf(e: Event<PoolEvent>): CommitmentRecord
    requires e.payload.NewCommitment?
  {
    CommitmentRecord(e.payload.index, e.payload.commitment, e.payload.ciphertext, e.payload.mvkTag, e.Ledger(),
      e.closedAt, e.txHash)
  }

  function SpentBy(e: Event<PoolEvent>): NullifierRecord
    requires e.payload.NewNullifier?
  {
    NullifierRecord(e.payload.nullifier, e.Ledger(), e.closedAt, e.txHash)
  }

  /** What one event adds. */
  function Ingested(st: ScannerState, e: Event<PoolEvent>): ScannerState
  {
    var next := st.(cursorLedger := Max(st.cursorLedger, e.Ledger()));
    match e.payload
    case NewCommitment(index, _, _, _) =>
      next.(commitments := st.commitments[index := RecordOf(e)], extent := Max(st.extent, index + 1))
    case NewNullifier(nullifier) =>
      next.(nullifiers := st.nullifiers + {nullifier},
            nullifierRecords := st.nullifierRecords[nullifier := SpentBy(e)])
    case MvkBound(tag, mvkCt) =>
      next.(mvkBindings := st.mvkBindings + [MvkBindingRecord(tag, mvkCt, e.Ledger())])
    case OtherEvent => next
  }

  function IngestedAll(st: ScannerState, events: seq<Event<PoolEvent>>): ScannerState
  {
    if events == [] then st else Ingested(IngestedAll(st, events[..|events| - 1]), events[|events| - 1])
  }

  /** Every record sits under its own key, and the extent is tight. */
  ghost predicate WellKept(st: ScannerState)
  {
    && (forall i :: i in st.commitments ==> i < st.extent && st.commitments[i].leafIndex == i)
    && (st.extent > 0 ==> st.extent - 1 in st.commitments)
    && (forall n :: n in st.nullifierRecords ==> st.nullifierRecords[n].nullifier == n)
  }

  lemma {:induction false} IngestKeepsRecords(st: ScannerState, events: seq<Event<PoolEvent>>)
    requires WellKept(st)
    ensures WellKept(IngestedAll(st, events))
  {
    if events == [] {
    } else {
      IngestKeepsRecords(st, events[..|events| - 1]);
    }
  }

  // ----- durable snapshots -----

  /** Snapshots written before nullifier records existed lack that field. */
  datatype ScannerSnapshot = ScannerSnapshot(
    cursorLedger: nat,
    commitments: seq<CommitmentRecord>,
    nullifiers: seq<nat>,
    nullifierRecords: Option<seq<NullifierRecord>>,
    mvkBindings: seq<MvkBindingRecord>)

  /** The stored records of the first `n` slots, holes dropped. */
  function Stored(commitments: map<nat, CommitmentRecord>, n: nat): seq<CommitmentRecord>
  {
    if n == 0 then []
    else Stored(commitments, n - 1) + if n - 1 in commitments then [commitments[n - 1]] else []
  }

  ghost predicate Lists<X(!new)>(xs: seq<X>, s: set<X>)
  {
    forall x :: x in xs <==> x in s
  }

  ghost predicate ListsRecords(recs: seq<NullifierRecord>, records: map<nat, NullifierRecord>)
  {
    && (forall n :: n in records ==> records[n] in recs && records[n].nullifier == n)
    && (forall r :: r in recs ==> r.nullifier in records && records[r.nullifier] == r)
  }

  /** `snap` records the state; sets and maps may be listed in any order. */
  ghost predicate Captures(snap: ScannerSnapshot, st: ScannerState)
  {
    && snap.cursorLedger == st.cursorLedger && snap.mvkBindings == st.mvkBindings
    && snap.commitments == Stored(st.commitments, st.extent)
    && Lists(snap.nullifiers, st.nullifiers)
    && snap.nullifierRecords.Some? && ListsRecords(snap.nullifierRecords.value, st.nullifierRecords)
  }

  function Slots(recs: seq<CommitmentRecord>): map<nat, CommitmentRecord>
  {
    if recs == [] then map[]
    else Slots(recs[..|recs| - 1])[recs[|recs| - 1].leafIndex := recs[|recs| - 1]]
  }

  function SlotExtent(recs: seq<CommitmentRecord>): nat
  {
    if recs == [] then 0 else Max(SlotExtent(recs[..|recs| - 1]), recs[|recs| - 1].leafIndex + 1)
  }

  function NullifierSlots(recs: seq<NullifierRecord>): map<nat, NullifierRecord>
  {
    if recs == [] then map[]
    else NullifierSlots(recs[..|recs| - 1])[recs[|recs| - 1].nullifier := recs[|recs| - 1]]
  }

  function Restored(snap: ScannerSnapshot): ScannerState
  {
    ScannerState(Slots(snap.commitments), SlotExtent(snap.commitments), set n | n in snap.nullifiers,
                 if snap.nullifierRecords.Some? then NullifierSlots(snap.nullifierRecords.value) else map[],
                 snap.mvkBindings, snap.cursorLedger)
  }

  /** Record `k` is the last for its leaf. */
  ghost predicate LastRecord(recs: seq<CommitmentRecord>, k: nat)
  {
    k < |recs| && forall m: nat {:trigger recs[m]} :: k < m < |recs| ==> recs[m].leafIndex != recs[k].leafIndex
  }

  lemma {:induction false} SlotsHold(recs: seq<CommitmentRecord>)
    ensures forall i :: i in Slots(recs) <==> exists k :: 0 <= k < |recs| && recs[k].leafIndex == i
    ensures forall k: nat {:trigger LastRecord(recs, k)} ::
              LastRecord(recs, k) ==> Slots(recs)[recs[k].leafIndex] == recs[k]
    ensures forall i :: i in Slots(recs) ==> i < SlotExtent(recs)
    ensures SlotExtent(recs) > 0 ==> SlotExtent(recs) - 1 in Slots(recs)
  {
    if recs == [] {
    } else {
      var init, last := recs[..|recs| - 1], recs[|recs| - 1];
      SlotsHold(init);
      forall i ensures i in Slots(recs) <==> exists k :: 0 <= k < |recs| && recs[k].leafIndex == i {
        assert recs[|recs| - 1].leafIndex == last.leafIndex;
        if k :| 0 <= k < |init| && init[k].leafIndex == i {
          assert recs[k].leafIndex == i;
        }
        if k :| 0 <= k < |recs| && recs[k].leafIndex == i {
          assert k < |init| ==> init[k].leafIndex == i;
        }
      }
      forall k: nat | LastRecord(recs, k) ensures Slots(recs)[recs[k].leafIndex] == recs[k] {
        if k < |init| {
          assert recs[|recs| - 1].leafIndex != recs[k].leafIndex && LastRecord(init, k);
        }
      }
    }
  }

  /** Whatever a snapshot lists is restored, in snapshots without nullifier records too: every listed leaf with
      its last record and no other, and exactly the listed nullifiers count as spent. */
  lemma {:induction false} RestoredHolds(snap: ScannerSnapshot)
    ensures var st := Restored(snap);
            && (forall x :: x in st.nullifiers <==> x in snap.nullifiers)
            && (forall i :: i in st.commitments <==>
                  exists k :: 0 <= k < |snap.commitments| && snap.commitments[k].leafIndex == i)
            && (forall k: nat {:trigger LastRecord(snap.commitments, k)} :: LastRecord(snap.commitments, k) ==>
                  st.commitments[snap.commitments[k].leafIndex] == snap.commitments[k])
            && (forall i :: i in st.commitments ==> i < st.extent)
            && st.mvkBindings == snap.mvkBindings && st.cursorLedger == snap.cursorLedger
            && (snap.nullifierRecords.None? ==> st.nullifierRecords == map[])
  {
    SlotsHold(snap.commitments);
  }

  lemma {:induction false} StoredSlots(st: ScannerState, n: nat)
    requires WellKept(st)
    ensures forall i :: i in Slots(Stored(st.commitments, n)) <==> i < n && i in st.commitments
    ensures forall i :: i in Slots(Stored(st.commitments, n)) ==>
            Slots(Stored(st.commitments, n))[i] == st.commitments[i]
  {
    if n == 0 {
    } else {
      StoredSlots(st, n - 1);
      StoredStep(st, n);
    }
  }

  lemma {:induction false} StoredExtent(st: ScannerState, n: nat)
    requires WellKept(st)
    ensures SlotExtent(Stored(st.commitments, n)) <= n
    ensures n > 0 && n - 1 in st.commitments ==> SlotExtent(Stored(st.commitments, n)) == n
  {
    if n == 0 {
    } else {
      StoredExtent(st, n - 1);
      StoredStep(st, n);
    }
  }

  lemma {:induction false} StoredStep(st: ScannerState, n: nat)
    requires n > 0
    ensures var before, after := Stored(st.commitments, n - 1), Stored(st.commitments, n);
            if n - 1 in st.commitments then
              && Slots(after) == Slots(before)[st.commitments[n - 1].leafIndex := st.commitments[n - 1]]
              && SlotExtent(after) == Max(SlotExtent(before), st.commitments[n - 1].leafIndex + 1)
            else
              after == before
  {
    var before := Stored(st.commitments, n - 1);
    if n - 1 in st.commitments {
      assert (before + [st.commitments[n - 1]])[..|before|] == before;
    }
  }

  lemma {:induction false} NullifierSlotsOf(recs: seq<NullifierRecord>)
    ensures forall n :: n in NullifierSlots(recs) ==>
              NullifierSlots(recs)[n] in recs && NullifierSlots(recs)[n].nullifier == n
    ensures forall r :: r in recs ==> r.nullifier in NullifierSlots(recs)
  {
    if recs == [] {
    } else {
      NullifierSlotsOf(recs[..|recs| - 1]);
      assert recs == recs[..|recs| - 1] + [recs[|recs| - 1]];
    }
  }

  /** Restoring a snapshot gives back exactly the state it was taken of. */
  lemma {:induction false} RestoreIsExact(snap: ScannerSnapshot, st: ScannerState)
    requires Captures(snap, st) && WellKept(st)
    ensures Restored(snap) == st
  {
    StoredSlots(st, st.extent);
    StoredExtent(st, st.extent);
    assert Slots(snap.commitments) == st.commitments;
    RecordsRestored(snap.nullifierRecords.value, st.nullifierRecords);
  }

  lemma {:induction false} RecordsRestored(recs: seq<NullifierRecord>, records: map<nat, NullifierRecord>)
    requires ListsRecords(recs, records)
    ensures NullifierSlots(recs) == records
  {
    NullifierSlotsOf(recs);
    forall n | n in records ensures n in NullifierSlots(recs) {
      assert records[n] in recs;
    }
    forall n | n in NullifierSlots(recs) ensures n in records && NullifierSlots(recs)[n] == records[n] {
      assert NullifierSlots(recs)[n] in recs;
    }
  }

  // ----- discovery -----

  datatype NotePlain = NotePlain(amount: nat, recipientPk: int, blinding: int, assetId: int)

  datatype DiscoveredNote = DiscoveredNote(leafIndex: nat, commitment: int, plain: NotePlain)

  /** A key holder: trial decryption, the note commitment, which decrypted notes count as its own
      (all of them for a person, the matching recipient for an organisation), and its nullifiers. */
  datatype Viewer = Viewer(
    open: seq<int> -> Option<NotePlain>,
    commitmentOf: NotePlain -> int,
    owns: NotePlain -> bool,
    nullifierOf: (NotePlain, nat) -> nat)

  /** A ciphertext counts only if what it decrypts to is bound to the commitment on chain. */
  function Opened(rec: CommitmentRecord, v: Viewer): Option<NotePlain>
  {
    match v.open(rec.ciphertext)
    case Some(plain) => if v.commitmentOf(plain) == rec.commitment then Some(plain) else None
    case None => None
  }

  /** The notes found in the first `n` slots. */
  function Scanned(st: ScannerState, v: Viewer, n: nat): seq<DiscoveredNote>
  {
    if n == 0 then []
    else
      Scanned(st, v, n - 1) +
      if n - 1 in st.commitments && Opened(st.commitments[n - 1], v).Some? then
        [DiscoveredNote(st.commitments[n - 1].leafIndex, st.commitments[n - 1].commitment,
          Opened(st.commitments[n - 1], v).value)]
      else []
  }

  predicate Unspent(st: ScannerState, v: Viewer, d: DiscoveredNote)
  {
    v.owns(d.plain) && v.nullifierOf(d.plain, d.leafIndex) !in st.nullifiers
  }

  function Kept(st: ScannerState, v: Viewer, notes: seq<DiscoveredNote>): seq<DiscoveredNote>
  {
    if notes == [] then []
    else Kept(st, v, notes[..|notes| - 1]) + if Unspent(st, v, notes[|notes| - 1]) then [notes[|notes| - 1]] else []
  }

  function SpendableIn(st: ScannerState, v: Viewer): seq<DiscoveredNote>
  {
    Kept(st, v, Scanned(st, v, st.extent))
  }

  /** The leaf is on record, its ciphertext opens to the note, and the note has the commitment on record. */
  ghost predicate OnRecord(commitments: map<nat, CommitmentRecord>, v: Viewer, d: DiscoveredNote)
  {
    && d.leafIndex in commitments
    && v.open(commitments[d.leafIndex].ciphertext) == Some(d.plain)
    && v.commitmentOf(d.plain) == d.commitment == commitments[d.leafIndex].commitment
  }

  lemma {:induction false} ScannedExactly(st: ScannerState, v: Viewer, n: nat, d: DiscoveredNote)
    requires WellKept(st)
    ensures d in Scanned(st, v, n) <==> d.leafIndex < n && OnRecord(st.commitments, v, d)
  {
    if n == 0 {
    } else {
      ScannedExactly(st, v, n - 1, d);
    }
  }

  lemma {:induction false} KeptExactly(st: ScannerState, v: Viewer, notes: seq<DiscoveredNote>, d: DiscoveredNote)
    ensures d in Kept(st, v, notes) <==> d in notes && Unspent(st, v, d)
  {
    if notes == [] {
    } else {
      KeptExactly(st, v, notes[..|notes| - 1], d);
      assert notes == notes[..|notes| - 1] + [notes[|notes| - 1]];
    }
  }

  /** The spendable notes are exactly the owned notes on record whose nullifier has not been seen. */
  lemma {:induction false} SpendableExactly(st: ScannerState, v: Viewer, d: DiscoveredNote)
    requires WellKept(st)
    ensures d in SpendableIn(st, v) <==> OnRecord(st.commitments, v, d) && Unspent(st, v, d)
  {
    ScannedExactly(st, v, st.extent, d);
    KeptExactly(st, v, Scanned(st, v, st.extent), d);
  }

  /** No ingestion makes a spent note spendable again. */
  lemma {:induction false} SpentStaysSpent(
      st: ScannerState, events: seq<Event<PoolEvent>>, v: Viewer, d: DiscoveredNote)
    requires WellKept(st) && v.nullifierOf(d.plain, d.leafIndex) in st.nullifiers
    ensures d !in SpendableIn(IngestedAll(st, events), v)
  {
    IngestKeepsRecords(st, events);
    NullifiersGrow(st, events);
    SpendableExactly(IngestedAll(st, events), v, d);
  }

  lemma {:induction false} NullifiersGrow(st: ScannerState, events: seq<Event<PoolEvent>>)
    ensures st.nullifiers <= IngestedAll(st, events).nullifiers
  {
    if events == [] {
    } else {
      NullifiersGrow(st, events[..|events| - 1]);
    }
  }

  // ----- gap recovery -----

  /** The bindings of `previous` that are not among those of `retained`. */
  function Unseen(previous: seq<MvkBindingRecord>, retained: seq<MvkBindingRecord>): seq<MvkBindingRecord>
  {
    if previous == [] then []
    else
      Unseen(previous[..|previous| - 1], retained) +
      if previous[|previous| - 1] in retained then [] else [previous[|previous| - 1]]
  }

  /** A re-scan keeps what it found itself and takes the rest from the scanner it replaces. */
  function Merged(retained: ScannerState, previous: ScannerState): ScannerState
  {
    ScannerState(previous.commitments + retained.commitments, Max(retained.extent, previous.extent),
                 retained.nullifiers + previous.nullifiers,
                 previous.nullifierRecords + retained.nullifierRecords,
                 retained.mvkBindings + Unseen(previous.mvkBindings, retained.mvkBindings),
                 Max(retained.cursorLedger, previous.cursorLedger))
  }

  lemma {:induction false} MergeKeepsRecords(retained: ScannerState, previous: ScannerState)
    requires WellKept(retained) && WellKept(previous)
    ensures WellKept(Merged(retained, previous))
  {
  }

  /** After a merge a note is spendable exactly if the record that won yields it and neither
      scanner had seen its nullifier. */
  lemma {:induction false} MergeNeverUnspends(
      retained: ScannerState, previous: ScannerState, v: Viewer, d: DiscoveredNote)
    requires WellKept(retained) && WellKept(previous)
    ensures d in SpendableIn(Merged(retained, previous), v) <==>
              && Unspent(retained, v, d) && Unspent(previous, v, d)
              && OnRecord(if d.leafIndex in retained.commitments then retained.commitments
                   else previous.commitments, v, d)
  {
    SpendableExactly(Merged(retained, previous), v, d);
  }

  // ----- the scanner object -----

  datatype ScannerError = CommitmentLeafMissing(index: nat)

  class NoteScanner {
    var commitments: map<nat, CommitmentRecord>
    var extent: nat
    var nullifiers: set<nat>
    var nullifierRecords: map<nat, NullifierRecord>
    var mvkBindings: seq<MvkBindingRecord>
    var cursorLedger: nat

    function State(): ScannerState
      reads this
    {
      ScannerState(commitments, extent, nullifiers, nullifierRecords, mvkBindings, cursorLedger)
    }

    constructor (startLedger: nat)
      ensures State() == Fresh(startLedger)
    {
      commitments, extent, nullifiers, nullifierRecords, mvkBindings := map[], 0, {}, map[], [];
      cursorLedger := startLedger;
    }

    /** Rebuild a scanner from a snapshot. */
    constructor Restore(snap: ScannerSnapshot)
      ensures State() == Restored(snap)
    {
      commitments, extent, nullifiers, nullifierRecords, mvkBindings := map[], 0, {}, map[], [];
      cursorLedger := snap.cursorLedger;
      new;
      for k := 0 to |snap.commitments|
        invariant State() == Fresh(snap.cursorLedger).(commitments := Slots(snap.commitments[..k]),
                                                       extent := SlotExtent(snap.commitments[..k]))
      {
        assert snap.commitments[..k + 1][..k] == snap.commitments[..k];
        var c := snap.commitments[k];
        commitments := commitments[c.leafIndex := c];
        extent := Max(extent, c.leafIndex + 1);
      }
      assert snap.commitments[..|snap.commitments|] == snap.commitments;
      nullifiers := set n | n in snap.nullifiers;
      var recs := if snap.nullifierRecords.Some? then snap.nullifierRecords.value else [];
      for k := 0 to |recs|
        invariant State() == Restored(snap).(nullifierRecords := NullifierSlots(recs[..k]), mvkBindings := [])
      {
        assert recs[..k + 1][..k] == recs[..k];
        nullifierRecords := nullifierRecords[recs[k].nullifier := recs[k]];
      }
      assert recs[..|recs|] == recs;
      mvkBindings := snap.mvkBindings;
    }

    method Ingest(ev: Event<PoolEvent>)
      modifies this
      ensures State() == Ingested(old(State()), ev)
    {
      match ev.payload {
        case NewCommitment(index, commitment, ciphertext, mvkTag) =>
          var rec := CommitmentRecord(index, commitment, ciphertext, mvkTag, ev.Ledger(), ev.closedAt, ev.txHash);
          commitments := commitments[index := rec];
          extent := Max(extent, index + 1);
        case NewNullifier(nullifier) =>
          nullifiers := nullifiers + {nullifier};
          nullifierRecords :=
            nullifierRecords[nullifier := NullifierRecord(nullifier, ev.Ledger(), ev.closedAt, ev.txHash)];
        case MvkBound(tag, mvkCt) =>
          mvkBindings := mvkBindings + [MvkBindingRecord(tag, mvkCt, ev.Ledger())];
        case OtherEvent =>
      }
      cursorLedger := Max(cursorLedger, ev.Ledger());
    }

    /** Pull events into the scanner; a failed collection leaves it untouched. */
    method SyncFromRpc(rpc: Rpc<PoolEvent>, startLedger: nat) returns (r: Result<nat, SyncError>)
      modifies this
      ensures match Collected(rpc, startLedger)
              case Success(events) => r == Success(|events|) && State() == IngestedAll(old(State()), events)
              case Failure(error) => r == Failure(error) && State() == old(State())
    {
      var collected := CollectEvents(rpc, startLedger);
      if collected.Failure? {
        return Failure(collected.error);
      }
      var events := collected.value;
      for k := 0 to |events|
        invariant State() == IngestedAll(old(State()), events[..k])
      {
        assert events[..k + 1][..k] == events[..k];
        Ingest(events[k]);
      }
      assert events[..|events|] == events;
      r := Success(|events|);
    }

    method Snapshot() returns (snap: ScannerSnapshot)
      requires WellKept(State())
      ensures Captures(snap, State())
    {
      var recs: seq<CommitmentRecord> := [];
      for i := 0 to extent
        invariant recs == Stored(commitments, i)
      {
        if i in commitments {
          recs := recs + [commitments[i]];
        }
      }
      var spent := Listed(nullifiers);
      var spentRecords := ListedRecords(nullifierRecords);
      snap := ScannerSnapshot(cursorLedger, recs, spent, Some(spentRecords), mvkBindings);
    }

    /** The pool leaves in leaf order, or the first index no event was seen for. */
    method OrderedLeaves() returns (r: Result<seq<int>, ScannerError>)
      ensures r.Success? <==> forall i :: 0 <= i < extent ==> i in commitments
      ensures r.Success? ==> |r.value| == extent && forall i :: 0 <= i < extent ==>
              r.value[i] == commitments[i].commitment
      ensures r.Failure? ==> r.error.index < extent && r.error.index !in commitments
                             && forall i :: 0 <= i < r.error.index ==> i in commitments
    {
      var out: seq<int> := [];
      for i := 0 to extent
        invariant |out| == i
        invariant forall k :: 0 <= k < i ==> k in commitments && out[k] == commitments[k].commitment
      {
        if i !in commitments {
          return Failure(CommitmentLeafMissing(i));
        }
        out := out + [commitments[i].commitment];
      }
      r := Success(out);
    }

    /** Trial-decrypt every discovery ciphertext. */
    method Scan(v: Viewer) returns (notes: seq<DiscoveredNote>)
      ensures notes == Scanned(State(), v, extent)
    {
      notes := [];
      for i := 0 to extent
        invariant notes == Scanned(State(), v, i)
      {
        if i in commitments {
          var rec := commitments[i];
          var plain := v.open(rec.ciphertext);
          if plain.Some? && v.commitmentOf(plain.value) == rec.commitment {
            notes := notes + [DiscoveredNote(rec.leafIndex, rec.commitment, plain.value)];
          }
        }
      }
    }

    /** The owned notes whose nullifier is not yet spent. */
    method Spendable(v: Viewer) returns (notes: seq<DiscoveredNote>)
      ensures notes == SpendableIn(State(), v)
    {
      var found := Scan(v);
      notes := [];
      for k := 0 to |found|
        invariant notes == Kept(State(), v, found[..k])
      {
        assert found[..k + 1][..k] == found[..k];
        if v.owns(found[k].plain) && v.nullifierOf(found[k].plain, found[k].leafIndex) !in nullifiers {
          notes := notes + [found[k]];
        }
      }
      assert found[..|found|] == found;
    }

    /** Take over what the scanner this one replaces knew besides. */
    method MergePrevious(previous: NoteScanner)
      requires previous != this && WellKept(State()) && WellKept(previous.State())
      modifies this
      ensures State() == Merged(old(State()), previous.State())
    {
      TakeCommitments(previous);
      nullifiers := nullifiers + previous.nullifiers;
      nullifierRecords := previous.nullifierRecords + nullifierRecords;
      TakeBindings(previous.mvkBindings);
      cursorLedger := Max(cursorLedger, previous.cursorLedger);
    }

    method TakeCommitments(previous: NoteScanner)
      requires previous != this && WellKept(State()) && WellKept(previous.State())
      modifies this`commitments, this`extent
      ensures commitments == previous.commitments + old(commitments) && extent == Max(old(extent), previous.extent)
    {
      ghost var before := State();
      for i := 0 to previous.extent
        invariant TakenOver(before, previous.State(), State(), i)
      {
        if i in previous.commitments && previous.commitments[i].leafIndex !in commitments {
          SlotTaken(before, previous.State(), State(), i);
          var rec := previous.commitments[i];
          commitments := commitments[rec.leafIndex := rec];
          extent := Max(extent, rec.leafIndex + 1);
        }
      }
      assert commitments == previous.commitments + before.commitments;
    }

    method TakeBindings(previous: seq<MvkBindingRecord>)
      modifies this`mvkBindings
      ensures mvkBindings == old(mvkBindings) + Unseen(previous, old(mvkBindings))
    {
      var seen := mvkBindings;
      for k := 0 to |previous|
        invariant mvkBindings == seen + Unseen(previous[..k], seen)
      {
        assert previous[..k + 1][..k] == previous[..k];
        if previous[k] !in seen {
          mvkBindings := mvkBindings + [previous[k]];
        }
      }
      assert previous[..|previous|] == previous;
    }
  }

  /** Part-way through taking over commitments: the first `n` slots are done. */
  ghost predicate TakenOver(before: ScannerState, previous: ScannerState, now: ScannerState, n: nat)
  {
    && (forall i :: i in now.commitments <==> i in before.commitments || (i < n && i in previous.commitments))
    && (forall i :: i in now.commitments && i in before.commitments ==> now.commitments[i] == before.commitments[i])
    && (forall i :: i in now.commitments && i !in before.commitments ==> now.commitments[i] == previous.commitments[i])
    && (forall i :: i in now.commitments ==> i < now.extent)
    && before.extent <= now.extent <= Max(before.extent, previous.extent)
  }

  lemma {:induction false} SlotTaken(before: ScannerState, previous: ScannerState, now: ScannerState, n: nat)
    requires TakenOver(before, previous, now, n) && WellKept(previous) && n in previous.commitments
    requires n !in now.commitments
    ensures TakenOver(before, previous,
                      now.(commitments := now.commitments[n := previous.commitments[n]],
                        extent := Max(now.extent, n + 1)), n + 1)
  {
  }

  /** The elements of a set, in some order. */
  method Listed<X(==, !new)>(s: set<X>) returns (xs: seq<X>)
    ensures Lists(xs, s)
  {
    xs := [];
    var rest := s;
    while rest != {}
      invariant rest <= s && forall x :: x in xs <==> x in s && x !in rest
      decreases rest
    {
      var x :| x in rest;
      xs := xs + [x];
      rest := rest - {x};
    }
  }

  method ListedRecords(records: map<nat, NullifierRecord>) returns (recs: seq<NullifierRecord>)
    requires forall n :: n in records ==> records[n].nullifier == n
    ensures ListsRecords(recs, records)
  {
    var keys := Listed(records.Keys);
    recs := [];
    for k := 0 to |keys|
      invariant forall n :: n in keys[..k] ==> records[n] in recs
      invariant forall r :: r in recs ==> r.nullifier in records && records[r.nullifier] == r
    {
      assert keys[k] in keys;
      var rec := records[keys[k]];
      assert rec.nullifier == keys[k];
      recs := recs + [rec];
    }
    assert keys[..|keys|] == keys;
  }
}
