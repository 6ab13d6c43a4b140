/** From log to notes: after syncs that read the whole log, the notes the scanner calls spendable are
    exactly the leaves that the log tells the viewer of. */
module ScannerLedger {
  import opened Wrappers
  import opened EventPaging
  import opened Scanner
  import opened ScannerSync
  import Amounts
  import PoolLedger

  ghost predicate Announced(log: seq<Event<PoolEvent>>, n: nat, nullifier: nat)
    requires n <= |log|
  {
    exists k {:trigger log[k]} :: 0 <= k < n && log[k].payload == NewNullifier(nullifier)
  }

  /** The viewer decrypts this commitment to a note it owns. */
  predicate Mine(rec: CommitmentRecord, v: Viewer)
  {
    Opened(rec, v).Some? && v.owns(Opened(rec, v).value)
  }

  /** One leaf, as the viewer sees it: its own and not announced as spent exactly if it is in `keep`,
      and then with the ledger's amount. */
  ghost predicate Reveals(
      log: seq<Event<PoolEvent>>, rec: CommitmentRecord, v: Viewer, l: PoolLedger.Ledger, keep: set<nat>)
  {
    && rec.leafIndex < |l.leaves|
    && (Mine(rec, v) && !Announced(log, |log|, v.nullifierOf(Opened(rec, v).value, rec.leafIndex))
        <==> rec.leafIndex in keep)
    && (rec.leafIndex in keep ==> Opened(rec, v).value.amount == l.leaves[rec.leafIndex].amount)
  }

  /** The log tells the viewer of a leaf of the ledger exactly if it is in `keep`. */
  ghost predicate Records(log: seq<Event<PoolEvent>>, v: Viewer, l: PoolLedger.Ledger, keep: set<nat>)
  {
    && InsertsInOrder(log) && |LeavesOf(log, |log|)| == |l.leaves|
    && forall k {:trigger log[k]} :: 0 <= k < |log| && log[k].payload.NewCommitment? ==>
         Reveals(log, RecordOf(log[k]), v, l, keep)
  }

  function AsSpendable(notes: seq<DiscoveredNote>): seq<Amounts.SpendableNote>
  {
    if notes == [] then []
    else
      AsSpendable(notes[..|notes| - 1])
      + [Amounts.SpendableNote(notes[|notes| - 1].plain.amount, notes[|notes| - 1].leafIndex)]
  }

  lemma {:induction false} NullifiersAreAnnounced(log: seq<Event<PoolEvent>>, n: nat, x: nat)
    requires n <= |log|
    ensures x in UpTo(log, n).nullifiers <==> Announced(log, n, x)
  {
    if n == 0 {
    } else {
      NullifiersAreAnnounced(log, n - 1, x);
      UpToStep(log, n - 1);
      assert Announced(log, n, x) <==> Announced(log, n - 1, x) || log[n - 1].payload == NewNullifier(x);
    }
  }

  lemma {:induction false} RecordsComeFromTheLog(log: seq<Event<PoolEvent>>, n: nat, i: nat) returns (k: nat)
    requires n <= |log| && i in UpTo(log, n).commitments
    ensures k < n && log[k].payload.NewCommitment? && UpTo(log, n).commitments[i] == RecordOf(log[k])
    ensures log[k].payload.index == i
  {
    UpToStep(log, n - 1);
    if log[n - 1].payload.NewCommitment? && log[n - 1].payload.index == i {
      k := n - 1;
    } else {
      k := RecordsComeFromTheLog(log, n - 1, i);
    }
  }

  /** Some event of the first `n` records leaf `i`. */
  ghost predicate Inserted(log: seq<Event<PoolEvent>>, n: nat, i: nat)
    requires n <= |log|
  {
    exists k {:trigger log[k]} :: 0 <= k < n && log[k].payload.NewCommitment? && log[k].payload.index == i
  }

  /** A scan of the log holds what the log says, word for word, and nothing else: every leaf inserted, every
      nullifier announced, every binding, each with its ledger, time and transaction. */
  lemma {:induction false} ScanIsTheLog(log: seq<Event<PoolEvent>>, n: nat)
    requires OnChain(log) && n <= |log|
    ensures var st := UpTo(log, n);
            && (forall i {:trigger i in st.commitments} :: i in st.commitments <==> Inserted(log, n, i))
            && (forall x {:trigger x in st.nullifiers} :: x in st.nullifiers <==> Announced(log, n, x))
            && st.nullifierRecords.Keys == st.nullifiers
            && (forall k {:trigger log[k]} :: 0 <= k < n ==> Holds(st, log[k]))
            && st.mvkBindings == BindingsOf(log, n)
            && st.cursorLedger == if n == 0 then 1 else log[n - 1].Ledger()
  {
    var st := UpTo(log, n);
    forall i ensures i in st.commitments <==> Inserted(log, n, i) {
      if i in st.commitments {
        var k := RecordsComeFromTheLog(log, n, i);
      }
      if Inserted(log, n, i) {
        var k :| 0 <= k < n && log[k].payload.NewCommitment? && log[k].payload.index == i;
        PrefixKnows(log, n, k);
      }
    }
    forall x ensures x in st.nullifiers <==> Announced(log, n, x) {
      NullifiersAreAnnounced(log, n, x);
    }
    forall k | 0 <= k < n ensures Holds(st, log[k]) {
      PrefixKnows(log, n, k);
    }
    RecordsAndBindings(log, n);
    CursorOf(log, n);
  }

  /** The event is on record as it was. */
  ghost predicate Holds(st: ScannerState, e: Event<PoolEvent>)
  {
    match e.payload
    case NewCommitment(index, commitment, ciphertext, mvkTag) =>
      && index in st.commitments
      && st.commitments[index]
         == CommitmentRecord(index, commitment, ciphertext, mvkTag, e.Ledger(), e.closedAt, e.txHash)
    case NewNullifier(nullifier) =>
      && nullifier in st.nullifierRecords
      && st.nullifierRecords[nullifier] == NullifierRecord(nullifier, e.Ledger(), e.closedAt, e.txHash)
    case MvkBound(tag, mvkCt) => MvkBindingRecord(tag, mvkCt, e.Ledger()) in st.mvkBindings
    case OtherEvent => true
  }

  /** The bindings of the first `n` events, in order. */
  function BindingsOf(log: seq<Event<PoolEvent>>, n: nat): seq<MvkBindingRecord>
    requires n <= |log|
  {
    if n == 0 then []
    else
      match log[n - 1].payload
      case MvkBound(tag, mvkCt) => BindingsOf(log, n - 1) + [MvkBindingRecord(tag, mvkCt, log[n - 1].Ledger())]
      case _ => BindingsOf(log, n - 1)
  }

  lemma {:induction false} RecordsAndBindings(log: seq<Event<PoolEvent>>, n: nat)
    requires n <= |log|
    ensures UpTo(log, n).nullifierRecords.Keys == UpTo(log, n).nullifiers
    ensures UpTo(log, n).mvkBindings == BindingsOf(log, n)
  {
    if n == 0 {
    } else {
      RecordsAndBindings(log, n - 1);
      UpToStep(log, n - 1);
    }
  }

  /** The scan shows slot `i` exactly if leaf `i` is in `keep`, with the ledger's amount. */
  ghost predicate SlotMatches(st: ScannerState, v: Viewer, l: PoolLedger.Ledger, keep: set<nat>, i: nat)
  {
    && i < |l.leaves| && i in st.commitments && st.commitments[i].leafIndex == i
    && var rec := st.commitments[i];
       && (Mine(rec, v) && v.nullifierOf(Opened(rec, v).value, i) !in st.nullifiers <==> i in keep)
       && (i in keep ==> Opened(rec, v).value.amount == l.leaves[i].amount)
  }

  lemma {:induction false} EachSlotMatches(
      log: seq<Event<PoolEvent>>, v: Viewer, l: PoolLedger.Ledger, keep: set<nat>, i: nat)
    requires Records(log, v, l, keep) && i < |l.leaves|
    ensures SlotMatches(UpTo(log, |log|), v, l, keep, i)
  {
    var st := UpTo(log, |log|);
    PrefixHoldsLeaves(log, |log|);
    var k := RecordsComeFromTheLog(log, |log|, i);
    var rec := st.commitments[i];
    assert Reveals(log, RecordOf(log[k]), v, l, keep);
    if Mine(rec, v) {
      NullifiersAreAnnounced(log, |log|, v.nullifierOf(Opened(rec, v).value, i));
    }
  }

  /** Slot by slot, scanning and filtering lists the leaves in `keep`. */
  lemma {:induction false} SlotsMatch(st: ScannerState, v: Viewer, l: PoolLedger.Ledger, keep: set<nat>, n: nat)
    requires n <= |l.leaves|
    requires forall i: nat {:trigger SlotMatches(st, v, l, keep, i)} :: i < n ==> SlotMatches(st, v, l, keep, i)
    ensures AsSpendable(Kept(st, v, Scanned(st, v, n))) == PoolLedger.Listed(l, keep, n)
  {
    if n == 0 {
    } else {
      SlotsMatch(st, v, l, keep, n - 1);
      assert SlotMatches(st, v, l, keep, n - 1);
      OneMoreSlot(st, v, l, keep, n);
    }
  }

  lemma {:induction false} OneMoreSlot(st: ScannerState, v: Viewer, l: PoolLedger.Ledger, keep: set<nat>, n: nat)
    requires 0 < n <= |l.leaves| && SlotMatches(st, v, l, keep, n - 1)
    requires AsSpendable(Kept(st, v, Scanned(st, v, n - 1))) == PoolLedger.Listed(l, keep, n - 1)
    ensures AsSpendable(Kept(st, v, Scanned(st, v, n))) == PoolLedger.Listed(l, keep, n)
  {
    var rec, before := st.commitments[n - 1], Scanned(st, v, n - 1);
    if Opened(rec, v).Some? {
      KeptMore(st, v, before, DiscoveredNote(rec.leafIndex, rec.commitment, Opened(rec, v).value));
    } else {
      assert before + [] == before;
    }
  }

  lemma {:induction false} KeptMore(st: ScannerState, v: Viewer, notes: seq<DiscoveredNote>, d: DiscoveredNote)
    ensures AsSpendable(Kept(st, v, notes + [d])) ==
            AsSpendable(Kept(st, v, notes))
            + if Unspent(st, v, d) then [Amounts.SpendableNote(d.plain.amount, d.leafIndex)] else []
  {
    assert (notes + [d])[..|notes|] == notes;
    var kept := Kept(st, v, notes);
    if Unspent(st, v, d) {
      assert (kept + [d])[..|kept|] == kept;
    } else {
      assert kept + [] == kept && AsSpendable(kept) + [] == AsSpendable(kept);
    }
  }

  /** Whatever syncs, crashes, restarts and recoveries led there: once the run has reached past the
      last event, the scanner shows exactly the leaves in `keep`. */
  lemma {:induction false} ScannerShows(
      log: seq<Event<PoolEvent>>, ops: seq<Op>, v: Viewer, l: PoolLedger.Ledger, keep: set<nat>)
    requires OnChain(log) && PlausibleRun(log, ops)
    requires forall k {:trigger log[k]} :: 0 <= k < |log| ==> log[k].Ledger() < ReachOf(ops).live
    requires Records(log, v, l, keep)
    ensures AsSpendable(SpendableIn(After(ops).live, v)) == PoolLedger.Listed(l, keep, |l.leaves|)
  {
    var n, _ := RunsFollowTheLog(log, ops);
    assert |log| > 0 ==> log[|log| - 1].Ledger() < ReachOf(ops).live;
    PrefixHoldsLeaves(log, |log|);
    var st := UpTo(log, |log|);
    forall i: nat | i < |l.leaves| ensures SlotMatches(st, v, l, keep, i) {
      EachSlotMatches(log, v, l, keep, i);
    }
    SlotsMatch(st, v, l, keep, |l.leaves|);
    AlikeSpendable(After(ops).live, st, v, |l.leaves|);
  }

  lemma {:induction false} AlikeSpendable(a: ScannerState, b: ScannerState, v: Viewer, n: nat)
    requires Alike(a, b)
    ensures Scanned(a, v, n) == Scanned(b, v, n)
    ensures Kept(a, v, Scanned(a, v, n)) == Kept(b, v, Scanned(b, v, n))
  {
    if n == 0 {
    } else {
      AlikeSpendable(a, b, v, n - 1);
    }
    AlikeKept(a, b, v, Scanned(a, v, n));
  }

  lemma {:induction false} AlikeKept(a: ScannerState, b: ScannerState, v: Viewer, notes: seq<DiscoveredNote>)
    requires Alike(a, b)
    ensures Kept(a, v, notes) == Kept(b, v, notes)
  {
    if notes == [] {
    } else {
      AlikeKept(a, b, v, notes[..|notes| - 1]);
    }
  }
}
