/** Resumable sync: any mix of incremental syncs, restarts from a snapshot and gap recoveries
    leaves the scanner with exactly what one scan of the log from genesis would have found. */
module ScannerSync {
  import opened Wrappers
  import opened EventPaging
  import opened Scanner

  /** The log identifies what it records: a leaf is inserted once, a nullifier is spent once. */
  predicate SameKey(a: PoolEvent, b: PoolEvent)
  {
    || (a.NewCommitment? && b.NewCommitment? && a.index == b.index)
    || (a.NewNullifier? && b.NewNullifier? && a.nullifier == b.nullifier)
  }

  ghost predicate OnChain(log: seq<Event<PoolEvent>>)
  {
    && SortedLog(log)
    && (forall k {:trigger log[k]} :: 0 <= k < |log| ==> log[k].Ledger() >= 1)
    && (forall i, j {:trigger SameKey(log[i].payload, log[j].payload)} ::
          0 <= i < j < |log| ==> !SameKey(log[i].payload, log[j].payload))
  }

  /** What a scan from genesis knows after the first `n` events. */
  function UpTo(log: seq<Event<PoolEvent>>, n: nat): ScannerState
    requires n <= |log|
  {
    IngestedAll(Fresh(1), log[..n])
  }

  lemma {:induction false} UpToStep(log: seq<Event<PoolEvent>>, n: nat)
    requires n < |log|
    ensures UpTo(log, n + 1) == Ingested(UpTo(log, n), log[n])
  {
    assert log[..n + 1][..n] == log[..n];
  }

  /** Equal, except that bindings may be listed in another order or more than once. */
  ghost predicate Alike(a: ScannerState, b: ScannerState)
  {
    && a.(mvkBindings := b.mvkBindings) == b
    && forall x :: x in a.mvkBindings <==> x in b.mvkBindings
  }

  // ----- re-reading events -----

  lemma {:induction false} IngestTwice(st: ScannerState, e: Event<PoolEvent>)
    ensures Alike(Ingested(Ingested(st, e), e), Ingested(st, e))
  {
  }

  lemma {:induction false} IngestsCommute(st: ScannerState, a: Event<PoolEvent>, b: Event<PoolEvent>)
    requires !SameKey(a.payload, b.payload)
    ensures Alike(Ingested(Ingested(st, a), b), Ingested(Ingested(st, b), a))
  {
    if a.payload.MvkBound? {
      BindingCommutes(st, a, b);
    } else if b.payload.MvkBound? {
      BindingCommutes(st, b, a);
    } else if a.payload.NewCommitment? && b.payload.NewCommitment? {
      CommitmentsCommute(st, a, b);
    } else if a.payload.NewNullifier? && b.payload.NewNullifier? {
      NullifiersCommute(st, a, b);
    }
  }

  /** Two bindings may end up listed in either order. */
  lemma {:induction false} BindingCommutes(st: ScannerState, a: Event<PoolEvent>, b: Event<PoolEvent>)
    requires a.payload.MvkBound?
    ensures Alike(Ingested(Ingested(st, a), b), Ingested(Ingested(st, b), a))
    ensures Alike(Ingested(Ingested(st, b), a), Ingested(Ingested(st, a), b))
  {
  }

  lemma {:induction false} CommitmentsCommute(st: ScannerState, a: Event<PoolEvent>, b: Event<PoolEvent>)
    requires a.payload.NewCommitment? && b.payload.NewCommitment? && a.payload.index != b.payload.index
    ensures Ingested(Ingested(st, a), b) == Ingested(Ingested(st, b), a)
  {
    StoresCommute(st.commitments, a.payload.index, RecordOf(a), b.payload.index, RecordOf(b));
  }

  lemma {:induction false} NullifiersCommute(st: ScannerState, a: Event<PoolEvent>, b: Event<PoolEvent>)
    requires a.payload.NewNullifier? && b.payload.NewNullifier? && a.payload.nullifier != b.payload.nullifier
    ensures Ingested(Ingested(st, a), b) == Ingested(Ingested(st, b), a)
  {
    StoresCommute(st.nullifierRecords, a.payload.nullifier, SpentBy(a), b.payload.nullifier, SpentBy(b));
    assert st.nullifiers + {a.payload.nullifier} + {b.payload.nullifier}
        == st.nullifiers + {b.payload.nullifier} + {a.payload.nullifier};
  }

  lemma {:induction false} StoresCommute<K, V>(m: map<K, V>, i: K, x: V, j: K, y: V)
    requires i != j
    ensures m[i := x][j := y] == m[j := y][i := x]
  {
  }

  /** Re-reading an event that is already known changes nothing. */
  lemma {:induction false} ReplayOne(log: seq<Event<PoolEvent>>, n: nat, k: nat)
    requires OnChain(log) && k < n <= |log|
    ensures Alike(Ingested(UpTo(log, n), log[k]), UpTo(log, n))
  {
    var before := UpTo(log, n - 1);
    UpToStep(log, n - 1);
    if k == n - 1 {
      IngestTwice(before, log[k]);
    } else {
      ReplayOne(log, n - 1, k);
      assert !SameKey(log[k].payload, log[n - 1].payload);
      KnownStaysKnown(before, log[n - 1], log[k]);
    }
  }

  /** What ingesting one event again does not change, it does not change after another event either. */
  lemma {:induction false} KnownStaysKnown(st: ScannerState, a: Event<PoolEvent>, b: Event<PoolEvent>)
    requires !SameKey(a.payload, b.payload) && Alike(Ingested(st, b), st)
    ensures Alike(Ingested(Ingested(st, a), b), Ingested(st, a))
  {
    IngestsCommute(st, a, b);
    IngestAlike(Ingested(st, b), st, a);
    AlikeTransitive(Ingested(Ingested(st, a), b), Ingested(Ingested(st, b), a), Ingested(st, a));
  }

  lemma {:induction false} IngestAlike(x: ScannerState, y: ScannerState, e: Event<PoolEvent>)
    requires Alike(x, y)
    ensures Alike(Ingested(x, e), Ingested(y, e))
  {
  }

  lemma {:induction false} AlikeTransitive(x: ScannerState, y: ScannerState, z: ScannerState)
    requires Alike(x, y) && Alike(y, z)
    ensures Alike(x, z)
  {
  }

  lemma {:induction false} ReplayNext(log: seq<Event<PoolEvent>>, st: ScannerState, n: nat, p: nat)
    requires OnChain(log) && n <= |log| && p < |log| && Alike(st, UpTo(log, Max(n, p)))
    ensures Alike(Ingested(st, log[p]), UpTo(log, Max(n, p + 1)))
  {
    if p < n {
      ReplayOne(log, n, p);
    } else {
      UpToStep(log, p);
    }
  }

  lemma {:induction false} IngestedStretch(log: seq<Event<PoolEvent>>, st: ScannerState, i: nat, j: nat)
    requires i < j <= |log|
    ensures IngestedAll(st, log[i..j]) == Ingested(IngestedAll(st, log[i..j - 1]), log[j - 1])
  {
    assert log[i..j][..j - 1 - i] == log[i..j - 1];
  }

  lemma {:induction false} ReplayMore(log: seq<Event<PoolEvent>>, st: ScannerState, n: nat, i: nat, j: nat)
    requires OnChain(log) && i <= n <= |log| && i < j <= |log|
    requires Alike(IngestedAll(st, log[i..j - 1]), UpTo(log, Max(n, j - 1)))
    ensures Alike(IngestedAll(st, log[i..j]), UpTo(log, Max(n, j)))
  {
    IngestedStretch(log, st, i, j);
    ReplayTo(log, IngestedAll(st, log[i..j - 1]), IngestedAll(st, log[i..j]), n, j);
  }

  lemma {:induction false} ReplayTo(
      log: seq<Event<PoolEvent>>, st: ScannerState, next: ScannerState, n: nat, j: nat)
    requires OnChain(log) && n <= |log| && 0 < j <= |log| && Alike(st, UpTo(log, Max(n, j - 1)))
    requires next == Ingested(st, log[j - 1])
    ensures Alike(next, UpTo(log, Max(n, j)))
  {
    ReplayNext(log, st, n, j - 1);
  }

  /** Reading a stretch that overlaps what is known extends the knowledge to its end. */
  lemma {:induction false} ReplayStretch(log: seq<Event<PoolEvent>>, st: ScannerState, n: nat, i: nat, j: nat)
    requires OnChain(log) && i <= n <= |log| && i <= j <= |log| && Alike(st, UpTo(log, n))
    ensures Alike(IngestedAll(st, log[i..j]), UpTo(log, Max(n, j)))
    decreases j
  {
    if i < j {
      ReplayStretch(log, st, n, i, j - 1);
      ReplayMore(log, st, n, i, j);
    } else {
      assert log[i..j] == [];
    }
  }

  lemma {:induction false} CursorOf(log: seq<Event<PoolEvent>>, n: nat)
    requires OnChain(log) && n <= |log|
    ensures UpTo(log, n).cursorLedger == if n == 0 then 1 else log[n - 1].Ledger()
  {
    if n == 0 {
    } else {
      CursorOf(log, n - 1);
      UpToStep(log, n - 1);
    }
  }

  // ----- resuming -----

  const RESUME_WINDOW := 100

  /** Where an incremental sync starts reading. */
  function ResumeFrom(cursorLedger: nat): nat
  {
    if cursorLedger > 0 then Max(1, if cursorLedger > RESUME_WINDOW then cursorLedger - RESUME_WINDOW else 0) else 1
  }

  /** An incremental sync reads a ledger again exactly if it is at most a hundred behind the cursor. */
  lemma {:induction false} ResumeReadsAgain(cursorLedger: nat, ledger: nat)
    requires ledger >= 1
    ensures ResumeFrom(cursorLedger) <= ledger <==> cursorLedger <= ledger + 100
  {
  }

  /** Reading on from ledger `s` after `n` events misses nothing, however the log goes on,
      exactly if `s` is no later than the ledger of the last event read. */
  lemma {:induction false} ResumeIsSafeIff(log: seq<Event<PoolEvent>>, n: nat, s: nat)
    requires OnChain(log) && 0 < n <= |log|
    ensures s <= log[n - 1].Ledger() <==>
            forall more {:trigger OnChain(log[..n] + more)} :: OnChain(log[..n] + more) ==>
              ClosedFrom(log[..n] + more, n, s)
  {
    if s <= log[n - 1].Ledger() {
      forall more | OnChain(log[..n] + more) ensures ClosedFrom(log[..n] + more, n, s) {
        LaterIsNoOlder(log[..n] + more, n, s);
      }
    } else {
      LedgerMayGoOn(log, n, s, OtherEvent);
      var next := NextInLedger(log[n - 1], OtherEvent);
      assert OnChain(log[..n] + [next]);
    }
  }

  lemma {:induction false} ResumeWindowIsSafe(log: seq<Event<PoolEvent>>, st: ScannerState, n: nat)
    requires OnChain(log) && n <= |log| && Alike(st, UpTo(log, n))
    ensures ClosedFrom(log, n, ResumeFrom(st.cursorLedger))
  {
    CursorOf(log, n);
    if n > 0 {
      LaterIsNoOlder(log, n, ResumeFrom(st.cursorLedger));
    }
  }

  // ----- runs -----

  /** The scanner in memory and the snapshot in the durable store, if there is one. */
  datatype Client = Client(live: ScannerState, stored: Option<ScannerSnapshot>)

  /** What can happen to a client: it reads events into the scanner, it stores a snapshot, it comes
      back from whatever snapshot is stored, or it re-scans from genesis to recover from a gap and
      either keeps the merged scanner or goes back to the previous one. */
  datatype Op = Sync(rpc: Rpc<PoolEvent>) | Persist(snap: ScannerSnapshot) | Restart
    | Recover(rpc: Rpc<PoolEvent>, kept: bool)

  function SyncedFrom(st: ScannerState, rpc: Rpc<PoolEvent>, start: nat): ScannerState
  {
    var collected := Collected(rpc, start);
    if collected.Success? then IngestedAll(st, collected.value) else st
  }

  function Recovered(st: ScannerState, rpc: Rpc<PoolEvent>): ScannerState
  {
    if Collected(rpc, 1).Success? then Merged(SyncedFrom(Fresh(1), rpc, 1), st) else st
  }

  function Loaded(stored: Option<ScannerSnapshot>): ScannerState
  {
    if stored.Some? then Restored(stored.value) else Fresh(1)
  }

  function AfterOp(c: Client, op: Op): Client
  {
    match op
    case Sync(rpc) => c.(live := SyncedFrom(c.live, rpc, ResumeFrom(c.live.cursorLedger)))
    case Persist(snap) => c.(stored := Some(snap))
    case Restart => c.(live := Loaded(c.stored))
    case Recover(rpc, kept) => if kept then c.(live := Recovered(c.live, rpc)) else c
  }

  function RunFrom(c: Client, ops: seq<Op>): Client
  {
    if ops == [] then c else AfterOp(RunFrom(c, ops[..|ops| - 1]), ops[|ops| - 1])
  }

  /** A client that starts with an empty store. */
  function After(ops: seq<Op>): Client
  {
    RunFrom(Client(Fresh(1), None), ops)
  }

  /** Servers are honest and retain the whole log, and what is stored is a snapshot of the scanner. */
  ghost predicate Plausible(log: seq<Event<PoolEvent>>, c: Client, op: Op)
  {
    match op
    case Sync(rpc) => Honest(log, rpc) && Retains(rpc)
    case Persist(snap) => Captures(snap, c.live)
    case Restart => true
    case Recover(rpc, _) => Honest(log, rpc) && Retains(rpc)
  }

  ghost predicate PlausibleRun(log: seq<Event<PoolEvent>>, ops: seq<Op>)
  {
    ops == [] || (PlausibleRun(log, ops[..|ops| - 1]) && Plausible(log, After(ops[..|ops| - 1]), ops[|ops| - 1]))
  }

  /** The ledgers below which the live scanner and the stored snapshot have read everything. */
  datatype Reach = Reach(live: nat, stored: nat)

  function ReachAfter(c: Client, r: Reach, op: Op): Reach
  {
    match op
    case Sync(rpc) =>
      var start := ResumeFrom(c.live.cursorLedger);
      if Collected(rpc, start).Success? then r.(live := Max(r.live, LatestSeen(rpc, start))) else r
    case Persist(_) => r.(stored := r.live)
    case Restart => r.(live := r.stored)
    case Recover(rpc, kept) =>
      if kept && Collected(rpc, 1).Success? then r.(live := Max(r.live, LatestSeen(rpc, 1))) else r
  }

  /** A restart falls back to what the stored snapshot had read. */
  function ReachOf(ops: seq<Op>): Reach
  {
    if ops == [] then Reach(0, 0)
    else ReachAfter(After(ops[..|ops| - 1]), ReachOf(ops[..|ops| - 1]), ops[|ops| - 1])
  }

  /** `st` is alike to a scan from genesis of the first `n` events, which are complete below `reach`. */
  ghost predicate Follows(log: seq<Event<PoolEvent>>, st: ScannerState, n: nat, reach: nat)
  {
    n <= |log| && Alike(st, UpTo(log, n)) && WellKept(st) && ClosedFrom(log, n, reach)
  }

  /** Syncing from a safe start: the state is still a prefix scan, and reaches what was read. */
  lemma {:induction false} SyncExtends(
      log: seq<Event<PoolEvent>>, st: ScannerState, n: nat, rpc: Rpc<PoolEvent>, start: nat)
    returns (n': nat)
    requires OnChain(log) && n <= |log| && Alike(st, UpTo(log, n)) && ClosedFrom(log, n, start)
    requires Honest(log, rpc) && Retains(rpc)
    ensures n <= n' <= |log| && Alike(SyncedFrom(st, rpc, start), UpTo(log, n'))
    ensures Collected(rpc, start).Success? ==> ClosedFrom(log, n', LatestSeen(rpc, start))
  {
    n' := n;
    if Collected(rpc, start).Success? {
      assert !AgedOut(rpc(0, FromLedger(start)));
      OpeningFacts(rpc, start, 0);
      var i, j := CollectionIsComplete(log, rpc, start);
      if n < |log| {
        assert log[n].Ledger() >= start;
      }
      ReplayStretch(log, st, n, i, j);
      n' := Max(n, j);
    }
  }

  /** Every run leaves both the scanner and the stored snapshot alike to a scan from genesis of some
      prefix of the log, complete below the ledger they have reached. */
  lemma {:induction false} RunsFollowTheLog(log: seq<Event<PoolEvent>>, ops: seq<Op>) returns (n: nat, m: nat)
    requires OnChain(log) && PlausibleRun(log, ops)
    ensures Follows(log, After(ops).live, n, ReachOf(ops).live)
    ensures Follows(log, Loaded(After(ops).stored), m, ReachOf(ops).stored)
  {
    if ops == [] {
      n, m := 0, 0;
      assert log[..0] == [];
    } else {
      var before, op := ops[..|ops| - 1], ops[|ops| - 1];
      var n0, m0 := RunsFollowTheLog(log, before);
      n, m := OpFollowsTheLog(log, After(before), n0, m0, ReachOf(before), op);
    }
  }

  lemma {:induction false} OpFollowsTheLog(log: seq<Event<PoolEvent>>, c: Client, n: nat, m: nat, r: Reach, op: Op)
    returns (n': nat, m': nat)
    requires OnChain(log) && Plausible(log, c, op)
    requires Follows(log, c.live, n, r.live) && Follows(log, Loaded(c.stored), m, r.stored)
    ensures var c', r' := AfterOp(c, op), ReachAfter(c, r, op);
            Follows(log, c'.live, n', r'.live) && Follows(log, Loaded(c'.stored), m', r'.stored)
  {
    n', m' := n, m;
    match op {
      case Sync(rpc) =>
        n' := SyncFollows(log, c.live, n, r.live, rpc);
      case Persist(snap) =>
        RestoreIsExact(snap, c.live);
        m' := n;
      case Restart =>
        n' := m;
      case Recover(rpc, kept) =>
        if kept {
          n' := RecoveryFollows(log, c.live, n, r.live, rpc);
        }
    }
  }

  lemma {:induction false} SyncFollows(
      log: seq<Event<PoolEvent>>, st: ScannerState, n: nat, reach: nat, rpc: Rpc<PoolEvent>)
    returns (n': nat)
    requires OnChain(log) && Follows(log, st, n, reach) && Honest(log, rpc) && Retains(rpc)
    ensures var start := ResumeFrom(st.cursorLedger);
            Follows(log, SyncedFrom(st, rpc, start), n',
              if Collected(rpc, start).Success? then Max(reach, LatestSeen(rpc, start)) else reach)
  {
    ResumeWindowIsSafe(log, st, n);
    n' := SyncExtends(log, st, n, rpc, ResumeFrom(st.cursorLedger));
    if Collected(rpc, ResumeFrom(st.cursorLedger)).Success? {
      IngestKeepsRecords(st, Collected(rpc, ResumeFrom(st.cursorLedger)).value);
    }
  }

  lemma {:induction false} RecoveryFollows(
      log: seq<Event<PoolEvent>>, st: ScannerState, n: nat, reach: nat, rpc: Rpc<PoolEvent>)
    returns (n': nat)
    requires OnChain(log) && Follows(log, st, n, reach) && Honest(log, rpc) && Retains(rpc)
    ensures Follows(log, Recovered(st, rpc), n',
              if Collected(rpc, 1).Success? then Max(reach, LatestSeen(rpc, 1)) else reach)
  {
    n' := RecoveryFollowsTheLog(log, st, n, rpc);
    PrefixIsWellKept(log, n');
    AlikeIsWellKept(Recovered(st, rpc), UpTo(log, n'));
  }

  lemma {:induction false} AlikeIsWellKept(a: ScannerState, b: ScannerState)
    requires Alike(a, b) && WellKept(b)
    ensures WellKept(a)
  {
  }

  lemma {:induction false} PrefixIsWellKept(log: seq<Event<PoolEvent>>, n: nat)
    requires n <= |log|
    ensures WellKept(UpTo(log, n))
  {
    IngestKeepsRecords(Fresh(1), log[..n]);
  }

  // ----- recovery -----

  lemma {:induction false} RecoveryFollowsTheLog(
      log: seq<Event<PoolEvent>>, st: ScannerState, m: nat, rpc: Rpc<PoolEvent>)
    returns (n: nat)
    requires OnChain(log) && m <= |log| && Alike(st, UpTo(log, m)) && Honest(log, rpc) && Retains(rpc)
    ensures m <= n <= |log| && Alike(Recovered(st, rpc), UpTo(log, n))
    ensures Collected(rpc, 1).Success? ==> ClosedFrom(log, n, LatestSeen(rpc, 1))
  {
    n := m;
    if Collected(rpc, 1).Success? {
      assert log[..0] == [];
      var k := SyncExtends(log, Fresh(1), 0, rpc, 1);
      n := Max(m, k);
      MergeOfPrefixes(log, SyncedFrom(Fresh(1), rpc, 1), k, st, m);
    }
  }

  /** Merging two prefix scans gives the longer one. */
  lemma {:induction false} MergeOfPrefixes(
      log: seq<Event<PoolEvent>>, a: ScannerState, m: nat, b: ScannerState, n: nat)
    requires OnChain(log) && m <= |log| && n <= |log| && Alike(a, UpTo(log, m)) && Alike(b, UpTo(log, n))
    ensures Alike(Merged(a, b), UpTo(log, Max(m, n)))
  {
    if m <= n {
      PrefixGrows(log, m, n);
      MergeOfNested(UpTo(log, m), UpTo(log, n));
    } else {
      PrefixGrows(log, n, m);
      MergeOfNested(UpTo(log, n), UpTo(log, m));
    }
    forall x ensures x in Merged(a, b).mvkBindings <==> x in UpTo(log, Max(m, n)).mvkBindings {
      UnseenExactly(b.mvkBindings, a.mvkBindings, x);
    }
  }

  /** Merging a scan into one that extends it, or the other way round, gives the larger. */
  lemma {:induction false} MergeOfNested(small: ScannerState, large: ScannerState)
    requires Extends(large, small)
    ensures var a := Merged(small, large); var b := Merged(large, small);
            && a.(mvkBindings := large.mvkBindings) == large && b.(mvkBindings := large.mvkBindings) == large
  {
  }

  lemma {:induction false} UnseenExactly(
      previous: seq<MvkBindingRecord>, retained: seq<MvkBindingRecord>, x: MvkBindingRecord)
    ensures x in Unseen(previous, retained) <==> x in previous && x !in retained
  {
    if previous == [] {
    } else {
      UnseenExactly(previous[..|previous| - 1], retained, x);
      assert previous == previous[..|previous| - 1] + [previous[|previous| - 1]];
    }
  }

  /** Everything `a` holds, `b` holds unchanged. */
  ghost predicate Extends(b: ScannerState, a: ScannerState)
  {
    && (forall i :: i in a.commitments ==> i in b.commitments && b.commitments[i] == a.commitments[i])
    && (forall x :: x in a.nullifierRecords ==>
          x in b.nullifierRecords && b.nullifierRecords[x] == a.nullifierRecords[x])
    && a.nullifiers <= b.nullifiers && a.extent <= b.extent && a.cursorLedger <= b.cursorLedger
    && forall x :: x in a.mvkBindings ==> x in b.mvkBindings
  }

  /** A longer prefix holds all of a shorter one, and what it holds besides is from later events. */
  lemma {:induction false} PrefixGrows(log: seq<Event<PoolEvent>>, m: nat, n: nat)
    requires OnChain(log) && m <= n <= |log|
    ensures Extends(UpTo(log, n), UpTo(log, m))
  {
    if m == n {
    } else {
      var k := n - 1;
      PrefixGrows(log, m, k);
      PrefixGrowsMore(log, m, k);
    }
  }

  lemma {:induction false} PrefixGrowsMore(log: seq<Event<PoolEvent>>, m: nat, n: nat)
    requires OnChain(log) && m <= n < |log| && Extends(UpTo(log, n), UpTo(log, m))
    ensures Extends(UpTo(log, n + 1), UpTo(log, m))
  {
    KeyIsNew(log, n);
    UpToStep(log, n);
    ExtendsMore(UpTo(log, n), UpTo(log, m), log[n]);
  }

  lemma {:induction false} ExtendsMore(st: ScannerState, small: ScannerState, e: Event<PoolEvent>)
    requires Extends(st, small) && NewKey(st, e.payload)
    ensures Extends(Ingested(st, e), small)
  {
  }

  ghost predicate NewKey(st: ScannerState, key: PoolEvent)
  {
    && (key.NewCommitment? ==> key.index !in st.commitments)
    && (key.NewNullifier? ==> key.nullifier !in st.nullifierRecords)
  }

  /** The next event's key is not known yet. */
  lemma {:induction false} KeyIsNew(log: seq<Event<PoolEvent>>, n: nat)
    requires OnChain(log) && n < |log|
    ensures NewKey(UpTo(log, n), log[n].payload)
  {
    KeysComeFromTheLog(log, n, log[n].payload);
  }

  lemma {:induction false} KeysComeFromTheLog(log: seq<Event<PoolEvent>>, n: nat, key: PoolEvent)
    requires n <= |log| && forall k :: 0 <= k < n ==> !SameKey(log[k].payload, key)
    ensures NewKey(UpTo(log, n), key)
  {
    if n == 0 {
    } else {
      KeysComeFromTheLog(log, n - 1, key);
      UpToStep(log, n - 1);
    }
  }

  // ----- incremental equals genesis -----

  /** What an event records, the state holds. */
  ghost predicate Knows(st: ScannerState, e: Event<PoolEvent>)
  {
    match e.payload
    case NewCommitment(index, _, _, _) => index in st.commitments && st.commitments[index] == RecordOf(e)
    case NewNullifier(nullifier) =>
      && nullifier in st.nullifiers && nullifier in st.nullifierRecords
      && st.nullifierRecords[nullifier] == SpentBy(e)
    case MvkBound(tag, mvkCt) => MvkBindingRecord(tag, mvkCt, e.Ledger()) in st.mvkBindings
    case OtherEvent => true
  }

  lemma {:induction false} PrefixKnows(log: seq<Event<PoolEvent>>, n: nat, k: nat)
    requires OnChain(log) && k < n <= |log|
    ensures Knows(UpTo(log, n), log[k])
  {
    UpToStep(log, k);
    PrefixGrows(log, k + 1, n);
  }

  /** No event below the ledger a run has reached is ever missing, whatever happened in between. */
  lemma {:induction false} NothingIsSkipped(log: seq<Event<PoolEvent>>, ops: seq<Op>, k: nat)
    requires OnChain(log) && PlausibleRun(log, ops)
    requires k < |log| && log[k].Ledger() < ReachOf(ops).live
    ensures Knows(After(ops).live, log[k])
  {
    var n, m := RunsFollowTheLog(log, ops);
    PrefixKnows(log, n, k);
  }

  /** Two states agree on everything recorded below a ledger. */
  ghost predicate AgreeBelow(a: ScannerState, b: ScannerState, ledger: nat)
  {
    && (forall i :: i in a.commitments && a.commitments[i].ledger < ledger ==>
          i in b.commitments && b.commitments[i] == a.commitments[i])
    && (forall x :: x in a.nullifierRecords && a.nullifierRecords[x].ledger < ledger ==>
          x in b.nullifierRecords && b.nullifierRecords[x] == a.nullifierRecords[x])
    && (forall x :: x in a.mvkBindings && x.ledger < ledger ==> x in b.mvkBindings)
  }

  lemma {:induction false} PrefixesAgreeBelow(log: seq<Event<PoolEvent>>, m: nat, n: nat, ledger: nat)
    requires OnChain(log) && m <= n <= |log| && ClosedFrom(log, m, ledger)
    ensures AgreeBelow(UpTo(log, n), UpTo(log, m), ledger)
  {
    if m == n {
    } else {
      PrefixesAgreeBelow(log, m, n - 1, ledger);
      AgreeBelowStep(log, m, n - 1, ledger);
    }
  }

  lemma {:induction false} AgreeBelowStep(log: seq<Event<PoolEvent>>, m: nat, n: nat, ledger: nat)
    requires m <= n < |log| && log[n].Ledger() >= ledger && AgreeBelow(UpTo(log, n), UpTo(log, m), ledger)
    ensures AgreeBelow(UpTo(log, n + 1), UpTo(log, m), ledger)
  {
    UpToStep(log, n);
  }

  /** Two runs agree on everything below a ledger that both have reached.  With the second run a
      single sync, which starts at ledger 1, this says: incremental equals genesis. */
  lemma {:induction false} RunsAgree(log: seq<Event<PoolEvent>>, a: seq<Op>, b: seq<Op>, ledger: nat)
    requires OnChain(log) && PlausibleRun(log, a) && PlausibleRun(log, b)
    requires ledger <= ReachOf(a).live && ledger <= ReachOf(b).live
    ensures AgreeBelow(After(a).live, After(b).live, ledger) && AgreeBelow(After(b).live, After(a).live, ledger)
  {
    var m, _ := RunsFollowTheLog(log, a);
    var n, _ := RunsFollowTheLog(log, b);
    if m <= n {
      PrefixesAgreeBelow(log, m, n, ledger);
      PrefixGrows(log, m, n);
    } else {
      PrefixesAgreeBelow(log, n, m, ledger);
      PrefixGrows(log, n, m);
    }
  }

  // ----- rebuilding the pool mirror -----

  /** The pool's leaves after `n` events. */
  function LeavesOf(log: seq<Event<PoolEvent>>, n: nat): seq<int>
    requires n <= |log|
  {
    if n == 0 then []
    else LeavesOf(log, n - 1) + if log[n - 1].payload.NewCommitment? then [log[n - 1].payload.commitment] else []
  }

  /** The pool announces each leaf under the next free index. */
  ghost predicate InsertsInOrder(log: seq<Event<PoolEvent>>)
  {
    forall k {:trigger log[k]} :: 0 <= k < |log| && log[k].payload.NewCommitment? ==>
      log[k].payload.index == |LeavesOf(log, k)|
  }

  /** Every slot of `st` is filled, with the leaves in order: `OrderedLeaves` then succeeds with them. */
  ghost predicate HoldsLeaves(st: ScannerState, leaves: seq<int>)
  {
    && st.extent == |leaves|
    && forall i: nat :: i < |leaves| ==> i in st.commitments && st.commitments[i].commitment == leaves[i]
  }

  lemma {:induction false} PrefixHoldsLeaves(log: seq<Event<PoolEvent>>, n: nat)
    requires InsertsInOrder(log) && n <= |log|
    ensures HoldsLeaves(UpTo(log, n), LeavesOf(log, n))
  {
    if n == 0 {
    } else {
      PrefixHoldsLeaves(log, n - 1);
      EventHoldsLeaves(log, n - 1);
    }
  }

  lemma {:induction false} EventHoldsLeaves(log: seq<Event<PoolEvent>>, n: nat)
    requires InsertsInOrder(log) && n < |log| && HoldsLeaves(UpTo(log, n), LeavesOf(log, n))
    ensures HoldsLeaves(UpTo(log, n + 1), LeavesOf(log, n + 1))
  {
    UpToStep(log, n);
    OneMoreHeld(UpTo(log, n), LeavesOf(log, n), log[n]);
  }

  lemma {:induction false} OneMoreHeld(st: ScannerState, leaves: seq<int>, e: Event<PoolEvent>)
    requires HoldsLeaves(st, leaves) && (e.payload.NewCommitment? ==> e.payload.index == |leaves|)
    ensures HoldsLeaves(Ingested(st, e), if e.payload.NewCommitment? then leaves + [e.payload.commitment] else leaves)
  {
  }

  /** After any run the mirror is rebuilt from a prefix of the pool's leaves, without a gap. */
  lemma {:induction false} RunsHaveNoGaps(log: seq<Event<PoolEvent>>, ops: seq<Op>) returns (n: nat)
    requires OnChain(log) && InsertsInOrder(log) && PlausibleRun(log, ops)
    ensures n <= |log| && HoldsLeaves(After(ops).live, LeavesOf(log, n)) && ClosedFrom(log, n, ReachOf(ops).live)
  {
    var live, _ := RunsFollowTheLog(log, ops);
    n := live;
    PrefixHoldsLeaves(log, n);
  }

  lemma {:induction false} LeavesAreUnique(st: ScannerState, a: seq<int>, b: seq<int>)
    requires HoldsLeaves(st, a) && HoldsLeaves(st, b)
    ensures a == b
  {
  }

  // ----- the client's sync -----

  /** The mirror can be rebuilt and has the root that is on chain. */
  ghost predicate MirrorSynced(st: ScannerState, inSync: seq<int> -> bool)
  {
    exists leaves {:trigger HoldsLeaves(st, leaves)} :: HoldsLeaves(st, leaves) && inSync(leaves)
  }

  /** Rebuild the mirror and compare its root with the chain's. */
  method RebuildMirror(scanner: NoteScanner, inSync: seq<int> -> bool) returns (ok: bool)
    ensures ok <==> MirrorSynced(scanner.State(), inSync)
  {
    var leaves := scanner.OrderedLeaves();
    if leaves.Failure? {
      return false;
    }
    assert HoldsLeaves(scanner.State(), leaves.value);
    forall other | HoldsLeaves(scanner.State(), other) ensures other == leaves.value {
      LeavesAreUnique(scanner.State(), other, leaves.value);
    }
    ok := inSync(leaves.value);
  }

  /** A new scanner that has read from genesis and taken over what the previous one had. */
  method Rescan(previous: NoteScanner, rpc: Rpc<PoolEvent>) returns (retained: NoteScanner, read: bool)
    requires WellKept(previous.State())
    ensures previous.State() == old(previous.State()) && fresh(retained)
    ensures read <==> Collected(rpc, 1).Success?
    ensures read ==> retained.State() == Recovered(previous.State(), rpc) && WellKept(retained.State())
  {
    retained := new NoteScanner(1);
    var r := retained.SyncFromRpc(rpc, 1);
    read := r.Success?;
    if read {
      IngestKeepsRecords(Fresh(1), Collected(rpc, 1).value);
      MergeKeepsRecords(retained.State(), previous.State());
      retained.MergePrevious(previous);
    }
  }

  /** Gap recovery: a new scanner reads from genesis and takes over what the previous one had.  It
      replaces the previous one if its mirror is in sync or gaps are allowed; if it is not, or if
      the reading fails, the previous scanner stays in place. */
  method RecoverScanner(previous: NoteScanner, rpc: Rpc<PoolEvent>, inSync: seq<int> -> bool, allowGaps: bool)
    returns (scanner: NoteScanner, kept: bool, synced: bool)
    requires WellKept(previous.State())
    ensures previous.State() == old(previous.State())
    ensures synced <==> Collected(rpc, 1).Success? && MirrorSynced(Recovered(previous.State(), rpc), inSync)
    ensures kept <==> synced || (allowGaps && Collected(rpc, 1).Success?)
    ensures scanner.State() == if kept then Recovered(previous.State(), rpc) else previous.State()
    ensures WellKept(scanner.State()) && (scanner == previous || fresh(scanner))
  {
    var retained, read := Rescan(previous, rpc);
    if !read {
      return previous, false, false;
    }
    synced := RebuildMirror(retained, inSync);
    if synced || allowGaps {
      return retained, true, synced;
    }
    scanner, kept := previous, false;
  }

  /** `op` is something a sync with these servers may do to `c`. */
  ghost predicate SyncOp(c: Client, op: Op, rpc: Rpc<PoolEvent>, rescan: Rpc<PoolEvent>)
  {
    match op
    case Sync(used) => used == rpc
    case Persist(snap) => Captures(snap, c.live)
    case Restart => false
    case Recover(used, _) => used == rescan
  }

  /** A sync takes `c` to `c'` by such operations. */
  ghost predicate SyncsAs(c: Client, ops: seq<Op>, c': Client, rpc: Rpc<PoolEvent>, rescan: Rpc<PoolEvent>)
  {
    && c' == RunFrom(c, ops)
    && forall k: nat {:trigger SyncOpAt(c, ops, k, rpc, rescan)} :: k < |ops| ==> SyncOpAt(c, ops, k, rpc, rescan)
  }

  ghost predicate SyncOpAt(c: Client, ops: seq<Op>, k: nat, rpc: Rpc<PoolEvent>, rescan: Rpc<PoolEvent>)
    requires k < |ops|
  {
    SyncOp(RunFrom(c, ops[..k]), ops[k], rpc, rescan)
  }

  lemma {:induction false} SyncsMore(
      c: Client, ops: seq<Op>, c': Client, op: Op, rpc: Rpc<PoolEvent>, rescan: Rpc<PoolEvent>)
    requires SyncsAs(c, ops, c', rpc, rescan) && SyncOp(c', op, rpc, rescan)
    ensures SyncsAs(c, ops + [op], AfterOp(c', op), rpc, rescan)
  {
    assert (ops + [op])[..|ops|] == ops;
    forall k: nat | k < |ops + [op]| ensures SyncOpAt(c, ops + [op], k, rpc, rescan) {
      if k < |ops| {
        assert SyncOpAt(c, ops, k, rpc, rescan);
        assert (ops + [op])[..k] == ops[..k];
      }
    }
  }

  /** With honest servers those operations are a plausible continuation of any plausible run. */
  lemma {:induction false} SyncContinuesRun(
      log: seq<Event<PoolEvent>>, before: seq<Op>, ops: seq<Op>, c': Client, rpc: Rpc<PoolEvent>,
      rescan: Rpc<PoolEvent>)
    requires PlausibleRun(log, before) && SyncsAs(After(before), ops, c', rpc, rescan)
    requires Honest(log, rpc) && Retains(rpc) && Honest(log, rescan) && Retains(rescan)
    ensures PlausibleRun(log, before + ops) && After(before + ops) == c'
    decreases |ops|, 1
  {
    if ops == [] {
      assert before + ops == before;
    } else {
      assert ops == ops[..|ops| - 1] + [ops[|ops| - 1]];
      SyncContinuesSnoc(log, before, ops[..|ops| - 1], ops[|ops| - 1], c', rpc, rescan);
    }
  }

  lemma {:induction false} SyncContinuesSnoc(
      log: seq<Event<PoolEvent>>, before: seq<Op>, init: seq<Op>, op: Op, c': Client, rpc: Rpc<PoolEvent>,
      rescan: Rpc<PoolEvent>)
    requires PlausibleRun(log, before) && SyncsAs(After(before), init + [op], c', rpc, rescan)
    requires Honest(log, rpc) && Retains(rpc) && Honest(log, rescan) && Retains(rescan)
    ensures PlausibleRun(log, before + (init + [op])) && After(before + (init + [op])) == c'
    decreases |init| + 1, 0
  {
    SyncsInit(After(before), init, op, c', rpc, rescan);
    SyncContinuesRun(log, before, init, RunFrom(After(before), init), rpc, rescan);
    SyncContinuesMore(log, before, init, op, RunFrom(After(before), init), rpc, rescan);
  }

  lemma {:induction false} SyncContinuesMore(
      log: seq<Event<PoolEvent>>, before: seq<Op>, init: seq<Op>, op: Op, c: Client, rpc: Rpc<PoolEvent>,
      rescan: Rpc<PoolEvent>)
    requires PlausibleRun(log, before + init) && After(before + init) == c && SyncOp(c, op, rpc, rescan)
    requires Honest(log, rpc) && Retains(rpc) && Honest(log, rescan) && Retains(rescan)
    ensures PlausibleRun(log, before + (init + [op])) && After(before + (init + [op])) == AfterOp(c, op)
  {
    SyncOpPlausible(log, c, op, rpc, rescan);
    PlausibleMore(log, before + init, op);
    AfterMore(before + init, op);
    assert before + (init + [op]) == before + init + [op];
  }

  lemma {:induction false} SyncOpPlausible(
      log: seq<Event<PoolEvent>>, c: Client, op: Op, rpc: Rpc<PoolEvent>, rescan: Rpc<PoolEvent>)
    requires SyncOp(c, op, rpc, rescan)
    requires Honest(log, rpc) && Retains(rpc) && Honest(log, rescan) && Retains(rescan)
    ensures Plausible(log, c, op)
  {
  }

  lemma {:induction false} SyncsInit(
      c: Client, init: seq<Op>, op: Op, c': Client, rpc: Rpc<PoolEvent>, rescan: Rpc<PoolEvent>)
    requires SyncsAs(c, init + [op], c', rpc, rescan)
    ensures SyncsAs(c, init, RunFrom(c, init), rpc, rescan) && SyncOp(RunFrom(c, init), op, rpc, rescan)
    ensures c' == AfterOp(RunFrom(c, init), op)
  {
    var ops := init + [op];
    assert ops[..|init|] == init;
    forall k: nat | k < |init| ensures SyncOpAt(c, init, k, rpc, rescan) {
      assert SyncOpAt(c, ops, k, rpc, rescan);
      assert init[..k] == ops[..k];
    }
    assert SyncOpAt(c, ops, |init|, rpc, rescan);
  }

  lemma {:induction false} AfterMore(before: seq<Op>, op: Op)
    ensures After(before + [op]) == AfterOp(After(before), op)
  {
    assert (before + [op])[..|before|] == before;
  }

  lemma {:induction false} PlausibleMore(log: seq<Event<PoolEvent>>, before: seq<Op>, op: Op)
    requires PlausibleRun(log, before) && Plausible(log, After(before), op)
    ensures PlausibleRun(log, before + [op])
  {
    assert (before + [op])[..|before|] == before;
  }

  lemma {:induction false} ReachOfMore(before: seq<Op>, op: Op)
    ensures ReachOf(before + [op]) == ReachAfter(After(before), ReachOf(before), op)
  {
    assert (before + [op])[..|before|] == before;
  }

  /** The client after the read of a sync, which it then stores. */
  function AfterRead(c: Client, rpc: Rpc<PoolEvent>): ScannerState
  {
    AfterOp(c, Sync(rpc)).live
  }

  /** The re-scan succeeds and gives a mirror in sync. */
  ghost predicate RescanSyncs(st: ScannerState, rescan: Rpc<PoolEvent>, inSync: seq<int> -> bool)
  {
    Collected(rescan, 1).Success? && MirrorSynced(Recovered(st, rescan), inSync)
  }

  /** The recovered scanner is kept: the re-scan succeeds, and its mirror is in sync or gaps are allowed. */
  ghost predicate RescanKept(st: ScannerState, rescan: Rpc<PoolEvent>, inSync: seq<int> -> bool, allowGaps: bool)
  {
    Collected(rescan, 1).Success? && (MirrorSynced(Recovered(st, rescan), inSync) || allowGaps)
  }

  /** What a sync whose read succeeded has done: `ops` in order, ending with `live` and `store`.  If what was
      read is in sync, it was stored and that is all.  Otherwise there was one recovery, and what it gave was
      stored if it was kept. */
  ghost predicate SyncDone(
      c: Client, rpc: Rpc<PoolEvent>, rescan: Rpc<PoolEvent>, inSync: seq<int> -> bool, allowGaps: bool,
      ops: seq<Op>, c': Client, synced: bool)
  {
    var st := AfterRead(c, rpc);
    && c'.stored.Some? && Captures(c'.stored.value, c'.live)
    && if MirrorSynced(st, inSync) then
         synced && c'.live == st && ops == [Sync(rpc), Persist(c'.stored.value)]
       else
         && synced == RescanSyncs(st, rescan, inSync)
         && if RescanKept(st, rescan, inSync, allowGaps) then
              && c'.live == Recovered(st, rescan)
              && exists snap {:trigger Captures(snap, st)} :: Captures(snap, st) &&
                   ops == [Sync(rpc), Persist(snap), Recover(rescan, true), Persist(c'.stored.value)]
            else c'.live == st && ops == [Sync(rpc), Persist(c'.stored.value), Recover(rescan, false)]
  }

  /** The pool part of a client's sync with a durable store: read on from the cursor, store, rebuild
      the mirror, and if it is not in sync recover and store again.  A read that fails changes nothing; what
      was stored last is the scanner the client is left with. */
  method SyncPool(
      scanner: NoteScanner, stored: Option<ScannerSnapshot>, rpc: Rpc<PoolEvent>, rescan: Rpc<PoolEvent>,
      inSync: seq<int> -> bool, allowGaps: bool)
    returns (next: NoteScanner, store: Option<ScannerSnapshot>, synced: bool, ghost ops: seq<Op>)
    requires WellKept(scanner.State())
    modifies scanner
    ensures SyncsAs(old(Client(scanner.State(), stored)), ops, Client(next.State(), store), rpc, rescan)
    ensures ops == [] <==> Collected(rpc, ResumeFrom(old(scanner.cursorLedger))).Failure?
    ensures ops == [] ==> next == scanner && store == stored && !synced && next.State() == old(scanner.State())
    ensures ops != [] ==>
              SyncDone(old(Client(scanner.State(), stored)), rpc, rescan, inSync, allowGaps, ops,
                Client(next.State(), store), synced)
    ensures ops != [] ==> (synced <==> MirrorSynced(next.State(), inSync))
    ensures next == scanner || fresh(next)
  {
    ghost var c0 := Client(scanner.State(), stored);
    next, store, synced, ops := scanner, stored, false, [];
    var read := scanner.SyncFromRpc(rpc, ResumeFrom(scanner.cursorLedger));
    if read.Failure? {
      return;
    }
    IngestKeepsRecords(c0.live, Collected(rpc, ResumeFrom(c0.live.cursorLedger)).value);
    SyncsMore(c0, [], c0, Sync(rpc), rpc, rescan);
    var snap := scanner.Snapshot();
    store := Some(snap);
    ghost var c1 := AfterOp(c0, Sync(rpc));
    SyncsMore(c0, [] + [Sync(rpc)], c1, Persist(snap), rpc, rescan);
    ops := [Sync(rpc), Persist(snap)];
    assert [] + [Sync(rpc)] + [Persist(snap)] == ops;
    synced := RebuildMirror(scanner, inSync);
    if !synced {
      next, store, synced, ops := RecoverAndStore(c0, snap, scanner, rpc, rescan, inSync, allowGaps);
    }
  }

  /** The recovery branch of a sync. */
  method RecoverAndStore(
      ghost c0: Client, snap: ScannerSnapshot, scanner: NoteScanner,
      ghost rpc: Rpc<PoolEvent>, rescan: Rpc<PoolEvent>, inSync: seq<int> -> bool, allowGaps: bool)
    returns (next: NoteScanner, store: Option<ScannerSnapshot>, synced: bool, ghost ops: seq<Op>)
    requires WellKept(scanner.State()) && AfterRead(c0, rpc) == scanner.State() && Captures(snap, scanner.State())
    requires SyncsAs(c0, [Sync(rpc), Persist(snap)], Client(scanner.State(), Some(snap)), rpc, rescan)
    requires !MirrorSynced(scanner.State(), inSync)
    ensures SyncsAs(c0, ops, Client(next.State(), store), rpc, rescan) && ops != []
    ensures SyncDone(c0, rpc, rescan, inSync, allowGaps, ops, Client(next.State(), store), synced)
    ensures synced <==> MirrorSynced(next.State(), inSync)
    ensures next == scanner || fresh(next)
  {
    ghost var before, c := [Sync(rpc), Persist(snap)], Client(scanner.State(), Some(snap));
    var kept: bool;
    next, kept, synced := RecoverScanner(scanner, rescan, inSync, allowGaps);
    store := Some(snap);
    ops := before + [Recover(rescan, kept)];
    SyncsMore(c0, before, c, Recover(rescan, kept), rpc, rescan);
    if kept {
      var again := next.Snapshot();
      store := Some(again);
      SyncsMore(c0, ops, AfterOp(c, Recover(rescan, kept)), Persist(again), rpc, rescan);
      ops := ops + [Persist(again)];
    }
  }

  // ----- the client's own syncs, one after another -----

  /** What a client does over time: it syncs; it reads but fails to store; it comes back from the store. */
  datatype Session =
    | FullSync(rpc: Rpc<PoolEvent>, rescan: Rpc<PoolEvent>, inSync: seq<int> -> bool, allowGaps: bool)
    | UnstoredSync(rpc: Rpc<PoolEvent>)
    | Reopen

  ghost predicate HonestServers(log: seq<Event<PoolEvent>>, s: Session)
  {
    match s
    case FullSync(rpc, rescan, _, _) => Honest(log, rpc) && Retains(rpc) && Honest(log, rescan) && Retains(rescan)
    case UnstoredSync(rpc) => Honest(log, rpc) && Retains(rpc)
    case Reopen => true
  }

  ghost predicate AllHonest(log: seq<Event<PoolEvent>>, sessions: seq<Session>)
  {
    forall k {:trigger sessions[k]} :: 0 <= k < |sessions| ==> HonestServers(log, sessions[k])
  }

  /** What the session's own read is complete below, if there was one and it succeeded. */
  function ReadBy(s: Session, start: nat): nat
  {
    if !s.Reopen? && Collected(s.rpc, start).Success? then LatestSeen(s.rpc, start) else 0
  }

  /** A run that has got to this scanner and this store. */
  ghost predicate RunTo(log: seq<Event<PoolEvent>>, ops: seq<Op>, live: ScannerState, store: Option<ScannerSnapshot>)
  {
    PlausibleRun(log, ops) && After(ops) == Client(live, store)
  }

  lemma {:induction false} RunToMore(
      log: seq<Event<PoolEvent>>, ops: seq<Op>, live: ScannerState, store: Option<ScannerSnapshot>, op: Op)
    requires RunTo(log, ops, live, store) && Plausible(log, Client(live, store), op)
    ensures var c := AfterOp(Client(live, store), op); RunTo(log, ops + [op], c.live, c.stored)
    ensures ReachOf(ops + [op]) == ReachAfter(Client(live, store), ReachOf(ops), op)
  {
    PlausibleMore(log, ops, op);
    AfterMore(ops, op);
    ReachOfMore(ops, op);
  }

  /** Whatever a sync does after its read, it has reached what it read. */
  lemma {:induction false} SyncReaches(
      before: seq<Op>, ops: seq<Op>, c': Client, rpc: Rpc<PoolEvent>, rescan: Rpc<PoolEvent>)
    requires SyncsAs(After(before), ops, c', rpc, rescan) && ops != [] && ops[0] == Sync(rpc)
    ensures ReachOf(before + ops).live >= ReadBy(UnstoredSync(rpc), ResumeFrom(After(before).live.cursorLedger))
    decreases |ops|, 1
  {
    assert ops == ops[..|ops| - 1] + [ops[|ops| - 1]];
    SyncReachesSnoc(before, ops[..|ops| - 1], ops[|ops| - 1], c', rpc, rescan);
  }

  lemma {:induction false} SyncReachesSnoc(
      before: seq<Op>, init: seq<Op>, op: Op, c': Client, rpc: Rpc<PoolEvent>, rescan: Rpc<PoolEvent>)
    requires SyncsAs(After(before), init + [op], c', rpc, rescan) && (init + [op])[0] == Sync(rpc)
    ensures ReachOf(before + (init + [op])).live >= ReadBy(UnstoredSync(rpc),
            ResumeFrom(After(before).live.cursorLedger))
    decreases |init| + 1, 0
  {
    SyncsInit(After(before), init, op, c', rpc, rescan);
    if init == [] {
      ReachMore(before, init, op);
      assert before + init == before;
    } else {
      SyncReaches(before, init, RunFrom(After(before), init), rpc, rescan);
      ReachKept(before, init, op, RunFrom(After(before), init), rpc, rescan);
    }
  }

  /** Nothing a sync does takes the scanner back. */
  lemma {:induction false} ReachKept(
      before: seq<Op>, init: seq<Op>, op: Op, c: Client, rpc: Rpc<PoolEvent>, rescan: Rpc<PoolEvent>)
    requires SyncOp(c, op, rpc, rescan)
    ensures ReachOf(before + (init + [op])).live >= ReachOf(before + init).live
  {
    ReachMore(before, init, op);
  }

  lemma {:induction false} ReachMore(before: seq<Op>, init: seq<Op>, op: Op)
    ensures ReachOf(before + (init + [op])) == ReachAfter(After(before + init), ReachOf(before + init), op)
  {
    assert (before + (init + [op]))[..|before + init|] == before + init;
  }

  /** What session `s` did to `c`: a full sync reads, stores and recovers as it must; a read that is not
      stored leaves the store alone; coming back loads what is stored and leaves it there. */
  ghost predicate SessionDone(c: Client, s: Session, ops: seq<Op>)
  {
    match s
    case FullSync(rpc, rescan, inSync, allowGaps) =>
      if Collected(rpc, ResumeFrom(c.live.cursorLedger)).Failure? then ops == []
      else
        var c' := RunFrom(c, ops);
        SyncDone(c, rpc, rescan, inSync, allowGaps, ops, c', MirrorSynced(c'.live, inSync))
    case UnstoredSync(rpc) => ops == [Sync(rpc)]
    case Reopen => ops == [Restart]
  }

  /** All operations of the sessions, in order. */
  function OpsOf(parts: seq<seq<Op>>): seq<Op>
  {
    if parts == [] then [] else OpsOf(parts[..|parts| - 1]) + parts[|parts| - 1]
  }

  lemma {:induction false} OpsOfMore(parts: seq<seq<Op>>, more: seq<Op>)
    ensures OpsOf(parts + [more]) == OpsOf(parts) + more
  {
    assert (parts + [more])[..|parts|] == parts;
  }

  ghost predicate SessionDoneAt(sessions: seq<Session>, parts: seq<seq<Op>>, k: nat)
    requires k < |sessions| == |parts|
  {
    SessionDone(After(OpsOf(parts[..k])), sessions[k], parts[k])
  }

  /** Each session did what it does, one after another from an empty store. */
  ghost predicate SessionsDone(sessions: seq<Session>, parts: seq<seq<Op>>)
  {
    && |sessions| == |parts|
    && forall k: nat {:trigger SessionDoneAt(sessions, parts, k)} ::
         k < |sessions| ==> SessionDoneAt(sessions, parts, k)
  }

  lemma {:induction false} SessionsDoneMore(sessions: seq<Session>, parts: seq<seq<Op>>, s: Session, more: seq<Op>)
    requires SessionsDone(sessions, parts) && SessionDone(After(OpsOf(parts)), s, more)
    ensures SessionsDone(sessions + [s], parts + [more])
  {
    forall k: nat | k < |sessions + [s]| ensures SessionDoneAt(sessions + [s], parts + [more], k) {
      assert (parts + [more])[..k] == parts[..k];
      if k < |sessions| {
        assert SessionDoneAt(sessions, parts, k);
      } else {
        assert parts[..k] == parts;
      }
    }
  }

  /** Where the read of the last session starts. */
  function LastStart(parts: seq<seq<Op>>): nat
  {
    if parts == [] then 1 else ResumeFrom(After(OpsOf(parts[..|parts| - 1])).live.cursorLedger)
  }

  lemma {:induction false} OneMoreSession(sessions: seq<Session>, k: nat, parts: seq<seq<Op>>, more: seq<Op>)
    requires k < |sessions| && SessionsDone(sessions[..k], parts)
    requires SessionDone(After(OpsOf(parts)), sessions[k], more)
    ensures SessionsDone(sessions[..k + 1], parts + [more]) && OpsOf(parts + [more]) == OpsOf(parts) + more
    ensures LastStart(parts + [more]) == ResumeFrom(After(OpsOf(parts)).live.cursorLedger)
  {
    SessionsDoneMore(sessions[..k], parts, sessions[k], more);
    OpsOfMore(parts, more);
    assert sessions[..k + 1] == sessions[..k] + [sessions[k]] && (parts + [more])[..|parts|] == parts;
  }

  /** The sessions, one after another, have led to this scanner and this store.  Both follow the log, and the
      scanner has everything its last read was answered below. */
  ghost predicate Synced(
      log: seq<Event<PoolEvent>>, sessions: seq<Session>, parts: seq<seq<Op>>, live: ScannerState,
      store: Option<ScannerSnapshot>)
  {
    var ops := OpsOf(parts);
    && SessionsDone(sessions, parts) && RunTo(log, ops, live, store)
    && FollowsTo(log, live, ReachOf(ops).live) && FollowsTo(log, Loaded(store), ReachOf(ops).stored)
    && (sessions != [] ==> ReachOf(ops).live >= ReadBy(sessions[|sessions| - 1], LastStart(parts)))
  }

  /** It is alike to a scan from genesis of some prefix that is complete below `reach`. */
  ghost predicate FollowsTo(log: seq<Event<PoolEvent>>, st: ScannerState, reach: nat)
  {
    exists n {:trigger Follows(log, st, n, reach)} :: Follows(log, st, n, reach)
  }

  lemma {:induction false} SyncedAfter(
      log: seq<Event<PoolEvent>>, sessions: seq<Session>, parts: seq<seq<Op>>, live: ScannerState,
      store: Option<ScannerSnapshot>)
    requires OnChain(log) && SessionsDone(sessions, parts) && RunTo(log, OpsOf(parts), live, store)
    requires sessions != [] ==> ReachOf(OpsOf(parts)).live >= ReadBy(sessions[|sessions| - 1], LastStart(parts))
    ensures Synced(log, sessions, parts, live, store)
  {
    var n, m := RunsFollowTheLog(log, OpsOf(parts));
  }

  /** Carry out the sessions in order, from an empty store and against honest servers. */
  method RunSyncs(ghost log: seq<Event<PoolEvent>>, sessions: seq<Session>)
    returns (scanner: NoteScanner, store: Option<ScannerSnapshot>)
    requires OnChain(log) && AllHonest(log, sessions)
    ensures exists parts {:trigger SessionsDone(sessions, parts)} ::
            Synced(log, sessions, parts, scanner.State(), store)
  {
    scanner := new NoteScanner(1);
    store := None;
    ghost var parts := [];
    for k := 0 to |sessions|
      invariant fresh(scanner) && SessionsDone(sessions[..k], parts)
      invariant RunTo(log, OpsOf(parts), scanner.State(), store)
      invariant k > 0 ==> ReachOf(OpsOf(parts)).live >= ReadBy(sessions[k - 1], LastStart(parts))
    {
      assert HonestServers(log, sessions[k]);
      ghost var more;
      scanner, store, more := RunSession(log, OpsOf(parts), scanner, store, sessions[k]);
      OneMoreSession(sessions, k, parts, more);
      parts := parts + [more];
    }
    assert sessions[..|sessions|] == sessions;
    SyncedAfter(log, sessions, parts, scanner.State(), store);
  }

  /** One session of a run. */
  method RunSession(
      ghost log: seq<Event<PoolEvent>>, ghost before: seq<Op>, scanner: NoteScanner, stored: Option<ScannerSnapshot>,
      s: Session)
    returns (next: NoteScanner, store: Option<ScannerSnapshot>, ghost more: seq<Op>)
    requires OnChain(log) && RunTo(log, before, scanner.State(), stored) && HonestServers(log, s)
    modifies scanner
    ensures RunTo(log, before + more, next.State(), store) && (next == scanner || fresh(next))
    ensures SessionDone(After(before), s, more)
    ensures ReachOf(before + more).live >= ReadBy(s, ResumeFrom(After(before).live.cursorLedger))
  {
    ghost var n, m := RunsFollowTheLog(log, before);
    match s
    case FullSync(rpc, rescan, inSync, allowGaps) =>
      var synced;
      next, store, synced, more := SyncPool(scanner, stored, rpc, rescan, inSync, allowGaps);
      SyncContinuesRun(log, before, more, Client(next.State(), store), rpc, rescan);
      if more == [] {
        assert before + more == before;
      } else {
        SyncReaches(before, more, Client(next.State(), store), rpc, rescan);
      }
    case UnstoredSync(rpc) =>
      RunToMore(log, before, scanner.State(), stored, Sync(rpc));
      var read := scanner.SyncFromRpc(rpc, ResumeFrom(scanner.cursorLedger));
      next, store, more := scanner, stored, [Sync(rpc)];
    case Reopen =>
      RunToMore(log, before, scanner.State(), stored, Restart);
      next := LoadScanner(stored);
      store, more := stored, [Restart];
  }

  /** A client comes back: the scanner is that of the store, or a new one. */
  method LoadScanner(stored: Option<ScannerSnapshot>) returns (scanner: NoteScanner)
    ensures fresh(scanner) && scanner.State() == Loaded(stored)
  {
    if stored.None? {
      scanner := new NoteScanner(1);
    } else {
      scanner := new NoteScanner.Restore(stored.value);
    }
  }

  // ----- why the resume window has to overlap -----

  /** Two nullifiers of ledger 5, and an honest server that lets the first sync stop between them:
      the scanner then has only the first, resuming past its cursor never brings the second, and
      the client's window reaches back to it. */
  lemma {:induction false} ResumingPastTheCursorLosesANullifier()
    ensures var first, second := Event(Cursor(5 * LEDGER_SHIFT, 0), 0, 0, NewNullifier(1)),
            Event(Cursor(5 * LEDGER_SHIFT, 1), 0, 0, NewNullifier(2));
            var log, rpc := [first, second], OneAtATime(first, second);
            var st := After([Sync(rpc)]).live;
            && OnChain(log) && PlausibleRun(log, [Sync(rpc)])
            && st.cursorLedger == 5 && st.nullifiers == {1} && ResumeFrom(5) <= 5
            && forall later: Rpc<PoolEvent> {:trigger Honest(log, later)} ::
                 Honest(log, later) && Retains(later) && Collected(later, 6).Success? ==>
                   Collected(later, 6).value == []
  {
    var first: Event<PoolEvent> := Event(Cursor(5 * LEDGER_SHIFT, 0), 0, 0, NewNullifier(1));
    var second: Event<PoolEvent> := Event(Cursor(5 * LEDGER_SHIFT, 1), 0, 0, NewNullifier(2));
    var rpc := OneAtATime(first, second);
    ResumingPastTheCursorLosesEvents(first, second);
    var start := Client(Fresh(1), None);
    OneOp(start, Sync(rpc));
    assert [first][..0] == [] && [Sync(rpc)][..0] == [];
    assert IngestedAll(Fresh(1), [first]) == Ingested(Fresh(1), first);
  }

  lemma {:induction false} OneOp(c: Client, op: Op)
    ensures RunFrom(c, [op]) == AfterOp(c, op)
  {
    assert [op][..0] == [];
    assert RunFrom(c, []) == c;
  }
}
