/** The allow-set mirror: an index-addressed list of leaves that is fetched incrementally and
    merged into what is already held. */
module AspSync {
  import opened Wrappers
  import opened EventPaging
  import opened ScannerSync

  datatype AspEvent = LeafAdded(index: nat, leaf: int) | OtherAspEvent

  datatype AspError = CollectFailed(error: SyncError) | AspLeafMissing(index: nat)

  /** The ordered leaves and the ledger to resume from. */
  datatype AspState = AspState(leaves: seq<int>, cursor: nat)

  function Indexed(leaves: seq<int>): map<nat, int>
  {
    map i: nat | i < |leaves| :: leaves[i]
  }

  function MergeEvent(byIndex: map<nat, int>, e: Event<AspEvent>): map<nat, int>
  {
    match e.payload
    case LeafAdded(index, leaf) => byIndex[index := leaf]
    case OtherAspEvent => byIndex
  }

  function MergeEvents(byIndex: map<nat, int>, events: seq<Event<AspEvent>>): map<nat, int>
  {
    if events == [] then byIndex
    else MergeEvent(MergeEvents(byIndex, events[..|events| - 1]), events[|events| - 1])
  }

  /** The highest ledger seen, or the one before the start. */
  function CursorAfter(startLedger: nat, events: seq<Event<AspEvent>>): nat
  {
    if events == [] then (if startLedger > 0 then startLedger - 1 else 0)
    else
      var before := CursorAfter(startLedger, events[..|events| - 1]);
      if events[|events| - 1].Ledger() > before then events[|events| - 1].Ledger() else before
  }

  /** It is the ledger of some event, or the one before the start, and no event is of a later one. */
  lemma {:induction false} CursorIsLatest(startLedger: nat, events: seq<Event<AspEvent>>)
    ensures var cursor := CursorAfter(startLedger, events);
            && (forall k {:trigger events[k]} :: 0 <= k < |events| ==> events[k].Ledger() <= cursor)
            && (cursor + 1 == startLedger || (startLedger == 0 && cursor == 0)
                || exists k {:trigger events[k]} :: 0 <= k < |events| && events[k].Ledger() == cursor)
            && cursor + 1 >= startLedger
  {
    if events == [] {
    } else {
      var init := events[..|events| - 1];
      CursorIsLatest(startLedger, init);
      if k :| 0 <= k < |init| && init[k].Ledger() == CursorAfter(startLedger, init) {
        assert events[k].Ledger() == CursorAfter(startLedger, init);
      }
      assert forall k {:trigger events[k]} :: 0 <= k < |init| ==> events[k] == init[k];
    }
  }

  ghost predicate Contiguous(byIndex: map<nat, int>)
  {
    forall i: nat, j: nat :: i < j && j in byIndex ==> i in byIndex
  }

  /** Merge the allow-set events from `startLedger` on into the leaves already held. */
  method FetchAspLeavesSince(
      rpc: Rpc<AspEvent>, startLedger: nat, prior: seq<int>)
    returns (r: Result<AspState, AspError>)
    ensures Collected(rpc, startLedger).Failure? ==> r == Failure(CollectFailed(Collected(rpc, startLedger).error))
    ensures Collected(rpc, startLedger).Success? ==>
              var events := Collected(rpc, startLedger).value;
              var merged := MergeEvents(Indexed(prior), events);
              && (r.Success? <==> Contiguous(merged))
              && (r.Success? ==>
                    Indexed(r.value.leaves) == merged && r.value.cursor == CursorAfter(startLedger, events))
              && (r.Failure? ==>
                    && r.error.AspLeafMissing? && r.error.index !in merged
                    && forall i :: 0 <= i < r.error.index ==> i in merged)
  {
    var collected := CollectEvents(rpc, startLedger);
    if collected.Failure? {
      return Failure(CollectFailed(collected.error));
    }
    var events := collected.value;
    var byIndex := Indexed(prior);
    var cursor := if startLedger > 0 then startLedger - 1 else 0;
    for k := 0 to |events|
      invariant byIndex == MergeEvents(Indexed(prior), events[..k]) && cursor == CursorAfter(startLedger, events[..k])
    {
      assert events[..k + 1][..k] == events[..k];
      var ev := events[k];
      if ev.Ledger() > cursor {
        cursor := ev.Ledger();
      }
      if ev.payload.LeafAdded? {
        byIndex := byIndex[ev.payload.index := ev.payload.leaf];
      }
    }
    assert events[..|events|] == events;
    var top := Extent(byIndex.Keys);
    var leaves: seq<int> := [];
    for i := 0 to top
      invariant |leaves| == i && forall k :: 0 <= k < i ==> k in byIndex && byIndex[k] == leaves[k]
    {
      if i !in byIndex {
        return Failure(AspLeafMissing(i));
      }
      leaves := leaves + [byIndex[i]];
    }
    assert byIndex == Indexed(leaves);
    r := Success(AspState(leaves, cursor));
  }

  /** One past the largest key, 0 for none. */
  method Extent(keys: set<nat>) returns (top: nat)
    ensures forall k :: k in keys ==> k < top
    ensures top > 0 ==> top - 1 in keys
  {
    top := 0;
    var rest := keys;
    while rest != {}
      invariant rest <= keys && forall k :: k in keys ==> k < top || k in rest
      invariant top > 0 ==> top - 1 in keys
      decreases rest
    {
      var k :| k in rest;
      if k >= top {
        top := k + 1;
      }
      rest := rest - {k};
    }
  }

  // ----- resuming -----

  /** The allow-set's leaves after `n` events. */
  function LeafList(log: seq<Event<AspEvent>>, n: nat): seq<int>
    requires n <= |log|
  {
    if n == 0 then []
    else LeafList(log, n - 1) + if log[n - 1].payload.LeafAdded? then [log[n - 1].payload.leaf] else []
  }

  /** The contract's log: each leaf is announced under the next free index. */
  ghost predicate AllowSetLog(log: seq<Event<AspEvent>>)
  {
    && SortedLog(log)
    && (forall k {:trigger log[k]} :: 0 <= k < |log| ==> log[k].Ledger() >= 1)
    && (forall k {:trigger log[k]} :: 0 <= k < |log| && log[k].payload.LeafAdded? ==>
         log[k].payload.index == |LeafList(log, k)|)
  }

  lemma {:induction false} LeafListGrows(log: seq<Event<AspEvent>>, m: nat, n: nat)
    requires m <= n <= |log|
    ensures LeafList(log, m) <= LeafList(log, n)
  {
    if m == n {
    } else {
      LeafListGrows(log, m, n - 1);
    }
  }

  /** The leaves of the first `n` or the first `j` events, whichever are more, by index. */
  function Held(log: seq<Event<AspEvent>>, n: nat, j: nat): map<nat, int>
    requires n <= |log| && j <= |log|
  {
    Indexed(LeafList(log, if n < j then j else n))
  }

  /** One more event of the log, read on top of the first `n`. */
  lemma {:induction false} MergeNext(log: seq<Event<AspEvent>>, n: nat, p: nat)
    requires AllowSetLog(log) && n <= |log| && p < |log|
    ensures MergeEvent(Held(log, n, p), log[p]) == Held(log, n, p + 1)
  {
    if p < n {
      LeafListGrows(log, p + 1, n);
    }
  }

  lemma {:induction false} MergeLast(log: seq<Event<AspEvent>>, byIndex: map<nat, int>, i: nat, j: nat)
    requires i < j <= |log|
    ensures MergeEvents(byIndex, log[i..j]) == MergeEvent(MergeEvents(byIndex, log[i..j - 1]), log[j - 1])
  {
    assert log[i..j][..j - 1 - i] == log[i..j - 1];
  }

  lemma {:induction false} MergeMore(log: seq<Event<AspEvent>>, n: nat, i: nat, j: nat)
    requires AllowSetLog(log) && i <= n <= |log| && i < j <= |log|
    requires MergeEvents(Held(log, n, n), log[i..j - 1]) == Held(log, n, j - 1)
    ensures MergeEvents(Held(log, n, n), log[i..j]) == Held(log, n, j)
  {
    MergeLast(log, Held(log, n, n), i, j);
    MergeNext(log, n, j - 1);
  }

  /** Merging a stretch of the log that overlaps what is held extends it to the stretch's end. */
  lemma {:induction false} MergeStretch(log: seq<Event<AspEvent>>, n: nat, i: nat, j: nat)
    requires AllowSetLog(log) && i <= n <= |log| && i <= j <= |log|
    ensures MergeEvents(Held(log, n, n), log[i..j]) == Held(log, n, j)
    decreases j
  {
    if i < j {
      MergeStretch(log, n, i, j - 1);
      MergeMore(log, n, i, j);
    } else {
      assert log[i..j] == [];
    }
  }

  lemma {:induction false} CursorStaysBehind(log: seq<Event<AspEvent>>, start: nat, i: nat, j: nat, n: nat)
    requires AllowSetLog(log) && i <= j <= n <= |log| && ClosedFrom(log, n, start)
    ensures ClosedFrom(log, n, CursorAfter(start, log[i..j]))
  {
    if i < j {
      assert log[i..j][..j - 1 - i] == log[i..j - 1];
      CursorStaysBehind(log, start, i, j - 1, n);
    } else {
      assert log[i..j] == [];
    }
  }

  lemma {:induction false} IndexedDetermines(a: seq<int>, b: seq<int>)
    requires Indexed(a) == Indexed(b)
    ensures a == b
  {
    assert |a| !in Indexed(a) && |b| !in Indexed(b);
    assert |a| < |b| ==> |a| in Indexed(b);
    assert |b| < |a| ==> |b| in Indexed(a);
    forall i | 0 <= i < |a| ensures a[i] == b[i] {
      assert Indexed(a)[i] == Indexed(b)[i];
    }
  }

  /** What is held is a prefix of the allow-set, and nothing unread is older than the cursor. */
  ghost predicate Holds(log: seq<Event<AspEvent>>, st: AspState, n: nat)
  {
    n <= |log| && st.leaves == LeafList(log, n) && ClosedFrom(log, n, st.cursor)
  }

  /** What one incremental sync makes of the state; a failed one leaves it. */
  ghost predicate SyncStep(rpc: Rpc<AspEvent>, st: AspState, next: AspState)
  {
    var start := ResumeFrom(st.cursor);
    if Collected(rpc, start).Success? && Contiguous(MergeEvents(Indexed(st.leaves), Collected(rpc, start).value)) then
      && Indexed(next.leaves) == MergeEvents(Indexed(st.leaves), Collected(rpc, start).value)
      && next.cursor == CursorAfter(start, Collected(rpc, start).value)
    else
      next == st
  }

  method SyncAsp(rpc: Rpc<AspEvent>, st: AspState) returns (next: AspState, r: Result<AspState, AspError>)
    ensures SyncStep(rpc, st, next)
    ensures r.Success? ==> next == r.value
    ensures r.Success? <==>
              var start := ResumeFrom(st.cursor);
              Collected(rpc, start).Success? &&
                Contiguous(MergeEvents(Indexed(st.leaves), Collected(rpc, start).value))
  {
    r := FetchAspLeavesSince(rpc, ResumeFrom(st.cursor), st.leaves);
    next := if r.Success? then r.value else st;
  }

  /** If the sync's collection succeeds, no index is missing from it, and nothing below the server's
      latest ledger lies beyond the first `n` events. */
  ghost predicate ReadsCompletely(log: seq<Event<AspEvent>>, n: nat, rpc: Rpc<AspEvent>, st: AspState)
  {
    var start := ResumeFrom(st.cursor);
    Collected(rpc, start).Success? ==>
      && Contiguous(MergeEvents(Indexed(st.leaves), Collected(rpc, start).value))
      && ClosedFrom(log, n, LatestSeen(rpc, start))
  }

  /** An incremental sync never finds an index missing, keeps what was held, and then holds
      everything below the server's latest ledger. */
  lemma {:induction false} SyncStepHolds(
      log: seq<Event<AspEvent>>, n: nat, rpc: Rpc<AspEvent>, st: AspState, next: AspState)
    returns (n': nat)
    requires AllowSetLog(log) && Honest(log, rpc) && Retains(rpc) && Holds(log, st, n) && SyncStep(rpc, st, next)
    ensures n <= n' && Holds(log, next, n')
    ensures ReadsCompletely(log, n', rpc, st)
  {
    var start := ResumeFrom(st.cursor);
    n' := n;
    if Collected(rpc, start).Success? {
      assert !AgedOut(rpc(0, FromLedger(start)));
      OpeningFacts(rpc, start, 0);
      var i, j := CollectionIsComplete(log, rpc, start);
      if n < |log| {
        assert log[n].Ledger() >= start;
      }
      n' := if n < j then j else n;
      MergeStretch(log, n, i, j);
      IndexedDetermines(next.leaves, LeafList(log, n'));
      CursorStaysBehind(log, start, i, j, n');
    }
  }

  // ----- runs -----

  /** The allow-set in memory and the one in the durable store; a store without one holds nothing. */
  datatype AspClient = AspClient(live: AspState, stored: AspState)

  datatype AspOp = Fetch(rpc: Rpc<AspEvent>) | Store | Reload

  ghost predicate AspStep(c: AspClient, op: AspOp, c': AspClient)
  {
    match op
    case Fetch(rpc) => SyncStep(rpc, c.live, c'.live) && c'.stored == c.stored
    case Store => c' == c.(stored := c.live)
    case Reload => c' == c.(live := c.stored)
  }

  /** A run of fetches, stores and restarts from what is stored, against honest servers. */
  ghost predicate AspRun(log: seq<Event<AspEvent>>, ops: seq<AspOp>, clients: seq<AspClient>)
  {
    && |clients| == |ops| + 1 && clients[0] == AspClient(AspState([], 0), AspState([], 0))
    && forall k {:trigger ops[k]} :: 0 <= k < |ops| ==>
         && AspStep(clients[k], ops[k], clients[k + 1])
         && (ops[k].Fetch? ==> Honest(log, ops[k].rpc) && Retains(ops[k].rpc))
  }

  /** The ledgers below which the live and the stored allow-set are complete after `k` operations. */
  function AspReach(ops: seq<AspOp>, clients: seq<AspClient>, k: nat): Reach
    requires k <= |ops| < |clients|
  {
    if k == 0 then Reach(0, 0)
    else
      var before := AspReach(ops, clients, k - 1);
      match ops[k - 1]
      case Fetch(rpc) =>
        var start := ResumeFrom(clients[k - 1].live.cursor);
        if Collected(rpc, start).Success? && before.live < LatestSeen(rpc, start)
          then before.(live := LatestSeen(rpc, start))
        else before
      case Store => before.(stored := before.live)
      case Reload => before.(live := before.stored)
  }

  /** After any run the leaves are a prefix of the allow-set, complete below the ledger that was
      reached, and no fetch of the run found an index missing. */
  lemma {:induction false} AspRunsFollowTheLog(
      log: seq<Event<AspEvent>>, ops: seq<AspOp>, clients: seq<AspClient>, k: nat)
    returns (n: nat, m: nat)
    requires AllowSetLog(log) && AspRun(log, ops, clients) && k <= |ops|
    ensures Holds(log, clients[k].live, n) && ClosedFrom(log, n, AspReach(ops, clients, k).live)
    ensures Holds(log, clients[k].stored, m) && ClosedFrom(log, m, AspReach(ops, clients, k).stored)
    ensures k < |ops| && ops[k].Fetch? && Collected(ops[k].rpc, ResumeFrom(clients[k].live.cursor)).Success? ==>
              var events := Collected(ops[k].rpc, ResumeFrom(clients[k].live.cursor)).value;
              Contiguous(MergeEvents(Indexed(clients[k].live.leaves), events))
  {
    if k == 0 {
      n, m := 0, 0;
    } else {
      var n0, m0 := AspRunsFollowTheLog(log, ops, clients, k - 1);
      n, m := AspStepHolds(log, ops, clients, k - 1, n0, m0);
    }
    if k < |ops| && ops[k].Fetch? {
      var _ := SyncStepHolds(log, n, ops[k].rpc, clients[k].live, clients[k + 1].live);
    }
  }

  lemma {:induction false} AspStepHolds(
      log: seq<Event<AspEvent>>, ops: seq<AspOp>, clients: seq<AspClient>, k: nat, n: nat, m: nat)
    returns (n': nat, m': nat)
    requires AllowSetLog(log) && AspRun(log, ops, clients) && k < |ops|
    requires Holds(log, clients[k].live, n) && ClosedFrom(log, n, AspReach(ops, clients, k).live)
    requires Holds(log, clients[k].stored, m) && ClosedFrom(log, m, AspReach(ops, clients, k).stored)
    ensures Holds(log, clients[k + 1].live, n') && ClosedFrom(log, n', AspReach(ops, clients, k + 1).live)
    ensures Holds(log, clients[k + 1].stored, m') && ClosedFrom(log, m', AspReach(ops, clients, k + 1).stored)
  {
    assert AspStep(clients[k], ops[k], clients[k + 1]);
    n', m' := n, m;
    match ops[k] {
      case Fetch(rpc) =>
        n' := SyncStepHolds(log, n, rpc, clients[k].live, clients[k + 1].live);
      case Store =>
        m' := n;
      case Reload =>
        n' := m;
    }
  }

  // ----- why the resume window has to overlap -----

  /** Reading on from ledger `s` after `n` events misses nothing, however the allow-set grows,
      exactly if `s` is no later than the ledger of the last event read. */
  lemma {:induction false} ResumeIsSafeIff(log: seq<Event<AspEvent>>, n: nat, s: nat)
    requires AllowSetLog(log) && 0 < n <= |log|
    ensures s <= log[n - 1].Ledger() <==>
            forall more {:trigger AllowSetLog(log[..n] + more)} ::
              AllowSetLog(log[..n] + more) ==> ClosedFrom(log[..n] + more, n, s)
  {
    if s <= log[n - 1].Ledger() {
      forall more | AllowSetLog(log[..n] + more) ensures ClosedFrom(log[..n] + more, n, s) {
        LaterIsNoOlder(log[..n] + more, n, s);
      }
    } else {
      LedgerMayGoOn(log, n, s, OtherAspEvent);
      var next := NextInLedger(log[n - 1], OtherAspEvent);
      var grown := log[..n] + [next];
      forall k | 0 <= k < |grown| && grown[k].payload.LeafAdded?
        ensures grown[k].payload.index == |LeafList(grown, k)| {
        SameLeafList(log, grown, k);
      }
      assert AllowSetLog(grown);
    }
  }

  lemma {:induction false} SameLeafList(a: seq<Event<AspEvent>>, b: seq<Event<AspEvent>>, k: nat)
    requires k <= |a| && k <= |b| && forall j {:trigger a[j]} {:trigger b[j]} :: 0 <= j < k ==> a[j] == b[j]
    ensures LeafList(a, k) == LeafList(b, k)
  {
    if k == 0 {
    } else {
      SameLeafList(a, b, k - 1);
    }
  }

  /** Leaves 0 and 1 are added in ledger 5, leaf 2 later.  An honest server lets the first fetch stop
      between the two; resuming one past the cursor never brings leaf 1, and once leaf 2 is read
      the set is refused for the missing index.  The client's window reaches back far enough. */
  lemma {:induction false} ResumingPastTheCursorLosesALeaf(a: int, b: int, c: int)
    ensures var first, second := AddedInFive(0, a), AddedInFive(1, b);
            var log, rpc := [first, second], OneAtATime(first, second);
            var st := AspState([a], 5);
            && AllowSetLog(log) && Honest(log, rpc) && Retains(rpc)
            && SyncStep(rpc, AspState([], 0), st) && ResumeFrom(st.cursor) <= st.cursor
            && (forall later: Rpc<AspEvent> {:trigger Honest(log, later)} ::
                  Honest(log, later) && Retains(later) && Collected(later, st.cursor + 1).Success? ==>
                    Collected(later, st.cursor + 1).value == [])
            && forall e: Event<AspEvent> :: e.payload == LeafAdded(2, c) ==>
                 !Contiguous(MergeEvents(Indexed(st.leaves), [e]))
  {
    var first, second := AddedInFive(0, a), AddedInFive(1, b);
    var log, rpc := [first, second], OneAtATime(first, second);
    ResumingPastTheCursorLosesEvents(first, second);
    assert LeafList(log, 0) == [] && LeafList(log, 1) == [a];
    FirstFetch(a, rpc);
    forall e: Event<AspEvent> | e.payload == LeafAdded(2, c) ensures !Contiguous(MergeEvents(Indexed([a]), [e])) {
      OneMerged(Indexed([a]), e);
      assert 2 in MergeEvents(Indexed([a]), [e]) && 1 !in MergeEvents(Indexed([a]), [e]);
    }
  }

  lemma {:induction false} FirstFetch(a: int, rpc: Rpc<AspEvent>)
    requires Collected(rpc, 1) == Success([AddedInFive(0, a)])
    ensures SyncStep(rpc, AspState([], 0), AspState([a], 5))
  {
    var first := AddedInFive(0, a);
    OneMerged(map[], first);
    assert Indexed([]) == map[] && map[][0 := a] == Indexed([a]);
    assert CursorAfter(1, [first]) == 5 by {
      assert [first][..0] == [];
    }
  }

  function AddedInFive(index: nat, leaf: int): Event<AspEvent>
  {
    Event(Cursor(5 * LEDGER_SHIFT, index), 0, 0, LeafAdded(index, leaf))
  }

  lemma {:induction false} OneMerged(byIndex: map<nat, int>, e: Event<AspEvent>)
    ensures MergeEvents(byIndex, [e]) == MergeEvent(byIndex, e)
  {
    assert [e][..0] == [];
  }
}
