/** Payroll out of the organisation's treasury: one note whose change is chained through the
    run, or a batch that gives every payout a treasury note of its own. */
module Payroll {
  import opened Arithmetic
  import opened Amounts
  import opened PoolLedger
  import opened Payments
  import opened PayrollAmounts
  import opened Treasury
  import opened Wrappers

  // ----- settling payouts -----

  /** `steps` lead legally from `l` to `now`, pay exactly `payouts` out of `org`, and let no value in or out. */
  ghost predicate Settled(l: Ledger, org: int, payouts: seq<Payout>, steps: seq<Step>, now: Ledger)
  {
    && LegalRun(l, steps) && now == Run(l, steps) && WellFormed(now)
    && Deposited(steps) == 0 && Withdrawn(steps) == 0
    && Moved(l, now, org, payouts)
  }

  lemma {:induction false} NothingSettled(l: Ledger, org: int)
    requires WellFormed(l)
    ensures Settled(l, org, [], [], l)
  {
    MovedNothing(l, org);
  }

  lemma {:induction false} SettledMore(
      l: Ledger, org: int, payouts: seq<Payout>, steps: seq<Step>, now: Ledger, p: Payout, s: Step)
    requires Settled(l, org, payouts, steps, now)
    requires Legal(now, s) && WellFormed(Apply(now, s)) && s.deposited == s.withdrawn == 0
    requires Moved(now, Apply(now, s), org, [p])
    ensures Settled(l, org, payouts + [p], steps + [s], Apply(now, s))
  {
    RunSnoc(l, steps, s);
    MovedMore(l, now, Apply(now, s), org, payouts, p);
  }

  lemma {:induction false} SettledThen(
      l: Ledger, org: int, first: seq<Payout>, steps: seq<Step>, now: Ledger, more: seq<Payout>, batch: seq<Step>,
      after: Ledger)
    requires Settled(l, org, first, steps, now) && Settled(now, org, more, batch, after)
    ensures Settled(l, org, first + more, steps + batch, after)
  {
    RunAppend(l, steps, batch);
    MovedAll(l, now, after, org, first, more);
  }

  // ----- chained payroll -----

  /** The note payout `k` of a chained run is paid from: the covering note first, then each time
      the change the previous payout left on its second output. */
  function ChainInput(l: Ledger, first: SpendableNote, payouts: seq<Payout>, k: nat): SpendableNote
    requires k <= |payouts| && PaidTotal(payouts[..k]) <= first.amount
  {
    if k == 0 then first
    else SpendableNote(first.amount - PaidTotal(payouts[..k]), |l.leaves| + 2 * k - 1)
  }

  lemma {:induction false} PaidTotalStep(payouts: seq<Payout>, k: nat)
    requires k < |payouts|
    ensures PaidTotal(payouts[..k + 1]) == PaidTotal(payouts[..k]) + payouts[k].amount
  {
    assert payouts[..k + 1][..k] == payouts[..k];
  }

  lemma {:induction false} PaidTotalMonotone(payouts: seq<Payout>, k: nat)
    requires k <= |payouts|
    ensures PaidTotal(payouts[..k]) <= PaidTotal(payouts)
    decreases |payouts| - k
  {
    if k < |payouts| {
      PaidTotalStep(payouts, k);
      PaidTotalMonotone(payouts, k + 1);
    } else {
      assert payouts[..k] == payouts;
    }
  }

  /** Payout `k` of a chained run, as a step. */
  function ChainStep(l: Ledger, org: int, first: SpendableNote, payouts: seq<Payout>, k: nat): Step
    requires k < |payouts| && PaidTotal(payouts) <= first.amount
  {
    PaidTotalStep(payouts, k);
    PaidTotalMonotone(payouts, k + 1);
    var input := ChainInput(l, first, payouts, k);
    assert Total([input]) == input.amount;
    PaymentStep([input], payouts[k], org, false)
  }

  /** The first `k` steps of a chained run. */
  function ChainSteps(l: Ledger, org: int, first: SpendableNote, payouts: seq<Payout>, k: nat): seq<Step>
    requires k <= |payouts| && PaidTotal(payouts) <= first.amount
  {
    if k == 0 then [] else ChainSteps(l, org, first, payouts, k - 1) + [ChainStep(l, org, first, payouts, k - 1)]
  }

  lemma {:induction false} ChainStepsCount(
      l: Ledger, org: int, first: SpendableNote, payouts: seq<Payout>, k: nat)
    requires k <= |payouts| && PaidTotal(payouts) <= first.amount
    ensures |ChainSteps(l, org, first, payouts, k)| == k
  {
    if k == 0 {
    } else {
      ChainStepsCount(l, org, first, payouts, k - 1);
    }
  }

  /** The state of a chained run after `k` payouts. */
  ghost predicate Chained(
      l: Ledger, org: int, first: SpendableNote, payouts: seq<Payout>, k: nat, steps: seq<Step>,
      now: Ledger)
  {
    && k <= |payouts| && PaidTotal(payouts) <= first.amount && PaidTotal(payouts[..k]) <= first.amount
    && steps == ChainSteps(l, org, first, payouts, k) && |steps| == k
    && Settled(l, org, payouts[..k], steps, now)
    && |now.leaves| == |l.leaves| + 2 * k
    && (k > 0 ==> Genuine(now, org, ChainInput(l, first, payouts, k)))
  }

  lemma {:induction false} ChainAdvances(
      l: Ledger, org: int, first: SpendableNote, payouts: seq<Payout>, k: nat, steps: seq<Step>,
      now: Ledger)
    requires Chained(l, org, first, payouts, k, steps, now) && k < |payouts|
    requires Genuine(now, org, ChainInput(l, first, payouts, k))
    ensures var s := ChainStep(l, org, first, payouts, k);
            Chained(l, org, first, payouts, k + 1, steps + [s], Apply(now, s))
  {
    PaidTotalStep(payouts, k);
    PaidTotalMonotone(payouts, k + 1);
    var input := ChainInput(l, first, payouts, k);
    var s := ChainStep(l, org, first, payouts, k);
    SettledFromOne(l, org, payouts[..k], steps, now, input, payouts[k]);
    ChangeIsNext(l, first, payouts, k);
    assert payouts[..k + 1] == payouts[..k] + [payouts[k]];
  }

  /** The next payout of a chained run is paid from the change of this one. */
  lemma {:induction false} ChangeIsNext(l: Ledger, first: SpendableNote, payouts: seq<Payout>, k: nat)
    requires k < |payouts| && PaidTotal(payouts[..k + 1]) <= first.amount
    ensures PaidTotal(payouts[..k + 1]) == PaidTotal(payouts[..k]) + payouts[k].amount
    ensures ChainInput(l, first, payouts, k + 1)
         == SpendableNote(ChainInput(l, first, payouts, k).amount - payouts[k].amount, |l.leaves| + 2 * k + 1)
  {
    PaidTotalStep(payouts, k);
  }

  /** Paying out of one live note leaves its change on the second of two new leaves. */
  lemma {:induction false} PayFromOne(l: Ledger, org: int, input: SpendableNote, p: Payout)
    requires WellFormed(l) && Genuine(l, org, input) && input.amount >= p.amount
    ensures Total([input]) == input.amount
    ensures var s := PaymentStep([input], p, org, false);
            && Legal(l, s) && WellFormed(Apply(l, s)) && Moved(l, Apply(l, s), org, [p])
            && |Apply(l, s).leaves| == |l.leaves| + 2 && s.inputs == [input.leafIndex]
            && s.deposited == s.withdrawn == 0
            && Genuine(Apply(l, s), org, SpendableNote(input.amount - p.amount, |l.leaves| + 1))
  {
    assert [input][1..] == [];
    assert Total([input]) == input.amount;
    assert AllGenuine(l, org, [input]);
    PaymentMoves(l, [input], p, org, false);
    var s := PaymentStep([input], p, org, false);
    assert LeavesOf([input]) == [input.leafIndex];
    assert Apply(l, s).leaves[|l.leaves| + 1] == PoolNote(input.amount - p.amount, org);
  }

  /** Paying one more payout out of one live note. */
  lemma {:induction false} SettledFromOne(
      l: Ledger, org: int, payouts: seq<Payout>, steps: seq<Step>, now: Ledger, input: SpendableNote, p: Payout)
    requires Settled(l, org, payouts, steps, now) && Genuine(now, org, input) && input.amount >= p.amount
    ensures Total([input]) == input.amount
    ensures var s := PaymentStep([input], p, org, false);
            && Settled(l, org, payouts + [p], steps + [s], Apply(now, s))
            && s.inputs == [input.leafIndex] && |Apply(now, s).leaves| == |now.leaves| + 2
            && Genuine(Apply(now, s), org, SpendableNote(input.amount - p.amount, |now.leaves| + 1))
  {
    PayFromOne(now, org, input, p);
    SettledMore(l, org, payouts, steps, now, p, PaymentStep([input], p, org, false));
  }

  /** Payout `k` of a chained run can be proved when its turn comes. */
  predicate PayoutProvable(l: Ledger, org: int, first: SpendableNote, payouts: seq<Payout>, k: nat, can: Prover)
    requires k <= |payouts| && PaidTotal(payouts) <= first.amount
  {
    PaidTotalMonotone(payouts, k);
    can(Run(l, ChainSteps(l, org, first, payouts, k)), ChainInput(l, first, payouts, k))
  }

  ghost predicate TurnsProvable(l: Ledger, org: int, first: SpendableNote, payouts: seq<Payout>, n: nat, can: Prover)
    requires n <= |payouts| && PaidTotal(payouts) <= first.amount
  {
    forall k: nat {:trigger PayoutProvable(l, org, first, payouts, k, can)} ::
      k < n ==> PayoutProvable(l, org, first, payouts, k, can)
  }

  /** A chained run out of `first` that has settled exactly the payouts before the first one that cannot
      be proved. */
  ghost predicate ChainedUpTo(
      l: Ledger, org: int, first: SpendableNote, payouts: seq<Payout>, can: Prover, paid: nat, steps: seq<Step>)
  {
    && paid <= |payouts| && PaidTotal(payouts) <= first.amount
    && steps == ChainSteps(l, org, first, payouts, paid) && Settled(l, org, payouts[..paid], steps, Run(l, steps))
    && TurnsProvable(l, org, first, payouts, paid, can)
    && (paid < |payouts| ==> !PayoutProvable(l, org, first, payouts, paid, can))
  }

  /** `n` is one of the notes, and none is larger. */
  ghost predicate IsLargest(n: SpendableNote, notes: seq<SpendableNote>)
  {
    n in notes && forall m :: m in notes ==> m.amount <= n.amount
  }

  ghost predicate OneCoversAll(shown: seq<SpendableNote>, payouts: seq<Payout>)
  {
    exists n :: n in shown && n.amount >= PaidTotal(payouts)
  }

  /** What a chained payroll submits: nothing if no note covers the whole run; otherwise it starts from a
      largest note and goes as far as the payouts can be proved.  If every live note can be spent, that is
      all the way, or nowhere if it starts from a note that is not one. */
  ghost predicate PaysChained(
      l: Ledger, org: int, payouts: seq<Payout>, shown: seq<SpendableNote>, can: Prover, paid: nat, steps: seq<Step>)
  {
    if !OneCoversAll(shown, payouts) then steps == [] && paid == 0
    else
      exists first {:trigger ChainedUpTo(l, org, first, payouts, can, paid, steps)} ::
        && IsLargest(first, shown) && ChainedUpTo(l, org, first, payouts, can, paid, steps)
        && (SpendsAll(can, org) ==> paid == if Genuine(l, org, first) then |payouts| else 0)
  }

  /** Confidential payroll out of the notes shown: the largest must cover the whole run, and the run stops
      at the first payout that cannot be proved.  If every live note can be spent, only the first can be. */
  method OrgPayroll(
      l: Ledger, org: int, payouts: seq<Payout>, shown: seq<SpendableNote>, can: Prover)
    returns (steps: seq<Step>, paid: nat, r: Result<SpendableNote, PaymentError>)
    requires WellFormed(l) && SoundFor(can, org)
    ensures r == Failure(NoSingleCoveringNote) <==> !OneCoversAll(shown, payouts)
    ensures r.Failure? && r.error != NoSingleCoveringNote ==> r.error == CannotProve && paid < |payouts|
    ensures PaysChained(l, org, payouts, shown, can, paid, steps)
    ensures r.Success? ==>
              paid == |payouts| && IsLargest(r.value, shown) &&
                ChainedUpTo(l, org, r.value, payouts, can, paid, steps)
  {
    var largest := LargestNote(shown);
    if largest.None? || largest.value.amount < PaidTotal(payouts) {
      return [], 0, Failure(NoSingleCoveringNote);
    }
    var first := largest.value;
    steps, paid := ChainPayouts(l, org, first, payouts, can);
    r := if paid == |payouts| then Success(first) else Failure(CannotProve);
  }

  /** The first note of a largest-first arrangement. */
  method LargestNote(notes: seq<SpendableNote>) returns (r: Option<SpendableNote>)
    ensures r.None? <==> notes == []
    ensures r.Some? ==> IsLargest(r.value, notes)
  {
    var desc := SortLargestFirst(notes);
    SameMembers(desc, notes);
    if desc == [] {
      assert forall n :: n in notes ==> n in desc;
      return None;
    }
    assert desc[0] in desc;
    r := Some(desc[0]);
    forall n | n in notes ensures n.amount <= desc[0].amount {
      assert n in desc;
    }
  }

  /** One transfer a payout, each paid from the change of the one before, as far as they can be proved. */
  method ChainPayouts(l: Ledger, org: int, first: SpendableNote, payouts: seq<Payout>, can: Prover)
    returns (steps: seq<Step>, paid: nat)
    requires WellFormed(l) && SoundFor(can, org) && PaidTotal(payouts) <= first.amount
    ensures paid <= |payouts| && |steps| == paid
    ensures ChainedUpTo(l, org, first, payouts, can, paid, steps)
    ensures paid > 0 ==> Genuine(l, org, first)
    ensures SpendsAll(can, org) && Genuine(l, org, first) ==> paid == |payouts|
  {
    steps, paid := [], 0;
    var now := l;
    ChainBegins(l, org, first, payouts);
    while paid < |payouts|
      invariant Underway(l, org, first, payouts, can, paid, steps, now)
    {
      if !can(now, ChainInput(l, first, payouts, paid)) {
        ChainTurn(l, org, first, payouts, paid, steps, now, can);
        return;
      }
      ChainProved(l, org, first, payouts, can, paid, steps, now);
      var s := ChainStep(l, org, first, payouts, paid);
      steps, now, paid := steps + [s], Apply(now, s), paid + 1;
    }
    ChainTurn(l, org, first, payouts, paid, steps, now, can);
  }

  /** A chained run after `paid` payouts, all of which could be proved. */
  ghost predicate Underway(
      l: Ledger, org: int, first: SpendableNote, payouts: seq<Payout>, can: Prover, paid: nat, steps: seq<Step>,
      now: Ledger)
  {
    && Chained(l, org, first, payouts, paid, steps, now) && TurnsProvable(l, org, first, payouts, paid, can)
    && (paid > 0 ==> Genuine(l, org, first))
  }

  lemma {:induction false} ChainProved(
      l: Ledger, org: int, first: SpendableNote, payouts: seq<Payout>, can: Prover, paid: nat, steps: seq<Step>,
      now: Ledger)
    requires SoundFor(can, org) && Underway(l, org, first, payouts, can, paid, steps, now) && paid < |payouts|
    requires can(now, ChainInput(l, first, payouts, paid))
    ensures var s := ChainStep(l, org, first, payouts, paid);
            Underway(l, org, first, payouts, can, paid + 1, steps + [s], Apply(now, s))
  {
    ChainTurn(l, org, first, payouts, paid, steps, now, can);
    ChainAdvances(l, org, first, payouts, paid, steps, now);
  }

  /** Whether the next payout can be proved is asked where the run has got to. */
  lemma {:induction false} ChainTurn(
      l: Ledger, org: int, first: SpendableNote, payouts: seq<Payout>, k: nat, steps: seq<Step>, now: Ledger,
      can: Prover)
    requires Chained(l, org, first, payouts, k, steps, now)
    ensures PayoutProvable(l, org, first, payouts, k, can) <==> can(now, ChainInput(l, first, payouts, k))
    ensures Settled(l, org, payouts[..k], steps, Run(l, steps))
  {
  }

  lemma {:induction false} ChainBegins(l: Ledger, org: int, first: SpendableNote, payouts: seq<Payout>)
    requires WellFormed(l) && PaidTotal(payouts) <= first.amount
    ensures Chained(l, org, first, payouts, 0, [], l)
  {
    MovedNothing(l, org);
    assert payouts[..0] == [];
  }

  // ----- batched payroll -----

  /** The k-th largest treasury note covers payout `k`, for every payout of the batch. */
  predicate Coverable(avail: seq<SpendableNote>, amounts: seq<nat>)
  {
    |amounts| <= |avail| && forall k :: 0 <= k < |amounts| ==> avail[k].amount >= amounts[k]
  }

  /** Every payout can be given a treasury note of its own that covers it. */
  ghost predicate Assigns(avail: seq<SpendableNote>, amounts: seq<nat>, assign: seq<nat>)
  {
    && |assign| == |amounts| && Distinct(assign)
    && forall k :: 0 <= k < |assign| ==> assign[k] < |avail| && avail[assign[k]].amount >= amounts[k]
  }

  ghost predicate Assignable(avail: seq<SpendableNote>, amounts: seq<nat>)
  {
    exists assign :: Assigns(avail, amounts, assign)
  }

  /** The first free note, largest first, that covers `amount`. */
  method FindFree(avail: seq<SpendableNote>, used: set<nat>, amount: nat) returns (i: nat)
    ensures i <= |avail|
    ensures i < |avail| ==> i !in used && avail[i].amount >= amount
    ensures forall j: nat :: j < i ==> j in used || avail[j].amount < amount
  {
    i := 0;
    while i < |avail| && (i in used || avail[i].amount < amount)
      invariant i <= |avail|
      invariant forall j: nat :: j < i ==> j in used || avail[j].amount < amount
    {
      i := i + 1;
    }
  }

  /** `amount` is the first of the amounts that its note does not cover. */
  ghost predicate FirstUncovered(avail: seq<SpendableNote>, amounts: seq<nat>, amount: nat)
  {
    exists k: nat {:trigger amounts[k]} :: k < |amounts| && amounts[k] == amount &&
      !Coverable(avail, amounts[..k + 1]) &&
      Coverable(avail, amounts[..k])
  }

  /** Give each payout of a batch the first free covering note: payout `k` gets the k-th largest
      note, and the batch is refused exactly when one of those is missing or too small. */
  method AssignBatch(avail: seq<SpendableNote>, amounts: seq<nat>) returns (r: Result<seq<nat>, PaymentError>)
    requires Descending(avail)
    ensures r.Success? <==> Coverable(avail, amounts)
    ensures r.Success? ==> r.value == seq(|amounts|, k => k) && Assigns(avail, amounts, r.value)
    ensures r.Failure? ==> r.error.NoDistinctCoveringNote? && FirstUncovered(avail, amounts, r.error.amount)
  {
    var used: set<nat> := {};
    var spends: seq<nat> := [];
    for k := 0 to |amounts|
      invariant |spends| == k <= |avail|
      invariant forall j :: 0 <= j < k ==> spends[j] == j && avail[j].amount >= amounts[j]
      invariant forall j: nat :: j in used <==> j < k
    {
      var i := FindFree(avail, used, amounts[k]);
      if i == |avail| {
        assert k < |avail| ==> k !in used;
        assert amounts[..k + 1][k] == amounts[k];
        return Failure(NoDistinctCoveringNote(amounts[k]));
      }
      assert k !in used && i == k;
      used := used + {i};
      spends := spends + [i];
    }
    r := Success(spends);
  }

  /** Distinct positions below `n` are at most `n`. */
  lemma {:induction false} Pigeonhole(s: seq<nat>, n: nat)
    requires Distinct(s) && forall k :: 0 <= k < |s| ==> s[k] < n
    ensures |s| <= n
    decreases n
  {
    if s == [] {
    } else {
      assert s[0] < n;
      if k :| 0 <= k < |s| && s[k] == n - 1 {
        Pigeonhole(s[..k] + s[k + 1..], n - 1);
      } else {
        Pigeonhole(s, n - 1);
      }
    }
  }

  /** For payouts in non-increasing order the rule is complete. */
  lemma {:induction false} GreedyIsComplete(avail: seq<SpendableNote>, amounts: seq<nat>, assign: seq<nat>)
    requires Descending(avail) && NonIncreasing(amounts) && Assigns(avail, amounts, assign)
    ensures Coverable(avail, amounts)
  {
    Pigeonhole(assign, |avail|);
    forall k | 0 <= k < |amounts| ensures avail[k].amount >= amounts[k] {
      KthLargestSuffices(avail, amounts, assign, k);
    }
  }

  /** The first `k + 1` payouts are no smaller than payout `k`, so `k + 1` notes cover it. */
  lemma {:induction false} KthLargestSuffices(avail: seq<SpendableNote>, amounts: seq<nat>, assign: seq<nat>, k: nat)
    requires Descending(avail) && NonIncreasing(amounts) && Assigns(avail, amounts, assign)
    requires k < |amounts| <= |avail|
    ensures avail[k].amount >= amounts[k]
  {
    if avail[k].amount < amounts[k] {
      var front := assign[..k + 1];
      forall j | 0 <= j < |front| ensures front[j] < k {
        assert amounts[j] >= amounts[k];
      }
      Pigeonhole(front, k);
    }
  }

  // ----- the exact condition for completeness -----

  /** A treasury that holds exactly the payouts as notes, largest first, and which note is which payout. */
  ghost predicate Mirrors(avail: seq<SpendableNote>, amounts: seq<nat>, assign: seq<nat>)
  {
    && Descending(avail) && |avail| == |assign| == |amounts| && Distinct(assign)
    && (forall k :: 0 <= k < |assign| ==> assign[k] < |avail| && avail[assign[k]].amount == amounts[k])
    && Total(avail) == SumOf(amounts)
  }

  /** Make room at position `at` among assigned positions. */
  function ShiftFrom(assign: seq<nat>, at: nat): (r: seq<nat>)
    ensures |r| == |assign|
  {
    seq(|assign|, k requires 0 <= k < |assign| => if assign[k] >= at then assign[k] + 1 else assign[k])
  }

  lemma {:induction false} MirrorTreasury(amounts: seq<nat>) returns (avail: seq<SpendableNote>, assign: seq<nat>)
    ensures Mirrors(avail, amounts, assign)
    decreases |amounts|
  {
    if amounts == [] {
      avail, assign := [], [];
    } else {
      var init, x := amounts[..|amounts| - 1], amounts[|amounts| - 1];
      var avail0, assign0 := MirrorTreasury(init);
      var at := InsertionPoint(avail0, x);
      avail := avail0[..at] + [SpendableNote(x, 0)] + avail0[at..];
      assign := ShiftFrom(assign0, at) + [at];
      InsertTotal(avail0, at, SpendableNote(x, 0));
      InsertPositions(init, avail0, assign0, x, at);
      SumOfSnoc(amounts);
      assert amounts == init + [x];
    }
  }

  /** Inserting a note shifts the positions at and above it by one. */
  lemma {:induction false} InsertPositions(
      init: seq<nat>, avail0: seq<SpendableNote>, assign0: seq<nat>, x: nat, at: nat)
    requires |avail0| == |assign0| == |init| && at <= |avail0| && Distinct(assign0)
    requires forall k :: 0 <= k < |assign0| ==> assign0[k] < |avail0| && avail0[assign0[k]].amount == init[k]
    ensures var avail := avail0[..at] + [SpendableNote(x, 0)] + avail0[at..];
            var assign := ShiftFrom(assign0, at) + [at];
            && Distinct(assign)
            && forall k :: 0 <= k < |assign| ==> assign[k] < |avail| && avail[assign[k]].amount == (init + [x])[k]
  {
    var avail := avail0[..at] + [SpendableNote(x, 0)] + avail0[at..];
    var assign := ShiftFrom(assign0, at) + [at];
    forall k | 0 <= k < |init| ensures assign[k] < |avail| && assign[k] != at && avail[assign[k]].amount == init[k] {
      assert assign[k] == if assign0[k] >= at then assign0[k] + 1 else assign0[k];
    }
    assert avail[at].amount == x;
  }

  lemma {:induction false} InsertionPoint(avail: seq<SpendableNote>, x: nat) returns (at: nat)
    requires Descending(avail)
    ensures at <= |avail|
    ensures forall j :: 0 <= j < at ==> avail[j].amount >= x
    ensures forall j :: at <= j < |avail| ==> avail[j].amount <= x
  {
    at := 0;
    while at < |avail| && avail[at].amount >= x
      invariant at <= |avail|
      invariant forall j :: 0 <= j < at ==> avail[j].amount >= x
    {
      at := at + 1;
    }
  }

  lemma {:induction false} InsertTotal(avail: seq<SpendableNote>, at: nat, n: SpendableNote)
    requires at <= |avail|
    ensures Total(avail[..at] + [n] + avail[at..]) == Total(avail) + n.amount
  {
    var front := avail[..at];
    TotalSplit(avail, at);
    TotalAppend(front + [n], avail[at..]);
    TotalAppend(front, [n]);
    assert Total([n]) == n.amount;
  }

  /** Notes that dominate amounts of the same sum equal them one by one. */
  lemma {:induction false} DominatedEqualSum(avail: seq<SpendableNote>, amounts: seq<nat>)
    requires |avail| == |amounts| && forall k :: 0 <= k < |amounts| ==> avail[k].amount >= amounts[k]
    ensures Total(avail) >= SumOf(amounts)
    ensures Total(avail) == SumOf(amounts) ==> forall k :: 0 <= k < |amounts| ==> avail[k].amount == amounts[k]
    decreases |amounts|
  {
    if amounts == [] {
    } else {
      var last := |amounts| - 1;
      DominatedEqualSum(avail[..last], amounts[..last]);
      SumOfSnoc(amounts);
      TotalPrefixStep(avail, last);
      assert avail[..last + 1] == avail;
      assert forall k :: 0 <= k < last ==> avail[..last][k] == avail[k] && amounts[..last][k] == amounts[k];
    }
  }

  /** The rule finds an assignment in every treasury that has one if and only if the payouts
      are listed in non-increasing order. */
  lemma {:induction false} GreedyCompleteIffNonIncreasing(amounts: seq<nat>)
    ensures (forall avail {:trigger Assignable(avail, amounts)} :: Descending(avail) && Assignable(avail, amounts) ==>
            Coverable(avail, amounts))
       <==> NonIncreasing(amounts)
  {
    if NonIncreasing(amounts) {
      forall avail | Descending(avail) && Assignable(avail, amounts) ensures Coverable(avail, amounts) {
        var assign :| Assigns(avail, amounts, assign);
        GreedyIsComplete(avail, amounts, assign);
      }
    } else {
      var avail, assign := MirrorTreasury(amounts);
      assert Assigns(avail, amounts, assign);
      assert Assignable(avail, amounts);
      if Coverable(avail, amounts) {
        DominatedEqualSum(avail, amounts);
        assert false;
      }
    }
  }

  /** A small treasury that could pay both payouts, but not in this order. */
  lemma {:induction false} GreedyRefusesUnorderedPayouts()
    ensures var avail, amounts := [SpendableNote(10, 0), SpendableNote(1, 1)], [1, 10];
            Descending(avail) && Assignable(avail, amounts) && !Coverable(avail, amounts)
  {
    var avail: seq<SpendableNote>, amounts: seq<nat> := [SpendableNote(10, 0), SpendableNote(1, 1)], [1, 10];
    assert Assigns(avail, amounts, [1, 0]);
    assert avail[1].amount < amounts[1];
  }

  // ----- the batched run -----

  /** Full batches fit at most three spends, whatever a caller asks for, and at least one: three unless fewer
      are asked for. */
  function BatchCap(maxPerTx: Option<int>): (cap: nat)
    ensures 1 <= cap <= 3
    ensures cap == 3 <==> maxPerTx.None? || maxPerTx.value >= 3
    ensures maxPerTx.Some? && 1 <= maxPerTx.value <= 3 ==> cap == maxPerTx.value
  {
    var asked := if maxPerTx.None? then 3 else maxPerTx.value;
    var capped := if asked < 3 then asked else 3;
    if capped > 1 then capped else 1
  }

  /** Payout `k` of a batch, paid from the `k`-th largest note. */
  function BatchStep(org: int, avail: seq<SpendableNote>, chunk: seq<Payout>, k: nat): Step
    requires k < |chunk| && Coverable(avail, AmountsOfPayouts(chunk))
  {
    assert AmountsOfPayouts(chunk)[k] == chunk[k].amount;
    assert Total([avail[k]]) == avail[k].amount;
    PaymentStep([avail[k]], chunk[k], org, false)
  }

  function BatchSteps(org: int, avail: seq<SpendableNote>, chunk: seq<Payout>, k: nat): (r: seq<Step>)
    requires k <= |chunk| && Coverable(avail, AmountsOfPayouts(chunk))
    ensures |r| == k
  {
    if k == 0 then [] else BatchSteps(org, avail, chunk, k - 1) + [BatchStep(org, avail, chunk, k - 1)]
  }

  /** The state of a batch after `k` of its spends. */
  ghost predicate Batched(l: Ledger, org: int, avail: seq<SpendableNote>, chunk: seq<Payout>, k: nat)
    requires k <= |chunk| && Coverable(avail, AmountsOfPayouts(chunk))
  {
    var steps := BatchSteps(org, avail, chunk, k);
    && Settled(l, org, chunk[..k], steps, Run(l, steps))
    && (forall j {:trigger avail[j]} :: k <= j < |chunk| ==> Genuine(Run(l, steps), org, avail[j]))
  }

  lemma {:induction false} BatchPays(l: Ledger, org: int, avail: seq<SpendableNote>, chunk: seq<Payout>, k: nat)
    requires k < |chunk| && Coverable(avail, AmountsOfPayouts(chunk)) &&
             Genuine(Run(l, BatchSteps(org, avail, chunk, k)), org, avail[k])
    requires Settled(l, org, chunk[..k], BatchSteps(org, avail, chunk, k), Run(l, BatchSteps(org, avail, chunk, k)))
    ensures BatchStep(org, avail, chunk, k).inputs == [avail[k].leafIndex]
    ensures var now := Apply(Run(l, BatchSteps(org, avail, chunk, k)), BatchStep(org, avail, chunk, k));
            Settled(l, org, chunk[..k + 1], BatchSteps(org, avail, chunk, k + 1), now)
  {
    var steps := BatchSteps(org, avail, chunk, k);
    assert AmountsOfPayouts(chunk)[k] == chunk[k].amount;
    SettledFromOne(l, org, chunk[..k], steps, Run(l, steps), avail[k], chunk[k]);
    assert chunk[..k + 1] == chunk[..k] + [chunk[k]];
  }

  /** One more spend of a batch: legal, and the notes still to be spent stay live. */
  lemma {:induction false} BatchAdvances(l: Ledger, org: int, avail: seq<SpendableNote>, chunk: seq<Payout>, k: nat)
    requires k < |chunk| && Coverable(avail, AmountsOfPayouts(chunk)) && DistinctLeaves(avail)
    requires Batched(l, org, avail, chunk, k)
    ensures Batched(l, org, avail, chunk, k + 1)
  {
    BatchPays(l, org, avail, chunk, k);
    forall j {:trigger avail[j]} | k + 1 <= j < |chunk|
      ensures Genuine(Run(l, BatchSteps(org, avail, chunk, k + 1)), org, avail[j])
    {
      assert LeavesDiffer(avail, k, j);
    }
  }

  /** All spends of a batch use notes that were live before it, so together they are legal. */
  lemma {:induction false} BatchIsLegal(l: Ledger, org: int, avail: seq<SpendableNote>, chunk: seq<Payout>, k: nat)
    requires WellFormed(l) && k <= |chunk| && Coverable(avail, AmountsOfPayouts(chunk))
    requires DistinctLeaves(avail) && AllGenuine(l, org, avail[..|chunk|])
    ensures Batched(l, org, avail, chunk, k)
  {
    if k == 0 {
      NothingSettled(l, org);
      assert chunk[..0] == [];
      forall j | 0 <= j < |chunk| ensures Genuine(l, org, avail[j]) {
        assert avail[..|chunk|][j] == avail[j];
      }
    } else {
      BatchIsLegal(l, org, avail, chunk, k - 1);
      BatchAdvances(l, org, avail, chunk, k - 1);
    }
  }

  /** The k-th largest of the notes covers payout `k`. */
  predicate NotesCover(notes: seq<SpendableNote>, payouts: seq<Payout>)
  {
    CoversInOrder(SortDown(AmountsOf(notes)), payouts)
  }

  lemma {:induction false} CoverableInAnyOrder(
      notes: seq<SpendableNote>, avail: seq<SpendableNote>, chunk: seq<Payout>)
    requires LargestFirst(notes, avail)
    ensures NotesCover(notes, chunk) <==> Coverable(avail, AmountsOfPayouts(chunk))
  {
    LargestFirstAmounts(notes, avail);
    var desc, owed := AmountsOf(avail), AmountsOfPayouts(chunk);
    assert forall k :: 0 <= k < |chunk| ==> owed[k] == chunk[k].amount;
    assert forall k :: 0 <= k < |avail| ==> desc[k] == avail[k].amount;
  }

  /** What the treasury holds after `k` spends of a batch. */
  function HeldAfter(l: Ledger, org: int, avail: seq<SpendableNote>, chunk: seq<Payout>, k: nat): multiset<nat>
    requires k <= |chunk| && Coverable(avail, AmountsOfPayouts(chunk))
  {
    multiset(Holdings(Run(l, BatchSteps(org, avail, chunk, k)), org))
  }

  /** The notes still to be spent, and what came back. */
  function Remaining(desc: seq<nat>, chunk: seq<Payout>, org: int, k: nat): multiset<nat>
    requires k <= |chunk| && CoversInOrder(desc, chunk)
  {
    multiset(desc[k..] + Returned(desc, chunk, org, k))
  }

  lemma {:induction false} HoldingsInBatch(
      l: Ledger, org: int, avail: seq<SpendableNote>, chunk: seq<Payout>, k: nat)
    requires WellFormed(l) && LargestFirst(SpendableNotes(l, org), avail) && k <= |chunk|
    requires Coverable(avail, AmountsOfPayouts(chunk)) && CoversInOrder(AmountsOf(avail), chunk)
    ensures HeldAfter(l, org, avail, chunk, k) == Remaining(AmountsOf(avail), chunk, org, k)
  {
    if k == 0 {
      AmountsOfPermutation(avail, SpendableNotes(l, org));
      assert AmountsOf(avail)[0..] + Returned(AmountsOf(avail), chunk, org, 0) == AmountsOf(avail);
    } else {
      HoldingsInBatch(l, org, avail, chunk, k - 1);
      NextNoteIsLive(l, org, avail, chunk, k - 1);
      SpendReturns(l, org, avail, chunk, k - 1);
      OneReturned(AmountsOf(avail), chunk, org, k - 1);
    }
  }

  lemma {:induction false} NextNoteIsLive(
      l: Ledger, org: int, avail: seq<SpendableNote>, chunk: seq<Payout>, k: nat)
    requires WellFormed(l) && LargestFirst(SpendableNotes(l, org), avail) && k < |chunk|
    requires Coverable(avail, AmountsOfPayouts(chunk))
    ensures var now := Run(l, BatchSteps(org, avail, chunk, k)); WellFormed(now) && Genuine(now, org, avail[k])
  {
    TreasuryNotes(l, org, avail);
    BatchIsLegal(l, org, avail, chunk, k);
  }

  lemma {:induction false} SpendReturns(
      l: Ledger, org: int, avail: seq<SpendableNote>, chunk: seq<Payout>, k: nat)
    requires k < |chunk| && Coverable(avail, AmountsOfPayouts(chunk)) && CoversInOrder(AmountsOf(avail), chunk)
    requires var now := Run(l, BatchSteps(org, avail, chunk, k)); WellFormed(now) && Genuine(now, org, avail[k])
    ensures HeldAfter(l, org, avail, chunk, k + 1)
            == Exchange(HeldAfter(l, org, avail, chunk, k), AmountsOf(avail)[k], chunk[k], org)
  {
    assert AmountsOf(avail)[k] == avail[k].amount;
    HoldingsAfterPayment(Run(l, BatchSteps(org, avail, chunk, k)), org, avail[k], chunk[k]);
    RunSnoc(l, BatchSteps(org, avail, chunk, k), BatchStep(org, avail, chunk, k));
  }

  lemma {:induction false} OneReturned(desc: seq<nat>, chunk: seq<Payout>, org: int, k: nat)
    requires k < |chunk| && CoversInOrder(desc, chunk)
    ensures Remaining(desc, chunk, org, k + 1) == Exchange(Remaining(desc, chunk, org, k), desc[k], chunk[k], org)
  {
    var change, back := [desc[k] - chunk[k].amount], PaidBack(chunk[k], org);
    assert desc[k..] == [desc[k]] + desc[k + 1..];
    assert Returned(desc, chunk, org, k + 1) == Returned(desc, chunk, org, k) + change + back;
    TakenAndReturned(desc[k], desc[k + 1..], Returned(desc, chunk, org, k), change, back);
  }

  lemma {:induction false} TakenAndReturned(x: nat, rest: seq<nat>, before: seq<nat>, change: seq<nat>, back: seq<nat>)
    ensures multiset(rest + (before + change + back))
            == multiset([x] + rest + before) - multiset{x} + multiset(back) + multiset(change)
  {
    assert multiset([x] + rest + before) == multiset{x} + multiset(rest) + multiset(before);
    assert multiset(rest + (before + change + back))
        == multiset(rest) + (multiset(before) + multiset(change) + multiset(back));
  }

  /** The treasury's notes, the largest first, are its live notes, each on a leaf of its own. */
  lemma {:induction false} TreasuryNotes(l: Ledger, org: int, avail: seq<SpendableNote>)
    requires LargestFirst(SpendableNotes(l, org), avail)
    ensures DistinctLeaves(avail) && AllGenuine(l, org, avail)
  {
    SpendableFacts(l, org);
    Rearranged(SpendableNotes(l, org), avail);
    SameMembers(avail, SpendableNotes(l, org));
    forall k | 0 <= k < |avail| ensures Genuine(l, org, avail[k]) {
      assert avail[k] in avail;
    }
  }

  /** Settle one chunk: give each payout its own note of those shown, prove every spend, submit the batch.
      If one of them cannot be proved, nothing is settled. */
  method SettleChunk(l: Ledger, org: int, chunk: seq<Payout>, shown: seq<SpendableNote>, can: Prover)
    returns (r: Result<seq<Step>, PaymentError>)
    requires WellFormed(l) && DistinctLeaves(shown) && SoundFor(can, org)
    ensures r.Success? ==> SettlesChunk(l, org, chunk, shown, can, r.value)
    ensures r.Failure? ==> ChunkRefused(l, chunk, shown, can, r.error)
  {
    var avail := SortLargestFirst(shown);
    Rearranged(shown, avail);
    CoverableInAnyOrder(shown, avail, chunk);
    var spends := AssignBatch(avail, AmountsOfPayouts(chunk));
    if spends.Failure? {
      return Failure(spends.error);
    }
    if !AllProvable(l, avail[..|chunk|], can) {
      assert LargestFirst(shown, avail);
      return Failure(CannotProve);
    }
    var steps := SubmitBatch(org, avail, chunk, spends.value);
    BatchSettles(l, org, avail, chunk, shown, can);
    r := Success(steps);
  }

  /** Why a chunk is not settled: the notes shown do not cover it largest first, or they do and one of
      the notes assigned cannot be spent. */
  ghost predicate ChunkRefused(
      l: Ledger, chunk: seq<Payout>, shown: seq<SpendableNote>, can: Prover, error: PaymentError)
  {
    if NotesCover(shown, chunk) then error == CannotProve && NoteBlocks(l, shown, |chunk|, can)
    else error.NoDistinctCoveringNote?
  }

  /** One of the `n` largest notes shown cannot be spent. */
  ghost predicate NoteBlocks(l: Ledger, shown: seq<SpendableNote>, n: nat, can: Prover)
  {
    exists avail {:trigger LargestFirst(shown, avail)} ::
      LargestFirst(shown, avail) && n <= |avail| && !AllProvable(l, avail[..n], can)
  }

  predicate AllProvable(l: Ledger, notes: seq<SpendableNote>, can: Prover)
  {
    forall n :: n in notes ==> can(l, n)
  }

  /** With a clear view no note blocks a batch. */
  lemma {:induction false} NothingBlocks(l: Ledger, org: int, show: Screen, can: Prover, n: nat)
    requires Clear(org, show, can)
    ensures !NoteBlocks(l, show(l), n, can)
  {
    forall avail | LargestFirst(show(l), avail) && n <= |avail| ensures AllProvable(l, avail[..n], can) {
      TreasuryNotes(l, org, avail);
      assert forall k :: 0 <= k < n ==> Genuine(l, org, avail[k]);
    }
  }

  /** One spend a payout, out of the note assigned to it. */
  method SubmitBatch(
      org: int, avail: seq<SpendableNote>, chunk: seq<Payout>, spends: seq<nat>)
    returns (steps: seq<Step>)
    requires Coverable(avail, AmountsOfPayouts(chunk)) && |spends| == |chunk|
    requires forall k :: 0 <= k < |chunk| ==> spends[k] == k
    ensures steps == BatchSteps(org, avail, chunk, |chunk|)
  {
    steps := [];
    for k := 0 to |chunk|
      invariant steps == BatchSteps(org, avail, chunk, k)
    {
      var input := avail[spends[k]];
      assert AmountsOfPayouts(chunk)[k] == chunk[k].amount;
      assert Total([input]) == input.amount;
      steps := steps + [PaymentStep([input], chunk[k], org, false)];
    }
  }

  /** Payout `k` is paid out of the `k`-th largest note shown, and all of those can be spent. */
  ghost predicate PaidLargestFirst(
      l: Ledger, org: int, chunk: seq<Payout>, shown: seq<SpendableNote>, can: Prover, steps: seq<Step>)
  {
    exists avail {:trigger LargestFirst(shown, avail)} ::
      LargestFirst(shown, avail) && PaidOutOf(l, org, chunk, avail, can, steps)
  }

  predicate PaidOutOf(
      l: Ledger, org: int, chunk: seq<Payout>, avail: seq<SpendableNote>, can: Prover, steps: seq<Step>)
  {
    && Coverable(avail, AmountsOfPayouts(chunk)) && AllProvable(l, avail[..|chunk|], can)
    && steps == BatchSteps(org, avail, chunk, |chunk|)
  }

  /** A batch is one legal spend a payout, each of a different note that was live before the batch. */
  ghost predicate SettlesChunk(
      l: Ledger, org: int, chunk: seq<Payout>, shown: seq<SpendableNote>, can: Prover, steps: seq<Step>)
  {
    && Settled(l, org, chunk, steps, Run(l, steps)) && |steps| == |chunk|
    && (forall k {:trigger steps[k]} :: 0 <= k < |steps| ==> SpendsOneLive(l, steps[k]))
    && PaidLargestFirst(l, org, chunk, shown, can, steps)
  }

  predicate SpendsOneLive(l: Ledger, s: Step)
  {
    |s.inputs| == 1 && Live(l, s.inputs[0])
  }

  lemma {:induction false} BatchSettles(
      l: Ledger, org: int, avail: seq<SpendableNote>, chunk: seq<Payout>, shown: seq<SpendableNote>, can: Prover)
    requires WellFormed(l) && Coverable(avail, AmountsOfPayouts(chunk)) && LargestFirst(shown, avail)
    requires DistinctLeaves(avail) && SoundFor(can, org) && AllProvable(l, avail[..|chunk|], can)
    ensures SettlesChunk(l, org, chunk, shown, can, BatchSteps(org, avail, chunk, |chunk|))
  {
    ProvableAreGenuine(l, org, avail[..|chunk|], can);
    BatchIsLegal(l, org, avail, chunk, |chunk|);
    assert chunk[..|chunk|] == chunk;
    var steps := BatchSteps(org, avail, chunk, |chunk|);
    forall k | 0 <= k < |steps| ensures SpendsOneLive(l, steps[k]) {
      BatchInputsLive(l, org, avail, chunk, |chunk|, k);
    }
    assert PaidOutOf(l, org, chunk, avail, can, steps);
  }

  lemma {:induction false} ProvableAreGenuine(l: Ledger, org: int, notes: seq<SpendableNote>, can: Prover)
    requires SoundFor(can, org) && AllProvable(l, notes, can)
    ensures AllGenuine(l, org, notes)
  {
    forall k | 0 <= k < |notes| ensures Genuine(l, org, notes[k]) {
      assert can(l, notes[k]);
    }
  }

  lemma {:induction false} BatchInputsLive(
      l: Ledger, org: int, avail: seq<SpendableNote>, chunk: seq<Payout>, k: nat, j: nat)
    requires j < k <= |chunk| && Coverable(avail, AmountsOfPayouts(chunk)) && AllGenuine(l, org, avail[..|chunk|])
    ensures SpendsOneLive(l, BatchSteps(org, avail, chunk, k)[j])
  {
    if j < k - 1 {
      BatchInputsLive(l, org, avail, chunk, k - 1, j);
    } else {
      assert avail[..|chunk|][j] == avail[j] && Genuine(l, org, avail[j]);
      assert LeavesOf([avail[j]]) == [avail[j].leafIndex];
    }
  }

  /** After a batch the treasury holds what the rule on amounts says. */
  lemma {:induction false} HoldingsAfterBatch(
      l: Ledger, org: int, chunk: seq<Payout>, can: Prover, steps: seq<Step>)
    requires WellFormed(l) && PaidLargestFirst(l, org, chunk, SpendableNotes(l, org), can, steps)
    ensures NotesCover(SpendableNotes(l, org), chunk)
    ensures multiset(Holdings(Run(l, steps), org)) == multiset(AfterChunk(SortDown(Holdings(l, org)), chunk, org))
  {
    var avail :| LargestFirst(SpendableNotes(l, org), avail) && PaidOutOf(l, org, chunk, avail, can, steps);
    CoverableInAnyOrder(SpendableNotes(l, org), avail, chunk);
    LargestFirstAmounts(SpendableNotes(l, org), avail);
    HoldingsInBatch(l, org, avail, chunk, |chunk|);
  }

  /** Batched payroll out of the notes shown before each chunk: the payouts in order, in chunks of at most
      the cap, stopping at the first chunk that is refused.  What was settled before stays settled. */
  method OrgBatchPayroll(
      l: Ledger, org: int, payouts: seq<Payout>, maxPerTx: Option<int>, show: Screen, can: Prover)
    returns (steps: seq<Step>, paid: nat, r: Result<nat, PaymentError>)
    requires WellFormed(l) && ShowsLeaves(show) && SoundFor(can, org)
    ensures paid <= |payouts| && |steps| == paid && Settled(l, org, payouts[..paid], steps, Run(l, steps))
    ensures ChunksPaid(l, org, payouts, BatchCap(maxPerTx), show, can, steps)
    ensures r.Success? <==> paid == |payouts|
    ensures r.Failure? ==>
              && paid % BatchCap(maxPerTx) == 0
              && var now, chunk := Run(l, steps), ChunkAt(payouts, paid, BatchCap(maxPerTx));
                 ChunkRefused(now, chunk, show(now), can, r.error)
    ensures PaysBatched(l, org, payouts, BatchCap(maxPerTx), show, can, steps)
    ensures Clear(org, show, can) ==> (r.Success? <==> Serves(Holdings(l, org), payouts, org, BatchCap(maxPerTx)))
    ensures Clear(org, show, can) && NotesCover(show(l), payouts) ==> r.Success?
    ensures Clear(org, show, can) && r.Failure? ==> r.error.NoDistinctCoveringNote?
  {
    var cap := BatchCap(maxPerTx);
    steps, paid, r := SettleChunks(l, org, payouts, cap, show, can);
    if Clear(org, show, can) {
      ClearRun(l, org, payouts, cap, show, can, steps, paid, r);
    }
  }

  /** What a batched payroll submits: whole chunks, each paid largest first out of what was shown at its turn,
      up to the end or to the first chunk that is refused. */
  ghost predicate PaysBatched(
      l: Ledger, org: int, payouts: seq<Payout>, cap: nat, show: Screen, can: Prover, steps: seq<Step>)
    requires cap > 0
  {
    var now := Run(l, steps);
    && |steps| <= |payouts| && ChunksPaid(l, org, payouts, cap, show, can, steps)
    && (|steps| < |payouts| ==>
          |steps| % cap == 0 && ChunkStops(now, ChunkAt(payouts, |steps|, cap), show(now), can))
  }

  /** The notes shown do not cover the chunk largest first, or one of those assigned cannot be spent. */
  ghost predicate ChunkStops(l: Ledger, chunk: seq<Payout>, shown: seq<SpendableNote>, can: Prover)
  {
    !NotesCover(shown, chunk) || NoteBlocks(l, shown, |chunk|, can)
  }

  /** Chunk after chunk, until one is refused. */
  method SettleChunks(l: Ledger, org: int, payouts: seq<Payout>, cap: nat, show: Screen, can: Prover)
    returns (steps: seq<Step>, paid: nat, r: Result<nat, PaymentError>)
    requires WellFormed(l) && cap > 0 && ShowsLeaves(show) && SoundFor(can, org)
    ensures BatchedUpTo(l, org, payouts, cap, show, can, steps, paid, Run(l, steps))
    ensures r.Success? ==> paid == |payouts|
    ensures r.Failure? ==>
              && paid < |payouts|
              && ChunkRefused(Run(l, steps), ChunkAt(payouts, paid, cap), show(Run(l, steps)), can, r.error)
  {
    steps, paid := [], 0;
    var ledger := l;
    BatchStarts(l, org, payouts, cap, show, can);
    while paid < |payouts|
      invariant BatchedUpTo(l, org, payouts, cap, show, can, steps, paid, ledger)
    {
      var batch := SettleNext(l, org, payouts, cap, show, can, steps, paid, ledger);
      if batch.Failure? {
        return steps, paid, Failure(batch.error);
      }
      steps, ledger := steps + batch.value, Run(ledger, batch.value);
      paid := paid + |ChunkAt(payouts, paid, cap)|;
    }
    r := Success(paid);
  }

  /** The next chunk of a run, if it is not refused. */
  method SettleNext(
      ghost l: Ledger, org: int, payouts: seq<Payout>, cap: nat, show: Screen, can: Prover, ghost steps: seq<Step>,
      paid: nat, ledger: Ledger)
    returns (batch: Result<seq<Step>, PaymentError>)
    requires cap > 0 && ShowsLeaves(show) && SoundFor(can, org)
    requires BatchedUpTo(l, org, payouts, cap, show, can, steps, paid, ledger) && paid < |payouts|
    ensures batch.Success? ==>
              BatchedUpTo(l, org, payouts, cap, show, can, steps + batch.value,
                paid + |ChunkAt(payouts, paid, cap)|, Run(ledger, batch.value))
    ensures batch.Failure? ==> ChunkRefused(ledger, ChunkAt(payouts, paid, cap), show(ledger), can, batch.error)
  {
    var chunk := ChunkAt(payouts, paid, cap);
    batch := SettleChunk(ledger, org, chunk, show(ledger), can);
    if batch.Success? {
      BatchAdded(l, org, payouts, cap, show, can, steps, paid, ledger, chunk, batch.value);
    }
  }

  /** The first `paid` payouts are settled, and nothing else happened. */
  ghost predicate PaidUpTo(l: Ledger, org: int, payouts: seq<Payout>, steps: seq<Step>, paid: nat, now: Ledger)
  {
    && paid <= |payouts| && |steps| == paid
    && Settled(l, org, payouts[..paid], steps, now)
  }

  /** Where the run is after `paid` payouts: whole chunks so far, each paid largest first. */
  ghost predicate BatchedUpTo(
      l: Ledger, org: int, payouts: seq<Payout>, cap: nat, show: Screen, can: Prover, steps: seq<Step>, paid: nat,
      now: Ledger)
    requires cap > 0
  {
    && PaidUpTo(l, org, payouts, steps, paid, now) && ChunksPaid(l, org, payouts, cap, show, can, steps)
    && (paid < |payouts| ==> paid % cap == 0)
    && ClearlyServed(l, org, payouts, cap, show, can, paid, now)
  }

  ghost predicate ClearlyServed(
      l: Ledger, org: int, payouts: seq<Payout>, cap: nat, show: Screen, can: Prover, paid: nat, now: Ledger)
    requires cap > 0 && paid <= |payouts|
  {
    Clear(org, show, can) ==> StillServed(l, org, payouts, cap, paid, now)
  }

  /** What the treasury has left serves the rest exactly if what it had at the start served everything. */
  predicate StillServed(l: Ledger, org: int, payouts: seq<Payout>, cap: nat, paid: nat, now: Ledger)
    requires cap > 0 && paid <= |payouts|
  {
    Serves(Holdings(l, org), payouts, org, cap) <==> Serves(Holdings(now, org), payouts[paid..], org, cap)
  }

  lemma {:induction false} BatchStarts(
      l: Ledger, org: int, payouts: seq<Payout>, cap: nat, show: Screen, can: Prover)
    requires WellFormed(l) && cap > 0
    ensures BatchedUpTo(l, org, payouts, cap, show, can, [], 0, l)
  {
    NothingSettled(l, org);
    assert payouts[..0] == [] && payouts[0..] == payouts;
  }

  /** With a clear view a run is complete exactly if the treasury serves it. */
  lemma {:induction false} ClearRun(
      l: Ledger, org: int, payouts: seq<Payout>, cap: nat, show: Screen, can: Prover, steps: seq<Step>, paid: nat,
      r: Result<nat, PaymentError>)
    requires cap > 0 && Clear(org, show, can) && paid <= |payouts| && (r.Success? <==> paid == |payouts|)
    requires StillServed(l, org, payouts, cap, paid, Run(l, steps))
    requires r.Failure? ==> ChunkRefused(Run(l, steps), ChunkAt(payouts, paid, cap), show(Run(l, steps)), can, r.error)
    ensures r.Success? <==> Serves(Holdings(l, org), payouts, org, cap)
    ensures NotesCover(show(l), payouts) ==> r.Success?
    ensures r.Failure? ==> r.error.NoDistinctCoveringNote?
  {
    if r.Failure? {
      var now := Run(l, steps);
      NothingBlocks(now, org, show, can, |ChunkAt(payouts, paid, cap)|);
      ServedFrom(Holdings(now, org), payouts, paid, org, cap);
    } else {
      assert payouts[|payouts|..] == [];
    }
    if NotesCover(show(l), payouts) {
      CoveredRunIsServed(Holdings(l, org), payouts, org, cap);
    }
  }

  lemma {:induction false} ChunkCounts(payouts: seq<Payout>, paid: nat, cap: nat)
    requires cap > 0 && paid < |payouts| && paid % cap == 0
    ensures var next := paid + |ChunkAt(payouts, paid, cap)|; next < |payouts| ==> next % cap == 0
  {
    NextMultiple(paid, cap);
  }

  lemma {:induction false} BatchAdded(
      l: Ledger, org: int, payouts: seq<Payout>, cap: nat, show: Screen, can: Prover, steps: seq<Step>, paid: nat,
      now: Ledger, chunk: seq<Payout>, batch: seq<Step>)
    requires cap > 0 && BatchedUpTo(l, org, payouts, cap, show, can, steps, paid, now) && paid < |payouts|
    requires chunk == ChunkAt(payouts, paid, cap) && SettlesChunk(now, org, chunk, show(now), can, batch)
    ensures BatchedUpTo(l, org, payouts, cap, show, can, steps + batch, paid + |chunk|, Run(now, batch))
  {
    ChunkSettled(l, org, payouts, steps, paid, now, chunk, batch);
    ChunkCounts(payouts, paid, cap);
    MoreChunksPaid(l, org, payouts, cap, show, can, steps, paid, now, chunk, batch);
    ServedNextTime(l, org, payouts, cap, show, can, paid, now, chunk, batch);
  }

  /** Every chunk is paid largest first out of what was shown when its turn came. */
  ghost predicate ChunksPaid(
      l: Ledger, org: int, payouts: seq<Payout>, cap: nat, show: Screen, can: Prover, steps: seq<Step>)
    requires cap > 0
  {
    forall off: nat {:trigger ChunkPaid(l, org, payouts, cap, show, can, steps, off)} ::
      off < |steps| && off % cap == 0 ==> ChunkPaid(l, org, payouts, cap, show, can, steps, off)
  }

  ghost predicate ChunkPaid(
      l: Ledger, org: int, payouts: seq<Payout>, cap: nat, show: Screen, can: Prover, steps: seq<Step>, off: nat)
    requires cap > 0
  {
    && off < |payouts| && off <= |steps|
    && var chunk, now := ChunkAt(payouts, off, cap), Run(l, steps[..off]);
       && off + |chunk| <= |steps|
       && PaidLargestFirst(now, org, chunk, show(now), can, steps[off..off + |chunk|])
  }

  lemma {:induction false} ChunkStaysPaid(
      l: Ledger, org: int, payouts: seq<Payout>, cap: nat, show: Screen, can: Prover, steps: seq<Step>, off: nat,
      batch: seq<Step>)
    requires cap > 0 && ChunkPaid(l, org, payouts, cap, show, can, steps, off)
    ensures ChunkPaid(l, org, payouts, cap, show, can, steps + batch, off)
  {
    var end := off + |ChunkAt(payouts, off, cap)|;
    assert (steps + batch)[..off] == steps[..off] && (steps + batch)[off..end] == steps[off..end];
  }

  lemma {:induction false} MoreChunksPaid(
      l: Ledger, org: int, payouts: seq<Payout>, cap: nat, show: Screen, can: Prover, steps: seq<Step>, paid: nat,
      now: Ledger, chunk: seq<Payout>, batch: seq<Step>)
    requires cap > 0 && |steps| == paid < |payouts| && paid % cap == 0 && now == Run(l, steps)
    requires chunk == ChunkAt(payouts, paid, cap) && |batch| == |chunk|
    requires ChunksPaid(l, org, payouts, cap, show, can, steps)
    requires PaidLargestFirst(now, org, chunk, show(now), can, batch)
    ensures ChunksPaid(l, org, payouts, cap, show, can, steps + batch)
  {
    forall off: nat | off < |steps + batch| && off % cap == 0
      ensures ChunkPaid(l, org, payouts, cap, show, can, steps + batch, off)
    {
      if off < paid {
        ChunkStaysPaid(l, org, payouts, cap, show, can, steps, off, batch);
      } else {
        NoMultipleBetween(paid, cap, off);
        assert off == paid;
        assert (steps + batch)[..off] == steps && (steps + batch)[off..off + |batch|] == batch;
      }
    }
  }

  /** Unless fewer are asked for, three payouts at a time are paid out of the three largest notes shown before
      any of the three. */
  lemma {:induction false} ThreeAtATime(
      l: Ledger, org: int, payouts: seq<Payout>, maxPerTx: Option<int>, show: Screen, can: Prover, steps: seq<Step>,
      off: nat)
    requires (maxPerTx.None? || maxPerTx.value >= 3) && off % 3 == 0 && off < |steps| && off + 3 <= |payouts|
    requires ChunksPaid(l, org, payouts, BatchCap(maxPerTx), show, can, steps)
    ensures off + 3 <= |steps|
    ensures var now := Run(l, steps[..off]);
            PaidLargestFirst(now, org, payouts[off..off + 3], show(now), can, steps[off..off + 3])
  {
    assert ChunkPaid(l, org, payouts, 3, show, can, steps, off);
    assert ChunkAt(payouts, off, 3) == payouts[off..off + 3];
  }

  /** So a treasury of 10 and 1 does not serve payouts of 5 and 5, unless they are to be paid one by one. */
  lemma {:induction false} AskingForLessCanHelp()
    ensures var payouts := [Payout(2, 5), Payout(2, 5)];
            !Serves([10, 1], payouts, 1, BatchCap(None)) && Serves([10, 1], payouts, 1, BatchCap(Some(1)))
  {
    var payouts := [Payout(2, 5), Payout(2, 5)];
    SecondIsShort(10, 1, payouts, 1, 3);
    PaidOneByOne(10, 1, payouts, 1);
  }

  lemma {:induction false} SecondIsShort(a: nat, b: nat, payouts: seq<Payout>, org: int, cap: nat)
    requires a >= b && |payouts| == 2 && payouts[1].amount > b && cap >= 2
    ensures !Serves([a, b], payouts, org, cap)
  {
    SortedPair(a, b);
    assert ChunkAt(payouts, 0, cap) == payouts;
    assert !CoversInOrder([a, b], payouts);
  }

  lemma {:induction false} PaidOneByOne(a: nat, b: nat, payouts: seq<Payout>, org: int)
    requires |payouts| == 2 && payouts[0].to != org && payouts[1].to != org
    requires a - payouts[0].amount >= payouts[1].amount && b <= a - payouts[0].amount
    ensures Serves([a, b], payouts, org, 1)
  {
    var rest := a - payouts[0].amount;
    OneAtATime(a, b, payouts, org);
    ServesAnyOrder([b, rest], [rest, b], payouts[1..], org, 1);
    OneAtATime(rest, b, payouts[1..], org);
  }

  /** Whether the rest of the run is served, one chunk further on. */
  lemma {:induction false} ServedFrom(amounts: seq<nat>, payouts: seq<Payout>, paid: nat, org: int, cap: nat)
    requires cap > 0 && paid < |payouts|
    ensures var chunk := ChunkAt(payouts, paid, cap);
            Serves(amounts, payouts[paid..], org, cap) <==>
              ServesRest(amounts, chunk, payouts[paid + |chunk|..], org, cap)
  {
    var chunk := ChunkAt(payouts, paid, cap);
    assert ChunkAt(payouts[paid..], 0, cap) == chunk;
    assert payouts[paid..][|chunk|..] == payouts[paid + |chunk|..];
  }

  lemma {:induction false} ServedNext(
      amounts: seq<nat>, next: seq<nat>, chunk: seq<Payout>, rest: seq<Payout>, org: int, cap: nat)
    requires cap > 0 && CoversInOrder(SortDown(amounts), chunk)
    requires multiset(next) == multiset(AfterChunk(SortDown(amounts), chunk, org))
    ensures ServesRest(amounts, chunk, rest, org, cap) <==> Serves(next, rest, org, cap)
  {
    ServesAnyOrder(next, AfterChunk(SortDown(amounts), chunk, org), rest, org, cap);
  }

  lemma {:induction false} ServedOn(
      amounts: seq<nat>, next: seq<nat>, payouts: seq<Payout>, paid: nat, org: int, cap: nat, chunk: seq<Payout>)
    requires cap > 0 && paid < |payouts| && chunk == ChunkAt(payouts, paid, cap)
    requires CoversInOrder(SortDown(amounts), chunk)
    requires multiset(next) == multiset(AfterChunk(SortDown(amounts), chunk, org))
    ensures Serves(amounts, payouts[paid..], org, cap) <==> Serves(next, payouts[paid + |chunk|..], org, cap)
  {
    var rest := payouts[paid + |chunk|..];
    assert Serves(amounts, payouts[paid..], org, cap) <==> ServesRest(amounts, chunk, rest, org, cap) by {
      ServedFrom(amounts, payouts, paid, org, cap);
    }
    ServedNext(amounts, next, chunk, rest, org, cap);
  }

  lemma {:induction false} StillServedNext(
      l: Ledger, org: int, payouts: seq<Payout>, cap: nat, paid: nat, now: Ledger, chunk: seq<Payout>, can: Prover,
      batch: seq<Step>)
    requires cap > 0 && paid < |payouts| && chunk == ChunkAt(payouts, paid, cap) && WellFormed(now)
    requires PaidLargestFirst(now, org, chunk, SpendableNotes(now, org), can, batch)
    requires StillServed(l, org, payouts, cap, paid, now)
    ensures StillServed(l, org, payouts, cap, paid + |chunk|, Run(now, batch))
  {
    HoldingsAfterBatch(now, org, chunk, can, batch);
    ServedOn(Holdings(now, org), Holdings(Run(now, batch), org), payouts, paid, org, cap, chunk);
  }

  lemma {:induction false} ServedNextTime(
      l: Ledger, org: int, payouts: seq<Payout>, cap: nat, show: Screen, can: Prover, paid: nat, now: Ledger,
      chunk: seq<Payout>, batch: seq<Step>)
    requires cap > 0 && paid < |payouts| && chunk == ChunkAt(payouts, paid, cap) && WellFormed(now)
    requires PaidLargestFirst(now, org, chunk, show(now), can, batch)
    requires ClearlyServed(l, org, payouts, cap, show, can, paid, now)
    ensures ClearlyServed(l, org, payouts, cap, show, can, paid + |chunk|, Run(now, batch))
  {
    if Clear(org, show, can) {
      StillServedNext(l, org, payouts, cap, paid, now, chunk, can, batch);
    }
  }

  lemma {:induction false} ChunkSettled(
      l: Ledger, org: int, payouts: seq<Payout>, steps: seq<Step>, paid: nat, now: Ledger,
      chunk: seq<Payout>, batch: seq<Step>)
    requires PaidUpTo(l, org, payouts, steps, paid, now) && payouts[..paid] + chunk <= payouts
    requires Settled(now, org, chunk, batch, Run(now, batch)) && |batch| == |chunk|
    ensures PaidUpTo(l, org, payouts, steps + batch, paid + |chunk|, Run(now, batch))
  {
    SettledThen(l, org, payouts[..paid], steps, now, chunk, batch, Run(now, batch));
    assert payouts[..paid + |chunk|] == payouts[..paid] + chunk;
  }

  lemma {:induction false} MovedAll(
      a: Ledger, b: Ledger, c: Ledger, payer: int, first: seq<Payout>, more: seq<Payout>)
    requires Moved(a, b, payer, first) && Moved(b, c, payer, more)
    ensures Moved(a, c, payer, first + more)
  {
    forall who ensures MovedFor(a, c, payer, first + more, who) {
      PaidAppend(first, more, who);
      assert MovedFor(a, b, payer, first, who) && MovedFor(b, c, payer, more, who);
    }
  }

  lemma {:induction false} PaidAppend(a: seq<Payout>, b: seq<Payout>, who: Option<int>)
    ensures PaidTotal(a + b) == PaidTotal(a) + PaidTotal(b) && PaidTo(a + b, who) == PaidTo(a, who) + PaidTo(b, who)
    decreases |b|
  {
    if b == [] {
      assert a + b == a;
    } else {
      assert (a + b)[..|a + b| - 1] == a + b[..|b| - 1];
      PaidAppend(a, b[..|b| - 1], who);
    }
  }

  // ----- a run the rule refuses although it could be paid -----

  /** The treasury of `RuleWastesChange`, as a ledger: the run it is refused is payable by legal steps. */
  lemma {:induction false} RefusedRunIsPayable(cap: nat) returns (steps: seq<Step>)
    requires 1 <= cap <= 3
    ensures var l, payouts := Ledger([PoolNote(10, 1), PoolNote(6, 1)], {}), [Payout(2, 6), Payout(2, 5), Payout(2, 5)];
            && !Serves(Holdings(l, 1), payouts, 1, cap)
            && Settled(l, 1, payouts, steps, Run(l, steps))
  {
    TwoNoteHoldings(10, 6);
    RuleWastesChange(cap);
    steps := SpendChangeAgain(10, 6, Payout(2, 6), Payout(2, 5), Payout(2, 5));
  }

  /** Two notes and three payouts: one note pays the first, the other the second and its change the third. */
  lemma {:induction false} SpendChangeAgain(x: nat, y: nat, first: Payout, second: Payout, third: Payout)
    returns (steps: seq<Step>)
    requires y >= first.amount && x >= second.amount + third.amount
    ensures var l := Ledger([PoolNote(x, 1), PoolNote(y, 1)], {});
            Settled(l, 1, [first, second, third], steps, Run(l, steps))
  {
    var l := Ledger([PoolNote(x, 1), PoolNote(y, 1)], {});
    NothingSettled(l, 1);
    var one := PayOutOf(l, 1, [], [], SpendableNote(y, 1), first);
    var two := PayOutOf(l, 1, [] + [first], one, SpendableNote(x, 0), second);
    steps := PayOutOf(l, 1, [] + [first] + [second], two, SpendableNote(x - second.amount, 5), third);
    assert [] + [first] + [second] + [third] == [first, second, third];
  }

  lemma {:induction false} PayOutOf(
      l: Ledger, org: int, payouts: seq<Payout>, steps: seq<Step>, input: SpendableNote, p: Payout)
    returns (more: seq<Step>)
    requires Settled(l, org, payouts, steps, Run(l, steps)) && Genuine(Run(l, steps), org, input)
    requires input.amount >= p.amount
    ensures Settled(l, org, payouts + [p], more, Run(l, more))
    ensures Run(l, more).leaves == Run(l, steps).leaves +
            [PoolNote(p.amount, p.to), PoolNote(input.amount - p.amount, org)]
    ensures Run(l, more).spent == Run(l, steps).spent + {input.leafIndex}
  {
    SettledFromOne(l, org, payouts, steps, Run(l, steps), input, p);
    more := steps + [PaymentStep([input], p, org, false)];
  }

  lemma {:induction false} TwoNoteHoldings(a: nat, b: nat)
    ensures Holdings(Ledger([PoolNote(a, 1), PoolNote(b, 1)], {}), 1) == [a, b]
  {
    var l := Ledger([PoolNote(a, 1), PoolNote(b, 1)], {});
    LastAmount(l, 1, 1);
    LastAmount(l, 1, 2);
  }
}
