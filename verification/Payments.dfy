/** Sends and payroll runs: the steps the client submits, and whom they pay. */
module Payments {
  import opened Amounts
  import opened CoinSelection
  import opened PoolLedger
  import opened Wrappers

  datatype PaymentError =
    | InsufficientNotes
    | WitnessUnavailable
    | NotOwned
    | NoSingleCoveringNote
    | NoDistinctCoveringNote(amount: nat)
    | CannotProve

  datatype Payout = Payout(to: int, amount: nat)

  function PaidTotal(payouts: seq<Payout>): nat
  {
    if payouts == [] then 0 else PaidTotal(payouts[..|payouts| - 1]) + payouts[|payouts| - 1].amount
  }

  /** What a list of payouts pays to `who`. */
  function PaidTo(payouts: seq<Payout>, who: Option<int>): nat
  {
    if payouts == [] then 0
    else PaidTo(payouts[..|payouts| - 1], who) +
           Share(PoolNote(payouts[|payouts| - 1].amount, payouts[|payouts| - 1].to), who)
  }

  /** `paid` has left the payer's account and reached the payees'; nobody else's balance moved. */
  ghost predicate Moved(before: Ledger, after: Ledger, payer: int, payouts: seq<Payout>)
  {
    forall who {:trigger MovedFor(before, after, payer, payouts, who)} :: MovedFor(before, after, payer, payouts, who)
  }

  /** What the payouts did to the balance of `who`. */
  predicate MovedFor(before: Ledger, after: Ledger, payer: int, payouts: seq<Payout>, who: Option<int>)
  {
    Value(after, who) + Share(PoolNote(PaidTotal(payouts), payer), who) == Value(before, who) + PaidTo(payouts, who)
  }

  lemma {:induction false} MovedNothing(l: Ledger, payer: int)
    ensures Moved(l, l, payer, [])
  {
    var none: seq<Payout> := [];
    assert PaidTotal(none) == 0;
    forall who ensures MovedFor(l, l, payer, none, who) {
      assert PaidTo(none, who) == 0;
    }
  }

  lemma {:induction false} SinglePayout(p: Payout, who: Option<int>)
    ensures PaidTotal([p]) == p.amount && PaidTo([p], who) == Share(PoolNote(p.amount, p.to), who)
  {
    var none: seq<Payout> := [];
    assert [p][..0] == none;
    assert PaidTotal(none) == 0 && PaidTo(none, who) == 0;
  }

  lemma {:induction false} MovedMore(a: Ledger, b: Ledger, c: Ledger, payer: int, payouts: seq<Payout>, p: Payout)
    requires Moved(a, b, payer, payouts) && Moved(b, c, payer, [p])
    ensures Moved(a, c, payer, payouts + [p])
  {
    assert (payouts + [p])[..|payouts|] == payouts;
    forall who ensures MovedFor(a, c, payer, payouts + [p], who) {
      SinglePayout(p, who);
      assert MovedFor(a, b, payer, payouts, who) && MovedFor(b, c, payer, [p], who);
    }
  }

  // ----- one payment -----

  function LeavesOf(notes: seq<SpendableNote>): (r: seq<nat>)
    ensures |r| == |notes|
  {
    if notes == [] then [] else [notes[0].leafIndex] + LeavesOf(notes[1..])
  }

  /** The two outputs of a payment, the change first or second. */
  function PaymentOutputs(p: Payout, payer: int, change: nat, changeFirst: bool): (r: seq<PoolNote>)
    ensures |r| == 2 && r[if changeFirst then 0 else 1] == PoolNote(change, payer)
    ensures r[if changeFirst then 1 else 0] == PoolNote(p.amount, p.to)
  {
    var paid, rest := PoolNote(p.amount, p.to), PoolNote(change, payer);
    if changeFirst then [rest, paid] else [paid, rest]
  }

  function PaymentStep(inputs: seq<SpendableNote>, p: Payout, payer: int, changeFirst: bool): Step
    requires Total(inputs) >= p.amount
  {
    TransferStep(LeavesOf(inputs), PaymentOutputs(p, payer, Total(inputs) - p.amount, changeFirst))
  }

  lemma {:induction false} LeavesOfAt(notes: seq<SpendableNote>, k: nat)
    requires k < |notes|
    ensures LeavesOf(notes)[k] == notes[k].leafIndex
  {
    if k == 0 {
    } else {
      LeavesOfAt(notes[1..], k - 1);
    }
  }

  lemma {:induction false} LeavesOfDistinct(notes: seq<SpendableNote>)
    requires DistinctLeaves(notes)
    ensures Distinct(LeavesOf(notes))
  {
    forall i, j | 0 <= i < j < |notes| ensures LeavesOf(notes)[i] != LeavesOf(notes)[j] {
      assert LeavesDiffer(notes, i, j);
      LeavesOfAt(notes, i);
      LeavesOfAt(notes, j);
    }
  }

  lemma {:induction false} GenuineInputsLive(l: Ledger, payer: int, notes: seq<SpendableNote>)
    requires AllGenuine(l, payer, notes)
    ensures AllLive(l, LeavesOf(notes)) && InRange(l, LeavesOf(notes))
  {
    forall k | 0 <= k < |notes| ensures Live(l, LeavesOf(notes)[k]) {
      LeavesOfAt(notes, k);
      assert Genuine(l, payer, notes[k]);
    }
  }

  lemma {:induction false} GenuineInputValue(l: Ledger, payer: int, notes: seq<SpendableNote>, who: Option<int>)
    requires AllGenuine(l, payer, notes) && InRange(l, LeavesOf(notes))
    ensures InputValue(l, LeavesOf(notes), who) == Share(PoolNote(Total(notes), payer), who)
  {
    if notes == [] {
    } else {
      assert Genuine(l, payer, notes[0]);
      assert AllGenuine(l, payer, notes[1..]);
      assert LeavesOf(notes)[1..] == LeavesOf(notes[1..]);
      GenuineInputsLive(l, payer, notes[1..]);
      GenuineInputValue(l, payer, notes[1..], who);
    }
  }

  /** Live notes on distinct leaves are worth no more than the account. */
  lemma {:induction false} GenuineTotal(l: Ledger, payer: int, notes: seq<SpendableNote>)
    requires AllGenuine(l, payer, notes) && DistinctLeaves(notes)
    ensures Total(notes) <= Value(l, Some(payer))
  {
    GenuineInputsLive(l, payer, notes);
    LeavesOfDistinct(notes);
    GenuineInputValue(l, payer, notes, Some(payer));
    SpendingAll(l, LeavesOf(notes), Some(payer));
  }

  lemma {:induction false} PaymentOutputValue(p: Payout, payer: int, change: nat, changeFirst: bool, who: Option<int>)
    ensures OutputValue(PaymentOutputs(p, payer, change, changeFirst), who)
         == Share(PoolNote(p.amount, p.to), who) + Share(PoolNote(change, payer), who)
  {
    var outputs := PaymentOutputs(p, payer, change, changeFirst);
    assert outputs[1..] == [outputs[1]] && [outputs[1]][1..] == [];
    assert OutputValue([outputs[1]], who) == Share(outputs[1], who);
  }

  /** A payment out of distinct live notes of the payer is legal and moves exactly the amount. */
  lemma {:induction false} PaymentMoves(
      l: Ledger, inputs: seq<SpendableNote>, p: Payout, payer: int, changeFirst: bool)
    requires WellFormed(l) && AllGenuine(l, payer, inputs) && DistinctLeaves(inputs) && Total(inputs) >= p.amount
    ensures var s := PaymentStep(inputs, p, payer, changeFirst);
            Legal(l, s) && WellFormed(Apply(l, s)) && Moved(l, Apply(l, s), payer, [p])
  {
    var s := PaymentStep(inputs, p, payer, changeFirst);
    GenuineInputsLive(l, payer, inputs);
    LeavesOfDistinct(inputs);
    GenuineInputValue(l, payer, inputs, None);
    PaymentOutputValue(p, payer, Total(inputs) - p.amount, changeFirst, None);
    forall who ensures MovedFor(l, Apply(l, s), payer, [p], who) {
      GenuineInputValue(l, payer, inputs, who);
      PaymentOutputValue(p, payer, Total(inputs) - p.amount, changeFirst, who);
      StepMovesValue(l, s, who);
      SinglePayout(p, who);
    }
    StepMovesValue(l, s, None);
  }

  // ----- send -----

  /** Some choice of one or two notes covers the amount. */
  ghost predicate PayableByTwo(notes: seq<SpendableNote>, amount: nat)
  {
    exists pick {:trigger Covers(pick, notes, amount)} :: Covers(pick, notes, amount) && 1 <= |pick| <= 2
  }

  predicate Witnessed(plan: seq<SpendableNote>, hasWitness: SpendableNote -> bool)
  {
    forall n :: n in plan ==> n.amount == 0 || hasWitness(n)
  }

  /** A private send out of the notes shown to the payer.  `hasWitness` says for which of them a path can
      be obtained; a plan with a note that is not a live note of the payer's cannot be proved. */
  method Send(
      l: Ledger, payer: int, p: Payout, shown: seq<SpendableNote>, hasWitness: SpendableNote -> bool, changeFirst: bool)
    returns (steps: seq<Step>, r: Result<seq<SpendableNote>, PaymentError>)
    requires WellFormed(l) && DistinctLeaves(shown)
    ensures LegalRun(l, steps) && WellFormed(Run(l, steps)) && Deposited(steps) == Withdrawn(steps) == 0
    ensures r == Failure(InsufficientNotes) <==> !PayableByTwo(shown, p.amount)
    ensures r == Failure(WitnessUnavailable) <==> NoPlanWitnessed(shown, p.amount, hasWitness)
    ensures r == Failure(NotOwned) <==>
              && PayableByTwo(shown, p.amount) && !NoPlanWitnessed(shown, p.amount, hasWitness)
              && !AllGenuine(l, payer, PlanTaken(shown, p.amount, hasWitness))
    ensures r == Failure(NotOwned) ==> !AllGenuine(l, payer, shown)
    ensures r.Success? <==> SendGoes(l, payer, p.amount, shown, hasWitness)
    ensures r.Failure? ==>
              steps == [] && (r.error == InsufficientNotes || r.error == WitnessUnavailable || r.error == NotOwned)
    ensures r.Success? ==>
              && Covers(r.value, shown, p.amount) && |r.value| <= 2 && Witnessed(r.value, hasWitness)
              && r.value == PlanTaken(shown, p.amount, hasWitness)
              && steps == [PaymentStep(r.value, p, payer, changeFirst)]
              && Moved(l, Run(l, steps), payer, [p])
  {
    var plan := ChoosePlan(shown, p.amount, hasWitness);
    steps := [];
    if plan.Failure? {
      return [], plan;
    }
    PickedNotes(l, payer, shown, plan.value);
    if exists n :: n in plan.value && !Genuine(l, payer, n) {
      return [], Failure(NotOwned);
    }
    PlanPays(l, payer, p, plan.value, changeFirst);
    steps, r := [PaymentStep(plan.value, p, payer, changeFirst)], plan;
  }

  /** A note of zero is spent without a witness, so nothing can be sent out of one for lack of which. */
  lemma {:induction false} ZeroNeedsNoWitness(notes: seq<SpendableNote>, amount: nat, hasWitness: SpendableNote -> bool)
    requires Newest(notes, amount).Some? && Newest(notes, amount).value.amount == 0
    ensures !NoPlanWitnessed(notes, amount, hasWitness)
    ensures PlanTaken(notes, amount, hasWitness) == [Newest(notes, amount).value]
  {
  }

  /** The newest covering note can be witnessed. */
  predicate NewestWitnessed(notes: seq<SpendableNote>, amount: nat, hasWitness: SpendableNote -> bool)
  {
    var newest := Newest(notes, amount);
    newest.Some? && Witnessed([newest.value], hasWitness)
  }

  /** There is a plan, but a witness is missing for the newest covering note and for the primary plan. */
  predicate NoPlanWitnessed(notes: seq<SpendableNote>, amount: nat, hasWitness: SpendableNote -> bool)
  {
    var primary := PrimaryPlan(notes, amount);
    primary != [] && !NewestWitnessed(notes, amount, hasWitness) && !Witnessed(primary, hasWitness)
  }

  /** The newest covering note if it can be witnessed, otherwise the primary plan. */
  function PlanTaken(notes: seq<SpendableNote>, amount: nat, hasWitness: SpendableNote -> bool): seq<SpendableNote>
  {
    if NewestWitnessed(notes, amount, hasWitness) then [Newest(notes, amount).value] else PrimaryPlan(notes, amount)
  }

  /** One or two of the notes shown cover the amount, some plan is witnessed, and the plan taken is all live
      notes of the payer. */
  ghost predicate SendGoes(
      l: Ledger, payer: int, amount: nat, shown: seq<SpendableNote>, hasWitness: SpendableNote -> bool)
  {
    && PayableByTwo(shown, amount) && !NoPlanWitnessed(shown, amount, hasWitness)
    && AllGenuine(l, payer, PlanTaken(shown, amount, hasWitness))
  }

  /** What a send submits: the payment out of the plan taken if it goes, otherwise nothing. */
  ghost predicate Sends(
      l: Ledger, payer: int, p: Payout, shown: seq<SpendableNote>, hasWitness: SpendableNote -> bool,
      changeFirst: bool, steps: seq<Step>)
  {
    if SendGoes(l, payer, p.amount, shown, hasWitness) then
      var plan := PlanTaken(shown, p.amount, hasWitness);
      Total(plan) >= p.amount && steps == [PaymentStep(plan, p, payer, changeFirst)]
    else steps == []
  }

  /** The first plan whose notes all have witnesses; a zero note needs none. */
  method ChoosePlan(notes: seq<SpendableNote>, amount: nat, hasWitness: SpendableNote -> bool)
    returns (r: Result<seq<SpendableNote>, PaymentError>)
    ensures r == Failure(InsufficientNotes) <==> !PayableByTwo(notes, amount)
    ensures r.Failure? ==> r.error == InsufficientNotes || r.error == WitnessUnavailable
    ensures DistinctLeaves(notes) ==> (r == Failure(WitnessUnavailable) <==> NoPlanWitnessed(notes, amount, hasWitness))
    ensures r.Success? ==> Covers(r.value, notes, amount) && |r.value| <= 2 && Witnessed(r.value, hasWitness)
    ensures r.Success? && DistinctLeaves(notes) ==> r.value == PlanTaken(notes, amount, hasWitness)
  {
    var plans := PlanSend(notes, amount);
    PlansExistIffPayable(notes, amount, plans);
    if plans == [] {
      return Failure(InsufficientNotes);
    }
    var first := TryPlans(plans, hasWitness);
    FirstIsOne(plans, hasWitness);
    if DistinctLeaves(notes) { PlansTried(notes, amount, hasWitness); }
    r := if first.None? then Failure(WitnessUnavailable) else Success(first.value);
  }

  function FirstWitnessed(plans: seq<seq<SpendableNote>>, hasWitness: SpendableNote -> bool): Option<seq<SpendableNote>>
  {
    if plans == [] then None
    else if Witnessed(plans[0], hasWitness) then Some(plans[0])
    else FirstWitnessed(plans[1..], hasWitness)
  }

  lemma {:induction false} FirstIsOne(plans: seq<seq<SpendableNote>>, hasWitness: SpendableNote -> bool)
    ensures var first := FirstWitnessed(plans, hasWitness);
            first.Some? ==> first.value in plans && Witnessed(first.value, hasWitness)
  {
    if plans == [] || Witnessed(plans[0], hasWitness) {
    } else {
      FirstIsOne(plans[1..], hasWitness);
    }
  }

  method TryPlans(plans: seq<seq<SpendableNote>>, hasWitness: SpendableNote -> bool)
    returns (r: Option<seq<SpendableNote>>)
    ensures r == FirstWitnessed(plans, hasWitness)
  {
    for k := 0 to |plans|
      invariant FirstWitnessed(plans, hasWitness) == FirstWitnessed(plans[k..], hasWitness)
    {
      if Witnessed(plans[k], hasWitness) {
        return Some(plans[k]);
      }
      assert plans[k..][1..] == plans[k + 1..];
    }
    return None;
  }

  lemma {:induction false} NewestIsOne(notes: seq<SpendableNote>, amount: nat)
    ensures Newest(notes, amount).Some? ==> Newest(notes, amount).value in notes
  {
    if notes == [] {
    } else {
      NewestIsOne(notes[..|notes| - 1], amount);
    }
  }

  /** On distinct leaves the primary plan is left out only when it is the newest covering note. */
  lemma {:induction false} SamePlanIsNewest(notes: seq<SpendableNote>, amount: nat)
    requires DistinctLeaves(notes)
    ensures var primary, newest := PrimaryPlan(notes, amount), Newest(notes, amount);
            newest.Some? && primary != [] && SameSpendPlan([newest.value], primary) ==> primary == [newest.value]
  {
    var primary, newest := PrimaryPlan(notes, amount), Newest(notes, amount);
    ArrangedFacts(notes);
    PlanFromIsBest(Arranged(notes), notes, amount);
    NewestIsOne(notes, amount);
    if newest.Some? && primary != [] && SameSpendPlan([newest.value], primary) {
      assert primary[0] in multiset(primary) && primary[0] in multiset(notes);
      SameLeafSameNote(notes, newest.value, primary[0]);
      assert primary == [newest.value];
    }
  }

  /** The first of the listed plans that can be witnessed. */
  lemma {:induction false} FirstOfPlans(
      primary: seq<SpendableNote>, newest: Option<SpendableNote>, hasWitness: SpendableNote -> bool)
    requires primary != []
    requires newest.Some? && SameSpendPlan([newest.value], primary) ==> primary == [newest.value]
    ensures FirstWitnessed(PlansOf(primary, newest), hasWitness)
            == if newest.Some? && Witnessed([newest.value], hasWitness) then Some([newest.value])
               else if Witnessed(primary, hasWitness) then Some(primary)
               else None
  {
    OnlyPlan(primary, hasWitness);
    if newest.Some? {
      var alone := [newest.value];
      OnlyPlan(alone, hasWitness);
      assert [alone, primary][1..] == [primary];
    }
  }

  lemma {:induction false} OnlyPlan(plan: seq<SpendableNote>, hasWitness: SpendableNote -> bool)
    ensures FirstWitnessed([plan], hasWitness) == if Witnessed(plan, hasWitness) then Some(plan) else None
  {
    assert FirstWitnessed([plan][1..], hasWitness) == None;
  }

  lemma {:induction false} PlansTried(notes: seq<SpendableNote>, amount: nat, hasWitness: SpendableNote -> bool)
    requires DistinctLeaves(notes) && PrimaryPlan(notes, amount) != []
    ensures FirstWitnessed(PlansOf(PrimaryPlan(notes, amount), Newest(notes, amount)), hasWitness)
            == if NoPlanWitnessed(notes, amount, hasWitness) then None else Some(PlanTaken(notes, amount, hasWitness))
  {
    SamePlanIsNewest(notes, amount);
    FirstOfPlans(PrimaryPlan(notes, amount), Newest(notes, amount), hasWitness);
  }

  /** When a plan is there, the plan taken is one or two of the notes. */
  lemma {:induction false} PlanIsPicked(notes: seq<SpendableNote>, amount: nat, hasWitness: SpendableNote -> bool)
    requires PayableByTwo(notes, amount) && Witnessed(notes, hasWitness)
    ensures PrimaryPlan(notes, amount) != [] && !NoPlanWitnessed(notes, amount, hasWitness)
    ensures forall n :: n in PlanTaken(notes, amount, hasWitness) ==> n in notes
  {
    ArrangedFacts(notes);
    PlanFromIsBest(Arranged(notes), notes, amount);
    NewestIsOne(notes, amount);
    var primary := PrimaryPlan(notes, amount);
    var pick :| Covers(pick, notes, amount) && 1 <= |pick| <= 2;
    assert Picks(pick, notes);
    forall n | n in primary ensures n in notes {
      assert n in multiset(primary) && n in multiset(notes);
    }
  }

  lemma {:induction false} PlanPays(l: Ledger, payer: int, p: Payout, plan: seq<SpendableNote>, changeFirst: bool)
    requires WellFormed(l) && AllGenuine(l, payer, plan) && DistinctLeaves(plan) && Total(plan) >= p.amount
    ensures var steps := [PaymentStep(plan, p, payer, changeFirst)];
            && LegalRun(l, steps) && WellFormed(Run(l, steps)) && Deposited(steps) == Withdrawn(steps) == 0
            && Moved(l, Run(l, steps), payer, [p])
  {
    var s := PaymentStep(plan, p, payer, changeFirst);
    PaymentMoves(l, plan, p, payer, changeFirst);
    RunSnoc(l, [], s);
    assert [] + [s] == [s];
  }

  lemma {:induction false} PlansExistIffPayable(
      notes: seq<SpendableNote>, amount: nat, plans: seq<seq<SpendableNote>>)
    requires plans == [] <==> forall pick {:trigger Picks(pick, notes)} :: Picks(pick, notes) && 1 <= |pick| <= 2 ==>
             Total(pick) < amount
    ensures plans == [] <==> !PayableByTwo(notes, amount)
  {
    if PayableByTwo(notes, amount) {
      var pick :| Covers(pick, notes, amount) && 1 <= |pick| <= 2;
      assert Picks(pick, notes);
    }
    if plans != [] {
      var pick :| Picks(pick, notes) && 1 <= |pick| <= 2 && Total(pick) >= amount;
      assert Covers(pick, notes, amount);
    }
  }

  /** One or two of the notes shown lie on different leaves, and are live notes if all that are shown are. */
  lemma {:induction false} PickedNotes(l: Ledger, payer: int, shown: seq<SpendableNote>, pick: seq<SpendableNote>)
    requires DistinctLeaves(shown) && Picks(pick, shown) && |pick| <= 2
    ensures DistinctLeaves(pick) && (AllGenuine(l, payer, shown) ==> AllGenuine(l, payer, pick))
  {
    forall k | 0 <= k < |pick| ensures pick[k] in shown {
      assert pick[k] in multiset(pick);
      assert pick[k] in multiset(shown);
    }
    if |pick| == 2 {
      OnceEach(shown, pick[0]);
      assert pick == [pick[0], pick[1]];
      assert pick[0] == pick[1] ==> multiset(pick)[pick[0]] == 2;
      assert pick[0] in shown && pick[1] in shown;
      if pick[0].leafIndex == pick[1].leafIndex { SameLeafSameNote(shown, pick[0], pick[1]); }
    }
  }
}
