/** Any sequence of client operations, by any accounts, from the empty pool.  Whatever the notes look
    like underneath, the pool behaves as an account book. */
module ClientRuns {
  import opened Amounts
  import opened PoolLedger
  import opened Payments
  import Unshields = Unshield
  import Payrolls = Payroll
  import opened PayrollAmounts
  import opened Treasury
  import opened Wrappers

  datatype ClientOp =
    | Shield(note: PoolNote)
    | Send(payer: int, payout: Payout, show: Screen, hasWitness: SpendableNote -> bool, changeFirst: bool)
    | Unshield(owner: int, amount: nat, show: Screen, can: Prover)
    | Claim(owner: int, show: Screen, can: Prover)
    | Payroll(org: int, payouts: seq<Payout>, show: Screen, can: Prover)
    | BatchPayroll(org: int, payouts: seq<Payout>, maxPerTx: Option<int>, show: Screen, can: Prover)

  /** What is shown lies on leaves of the ledger, and only live notes of the account can be spent. */
  ghost predicate Sensible(op: ClientOp)
  {
    match op
    case Send(_, _, show, _, _) => ShowsLeaves(show)
    case Unshield(owner, _, show, can) => ShowsLeaves(show) && SoundFor(can, owner)
    case Claim(owner, show, can) => ShowsLeaves(show) && SoundFor(can, owner)
    case Payroll(org, _, show, can) => ShowsLeaves(show) && SoundFor(can, org)
    case BatchPayroll(org, _, _, show, can) => ShowsLeaves(show) && SoundFor(can, org)
    case Shield(_) => true
  }

  // ----- the account book -----

  /** One line of the book: value that came in, went out, or was paid from one account to others. */
  datatype Entry =
    | In(owner: int, amount: nat)
    | Out(owner: int, amount: nat)
    | Paid(payer: int, payouts: seq<Payout>)

  function Effect(e: Entry, who: Option<int>): int
  {
    match e
    case In(owner, amount) => Share(PoolNote(amount, owner), who)
    case Out(owner, amount) => 0 - Share(PoolNote(amount, owner), who)
    case Paid(payer, payouts) => PaidTo(payouts, who) - Share(PoolNote(PaidTotal(payouts), payer), who)
  }

  function Balance(book: seq<Entry>, who: Option<int>): int
  {
    if book == [] then 0 else Balance(book[..|book| - 1], who) + Effect(book[|book| - 1], who)
  }

  function CameIn(e: Entry): nat
  {
    if e.In? then e.amount else 0
  }

  function WentOut(e: Entry): nat
  {
    if e.Out? then e.amount else 0
  }

  function AllIn(book: seq<Entry>): nat
  {
    if book == [] then 0 else AllIn(book[..|book| - 1]) + CameIn(book[|book| - 1])
  }

  function AllOut(book: seq<Entry>): nat
  {
    if book == [] then 0 else AllOut(book[..|book| - 1]) + WentOut(book[|book| - 1])
  }

  /** What an operation may enter when `held` is what each account has.  Sends and unshields pay everything
      or nothing, and never more than there is; a claim takes whole notes; payrolls pay the payouts in order
      up to some point, a chained one only if the whole run is covered, and all or nothing if every live note
      can be spent.  If the view is clear, unshields and claims depend on the balance alone. */
  ghost predicate Enters(op: ClientOp, held: Option<int> -> int, e: Entry)
  {
    match op
    case Shield(note) => e == In(note.owner, note.amount)
    case Send(payer, p, _, _, _) => e == Paid(payer, []) || (e == Paid(payer, [p]) && held(Some(payer)) >= p.amount)
    case Unshield(owner, amount, show, can) =>
      && (e == Out(owner, 0) || (e == Out(owner, amount) && held(Some(owner)) >= amount))
      && (Clear(owner, show, can) ==> e == Out(owner, if held(Some(owner)) >= amount then amount else 0))
    case Claim(owner, show, can) =>
      && e.Out? && e.owner == owner && e.amount <= held(Some(owner))
      && (Clear(owner, show, can) ==> e.amount == held(Some(owner)))
    case Payroll(org, payouts, _, can) =>
      && e.Paid? && e.payer == org && e.payouts <= payouts
      && (e.payouts != [] ==> held(Some(org)) >= PaidTotal(payouts))
      && (SpendsAll(can, org) ==> e.payouts == [] || e.payouts == payouts)
    case BatchPayroll(org, payouts, _, _, _) => e.Paid? && e.payer == org && e.payouts <= payouts
  }

  /** What an operation on `l` submits, and what of it goes into the book: no more and no less than its flow
      does on what it is shown. */
  ghost predicate CarriedOut(op: ClientOp, l: Ledger, steps: seq<Step>, e: Entry)
  {
    match op
    case Shield(note) => steps == [ShieldStep(note)] && e == In(note.owner, note.amount)
    case Send(payer, p, show, hasWitness, changeFirst) =>
      && Sends(l, payer, p, show(l), hasWitness, changeFirst, steps)
      && e == Paid(payer, if SendGoes(l, payer, p.amount, show(l), hasWitness) then [p] else [])
    case Unshield(owner, amount, show, can) =>
      exists r {:trigger Unshields.Unshields(l, owner, amount, show(l), can, steps, r)} ::
        Unshields.Unshields(l, owner, amount, show(l), can, steps, r) &&
          e == Out(owner, if r.Success? then amount else 0)
    case Claim(owner, show, can) =>
      && e == Out(owner, Withdrawn(steps))
      && exists r {:trigger Unshields.Claims(l, owner, show, can, steps, r)} ::
           Unshields.Claims(l, owner, show, can, steps, r)
    case Payroll(org, payouts, show, can) =>
      && |steps| <= |payouts| && e == Paid(org, payouts[..|steps|])
      && Payrolls.PaysChained(l, org, payouts, show(l), can, |steps|, steps)
    case BatchPayroll(org, payouts, maxPerTx, show, can) =>
      && |steps| <= |payouts| && e == Paid(org, payouts[..|steps|])
      && Payrolls.PaysBatched(l, org, payouts, Payrolls.BatchCap(maxPerTx), show, can, steps)
  }

  /** With a clear view, payments too depend on the account's own notes alone: a send goes through if one or
      two of them cover it, a chained payroll if one of them covers it, and a batched one pays everything if
      the rule serves it. */
  ghost predicate ClearlyDone(op: ClientOp, l: Ledger, e: Entry)
  {
    match op
    case Send(payer, p, show, hasWitness, _) =>
      ShowsOwn(show, payer) && Witnessed(SpendableNotes(l, payer), hasWitness) ==>
        e == Paid(payer, if PayableByTwo(SpendableNotes(l, payer), p.amount) then [p] else [])
    case Payroll(org, payouts, show, can) =>
      Clear(org, show, can) ==>
        e == Paid(org, if Payrolls.OneCoversAll(SpendableNotes(l, org), payouts) then payouts else [])
    case BatchPayroll(org, payouts, maxPerTx, show, can) =>
      Clear(org, show, can) && e.Paid? ==>
        (e.payouts == payouts <==> Serves(Holdings(l, org), payouts, org, Payrolls.BatchCap(maxPerTx)))
    case _ => true
  }

  // ----- one operation -----

  /** `steps` take `l` to a state in which exactly `e` has happened to everybody's value. */
  ghost predicate Does(l: Ledger, steps: seq<Step>, e: Entry)
  {
    && LegalRun(l, steps) && WellFormed(Run(l, steps))
    && Deposited(steps) == CameIn(e) && Withdrawn(steps) == WentOut(e)
    && forall who {:trigger Value(Run(l, steps), who)} :: Value(Run(l, steps), who) == Value(l, who) + Effect(e, who)
  }

  function HeldIn(l: Ledger): Option<int> -> int
  {
    who => Value(l, who)
  }

  /** Carry out one operation. */
  method Perform(l: Ledger, op: ClientOp) returns (steps: seq<Step>, e: Entry)
    requires WellFormed(l) && Sensible(op)
    ensures Does(l, steps, e) && CarriedOut(op, l, steps, e)
    ensures Enters(op, HeldIn(l), e) && ClearlyDone(op, l, e)
  {
    match op
    case Shield(note) =>
      steps, e := [ShieldStep(note)], In(note.owner, note.amount);
      ShieldDoes(l, note);
    case Send(_, _, _, _, _) => steps, e := PerformSend(l, op);
    case Unshield(_, _, _, _) => steps, e := PerformUnshield(l, op);
    case Claim(_, _, _) => steps, e := PerformClaim(l, op);
    case Payroll(_, _, _, _) => steps, e := PerformPayroll(l, op);
    case BatchPayroll(_, _, _, _, _) => steps, e := PerformBatchPayroll(l, op);
  }

  method PerformSend(l: Ledger, op: ClientOp) returns (steps: seq<Step>, e: Entry)
    requires WellFormed(l) && Sensible(op) && op.Send?
    ensures Does(l, steps, e) && CarriedOut(op, l, steps, e)
    ensures Enters(op, HeldIn(l), e) && ClearlyDone(op, l, e)
  {
    var Send(payer, p, show, hasWitness, changeFirst) := op;
    var r;
    steps, r := Payments.Send(l, payer, p, show(l), hasWitness, changeFirst);
    if r.Failure? {
      MovedNothing(l, payer);
      e := Paid(payer, []);
    } else {
      PickedNotes(l, payer, show(l), r.value);
      GenuineTotal(l, payer, r.value);
      e := Paid(payer, [p]);
    }
    PaymentDoes(l, steps, payer, e.payouts);
    OwnNotesGo(l, payer, p.amount, show(l), hasWitness);
  }

  /** Shown its own notes, with witnesses for them, an account's send goes through if two of them cover it. */
  lemma {:induction false} OwnNotesGo(
      l: Ledger, payer: int, amount: nat, shown: seq<SpendableNote>, hasWitness: SpendableNote -> bool)
    ensures shown == SpendableNotes(l, payer) && Witnessed(shown, hasWitness) ==>
              (SendGoes(l, payer, amount, shown, hasWitness) <==> PayableByTwo(shown, amount))
  {
    if shown == SpendableNotes(l, payer) && Witnessed(shown, hasWitness) && PayableByTwo(shown, amount) {
      SpendableFacts(l, payer);
      PlanIsPicked(shown, amount, hasWitness);
      forall k | 0 <= k < |PlanTaken(shown, amount, hasWitness)|
        ensures Genuine(l, payer, PlanTaken(shown, amount, hasWitness)[k])
      {
        assert PlanTaken(shown, amount, hasWitness)[k] in shown;
      }
    }
  }

  method PerformUnshield(l: Ledger, op: ClientOp) returns (steps: seq<Step>, e: Entry)
    requires WellFormed(l) && Sensible(op) && op.Unshield?
    ensures Does(l, steps, e) && CarriedOut(op, l, steps, e) && Enters(op, HeldIn(l), e)
  {
    var Unshield(owner, amount, show, can) := op;
    var r;
    steps, r := Unshields.Unshield(l, owner, amount, show(l), can);
    e := Out(owner, if r.Success? then amount else 0);
    if r.Success? {
      UnshieldDoes(l, steps, owner, amount);
    } else {
      NothingDone(l, steps, owner);
    }
    if Clear(owner, show, can) {
      NeverStuck(l, owner, amount, can, steps, r);
    }
  }

  /** With a clear view nothing is in the way but the balance. */
  lemma {:induction false} NeverStuck(
      l: Ledger, owner: int, amount: nat, can: Prover, steps: seq<Step>,
      r: Result<Unshields.UnshieldReceipt, Unshields.FlowError>)
    requires SpendsAll(can, owner) && Unshields.Unshields(l, owner, amount, SpendableNotes(l, owner), can, steps, r)
    requires Unshields.NeedsMerging(SpendableNotes(l, owner), amount) ==>
               (r.Success? <==> AllGenuine(l, owner, Unshields.NotesUsed(SpendableNotes(l, owner), amount)))
    ensures amount > 0 ==> (r.Success? <==> Value(l, Some(owner)) >= amount)
  {
    var shown := SpendableNotes(l, owner);
    SpendableFacts(l, owner);
    if Unshields.NeedsMerging(shown, amount) {
      Unshields.LargestFirstFacts(shown);
      var used := Unshields.NotesUsed(shown, amount);
      forall k | 0 <= k < |used| ensures Genuine(l, owner, used[k]) {
        assert used[k] in Unshields.LargestFirstOf(shown);
      }
    }
  }

  method PerformClaim(l: Ledger, op: ClientOp) returns (steps: seq<Step>, e: Entry)
    requires WellFormed(l) && Sensible(op) && op.Claim?
    ensures Does(l, steps, e) && CarriedOut(op, l, steps, e) && Enters(op, HeldIn(l), e)
  {
    var Claim(owner, show, can) := op;
    var r;
    steps, r := Unshields.Claim(l, owner, show, can);
    e := Out(owner, Withdrawn(steps));
    ClaimDoes(l, steps, owner);
  }

  method PerformPayroll(l: Ledger, op: ClientOp) returns (steps: seq<Step>, e: Entry)
    requires WellFormed(l) && Sensible(op) && op.Payroll?
    ensures Does(l, steps, e) && CarriedOut(op, l, steps, e)
    ensures Enters(op, HeldIn(l), e) && ClearlyDone(op, l, e)
  {
    var Payroll(org, payouts, show, can) := op;
    var paid, r;
    steps, paid, r := Payrolls.OrgPayroll(l, org, payouts, show(l), can);
    e := Paid(org, payouts[..paid]);
    if !Payrolls.OneCoversAll(show(l), payouts) {
      MovedNothing(l, org);
    } else {
      ghost var first :| Payrolls.IsLargest(first, show(l)) &&
        Payrolls.ChainedUpTo(l, org, first, payouts, can, paid, steps) &&
        (SpendsAll(can, org) ==> paid == if Genuine(l, org, first) then |payouts| else 0);
      RunIsCovered(l, org, first, payouts, can, paid, steps);
      SpendableFacts(l, org);
    }
    PaymentDoes(l, steps, org, payouts[..paid]);
  }

  /** A chained run has one step a payout, and if it has paid anything it was started from a live note of the
      account that covers it all. */
  lemma {:induction false} RunIsCovered(
      l: Ledger, org: int, first: SpendableNote, payouts: seq<Payout>, can: Prover, paid: nat, steps: seq<Step>)
    requires SoundFor(can, org) && Payrolls.ChainedUpTo(l, org, first, payouts, can, paid, steps)
    ensures |steps| == paid && (paid > 0 ==> Value(l, Some(org)) >= PaidTotal(payouts))
  {
    Payrolls.ChainStepsCount(l, org, first, payouts, paid);
    if paid > 0 {
      assert Payrolls.PayoutProvable(l, org, first, payouts, 0, can);
      assert Genuine(l, org, first);
      GenuineTotal(l, org, [first]);
      assert [first][1..] == [];
      assert Total([first]) == first.amount;
    }
  }

  method PerformBatchPayroll(l: Ledger, op: ClientOp) returns (steps: seq<Step>, e: Entry)
    requires WellFormed(l) && Sensible(op) && op.BatchPayroll?
    ensures Does(l, steps, e) && CarriedOut(op, l, steps, e)
    ensures Enters(op, HeldIn(l), e) && ClearlyDone(op, l, e)
  {
    var BatchPayroll(org, payouts, maxPerTx, show, can) := op;
    var paid, r;
    steps, paid, r := Payrolls.OrgBatchPayroll(l, org, payouts, maxPerTx, show, can);
    e := Paid(org, payouts[..paid]);
    PaymentDoes(l, steps, org, payouts[..paid]);
  }

  lemma {:induction false} ShieldDoes(l: Ledger, note: PoolNote)
    requires WellFormed(l)
    ensures Does(l, [ShieldStep(note)], In(note.owner, note.amount))
  {
    var s := ShieldStep(note);
    RunSnoc(l, [], s);
    assert [] + [s] == [s];
    ShieldIsLegal(l, note, None);
    forall who ensures Value(Run(l, [s]), who) == Value(l, who) + Effect(In(note.owner, note.amount), who) {
      ShieldIsLegal(l, note, who);
    }
  }

  lemma {:induction false} PaymentDoes(l: Ledger, steps: seq<Step>, payer: int, payouts: seq<Payout>)
    requires LegalRun(l, steps) && WellFormed(Run(l, steps)) && Deposited(steps) == Withdrawn(steps) == 0
    requires Moved(l, Run(l, steps), payer, payouts)
    ensures Does(l, steps, Paid(payer, payouts))
  {
    forall who ensures Value(Run(l, steps), who) == Value(l, who) + Effect(Paid(payer, payouts), who) {
      assert MovedFor(l, Run(l, steps), payer, payouts, who);
    }
  }

  lemma {:induction false} UnshieldDoes(l: Ledger, steps: seq<Step>, owner: int, amount: nat)
    requires WellFormed(l) && LegalRun(l, steps) && WellFormed(Run(l, steps)) && Deposited(steps) == 0
    requires Withdrawn(steps) == amount && Unshields.PaidOut(l, Run(l, steps), owner, amount)
    ensures Does(l, steps, Out(owner, amount)) && Value(l, Some(owner)) >= amount
  {
    forall who ensures Value(Run(l, steps), who) == Value(l, who) + Effect(Out(owner, amount), who) {
      assert Value(Run(l, steps), who) == Value(l, who) - Share(PoolNote(amount, owner), who);
    }
    assert Value(Run(l, steps), Some(owner)) == Value(l, Some(owner)) - amount;
  }

  lemma {:induction false} NothingDone(l: Ledger, steps: seq<Step>, owner: int)
    requires WellFormed(l) && LegalRun(l, steps) && WellFormed(Run(l, steps)) && Deposited(steps) == 0
    requires steps == [] || (Withdrawn(steps) == 0 && Unshields.Unmoved(l, Run(l, steps)))
    ensures Does(l, steps, Out(owner, 0))
  {
  }

  lemma {:induction false} ClaimDoes(l: Ledger, steps: seq<Step>, owner: int)
    requires WellFormed(l) && LegalRun(l, steps) && WellFormed(Run(l, steps)) && Deposited(steps) == 0
    requires Value(Run(l, steps), Some(owner)) + Withdrawn(steps) == Value(l, Some(owner))
    requires Unshields.OthersKeep(l, Run(l, steps), owner)
    ensures Does(l, steps, Out(owner, Withdrawn(steps)))
  {
    RunConservesValue(l, steps);
    var e := Out(owner, Withdrawn(steps));
    forall who ensures Value(Run(l, steps), who) == Value(l, who) + Effect(e, who) {
      if who.Some? && who.value != owner {
        assert Value(l, Some(who.value)) == Value(l, who);
      }
    }
  }

  // ----- any number of operations -----

  function HeldOnBook(book: seq<Entry>): Option<int> -> int
  {
    who => Balance(book, who)
  }

  /** The book is kept as the operations are carried out, each against the balances at its turn. */
  ghost predicate KeepsBook(ops: seq<ClientOp>, book: seq<Entry>)
  {
    |book| == |ops| && forall k {:trigger book[k]} :: 0 <= k < |ops| ==> Enters(ops[k], HeldOnBook(book[..k]), book[k])
  }

  /** The ledger after the operations, as the book has it. */
  ghost predicate AgreesWithBook(steps: seq<Step>, book: seq<Entry>)
  {
    && LegalRun(Genesis(), steps) && WellFormed(Run(Genesis(), steps))
    && Deposited(steps) == AllIn(book) && Withdrawn(steps) == AllOut(book)
    && forall who {:trigger Value(Run(Genesis(), steps), who)} ::
         Value(Run(Genesis(), steps), who) == Balance(book, who)
  }

  /** All steps of the operations, in order. */
  function Joined(parts: seq<seq<Step>>): seq<Step>
  {
    if parts == [] then [] else Joined(parts[..|parts| - 1]) + parts[|parts| - 1]
  }

  /** The pool when operation `k` has its turn. */
  function PoolAt(parts: seq<seq<Step>>, k: nat): Ledger
    requires k <= |parts|
  {
    Run(Genesis(), Joined(parts[..k]))
  }

  ghost predicate CarriedOutAt(ops: seq<ClientOp>, parts: seq<seq<Step>>, book: seq<Entry>, k: nat)
    requires k < |ops| == |parts| == |book|
  {
    CarriedOut(ops[k], PoolAt(parts, k), parts[k], book[k]) && ClearlyDone(ops[k], PoolAt(parts, k), book[k])
  }

  /** Every operation is carried out, each on the pool its predecessors left. */
  ghost predicate AllCarriedOut(ops: seq<ClientOp>, parts: seq<seq<Step>>, book: seq<Entry>)
  {
    && |ops| == |parts| == |book|
    && forall k: nat {:trigger CarriedOutAt(ops, parts, book, k)} :: k < |ops| ==> CarriedOutAt(ops, parts, book, k)
  }

  /** Carry out any operations, in order, from the empty pool, whatever is shown to each of them: stale
      notes and notes of others included, as long as only live notes of its own can be spent. */
  method RunClient(ops: seq<ClientOp>) returns (steps: seq<Step>, book: seq<Entry>, parts: seq<seq<Step>>)
    requires forall k {:trigger ops[k]} :: 0 <= k < |ops| ==> Sensible(ops[k])
    ensures steps == Joined(parts) && AllCarriedOut(ops, parts, book)
    ensures KeepsBook(ops, book) && AgreesWithBook(steps, book)
    ensures Value(Run(Genesis(), steps), None) + Withdrawn(steps) == Deposited(steps)
    ensures Distinct(SpentBy(steps)) && Run(Genesis(), steps).spent == AllOf(SpentBy(steps))
  {
    steps, book, parts := [], [], [];
    var now := Genesis();
    for k := 0 to |ops|
      invariant |book| == k && KeepsBook(ops[..k], book) && AgreesWithBook(steps, book)
      invariant steps == Joined(parts) && AllCarriedOut(ops[..k], parts, book) && now == Run(Genesis(), steps)
    {
      var more, e := Perform(now, ops[k]);
      OneMoreDone(ops, k, steps, parts, book, more, e);
      steps, book, parts, now := steps + more, book + [e], parts + [more], Run(now, more);
    }
    assert ops[..|ops|] == ops;
    RunConservesValue(Genesis(), steps);
    RunSpendsOnce(Genesis(), steps);
  }

  lemma {:induction false} OneMoreDone(
      ops: seq<ClientOp>, k: nat, steps: seq<Step>, parts: seq<seq<Step>>, book: seq<Entry>, more: seq<Step>, e: Entry)
    requires k < |ops| && KeepsBook(ops[..k], book) && AgreesWithBook(steps, book)
    requires steps == Joined(parts) && AllCarriedOut(ops[..k], parts, book)
    requires var now := Run(Genesis(), steps);
             && Does(now, more, e) && CarriedOut(ops[k], now, more, e)
             && Enters(ops[k], HeldIn(now), e) && ClearlyDone(ops[k], now, e)
    ensures KeepsBook(ops[..k + 1], book + [e]) && AgreesWithBook(steps + more, book + [e])
    ensures steps + more == Joined(parts + [more]) && AllCarriedOut(ops[..k + 1], parts + [more], book + [e])
    ensures Run(Genesis(), steps + more) == Run(Run(Genesis(), steps), more)
  {
    OneMoreEntry(ops[..k], steps, book, ops[k], more, e);
    OneMoreCarriedOut(ops[..k], parts, book, ops[k], more, e);
    assert ops[..k + 1] == ops[..k] + [ops[k]];
    RunAppend(Genesis(), steps, more);
  }

  lemma {:induction false} OneMoreCarriedOut(
      ops: seq<ClientOp>, parts: seq<seq<Step>>, book: seq<Entry>, op: ClientOp, more: seq<Step>, e: Entry)
    requires AllCarriedOut(ops, parts, book)
    requires CarriedOut(op, Run(Genesis(), Joined(parts)), more, e)
    requires ClearlyDone(op, Run(Genesis(), Joined(parts)), e)
    ensures AllCarriedOut(ops + [op], parts + [more], book + [e]) && Joined(parts + [more]) == Joined(parts) + more
  {
    assert (parts + [more])[..|parts|] == parts;
    forall k: nat | k < |ops + [op]| ensures CarriedOutAt(ops + [op], parts + [more], book + [e], k) {
      if k < |ops| {
        assert CarriedOutAt(ops, parts, book, k);
        assert (parts + [more])[..k] == parts[..k];
      }
    }
  }

  lemma {:induction false} OneMoreEntry(
      ops: seq<ClientOp>, steps: seq<Step>, book: seq<Entry>, op: ClientOp, more: seq<Step>, e: Entry)
    requires KeepsBook(ops, book) && AgreesWithBook(steps, book)
    requires Does(Run(Genesis(), steps), more, e) && Enters(op, HeldIn(Run(Genesis(), steps)), e)
    ensures KeepsBook(ops + [op], book + [e]) && AgreesWithBook(steps + more, book + [e])
  {
    EntersByBalance(op, Run(Genesis(), steps), book, e);
    BookGrows(ops, book, op, e);
    LedgerFollows(steps, book, more, e);
  }

  /** What an operation enters depends on the balances alone. */
  lemma {:induction false} EntersByBalance(op: ClientOp, l: Ledger, book: seq<Entry>, e: Entry)
    requires Enters(op, HeldIn(l), e)
    requires forall who {:trigger Value(l, who)} :: Value(l, who) == Balance(book, who)
    ensures Enters(op, HeldOnBook(book), e)
  {
    forall who ensures HeldIn(l)(who) == HeldOnBook(book)(who) {
      assert Value(l, who) == Balance(book, who);
    }
  }

  lemma {:induction false} BookGrows(ops: seq<ClientOp>, book: seq<Entry>, op: ClientOp, e: Entry)
    requires KeepsBook(ops, book) && Enters(op, HeldOnBook(book), e)
    ensures KeepsBook(ops + [op], book + [e])
  {
    forall k | 0 <= k < |ops| + 1 ensures Enters((ops + [op])[k], HeldOnBook((book + [e])[..k]), (book + [e])[k]) {
      if k < |ops| {
        assert (book + [e])[..k] == book[..k] && (book + [e])[k] == book[k];
      } else {
        assert (book + [e])[..k] == book;
      }
    }
  }

  lemma {:induction false} LedgerFollows(steps: seq<Step>, book: seq<Entry>, more: seq<Step>, e: Entry)
    requires AgreesWithBook(steps, book) && Does(Run(Genesis(), steps), more, e)
    ensures AgreesWithBook(steps + more, book + [e])
  {
    var now := Run(Genesis(), steps);
    RunAppend(Genesis(), steps, more);
    assert (book + [e])[..|book|] == book;
    forall who ensures Value(Run(Genesis(), steps + more), who) == Balance(book + [e], who) {
      assert Value(now, who) == Balance(book, who);
      assert Value(Run(now, more), who) == Value(now, who) + Effect(e, who);
    }
  }

  /** The book balances: what everybody holds together is what came in less what went out. */
  lemma {:induction false} BookBalances(book: seq<Entry>)
    ensures Balance(book, None) == AllIn(book) - AllOut(book)
  {
    if book == [] {
    } else {
      BookBalances(book[..|book| - 1]);
      var e := book[|book| - 1];
      if e.Paid? { PaidToEverybody(e.payouts); }
    }
  }

  lemma {:induction false} PaidToEverybody(payouts: seq<Payout>)
    ensures PaidTo(payouts, None) == PaidTotal(payouts)
  {
    if payouts == [] {
    } else {
      PaidToEverybody(payouts[..|payouts| - 1]);
    }
  }
}
