/** The value side of the shielded pool: an append-only list of notes and the set of spent ones.

    A step is what one accepted transaction does.  Its legality is what the circuits and the
    contract enforce: distinct live inputs, and inputs plus deposit equal outputs plus payout.
    The client flows submit steps; a run of legal steps conserves value and spends once. */
module PoolLedger {
  import opened Amounts
  import opened Wrappers

  datatype PoolNote = PoolNote(amount: nat, owner: int)

  datatype Ledger = Ledger(leaves: seq<PoolNote>, spent: set<nat>)

  datatype Step = Step(inputs: seq<nat>, outputs: seq<PoolNote>, deposited: nat, withdrawn: nat)

  function ShieldStep(note: PoolNote): Step
  {
    Step([], [note], note.amount, 0)
  }

  function TransferStep(inputs: seq<nat>, outputs: seq<PoolNote>): Step
  {
    Step(inputs, outputs, 0, 0)
  }

  function WithdrawStep(input: nat, amount: nat, change: PoolNote): Step
  {
    Step([input], [change], 0, amount)
  }

  predicate Live(l: Ledger, i: nat)
  {
    i < |l.leaves| && i !in l.spent
  }

  ghost predicate Distinct(s: seq<nat>)
  {
    forall i, j :: 0 <= i < j < |s| ==> s[i] != s[j]
  }

  function AllOf(s: seq<nat>): set<nat>
  {
    set i | i in s
  }

  /** `None` stands for everybody. */
  predicate Belongs(note: PoolNote, who: Option<int>)
  {
    who.None? || note.owner == who.value
  }

  function Share(note: PoolNote, who: Option<int>): nat
  {
    if Belongs(note, who) then note.amount else 0
  }

  function OutputValue(outputs: seq<PoolNote>, who: Option<int>): nat
  {
    if outputs == [] then 0 else Share(outputs[0], who) + OutputValue(outputs[1..], who)
  }

  predicate InRange(l: Ledger, inputs: seq<nat>)
  {
    forall k :: 0 <= k < |inputs| ==> inputs[k] < |l.leaves|
  }

  predicate AllLive(l: Ledger, inputs: seq<nat>)
  {
    forall k :: 0 <= k < |inputs| ==> Live(l, inputs[k])
  }

  function InputValue(l: Ledger, inputs: seq<nat>, who: Option<int>): nat
    requires InRange(l, inputs)
  {
    if inputs == [] then 0 else Share(l.leaves[inputs[0]], who) + InputValue(l, inputs[1..], who)
  }

  ghost predicate Legal(l: Ledger, s: Step)
  {
    && Distinct(s.inputs)
    && AllLive(l, s.inputs)
    && InputValue(l, s.inputs, None) + s.deposited == OutputValue(s.outputs, None) + s.withdrawn
  }

  function Apply(l: Ledger, s: Step): Ledger
  {
    Ledger(l.leaves + s.outputs, l.spent + AllOf(s.inputs))
  }

  /** The unspent value among the first `n` leaves. */
  function ValueUpTo(l: Ledger, who: Option<int>, n: nat): nat
    requires n <= |l.leaves|
  {
    if n == 0 then 0
    else ValueUpTo(l, who, n - 1) + if n - 1 in l.spent then 0 else Share(l.leaves[n - 1], who)
  }

  /** The unspent value that belongs to `who`. */
  function Value(l: Ledger, who: Option<int>): nat
  {
    ValueUpTo(l, who, |l.leaves|)
  }

  /** Spent marks exist for existing leaves only. */
  predicate WellFormed(l: Ledger)
  {
    forall i :: i in l.spent ==> i < |l.leaves|
  }

  // ----- one step -----

  lemma {:induction false} SpendingOne(leaves: seq<PoolNote>, spent: set<nat>, i: nat, who: Option<int>, n: nat)
    requires n <= |leaves| && i < |leaves| && i !in spent
    ensures ValueUpTo(Ledger(leaves, spent), who, n)
         == ValueUpTo(Ledger(leaves, spent + {i}), who, n) + if i < n then Share(leaves[i], who) else 0
  {
    if n == 0 {
    } else {
      SpendingOne(leaves, spent, i, who, n - 1);
    }
  }

  lemma {:induction false} SpendingAll(l: Ledger, inputs: seq<nat>, who: Option<int>)
    requires Distinct(inputs) && AllLive(l, inputs)
    ensures Value(l, who) == Value(Ledger(l.leaves, l.spent + AllOf(inputs)), who) + InputValue(l, inputs, who)
    decreases |inputs|
  {
    if inputs == [] {
      assert l.spent + AllOf(inputs) == l.spent;
    } else {
      var i, rest := inputs[0], inputs[1..];
      var l' := Ledger(l.leaves, l.spent + {i});
      SpendingOne(l.leaves, l.spent, i, who, |l.leaves|);
      assert AllLive(l', rest);
      SpendingAll(l', rest, who);
      assert l.spent + AllOf(inputs) == l'.spent + AllOf(rest);
      SameInputValue(l, l', rest, who);
    }
  }

  lemma {:induction false} SameInputValue(l: Ledger, l': Ledger, inputs: seq<nat>, who: Option<int>)
    requires l.leaves == l'.leaves && InRange(l, inputs)
    ensures InputValue(l, inputs, who) == InputValue(l', inputs, who)
  {
    if inputs == [] {
    } else {
      SameInputValue(l, l', inputs[1..], who);
    }
  }

  lemma {:induction false} ValueOfPrefix(l: Ledger, more: seq<PoolNote>, who: Option<int>, n: nat)
    requires n <= |l.leaves|
    ensures ValueUpTo(Ledger(l.leaves + more, l.spent), who, n) == ValueUpTo(l, who, n)
  {
    if n == 0 {
    } else {
      ValueOfPrefix(l, more, who, n - 1);
    }
  }

  lemma {:induction false} OutputValueSnoc(outputs: seq<PoolNote>, note: PoolNote, who: Option<int>)
    ensures OutputValue(outputs + [note], who) == OutputValue(outputs, who) + Share(note, who)
  {
    if outputs == [] {
    } else {
      assert (outputs + [note])[1..] == outputs[1..] + [note];
      OutputValueSnoc(outputs[1..], note, who);
    }
  }

  lemma {:induction false} AddingAll(l: Ledger, outputs: seq<PoolNote>, who: Option<int>)
    requires WellFormed(l)
    ensures Value(Ledger(l.leaves + outputs, l.spent), who) == Value(l, who) + OutputValue(outputs, who)
    decreases |outputs|
  {
    if outputs == [] {
      assert l.leaves + outputs == l.leaves;
    } else {
      var init, last := outputs[..|outputs| - 1], outputs[|outputs| - 1];
      assert outputs == init + [last];
      AddingAll(l, init, who);
      OutputValueSnoc(init, last, who);
      var l' := Ledger(l.leaves + init, l.spent);
      assert l.leaves + outputs == l'.leaves + [last];
      ValueOfPrefix(l', [last], who, |l'.leaves|);
    }
  }

  /** What a step does to anybody's unspent value: their inputs leave it, their outputs join it. */
  lemma {:induction false} StepMovesValue(l: Ledger, s: Step, who: Option<int>)
    requires WellFormed(l) && Legal(l, s)
    ensures WellFormed(Apply(l, s))
    ensures Value(Apply(l, s), who) + InputValue(l, s.inputs, who) == Value(l, who) + OutputValue(s.outputs, who)
  {
    SpendingAll(l, s.inputs, who);
    AddingAll(Ledger(l.leaves, l.spent + AllOf(s.inputs)), s.outputs, who);
  }

  // ----- whole runs -----

  /** A shield is always legal and gives its owner the whole deposit. */
  lemma {:induction false} ShieldIsLegal(l: Ledger, note: PoolNote, who: Option<int>)
    requires WellFormed(l)
    ensures var s := ShieldStep(note);
            Legal(l, s) && WellFormed(Apply(l, s)) && Value(Apply(l, s), who) == Value(l, who) + Share(note, who)
  {
    var s := ShieldStep(note);
    assert OutputValue([note], None) == Share(note, None) by {
      OutputValueSnoc([], note, None);
      assert [] + [note] == [note];
    }
    StepMovesValue(l, s, who);
    OutputValueSnoc([], note, who);
    assert [] + [note] == [note];
  }

  /** The empty pool. */
  function Genesis(): Ledger
  {
    Ledger([], {})
  }

  function Run(l: Ledger, steps: seq<Step>): Ledger
  {
    if steps == [] then l else Apply(Run(l, steps[..|steps| - 1]), steps[|steps| - 1])
  }

  ghost predicate LegalRun(l: Ledger, steps: seq<Step>)
  {
    steps == [] || (LegalRun(l, steps[..|steps| - 1]) && Legal(Run(l, steps[..|steps| - 1]), steps[|steps| - 1]))
  }

  function Deposited(steps: seq<Step>): nat
  {
    if steps == [] then 0 else Deposited(steps[..|steps| - 1]) + steps[|steps| - 1].deposited
  }

  function Withdrawn(steps: seq<Step>): nat
  {
    if steps == [] then 0 else Withdrawn(steps[..|steps| - 1]) + steps[|steps| - 1].withdrawn
  }

  /** Every leaf the run spends, in order. */
  function SpentBy(steps: seq<Step>): seq<nat>
  {
    if steps == [] then [] else SpentBy(steps[..|steps| - 1]) + steps[|steps| - 1].inputs
  }

  lemma {:induction false} RunSnoc(l: Ledger, steps: seq<Step>, s: Step)
    ensures Run(l, steps + [s]) == Apply(Run(l, steps), s)
    ensures LegalRun(l, steps + [s]) <==> LegalRun(l, steps) && Legal(Run(l, steps), s)
    ensures Deposited(steps + [s]) == Deposited(steps) + s.deposited
    ensures Withdrawn(steps + [s]) == Withdrawn(steps) + s.withdrawn
  {
    assert (steps + [s])[..|steps|] == steps;
  }

  lemma {:induction false} RunAppend(l: Ledger, a: seq<Step>, b: seq<Step>)
    ensures Run(l, a + b) == Run(Run(l, a), b)
    ensures LegalRun(l, a + b) <==> LegalRun(l, a) && LegalRun(Run(l, a), b)
    ensures Deposited(a + b) == Deposited(a) + Deposited(b)
    ensures Withdrawn(a + b) == Withdrawn(a) + Withdrawn(b)
    decreases |b|
  {
    if b == [] {
      assert a + b == a;
    } else {
      var init, last := b[..|b| - 1], b[|b| - 1];
      assert a + b == (a + init) + [last];
      RunAppend(l, a, init);
      RunSnoc(l, a + init, last);
    }
  }

  /** Leaves are only added. */
  lemma {:induction false} RunGrows(l: Ledger, steps: seq<Step>)
    ensures |l.leaves| <= |Run(l, steps).leaves|
  {
    if steps == [] {
    } else {
      RunGrows(l, steps[..|steps| - 1]);
    }
  }

  /** Conservation: in every reachable state the unspent value is what was there, plus what was
      shielded, minus what was unshielded. */
  lemma {:induction false} RunConservesValue(l: Ledger, steps: seq<Step>)
    requires WellFormed(l) && LegalRun(l, steps)
    ensures WellFormed(Run(l, steps))
    ensures Value(Run(l, steps), None) + Withdrawn(steps) == Value(l, None) + Deposited(steps)
    decreases |steps|
  {
    if steps == [] {
    } else {
      var init := steps[..|steps| - 1];
      RunConservesValue(l, init);
      StepMovesValue(Run(l, init), steps[|steps| - 1], None);
    }
  }

  lemma {:induction false} DistinctConcat(a: seq<nat>, b: seq<nat>)
    requires Distinct(a) && Distinct(b) && forall i :: i in b ==> i !in a
    ensures Distinct(a + b)
  {
    forall i, j | 0 <= i < j < |a + b| ensures (a + b)[i] != (a + b)[j] {
      if i < |a| <= j {
        assert b[j - |a|] in b && a[i] in a;
      }
    }
  }

  /** Single spend: over a whole run no leaf is spent twice, and none that was spent before. */
  lemma {:induction false} RunSpendsOnce(l: Ledger, steps: seq<Step>)
    requires LegalRun(l, steps)
    ensures Distinct(SpentBy(steps)) && forall i :: i in SpentBy(steps) ==> i !in l.spent
    ensures Run(l, steps).spent == l.spent + AllOf(SpentBy(steps))
    decreases |steps|
  {
    if steps == [] {
    } else {
      var init, last := steps[..|steps| - 1], steps[|steps| - 1];
      RunSpendsOnce(l, init);
      forall i | i in last.inputs ensures i !in SpentBy(init) && i !in l.spent {
        var k :| 0 <= k < |last.inputs| && last.inputs[k] == i;
        assert Live(Run(l, init), last.inputs[k]);
      }
      DistinctConcat(SpentBy(init), last.inputs);
    }
  }

  // ----- what an account can spend -----

  function SpendableUpTo(l: Ledger, owner: int, n: nat): seq<SpendableNote>
    requires n <= |l.leaves|
  {
    if n == 0 then []
    else
      var mine := n - 1 !in l.spent && l.leaves[n - 1].owner == owner;
      SpendableUpTo(l, owner, n - 1) + if mine then [SpendableNote(l.leaves[n - 1].amount, n - 1)] else []
  }

  /** The account's unspent notes, in leaf order. */
  function SpendableNotes(l: Ledger, owner: int): seq<SpendableNote>
  {
    SpendableUpTo(l, owner, |l.leaves|)
  }

  /** The notes of the leaves in `keep`, in leaf order. */
  function Listed(l: Ledger, keep: set<nat>, n: nat): seq<SpendableNote>
    requires n <= |l.leaves|
  {
    if n == 0 then []
    else Listed(l, keep, n - 1) + if n - 1 in keep then [SpendableNote(l.leaves[n - 1].amount, n - 1)] else []
  }

  function LiveLeaves(l: Ledger, owner: int): set<nat>
  {
    set i: nat | i < |l.leaves| && i !in l.spent && l.leaves[i].owner == owner
  }

  lemma {:induction false} SpendableIsListed(l: Ledger, owner: int, n: nat)
    requires n <= |l.leaves|
    ensures SpendableUpTo(l, owner, n) == Listed(l, LiveLeaves(l, owner), n)
  {
    if n == 0 {
    } else {
      SpendableIsListed(l, owner, n - 1);
    }
  }

  lemma {:induction false} ListedBelow(l: Ledger, keep: set<nat>, n: nat)
    requires n <= |l.leaves|
    ensures forall k {:trigger Listed(l, keep, n)[k]} :: 0 <= k < |Listed(l, keep, n)| ==>
            Listed(l, keep, n)[k].leafIndex < n
  {
    if n == 0 {
    } else {
      ListedBelow(l, keep, n - 1);
    }
  }

  /** Two such lists are equal exactly if they keep the same leaves. */
  lemma {:induction false} ListedIff(l: Ledger, a: set<nat>, b: set<nat>, n: nat)
    requires n <= |l.leaves|
    ensures Listed(l, a, n) == Listed(l, b, n) <==> forall i: nat :: i < n ==> (i in a <==> i in b)
  {
    if n == 0 {
    } else {
      ListedIff(l, a, b, n - 1);
      ListedBelow(l, a, n - 1);
      ListedBelow(l, b, n - 1);
      var note := SpendableNote(l.leaves[n - 1].amount, n - 1);
      LastOrNot(Listed(l, a, n - 1), Listed(l, b, n - 1), note, n - 1 in a, n - 1 in b);
    }
  }

  lemma {:induction false} LastOrNot(
      s: seq<SpendableNote>, t: seq<SpendableNote>, note: SpendableNote, first: bool, second: bool)
    requires forall k :: 0 <= k < |s| ==> s[k].leafIndex < note.leafIndex
    requires forall k :: 0 <= k < |t| ==> t[k].leafIndex < note.leafIndex
    ensures s + (if first then [note] else []) == t + (if second then [note] else [])
       <==> s == t && first == second
  {
    var a, b := s + (if first then [note] else []), t + (if second then [note] else []);
    if a == b {
      assert |a| > 0 ==> (a[|a| - 1] == note <==> first) && (b[|b| - 1] == note <==> second);
      assert first == second;
      assert s == a[..|s|] && t == b[..|t|];
    }
  }

  /** `n` stands for a live note of `owner`, with the amount it has on the ledger. */
  predicate Genuine(l: Ledger, owner: int, n: SpendableNote)
  {
    Live(l, n.leafIndex) && l.leaves[n.leafIndex] == PoolNote(n.amount, owner)
  }

  /** Whether a spend of a note can be proved on a ledger: the key must own it and its witness be had. */
  type Prover = (Ledger, SpendableNote) -> bool

  /** Only live notes of the account can be spent. */
  ghost predicate SoundFor(can: Prover, owner: int)
  {
    forall l, n {:trigger can(l, n)} :: can(l, n) ==> Genuine(l, owner, n)
  }

  /** Every live note of the account can be spent. */
  ghost predicate SpendsAll(can: Prover, owner: int)
  {
    forall l, n {:trigger can(l, n)} :: Genuine(l, owner, n) ==> can(l, n)
  }

  ghost predicate AllGenuine(l: Ledger, owner: int, notes: seq<SpendableNote>)
  {
    forall k {:trigger notes[k]} :: 0 <= k < |notes| ==> Genuine(l, owner, notes[k])
  }

  /** The notes a client is shown on a ledger. */
  type Screen = Ledger -> seq<SpendableNote>

  ghost predicate ShowsLeaves(show: Screen)
  {
    forall l {:trigger show(l)} :: OnLeaves(l, show(l))
  }

  /** It shows exactly the account's live notes. */
  ghost predicate ShowsOwn(show: Screen, owner: int)
  {
    forall l {:trigger show(l)} :: show(l) == SpendableNotes(l, owner)
  }

  /** Exactly the account's live notes are shown, and all of them can be spent. */
  ghost predicate Clear(owner: int, show: Screen, can: Prover)
  {
    ShowsOwn(show, owner) && SpendsAll(can, owner)
  }

  /** Notes on distinct leaves of the ledger, as a scanner shows them; whose they are does not matter. */
  ghost predicate OnLeaves(l: Ledger, notes: seq<SpendableNote>)
  {
    DistinctLeaves(notes) && forall n :: n in notes ==> n.leafIndex < |l.leaves|
  }

  ghost predicate DistinctLeaves(notes: seq<SpendableNote>)
  {
    forall i, j {:trigger LeavesDiffer(notes, i, j)} :: 0 <= i < j < |notes| ==> LeavesDiffer(notes, i, j)
  }

  predicate LeavesDiffer(notes: seq<SpendableNote>, i: int, j: int)
    requires 0 <= i < j < |notes|
  {
    notes[i].leafIndex != notes[j].leafIndex
  }

  lemma {:induction false} LeavesApart(notes: seq<SpendableNote>, i: nat, j: nat)
    requires DistinctLeaves(notes) && i < |notes| && j < |notes| && i != j
    ensures notes[i].leafIndex != notes[j].leafIndex
  {
    assert i < j ==> LeavesDiffer(notes, i, j);
    assert j < i ==> LeavesDiffer(notes, j, i);
  }

  lemma {:induction false} SameLeafSameNote(notes: seq<SpendableNote>, m: SpendableNote, n: SpendableNote)
    requires DistinctLeaves(notes) && m in notes && n in notes && m.leafIndex == n.leafIndex
    ensures m == n
  {
    var i: nat :| i < |notes| && notes[i] == m;
    var j: nat :| j < |notes| && notes[j] == n;
    if i != j { LeavesApart(notes, i, j); }
  }

  lemma {:induction false} DistinctTail(notes: seq<SpendableNote>)
    requires DistinctLeaves(notes) && notes != []
    ensures DistinctLeaves(notes[1..]) && forall n :: n in notes[1..] ==> n.leafIndex != notes[0].leafIndex
  {
    forall i, j | 0 <= i < j < |notes[1..]| ensures LeavesDiffer(notes[1..], i, j) {
      assert LeavesDiffer(notes, i + 1, j + 1);
    }
    forall n | n in notes[1..] ensures n.leafIndex != notes[0].leafIndex {
      var k :| 0 <= k < |notes[1..]| && notes[1..][k] == n;
      assert LeavesDiffer(notes, 0, k + 1);
    }
  }

  lemma {:induction false} DistinctCons(n: SpendableNote, tail: seq<SpendableNote>)
    requires DistinctLeaves(tail) && forall m :: m in tail ==> m.leafIndex != n.leafIndex
    ensures DistinctLeaves([n] + tail)
  {
    var notes := [n] + tail;
    forall i, j | 0 <= i < j < |notes| ensures LeavesDiffer(notes, i, j) {
      assert notes[j] == tail[j - 1] && tail[j - 1] in tail;
      assert i > 0 ==> LeavesDiffer(tail, i - 1, j - 1);
    }
  }

  lemma {:induction false} DistinctSnoc(notes: seq<SpendableNote>, n: SpendableNote)
    requires DistinctLeaves(notes) && forall m :: m in notes ==> m.leafIndex != n.leafIndex
    ensures DistinctLeaves(notes + [n])
  {
    var more := notes + [n];
    forall i, j | 0 <= i < j < |more| ensures LeavesDiffer(more, i, j) {
      assert more[i] == notes[i] && notes[i] in notes;
      assert j < |notes| ==> LeavesDiffer(notes, i, j);
    }
  }

  /** Notes on distinct leaves occur once each. */
  lemma {:induction false} OnceEach(notes: seq<SpendableNote>, x: SpendableNote)
    requires DistinctLeaves(notes)
    ensures multiset(notes)[x] <= 1
  {
    if notes == [] {
    } else {
      assert notes == [notes[0]] + notes[1..];
      DistinctTail(notes);
      OnceEach(notes[1..], x);
    }
  }

  /** A rearrangement of notes on distinct leaves is on distinct leaves. */
  lemma {:induction false} Rearranged(notes: seq<SpendableNote>, avail: seq<SpendableNote>)
    requires multiset(avail) == multiset(notes) && DistinctLeaves(notes)
    ensures DistinctLeaves(avail)
  {
    SameMembers(avail, notes);
    forall i, j | 0 <= i < j < |avail| ensures LeavesDiffer(avail, i, j) {
      assert avail[i] in notes && avail[j] in notes;
      if avail[i].leafIndex == avail[j].leafIndex {
        SameLeafSameNote(notes, avail[i], avail[j]);
        OnceEach(notes, avail[i]);
        TwiceCounts(avail, i, j);
      }
    }
  }

  lemma {:induction false} TwiceCounts(s: seq<SpendableNote>, i: nat, j: nat)
    requires i < j < |s| && s[i] == s[j]
    ensures multiset(s)[s[i]] >= 2
  {
    WithoutMembers(s, i);
    assert Without(s, i)[j - 1] == s[i];
    assert s[i] in multiset(Without(s, i));
  }

  lemma {:induction false} TotalSnoc(notes: seq<SpendableNote>, n: SpendableNote)
    ensures Total(notes + [n]) == Total(notes) + n.amount
  {
    TotalAppend(notes, [n]);
    assert Total([n]) == n.amount;
  }

  lemma {:induction false} SpendableTotal(l: Ledger, owner: int, n: nat)
    requires n <= |l.leaves|
    ensures Total(SpendableUpTo(l, owner, n)) == ValueUpTo(l, Some(owner), n)
  {
    if n == 0 {
    } else {
      SpendableTotal(l, owner, n - 1);
      var note := SpendableNote(l.leaves[n - 1].amount, n - 1);
      TotalSnoc(SpendableUpTo(l, owner, n - 1), note);
      assert SpendableUpTo(l, owner, n - 1) + [] == SpendableUpTo(l, owner, n - 1);
    }
  }

  lemma {:induction false} SpendableOfPrefix(l: Ledger, more: seq<PoolNote>, owner: int, n: nat)
    requires n <= |l.leaves|
    ensures SpendableUpTo(Ledger(l.leaves + more, l.spent), owner, n) == SpendableUpTo(l, owner, n)
  {
    if n == 0 {
    } else {
      SpendableOfPrefix(l, more, owner, n - 1);
    }
  }

  lemma {:induction false} SpendableMembers(l: Ledger, owner: int, n: nat)
    requires n <= |l.leaves|
    ensures forall m :: m in SpendableUpTo(l, owner, n) <==> Genuine(l, owner, m) && m.leafIndex < n
  {
    if n == 0 {
    } else {
      SpendableMembers(l, owner, n - 1);
    }
  }

  lemma {:induction false} SpendableDistinct(l: Ledger, owner: int, n: nat)
    requires n <= |l.leaves|
    ensures DistinctLeaves(SpendableUpTo(l, owner, n))
  {
    if n == 0 {
    } else {
      SpendableDistinct(l, owner, n - 1);
      SpendableMembers(l, owner, n - 1);
      var s := SpendableUpTo(l, owner, n - 1);
      DistinctSnoc(s, SpendableNote(l.leaves[n - 1].amount, n - 1));
      assert s + [] == s;
    }
  }

  /** The spendable notes are exactly the account's live notes, each once, and add up to its value. */
  lemma {:induction false} SpendableFacts(l: Ledger, owner: int)
    ensures Total(SpendableNotes(l, owner)) == Value(l, Some(owner))
    ensures forall m :: m in SpendableNotes(l, owner) <==> Genuine(l, owner, m)
    ensures DistinctLeaves(SpendableNotes(l, owner))
  {
    SpendableTotal(l, owner, |l.leaves|);
    SpendableMembers(l, owner, |l.leaves|);
    SpendableDistinct(l, owner, |l.leaves|);
  }
}
