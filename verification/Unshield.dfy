/** Unshielding: the withdraw circuit takes one input, so a split balance is merged first.

    The loop merges the two largest positive notes until one note covers the amount.  What it does is
    fixed by the notes shown at the start: it uses up the largest of them one after another, exactly as
    many as a smallest cover has, and no other note shown plays any part. */
module Unshield {
  import opened Amounts
  import opened CoinSelection
  import opened PoolLedger
  import opened Wrappers

  datatype FlowError = InsufficientBalance | TooFragmented | NothingToClaim | CannotSpend

  datatype UnshieldReceipt = UnshieldReceipt(input: SpendableNote, merges: nat)

  /** Exactly `amount` has left `owner`'s account, and so the pool; nobody else's balance moved. */
  ghost predicate PaidOut(before: Ledger, after: Ledger, owner: int, amount: nat)
  {
    forall who {:trigger Value(before, who)} ::
      Value(after, who) == Value(before, who) - if Belongs(PoolNote(amount, owner), who) then amount else 0
  }

  ghost predicate OthersKeep(before: Ledger, after: Ledger, owner: int)
  {
    forall other {:trigger Value(before, Some(other))} :: other != owner ==>
      Value(after, Some(other)) == Value(before, Some(other))
  }

  ghost predicate Unmoved(before: Ledger, after: Ledger)
  {
    forall who {:trigger Value(after, who)} :: Value(after, who) == Value(before, who)
  }

  // ----- taking notes out of a list -----

  function DropLeaves(notes: seq<SpendableNote>, gone: set<nat>): seq<SpendableNote>
  {
    if notes == [] then []
    else if notes[0].leafIndex in gone then DropLeaves(notes[1..], gone)
    else [notes[0]] + DropLeaves(notes[1..], gone)
  }

  lemma {:induction false} DropLeavesMembers(notes: seq<SpendableNote>, gone: set<nat>)
    ensures forall n :: n in DropLeaves(notes, gone) <==> n in notes && n.leafIndex !in gone
  {
    if notes == [] {
    } else {
      DropLeavesMembers(notes[1..], gone);
    }
  }

  lemma {:induction false} DropLeavesDistinct(notes: seq<SpendableNote>, gone: set<nat>)
    requires DistinctLeaves(notes)
    ensures DistinctLeaves(DropLeaves(notes, gone))
  {
    if notes == [] {
    } else {
      DistinctTail(notes);
      DropLeavesDistinct(notes[1..], gone);
      DropLeavesMembers(notes[1..], gone);
      if notes[0].leafIndex !in gone { DistinctCons(notes[0], DropLeaves(notes[1..], gone)); }
    }
  }

  lemma {:induction false} DropNothing(notes: seq<SpendableNote>, gone: set<nat>)
    requires forall n :: n in notes ==> n.leafIndex !in gone
    ensures DropLeaves(notes, gone) == notes
  {
    if notes == [] {
    } else {
      assert notes[0] in notes;
      DropNothing(notes[1..], gone);
    }
  }

  lemma {:induction false} DropLeavesAppend(a: seq<SpendableNote>, b: seq<SpendableNote>, gone: set<nat>)
    ensures DropLeaves(a + b, gone) == DropLeaves(a, gone) + DropLeaves(b, gone)
  {
    if a == [] {
      assert a + b == b;
    } else {
      assert (a + b)[1..] == a[1..] + b;
      DropLeavesAppend(a[1..], b, gone);
    }
  }

  lemma {:induction false} PositiveAppend(a: seq<SpendableNote>, b: seq<SpendableNote>)
    ensures Positive(a + b) == Positive(a) + Positive(b)
  {
    if a == [] {
      assert a + b == b;
    } else {
      assert (a + b)[1..] == a[1..] + b;
      PositiveAppend(a[1..], b);
    }
  }

  lemma {:induction false} PositiveOfDropped(notes: seq<SpendableNote>, gone: set<nat>)
    ensures Positive(DropLeaves(notes, gone)) == DropLeaves(Positive(notes), gone)
  {
    if notes == [] {
    } else {
      PositiveOfDropped(notes[1..], gone);
      PositiveAppend([notes[0]], DropLeaves(notes[1..], gone));
      DropLeavesAppend([notes[0]], Positive(notes[1..]), gone);
      assert [notes[0]][1..] == [];
    }
  }

  lemma {:induction false} PositiveDistinct(notes: seq<SpendableNote>)
    requires DistinctLeaves(notes)
    ensures DistinctLeaves(Positive(notes))
  {
    if notes == [] {
    } else {
      DistinctTail(notes);
      PositiveDistinct(notes[1..]);
      PositiveFacts(notes[1..]);
      if notes[0].amount > 0 { DistinctCons(notes[0], Positive(notes[1..])); }
    }
  }

  lemma {:induction false} PlaceInDropped(n: SpendableNote, desc: seq<SpendableNote>, gone: set<nat>)
    requires Descending(desc)
    ensures DropLeaves(Place(n, desc), gone)
         == if n.leafIndex in gone then DropLeaves(desc, gone) else Place(n, DropLeaves(desc, gone))
  {
    if desc == [] || n.amount > desc[0].amount {
      DropLeavesAppend([n], desc, gone);
      assert [n][1..] == [];
      DropLeavesMembers(desc, gone);
      var rest := DropLeaves(desc, gone);
      assert rest != [] ==> rest[0] in desc;
    } else {
      PlaceInDropped(n, desc[1..], gone);
      DropLeavesAppend([desc[0]], Place(n, desc[1..]), gone);
      assert [desc[0]][1..] == [];
    }
  }

  /** Taking notes out leaves the others in their arrangement. */
  lemma {:induction false} ArrangedOfDropped(notes: seq<SpendableNote>, gone: set<nat>)
    ensures Arranged(DropLeaves(notes, gone)) == DropLeaves(Arranged(notes), gone)
  {
    if notes == [] {
    } else {
      var init, n := notes[..|notes| - 1], notes[|notes| - 1];
      assert notes == init + [n];
      ArrangedOfDropped(init, gone);
      ArrangedFacts(init);
      PlaceInDropped(n, Arranged(init), gone);
      DropLeavesAppend(init, [n], gone);
      assert [n][1..] == [];
      if n.leafIndex in gone {
        assert DropLeaves(notes, gone) == DropLeaves(init, gone);
      } else {
        ArrangedSnoc(DropLeaves(init, gone), n);
      }
    }
  }

  lemma {:induction false} ArrangedSnoc(notes: seq<SpendableNote>, n: SpendableNote)
    ensures Arranged(notes + [n]) == Place(n, Arranged(notes))
  {
    assert (notes + [n])[..|notes|] == notes;
  }

  // ----- one merge -----

  /** The positive notes, largest first. */
  function LargestFirstOf(notes: seq<SpendableNote>): seq<SpendableNote>
  {
    Arranged(Positive(notes))
  }

  lemma {:induction false} LargestFirstFacts(notes: seq<SpendableNote>)
    ensures var desc := LargestFirstOf(notes);
            && Descending(desc) && Total(desc) == Total(notes) && |desc| == |Positive(notes)|
            && multiset(desc) == multiset(Positive(notes))
            && (forall n :: n in desc <==> n in notes && n.amount > 0)
            && (DistinctLeaves(notes) ==> DistinctLeaves(desc))
  {
    var desc := LargestFirstOf(notes);
    ArrangedFacts(Positive(notes));
    PositiveFacts(notes);
    SameMembers(desc, Positive(notes));
    TotalOfPermutation(desc, Positive(notes));
    if DistinctLeaves(notes) {
      PositiveDistinct(notes);
      Rearranged(Positive(notes), desc);
    }
  }

  /** The joinsplit that pays `change` and `merged` back to the account from two of its notes. */
  function MergeStep(p: SpendableNote, q: SpendableNote, owner: int, change: nat, merged: nat): Step
  {
    TransferStep([p.leafIndex, q.leafIndex], [PoolNote(change, owner), PoolNote(merged, owner)])
  }

  /** The working notes after that joinsplit, its outputs on leaves `at` and `at + 1`. */
  function WorkingAfter(
      working: seq<SpendableNote>, p: SpendableNote, q: SpendableNote, at: nat, change: nat, merged: nat)
    : seq<SpendableNote>
  {
    DropLeaves(working, {p.leafIndex, q.leafIndex}) + [SpendableNote(change, at), SpendableNote(merged, at + 1)]
  }

  /** A merge is legal, changes nobody's balance, and leaves the merged note with the account. */
  lemma {:induction false} MergeKeepsTrack(
      l: Ledger, owner: int, p: SpendableNote, q: SpendableNote, change: nat, merged: nat)
    requires WellFormed(l) && Genuine(l, owner, p) && Genuine(l, owner, q) && p.leafIndex != q.leafIndex
    requires change + merged == p.amount + q.amount
    ensures var s := MergeStep(p, q, owner, change, merged);
            && Legal(l, s) && WellFormed(Apply(l, s)) && |Apply(l, s).leaves| == |l.leaves| + 2
            && (forall who :: Value(Apply(l, s), who) == Value(l, who))
            && Genuine(Apply(l, s), owner, SpendableNote(merged, |l.leaves| + 1))
  {
    var s := MergeStep(p, q, owner, change, merged);
    MergeIsNeutral(l, owner, p, q, change, merged, None);
    forall who ensures Value(Apply(l, s), who) == Value(l, who) {
      StepMovesValue(l, s, who);
      MergeIsNeutral(l, owner, p, q, change, merged, who);
    }
    StepMovesValue(l, s, None);
    assert AllOf([p.leafIndex, q.leafIndex]) == {p.leafIndex, q.leafIndex};
  }

  lemma {:induction false} MergeIsNeutral(
      l: Ledger, owner: int, p: SpendableNote, q: SpendableNote, change: nat, merged: nat,
      who: Option<int>)
    requires Genuine(l, owner, p) && Genuine(l, owner, q)
    requires change + merged == p.amount + q.amount
    ensures var s := MergeStep(p, q, owner, change, merged);
            InputValue(l, s.inputs, who) == OutputValue(s.outputs, who)
  {
    var s := MergeStep(p, q, owner, change, merged);
    assert s.inputs[1..] == [q.leafIndex] && [q.leafIndex][1..] == [];
    assert s.outputs[1..] == [PoolNote(merged, owner)] && [PoolNote(merged, owner)][1..] == [];
    assert InputValue(l, [q.leafIndex], who) == Share(l.leaves[q.leafIndex], who);
    assert OutputValue([PoolNote(merged, owner)], who) == Share(PoolNote(merged, owner), who);
  }

  /** To other notes that were there before, a merge does nothing. */
  lemma {:induction false} MergeSparesOthers(
      l: Ledger, owner: int, p: SpendableNote, q: SpendableNote, change: nat, merged: nat, n: SpendableNote)
    requires n.leafIndex < |l.leaves| && n.leafIndex != p.leafIndex && n.leafIndex != q.leafIndex
    ensures Genuine(Apply(l, MergeStep(p, q, owner, change, merged)), owner, n) <==> Genuine(l, owner, n)
  {
    assert AllOf([p.leafIndex, q.leafIndex]) == {p.leafIndex, q.leafIndex};
  }

  /** Notes on distinct leaves before leaf `end`. */
  ghost predicate SpreadBelow(notes: seq<SpendableNote>, end: nat)
  {
    DistinctLeaves(notes) && forall n :: n in notes ==> n.leafIndex < end
  }

  lemma {:induction false} WorkingStaysSpread(
      working: seq<SpendableNote>, p: SpendableNote, q: SpendableNote, at: nat, change: nat, merged: nat)
    requires SpreadBelow(working, at)
    ensures SpreadBelow(WorkingAfter(working, p, q, at, change, merged), at + 2)
  {
    var kept := DropLeaves(working, {p.leafIndex, q.leafIndex});
    DropLeavesMembers(working, {p.leafIndex, q.leafIndex});
    DropLeavesDistinct(working, {p.leafIndex, q.leafIndex});
    var a, b := SpendableNote(change, at), SpendableNote(merged, at + 1);
    DistinctSnoc(kept, a);
    DistinctSnoc(kept + [a], b);
    assert kept + [a] + [b] == kept + [a, b];
  }

  // ----- how far the merging has come -----

  /** The note in front after `i` merges of `desc` in a pool that had `first` leaves: the first of the notes,
      and then always the one that was made. */
  function Front(desc: seq<SpendableNote>, first: nat, i: nat): SpendableNote
    requires i < |desc|
  {
    if i == 0 then desc[0] else SpendableNote(Total(desc[..i + 1]), first + 2 * i - 1)
  }

  lemma {:induction false} FrontIsSum(desc: seq<SpendableNote>, first: nat, i: nat)
    requires i < |desc|
    ensures Front(desc, first, i).amount == Total(desc[..i + 1])
  {
    TotalPrefixStep(desc, 0);
  }

  /** The positive notes, largest first, after `i` merges: the `i + 1` largest have become one note, and the
      others are still there. */
  function Standing(desc: seq<SpendableNote>, first: nat, i: nat): seq<SpendableNote>
    requires i < |desc|
  {
    [Front(desc, first, i)] + desc[i + 1..]
  }

  lemma {:induction false} StandingTotal(desc: seq<SpendableNote>, first: nat, i: nat)
    requires i < |desc|
    ensures Total(Standing(desc, first, i)) == Total(desc)
  {
    FrontIsSum(desc, first, i);
    TotalSplit(desc, i + 1);
    TotalAppend([Front(desc, first, i)], desc[i + 1..]);
    assert Total([Front(desc, first, i)]) == Front(desc, first, i).amount;
  }

  /** Merging the two largest positive notes for good makes one note of them, and the next are as before. */
  lemma {:induction false} TopPair(working: seq<SpendableNote>, p: SpendableNote, q: SpendableNote, at: nat)
    requires DistinctLeaves(working) && |LargestFirstOf(working)| >= 2
    requires p == LargestFirstOf(working)[0] && q == LargestFirstOf(working)[1]
    ensures LargestFirstOf(WorkingAfter(working, p, q, at, 0, p.amount + q.amount))
         == [SpendableNote(p.amount + q.amount, at + 1)] + LargestFirstOf(working)[2..]
  {
    var desc, gone := LargestFirstOf(working), {p.leafIndex, q.leafIndex};
    var empty, sum := SpendableNote(0, at), SpendableNote(p.amount + q.amount, at + 1);
    LargestFirstFacts(working);
    assert p in desc && q in desc;
    DropTopTwo(desc);
    PositiveOfDropped(working, gone);
    ArrangedOfDropped(Positive(working), gone);
    PositiveAppend(DropLeaves(working, gone), [empty, sum]);
    assert [empty, sum][1..] == [sum] && [sum][1..] == [];
    assert Positive([sum]) == [sum];
    ArrangedSnoc(Positive(DropLeaves(working, gone)), sum);
  }

  lemma {:induction false} DropTopTwo(desc: seq<SpendableNote>)
    requires DistinctLeaves(desc) && |desc| >= 2
    ensures DropLeaves(desc, {desc[0].leafIndex, desc[1].leafIndex}) == desc[2..]
  {
    var gone := {desc[0].leafIndex, desc[1].leafIndex};
    assert desc == [desc[0], desc[1]] + desc[2..];
    DropLeavesAppend([desc[0], desc[1]], desc[2..], gone);
    assert [desc[0], desc[1]][1..] == [desc[1]] && [desc[1]][1..] == [];
    assert DropLeaves([desc[1]], gone) == [];
    forall n | n in desc[2..] ensures n.leafIndex !in gone {
      var k: nat :| 2 <= k < |desc| && desc[k] == n;
      LeavesApart(desc, 0, k);
      LeavesApart(desc, 1, k);
    }
    DropNothing(desc[2..], gone);
  }

  /** What merge `i` makes: the amount asked for if there is enough, otherwise everything, and the rest. */
  function MergedAmount(amount: nat, desc: seq<SpendableNote>, i: nat): nat
    requires i <= |desc|
  {
    if Total(desc[..i]) >= amount then amount else Total(desc[..i])
  }

  /** Two notes merged: the amount asked for if they cover it, otherwise all they are worth, and the rest. */
  function PairMerge(owner: int, amount: nat, p: SpendableNote, q: SpendableNote): Step
  {
    var total := p.amount + q.amount;
    var merged := if total >= amount then amount else total;
    MergeStep(p, q, owner, total - merged, merged)
  }

  /** Merge `i`: the two notes in front. */
  function MergeAt(owner: int, amount: nat, desc: seq<SpendableNote>, first: nat, i: nat): Step
    requires i + 1 < |desc|
  {
    PairMerge(owner, amount, Front(desc, first, i), desc[i + 1])
  }

  /** The first `i` merges. */
  function MergesOf(owner: int, amount: nat, desc: seq<SpendableNote>, first: nat, i: nat): (r: seq<Step>)
    requires i == 0 || i < |desc|
    ensures |r| == i
  {
    if i == 0 then [] else MergesOf(owner, amount, desc, first, i - 1) + [MergeAt(owner, amount, desc, first, i - 1)]
  }

  /** The pool after the first `i` merges. */
  function MergedPool(l: Ledger, owner: int, amount: nat, desc: seq<SpendableNote>, i: nat): Ledger
    requires i == 0 || i < |desc|
  {
    Run(l, MergesOf(owner, amount, desc, |l.leaves|, i))
  }

  /** Both notes of merge `i` can be spent when its turn comes. */
  predicate PairProvable(l: Ledger, owner: int, amount: nat, desc: seq<SpendableNote>, i: nat, can: Prover)
    requires i + 1 < |desc|
  {
    var now := MergedPool(l, owner, amount, desc, i);
    can(now, Front(desc, |l.leaves|, i)) && can(now, desc[i + 1])
  }

  ghost predicate PairsProvable(l: Ledger, owner: int, amount: nat, desc: seq<SpendableNote>, n: nat, can: Prover)
    requires n == 0 || n < |desc|
  {
    forall i: nat {:trigger PairProvable(l, owner, amount, desc, i, can)} ::
      i < n ==> PairProvable(l, owner, amount, desc, i, can)
  }

  /** The note that merge `i` has left on the last leaf. */
  function LastMerged(l: Ledger, amount: nat, desc: seq<SpendableNote>, i: nat): SpendableNote
    requires 0 < i < |desc|
  {
    SpendableNote(MergedAmount(amount, desc, i + 1), |l.leaves| + 2 * i - 1)
  }

  /** A legal run that moves no value. */
  ghost predicate Neutral(l: Ledger, steps: seq<Step>, now: Ledger)
  {
    && LegalRun(l, steps) && now == Run(l, steps) && WellFormed(now)
    && Deposited(steps) == 0 && Withdrawn(steps) == 0 && Unmoved(l, now)
  }

  lemma {:induction false} NeutralMore(
      l: Ledger, steps: seq<Step>, now: Ledger, owner: int, p: SpendableNote, q: SpendableNote, change: nat,
      merged: nat)
    requires Neutral(l, steps, now) && Genuine(now, owner, p) && Genuine(now, owner, q) && p.leafIndex != q.leafIndex
    requires change + merged == p.amount + q.amount
    ensures var s := MergeStep(p, q, owner, change, merged); Neutral(l, steps + [s], Apply(now, s))
  {
    RunSnoc(l, steps, MergeStep(p, q, owner, change, merged));
    MergeKeepsTrack(now, owner, p, q, change, merged);
  }

  /** After `i` merges that could all be spent, `front` the last note made: the run is legal and moved no
      value, that note is the account's, and the notes not used yet are what they were. */
  ghost predicate MergedSoFar(
      l: Ledger, owner: int, desc: seq<SpendableNote>, i: nat, steps: seq<Step>, now: Ledger, front: SpendableNote)
  {
    && (i == 0 || i < |desc|) && Neutral(l, steps, now) && |now.leaves| == |l.leaves| + 2 * i
    && (i > 0 ==> Genuine(now, owner, front) && AllGenuine(l, owner, desc[..i + 1]))
    && Unused(l, owner, now, desc, i)
  }

  ghost predicate Unused(l: Ledger, owner: int, now: Ledger, desc: seq<SpendableNote>, i: nat)
  {
    forall j {:trigger desc[j]} :: (if i == 0 then 0 else i + 1) <= j < |desc| ==>
      (Genuine(now, owner, desc[j]) <==> Genuine(l, owner, desc[j]))
  }

  lemma {:induction false} MergesAreLegal(
      l: Ledger, owner: int, amount: nat, desc: seq<SpendableNote>, i: nat, can: Prover)
    requires WellFormed(l) && OnLeaves(l, desc) && SoundFor(can, owner)
    requires i == 0 || (i < |desc| && Total(desc[..i]) < amount)
    requires PairsProvable(l, owner, amount, desc, i, can)
    ensures MergedSoFar(l, owner, desc, i, MergesOf(owner, amount, desc, |l.leaves|, i),
              MergedPool(l, owner, amount, desc, i), FrontAfter(l, amount, desc, i))
  {
    if i == 0 {
    } else {
      TotalPrefixMonotone(desc, i - 1, i);
      MergesAreLegal(l, owner, amount, desc, i - 1, can);
      assert PairProvable(l, owner, amount, desc, i - 1, can);
      OneMoreLegal(l, owner, amount, desc, i - 1, can, MergesOf(owner, amount, desc, |l.leaves|, i - 1),
        MergedPool(l, owner, amount, desc, i - 1));
    }
  }

  lemma {:induction false} OneMoreLegal(
      l: Ledger, owner: int, amount: nat, desc: seq<SpendableNote>, i: nat, can: Prover, steps: seq<Step>, now: Ledger)
    requires OnLeaves(l, desc) && SoundFor(can, owner) && i + 1 < |desc| && Total(desc[..i + 1]) < amount
    requires steps == MergesOf(owner, amount, desc, |l.leaves|, i) && now == MergedPool(l, owner, amount, desc, i)
    requires MergedSoFar(l, owner, desc, i, steps, now, FrontAfter(l, amount, desc, i))
    requires PairProvable(l, owner, amount, desc, i, can)
    ensures MergedSoFar(l, owner, desc, i + 1, MergesOf(owner, amount, desc, |l.leaves|, i + 1),
              MergedPool(l, owner, amount, desc, i + 1), FrontAfter(l, amount, desc, i + 1))
  {
    var p, q, made := Front(desc, |l.leaves|, i), desc[i + 1], LastMerged(l, amount, desc, i + 1);
    MergeAtIs(l, owner, amount, desc, i);
    MergeAdds(l, owner, amount, desc, i);
    OneMoreMerge(l, owner, desc, i, steps, now, p, q, FrontAfter(l, amount, desc, i), p.amount + q.amount - made.amount,
      made);
  }

  /** What a merge makes of the two notes in front. */
  lemma {:induction false} MergeAtIs(l: Ledger, owner: int, amount: nat, desc: seq<SpendableNote>, i: nat)
    requires OnLeaves(l, desc) && i + 1 < |desc| && Total(desc[..i + 1]) < amount
    ensures var p, q, made := Front(desc, |l.leaves|, i), desc[i + 1], LastMerged(l, amount, desc, i + 1);
            && p.amount + q.amount >= made.amount && made.leafIndex == |l.leaves| + 2 * i + 1
            && MergeAt(owner, amount, desc, |l.leaves|, i)
               == MergeStep(p, q, owner, p.amount + q.amount - made.amount, made.amount)
            && p.leafIndex != q.leafIndex && if i == 0 then p == desc[0] else p.leafIndex >= |l.leaves|
  {
    PairFacts(l, amount, desc, i);
  }

  function FrontAfter(l: Ledger, amount: nat, desc: seq<SpendableNote>, i: nat): SpendableNote
    requires i == 0 || i < |desc|
  {
    if i == 0 then SpendableNote(0, 0) else LastMerged(l, amount, desc, i)
  }

  lemma {:induction false} MergeAdds(l: Ledger, owner: int, amount: nat, desc: seq<SpendableNote>, i: nat)
    requires i + 1 < |desc|
    ensures var s := MergeAt(owner, amount, desc, |l.leaves|, i);
            && MergesOf(owner, amount, desc, |l.leaves|, i + 1) == MergesOf(owner, amount, desc, |l.leaves|, i) + [s]
            && MergedPool(l, owner, amount, desc, i + 1) == Apply(MergedPool(l, owner, amount, desc, i), s)
  {
    var init := MergesOf(owner, amount, desc, |l.leaves|, i);
    RunSnoc(l, init, MergeAt(owner, amount, desc, |l.leaves|, i));
  }

  lemma {:induction false} OneMoreMerge(
      l: Ledger, owner: int, desc: seq<SpendableNote>, i: nat, steps: seq<Step>, now: Ledger, p: SpendableNote,
      q: SpendableNote, front: SpendableNote, change: nat, made: SpendableNote)
    requires OnLeaves(l, desc) && i + 1 < |desc| && MergedSoFar(l, owner, desc, i, steps, now, front)
    requires Genuine(now, owner, p) && Genuine(now, owner, q) && p.leafIndex != q.leafIndex
    requires q == desc[i + 1] && if i == 0 then p == desc[0] else p.leafIndex >= |l.leaves|
    requires change + made.amount == p.amount + q.amount && made.leafIndex == |now.leaves| + 1
    ensures var s := MergeStep(p, q, owner, change, made.amount);
            MergedSoFar(l, owner, desc, i + 1, steps + [s], Apply(now, s), made)
  {
    var s := MergeStep(p, q, owner, change, made.amount);
    NeutralMore(l, steps, now, owner, p, q, change, made.amount);
    MergeKeepsTrack(now, owner, p, q, change, made.amount);
    NextIsUnused(l, owner, desc, i, now, p, q, change, made.amount);
    GenuineMore(l, owner, desc, i);
    MergedNext(l, owner, desc, i + 1, steps + [s], Apply(now, s), made);
  }

  lemma {:induction false} MergedNext(
      l: Ledger, owner: int, desc: seq<SpendableNote>, i: nat, steps: seq<Step>, now: Ledger, front: SpendableNote)
    requires 0 < i < |desc| && Neutral(l, steps, now) && |now.leaves| == |l.leaves| + 2 * i
    requires Genuine(now, owner, front) && AllGenuine(l, owner, desc[..i + 1]) && Unused(l, owner, now, desc, i)
    ensures MergedSoFar(l, owner, desc, i, steps, now, front)
  {
  }

  lemma {:induction false} GenuineMore(l: Ledger, owner: int, desc: seq<SpendableNote>, i: nat)
    requires i + 1 < |desc| && Genuine(l, owner, desc[i + 1])
    requires if i == 0 then Genuine(l, owner, desc[0]) else AllGenuine(l, owner, desc[..i + 1])
    ensures AllGenuine(l, owner, desc[..i + 2])
  {
    var more := desc[..i + 2];
    forall k | 0 <= k < |more| ensures Genuine(l, owner, more[k]) {
      if 0 < i && k <= i {
        assert desc[..i + 1][k] == desc[k];
      }
    }
  }

  /** The two notes in front lie on different leaves, and what they make is the next in front. */
  lemma {:induction false} PairFacts(l: Ledger, amount: nat, desc: seq<SpendableNote>, i: nat)
    requires OnLeaves(l, desc) && i + 1 < |desc| && Total(desc[..i + 1]) < amount
    ensures var p, q := Front(desc, |l.leaves|, i), desc[i + 1];
            && p.leafIndex != q.leafIndex && p.amount + q.amount == Total(desc[..i + 2])
            && p == (if i == 0 then desc[0] else LastMerged(l, amount, desc, i))
            && (i > 0 ==> p.leafIndex >= |l.leaves|)
            && LastMerged(l, amount, desc, i + 1)
               == SpendableNote(if p.amount + q.amount >= amount then amount else p.amount + q.amount,
                    |l.leaves| + 2 * i + 1)
  {
    assert desc[i + 1] in desc;
    if i == 0 { LeavesApart(desc, 0, 1); }
    FrontIsSum(desc, |l.leaves|, i);
    TotalPrefixStep(desc, i + 1);
  }

  lemma {:induction false} NextIsUnused(
      l: Ledger, owner: int, desc: seq<SpendableNote>, i: nat, now: Ledger, p: SpendableNote, q: SpendableNote,
      change: nat, merged: nat)
    requires OnLeaves(l, desc) && i + 1 < |desc| && |l.leaves| <= |now.leaves| && Unused(l, owner, now, desc, i)
    requires q == desc[i + 1] && if i == 0 then p == desc[0] else p.leafIndex >= |l.leaves|
    requires Genuine(now, owner, p) && Genuine(now, owner, q)
    ensures Unused(l, owner, Apply(now, MergeStep(p, q, owner, change, merged)), desc, i + 1)
    ensures i == 0 ==> Genuine(l, owner, desc[0])
    ensures Genuine(l, owner, desc[i + 1])
  {
    forall j {:trigger desc[j]} | i + 2 <= j < |desc|
      ensures Genuine(Apply(now, MergeStep(p, q, owner, change, merged)), owner, desc[j]) <==>
              Genuine(l, owner, desc[j])
    {
      assert desc[j] in desc;
      assert LeavesDiffer(desc, i + 1, j) && LeavesDiffer(desc, 0, j);
      MergeSparesOthers(now, owner, p, q, change, merged, desc[j]);
    }
  }

  // ----- the smallest cover -----

  ghost predicate SmallestCover(notes: seq<SpendableNote>, amount: nat, k: nat)
  {
    && (exists pick {:trigger Covers(pick, notes, amount)} :: Covers(pick, notes, amount) && |pick| == k)
    && (forall pick {:trigger Covers(pick, notes, amount)} :: Covers(pick, notes, amount) ==> |pick| >= k)
  }

  lemma {:induction false} PositiveMembers(notes: seq<SpendableNote>, x: SpendableNote)
    ensures multiset(Positive(notes))[x] == if x.amount > 0 then multiset(notes)[x] else 0
  {
    if notes == [] {
    } else {
      assert notes == [notes[0]] + notes[1..];
      PositiveMembers(notes[1..], x);
    }
  }

  lemma {:induction false} PositivePicks(pick: seq<SpendableNote>, notes: seq<SpendableNote>)
    requires Picks(pick, notes)
    ensures Picks(Positive(pick), Positive(notes)) && Picks(Positive(notes), notes)
  {
    forall x ensures multiset(Positive(pick))[x] <= multiset(Positive(notes))[x] <= multiset(notes)[x] {
      PositiveMembers(pick, x);
      PositiveMembers(notes, x);
    }
  }

  /** The first prefix of the largest-first positive notes that pays is a smallest cover. */
  lemma {:induction false} PrefixIsSmallestCover(
      notes: seq<SpendableNote>, desc: seq<SpendableNote>, amount: nat, k: nat)
    requires multiset(desc) == multiset(Positive(notes)) && Descending(desc)
    requires 0 < k <= |desc| && Total(desc[..k - 1]) < amount <= Total(desc[..k])
    ensures SmallestCover(notes, amount, k)
  {
    PositivePicks(notes, notes);
    PrefixPick(desc, k);
    assert Covers(desc[..k], notes, amount);
    forall pick | Covers(pick, notes, amount) ensures |pick| >= k {
      PositivePicks(pick, notes);
      PositiveFacts(pick);
      LargestFirstDominates(desc, Positive(pick));
      if |Positive(pick)| <= k - 1 { TotalPrefixMonotone(desc, |Positive(pick)|, k - 1); }
    }
  }

  /** How many of the notes, from the front, pay for the amount. */
  function CoverSize(desc: seq<SpendableNote>, amount: nat, from: nat): (k: nat)
    requires from <= |desc|
    ensures from <= k <= |desc|
    decreases |desc| - from
  {
    if from == |desc| || Total(desc[..from]) >= amount then from else CoverSize(desc, amount, from + 1)
  }

  lemma {:induction false} CoverSizeIs(desc: seq<SpendableNote>, amount: nat, from: nat, k: nat)
    requires from <= k <= |desc| && Total(desc[..k]) >= amount && (k > 0 ==> Total(desc[..k - 1]) < amount)
    ensures CoverSize(desc, amount, from) == k
    decreases k - from
  {
    if from == k {
    } else {
      TotalPrefixMonotone(desc, from, k - 1);
      CoverSizeIs(desc, amount, from + 1, k);
    }
  }

  // ----- unshield -----

  /** What is shown suffices for the amount. */
  ghost predicate Suffices(shown: seq<SpendableNote>, amount: nat)
  {
    if amount > 0 then Total(shown) >= amount else shown != []
  }

  /** One of the notes shown covers the amount. */
  ghost predicate OneCovers(shown: seq<SpendableNote>, amount: nat)
  {
    exists n :: n in shown && n.amount >= amount
  }

  /** What is shown suffices, and no note does alone. */
  ghost predicate NeedsMerging(shown: seq<SpendableNote>, amount: nat)
  {
    Suffices(shown, amount) && !OneCovers(shown, amount)
  }

  function RefusalReason(shown: seq<SpendableNote>): FlowError
  {
    if |Positive(shown)| >= 2 then InsufficientBalance else TooFragmented
  }

  /** `n` is a smallest of the notes that cover the amount. */
  ghost predicate SmallestCovering(notes: seq<SpendableNote>, amount: nat, n: SpendableNote)
  {
    && n in notes && n.amount >= amount
    && forall m :: m in notes && m.amount >= amount ==> n.amount <= m.amount
  }

  /** A smallest note that covers pays, with no merge, unless that very note cannot be spent. */
  ghost predicate PaidByOne(
      l: Ledger, owner: int, amount: nat, shown: seq<SpendableNote>, can: Prover, steps: seq<Step>,
      r: Result<UnshieldReceipt, FlowError>)
  {
    exists n {:trigger SmallestCovering(shown, amount, n)} :: SmallestCovering(shown, amount, n) &&
      if can(l, n) then r == Success(UnshieldReceipt(n, 0)) && steps == [PayOut(owner, amount, n)]
      else r == Failure(CannotSpend) && steps == []
  }

  /** The notes of a smallest cover, largest first, are merged one after another, as long as the two in front
      can be spent; and if all are merged, the last merged note pays, unless it cannot be spent. */
  ghost predicate PaidByMerging(
      l: Ledger, owner: int, amount: nat, desc: seq<SpendableNote>, can: Prover, steps: seq<Step>,
      r: Result<UnshieldReceipt, FlowError>)
  {
    var merges := CoverSize(desc, amount, 0) - 1;
    && 0 < merges < |desc| && Total(desc[..merges]) < amount <= Total(desc[..merges + 1])
    && if r.Failure? then r.error == CannotSpend && StoppedMerging(l, owner, amount, desc, can, merges, steps)
       else
         var n := LastMerged(l, amount, desc, merges);
         && PairsProvable(l, owner, amount, desc, merges, can)
         && n.amount == amount && can(MergedPool(l, owner, amount, desc, merges), n)
         && r.value == UnshieldReceipt(n, merges)
         && steps == MergesOf(owner, amount, desc, |l.leaves|, merges) + [PayOut(owner, amount, n)]
  }

  /** Stopped at the first merge whose notes cannot both be spent, or at the merged note. */
  ghost predicate StoppedMerging(
      l: Ledger, owner: int, amount: nat, desc: seq<SpendableNote>, can: Prover, merges: nat, steps: seq<Step>)
    requires 0 < merges < |desc|
  {
    var done := |steps|;
    && done <= merges && steps == MergesOf(owner, amount, desc, |l.leaves|, done)
    && PairsProvable(l, owner, amount, desc, done, can)
    && if done < merges then !PairProvable(l, owner, amount, desc, done, can)
       else !can(MergedPool(l, owner, amount, desc, merges), LastMerged(l, amount, desc, merges))
  }

  /** Unshield `amount` to a public address out of the notes shown to the account: the steps submitted,
      and the receipt or the reason.

      A refusal for lack of funds submits nothing.  Otherwise a smallest covering note pays, or a smallest
      cover is merged, largest first; only a note used in this can be in the way, and if every live note
      can be spent, nothing is in the way exactly if the notes used are the account's. */
  method Unshield(l: Ledger, owner: int, amount: nat, shown: seq<SpendableNote>, can: Prover)
    returns (steps: seq<Step>, r: Result<UnshieldReceipt, FlowError>)
    requires WellFormed(l) && OnLeaves(l, shown) && SoundFor(can, owner)
    ensures Unshields(l, owner, amount, shown, can, steps, r)
    ensures LegalRun(l, steps) && WellFormed(Run(l, steps)) && Deposited(steps) == 0
    ensures r.Failure? ==> Withdrawn(steps) == 0 && Unmoved(l, Run(l, steps))
    ensures r.Success? ==> |steps| == r.value.merges + 1 && Withdrawn(steps) == amount
    ensures r.Success? ==> PaidOut(l, Run(l, steps), owner, amount)
    ensures r.Success? && amount > 0 ==> SmallestCover(shown, amount, r.value.merges + 1)
    ensures NeedsMerging(shown, amount) && SpendsAll(can, owner) ==>
              (r.Success? <==> AllGenuine(l, owner, NotesUsed(shown, amount)))
  {
    var input, merges;
    steps, input, merges := Consolidate(l, owner, amount, shown, can);
    ConsolidatedIsLegal(l, owner, amount, shown, can, steps, input, merges);
    Concluded(l, owner, amount, shown, can, steps, input, merges);
    if input.Failure? {
      r := Failure(input.error);
    } else if !can(Run(l, steps), input.value) {
      r := Failure(CannotSpend);
    } else {
      PayOutCompletes(l, owner, amount, steps, input.value);
      r := Success(UnshieldReceipt(input.value, merges));
      steps := steps + [PayOut(owner, amount, input.value)];
    }
    if NeedsMerging(shown, amount) && SpendsAll(can, owner) {
      ShownFacts(l, shown);
      OnlyUsedNotesMatter(l, owner, amount, LargestFirstOf(shown), can, steps, r);
    }
  }

  /** From the consolidation to the outcome. */
  lemma {:induction false} Concluded(
      l: Ledger, owner: int, amount: nat, shown: seq<SpendableNote>, can: Prover, steps: seq<Step>,
      input: Result<SpendableNote, FlowError>, merges: nat)
    requires Consolidated(l, owner, amount, shown, LargestFirstOf(shown), can, steps, input, merges)
    requires input.Success? ==> input.value.amount >= amount
    ensures input.Failure? ==> Unshields(l, owner, amount, shown, can, steps, Failure(input.error))
    ensures input.Success? && !can(Run(l, steps), input.value) ==>
              Unshields(l, owner, amount, shown, can, steps, Failure(CannotSpend))
    ensures input.Success? && can(Run(l, steps), input.value) ==>
              Unshields(l, owner, amount, shown, can, steps + [PayOut(owner, amount, input.value)],
                Success(UnshieldReceipt(input.value, merges)))
  {
    if Suffices(shown, amount) && OneCovers(shown, amount) {
      assert [] + [PayOut(owner, amount, input.value)] == [PayOut(owner, amount, input.value)];
    } else if Suffices(shown, amount) {
      ConcludedByMerging(l, owner, amount, LargestFirstOf(shown), can, steps, input, merges);
    }
  }

  lemma {:induction false} ConcludedByMerging(
      l: Ledger, owner: int, amount: nat, desc: seq<SpendableNote>, can: Prover, steps: seq<Step>,
      input: Result<SpendableNote, FlowError>, merges: nat)
    requires ConsolidatedByMerging(l, owner, amount, desc, can, steps, input, merges)
    requires input.Success? ==> input.value.amount >= amount
    ensures input.Failure? ==> PaidByMerging(l, owner, amount, desc, can, steps, Failure(input.error))
    ensures input.Success? && !can(Run(l, steps), input.value) ==>
              PaidByMerging(l, owner, amount, desc, can, steps, Failure(CannotSpend))
    ensures input.Success? && can(Run(l, steps), input.value) ==>
              PaidByMerging(l, owner, amount, desc, can, steps + [PayOut(owner, amount, input.value)],
                Success(UnshieldReceipt(input.value, merges)))
  {
  }

  ghost predicate Unshields(
      l: Ledger, owner: int, amount: nat, shown: seq<SpendableNote>, can: Prover, steps: seq<Step>,
      r: Result<UnshieldReceipt, FlowError>)
  {
    if !Suffices(shown, amount) then steps == [] && r == Failure(RefusalReason(shown))
    else if OneCovers(shown, amount) then PaidByOne(l, owner, amount, shown, can, steps, r)
    else PaidByMerging(l, owner, amount, LargestFirstOf(shown), can, steps, r)
  }

  /** The notes of the smallest cover that is merged. */
  function NotesUsed(shown: seq<SpendableNote>, amount: nat): seq<SpendableNote>
  {
    LargestFirstOf(shown)[..CoverSize(LargestFirstOf(shown), amount, 0)]
  }

  /** What the consolidation comes to: the note to withdraw from, or why there is none. */
  ghost predicate Consolidated(
      l: Ledger, owner: int, amount: nat, shown: seq<SpendableNote>, desc: seq<SpendableNote>, can: Prover,
      steps: seq<Step>, input: Result<SpendableNote, FlowError>, merges: nat)
  {
    if !Suffices(shown, amount) then steps == [] && merges == 0 && input == Failure(RefusalReason(shown))
    else if OneCovers(shown, amount) then
      steps == [] && merges == 0 && input.Success? && SmallestCovering(shown, amount, input.value)
    else ConsolidatedByMerging(l, owner, amount, desc, can, steps, input, merges)
  }

  ghost predicate ConsolidatedByMerging(
      l: Ledger, owner: int, amount: nat, desc: seq<SpendableNote>, can: Prover, steps: seq<Step>,
      input: Result<SpendableNote, FlowError>, merges: nat)
  {
    var all := CoverSize(desc, amount, 0) - 1;
    && 0 < all < |desc| && merges <= all && Total(desc[..all]) < amount <= Total(desc[..all + 1])
    && steps == MergesOf(owner, amount, desc, |l.leaves|, merges) && PairsProvable(l, owner, amount, desc, merges, can)
    && if merges == all then input == Success(LastMerged(l, amount, desc, all))
       else input == Failure(CannotSpend) && !PairProvable(l, owner, amount, desc, merges, can)
  }

  lemma {:induction false} ConsolidatedIsLegal(
      l: Ledger, owner: int, amount: nat, shown: seq<SpendableNote>, can: Prover, steps: seq<Step>,
      input: Result<SpendableNote, FlowError>, merges: nat)
    requires WellFormed(l) && OnLeaves(l, shown) && SoundFor(can, owner)
    requires Consolidated(l, owner, amount, shown, LargestFirstOf(shown), can, steps, input, merges)
    ensures LegalRun(l, steps) && WellFormed(Run(l, steps)) && Deposited(steps) == 0 && Withdrawn(steps) == 0
    ensures Unmoved(l, Run(l, steps)) && |steps| == merges && (input.Success? ==> input.value.amount >= amount)
    ensures input.Success? && amount > 0 ==> SmallestCover(shown, amount, merges + 1)
  {
    var desc := LargestFirstOf(shown);
    LargestFirstFacts(shown);
    if Suffices(shown, amount) && OneCovers(shown, amount) {
      CoveredByOne(shown, amount);
    } else if Suffices(shown, amount) {
      TotalPrefixMonotone(desc, merges, CoverSize(desc, amount, 0) - 1);
      MergesAreLegal(l, owner, amount, desc, merges, can);
      if input.Success? { PrefixIsSmallestCover(shown, desc, amount, merges + 1); }
    }
  }

  lemma {:induction false} CoveredByOne(shown: seq<SpendableNote>, amount: nat)
    requires OneCovers(shown, amount)
    ensures amount > 0 ==> SmallestCover(shown, amount, 1)
  {
    var desc := LargestFirstOf(shown);
    LargestFirstFacts(shown);
    if amount > 0 {
      var n :| n in shown && n.amount >= amount;
      assert n in desc;
      TotalPrefixStep(desc, 0);
      PrefixIsSmallestCover(shown, desc, amount, 1);
    }
  }

  /** Paying out of that note completes a legal run that takes the amount from the account. */
  lemma {:induction false} PayOutCompletes(l: Ledger, owner: int, amount: nat, steps: seq<Step>, n: SpendableNote)
    requires LegalRun(l, steps) && WellFormed(Run(l, steps)) && Deposited(steps) == 0 && Withdrawn(steps) == 0
    requires Unmoved(l, Run(l, steps)) && Genuine(Run(l, steps), owner, n) && n.amount >= amount
    ensures var all := steps + [PayOut(owner, amount, n)];
            && LegalRun(l, all) && WellFormed(Run(l, all)) && Deposited(all) == 0 && Withdrawn(all) == amount
            && PaidOut(l, Run(l, all), owner, amount)
  {
    var now := Run(l, steps);
    PayOutIsLegal(now, owner, amount, n);
    RunSnoc(l, steps, PayOut(owner, amount, n));
    forall who {:trigger Value(l, who)} ensures Value(now, who) == Value(l, who) {
    }
  }

  /** If every live note can be spent, the notes used decide. */
  lemma {:induction false} OnlyUsedNotesMatter(
      l: Ledger, owner: int, amount: nat, desc: seq<SpendableNote>, can: Prover, steps: seq<Step>,
      r: Result<UnshieldReceipt, FlowError>)
    requires WellFormed(l) && OnLeaves(l, desc) && SoundFor(can, owner) && SpendsAll(can, owner)
    requires PaidByMerging(l, owner, amount, desc, can, steps, r)
    ensures r.Success? <==> AllGenuine(l, owner, desc[..CoverSize(desc, amount, 0)])
  {
    var merges := CoverSize(desc, amount, 0) - 1;
    UsedNotesDecide(l, owner, amount, desc, can, merges);
    if r.Failure? && PairsProvable(l, owner, amount, desc, merges, can) {
      StoppedByAUsedNote(l, owner, amount, desc, can, merges, steps);
    }
  }

  /** All merges can be spent exactly if the notes they use up are the account's. */
  lemma {:induction false} UsedNotesDecide(
      l: Ledger, owner: int, amount: nat, desc: seq<SpendableNote>, can: Prover, i: nat)
    requires WellFormed(l) && OnLeaves(l, desc) && SoundFor(can, owner) && SpendsAll(can, owner)
    requires 0 < i < |desc| && Total(desc[..i]) < amount
    ensures PairsProvable(l, owner, amount, desc, i, can) <==> AllGenuine(l, owner, desc[..i + 1])
    ensures PairsProvable(l, owner, amount, desc, i, can) ==>
              can(MergedPool(l, owner, amount, desc, i), LastMerged(l, amount, desc, i))
    decreases i
  {
    if PairsProvable(l, owner, amount, desc, i, can) {
      MergesAreLegal(l, owner, amount, desc, i, can);
    } else if AllGenuine(l, owner, desc[..i + 1]) {
      TotalPrefixMonotone(desc, i - 1, i);
      if i > 1 {
        assert AllGenuine(l, owner, desc[..i]) by {
          assert forall k :: 0 <= k < i ==> desc[..i][k] == desc[..i + 1][k];
        }
        UsedNotesDecide(l, owner, amount, desc, can, i - 1);
      }
      NextPairProvable(l, owner, amount, desc, can, i - 1);
      assert false;
    }
  }

  /** Once the notes before have been merged, the next merge can be spent if its notes are the account's. */
  lemma {:induction false} NextPairProvable(
      l: Ledger, owner: int, amount: nat, desc: seq<SpendableNote>, can: Prover, i: nat)
    requires WellFormed(l) && OnLeaves(l, desc) && SoundFor(can, owner) && SpendsAll(can, owner)
    requires i + 1 < |desc| && Total(desc[..i + 1]) < amount
    requires PairsProvable(l, owner, amount, desc, i, can) && AllGenuine(l, owner, desc[..i + 2])
    ensures PairProvable(l, owner, amount, desc, i, can)
  {
    TotalPrefixMonotone(desc, i, i + 1);
    MergesAreLegal(l, owner, amount, desc, i, can);
    PairFacts(l, amount, desc, i);
    FrontIsGenuine(l, owner, desc, i, MergesOf(owner, amount, desc, |l.leaves|, i),
      MergedPool(l, owner, amount, desc, i), FrontAfter(l, amount, desc, i));
  }

  lemma {:induction false} FrontIsGenuine(
      l: Ledger, owner: int, desc: seq<SpendableNote>, i: nat, steps: seq<Step>, now: Ledger, front: SpendableNote)
    requires i + 1 < |desc| && MergedSoFar(l, owner, desc, i, steps, now, front)
    requires AllGenuine(l, owner, desc[..i + 2])
    ensures Genuine(now, owner, if i == 0 then desc[0] else front) && Genuine(now, owner, desc[i + 1])
  {
    assert desc[..i + 2][i + 1] == desc[i + 1] && desc[..i + 2][0] == desc[0];
  }

  lemma {:induction false} StoppedByAUsedNote(
      l: Ledger, owner: int, amount: nat, desc: seq<SpendableNote>, can: Prover, merges: nat, steps: seq<Step>)
    requires 0 < merges < |desc| && StoppedMerging(l, owner, amount, desc, can, merges, steps)
    requires PairsProvable(l, owner, amount, desc, merges, can)
    ensures !can(MergedPool(l, owner, amount, desc, merges), LastMerged(l, amount, desc, merges))
  {
    if |steps| < merges {
      assert false;
    }
  }

  // ----- the loop -----

  /** The loop has submitted the first `merges` merges. */
  ghost predicate Looping(
      l: Ledger, owner: int, amount: nat, desc: seq<SpendableNote>, can: Prover, merges: nat, steps: seq<Step>,
      now: Ledger)
  {
    && (merges == 0 || merges < |desc|) && steps == MergesOf(owner, amount, desc, |l.leaves|, merges)
    && now == MergedPool(l, owner, amount, desc, merges) && PairsProvable(l, owner, amount, desc, merges, can)
    && |now.leaves| == |l.leaves| + 2 * merges
  }

  /** The note to withdraw from: a smallest covering note, or the last merged note. */
  ghost predicate Found(
      l: Ledger, amount: nat, shown: seq<SpendableNote>, desc: seq<SpendableNote>, merges: nat, n: SpendableNote)
  {
    if merges == 0 then SmallestCovering(shown, amount, n)
    else
      && !OneCovers(shown, amount) && merges < |desc|
      && Total(desc[..merges]) < amount <= Total(desc[..merges + 1]) && n == LastMerged(l, amount, desc, merges)
  }

  /** The notes worked with after `i` merges that all fell short. */
  function WorkingOf(shown: seq<SpendableNote>, desc: seq<SpendableNote>, first: nat, i: nat): seq<SpendableNote>
    requires i == 0 || i < |desc|
  {
    if i == 0 then shown
    else
      var p, q := Front(desc, first, i - 1), desc[i];
      WorkingAfter(WorkingOf(shown, desc, first, i - 1), p, q, first + 2 * i - 2, 0, p.amount + q.amount)
  }

  /** Their positive ones, largest first, are the merged note and those not used yet. */
  lemma {:induction false} WorkingFacts(
      shown: seq<SpendableNote>, desc: seq<SpendableNote>, first: nat, i: nat)
    requires SpreadBelow(shown, first) && LargestFirstOf(shown) == desc && i < |desc|
    ensures var working := WorkingOf(shown, desc, first, i);
            SpreadBelow(working, first + 2 * i) && LargestFirstOf(working) == Standing(desc, first, i)
  {
    if i == 0 {
      StandingAtFirst(desc, first);
    } else {
      WorkingFacts(shown, desc, first, i - 1);
      WorkingNext(WorkingOf(shown, desc, first, i - 1), WorkingOf(shown, desc, first, i), desc, first, i,
        first + 2 * i - 2);
    }
  }

  lemma {:induction false} StandingAtFirst(desc: seq<SpendableNote>, first: nat)
    requires desc != []
    ensures Standing(desc, first, 0) == desc
  {
  }

  lemma {:induction false} WorkingNext(
      working: seq<SpendableNote>, next: seq<SpendableNote>, desc: seq<SpendableNote>, first: nat, i: nat, at: nat)
    requires 0 < i < |desc| && at == first + 2 * i - 2
    requires SpreadBelow(working, at) && LargestFirstOf(working) == Standing(desc, first, i - 1)
    requires var p, q := Front(desc, first, i - 1), desc[i];
             next == WorkingAfter(working, p, q, at, 0, p.amount + q.amount)
    ensures SpreadBelow(next, at + 2) && LargestFirstOf(next) == Standing(desc, first, i)
  {
    var p, q := Front(desc, first, i - 1), desc[i];
    StandingNext(desc, first, i - 1);
    TopPair(working, p, q, at);
    WorkingStaysSpread(working, p, q, at, 0, p.amount + q.amount);
  }

  lemma {:induction false} StandingNext(desc: seq<SpendableNote>, first: nat, i: nat)
    requires i + 1 < |desc|
    ensures var p, q, standing := Front(desc, first, i), desc[i + 1], Standing(desc, first, i);
            && |standing| >= 2 && standing[0] == p && standing[1] == q
            && Standing(desc, first, i + 1) == [SpendableNote(p.amount + q.amount, first + 2 * i + 1)] + standing[2..]
  {
    FrontIsSum(desc, first, i);
    TotalPrefixStep(desc, i + 1);
    assert Standing(desc, first, i)[2..] == desc[i + 2..];
  }

  lemma {:induction false} LoopStarts(
      l: Ledger, owner: int, amount: nat, shown: seq<SpendableNote>, can: Prover, found: Option<SpendableNote>)
    requires found.None? ==> forall n :: n in shown ==> n.amount < amount
    requires found.Some? ==> SmallestCovering(shown, amount, found.value)
    ensures InLoop(l, owner, amount, shown, LargestFirstOf(shown), can, Progress([], l, shown, found, 0))
    ensures |LargestFirstOf(shown)| == |Positive(shown)|
  {
    var desc := LargestFirstOf(shown);
    LargestFirstFacts(shown);
    if desc != [] {
      TotalPrefixStep(desc, 0);
      assert desc[0] in desc;
    }
  }

  lemma {:induction false} PairsProvableMore(
      l: Ledger, owner: int, amount: nat, desc: seq<SpendableNote>, merges: nat, can: Prover)
    requires merges + 1 < |desc| && PairsProvable(l, owner, amount, desc, merges, can)
    requires PairProvable(l, owner, amount, desc, merges, can)
    ensures PairsProvable(l, owner, amount, desc, merges + 1, can)
  {
  }

  lemma {:induction false} LoopStep(
      l: Ledger, owner: int, amount: nat, desc: seq<SpendableNote>, can: Prover, merges: nat, steps: seq<Step>,
      now: Ledger, s: Step)
    requires Looping(l, owner, amount, desc, can, merges, steps, now) && merges + 1 < |desc|
    requires PairProvable(l, owner, amount, desc, merges, can) && s == MergeAt(owner, amount, desc, |l.leaves|, merges)
    ensures Looping(l, owner, amount, desc, can, merges + 1, steps + [s], Apply(now, s))
  {
    assert |s.outputs| == 2;
    MergeAdds(l, owner, amount, desc, merges);
    PairsProvableMore(l, owner, amount, desc, merges, can);
  }

  /** With a single note left, or none, everything has been merged. */
  lemma {:induction false} LoopExhausted(
      l: Ledger, owner: int, amount: nat, shown: seq<SpendableNote>, desc: seq<SpendableNote>, can: Prover,
      at: Progress)
    requires ListedAs(l, shown, desc) && at.merges + 1 >= |desc|
    requires InLoop(l, owner, amount, shown, desc, can, at) && at.found.None?
    ensures Consolidated(l, owner, amount, shown, desc, can, at.steps, Failure(TooFragmented), at.merges)
  {
    LargestFirstFacts(shown);
    NothingToMerge(shown, desc, amount, at.merges);
  }

  lemma {:induction false} NothingToMerge(
      shown: seq<SpendableNote>, desc: seq<SpendableNote>, amount: nat, merges: nat)
    requires Total(desc) == Total(shown) && |desc| == |Positive(shown)| && merges + 1 >= |desc|
    requires !OneCovers(shown, amount) && (merges == 0 || merges < |desc|) && (merges > 0 ==> amount <= Total(shown))
    requires desc != [] ==> Total(desc[..merges + 1]) < amount
    ensures !Suffices(shown, amount) && merges == 0 && RefusalReason(shown) == TooFragmented
  {
    AllOfIt(desc);
    assert shown != [] ==> shown[0] in shown;
  }

  lemma {:induction false} AllOfIt(desc: seq<SpendableNote>)
    ensures desc[..|desc|] == desc
  {
  }

  /** What the loop finds among its notes: they are worth what was shown, and which two are in front. */
  lemma {:induction false} WorkingHolds(l: Ledger, shown: seq<SpendableNote>, desc: seq<SpendableNote>, merges: nat)
    requires ListedAs(l, shown, desc) && merges + 1 < |desc|
    ensures var working := WorkingOf(shown, desc, |l.leaves|, merges);
            var largest := LargestFirstOf(working);
            && Total(working) == Total(shown) && |largest| >= 2
            && largest[0] == Front(desc, |l.leaves|, merges) && largest[1] == desc[merges + 1]
  {
    var working := WorkingOf(shown, desc, |l.leaves|, merges);
    WorkingFacts(shown, desc, |l.leaves|, merges);
    LargestFirstFacts(working);
    LargestFirstFacts(shown);
    StandingNext(desc, |l.leaves|, merges);
    StandingTotal(desc, |l.leaves|, merges);
  }

  /** While the note in front is short, all are. */
  lemma {:induction false} NoneCovers(
      l: Ledger, amount: nat, shown: seq<SpendableNote>, desc: seq<SpendableNote>, merges: nat)
    requires ListedAs(l, shown, desc) && merges < |desc| && Total(desc[..merges + 1]) < amount
    ensures forall n :: n in WorkingOf(shown, desc, |l.leaves|, merges) ==> n.amount < amount
  {
    WorkingFacts(shown, desc, |l.leaves|, merges);
    FrontIsSum(desc, |l.leaves|, merges);
    LargestFirstFacts(WorkingOf(shown, desc, |l.leaves|, merges));
  }

  /** Two more notes to merge, and not yet enough: there is a further merge in the smallest cover. */
  lemma {:induction false} MoreToMerge(desc: seq<SpendableNote>, amount: nat, merges: nat)
    requires merges + 1 < |desc| && Total(desc[..merges + 1]) < amount <= Total(desc)
    ensures var all := CoverSize(desc, amount, 0) - 1;
            merges < all < |desc| && 0 < all && Total(desc[..all]) < amount <= Total(desc[..all + 1])
  {
    CoverSizeSplits(desc, amount, 0);
    var k := CoverSize(desc, amount, 0);
    if k <= merges + 1 { TotalPrefixMonotone(desc, k, merges + 1); }
  }

  lemma {:induction false} CoverSizeSplits(desc: seq<SpendableNote>, amount: nat, from: nat)
    requires from <= |desc| && amount <= Total(desc) && (from > 0 ==> Total(desc[..from - 1]) < amount)
    ensures var k := CoverSize(desc, amount, from);
            Total(desc[..k]) >= amount && (k > 0 ==> Total(desc[..k - 1]) < amount)
    decreases |desc| - from
  {
    assert desc[..|desc|] == desc;
    if from == |desc| || Total(desc[..from]) >= amount {
    } else {
      CoverSizeSplits(desc, amount, from + 1);
    }
  }

  /** `desc` is what is shown, its positive notes largest first. */
  ghost predicate ListedAs(l: Ledger, shown: seq<SpendableNote>, desc: seq<SpendableNote>)
  {
    SpreadBelow(shown, |l.leaves|) && desc == LargestFirstOf(shown)
  }

  /** How far the loop is: what was submitted, the pool and the notes worked with since, the note found. */
  datatype Progress = Progress(
    steps: seq<Step>, now: Ledger, working: seq<SpendableNote>, found: Option<SpendableNote>, merges: nat)

  /** What holds before every pass of the loop. */
  ghost predicate InLoop(
      l: Ledger, owner: int, amount: nat, shown: seq<SpendableNote>, desc: seq<SpendableNote>, can: Prover,
      at: Progress)
  {
    && Looping(l, owner, amount, desc, can, at.merges, at.steps, at.now)
    && match at.found
       case None =>
         && !OneCovers(shown, amount) && at.working == WorkingOf(shown, desc, |l.leaves|, at.merges)
         && (desc != [] ==> Total(desc[..at.merges + 1]) < amount) && (at.merges > 0 ==> amount <= Total(shown))
       case Some(n) => Found(l, amount, shown, desc, at.merges, n)
  }

  /** The consolidation loop: the note to withdraw from, one that covers or the last one made. */
  method Consolidate(l: Ledger, owner: int, amount: nat, shown: seq<SpendableNote>, can: Prover)
    returns (steps: seq<Step>, input: Result<SpendableNote, FlowError>, merges: nat)
    requires WellFormed(l) && OnLeaves(l, shown) && SoundFor(can, owner)
    ensures Consolidated(l, owner, amount, shown, LargestFirstOf(shown), can, steps, input, merges)
  {
    ghost var desc := LargestFirstOf(shown);
    var single := SelectNote(shown, amount);
    var at := Progress([], l, shown, single, 0);
    LoopStarts(l, owner, amount, shown, can, single);
    var maxConsolidations := if |Positive(shown)| > 0 then |Positive(shown)| - 1 else 0;
    while at.found.None? && at.merges < maxConsolidations
      invariant InLoop(l, owner, amount, shown, desc, can, at)
      decreases maxConsolidations - at.merges
    {
      var next := MergeOnce(l, owner, amount, shown, desc, can, at);
      if next.Failure? {
        return at.steps, Failure(next.error), at.merges;
      }
      at := next.value;
    }
    LoopEnds(l, owner, amount, shown, desc, can, at);
    input := if at.found.Some? then Success(at.found.value) else Failure(TooFragmented);
    steps, merges := at.steps, at.merges;
  }

  lemma {:induction false} Refused(
      l: Ledger, owner: int, amount: nat, shown: seq<SpendableNote>, desc: seq<SpendableNote>, can: Prover,
      at: Progress)
    requires ListedAs(l, shown, desc) && |desc| >= 2 && Total(shown) < amount
    requires InLoop(l, owner, amount, shown, desc, can, at) && at.found.None?
    ensures Consolidated(l, owner, amount, shown, desc, can, at.steps, Failure(InsufficientBalance), at.merges)
  {
    LargestFirstFacts(shown);
  }

  lemma {:induction false} Stopped(
      l: Ledger, owner: int, amount: nat, shown: seq<SpendableNote>, desc: seq<SpendableNote>, can: Prover,
      at: Progress)
    requires ListedAs(l, shown, desc) && amount <= Total(shown) && at.merges + 1 < |desc|
    requires InLoop(l, owner, amount, shown, desc, can, at) && at.found.None?
    requires !PairProvable(l, owner, amount, desc, at.merges, can)
    ensures Consolidated(l, owner, amount, shown, desc, can, at.steps, Failure(CannotSpend), at.merges)
  {
    LargestFirstFacts(shown);
    MoreToMerge(desc, amount, at.merges);
  }

  /** What the notes worked with are worth, and the two largest of them. */
  method LargestPair(
      ghost l: Ledger, ghost shown: seq<SpendableNote>, ghost desc: seq<SpendableNote>, ghost merges: nat,
      working: seq<SpendableNote>)
    returns (total: nat, p: SpendableNote, q: SpendableNote)
    requires ListedAs(l, shown, desc) && merges + 1 < |desc| && working == WorkingOf(shown, desc, |l.leaves|, merges)
    ensures total == Total(shown) && p == Front(desc, |l.leaves|, merges) && q == desc[merges + 1]
  {
    WorkingHolds(l, shown, desc, merges);
    total := Total(working);
    var largest := Arrange(Positive(working));
    p, q := largest[0], largest[1];
  }

  /** One pass of the loop: merge the two notes in front, if there is enough and both can be spent. */
  method MergeOnce(
      l: Ledger, owner: int, amount: nat, ghost shown: seq<SpendableNote>, ghost desc: seq<SpendableNote>, can: Prover,
      at: Progress)
    returns (next: Result<Progress, FlowError>)
    requires ListedAs(l, shown, desc) && at.merges + 1 < |desc|
    requires InLoop(l, owner, amount, shown, desc, can, at) && at.found.None?
    ensures next.Failure? ==>
              Consolidated(l, owner, amount, shown, desc, can, at.steps, Failure(next.error), at.merges)
    ensures next.Success? ==>
              InLoop(l, owner, amount, shown, desc, can, next.value) && next.value.merges == at.merges + 1
  {
    var total, p, q := LargestPair(l, shown, desc, at.merges, at.working);
    if total < amount {
      Refused(l, owner, amount, shown, desc, can, at);
      return Failure(InsufficientBalance);
    }
    if !can(at.now, p) || !can(at.now, q) {
      Stopped(l, owner, amount, shown, desc, can, at);
      return Failure(CannotSpend);
    }
    var s := PairMerge(owner, amount, p, q);
    var found, working := AfterMerge(l, amount, shown, desc, at.merges, |at.now.leaves|, at.working, p, q);
    LoopNext(l, owner, amount, shown, desc, can, at, s, found, working);
    next := Success(Progress(at.steps + [s], Apply(at.now, s), working, found, at.merges + 1));
  }

  lemma {:induction false} LoopNext(
      l: Ledger, owner: int, amount: nat, shown: seq<SpendableNote>, desc: seq<SpendableNote>, can: Prover,
      at: Progress, s: Step, found: Option<SpendableNote>, working: seq<SpendableNote>)
    requires InLoop(l, owner, amount, shown, desc, can, at) && at.found.None? && at.merges + 1 < |desc|
    requires PairProvable(l, owner, amount, desc, at.merges, can) && amount <= Total(shown)
    requires s == MergeAt(owner, amount, desc, |l.leaves|, at.merges)
    requires found.None? ==>
               working == WorkingOf(shown, desc, |l.leaves|, at.merges + 1) && Total(desc[..at.merges + 2]) < amount
    requires found.Some? ==> Found(l, amount, shown, desc, at.merges + 1, found.value)
    ensures InLoop(l, owner, amount, shown, desc, can,
              Progress(at.steps + [s], Apply(at.now, s), working, found, at.merges + 1))
  {
    LoopStep(l, owner, amount, desc, can, at.merges, at.steps, at.now, s);
  }

  /** The notes worked with after a merge, and the one found among them. */
  method AfterMerge(
      ghost l: Ledger, amount: nat, ghost shown: seq<SpendableNote>, ghost desc: seq<SpendableNote>,
      ghost merges: nat, at: nat, working: seq<SpendableNote>, p: SpendableNote, q: SpendableNote)
    returns (found: Option<SpendableNote>, working': seq<SpendableNote>)
    requires ListedAs(l, shown, desc) && merges + 1 < |desc| && at == |l.leaves| + 2 * merges
    requires !OneCovers(shown, amount) && working == WorkingOf(shown, desc, |l.leaves|, merges)
    requires p == Front(desc, |l.leaves|, merges) && q == desc[merges + 1] && Total(desc[..merges + 1]) < amount
    ensures found.None? ==>
              working' == WorkingOf(shown, desc, |l.leaves|, merges + 1) && Total(desc[..merges + 2]) < amount
    ensures found.Some? ==> Found(l, amount, shown, desc, merges + 1, found.value)
  {
    MadeNext(l, amount, shown, desc, merges);
    var totalIn := p.amount + q.amount;
    var merged := if totalIn >= amount then amount else totalIn;
    working' := WorkingAfter(working, p, q, at, totalIn - merged, merged);
    if merged >= amount {
      found := Some(SpendableNote(merged, at + 1));
    } else {
      NoneCovers(l, amount, shown, desc, merges + 1);
      found := SelectNote(working', amount);
    }
  }

  /** What the next merge makes: the next sum, and if that covers, the note to withdraw from. */
  lemma {:induction false} MadeNext(
      l: Ledger, amount: nat, shown: seq<SpendableNote>, desc: seq<SpendableNote>, merges: nat)
    requires merges + 1 < |desc| && !OneCovers(shown, amount) && Total(desc[..merges + 1]) < amount
    ensures var p, q := Front(desc, |l.leaves|, merges), desc[merges + 1];
            && p.amount + q.amount == Total(desc[..merges + 2])
            && WorkingOf(shown, desc, |l.leaves|, merges + 1)
               == WorkingAfter(WorkingOf(shown, desc, |l.leaves|, merges), p, q, |l.leaves| + 2 * merges, 0,
                    p.amount + q.amount)
            && (amount <= p.amount + q.amount ==>
                  Found(l, amount, shown, desc, merges + 1, SpendableNote(amount, |l.leaves| + 2 * merges + 1)))
  {
    FrontIsSum(desc, |l.leaves|, merges);
    TotalPrefixStep(desc, merges + 1);
  }

  lemma {:induction false} ShownFacts(l: Ledger, shown: seq<SpendableNote>)
    requires OnLeaves(l, shown)
    ensures OnLeaves(l, LargestFirstOf(shown))
  {
    LargestFirstFacts(shown);
  }

  /** With a note found the loop is done; with none left to merge, what is shown does not suffice. */
  lemma {:induction false} LoopEnds(
      l: Ledger, owner: int, amount: nat, shown: seq<SpendableNote>, desc: seq<SpendableNote>, can: Prover,
      at: Progress)
    requires ListedAs(l, shown, desc) && InLoop(l, owner, amount, shown, desc, can, at)
    requires at.found.None? ==> at.merges + 1 >= |desc|
    ensures Consolidated(l, owner, amount, shown, desc, can, at.steps,
              if at.found.Some? then Success(at.found.value) else Failure(TooFragmented), at.merges)
  {
    match at.found
    case None => LoopExhausted(l, owner, amount, shown, desc, can, at);
    case Some(n) => LoopPaid(l, owner, amount, shown, desc, can, at, n);
  }

  /** A note that covers the amount is part of a balance that does. */
  lemma {:induction false} LoopPaid(
      l: Ledger, owner: int, amount: nat, shown: seq<SpendableNote>, desc: seq<SpendableNote>, can: Prover,
      at: Progress, n: SpendableNote)
    requires ListedAs(l, shown, desc) && InLoop(l, owner, amount, shown, desc, can, at) && at.found == Some(n)
    ensures Consolidated(l, owner, amount, shown, desc, can, at.steps, Success(n), at.merges)
  {
    if at.merges == 0 {
      TotalAtLeast(shown, n);
    } else {
      LargestFirstFacts(shown);
      TotalSplit(desc, at.merges + 1);
      CoverSizeIs(desc, amount, 0, at.merges + 1);
    }
  }

  lemma {:induction false} OneSuffices(shown: seq<SpendableNote>, amount: nat)
    requires OneCovers(shown, amount)
    ensures Suffices(shown, amount)
  {
    var n :| n in shown && n.amount >= amount;
    TotalAtLeast(shown, n);
  }

  lemma {:induction false} TotalAtLeast(notes: seq<SpendableNote>, n: SpendableNote)
    requires n in notes
    ensures Total(notes) >= n.amount
  {
    if notes[0] == n {
    } else {
      TotalAtLeast(notes[1..], n);
    }
  }

  /** The withdrawal that pays `amount` out of `n` and the rest back to the account. */
  function PayOut(owner: int, amount: nat, n: SpendableNote): Step
    requires n.amount >= amount
  {
    WithdrawStep(n.leafIndex, amount, PoolNote(n.amount - amount, owner))
  }

  lemma {:induction false} PayOutIsLegal(l: Ledger, owner: int, amount: nat, n: SpendableNote)
    requires WellFormed(l) && Genuine(l, owner, n) && n.amount >= amount
    ensures var s := PayOut(owner, amount, n);
            && Legal(l, s) && WellFormed(Apply(l, s))
            && PaidOut(l, Apply(l, s), owner, amount)
  {
    var s := PayOut(owner, amount, n);
    forall who ensures InputValue(l, s.inputs, who) == (if Belongs(PoolNote(amount, owner), who) then n.amount else 0)
               ensures OutputValue(s.outputs, who)
                       == (if Belongs(PoolNote(amount, owner), who) then n.amount - amount else 0)
    {
      assert s.inputs[1..] == [] && s.outputs[1..] == [];
    }
    assert InputValue(l, s.inputs, None) == n.amount;
    assert OutputValue(s.outputs, None) == n.amount - amount;
    assert s.inputs == [n.leafIndex];
    forall who ensures Value(Apply(l, s), who) + InputValue(l, s.inputs, who)
      == Value(l, who) + OutputValue(s.outputs, who) {
      StepMovesValue(l, s, who);
    }
  }

  // ----- claim -----

  /** How many positive notes the account still has. */
  function OpenNotes(l: Ledger, owner: int): nat
  {
    |Positive(SpendableNotes(l, owner))|
  }

  /** A claim asks for the amount of the first positive note shown. */
  function Asked(shown: seq<SpendableNote>): nat
    requires Positive(shown) != []
  {
    Positive(shown)[0].amount
  }

  /** A smallest of the notes shown that cover what is asked for cannot be spent. */
  ghost predicate Blocked(l: Ledger, shown: seq<SpendableNote>, can: Prover)
    requires Positive(shown) != []
  {
    exists n {:trigger SmallestCovering(shown, Asked(shown), n)} ::
      SmallestCovering(shown, Asked(shown), n) && !can(l, n)
  }

  /** A smallest of the notes shown that cover what is asked for is paid out. */
  ghost predicate PaysAsked(l: Ledger, owner: int, shown: seq<SpendableNote>, can: Prover, s: Step)
  {
    && Positive(shown) != []
    && exists n {:trigger SmallestCovering(shown, Asked(shown), n)} ::
         SmallestCovering(shown, Asked(shown), n) && can(l, n) && s == PayOut(owner, Asked(shown), n)
  }

  /** What one whole positive note paid out does to the account. */
  ghost predicate PaysOneNote(l: Ledger, owner: int, s: Step)
  {
    && Legal(l, s) && WellFormed(Apply(l, s))
    && s.deposited == 0 < s.withdrawn && s.outputs == [PoolNote(0, owner)]
    && Value(Apply(l, s), Some(owner)) + s.withdrawn == Value(l, Some(owner))
    && OpenNotes(Apply(l, s), owner) + 1 == OpenNotes(l, owner)
    && OthersKeep(l, Apply(l, s), owner)
  }

  /** One round of a claim: the withdrawal of what the first positive note shown is worth, if the note that
      pays it can be spent. */
  method DrainOne(l: Ledger, owner: int, shown: seq<SpendableNote>, can: Prover) returns (step: Option<Step>)
    requires WellFormed(l) && OnLeaves(l, shown) && SoundFor(can, owner) && Positive(shown) != []
    ensures step.Some? ==> PaysAsked(l, owner, shown, can, step.value) && PaysOneNote(l, owner, step.value)
    ensures step.None? ==> Blocked(l, shown, can)
  {
    var asked := Positive(shown)[0];
    PositiveFacts(shown);
    assert asked in Positive(shown);
    OneSuffices(shown, asked.amount);
    var steps, r := Unshield(l, owner, asked.amount, shown, can);
    ghost var n :| SmallestCovering(shown, asked.amount, n) &&
      if can(l, n) then r == Success(UnshieldReceipt(n, 0)) && steps == [PayOut(owner, asked.amount, n)]
      else r == Failure(CannotSpend) && steps == [];
    assert SmallestCovering(shown, Asked(shown), n);
    if r.Failure? {
      return None;
    }
    RoundPaysOneNote(l, owner, shown, asked, n);
    OthersUntouched(l, owner, asked.amount, n);
    step := Some(steps[0]);
  }

  /** Round `k` pays out what is asked for on what is shown when its turn comes. */
  ghost predicate RoundAt(l: Ledger, owner: int, show: Screen, can: Prover, steps: seq<Step>, k: nat)
    requires k < |steps|
  {
    var now := Run(l, steps[..k]);
    PaysAsked(now, owner, show(now), can, steps[k])
  }

  ghost predicate AllRounds(l: Ledger, owner: int, show: Screen, can: Prover, steps: seq<Step>)
  {
    forall k: nat {:trigger RoundAt(l, owner, show, can, steps, k)} ::
      k < |steps| ==> RoundAt(l, owner, show, can, steps, k)
  }

  lemma {:induction false} OneMoreRound(
      l: Ledger, owner: int, show: Screen, can: Prover, steps: seq<Step>, s: Step)
    requires AllRounds(l, owner, show, can, steps)
    requires PaysAsked(Run(l, steps), owner, show(Run(l, steps)), can, s)
    ensures AllRounds(l, owner, show, can, steps + [s])
  {
    forall k: nat | k < |steps + [s]| ensures RoundAt(l, owner, show, can, steps + [s], k) {
      if k < |steps| {
        assert RoundAt(l, owner, show, can, steps, k) && (steps + [s])[..k] == steps[..k];
      } else {
        assert (steps + [s])[..k] == steps;
      }
    }
  }

  /** What a claim submits: round after round, until nothing positive is shown or a round is blocked. */
  ghost predicate Claims(
      l: Ledger, owner: int, show: Screen, can: Prover, steps: seq<Step>, r: Result<nat, FlowError>)
  {
    var now := Run(l, steps);
    && AllRounds(l, owner, show, can, steps)
    && if Positive(show(now)) != [] then r == Failure(CannotSpend) && Blocked(now, show(now), can)
       else r == if Withdrawn(steps) == 0 then Failure(NothingToClaim) else Success(Withdrawn(steps))
  }

  lemma {:induction false} OthersUntouched(l: Ledger, owner: int, amount: nat, n: SpendableNote)
    requires WellFormed(l) && Genuine(l, owner, n) && n.amount >= amount
    ensures var l' := Apply(l, PayOut(owner, amount, n));
            && Legal(l, PayOut(owner, amount, n)) && WellFormed(l')
            && Value(l', Some(owner)) + amount == Value(l, Some(owner))
            && OthersKeep(l, l', owner)
  {
    PayOutIsLegal(l, owner, amount, n);
  }

  /** Drain the account one note at a time, looking again after every round.  Each round pays out exactly
      one positive note and leaves no positive change.  If the account is shown its own notes and can
      spend them, the claimed amount is its whole balance; a note that cannot be spent ends the claim. */
  method Claim(l: Ledger, owner: int, show: Screen, can: Prover) returns (steps: seq<Step>, r: Result<nat, FlowError>)
    requires WellFormed(l) && ShowsLeaves(show) && SoundFor(can, owner)
    ensures LegalRun(l, steps) && WellFormed(Run(l, steps)) && Deposited(steps) == 0
    ensures Value(Run(l, steps), Some(owner)) + Withdrawn(steps) == Value(l, Some(owner))
    ensures |steps| + OpenNotes(Run(l, steps), owner) == OpenNotes(l, owner)
    ensures OthersKeep(l, Run(l, steps), owner)
    ensures Claims(l, owner, show, can, steps, r)
    ensures ShowsOwn(show, owner) && r != Failure(CannotSpend) ==>
              Withdrawn(steps) == Value(l, Some(owner)) && |steps| == OpenNotes(l, owner)
    ensures ShowsOwn(show, owner) && SpendsAll(can, owner) ==> r != Failure(CannotSpend)
  {
    steps := [];
    var amount := 0;
    var now := l;
    while Positive(show(now)) != []
      invariant LegalRun(l, steps) && now == Run(l, steps) && WellFormed(now)
      invariant amount == Withdrawn(steps) && Deposited(steps) == 0
      invariant amount + Value(now, Some(owner)) == Value(l, Some(owner))
      invariant |steps| + OpenNotes(now, owner) == OpenNotes(l, owner)
      invariant OthersKeep(l, now, owner) && AllRounds(l, owner, show, can, steps)
      decreases OpenNotes(now, owner)
    {
      var next := DrainOne(now, owner, show(now), can);
      if next.None? {
        NotBlocked(now, owner, show, can);
        return steps, Failure(CannotSpend);
      }
      var s := next.value;
      RunSnoc(l, steps, s);
      OneMoreRound(l, owner, show, can, steps, s);
      steps := steps + [s];
      amount := amount + s.withdrawn;
      now := Apply(now, s);
    }
    if ShowsOwn(show, owner) {
      NothingLeft(now, owner);
    }
    r := if amount == 0 then Failure(NothingToClaim) else Success(amount);
  }

  /** Own notes that can all be spent block nothing. */
  lemma {:induction false} NotBlocked(l: Ledger, owner: int, show: Screen, can: Prover)
    requires Positive(show(l)) != []
    ensures ShowsOwn(show, owner) && SpendsAll(can, owner) ==> !Blocked(l, show(l), can)
  {
    SpendableFacts(l, owner);
  }

  lemma {:induction false} NothingLeft(l: Ledger, owner: int)
    requires Positive(SpendableNotes(l, owner)) == []
    ensures Value(l, Some(owner)) == 0 && OpenNotes(l, owner) == 0
  {
    SpendableFacts(l, owner);
    PositiveFacts(SpendableNotes(l, owner));
  }

  /** Asked for exactly some note's amount, the smallest covering note is one of that amount; paying it
      out, if it is the account's, closes one positive note. */
  lemma {:induction false} RoundPaysOneNote(
      l: Ledger, owner: int, shown: seq<SpendableNote>, asked: SpendableNote, n: SpendableNote)
    requires WellFormed(l) && asked in shown && asked.amount > 0
    requires SmallestCovering(shown, asked.amount, n) && Genuine(l, owner, n)
    ensures n.amount == asked.amount
    ensures OpenNotes(Apply(l, PayOut(owner, asked.amount, n)), owner) + 1 == OpenNotes(l, owner)
  {
    SpendableWithout(l, owner, n, |l.leaves|);
    SpendableAfterPayOut(l, owner, n);
    var zero := SpendableNote(0, |l.leaves|);
    assert Positive([zero]) == [];
    PositiveAppend(SpendableNotes(Ledger(l.leaves, l.spent + {n.leafIndex}), owner), [zero]);
  }

  /** Paying out a whole note leaves the other notes and a zero note. */
  lemma {:induction false} SpendableAfterPayOut(l: Ledger, owner: int, n: SpendableNote)
    requires WellFormed(l) && Genuine(l, owner, n)
    ensures SpendableNotes(Apply(l, PayOut(owner, n.amount, n)), owner)
         == SpendableNotes(Ledger(l.leaves, l.spent + {n.leafIndex}), owner) + [SpendableNote(0, |l.leaves|)]
  {
    var l1 := Ledger(l.leaves, l.spent + {n.leafIndex});
    SpendableOfPrefix(l1, [PoolNote(0, owner)], owner, |l.leaves|);
    assert AllOf([n.leafIndex]) == {n.leafIndex};
  }

  lemma {:induction false} LastPositive(l: Ledger, owner: int, n: nat)
    requires 0 < n <= |l.leaves|
    ensures |Positive(SpendableUpTo(l, owner, n))| == |Positive(SpendableUpTo(l, owner, n - 1))|
            + if n - 1 !in l.spent && l.leaves[n - 1].owner == owner && l.leaves[n - 1].amount > 0 then 1 else 0
  {
    var before, here := SpendableUpTo(l, owner, n - 1), SpendableNote(l.leaves[n - 1].amount, n - 1);
    PositiveAppend(before, [here]);
    assert [here][1..] == [];
    assert before + [] == before;
  }

  /** Spending a positive note closes exactly that one. */
  lemma {:induction false} SpendableWithout(l: Ledger, owner: int, x: SpendableNote, n: nat)
    requires n <= |l.leaves| && Genuine(l, owner, x) && x.amount > 0
    ensures |Positive(SpendableUpTo(l, owner, n))|
         == |Positive(SpendableUpTo(Ledger(l.leaves, l.spent + {x.leafIndex}), owner, n))|
            + if x.leafIndex < n then 1 else 0
  {
    if n == 0 {
    } else {
      SpendableWithout(l, owner, x, n - 1);
      LastPositive(l, owner, n);
      LastPositive(Ledger(l.leaves, l.spent + {x.leafIndex}), owner, n);
    }
  }
}
