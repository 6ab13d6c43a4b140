/** Coin selection: which notes a proof or a payment uses. */
module CoinSelection {
  import opened Amounts
  import opened Wrappers

  /** The circuit's fixed number of note slots in a proof of balance. */
  const MAX_BALANCE_NOTES := 4

  /** Largest first, up to the slot limit: exact and minimal.  It gives up only when no choice of
      at most four notes reaches the threshold, and otherwise uses as few notes as any choice can. */
  method SelectNotesForBalance(notes: seq<SpendableNote>, threshold: int) returns (r: Option<seq<SpendableNote>>)
    ensures r.None? <==> forall pick {:trigger Picks(pick, notes)} ::
              Picks(pick, notes) && |pick| <= 4 ==> Total(pick) < threshold
    ensures r.Some? ==> Covers(r.value, notes, threshold) && |r.value| <= 4 && r.value <= Arranged(notes)
    ensures r.Some? ==> forall pick {:trigger Covers(pick, notes, threshold)} :: Covers(pick, notes, threshold) ==>
            |pick| >= |r.value|
  {
    var desc := Arrange(notes);
    ArrangedFacts(notes);
    var chosen: seq<SpendableNote> := [];
    var sum := 0;
    for k := 0 to |desc|
      invariant chosen == desc[..k] && sum == Total(chosen) && k <= MAX_BALANCE_NOTES
      invariant k > 0 ==> Total(desc[..k - 1]) < threshold
    {
      if sum >= threshold || |chosen| >= MAX_BALANCE_NOTES {
        break;
      }
      TotalPrefixStep(desc, k);
      chosen := chosen + [desc[k]];
      sum := sum + desc[k].amount;
    }
    PrefixPick(desc, |chosen|);
    forall pick | Picks(pick, notes)
      ensures |pick| < |chosen| ==> Total(pick) < threshold
      ensures |pick| <= MAX_BALANCE_NOTES && sum < threshold ==> Total(pick) < threshold
    {
      PickBoundedByPrefix(desc, pick);
      if |pick| < |chosen| { TotalPrefixMonotone(desc, |pick|, |chosen| - 1); }
    }
    assert Picks(chosen, notes);
    return if sum >= threshold then Some(chosen) else None;
  }

  lemma {:induction false} PrefixPick(desc: seq<SpendableNote>, k: nat)
    requires k <= |desc|
    ensures Picks(desc[..k], desc)
  {
    assert desc == desc[..k] + desc[k..];
  }

  /** Every choice of up to `k` notes is worth at most the `k` largest. */
  lemma {:induction false} PickBoundedByPrefix(desc: seq<SpendableNote>, pick: seq<SpendableNote>)
    requires Descending(desc) && Picks(pick, desc)
    ensures |pick| <= |desc| && Total(pick) <= Total(desc[..|pick|])
    ensures forall k: nat {:trigger desc[..k]} :: |pick| <= k <= |desc| ==> Total(pick) <= Total(desc[..k])
  {
    LargestFirstDominates(desc, pick);
    forall k: nat | |pick| <= k <= |desc| ensures Total(pick) <= Total(desc[..k]) {
      TotalPrefixMonotone(desc, |pick|, k);
    }
  }

  /** The smallest single note that covers `amount`. */
  method SelectNote(notes: seq<SpendableNote>, amount: int) returns (r: Option<SpendableNote>)
    ensures r.None? <==> forall n :: n in notes ==> n.amount < amount
    ensures r.Some? ==> r.value in notes && r.value.amount >= amount
    ensures r.Some? ==> forall n :: n in notes && n.amount >= amount ==> r.value.amount <= n.amount
  {
    r := None;
    for i := 0 to |notes|
      invariant r.None? <==> forall n :: n in notes[..i] ==> n.amount < amount
      invariant r.Some? ==> r.value in notes && r.value.amount >= amount
      invariant r.Some? ==> forall n :: n in notes[..i] && n.amount >= amount ==> r.value.amount <= n.amount
    {
      var n := notes[i];
      assert notes[..i + 1] == notes[..i] + [n];
      if n.amount >= amount && (r.None? || n.amount < r.value.amount) {
        r := Some(n);
      }
    }
    assert notes[..|notes|] == notes;
  }

  /** The last of the first `k` notes that covers `amount`. */
  function LastCovering(desc: seq<SpendableNote>, amount: int, k: nat): Option<SpendableNote>
    requires k <= |desc|
  {
    if k == 0 then None
    else if desc[k - 1].amount >= amount then Some(desc[k - 1])
    else LastCovering(desc, amount, k - 1)
  }

  /** Which notes a two-input spend takes from a largest-first arrangement. */
  function PlanFrom(desc: seq<SpendableNote>, amount: int): seq<SpendableNote>
  {
    var single := LastCovering(desc, amount, |desc|);
    if single.Some? then [single.value]
    else if |desc| >= 2 && desc[0].amount + desc[1].amount >= amount then [desc[0], desc[1]]
    else []
  }

  /** Which notes a two-input spend takes, down to the choice among equal amounts. */
  function PrimaryPlan(notes: seq<SpendableNote>, amount: int): seq<SpendableNote>
  {
    PlanFrom(Arranged(notes), amount)
  }

  lemma {:induction false} LastCoveringFacts(desc: seq<SpendableNote>, amount: int, k: nat)
    requires k <= |desc|
    ensures LastCovering(desc, amount, k).None? <==> forall j :: 0 <= j < k ==> desc[j].amount < amount
    ensures var r := LastCovering(desc, amount, k);
            r.Some? ==> exists j :: 0 <= j < k && desc[j] == r.value && desc[j].amount >= amount
                                    && forall i :: j < i < k ==> desc[i].amount < amount
  {
    if k == 0 || desc[k - 1].amount >= amount {
    } else {
      LastCoveringFacts(desc, amount, k - 1);
    }
  }

  /** The plan is the smallest single cover, else the two largest notes, else nothing; and nothing
      only when neither one note nor two cover the amount. */
  lemma {:induction false} PlanFromIsBest(desc: seq<SpendableNote>, notes: seq<SpendableNote>, amount: int)
    requires Descending(desc) && multiset(desc) == multiset(notes)
    ensures BestSmallPlan(PlanFrom(desc, amount), notes, amount)
  {
    var r := PlanFrom(desc, amount);
    SameMembers(desc, notes);
    LastCoveringFacts(desc, amount, |desc|);
    SmallPicksBounded(desc, notes);
    if |r| == 1 {
      SingletonPick(r[0], notes);
    } else if |r| == 2 {
      PrefixPick(desc, 2);
      assert desc[..2] == r;
      assert Picks(r, notes) && Total(r) >= amount;
    } else {
      forall pick | Picks(pick, notes) && 1 <= |pick| <= 2 ensures Total(pick) < amount {
        assert |pick| <= |desc| && desc[0].amount < amount;
      }
    }
  }

  /** The smallest single cover, else the two most valuable notes, else nothing. */
  ghost predicate BestSmallPlan(r: seq<SpendableNote>, notes: seq<SpendableNote>, amount: int)
  {
    && |r| <= 2
    && (r == [] <==> forall pick {:trigger Picks(pick, notes)} :: Picks(pick, notes) && 1 <= |pick| <= 2 ==>
         Total(pick) < amount)
    && (r != [] ==> Covers(r, notes, amount))
    && (|r| == 1 ==> forall n :: n in notes && n.amount >= amount ==> r[0].amount <= n.amount)
    && (|r| == 2 ==>
          && (forall n :: n in notes ==> n.amount < amount)
          && forall pick {:trigger Picks(pick, notes)} :: Picks(pick, notes) && |pick| == 2 ==> Total(pick) <= Total(r))
  }

  /** The plan of a two-input spend: the smallest single cover, else the two largest notes, else
      nothing; and nothing only when neither one note nor two cover the amount. */
  method SelectSpendNotes(notes: seq<SpendableNote>, amount: int) returns (r: seq<SpendableNote>)
    ensures r == PrimaryPlan(notes, amount)
    ensures BestSmallPlan(r, notes, amount)
  {
    var desc := Arrange(notes);
    ArrangedFacts(notes);
    PlanFromIsBest(desc, notes, amount);
    r := TakeFrom(desc, amount);
  }

  method TakeFrom(desc: seq<SpendableNote>, amount: int) returns (r: seq<SpendableNote>)
    ensures r == PlanFrom(desc, amount)
  {
    var k := |desc|;
    while k > 0
      invariant 0 <= k <= |desc|
      invariant LastCovering(desc, amount, |desc|) == LastCovering(desc, amount, k)
    {
      k := k - 1;
      if desc[k].amount >= amount {
        return [desc[k]];
      }
    }
    if |desc| >= 2 && desc[0].amount + desc[1].amount >= amount {
      return [desc[0], desc[1]];
    }
    return [];
  }

  /** One note is worth at most the largest, two at most the two largest. */
  lemma {:induction false} SmallPicksBounded(desc: seq<SpendableNote>, notes: seq<SpendableNote>)
    requires Descending(desc) && multiset(desc) == multiset(notes)
    ensures forall pick {:trigger Picks(pick, notes)} :: Picks(pick, notes) ==> |pick| <= |desc|
    ensures forall pick {:trigger Picks(pick, notes)} :: Picks(pick, notes) && |pick| == 1 ==>
            Total(pick) <= desc[0].amount
    ensures forall pick {:trigger Picks(pick, notes)} :: Picks(pick, notes) && |pick| == 2 ==>
            Total(pick) <= desc[0].amount + desc[1].amount
    ensures |desc| >= 2 ==> Total([desc[0], desc[1]]) == desc[0].amount + desc[1].amount
  {
    forall pick | Picks(pick, notes)
      ensures |pick| <= |desc|
      ensures |pick| == 1 ==> Total(pick) <= desc[0].amount
      ensures |pick| == 2 ==> Total(pick) <= desc[0].amount + desc[1].amount
    {
      LargestFirstDominates(desc, pick);
      if 1 <= |pick| <= 2 { TotalOfPair(desc, |pick|); }
    }
    if |desc| >= 2 {
      TotalOfPair(desc, 2);
      assert desc[..2] == [desc[0], desc[1]];
    }
  }

  lemma {:induction false} SingletonPick(n: SpendableNote, notes: seq<SpendableNote>)
    requires n in notes
    ensures Picks([n], notes) && Total([n]) == n.amount
  {
    assert n in multiset(notes);
  }

  lemma {:induction false} TotalOfPair(desc: seq<SpendableNote>, k: nat)
    requires 1 <= k <= 2 && k <= |desc|
    ensures Total(desc[..k]) == if k == 1 then desc[0].amount else desc[0].amount + desc[1].amount
  {
    TotalPrefixStep(desc, 0);
    if k == 2 { TotalPrefixStep(desc, 1); }
  }

  /** The covering note inserted last; the first of them, were two on one leaf. */
  function Newest(notes: seq<SpendableNote>, amount: int): Option<SpendableNote>
  {
    if notes == [] then None
    else
      var best, last := Newest(notes[..|notes| - 1], amount), notes[|notes| - 1];
      if last.amount >= amount && (best.None? || last.leafIndex > best.value.leafIndex) then Some(last) else best
  }

  /** The covering note inserted last. */
  method NewestCoveringNote(notes: seq<SpendableNote>, amount: int) returns (r: Option<SpendableNote>)
    ensures r == Newest(notes, amount)
    ensures r.None? <==> forall n :: n in notes ==> n.amount < amount
    ensures r.Some? ==> r.value in notes && r.value.amount >= amount
    ensures r.Some? ==> forall n :: n in notes && n.amount >= amount ==> n.leafIndex <= r.value.leafIndex
  {
    r := None;
    for i := 0 to |notes|
      invariant r.None? <==> forall n :: n in notes[..i] ==> n.amount < amount
      invariant r.Some? ==> r.value in notes && r.value.amount >= amount
      invariant r.Some? ==> forall n :: n in notes[..i] && n.amount >= amount ==> n.leafIndex <= r.value.leafIndex
      invariant r == Newest(notes[..i], amount)
    {
      var n := notes[i];
      assert notes[..i + 1] == notes[..i] + [n];
      assert notes[..i + 1][..i] == notes[..i];
      if n.amount >= amount && (r.None? || n.leafIndex > r.value.leafIndex) {
        r := Some(n);
      }
    }
    assert notes[..|notes|] == notes;
  }

  predicate SameSpendPlan(a: seq<SpendableNote>, b: seq<SpendableNote>)
  {
    |a| == |b| && forall i :: 0 <= i < |a| ==> a[i].leafIndex == b[i].leafIndex
  }

  /** The newest covering note alone, and then the primary plan unless it is the same. */
  function PlansOf(primary: seq<SpendableNote>, newest: Option<SpendableNote>): seq<seq<SpendableNote>>
  {
    if primary == [] then []
    else if newest.None? then [primary]
    else if SameSpendPlan([newest.value], primary) then [[newest.value]]
    else [[newest.value], primary]
  }

  /** The plans a send tries, in order.  Every plan is one or two of the notes and covers the
      amount; there is one exactly when one note or two can. */
  method PlanSend(notes: seq<SpendableNote>, amount: int) returns (plans: seq<seq<SpendableNote>>)
    ensures plans == PlansOf(PrimaryPlan(notes, amount), Newest(notes, amount))
    ensures forall p :: p in plans ==> 1 <= |p| <= 2 && Covers(p, notes, amount)
    ensures plans == [] <==> forall pick {:trigger Picks(pick, notes)} :: Picks(pick, notes) && 1 <= |pick| <= 2 ==>
            Total(pick) < amount
    ensures (exists n :: n in notes && n.amount >= amount) ==>
              && 1 <= |plans| <= 2 && |plans[0]| == 1
              && forall n :: n in notes && n.amount >= amount ==> n.leafIndex <= plans[0][0].leafIndex
  {
    var primary := SelectSpendNotes(notes, amount);
    if primary == [] {
      forall n | n in notes ensures n.amount < amount { SingletonPick(n, notes); }
      return [];
    }
    var newest := NewestCoveringNote(notes, amount);
    if newest.Some? { SingletonPick(newest.value, notes); }
    plans := ListPlans(primary, newest);
    ListedPlansCover(primary, newest, notes, amount);
  }

  lemma {:induction false} ListedPlansCover(
      primary: seq<SpendableNote>, newest: Option<SpendableNote>, notes: seq<SpendableNote>, amount: int)
    requires 1 <= |primary| <= 2 && Covers(primary, notes, amount)
    requires newest.Some? ==> Covers([newest.value], notes, amount)
    ensures var plans := PlansOf(primary, newest);
            && 1 <= |plans| <= 2 && (newest.Some? ==> plans[0] == [newest.value])
            && forall p :: p in plans ==> 1 <= |p| <= 2 && Covers(p, notes, amount)
  {
  }

  method ListPlans(primary: seq<SpendableNote>, newest: Option<SpendableNote>) returns (plans: seq<seq<SpendableNote>>)
    requires primary != []
    ensures plans == PlansOf(primary, newest)
  {
    plans := [];
    if newest.Some? {
      plans := [[newest.value]];
    }
    if !exists p :: p in plans && SameSpendPlan(p, primary) {
      plans := plans + [primary];
    }
  }
}
