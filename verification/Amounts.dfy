/** Notes, totals and the exchange argument behind every largest-first choice. */
module Amounts {

  /** A note an account can spend: its amount and its position in the pool tree. */
  datatype SpendableNote = SpendableNote(amount: nat, leafIndex: nat)

  function Total(notes: seq<SpendableNote>): nat
  {
    if notes == [] then 0 else notes[0].amount + Total(notes[1..])
  }

  function Positive(notes: seq<SpendableNote>): (r: seq<SpendableNote>)
    ensures |r| <= |notes|
  {
    if notes == [] then []
    else if notes[0].amount > 0 then [notes[0]] + Positive(notes[1..])
    else Positive(notes[1..])
  }

  lemma {:induction false} PositiveFacts(notes: seq<SpendableNote>)
    ensures forall n :: n in Positive(notes) <==> n in notes && n.amount > 0
    ensures Total(Positive(notes)) == Total(notes)
  {
    if notes == [] {
    } else {
      PositiveFacts(notes[1..]);
      if notes[0].amount > 0 { TotalAppend([notes[0]], Positive(notes[1..])); }
    }
  }

  ghost predicate Descending(notes: seq<SpendableNote>)
  {
    forall i, j :: 0 <= i < j < |notes| ==> notes[i].amount >= notes[j].amount
  }

  /** `pick` takes some of `notes`, each at most as often as it is there. */
  ghost predicate Picks(pick: seq<SpendableNote>, notes: seq<SpendableNote>)
  {
    multiset(pick) <= multiset(notes)
  }

  /** `pick` pays for `amount`. */
  ghost predicate Covers(pick: seq<SpendableNote>, notes: seq<SpendableNote>, amount: int)
  {
    Picks(pick, notes) && Total(pick) >= amount
  }

  // ----- totals -----

  lemma {:induction false} TotalAppend(a: seq<SpendableNote>, b: seq<SpendableNote>)
    ensures Total(a + b) == Total(a) + Total(b)
  {
    if a == [] {
      assert a + b == b;
    } else {
      assert (a + b)[1..] == a[1..] + b;
      TotalAppend(a[1..], b);
    }
  }

  lemma {:induction false} TotalSplit(s: seq<SpendableNote>, i: nat)
    requires i <= |s|
    ensures Total(s) == Total(s[..i]) + Total(s[i..])
  {
    assert s == s[..i] + s[i..];
    TotalAppend(s[..i], s[i..]);
  }

  lemma {:induction false} TotalPrefixStep(notes: seq<SpendableNote>, k: nat)
    requires k < |notes|
    ensures Total(notes[..k + 1]) == Total(notes[..k]) + notes[k].amount
  {
    assert notes[..k + 1] == notes[..k] + [notes[k]];
    TotalAppend(notes[..k], [notes[k]]);
  }

  lemma {:induction false} TotalPrefixMonotone(notes: seq<SpendableNote>, j: nat, k: nat)
    requires j <= k <= |notes|
    ensures Total(notes[..j]) <= Total(notes[..k])
  {
    assert notes[..k] == notes[..j] + notes[j..k];
    TotalAppend(notes[..j], notes[j..k]);
  }

  /** Taking one occurrence out of a sequence. */
  function Without<T>(s: seq<T>, i: nat): (r: seq<T>)
    requires i < |s|
    ensures |r| == |s| - 1
  {
    s[..i] + s[i + 1..]
  }

  lemma {:induction false} WithoutFacts(s: seq<SpendableNote>, i: nat)
    requires i < |s|
    ensures multiset(Without(s, i)) == multiset(s) - multiset{s[i]}
    ensures Total(s) == s[i].amount + Total(Without(s, i))
  {
    WithoutMembers(s, i);
    WithoutTotal(s, i);
  }

  lemma {:induction false} WithoutMembers<T>(s: seq<T>, i: nat)
    requires i < |s|
    ensures multiset(Without(s, i)) == multiset(s) - multiset{s[i]}
  {
    assert s == s[..i] + ([s[i]] + s[i + 1..]);
  }

  lemma {:induction false} WithoutTotal(s: seq<SpendableNote>, i: nat)
    requires i < |s|
    ensures Total(s) == s[i].amount + Total(Without(s, i))
  {
    TotalSplit(s, i);
    assert s[i..][1..] == s[i + 1..];
    TotalAppend(s[..i], s[i + 1..]);
  }

  /** Rearranging notes does not change their total. */
  lemma {:induction false} TotalOfPermutation(a: seq<SpendableNote>, b: seq<SpendableNote>)
    requires multiset(a) == multiset(b)
    ensures Total(a) == Total(b) && |a| == |b|
  {
    if a == [] {
      assert |multiset(b)| == 0;
    } else {
      var x := a[0];
      assert a == [x] + a[1..];
      assert x in multiset(b);
      var i :| 0 <= i < |b| && b[i] == x;
      WithoutFacts(b, i);
      TotalOfPermutation(a[1..], Without(b, i));
    }
  }

  // ----- the exchange argument -----

  /** Dropping the largest note for the next one in line does not gain anything. */
  lemma {:induction false} SlidingLoses(desc: seq<SpendableNote>, k: nat)
    requires Descending(desc) && k < |desc|
    ensures Total(desc[1..][..k]) <= Total(desc[..k])
  {
    if k > 0 {
      assert desc[1..][..k] == desc[1..k] + [desc[k]];
      assert desc[..k] == [desc[0]] + desc[1..k];
      TotalAppend(desc[1..k], [desc[k]]);
      TotalAppend([desc[0]], desc[1..k]);
    }
  }

  /** Choosing without taking the first note is choosing from the rest. */
  lemma {:induction false} PickAvoiding(notes: seq<SpendableNote>, pick: seq<SpendableNote>)
    requires notes != [] && Picks(pick, notes) && notes[0] !in pick
    ensures Picks(pick, notes[1..])
  {
    assert notes == [notes[0]] + notes[1..];
    assert multiset(pick)[notes[0]] == 0;
  }

  /** Taking the first note once leaves a choice from the rest. */
  lemma {:induction false} PickTaking(notes: seq<SpendableNote>, pick: seq<SpendableNote>, i: nat)
    requires notes != [] && Picks(pick, notes) && i < |pick| && pick[i] == notes[0]
    ensures Picks(Without(pick, i), notes[1..])
  {
    assert notes == [notes[0]] + notes[1..];
    WithoutMembers(pick, i);
  }

  lemma {:induction false} TakingLargest(desc: seq<SpendableNote>, pick: seq<SpendableNote>, i: nat)
    requires i < |pick| <= |desc| && pick[i] == desc[0]
    requires Total(Without(pick, i)) <= Total(desc[1..][..|pick| - 1])
    ensures Total(pick) <= Total(desc[..|pick|])
  {
    WithoutTotal(pick, i);
    assert desc[..|pick|] == [desc[0]] + desc[1..][..|pick| - 1];
    TotalAppend([desc[0]], desc[1..][..|pick| - 1]);
  }

  lemma {:induction false} NothingToPick(pick: seq<SpendableNote>)
    requires Picks(pick, [])
    ensures pick == []
  {
    assert |multiset(pick)| == |pick|;
  }

  /** No choice of `k` notes is worth more than the `k` largest. */
  lemma {:induction false} LargestFirstDominates(desc: seq<SpendableNote>, pick: seq<SpendableNote>)
    requires Descending(desc) && Picks(pick, desc)
    ensures |pick| <= |desc|
    ensures Total(pick) <= Total(desc[..|pick|])
  {
    if desc == [] {
      NothingToPick(pick);
    } else if pick != [] {
      if i: nat :| i < |pick| && pick[i] == desc[0] {
        PickTaking(desc, pick, i);
        LargestFirstDominates(desc[1..], Without(pick, i));
        TakingLargest(desc, pick, i);
      } else {
        PickAvoiding(desc, pick);
        LargestFirstDominates(desc[1..], pick);
        SlidingLoses(desc, |pick|);
      }
    }
  }

  // ----- sorting -----

  /** Place a note into a largest-first sequence, behind the notes of the same amount. */
  function Place(n: SpendableNote, desc: seq<SpendableNote>): seq<SpendableNote>
  {
    if desc == [] || n.amount > desc[0].amount then [n] + desc
    else [desc[0]] + Place(n, desc[1..])
  }

  lemma {:induction false} PlaceAdds(n: SpendableNote, desc: seq<SpendableNote>)
    ensures multiset(Place(n, desc)) == multiset(desc) + multiset{n}
  {
    if desc == [] || n.amount > desc[0].amount {
    } else {
      assert desc == [desc[0]] + desc[1..];
      PlaceAdds(n, desc[1..]);
    }
  }

  lemma {:induction false} PlaceKeepsOrder(n: SpendableNote, desc: seq<SpendableNote>)
    requires Descending(desc)
    ensures Descending(Place(n, desc))
    ensures forall m :: m in Place(n, desc) ==> m == n || m in desc
  {
    if desc == [] || n.amount > desc[0].amount {
    } else {
      var tail := Place(n, desc[1..]);
      PlaceKeepsOrder(n, desc[1..]);
      forall j | 0 <= j < |tail| ensures tail[j].amount <= desc[0].amount {
        assert tail[j] in tail;
      }
    }
  }

  /** The notes largest first, equal amounts in the order they came in. */
  function Arranged(notes: seq<SpendableNote>): seq<SpendableNote>
  {
    if notes == [] then [] else Place(notes[|notes| - 1], Arranged(notes[..|notes| - 1]))
  }

  lemma {:induction false} ArrangedFacts(notes: seq<SpendableNote>)
    ensures multiset(Arranged(notes)) == multiset(notes) && Descending(Arranged(notes))
  {
    if notes == [] {
    } else {
      var init, last := notes[..|notes| - 1], notes[|notes| - 1];
      assert notes == init + [last];
      ArrangedFacts(init);
      PlaceAdds(last, Arranged(init));
      PlaceKeepsOrder(last, Arranged(init));
    }
  }

  /** The notes of one amount, in order. */
  function OfAmount(notes: seq<SpendableNote>, x: nat): seq<SpendableNote>
  {
    if notes == [] then []
    else OfAmount(notes[..|notes| - 1], x) + if notes[|notes| - 1].amount == x then [notes[|notes| - 1]] else []
  }

  lemma {:induction false} OfAmountAppend(a: seq<SpendableNote>, b: seq<SpendableNote>, x: nat)
    ensures OfAmount(a + b, x) == OfAmount(a, x) + OfAmount(b, x)
    decreases |b|
  {
    if b == [] {
      assert a + b == a;
    } else {
      assert (a + b)[..|a + b| - 1] == a + b[..|b| - 1];
      OfAmountAppend(a, b[..|b| - 1], x);
    }
  }

  lemma {:induction false} OfOtherAmounts(notes: seq<SpendableNote>, x: nat)
    requires forall k :: 0 <= k < |notes| ==> notes[k].amount != x
    ensures OfAmount(notes, x) == []
  {
    if notes == [] {
    } else {
      OfOtherAmounts(notes[..|notes| - 1], x);
    }
  }

  lemma {:induction false} PlaceIsStable(n: SpendableNote, desc: seq<SpendableNote>, x: nat)
    requires Descending(desc)
    ensures OfAmount(Place(n, desc), x) == OfAmount(desc, x) + if n.amount == x then [n] else []
  {
    OfAmountAppend([], [n], x);
    assert [] + [n] == [n];
    if desc == [] {
    } else if n.amount > desc[0].amount {
      OfAmountAppend([n], desc, x);
      if n.amount == x { OfOtherAmounts(desc, x); }
    } else {
      PlaceIsStable(n, desc[1..], x);
      OfAmountAppend([desc[0]], desc[1..], x);
      OfAmountAppend([desc[0]], Place(n, desc[1..]), x);
      assert desc == [desc[0]] + desc[1..];
    }
  }

  /** Notes of the same amount stay in the order they came in. */
  lemma {:induction false} ArrangedIsStable(notes: seq<SpendableNote>, x: nat)
    ensures OfAmount(Arranged(notes), x) == OfAmount(notes, x)
  {
    if notes == [] {
    } else {
      ArrangedIsStable(notes[..|notes| - 1], x);
      ArrangedFacts(notes[..|notes| - 1]);
      PlaceIsStable(notes[|notes| - 1], Arranged(notes[..|notes| - 1]), x);
    }
  }

  /** A largest-first arrangement, stable among equal amounts. */
  method Arrange(notes: seq<SpendableNote>) returns (desc: seq<SpendableNote>)
    ensures desc == Arranged(notes)
  {
    desc := [];
    for i := 0 to |notes|
      invariant desc == Arranged(notes[..i])
    {
      assert notes[..i + 1][..i] == notes[..i];
      desc := Place(notes[i], desc);
    }
    assert notes[..|notes|] == notes;
  }

  /** A largest-first arrangement, for callers that do not care about the order among equal amounts. */
  method SortLargestFirst(notes: seq<SpendableNote>) returns (desc: seq<SpendableNote>)
    ensures multiset(desc) == multiset(notes) && Descending(desc)
    ensures |desc| == |notes| && Total(desc) == Total(notes)
  {
    desc := Arrange(notes);
    ArrangedFacts(notes);
    TotalOfPermutation(desc, notes);
  }

  /** A note is in a rearrangement exactly if it is in the original. */
  lemma {:induction false} SameMembers(a: seq<SpendableNote>, b: seq<SpendableNote>)
    requires multiset(a) == multiset(b)
    ensures forall n :: n in a <==> n in b
  {
    forall n ensures n in a <==> n in b {
      assert n in multiset(a) <==> n in multiset(b);
    }
  }

  // ----- amounts alone -----

  function AmountsOf(notes: seq<SpendableNote>): seq<nat>
  {
    seq(|notes|, k requires 0 <= k < |notes| => notes[k].amount)
  }

  /** Notes of the given amounts; where they lie does not matter. */
  function NotesOf(amounts: seq<nat>): seq<SpendableNote>
  {
    seq(|amounts|, k requires 0 <= k < |amounts| => SpendableNote(amounts[k], 0))
  }

  lemma {:induction false} AmountsOfConcat(a: seq<SpendableNote>, b: seq<SpendableNote>)
    ensures AmountsOf(a + b) == AmountsOf(a) + AmountsOf(b)
  {
  }

  lemma {:induction false} AmountsOfWithout(s: seq<SpendableNote>, i: nat)
    requires i < |s|
    ensures multiset(AmountsOf(s)) == multiset(AmountsOf(Without(s, i))) + multiset{s[i].amount}
  {
    var front, back := s[..i], s[i + 1..];
    assert AmountsOf(s) == AmountsOf(front) + [s[i].amount] + AmountsOf(back);
    AmountsOfConcat(front, back);
  }

  lemma {:induction false} AmountsOfPermutation(a: seq<SpendableNote>, b: seq<SpendableNote>)
    requires multiset(a) == multiset(b)
    ensures multiset(AmountsOf(a)) == multiset(AmountsOf(b))
  {
    if a == [] {
      assert |multiset(b)| == 0;
    } else {
      assert a[0] in multiset(b);
      var i :| 0 <= i < |b| && b[i] == a[0];
      WithoutMembers(a, 0);
      WithoutMembers(b, i);
      AmountsOfPermutation(Without(a, 0), Without(b, i));
      AmountsOfWithout(a, 0);
      AmountsOfWithout(b, i);
    }
  }
}
