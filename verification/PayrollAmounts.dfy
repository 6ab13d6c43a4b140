/** Batched payroll on amounts alone: whether the largest-first rule serves a whole run can be told
    from the treasury's amounts and the payouts, before anything is submitted. */
module PayrollAmounts {
  import opened Amounts
  import opened Payments

  // ----- amounts, largest first -----

  predicate NonIncreasing(xs: seq<nat>)
  {
    forall i, j :: 0 <= i < j < |xs| ==> xs[i] >= xs[j]
  }

  /** The amounts, largest first. */
  function SortDown(xs: seq<nat>): seq<nat>
  {
    AmountsOf(Arranged(NotesOf(xs)))
  }

  lemma {:induction false} HeadAndTail(xs: seq<nat>)
    requires xs != []
    ensures multiset(xs) == multiset{xs[0]} + multiset(xs[1..])
  {
    assert xs == [xs[0]] + xs[1..];
  }

  lemma {:induction false} SortedDown(xs: seq<nat>)
    ensures NonIncreasing(SortDown(xs)) && multiset(SortDown(xs)) == multiset(xs) && |SortDown(xs)| == |xs|
  {
    ArrangedFacts(NotesOf(xs));
    AmountsOfPermutation(Arranged(NotesOf(xs)), NotesOf(xs));
    assert AmountsOf(NotesOf(xs)) == xs;
    SameSize(SortDown(xs), xs);
  }

  lemma {:induction false} SameSize(a: seq<nat>, b: seq<nat>)
    requires multiset(a) == multiset(b)
    ensures |a| == |b|
  {
    assert |multiset(a)| == |multiset(b)|;
  }

  lemma {:induction false} HeadIsLargest(desc: seq<nat>, x: nat)
    requires NonIncreasing(desc) && x in multiset(desc)
    ensures desc != [] && x <= desc[0]
  {
    assert x in desc;
  }

  lemma {:induction false} SameTails(a: seq<nat>, b: seq<nat>)
    requires a != [] && b != [] && a[0] == b[0] && multiset(a) == multiset(b)
    ensures multiset(a[1..]) == multiset(b[1..])
  {
    HeadAndTail(a);
    HeadAndTail(b);
    assert multiset(a[1..]) == multiset(a) - multiset{a[0]};
  }

  /** There is only one largest-first arrangement of a list of amounts. */
  lemma {:induction false} SortedOnce(a: seq<nat>, b: seq<nat>)
    requires NonIncreasing(a) && NonIncreasing(b) && multiset(a) == multiset(b)
    ensures a == b
  {
    SameSize(a, b);
    if a == [] {
    } else {
      assert a[0] in multiset(a) && b[0] in multiset(b);
      HeadIsLargest(b, a[0]);
      HeadIsLargest(a, b[0]);
      SameTails(a, b);
      SortedOnce(a[1..], b[1..]);
    }
  }

  /** More amounts are, rank by rank, no smaller. */
  lemma {:induction false} MoreDominates(a: seq<nat>, b: seq<nat>, k: nat)
    requires NonIncreasing(a) && NonIncreasing(b) && multiset(a) <= multiset(b) && k < |a|
    ensures k < |b| && b[k] >= a[k]
  {
    assert a[0] in multiset(a);
    HeadIsLargest(b, a[0]);
    if k == 0 {
    } else {
      FirstTakenOff(a, b);
      MoreDominates(a[1..], b[1..], k - 1);
    }
  }

  lemma {:induction false} FirstTakenOff(a: seq<nat>, b: seq<nat>)
    requires NonIncreasing(a) && NonIncreasing(b) && multiset(a) <= multiset(b) && a != [] && b != []
    ensures multiset(a[1..]) <= multiset(b[1..])
  {
    HeadAndTail(a);
    HeadAndTail(b);
    assert a[0] in multiset(a);
    HeadIsLargest(b, a[0]);
    forall x: nat ensures multiset(a[1..])[x] <= multiset(b[1..])[x] {
      if x == b[0] && x in multiset(a) {
        HeadIsLargest(a, x);
      }
      assert multiset(a)[x] <= multiset(b)[x];
    }
  }

  // ----- the rule -----

  /** The chunk of payouts that starts at `off`. */
  function ChunkAt(payouts: seq<Payout>, off: nat, cap: nat): (chunk: seq<Payout>)
    requires off < |payouts| && cap > 0
    ensures 0 < |chunk| <= cap && payouts[..off] + chunk <= payouts
    ensures off + |chunk| < |payouts| ==> |chunk| == cap
  {
    payouts[off..if off + cap <= |payouts| then off + cap else |payouts|]
  }

  /** The k-th largest amount covers payout `k`. */
  predicate CoversInOrder(desc: seq<nat>, payouts: seq<Payout>)
  {
    |payouts| <= |desc| && forall k :: 0 <= k < |payouts| ==> desc[k] >= payouts[k].amount
  }

  /** A payout to the treasury itself comes back to it. */
  function PaidBack(p: Payout, org: int): seq<nat>
  {
    if p.to == org then [p.amount] else []
  }

  /** What a chunk gives back to the treasury: the change of each spend, and a payout to itself. */
  function Returned(desc: seq<nat>, chunk: seq<Payout>, org: int, k: nat): seq<nat>
    requires k <= |chunk| && CoversInOrder(desc, chunk)
  {
    if k == 0 then []
    else
      Returned(desc, chunk, org, k - 1) + [desc[k - 1] - chunk[k - 1].amount]
      + PaidBack(chunk[k - 1], org)
  }

  /** The treasury after a chunk. */
  function AfterChunk(desc: seq<nat>, chunk: seq<Payout>, org: int): seq<nat>
    requires CoversInOrder(desc, chunk)
  {
    desc[|chunk|..] + Returned(desc, chunk, org, |chunk|)
  }

  /** The rule gets through the whole run. */
  predicate Serves(amounts: seq<nat>, payouts: seq<Payout>, org: int, cap: nat)
    requires cap > 0
    decreases |payouts|, 0
  {
    payouts == [] ||
    var chunk := ChunkAt(payouts, 0, cap);
    ServesRest(amounts, chunk, payouts[|chunk|..], org, cap)
  }

  /** The rule serves `chunk`, and then `rest` out of what is left. */
  predicate ServesRest(amounts: seq<nat>, chunk: seq<Payout>, rest: seq<Payout>, org: int, cap: nat)
    requires cap > 0
    decreases |rest|, 1
  {
    CoversInOrder(SortDown(amounts), chunk) && Serves(AfterChunk(SortDown(amounts), chunk, org), rest, org, cap)
  }

  /** Whether a run is served does not depend on the order the amounts are listed in. */
  lemma {:induction false} ServesAnyOrder(a: seq<nat>, b: seq<nat>, payouts: seq<Payout>, org: int, cap: nat)
    requires cap > 0 && multiset(a) == multiset(b)
    ensures Serves(a, payouts, org, cap) <==> Serves(b, payouts, org, cap)
  {
    SortedDown(a);
    SortedDown(b);
    SortedOnce(SortDown(a), SortDown(b));
  }

  /** A treasury whose k-th largest note covers payout `k` of the whole run serves it under every cap:
      what a chunk leaves untouched still covers the rest. */
  lemma {:induction false} CoveredRunIsServed(amounts: seq<nat>, payouts: seq<Payout>, org: int, cap: nat)
    requires cap > 0 && CoversInOrder(SortDown(amounts), payouts)
    ensures Serves(amounts, payouts, org, cap)
    decreases |payouts|
  {
    if payouts == [] {
    } else {
      var desc, chunk := SortDown(amounts), ChunkAt(payouts, 0, cap);
      var c, after := |chunk|, AfterChunk(desc, chunk, org);
      SortedDown(amounts);
      SortedDown(after);
      forall k | 0 <= k < |payouts| - c ensures k < |SortDown(after)| && SortDown(after)[k] >= payouts[c..][k].amount {
        assert multiset(after) == multiset(desc[c..]) + multiset(Returned(desc, chunk, org, c));
        MoreDominates(desc[c..], SortDown(after), k);
      }
      CoveredRunIsServed(after, payouts[c..], org, cap);
    }
  }

  // ----- when the rule is complete -----

  ghost predicate Falling(payouts: seq<Payout>)
  {
    forall i, j :: 0 <= i < j < |payouts| ==> payouts[i].amount >= payouts[j].amount
  }

  /** Every payout of the run can be given an amount of its own that covers it. */
  ghost predicate CoverableBy(amounts: seq<nat>, payouts: seq<Payout>)
  {
    exists owns: seq<nat> {:trigger OwnAmounts(amounts, payouts, owns)} :: OwnAmounts(amounts, payouts, owns)
  }

  ghost predicate OwnAmounts(amounts: seq<nat>, payouts: seq<Payout>, owns: seq<nat>)
  {
    && multiset(owns) <= multiset(amounts) && |owns| == |payouts|
    && forall k :: 0 <= k < |payouts| ==> owns[k] >= payouts[k].amount
  }

  /** Falling payouts that can each be given an amount of their own are covered in order. */
  lemma {:induction false} FallingIsCovered(amounts: seq<nat>, payouts: seq<Payout>, owns: seq<nat>)
    requires Falling(payouts) && OwnAmounts(amounts, payouts, owns)
    ensures CoversInOrder(SortDown(amounts), payouts)
  {
    SortedDown(amounts);
    SortedDown(owns);
    if payouts != [] {
      MoreDominates(SortDown(owns), SortDown(amounts), |payouts| - 1);
    }
    forall k | 0 <= k < |payouts| ensures k < |SortDown(amounts)| && SortDown(amounts)[k] >= payouts[k].amount {
      MoreDominates(SortDown(owns), SortDown(amounts), k);
      RankCovers(owns, payouts, k);
    }
  }

  /** The first `k + 1` amounts all cover payout `k`, so the k-th largest does. */
  lemma {:induction false} RankCovers(owns: seq<nat>, payouts: seq<Payout>, k: nat)
    requires Falling(payouts) && |owns| == |payouts| && k < |payouts|
    requires forall j :: 0 <= j < |payouts| ==> owns[j] >= payouts[j].amount
    ensures k < |SortDown(owns)| && SortDown(owns)[k] >= payouts[k].amount
  {
    var first := owns[..k + 1];
    SortedDown(owns);
    SortedDown(first);
    PrefixIsPart(owns, k + 1);
    MoreDominates(SortDown(first), SortDown(owns), k);
    assert SortDown(first)[k] in multiset(SortDown(first));
    LeastOfFirst(owns, payouts, k, SortDown(first)[k]);
  }

  lemma {:induction false} PrefixIsPart(xs: seq<nat>, k: nat)
    requires k <= |xs|
    ensures multiset(xs[..k]) <= multiset(xs)
  {
    assert xs == xs[..k] + xs[k..];
  }

  lemma {:induction false} LeastOfFirst(owns: seq<nat>, payouts: seq<Payout>, k: nat, x: nat)
    requires Falling(payouts) && |owns| == |payouts| && k < |payouts| && x in multiset(owns[..k + 1])
    requires forall j :: 0 <= j < |payouts| ==> owns[j] >= payouts[j].amount
    ensures x >= payouts[k].amount
  {
    var j :| 0 <= j <= k && owns[..k + 1][j] == x;
    assert payouts[j].amount >= payouts[k].amount;
  }

  function AmountsOfPayouts(payouts: seq<Payout>): (r: seq<nat>)
    ensures |r| == |payouts|
  {
    seq(|payouts|, k requires 0 <= k < |payouts| => payouts[k].amount)
  }

  function SumOf(xs: seq<nat>): nat
  {
    if xs == [] then 0 else xs[0] + SumOf(xs[1..])
  }

  function PositivesIn(xs: seq<nat>): (n: nat)
    ensures n <= |xs|
  {
    if xs == [] then 0 else (if xs[0] > 0 then 1 else 0) + PositivesIn(xs[1..])
  }

  lemma {:induction false} MeasureConcat(a: seq<nat>, b: seq<nat>)
    ensures SumOf(a + b) == SumOf(a) + SumOf(b) && PositivesIn(a + b) == PositivesIn(a) + PositivesIn(b)
  {
    if a == [] {
      assert a + b == b;
    } else {
      assert (a + b)[1..] == a[1..] + b;
      MeasureConcat(a[1..], b);
    }
  }

  lemma {:induction false} WithoutMeasure(xs: seq<nat>, i: nat)
    requires i < |xs|
    ensures SumOf(xs) == SumOf(Without(xs, i)) + xs[i]
    ensures PositivesIn(xs) == PositivesIn(Without(xs, i)) + if xs[i] > 0 then 1 else 0
  {
    var front, back := xs[..i], xs[i + 1..];
    assert xs == front + ([xs[i]] + back);
    MeasureConcat(front, [xs[i]] + back);
    MeasureConcat([xs[i]], back);
    MeasureConcat(front, back);
    SumOfOne(xs[i]);
  }

  /** Rearranging keeps the sum and the number of positive amounts. */
  lemma {:induction false} MeasurePermutation(a: seq<nat>, b: seq<nat>)
    requires multiset(a) == multiset(b)
    ensures SumOf(a) == SumOf(b) && PositivesIn(a) == PositivesIn(b)
  {
    SameSize(a, b);
    if a == [] {
    } else {
      assert a[0] in multiset(b);
      var i :| 0 <= i < |b| && b[i] == a[0];
      WithoutMembers(a, 0);
      WithoutMembers(b, i);
      WithoutMeasure(a, 0);
      WithoutMeasure(b, i);
      MeasurePermutation(Without(a, 0), Without(b, i));
    }
  }

  lemma {:induction false} MeasureSorted(xs: seq<nat>)
    ensures SumOf(SortDown(xs)) == SumOf(xs) && PositivesIn(SortDown(xs)) == PositivesIn(xs)
  {
    SortedDown(xs);
    MeasurePermutation(SortDown(xs), xs);
  }

  /** No payout is back to the treasury. */
  predicate PaysOthers(payouts: seq<Payout>, org: int)
  {
    forall k :: 0 <= k < |payouts| ==> payouts[k].to != org
  }

  lemma {:induction false} ReturnedChange(desc: seq<nat>, chunk: seq<Payout>, org: int, k: nat)
    requires k <= |chunk| && CoversInOrder(desc, chunk) && PaysOthers(chunk, org)
    ensures |Returned(desc, chunk, org, k)| == k
    ensures forall j :: 0 <= j < k ==> Returned(desc, chunk, org, k)[j] == desc[j] - chunk[j].amount
    ensures SumOf(Returned(desc, chunk, org, k)) + SumOf(AmountsOfPayouts(chunk[..k])) == SumOf(desc[..k])
  {
    if k == 0 {
    } else {
      ReturnedChange(desc, chunk, org, k - 1);
      var change := desc[k - 1] - chunk[k - 1].amount;
      assert Returned(desc, chunk, org, k) == Returned(desc, chunk, org, k - 1) + [change];
      MeasureConcat(Returned(desc, chunk, org, k - 1), [change]);
      MeasureConcat(desc[..k - 1], [desc[k - 1]]);
      assert desc[..k] == desc[..k - 1] + [desc[k - 1]];
      MeasureConcat(AmountsOfPayouts(chunk[..k - 1]), [chunk[k - 1].amount]);
      assert AmountsOfPayouts(chunk[..k]) == AmountsOfPayouts(chunk[..k - 1]) + [chunk[k - 1].amount];
      SumOfOne(change);
      SumOfOne(desc[k - 1]);
      SumOfOne(chunk[k - 1].amount);
    }
  }

  lemma {:induction false} SumOfOne(x: nat)
    ensures SumOf([x]) == x && PositivesIn([x]) == if x > 0 then 1 else 0
  {
    assert [x][1..] == [];
  }

  lemma {:induction false} SumOfSnoc(xs: seq<nat>)
    requires xs != []
    ensures SumOf(xs) == SumOf(xs[..|xs| - 1]) + xs[|xs| - 1]
  {
    MeasureConcat(xs[..|xs| - 1], [xs[|xs| - 1]]);
    SumOfOne(xs[|xs| - 1]);
    assert xs == xs[..|xs| - 1] + [xs[|xs| - 1]];
  }

  /** A chunk takes exactly its payouts out of the treasury. */
  lemma {:induction false} AfterChunkMeasures(desc: seq<nat>, payouts: seq<Payout>, org: int, c: nat)
    requires c <= |payouts| && CoversInOrder(desc, payouts[..c]) && PaysOthers(payouts, org)
    ensures var after := AfterChunk(desc, payouts[..c], org);
            && SumOf(after) + SumOf(AmountsOfPayouts(payouts)) == SumOf(desc) + SumOf(AmountsOfPayouts(payouts[c..]))
            && PositivesIn(after) == PositivesIn(desc[c..]) + PositivesIn(Returned(desc, payouts[..c], org, c))
            && PositivesIn(desc) <= c + PositivesIn(desc[c..])
  {
    var chunk := payouts[..c];
    ReturnedChange(desc, chunk, org, c);
    assert chunk[..c] == chunk;
    MeasureConcat(desc[..c], desc[c..]);
    assert desc == desc[..c] + desc[c..];
    MeasureConcat(desc[c..], Returned(desc, chunk, org, c));
    MeasureConcat(AmountsOfPayouts(chunk), AmountsOfPayouts(payouts[c..]));
    assert AmountsOfPayouts(payouts) == AmountsOfPayouts(chunk) + AmountsOfPayouts(payouts[c..]);
  }

  /** A run that uses up the treasury has at least as many payouts as the treasury has positive notes. */
  lemma {:induction false} UsedUpByEnough(amounts: seq<nat>, payouts: seq<Payout>, org: int, cap: nat)
    requires cap > 0 && Serves(amounts, payouts, org, cap) && PaysOthers(payouts, org)
    requires SumOf(amounts) == SumOf(AmountsOfPayouts(payouts))
    ensures PositivesIn(amounts) <= |payouts|
    decreases |payouts|
  {
    if payouts == [] {
      NothingPositive(amounts);
    } else {
      var desc, chunk := SortDown(amounts), ChunkAt(payouts, 0, cap);
      assert chunk == payouts[..|chunk|];
      MeasureSorted(amounts);
      AfterChunkMeasures(desc, payouts, org, |chunk|);
      UsedUpByEnough(AfterChunk(desc, chunk, org), payouts[|chunk|..], org, cap);
    }
  }

  lemma {:induction false} NothingPositive(xs: seq<nat>)
    ensures SumOf(xs) == 0 ==> PositivesIn(xs) == 0
    ensures PositivesIn(xs) == 0 ==> forall k :: 0 <= k < |xs| ==> xs[k] == 0
  {
    if xs == [] {
    } else {
      NothingPositive(xs[1..]);
      assert forall k :: 0 < k < |xs| ==> xs[k] == xs[1..][k - 1];
    }
  }

  /** Change of nothing means whole notes. */
  lemma {:induction false} NoChange(desc: seq<nat>, payouts: seq<Payout>, org: int, c: nat)
    requires c <= |payouts| && CoversInOrder(desc, payouts[..c]) && PaysOthers(payouts, org)
    requires PositivesIn(Returned(desc, payouts[..c], org, c)) == 0
    ensures forall x :: x in Returned(desc, payouts[..c], org, c) ==> x == 0
    ensures forall j :: 0 <= j < c ==> desc[j] == payouts[j].amount
  {
    var change := Returned(desc, payouts[..c], org, c);
    NothingPositive(change);
    ReturnedChange(desc, payouts[..c], org, c);
    forall j | 0 <= j < c ensures desc[j] == payouts[j].amount {
      assert change[j] == desc[j] - payouts[..c][j].amount;
    }
  }

  /** If there are just as many, every payout takes a whole note, so the payouts fall. */
  lemma {:induction false} UsedUpInOrder(amounts: seq<nat>, payouts: seq<Payout>, org: int, cap: nat)
    requires cap > 0 && Serves(amounts, payouts, org, cap) && PaysOthers(payouts, org)
    requires SumOf(amounts) == SumOf(AmountsOfPayouts(payouts)) && PositivesIn(amounts) == |payouts|
    requires forall k :: 0 <= k < |payouts| ==> payouts[k].amount > 0
    ensures Falling(payouts) && forall k :: 0 <= k < |payouts| ==> payouts[k].amount in amounts
    decreases |payouts|
  {
    if payouts == [] {
    } else {
      var desc, chunk := SortDown(amounts), ChunkAt(payouts, 0, cap);
      var c, after := |chunk|, AfterChunk(desc, chunk, org);
      assert chunk == payouts[..c];
      MeasureSorted(amounts);
      SortedDown(amounts);
      AfterChunkMeasures(desc, payouts, org, c);
      UsedUpByEnough(after, payouts[c..], org, cap);
      NoChange(desc, payouts, org, c);
      UsedUpInOrder(after, payouts[c..], org, cap);
      WholeNotes(amounts, payouts, org, c);
    }
  }

  lemma {:induction false} WholeNotes(amounts: seq<nat>, payouts: seq<Payout>, org: int, c: nat)
    requires c <= |payouts| && CoversInOrder(SortDown(amounts), payouts[..c])
    requires forall j :: 0 <= j < c ==> SortDown(amounts)[j] == payouts[j].amount
    requires forall x :: x in Returned(SortDown(amounts), payouts[..c], org, c) ==> x == 0
    requires Falling(payouts[c..])
    requires forall k :: 0 <= k < |payouts[c..]| ==>
             payouts[c..][k].amount in AfterChunk(SortDown(amounts), payouts[..c], org)
    requires forall k :: 0 <= k < |payouts| ==> payouts[k].amount > 0
    ensures Falling(payouts) && forall k :: 0 <= k < |payouts| ==> payouts[k].amount in amounts
  {
    var desc := SortDown(amounts);
    SortedDown(amounts);
    forall k | 0 <= k < |payouts|
      ensures payouts[k].amount in amounts && (k >= c ==> payouts[k].amount in desc[c..])
    {
      if k >= c {
        assert payouts[c..][k - c] == payouts[k];
        assert payouts[k].amount in desc[c..];
      }
      assert payouts[k].amount in desc;
      assert payouts[k].amount in multiset(desc);
    }
    forall i, j | 0 <= i < j < |payouts| ensures payouts[i].amount >= payouts[j].amount {
      if i >= c {
        assert payouts[c..][i - c].amount >= payouts[c..][j - c].amount;
      } else if j >= c {
        var m :| 0 <= m < |desc[c..]| && desc[c..][m] == payouts[j].amount;
        assert desc[c..][m] == desc[c + m];
      }
    }
  }

  /** For positive payouts to others, the rule serves every treasury that has a distinct covering note
      for each payout if and only if the payouts fall, whatever the cap. */
  lemma {:induction false} RunCompleteIffFalling(payouts: seq<Payout>, org: int, cap: nat)
    requires cap > 0 && PaysOthers(payouts, org) && forall k :: 0 <= k < |payouts| ==> payouts[k].amount > 0
    ensures (forall amounts {:trigger CoverableBy(amounts, payouts)} ::
               CoverableBy(amounts, payouts) ==> Serves(amounts, payouts, org, cap))
            <==> Falling(payouts)
  {
    if Falling(payouts) {
      forall amounts | CoverableBy(amounts, payouts) ensures Serves(amounts, payouts, org, cap) {
        var owns: seq<nat> :| OwnAmounts(amounts, payouts, owns);
        FallingIsCovered(amounts, payouts, owns);
        CoveredRunIsServed(amounts, payouts, org, cap);
      }
    } else {
      var owed := AmountsOfPayouts(payouts);
      assert OwnAmounts(owed, payouts, owed);
      assert CoverableBy(owed, payouts);
      if Serves(owed, payouts, org, cap) {
        AllPositive(owed);
        UsedUpInOrder(owed, payouts, org, cap);
      }
    }
  }

  lemma {:induction false} AllPositive(xs: seq<nat>)
    requires forall k :: 0 <= k < |xs| ==> xs[k] > 0
    ensures PositivesIn(xs) == |xs|
  {
    if xs == [] {
    } else {
      AllPositive(xs[1..]);
    }
  }

  // ----- change that could be spent again -----

  lemma {:induction false} SortedPair(a: nat, b: nat)
    requires a >= b
    ensures SortDown([a, b]) == [a, b]
  {
    SortedDown([a, b]);
    SortedOnce(SortDown([a, b]), [a, b]);
  }

  /** A run on two notes, one payout at a time. */
  lemma {:induction false} OneAtATime(a: nat, b: nat, payouts: seq<Payout>, org: int)
    requires a >= b && payouts != [] && payouts[0].to != org
    ensures Serves([a, b], payouts, org, 1)
       <==> a >= payouts[0].amount && Serves([b, a - payouts[0].amount], payouts[1..], org, 1)
  {
    SortedPair(a, b);
    var chunk := ChunkAt(payouts, 0, 1);
    assert chunk == [payouts[0]];
    if a >= payouts[0].amount {
      ReturnedChange([a, b], chunk, org, 1);
      assert AfterChunk([a, b], chunk, org) == [b, a - payouts[0].amount];
    }
  }

  /** A run on two notes, two payouts at a time. */
  lemma {:induction false} TwoAtATime(a: nat, b: nat, payouts: seq<Payout>, org: int)
    requires a >= b && |payouts| >= 2 && payouts[0].to != org && payouts[1].to != org
    ensures Serves([a, b], payouts, org, 2)
       <==> && a >= payouts[0].amount && b >= payouts[1].amount
            && Serves([a - payouts[0].amount, b - payouts[1].amount], payouts[2..], org, 2)
  {
    SortedPair(a, b);
    var chunk := ChunkAt(payouts, 0, 2);
    assert chunk == [payouts[0], payouts[1]];
    if a >= payouts[0].amount && b >= payouts[1].amount {
      ReturnedChange([a, b], chunk, org, 2);
      assert AfterChunk([a, b], chunk, org) == [a - payouts[0].amount, b - payouts[1].amount];
    }
  }

  /** Two notes serve no chunk of three, and none whose first payout is larger than both. */
  lemma {:induction false} TwoNotesRefuse(a: nat, b: nat, payouts: seq<Payout>, org: int, cap: nat)
    requires a >= b && cap > 0 && payouts != []
    requires a < payouts[0].amount || (cap >= 3 && |payouts| >= 3)
    ensures !Serves([a, b], payouts, org, cap)
  {
    SortedPair(a, b);
    assert ChunkAt(payouts, 0, cap)[0] == payouts[0];
  }

  /** Notes of 10 and 6 could pay 6, 5 and 5: the 6 whole, one 5 out of the 10, the other out of
      its change.  The rule takes the 10 for the 6 and refuses under every cap. */
  lemma {:induction false} RuleWastesChange(cap: nat)
    requires 1 <= cap <= 3
    ensures var payouts := [Payout(2, 6), Payout(2, 5), Payout(2, 5)];
            Falling(payouts) && !Serves([10, 6], payouts, 1, cap)
  {
    var payouts := [Payout(2, 6), Payout(2, 5), Payout(2, 5)];
    WastedOneByOne(payouts, 1);
    WastedByTwos(payouts, 1);
    TwoNotesRefuse(10, 6, payouts, 1, 3);
  }

  lemma {:induction false} WastedOneByOne(payouts: seq<Payout>, org: int)
    requires |payouts| == 3 && payouts[0].amount == 6 && payouts[1].amount == payouts[2].amount == 5
    requires PaysOthers(payouts, org)
    ensures !Serves([10, 6], payouts, org, 1)
  {
    OneAtATime(10, 6, payouts, org);
    OneAtATime(6, 4, payouts[1..], org);
    TwoNotesRefuse(4, 1, payouts[1..][1..], org, 1);
  }

  lemma {:induction false} WastedByTwos(payouts: seq<Payout>, org: int)
    requires |payouts| == 3 && payouts[0].amount == 6 && payouts[1].amount == payouts[2].amount == 5
    requires PaysOthers(payouts, org)
    ensures !Serves([10, 6], payouts, org, 2)
  {
    TwoAtATime(10, 6, payouts, org);
    TwoNotesRefuse(4, 1, payouts[2..], org, 2);
  }
}
