/** Positional numerals: digit lists and the numbers they stand for. */
module Digits {
  import opened Arithmetic

  predicate Below(ds: seq<nat>, base: nat)
  {
    forall k :: 0 <= k < |ds| ==> ds[k] < base
  }

  function Quotient(base: nat, n: nat): (q: nat)
    requires base >= 2
    ensures n > 0 ==> q < n
  {
    QuotientShrinks(base, n);
    n / base
  }

  function Remainder(base: nat, n: nat): (r: nat)
    requires base >= 2
    ensures r < base
  {
    n % base
  }

  lemma {:induction false} QuotientShrinks(base: nat, n: nat)
    requires base >= 2
    ensures n > 0 ==> n / base < n
  {
    assert n == (n / base) * base + n % base;
    MultipleGrows(n / base, base);
    if n > 0 && n / base >= 1 {
      assert (n / base) * base >= 2 * (n / base) by { MultipleGrows(base - 1, n / base); }
    }
  }

  /** `low` put behind the number `high`. */
  function Shifted(base: nat, high: nat, low: nat): nat
  {
    high * base + low
  }

  lemma {:induction false} ShiftedSplit(base: nat, n: nat)
    requires base >= 2
    ensures Shifted(base, Quotient(base, n), Remainder(base, n)) == n
  {
  }

  lemma {:induction false} SplitShifted(base: nat, high: nat, low: nat)
    requires base >= 2 && low < base
    ensures Quotient(base, Shifted(base, high, low)) == high && Remainder(base, Shifted(base, high, low)) == low
    ensures Shifted(base, high, low) == 0 <==> high == 0 && low == 0
  {
    DivisionUnique(Shifted(base, high, low), base, high, low);
    MultipleGrows(high, base);
  }

  // ----- least significant digit first -----

  function LowValue(base: nat, ds: seq<nat>): nat
  {
    if ds == [] then 0 else Shifted(base, LowValue(base, ds[1..]), ds[0])
  }

  function LowDigits(base: nat, n: nat): seq<nat>
    requires base >= 2
  {
    if n == 0 then [] else [Remainder(base, n)] + LowDigits(base, Quotient(base, n))
  }

  lemma {:induction false} LowRoundTrip(base: nat, n: nat)
    requires base >= 2
    ensures LowValue(base, LowDigits(base, n)) == n && Below(LowDigits(base, n), base)
    ensures n > 0 ==> LowDigits(base, n) != [] && LowDigits(base, n)[|LowDigits(base, n)| - 1] != 0
  {
    if n == 0 {
    } else {
      LowRoundTrip(base, Quotient(base, n));
      ShiftedSplit(base, n);
      assert LowDigits(base, n)[1..] == LowDigits(base, Quotient(base, n));
      SplitShifted(base, Quotient(base, n), Remainder(base, n));
    }
  }

  lemma {:induction false} LowDigitsOfValue(base: nat, ds: seq<nat>)
    requires base >= 2 && Below(ds, base) && (ds != [] ==> ds[|ds| - 1] != 0)
    ensures LowDigits(base, LowValue(base, ds)) == ds
    ensures ds != [] ==> LowValue(base, ds) > 0
  {
    if ds == [] {
    } else {
      LowDigitsOfValue(base, ds[1..]);
      SplitShifted(base, LowValue(base, ds[1..]), ds[0]);
    }
  }

  // ----- most significant digit first -----

  function Value(base: nat, ds: seq<nat>): nat
  {
    if ds == [] then 0 else Shifted(base, Value(base, ds[..|ds| - 1]), ds[|ds| - 1])
  }

  function Numeral(base: nat, n: nat): seq<nat>
    requires base >= 2
  {
    if n == 0 then [] else Numeral(base, Quotient(base, n)) + [Remainder(base, n)]
  }

  function WithoutLeadingZeros(ds: seq<nat>): seq<nat>
  {
    if ds != [] && ds[0] == 0 then WithoutLeadingZeros(ds[1..]) else ds
  }

  lemma {:induction false} ValueSnoc(base: nat, high: seq<nat>, low: nat)
    ensures Value(base, high + [low]) == Shifted(base, Value(base, high), low)
  {
    assert (high + [low])[..|high|] == high;
  }

  lemma {:induction false} NumeralOfCanonical(base: nat, ds: seq<nat>)
    requires base >= 2 && Below(ds, base) && (ds != [] ==> ds[0] != 0)
    ensures Numeral(base, Value(base, ds)) == ds
    ensures ds != [] ==> Value(base, ds) > 0
  {
    if ds == [] {
    } else {
      NumeralOfCanonical(base, ds[..|ds| - 1]);
      SplitShifted(base, Value(base, ds[..|ds| - 1]), ds[|ds| - 1]);
    }
  }

  lemma {:induction false} ValueSkipsZero(base: nat, ds: seq<nat>)
    requires ds != [] && ds[0] == 0
    ensures Value(base, ds) == Value(base, ds[1..])
  {
    if |ds| == 1 {
    } else {
      ValueSkipsZero(base, ds[..|ds| - 1]);
      assert ds[1..][..|ds| - 2] == ds[..|ds| - 1][1..];
    }
  }

  /** The numeral of a digit list's value is that list without its leading zeros. */
  lemma {:induction false} NumeralOfValue(base: nat, ds: seq<nat>)
    requires base >= 2 && Below(ds, base)
    ensures Numeral(base, Value(base, ds)) == WithoutLeadingZeros(ds)
  {
    if ds != [] && ds[0] == 0 {
      ValueSkipsZero(base, ds);
      NumeralOfValue(base, ds[1..]);
    } else {
      NumeralOfCanonical(base, ds);
    }
  }

  // ----- fixed width -----

  function Power(base: nat, k: nat): nat
  {
    if k == 0 then 1 else Shifted(base, Power(base, k - 1), 0)
  }

  /** The last `width` digits of a number, padded with zeros. */
  function Padded(base: nat, n: nat, width: nat): (ds: seq<nat>)
    requires base >= 2
    ensures |ds| == width
    decreases width, n
  {
    if width == 0 then [] else Padded(base, Quotient(base, n), width - 1) + [Remainder(base, n)]
  }

  lemma {:induction false} QuotientFits(base: nat, n: nat, p: nat)
    requires base >= 2 && n < Shifted(base, p, 0)
    ensures Quotient(base, n) < p
  {
    QuotientBelow(n, base, p);
  }

  lemma {:induction false} PaddedBelow(base: nat, n: nat, width: nat)
    requires base >= 2
    ensures Below(Padded(base, n, width), base)
    decreases width
  {
    if width == 0 {
    } else {
      PaddedBelow(base, Quotient(base, n), width - 1);
    }
  }

  lemma {:induction false} PaddedValue(base: nat, n: nat, width: nat)
    requires base >= 2 && n < Power(base, width)
    ensures Value(base, Padded(base, n, width)) == n
    decreases width
  {
    if width == 0 {
    } else {
      QuotientFits(base, n, Power(base, width - 1));
      PaddedValue(base, Quotient(base, n), width - 1);
      OneMorePadded(base, n, Padded(base, Quotient(base, n), width - 1));
    }
  }

  lemma {:induction false} OneMorePadded(base: nat, n: nat, high: seq<nat>)
    requires base >= 2 && Value(base, high) == Quotient(base, n)
    ensures Value(base, high + [Remainder(base, n)]) == n
  {
    ValueSnoc(base, high, Remainder(base, n));
    ShiftedSplit(base, n);
  }
}
