/** Fixed-point decimals as text: seven decimals for stroops, six for token amounts. */
module Decimal {
  import opened IntegerText
  import opened Wrappers

  function Zeros(k: nat): (s: string)
    ensures |s| == k && IsDigits(s) && forall j :: 0 <= j < k ==> s[j] == '0'
  {
    if k == 0 then "" else Zeros(k - 1) + "0"
  }

  function PadStart(s: string, width: nat): string
  {
    if |s| < width then Zeros(width - |s|) + s else s
  }

  function PadEnd(s: string, width: nat): string
  {
    if |s| < width then s + Zeros(width - |s|) else s
  }

  /** `n` times 10^k */
  function Scale(n: nat, k: nat): nat
    decreases k, n
  {
    if k == 0 then n else 10 * Scale(n, k - 1)
  }

  lemma {:induction false} NumberOfConcat(a: string, b: string)
    requires IsDigits(a) && IsDigits(b)
    ensures NumberOf(a + b) == Scale(NumberOf(a), |b|) + NumberOf(b)
  {
    if b == "" {
      assert a + b == a;
    } else {
      assert (a + b)[..|a + b| - 1] == a + b[..|b| - 1];
      NumberOfConcat(a, b[..|b| - 1]);
    }
  }

  lemma {:induction false} NumberOfZeros(k: nat)
    ensures NumberOf(Zeros(k)) == 0
  {
    if k == 0 {
    } else {
      NumberOfZeros(k - 1);
      assert Zeros(k) == Zeros(k - 1) + "0";
      NumberOfSnoc(Zeros(k - 1), '0');
    }
  }

  lemma {:induction false} ScaleZero(k: nat)
    ensures Scale(0, k) == 0
  {
    if k == 0 {
    } else {
      ScaleZero(k - 1);
    }
  }

  lemma {:induction false} ScaleStep(n: nat, k: nat, below: nat)
    requires k > 0 && Scale(n, k - 1) == below
    ensures Scale(n, k) == 10 * below
  {
  }

  lemma {:induction false} Scales(n: nat)
    ensures Scale(n, 5) == 100_000 * n && Scale(n, 6) == 1_000_000 * n && Scale(n, 7) == 10_000_000 * n
  {
    ScaleStep(n, 1, n);
    ScaleStep(n, 2, 10 * n);
    ScaleStep(n, 3, 100 * n);
    ScaleStep(n, 4, 1_000 * n);
    ScaleStep(n, 5, 10_000 * n);
    ScaleStep(n, 6, 100_000 * n);
  }

  lemma {:induction false} PadStartKeeps(s: string, width: nat)
    requires IsDigits(s)
    ensures IsDigits(PadStart(s, width)) && NumberOf(PadStart(s, width)) == NumberOf(s)
  {
    if |s| < width {
      NumberOfConcat(Zeros(width - |s|), s);
      NumberOfZeros(width - |s|);
      ScaleZero(|s|);
    }
  }

  /** How many digits a number takes. */
  lemma {:induction false} RenderWidth(n: nat, width: nat)
    requires width > 0
    ensures |Render(n)| <= width <==> n < Scale(1, width)
  {
    if n < 10 {
      ScaleGrows(width);
    } else if width == 1 {
      assert |Render(n)| == |Render(n / 10)| + 1;
    } else {
      RenderWidth(n / 10, width - 1);
    }
  }

  lemma {:induction false} ScaleGrows(width: nat)
    requires width > 0
    ensures Scale(1, width) >= 10
  {
    if width == 1 {
    } else {
      ScaleGrows(width - 1);
    }
  }

  // ----- splitting -----

  /** The position of the first point from `i` on, or the end. */
  function Point(s: string, i: nat): (p: nat)
    requires i <= |s|
    ensures i <= p <= |s|
    decreases |s| - i
  {
    if i == |s| || s[i] == '.' then i else Point(s, i + 1)
  }

  /** `s.split(".")[0]` */
  function Whole(s: string): string
  {
    s[..Point(s, 0)]
  }

  /** `s.split(".")[1]`, empty if there is no point: the part between the first point and the second. */
  function Fraction(s: string): string
  {
    var p := Point(s, 0);
    if p == |s| then "" else s[p + 1..Point(s, p + 1)]
  }

  predicate Pointless(s: string)
  {
    forall k :: 0 <= k < |s| ==> s[k] != '.'
  }

  lemma {:induction false} PointAfter(s: string, i: nat, p: nat)
    requires i <= p <= |s| && Pointless(s[i..p]) && (p == |s| || s[p] == '.')
    ensures Point(s, i) == p
    decreases p - i
  {
    if i == p {
    } else {
      assert s[i] == s[i..p][0];
      assert s[i + 1..p] == s[i..p][1..];
      PointAfter(s, i + 1, p);
    }
  }

  lemma {:induction false} SplitAtPoint(w: string, f: string)
    requires Pointless(w) && Pointless(f)
    ensures Whole(w + "." + f) == w && Fraction(w + "." + f) == f
    ensures Whole(w) == w && Fraction(w) == ""
  {
    var s := w + "." + f;
    assert s[0..|w|] == w && s[|w| + 1..|s|] == f;
    PointAfter(s, 0, |w|);
    PointAfter(s, |w| + 1, |s|);
    assert w[0..|w|] == w;
    PointAfter(w, 0, |w|);
  }

  // ----- stroops -----

  datatype DecimalError = TooManyDecimals | NotANumber

  const STROOP_DECIMALS := 7

  function StroopsToUsdc(stroops: int): string
  {
    var s := PadStart(Render(if stroops < 0 then -stroops else stroops), STROOP_DECIMALS + 1);
    var cut := |s| - STROOP_DECIMALS;
    var text := (if cut > 0 then s[..cut] else "0") + "." + (if cut > 0 then s[cut..] else s);
    if stroops < 0 then "-" + text else text
  }

  function Combined(w: Option<int>, f: Option<int>): Result<int, DecimalError>
  {
    if w.Some? && f.Some? then Success(w.value * 10_000_000 + f.value) else Failure(NotANumber)
  }

  function FromTexts(read: IntegerReader, whole: string, frac: string): Result<int, DecimalError>
  {
    if |frac| > STROOP_DECIMALS then Failure(TooManyDecimals)
    else Combined(read(whole), read(PadEnd(frac, STROOP_DECIMALS)))
  }

  function ReadUnsigned(read: IntegerReader, unsigned: string): Result<int, DecimalError>
  {
    FromTexts(read, Whole(unsigned), Fraction(unsigned))
  }

  function Negated(negative: bool, r: Result<int, DecimalError>): Result<int, DecimalError>
  {
    if negative && r.Success? then Success(0 - r.value) else r
  }

  function Unsigned(s: string): string
  {
    s[SignWidth(s)..]
  }

  function ReadTrimmed(read: IntegerReader, trimmed: string): Result<int, DecimalError>
  {
    Negated(IsNegative(trimmed), ReadUnsigned(read, Unsigned(trimmed)))
  }

  function UsdcToStroops(amount: string): Result<int, DecimalError>
  {
    ReadTrimmed(ReadBigInt, Trim(amount))
  }

  /** An optional sign and digits, up to the end or to a point at `p` with more digits behind it.
      Either digits may be missing. */
  predicate IsDecimal(s: string, p: nat)
  {
    && SignWidth(s) <= p <= |s| && IsDigits(s[SignWidth(s)..p])
    && (p < |s| ==> s[p] == '.' && IsDigits(s[p + 1..]))
  }

  /** What stands behind the point. */
  function Behind(s: string, p: nat): string
  {
    if p < |s| then s[p + 1..] else ""
  }

  lemma {:induction false} DecimalEnds(s: string, p: nat)
    requires IsDecimal(s, p)
    ensures Trim(s) == s
  {
    forall k | 0 <= k < |s| ensures !IsSpace(s[k]) {
      if SignWidth(s) <= k < p {
        assert s[k] == s[SignWidth(s)..p][k - SignWidth(s)];
      } else if p < k {
        assert s[k] == s[p + 1..][k - p - 1];
      }
    }
    TrimNothing(s);
  }

  /** The digits before the point. */
  function Front(s: string, p: nat): string
    requires SignWidth(s) <= p <= |s|
  {
    s[SignWidth(s)..p]
  }

  lemma {:induction false} DecimalParts(s: string, p: nat)
    requires IsDecimal(s, p)
    ensures Whole(Unsigned(s)) == Front(s, p) && Fraction(Unsigned(s)) == Behind(s, p)
  {
    var n := SignWidth(s);
    var unsigned := Unsigned(s);
    assert unsigned[0..p - n] == s[n..p];
    PointAfter(unsigned, 0, p - n);
    if p < |s| {
      assert unsigned[p - n] == '.' && unsigned[p - n + 1..|unsigned|] == s[p + 1..];
      PointAfter(unsigned, p - n + 1, |unsigned|);
    }
  }

  /** `f` padded to seven digits. */
  lemma {:induction false} PaddedFraction(f: string)
    requires IsDigits(f) && |f| <= STROOP_DECIMALS
    ensures IsDigits(PadEnd(f, STROOP_DECIMALS))
    ensures NumberOf(PadEnd(f, STROOP_DECIMALS)) == Scale(NumberOf(f), STROOP_DECIMALS - |f|)
  {
    if |f| < STROOP_DECIMALS {
      NumberOfConcat(f, Zeros(STROOP_DECIMALS - |f|));
      NumberOfZeros(STROOP_DECIMALS - |f|);
    }
  }

  /** The number that digits before and behind a point stand for, in stroops. */
  function InStroops(w: string, f: string): Result<int, DecimalError>
    requires IsDigits(w) && IsDigits(f)
  {
    if |f| > STROOP_DECIMALS then Failure(TooManyDecimals)
    else Success(10_000_000 * NumberOf(w) + Scale(NumberOf(f), STROOP_DECIMALS - |f|))
  }

  /** The number a decimal stands for: its sign, and its digits before and behind the point. */
  function DecimalValue(s: string, p: nat): Result<int, DecimalError>
    requires IsDecimal(s, p)
  {
    Negated(IsNegative(s), InStroops(Front(s, p), Behind(s, p)))
  }

  lemma {:induction false} ReadsFrac(read: IntegerReader, f: string)
    requires Knows(read) && IsDigits(f) && |f| <= STROOP_DECIMALS
    ensures read(PadEnd(f, STROOP_DECIMALS)) == Some(Scale(NumberOf(f), STROOP_DECIMALS - |f|))
  {
    PaddedFraction(f);
  }

  lemma {:induction false} ReadsTexts(read: IntegerReader, whole: string, frac: string)
    requires Knows(read) && IsDigits(whole) && IsDigits(frac)
    ensures FromTexts(read, whole, frac) == InStroops(whole, frac)
  {
    if |frac| <= STROOP_DECIMALS {
      ReadsFrac(read, frac);
      assert read(whole) == Some(NumberOf(whole));
    }
  }

  lemma {:induction false} ReadsTrimmed(read: IntegerReader, s: string, p: nat)
    requires Knows(read) && IsDecimal(s, p)
    ensures ReadTrimmed(read, s) == DecimalValue(s, p)
  {
    DecimalParts(s, p);
    ReadsTexts(read, Front(s, p), Behind(s, p));
  }

  /** A decimal with up to seven decimals, spaces around it allowed, is read exactly, and one with
      more is refused.  The point and the digits on either side of it may be missing. */
  lemma {:induction false} ReadsDecimals(amount: string, p: nat)
    requires IsDecimal(Trim(amount), p)
    ensures UsdcToStroops(amount) == DecimalValue(Trim(amount), p)
  {
    BigIntKnows();
    ReadsTrimmed(ReadBigInt, Trim(amount), p);
  }

  /** Exactly these texts are accepted: what stands before the point, and what stands between it and
      the next one with zeros behind it, must each be an integer text, signs, spaces and radix prefixes
      included; and that second part must not be longer than seven characters. */
  lemma {:induction false} AcceptsIff(amount: string)
    ensures var unsigned := Unsigned(Trim(amount));
            UsdcToStroops(amount).Success? <==>
              && |Fraction(unsigned)| <= STROOP_DECIMALS
              && IsIntegerText(Whole(unsigned)) && IsIntegerText(PadEnd(Fraction(unsigned), STROOP_DECIMALS))
  {
    var unsigned := Unsigned(Trim(amount));
    AcceptsBy(ReadBigInt, Trim(amount));
    ReadsIff(Whole(unsigned));
    ReadsIff(PadEnd(Fraction(unsigned), STROOP_DECIMALS));
  }

  lemma {:induction false} AcceptsBy(read: IntegerReader, trimmed: string)
    ensures var unsigned := Unsigned(trimmed);
            ReadTrimmed(read, trimmed).Success? <==>
              && |Fraction(unsigned)| <= STROOP_DECIMALS
              && read(Whole(unsigned)).Some? && read(PadEnd(Fraction(unsigned), STROOP_DECIMALS)).Some?
  {
  }

  /** A second point and whatever follows it are ignored. */
  lemma {:induction false} SecondPointIsIgnored(read: IntegerReader, s: string, p: nat, q: nat)
    requires p < q < |s| && Pointless(s[..p]) && s[p] == '.' && Pointless(s[p + 1..q]) && s[q] == '.'
    ensures ReadUnsigned(read, s) == ReadUnsigned(read, s[..q])
  {
    PartsAt(s, p, q);
    SameParts(s, p, q);
    PartsAt(s[..q], p, q);
  }

  lemma {:induction false} SameParts(s: string, p: nat, q: nat)
    requires p < q <= |s|
    ensures s[..q][..p] == s[..p] && s[..q][p + 1..q] == s[p + 1..q]
  {
  }

  /** A first point at `p`, and a second one or the end at `q`. */
  lemma {:induction false} PartsAt(s: string, p: nat, q: nat)
    requires p < q <= |s| && Pointless(s[..p]) && s[p] == '.' && Pointless(s[p + 1..q]) && (q == |s| || s[q] == '.')
    ensures Whole(s) == s[..p] && Fraction(s) == s[p + 1..q]
  {
    assert s[0..p] == s[..p];
    PointAfter(s, 0, p);
    PointAfter(s, p + 1, q);
  }

  /** Texts that are not decimals and are accepted all the same: as 0.95, 1.2 and 16. */
  lemma {:induction false} AcceptsMoreThanDecimals()
    ensures UsdcToStroops("1.-5") == Success(9_500_000)
    ensures UsdcToStroops("1.2.3") == Success(12_000_000)
    ensures UsdcToStroops("0x10") == Success(160_000_000)
  {
    SignInFraction();
    SecondPoint();
    RadixPrefix();
  }

  lemma {:induction false} SignInFraction()
    ensures UsdcToStroops("1.-5") == Success(9_500_000)
  {
    PartsAt("1.-5", 1, 4);
    assert "1.-5"[..1] == "1" && "1.-5"[2..4] == "-5";
    BigIntKnows();
    ReadsSignedDigit(ReadBigInt, '1', '5');
    ReadsText(ReadBigInt, "1.-5", "1", "-5", 9_500_000);
  }

  lemma {:induction false} SecondPoint()
    ensures UsdcToStroops("1.2.3") == Success(12_000_000)
  {
    PartsAt("1.2.3", 1, 3);
    assert "1.2.3"[..1] == "1" && "1.2.3"[2..3] == "2";
    BigIntKnows();
    ReadsTwoDigits(ReadBigInt, '1', '2');
    ReadsText(ReadBigInt, "1.2.3", "1", "2", 12_000_000);
  }

  lemma {:induction false} RadixPrefix()
    ensures UsdcToStroops("0x10") == Success(160_000_000)
  {
    SplitAtPoint("0x10", "");
    BigIntKnows();
    ReadsSixteen();
    ReadsNothingBehind(ReadBigInt, "0x10", 16);
    ReadsText(ReadBigInt, "0x10", "0x10", "", 160_000_000);
  }

  lemma {:induction false} OneDigit(c: char)
    requires IsDigit(c)
    ensures IsDigits([c]) && NumberOf([c]) == DigitOf(c)
  {
    NumberOfSnoc("", c);
  }

  /** A digit before the point, a sign and a digit behind it. */
  lemma {:induction false} ReadsSignedDigit(read: IntegerReader, w: char, f: char)
    requires Knows(read) && IsDigit(w) && IsDigit(f)
    ensures FromTexts(read, [w], ['-', f]) == Success(10_000_000 * DigitOf(w) - 100_000 * DigitOf(f))
  {
    OneDigit(w);
    OneDigit(f);
    WithZeros([f], 5);
    Scales(DigitOf(f));
    assert PadEnd(['-', f], STROOP_DECIMALS) == "-" + ([f] + Zeros(5));
    assert read([w]) == Some(DigitOf(w)) && read("-" + ([f] + Zeros(5))) == Some(0 - 100_000 * DigitOf(f));
  }

  lemma {:induction false} ReadsTwoDigits(read: IntegerReader, w: char, f: char)
    requires Knows(read) && IsDigit(w) && IsDigit(f)
    ensures FromTexts(read, [w], [f]) == Success(10_000_000 * DigitOf(w) + 1_000_000 * DigitOf(f))
  {
    OneDigit(w);
    OneDigit(f);
    ReadsTexts(read, [w], [f]);
    Scales(DigitOf(f));
  }

  lemma {:induction false} ReadsNothingBehind(read: IntegerReader, whole: string, w: int)
    requires Knows(read) && read(whole) == Some(w)
    ensures FromTexts(read, whole, "") == Success(10_000_000 * w)
  {
    ReadsFrac(read, "");
    ScaleZero(STROOP_DECIMALS);
  }

  lemma {:induction false} WithZeros(s: string, k: nat)
    requires IsDigits(s)
    ensures IsDigits(s + Zeros(k)) && NumberOf(s + Zeros(k)) == Scale(NumberOf(s), k)
  {
    NumberOfConcat(s, Zeros(k));
    NumberOfZeros(k);
  }

  /** An amount from its two parts. */
  lemma {:induction false} ReadsText(read: IntegerReader, amount: string, whole: string, frac: string, x: int)
    requires amount != "" && SignWidth(amount) == 0 && !IsSpace(amount[0]) && !IsSpace(amount[|amount| - 1])
    requires Whole(amount) == whole && Fraction(amount) == frac && FromTexts(read, whole, frac) == Success(x)
    ensures ReadTrimmed(read, Trim(amount)) == Success(x)
  {
    TrimNothing(amount);
    assert Unsigned(amount) == amount;
  }

  lemma {:induction false} ReadsSixteen()
    ensures ReadBigInt("0x10") == Some(16)
  {
    TrimNothing("0x10");
    assert "0x10"[2..] == "10" && "10"[..1] == "1" && "1"[..0] == "";
    assert ReadRadix("1", 16) == Some(1);
  }

  /** A decimal and its parts. */
  predicate Parts(s: string, p: nat, negative: bool, w: string, f: string)
  {
    && IsDecimal(s, p) && Front(s, p) == w && Behind(s, p) == f
    && (IsNegative(s) <==> negative) && IsDigits(w) && IsDigits(f)
  }

  lemma {:induction false} ReadsSevenDecimals(
      read: IntegerReader, s: string, p: nat, negative: bool, w: string, f: string, x: int)
    requires Knows(read) && Parts(s, p, negative, w, f) && |f| == STROOP_DECIMALS
    requires x == Signed(negative, 10_000_000 * NumberOf(w) + NumberOf(f))
    ensures ReadTrimmed(read, Trim(s)) == Success(x)
  {
    DecimalEnds(s, p);
    ReadsTrimmed(read, s, p);
    ValueOfParts(s, p, negative, w, f, x);
  }

  lemma {:induction false} ValueOfParts(s: string, p: nat, negative: bool, w: string, f: string, x: int)
    requires Parts(s, p, negative, w, f) && |f| == STROOP_DECIMALS
    requires x == Signed(negative, 10_000_000 * NumberOf(w) + NumberOf(f))
    ensures DecimalValue(s, p) == Success(x)
  {
    assert InStroops(w, f) == Success(10_000_000 * NumberOf(w) + NumberOf(f));
  }

  /** What a print looks like. */
  ghost predicate Prints(text: string, x: int, w: string, f: string)
  {
    && IsDigits(w) && IsDigits(f) && w != "" && |f| == STROOP_DECIMALS
    && 10_000_000 * NumberOf(w) + NumberOf(f) == (if x < 0 then -x else x)
    && text == if x < 0 then "-" + (w + "." + f) else w + "." + f
  }

  lemma {:induction false} ReadsPlain(read: IntegerReader, text: string, x: int, w: string, f: string)
    requires Knows(read) && Prints(text, x, w, f) && x >= 0
    ensures ReadTrimmed(read, Trim(text)) == Success(x)
  {
    ReadsSevenDecimals(read, text, |w|, false, w, f, x);
  }

  lemma {:induction false} ReadsNegated(read: IntegerReader, text: string, x: int, w: string, f: string)
    requires Knows(read) && Prints(text, x, w, f) && x < 0
    ensures ReadTrimmed(read, Trim(text)) == Success(x)
  {
    NegatedParts(text, w, f);
    ReadsSevenDecimals(read, text, |w| + 1, true, w, f, x);
  }

  lemma {:induction false} NegatedParts(text: string, w: string, f: string)
    requires IsDigits(w) && IsDigits(f) && text == "-" + (w + "." + f)
    ensures Parts(text, |w| + 1, true, w, f)
  {
    var p := |w| + 1;
    assert text[1..p] == w && text[p + 1..] == f;
  }

  lemma {:induction false} PrintsItsDigits(x: int) returns (w: string, f: string)
    ensures Prints(StroopsToUsdc(x), x, w, f)
  {
    var n := if x < 0 then -x else x;
    var digits := PadStart(Render(n), STROOP_DECIMALS + 1);
    PadStartKeeps(Render(n), STROOP_DECIMALS + 1);
    var cut := |digits| - STROOP_DECIMALS;
    CutDigits(digits, cut);
    w, f := digits[..cut], digits[cut..];
  }

  /** Printing an amount and reading it back gives the same amount, for every integer. */
  lemma {:induction false} StroopsRoundTrip(x: int)
    ensures UsdcToStroops(StroopsToUsdc(x)) == Success(x)
  {
    var w, f := PrintsItsDigits(x);
    BigIntKnows();
    if x < 0 {
      ReadsNegated(ReadBigInt, StroopsToUsdc(x), x, w, f);
    } else {
      ReadsPlain(ReadBigInt, StroopsToUsdc(x), x, w, f);
    }
  }

  lemma {:induction false} CutDigits(s: string, cut: nat)
    requires IsDigits(s) && |s| == cut + STROOP_DECIMALS
    ensures 10_000_000 * NumberOf(s[..cut]) + NumberOf(s[cut..]) == NumberOf(s)
  {
    assert s == s[..cut] + s[cut..];
    NumberOfConcat(s[..cut], s[cut..]);
    Scales(NumberOf(s[..cut]));
  }

  /** Stroops print as their whole part, without a superfluous zero, and exactly seven decimals, behind a
      sign if they are negative. */
  lemma {:induction false} PrintsPlainly(x: int) returns (f: string)
    ensures var n := if x < 0 then -x else x;
            && |f| == STROOP_DECIMALS && IsDigits(f) && NumberOf(f) == n % 10_000_000
            && StroopsToUsdc(x) == (if x < 0 then "-" else "") + Render(n / 10_000_000) + "." + f
  {
    var n := if x < 0 then -x else x;
    var w;
    w, f := PrintedParts(n);
    PrintedOf(x, n, w, f);
  }

  lemma {:induction false} PrintedOf(x: int, n: nat, w: string, f: string)
    requires n == (if x < 0 then -x else x) && w != "" && |f| == STROOP_DECIMALS
    requires PadStart(Render(n), STROOP_DECIMALS + 1) == w + f
    ensures StroopsToUsdc(x) == (if x < 0 then "-" else "") + w + "." + f
  {
    CutBehind(w + f, w, f);
    assert x < 0 ==> "-" + (w + "." + f) == "-" + w + "." + f;
    assert "" + w + "." + f == w + "." + f;
  }

  lemma {:induction false} CutBehind(s: string, w: string, f: string)
    requires s == w + f
    ensures s[..|s| - |f|] == w && s[|s| - |f|..] == f
  {
  }

  /** The digits before the point and those behind it. */
  lemma {:induction false} PrintedParts(n: nat) returns (w: string, f: string)
    ensures PadStart(Render(n), STROOP_DECIMALS + 1) == w + f && |f| == STROOP_DECIMALS && w != ""
    ensures IsDigits(f) && w == Render(n / 10_000_000) && NumberOf(f) == n % 10_000_000
  {
    var digits := PadStart(Render(n), STROOP_DECIMALS + 1);
    var cut := |digits| - STROOP_DECIMALS;
    PadStartKeeps(Render(n), STROOP_DECIMALS + 1);
    FrontIsPlain(n);
    CutDigits(digits, cut);
    w, f := digits[..cut], digits[cut..];
    PlainIsPrinted(w);
    SevenDigits(f);
    QuotientIs(NumberOf(w), NumberOf(f), n);
  }

  lemma {:induction false} QuotientIs(w: nat, f: nat, n: nat)
    requires 10_000_000 * w + f == n && f < 10_000_000
    ensures w == n / 10_000_000 && f == n % 10_000_000
  {
  }

  lemma {:induction false} FrontIsPlain(n: nat)
    ensures var digits := PadStart(Render(n), STROOP_DECIMALS + 1);
            |digits| > STROOP_DECIMALS && IsPlain(digits[..|digits| - STROOP_DECIMALS])
  {
    RenderIsPlain(n);
  }

  lemma {:induction false} SevenDigits(f: string)
    requires IsDigits(f) && |f| == STROOP_DECIMALS
    ensures NumberOf(f) < 10_000_000
  {
    DigitsBound(f);
    Scales(1);
  }

  lemma {:induction false} DigitsBound(s: string)
    requires IsDigits(s)
    ensures NumberOf(s) < Scale(1, |s|)
  {
    if s == "" {
    } else {
      DigitsBound(s[..|s| - 1]);
    }
  }

  // ----- token amounts -----

  const TOKEN_UNIT := 1_000_000
  const TOKEN_DECIMALS := 6

  function WithoutTrailingZeros(s: string): string
  {
    if s != "" && s[|s| - 1] == '0' then WithoutTrailingZeros(s[..|s| - 1]) else s
  }

  /** `n.toString()` for any integer */
  function RenderSigned(n: int): string
  {
    if n < 0 then "-" + Render(-n) else Render(n)
  }

  /** Division of JavaScript integers drops the fraction, so the remainder has the sign of `raw`. */
  function WholeTokens(raw: int): int
  {
    if raw < 0 then 0 - (0 - raw) / TOKEN_UNIT else raw / TOKEN_UNIT
  }

  function TokenText(raw: int): string
  {
    var whole := WholeTokens(raw);
    Joined(RenderSigned(whole), WithoutTrailingZeros(PadStart(RenderSigned(raw - whole * TOKEN_UNIT), TOKEN_DECIMALS)))
  }

  function Joined(whole: string, frac: string): string
  {
    if frac == "" then whole else whole + "." + frac
  }

  /** A token amount from zero up prints as its whole part, without a superfluous zero, and as many of its six
      decimals as there are up to the last that is not zero. */
  lemma {:induction false} PrintsTokens(raw: nat) returns (f: string, k: nat)
    ensures |f| == TOKEN_DECIMALS && IsDigits(f) && NumberOf(f) == raw % TOKEN_UNIT
    ensures raw % TOKEN_UNIT == 0 ==> TokenText(raw) == Render(raw / TOKEN_UNIT)
    ensures raw % TOKEN_UNIT != 0 ==>
              && 0 < k <= TOKEN_DECIMALS && f[k - 1] != '0' && f[k..] == Zeros(TOKEN_DECIMALS - k)
              && TokenText(raw) == Render(raw / TOKEN_UNIT) + "." + f[..k]
  {
    f := SixDigits(raw % TOKEN_UNIT);
    k := |WithoutTrailingZeros(f)|;
    Stripped(f);
    TokenTextOf(raw, f);
  }

  lemma {:induction false} TokenTextOf(raw: nat, f: string)
    requires f == PadStart(Render(raw % TOKEN_UNIT), TOKEN_DECIMALS)
    ensures TokenText(raw) == Joined(Render(raw / TOKEN_UNIT), WithoutTrailingZeros(f))
  {
    assert raw - WholeTokens(raw) * TOKEN_UNIT == raw % TOKEN_UNIT;
  }

  lemma {:induction false} SixDigits(rest: nat) returns (f: string)
    requires rest < TOKEN_UNIT
    ensures f == PadStart(Render(rest), TOKEN_DECIMALS) && |f| == TOKEN_DECIMALS
    ensures IsDigits(f) && NumberOf(f) == rest
  {
    f := PadStart(Render(rest), TOKEN_DECIMALS);
    PadStartKeeps(Render(rest), TOKEN_DECIMALS);
    RenderWidth(rest, TOKEN_DECIMALS);
    Scales(1);
  }

  /** What is left of a fraction without its trailing zeros: nothing if it is zero. */
  lemma {:induction false} Stripped(f: string)
    requires IsDigits(f)
    ensures var t := WithoutTrailingZeros(f);
            && |t| <= |f| && f[..|t|] == t && f[|t|..] == Zeros(|f| - |t|)
            && (t != "" ==> t[|t| - 1] != '0') && (t == "" <==> NumberOf(f) == 0)
  {
    var t := WithoutTrailingZeros(f);
    StrippedZerosCount(f);
    StrippedEnds(f);
    CutBehind(f, t, Zeros(|f| - |t|));
    if t == "" {
      assert f == Zeros(|f|);
      NumberOfZeros(|f|);
    } else {
      NotZero(t, |f| - |t|);
    }
  }

  lemma {:induction false} StrippedEnds(s: string)
    ensures var t := WithoutTrailingZeros(s); t != "" ==> t[|t| - 1] != '0'
  {
    if s == "" || s[|s| - 1] != '0' {
    } else {
      StrippedEnds(s[..|s| - 1]);
    }
  }

  lemma {:induction false} NotZero(t: string, zeros: nat)
    requires IsDigits(t) && t != "" && t[|t| - 1] != '0'
    ensures NumberOf(t + Zeros(zeros)) > 0
  {
    NumberOfConcat(t, Zeros(zeros));
    ScaleKeepsPositive(NumberOf(t), zeros);
  }

  lemma {:induction false} ScaleKeepsPositive(n: nat, k: nat)
    requires n > 0
    ensures Scale(n, k) > 0
  {
    if k == 0 {
    } else {
      ScaleKeepsPositive(n, k - 1);
    }
  }

  function InUnits(whole: Option<int>, frac: Option<int>): Option<int>
  {
    if whole.Some? && frac.Some? then Some(whole.value * TOKEN_UNIT + frac.value) else None
  }

  /** The first six characters of a fraction, zeros behind it if it is shorter. */
  function SixDecimals(frac: string): string
  {
    (frac + Zeros(TOKEN_DECIMALS))[..TOKEN_DECIMALS]
  }

  /** The fraction is cut, not refused, after six decimals. */
  function ScaledAmount(amount: string): Option<int>
  {
    ScaledBy(ReadBigInt, amount)
  }

  function ScaledBy(read: IntegerReader, amount: string): Option<int>
  {
    InUnits(read(Whole(amount)), read(SixDecimals(Fraction(amount))))
  }

  /** Read every text and add up; one that cannot be read spoils the sum. */
  function TotalRead(read: string -> Option<int>, texts: seq<string>): Option<int>
  {
    if texts == [] then Some(0)
    else
      match (TotalRead(read, texts[..|texts| - 1]), read(texts[|texts| - 1]))
      case (Some(total), Some(next)) => Some(total + next)
      case (_, _) => None
  }

  method ReadAll(read: string -> Option<int>, texts: seq<string>) returns (r: Option<int>)
    ensures r == TotalRead(read, texts)
  {
    var scaled: int := 0;
    for k := 0 to |texts|
      invariant TotalRead(read, texts[..k]) == Some(scaled)
    {
      assert texts[..k + 1][..k] == texts[..k];
      var next := read(texts[k]);
      if next.None? {
        NoTotalPast(read, texts, k);
        return None;
      }
      scaled := scaled + next.value;
    }
    assert texts[..|texts|] == texts;
    r := Some(scaled);
  }

  method SumDecimalAmounts(amounts: seq<string>) returns (r: Result<string, DecimalError>)
    ensures r == match TotalRead(ScaledAmount, amounts)
                 case Some(total) => Success(TokenText(total))
                 case None => Failure(NotANumber)
  {
    var scaled := ReadAll(ScaledAmount, amounts);
    r := if scaled.Some? then Success(TokenText(scaled.value)) else Failure(NotANumber);
  }

  lemma {:induction false} NoTotalPast(read: string -> Option<int>, texts: seq<string>, k: nat)
    requires k < |texts| && read(texts[k]).None?
    ensures TotalRead(read, texts).None?
  {
    if k == |texts| - 1 {
    } else {
      NoTotalPast(read, texts[..|texts| - 1], k);
    }
  }

  lemma {:induction false} StrippedZerosCount(s: string)
    ensures |WithoutTrailingZeros(s)| <= |s|
    ensures WithoutTrailingZeros(s) + Zeros(|s| - |WithoutTrailingZeros(s)|) == s
  {
    if s != "" && s[|s| - 1] == '0' {
      StrippedZerosCount(s[..|s| - 1]);
      var stripped := WithoutTrailingZeros(s);
      assert stripped + Zeros(|s| - 1 - |stripped|) + "0" == stripped + Zeros(|s| - |stripped|);
    } else {
      assert s + Zeros(0) == s;
    }
  }

  /** Stripped zeros are put back by padding, as far as six characters go. */
  lemma {:induction false} RestoredFraction(s: string)
    requires |s| == TOKEN_DECIMALS || (|s| == TOKEN_DECIMALS + 1 && s[0] != '0')
    ensures SixDecimals(WithoutTrailingZeros(s)) == s[..TOKEN_DECIMALS]
  {
    StrippedZerosCount(s);
    var t := WithoutTrailingZeros(s);
    assert |t| < |s| ==> s[|s| - 1] == '0';
    forall k | 0 <= k < TOKEN_DECIMALS ensures (t + Zeros(TOKEN_DECIMALS))[k] == s[k] {
      assert s[k] == (t + Zeros(|s| - |t|))[k];
    }
  }

  lemma {:induction false} PointlessStripped(s: string)
    requires Pointless(s)
    ensures Pointless(WithoutTrailingZeros(s))
  {
    if s == "" || s[|s| - 1] != '0' {
    } else {
      PointlessStripped(s[..|s| - 1]);
    }
  }

  /** A printed token amount reads as its two parts, the second cut after six characters. */
  lemma {:induction false} ReadsPrinted(read: IntegerReader, whole: string, part: string)
    requires Pointless(whole) && Pointless(part)
    requires |part| == TOKEN_DECIMALS || (|part| == TOKEN_DECIMALS + 1 && part[0] != '0')
    ensures ScaledBy(read, Joined(whole, WithoutTrailingZeros(part)))
            == InUnits(read(whole), read(part[..TOKEN_DECIMALS]))
  {
    RestoredFraction(part);
    PointlessStripped(part);
    SplitAtPoint(whole, WithoutTrailingZeros(part));
  }

  lemma {:induction false} ReadsRendered(read: IntegerReader, n: int)
    requires Knows(read)
    ensures Pointless(RenderSigned(n)) && read(RenderSigned(n)) == Some(n)
  {
    if n < 0 {
      assert read("-" + Render(-n)) == Some(n);
    }
  }

  /** Amounts that are not negative: the fraction prints as its six digits. */
  lemma {:induction false} PlainFraction(read: IntegerReader, rest: nat)
    requires Knows(read) && rest < TOKEN_UNIT
    ensures ReadsAs(read, PadStart(RenderSigned(rest), TOKEN_DECIMALS), Some(rest))
  {
    var part := PadStart(Render(rest), TOKEN_DECIMALS);
    Scales(1);
    RenderWidth(rest, TOKEN_DECIMALS);
    PadStartKeeps(Render(rest), TOKEN_DECIMALS);
    assert part[..TOKEN_DECIMALS] == part;
    assert read(part) == Some(rest);
  }

  /** A printed fraction, of which the first six characters read as `f`. */
  ghost predicate ReadsAs(read: IntegerReader, part: string, f: Option<int>)
  {
    && Pointless(part) && (|part| == TOKEN_DECIMALS || (|part| == TOKEN_DECIMALS + 1 && part[0] != '0'))
    && read(part[..TOKEN_DECIMALS]) == f
  }

  /** The sign of a negative fraction takes one of its six characters: six digits lose the last, five
      are read exactly, and fewer are padded with zeros in front of the sign. */
  lemma {:induction false} SignedFraction(read: IntegerReader, rest: int)
    requires Knows(read) && 0 - TOKEN_UNIT < rest < 0
    ensures ReadsAs(read, PadStart(RenderSigned(rest), TOKEN_DECIMALS), ReadFraction(rest))
  {
    DigitsOfFraction(0 - rest);
    SignedDigits(read, rest, Render(0 - rest));
  }

  lemma {:induction false} DigitsOfFraction(f: nat)
    requires 0 < f < TOKEN_UNIT
    ensures |Render(f)| <= 6
    ensures |Render(f)| == 6 <==> f >= 100_000
    ensures |Render(f)| >= 5 <==> f >= 10_000
  {
    Scales(1);
    RenderWidth(f, 6);
    RenderWidth(f, 5);
    RenderWidth(f, 4);
  }

  lemma {:induction false} SignedDigits(read: IntegerReader, rest: int, digits: string)
    requires Knows(read) && 0 - TOKEN_UNIT < rest < 0 && digits != "" && IsDigits(digits) &&
             NumberOf(digits) == 0 - rest
    requires |digits| <= 6 && (|digits| == 6 <==> rest <= -100_000) && (|digits| >= 5 <==> rest <= -10_000)
    ensures ReadsAs(read, PadStart("-" + digits, TOKEN_DECIMALS), ReadFraction(rest))
  {
    if |digits| == 6 {
      SixSigned(read, digits);
    } else if |digits| == 5 {
      FiveSigned(read, digits);
    } else {
      FewSigned(read, digits);
    }
  }

  lemma {:induction false} SixSigned(read: IntegerReader, digits: string)
    requires Knows(read) && IsDigits(digits) && |digits| == 6
    ensures ReadsAs(read, PadStart("-" + digits, TOKEN_DECIMALS), Some(0 - NumberOf(digits) / 10))
  {
    var part := PadStart("-" + digits, TOKEN_DECIMALS);
    assert part == "-" + digits && part[..TOKEN_DECIMALS] == "-" + digits[..5];
    assert read("-" + digits[..5]) == Some(0 - NumberOf(digits[..5]));
    assert NumberOf(digits) == 10 * NumberOf(digits[..5]) + DigitOf(digits[5]);
  }

  lemma {:induction false} FiveSigned(read: IntegerReader, digits: string)
    requires Knows(read) && IsDigits(digits) && |digits| == 5
    ensures ReadsAs(read, PadStart("-" + digits, TOKEN_DECIMALS), Some(0 - NumberOf(digits)))
  {
    assert PadStart("-" + digits, TOKEN_DECIMALS)[..TOKEN_DECIMALS] == "-" + digits;
    assert read("-" + digits) == Some(0 - NumberOf(digits));
  }

  lemma {:induction false} FewSigned(read: IntegerReader, digits: string)
    requires Knows(read) && IsDigits(digits) && 0 < |digits| < 5
    ensures ReadsAs(read, PadStart("-" + digits, TOKEN_DECIMALS), None)
  {
    var part := PadStart("-" + digits, TOKEN_DECIMALS);
    assert part == Zeros(5 - |digits|) + ("-" + digits);
    assert part[5 - |digits|] == '-' && SignBehindZero(part);
    assert part[..TOKEN_DECIMALS] == part;
  }

  /** The fraction part of a print, as it is read back. */
  function ReadFraction(rest: int): Option<int>
  {
    if rest >= 0 then Some(rest)
    else if rest <= -100_000 then Some(0 - (0 - rest) / 10)
    else if rest <= -10_000 then Some(rest)
    else None
  }

  lemma {:induction false} ReadsFraction(read: IntegerReader, rest: int)
    requires Knows(read) && 0 - TOKEN_UNIT < rest < TOKEN_UNIT
    ensures ReadsAs(read, PadStart(RenderSigned(rest), TOKEN_DECIMALS), ReadFraction(rest))
  {
    if rest >= 0 { PlainFraction(read, rest); } else { SignedFraction(read, rest); }
  }

  /** What a printed token amount reads as, below zero too. */
  lemma {:induction false} ReadsTokenText(read: IntegerReader, raw: int)
    requires Knows(read)
    ensures var whole := WholeTokens(raw);
            ScaledBy(read, TokenText(raw)) == InUnits(Some(whole), ReadFraction(raw - whole * TOKEN_UNIT))
  {
    var whole := WholeTokens(raw);
    var rest := raw - whole * TOKEN_UNIT;
    ReadsRendered(read, whole);
    ReadsFraction(read, rest);
    PrintedReads(read, RenderSigned(whole), PadStart(RenderSigned(rest), TOKEN_DECIMALS), whole, ReadFraction(rest));
  }

  lemma {:induction false} PrintedReads(read: IntegerReader, whole: string, part: string, w: int, f: Option<int>)
    requires Pointless(whole) && read(whole) == Some(w) && ReadsAs(read, part, f)
    ensures ScaledBy(read, Joined(whole, WithoutTrailingZeros(part))) == InUnits(Some(w), f)
  {
    ReadsPrinted(read, whole, part);
  }

  /** Reading a printed token amount gives the amount back for every amount from zero up; below zero
      only if the fraction is nothing or has five digits. */
  lemma {:induction false} TokenRoundTrip(raw: int)
    ensures ScaledAmount(TokenText(raw)) == Some(raw)
       <==> raw >= 0 || (var f := (0 - raw) % TOKEN_UNIT; f == 0 || 10_000 <= f < 100_000)
  {
    BigIntKnows();
    ReadsTokenText(ReadBigInt, raw);
    ReadBackIff(raw);
  }

  lemma {:induction false} ReadBackIff(raw: int)
    ensures InUnits(Some(WholeTokens(raw)), ReadFraction(raw - WholeTokens(raw) * TOKEN_UNIT)) == Some(raw)
       <==> raw >= 0 || (var f := (0 - raw) % TOKEN_UNIT; f == 0 || 10_000 <= f < 100_000)
  {
    TokenRest(raw);
    InUnitsExactly(raw, WholeTokens(raw), raw - WholeTokens(raw) * TOKEN_UNIT);
    FractionReadIff(raw - WholeTokens(raw) * TOKEN_UNIT);
  }

  lemma {:induction false} InUnitsExactly(raw: int, whole: int, rest: int)
    requires rest == raw - whole * TOKEN_UNIT
    ensures InUnits(Some(whole), ReadFraction(rest)) == Some(raw) <==> ReadFraction(rest) == Some(rest)
  {
  }

  lemma {:induction false} TokenRest(raw: int)
    ensures var rest := raw - WholeTokens(raw) * TOKEN_UNIT;
            rest == if raw < 0 then 0 - (0 - raw) % TOKEN_UNIT else raw % TOKEN_UNIT
  {
  }

  lemma {:induction false} FractionReadIff(rest: int)
    ensures ReadFraction(rest) == Some(rest) <==> rest >= 0 || 10_000 <= 0 - rest < 100_000
  {
  }

  function Printed(show: int -> string, amounts: seq<nat>): seq<string>
  {
    if amounts == [] then [] else Printed(show, amounts[..|amounts| - 1]) + [show(amounts[|amounts| - 1])]
  }

  function Sum(amounts: seq<nat>): nat
  {
    if amounts == [] then 0 else Sum(amounts[..|amounts| - 1]) + amounts[|amounts| - 1]
  }

  lemma {:induction false} TotalOfPrints(read: string -> Option<int>, show: int -> string, amounts: seq<nat>)
    requires forall n: nat {:trigger show(n)} :: read(show(n)) == Some(n)
    ensures TotalRead(read, Printed(show, amounts)) == Some(Sum(amounts))
  {
    if amounts == [] {
    } else {
      var init := amounts[..|amounts| - 1];
      TotalOfPrints(read, show, init);
      assert Printed(show, amounts)[..|Printed(show, init)|] == Printed(show, init);
    }
  }

  /** Summing printed token amounts reads the sum of the amounts, so it prints that sum. */
  lemma {:induction false} PrintedAmountsAddUp(amounts: seq<nat>)
    ensures TotalRead(ScaledAmount, Printed(TokenText, amounts)) == Some(Sum(amounts))
  {
    forall n: nat ensures ScaledAmount(TokenText(n)) == Some(n) {
      TokenRoundTrip(n);
    }
    TotalOfPrints(ScaledAmount, TokenText, amounts);
  }
}
