/** Integers as text: what `toString` prints and what `BigInt` reads. */
module IntegerText {
  import opened Wrappers

  // ----- digit strings -----

  predicate IsDigit(c: char)
  {
    '0' <= c <= '9'
  }

  predicate IsDigits(s: string)
  {
    forall k :: 0 <= k < |s| ==> IsDigit(s[k])
  }

  function DigitChar(d: nat): (c: char)
    requires d < 10
    ensures IsDigit(c) && DigitOf(c) == d
  {
    ('0' as int + d) as char
  }

  function DigitOf(c: char): nat
    requires IsDigit(c)
  {
    c as int - '0' as int
  }

  /** The number a digit string stands for; the empty string is zero. */
  function NumberOf(s: string): nat
    requires IsDigits(s)
  {
    if s == "" then 0 else 10 * NumberOf(s[..|s| - 1]) + DigitOf(s[|s| - 1])
  }

  lemma {:induction false} NumberOfSnoc(high: string, low: char)
    requires IsDigits(high) && IsDigit(low)
    ensures IsDigits(high + [low]) && NumberOf(high + [low]) == 10 * NumberOf(high) + DigitOf(low)
  {
    assert (high + [low])[..|high|] == high;
  }

  /** `n.toString()` */
  function Render(n: nat): (s: string)
    ensures s != "" && IsDigits(s) && NumberOf(s) == n
  {
    if n < 10 then
      assert [DigitChar(n)][..0] == "";
      [DigitChar(n)]
    else
      var high := Render(n / 10);
      NumberOfSnoc(high, DigitChar(n % 10));
      high + [DigitChar(n % 10)]
  }

  /** It has no superfluous zero in front. */
  predicate IsPlain(s: string)
  {
    s != "" && (|s| == 1 || s[0] != '0')
  }

  lemma {:induction false} RenderIsPlain(n: nat)
    ensures IsPlain(Render(n)) && (n > 0 ==> Render(n)[0] != '0')
  {
    if n < 10 {
    } else {
      RenderIsPlain(n / 10);
    }
  }

  lemma {:induction false} NotZeroInFront(s: string)
    requires IsDigits(s) && s != "" && s[0] != '0'
    ensures NumberOf(s) > 0
  {
    if |s| == 1 {
    } else {
      NotZeroInFront(s[..|s| - 1]);
    }
  }

  /** A digit string without superfluous zeros is what `toString` prints of its number. */
  lemma {:induction false} PlainIsPrinted(s: string)
    requires IsDigits(s) && IsPlain(s)
    ensures s == Render(NumberOf(s))
  {
    var init := s[..|s| - 1];
    if |s| == 1 {
      assert NumberOf(init) == 0;
    } else {
      NotZeroInFront(init);
      PlainIsPrinted(init);
      assert s == init + [s[|s| - 1]];
    }
  }

  // ----- what `BigInt` reads -----

  /** The characters JavaScript's `trim` removes. */
  predicate IsSpace(c: char)
  {
    || c == ' ' || '\t' <= c <= '\r' || c == '\U{00A0}' || c == '\U{1680}' || '\U{2000}' <= c <= '\U{200A}'
    || c == '\U{2028}' || c == '\U{2029}' || c == '\U{202F}' || c == '\U{205F}' || c == '\U{3000}' || c == '\U{FEFF}'
  }

  /** Where the leading spaces end. */
  function TrimStart(s: string, i: nat): (j: nat)
    requires i <= |s|
    ensures i <= j <= |s|
    decreases |s| - i
  {
    if i < |s| && IsSpace(s[i]) then TrimStart(s, i + 1) else i
  }

  /** Where the trailing spaces begin. */
  function TrimEnd(s: string, j: nat): (i: nat)
    requires j <= |s|
    ensures i <= j
  {
    if j > 0 && IsSpace(s[j - 1]) then TrimEnd(s, j - 1) else j
  }

  function Trim(s: string): string
  {
    var from, to := TrimStart(s, 0), TrimEnd(s, |s|);
    if from < to then s[from..to] else ""
  }

  function SignWidth(s: string): (n: nat)
    ensures n <= |s|
  {
    if s != "" && (s[0] == '-' || s[0] == '+') then 1 else 0
  }

  function Signed(negative: bool, n: nat): int
  {
    if negative then 0 - n else n
  }

  predicate IsNegative(s: string)
  {
    s != "" && s[0] == '-'
  }

  /** The radix a prefix announces; zero without a prefix. */
  function Radix(s: string): nat
  {
    if |s| < 2 || s[0] != '0' then 0
    else if s[1] == 'x' || s[1] == 'X' then 16
    else if s[1] == 'o' || s[1] == 'O' then 8
    else if s[1] == 'b' || s[1] == 'B' then 2
    else 0
  }

  /** The digit a character is, decimal or hexadecimal. */
  function HexDigit(c: char): Option<nat>
  {
    if IsDigit(c) then Some(DigitOf(c))
    else if 'a' <= c <= 'f' then Some(10 + (c as int - 'a' as int))
    else if 'A' <= c <= 'F' then Some(10 + (c as int - 'A' as int))
    else None
  }

  /** The number with one more digit. */
  function Appended(radix: nat, high: nat, low: nat): nat
  {
    radix * high + low
  }

  function ReadRadix(s: string, radix: nat): Option<nat>
  {
    if s == "" then Some(0)
    else
      var high, low := ReadRadix(s[..|s| - 1], radix), HexDigit(s[|s| - 1]);
      if high.Some? && low.Some? && low.value < radix then Some(Appended(radix, high.value, low.value)) else None
  }

  /** Spaces around the number do not count and nothing at all is zero.  A number is decimal with an
      optional sign, or has a radix prefix and no sign; everything else is refused. */
  function ReadBigInt(s: string): Option<int>
  {
    var t := Trim(s);
    if t == "" then Some(0)
    else if Radix(t) > 0 then
      match ReadRadix(t[2..], Radix(t))
      case Some(n) => if |t| > 2 then Some(n) else None
      case None => None
    else
      var unsigned := t[SignWidth(t)..];
      if unsigned != "" && IsDigits(unsigned) then Some(Signed(IsNegative(t), NumberOf(unsigned))) else None
  }

  /** Nothing but spaces; a radix prefix and digits of that radix; or an optional sign and decimal
      digits.  Spaces may stand around it. */
  predicate IsIntegerText(s: string)
  {
    var t := Trim(s);
    || t == ""
    || (Radix(t) > 0 && |t| > 2 && forall k :: 2 <= k < |t| ==> HexDigit(t[k]).Some? && HexDigit(t[k]).value < Radix(t))
    || (Radix(t) == 0 && |t| > SignWidth(t) && forall k :: SignWidth(t) <= k < |t| ==> IsDigit(t[k]))
  }

  lemma {:induction false} ReadsRadixIff(s: string, radix: nat)
    ensures ReadRadix(s, radix).Some? <==> forall k :: 0 <= k < |s| ==>
            HexDigit(s[k]).Some? && HexDigit(s[k]).value < radix
  {
    if s == "" {
    } else {
      ReadsRadixIff(s[..|s| - 1], radix);
    }
  }

  /** `BigInt` reads exactly the integer texts. */
  lemma {:induction false} ReadsIff(s: string)
    ensures ReadBigInt(s).Some? <==> IsIntegerText(s)
  {
    var t := Trim(s);
    if t != "" && Radix(t) > 0 {
      ReadsRadixIff(t[2..], Radix(t));
      DigitsBehind(t, 2, Radix(t));
    }
  }

  lemma {:induction false} DigitsBehind(t: string, n: nat, radix: nat)
    requires n <= |t|
    ensures (forall k :: 0 <= k < |t[n..]| ==> HexDigit(t[n..][k]).Some? && HexDigit(t[n..][k]).value < radix)
       <==> (forall k :: n <= k < |t| ==> HexDigit(t[k]).Some? && HexDigit(t[k]).value < radix)
  {
    forall k | n <= k < |t| ensures t[k] == t[n..][k - n] {
    }
  }

  lemma {:induction false} TrimNothing(s: string)
    requires s != "" ==> !IsSpace(s[0]) && !IsSpace(s[|s| - 1])
    ensures Trim(s) == s
  {
  }

  /** Trimming takes the spaces off both ends, and leaves none there. */
  lemma {:induction false} TrimIs(s: string) returns (from: nat, to: nat)
    ensures from <= to <= |s| && Trim(s) == s[from..to]
    ensures forall k :: 0 <= k < from || to <= k < |s| ==> IsSpace(s[k])
    ensures from < to ==> !IsSpace(s[from]) && !IsSpace(s[to - 1])
  {
    from, to := TrimStart(s, 0), TrimEnd(s, |s|);
    SpacesBefore(s, 0);
    SpacesBehind(s, |s|);
    if from >= to {
      AllOfThem(s, from, to);
      from, to := |s|, |s|;
    }
  }

  lemma {:induction false} AllOfThem(s: string, from: nat, to: nat)
    requires to <= from && forall k :: 0 <= k < |s| && (k < from || to <= k) ==> IsSpace(s[k])
    ensures forall k :: 0 <= k < |s| ==> IsSpace(s[k])
  {
  }

  lemma {:induction false} SpacesBefore(s: string, i: nat)
    requires i <= |s|
    ensures forall k :: i <= k < TrimStart(s, i) ==> IsSpace(s[k])
    ensures TrimStart(s, i) < |s| ==> !IsSpace(s[TrimStart(s, i)])
    decreases |s| - i
  {
    if i == |s| || !IsSpace(s[i]) {
    } else {
      SpacesBefore(s, i + 1);
    }
  }

  lemma {:induction false} SpacesBehind(s: string, j: nat)
    requires j <= |s|
    ensures forall k :: TrimEnd(s, j) <= k < j ==> IsSpace(s[k])
    ensures TrimEnd(s, j) > 0 ==> !IsSpace(s[TrimEnd(s, j) - 1])
  {
    if j == 0 || !IsSpace(s[j - 1]) {
    } else {
      SpacesBehind(s, j - 1);
    }
  }

  /** The white space and line ends of the language, by code point. */
  lemma {:induction false} SpacesAre(c: char)
    ensures IsSpace(c) <==>
            c as int in [9, 10, 11, 12, 13, 32, 160, 5760, 8192, 8193, 8194, 8195, 8196, 8197, 8198, 8199, 8200, 8201,
              8202, 8232, 8233, 8239, 8287, 12288, 65279]
  {
  }

  /** Digits in both cases, up to fifteen. */
  lemma {:induction false} HexDigitsAre(c: char, d: nat)
    requires d < 16
    ensures HexDigit(c) == Some(d) <==> c == "0123456789abcdef"[d] || c == "0123456789ABCDEF"[d]
  {
  }

  /** With its prefix, a number is read in radix sixteen, eight or two. */
  lemma {:induction false} ReadsPrefixed(marker: char, s: string, radix: nat)
    requires (marker in "xX" && radix == 16) || (marker in "oO" && radix == 8) || (marker in "bB" && radix == 2)
    requires s != "" && forall k :: 0 <= k < |s| ==> HexDigit(s[k]).Some? && HexDigit(s[k]).value < radix
    ensures ReadRadix(s, radix).Some? && ReadBigInt("0" + [marker] + s) == Some(ReadRadix(s, radix).value)
  {
    var t := "0" + [marker] + s;
    ReadsRadixIff(s, radix);
    assert t[|t| - 1] == s[|s| - 1] && t[0] == '0' && t[1] == marker;
    TrimNothing(t);
    assert t[2..] == s;
  }

  /** Digit after digit. */
  lemma {:induction false} ReadsOneMoreDigit(s: string, c: char, radix: nat)
    requires ReadRadix(s, radix).Some? && HexDigit(c).Some? && HexDigit(c).value < radix
    ensures ReadRadix(s + [c], radix) == Some(radix * ReadRadix(s, radix).value + HexDigit(c).value)
  {
    assert (s + [c])[..|s|] == s;
  }

  lemma {:induction false} ReadsDigits(s: string)
    requires IsDigits(s)
    ensures ReadBigInt(s) == Some(NumberOf(s))
  {
    TrimNothing(s);
    assert s[0..] == s;
  }

  lemma {:induction false} ReadsNegative(s: string)
    requires IsDigits(s) && s != ""
    ensures ReadBigInt("-" + s) == Some(0 - NumberOf(s))
  {
    var t := "-" + s;
    TrimNothing(t);
    assert t[1..] == s;
  }

  // ----- hexadecimal -----

  lemma {:induction false} TrimEndStops(s: string, k: nat, j: nat)
    requires k < j <= |s| && !IsSpace(s[k])
    ensures TrimEnd(s, j) > k
  {
    if j - 1 == k {
    } else {
      TrimEndStops(s, k, j - 1);
    }
  }

  /** With a radix prefix there is no sign, so what is read is natural. */
  lemma {:induction false} HexIsNatural(s: string)
    ensures var r := ReadBigInt("0x" + s); r.Some? ==> r.value >= 0
  {
    var t := "0x" + s;
    TrimEndStops(t, 1, |t|);
    assert Trim(t)[..2] == t[..2];
  }

  /** `BigInt("0x" + s)` */
  function ReadHex(s: string): Option<nat>
  {
    HexIsNatural(s);
    match ReadBigInt("0x" + s)
    case Some(n) => Some(n)
    case None => None
  }

  // ----- readers -----

  /** Something that reads integers, as `ReadBigInt` does. */
  type IntegerReader = string -> Option<int>

  /** A text of more than one character in which a sign stands behind a zero. */
  predicate SignBehindZero(s: string)
  {
    && |s| >= 2 && s[0] == '0' && (s[1] == '0' || s[1] == '-') && !IsSpace(s[|s| - 1])
    && exists k :: 0 < k < |s| && s[k] == '-'
  }

  /** It reads digits, with a minus sign or without, and refuses a sign behind a zero. */
  ghost predicate Knows(read: IntegerReader)
  {
    && (forall s {:trigger read(s)} :: IsDigits(s) ==> read(s) == Some(NumberOf(s)))
    && (forall s {:trigger read("-" + s)} :: IsDigits(s) && s != "" ==> read("-" + s) == Some(0 - NumberOf(s)))
    && (forall s {:trigger read(s)} :: SignBehindZero(s) ==> read(s) == None)
  }

  lemma {:induction false} BigIntKnows()
    ensures Knows(ReadBigInt)
  {
    forall s | IsDigits(s) ensures ReadBigInt(s) == Some(NumberOf(s)) {
      ReadsDigits(s);
    }
    forall s | IsDigits(s) && s != "" ensures ReadBigInt("-" + s) == Some(0 - NumberOf(s)) {
      ReadsNegative(s);
    }
    forall s | SignBehindZero(s) ensures ReadBigInt(s) == None {
      RefusesSignBehindZero(s);
    }
  }

  lemma {:induction false} RefusesSignBehindZero(s: string)
    requires SignBehindZero(s)
    ensures ReadBigInt(s) == None
  {
    TrimNothing(s);
    assert s[0..] == s;
  }
}
