/** The 32-byte words an encrypted message is framed in, as hex text. */
module MetadataFraming {
  import opened Digits
  import opened IntegerText
  import opened MetadataCodec
  import opened Wrappers

  // ----- framing -----

  datatype Sealed = Sealed(ciphertext: seq<nat>, nonce: nat, authKey0: nat, authKey1: nat)

  datatype FrameError = WordTooWide | NotANumber

  /** A 32-byte word, as its hex digits. */
  function Word(x: nat): seq<nat>
  {
    Padded(16, x, WORD_DIGITS)
  }

  lemma {:induction false} WordValue(x: nat)
    requires x < WORD_LIMIT
    ensures Value(16, Word(x)) == x && Below(Word(x), 16)
  {
    ChunkFitsField();
    PaddedValue(16, x, WORD_DIGITS);
    PaddedBelow(16, x, WORD_DIGITS);
  }

  function Words(xs: seq<nat>): (hex: seq<nat>)
    ensures |hex| == WORD_DIGITS * |xs|
  {
    if xs == [] then [] else Word(xs[0]) + Words(xs[1..])
  }

  function Header(length: nat, s: Sealed): seq<nat>
  {
    [length, s.nonce, s.authKey0, s.authKey1]
  }

  predicate WordSized(xs: seq<nat>)
  {
    Below(xs, WORD_LIMIT)
  }

  /** JavaScript's `slice`, which stops at the end. */
  function Slice<T>(hex: seq<T>, from: nat, to: nat): seq<T>
    requires from <= to
  {
    if |hex| <= from then [] else if |hex| <= to then hex[from..] else hex[from..to]
  }

  /** JavaScript's `slice` to the end. */
  function From<T>(hex: seq<T>, from: nat): seq<T>
  {
    if |hex| <= from then [] else hex[from..]
  }

  function HeaderWord<T>(hex: seq<T>, k: nat): seq<T>
  {
    Slice(hex, WORD_DIGITS * k, WORD_DIGITS * (k + 1))
  }

  /** The words of a digit string; the last may be short. */
  function Unworded(hex: seq<nat>): seq<nat>
    decreases |hex|
  {
    if |hex| == 0 then []
    else if |hex| <= WORD_DIGITS then [Value(16, hex)]
    else [Value(16, hex[..WORD_DIGITS])] + Unworded(hex[WORD_DIGITS..])
  }

  // ----- hex text -----

  function HexChar(d: nat): (c: char)
    requires d < 16
    ensures HexDigit(c) == Some(d) && !IsSpace(c) && c != 'x'
  {
    if d < 10 then DigitChar(d) else ('a' as int + (d - 10)) as char
  }

  /** Hex text is written in lower case. */
  lemma {:induction false} HexCharIs(d: nat)
    requires d < 16
    ensures HexChar(d) == "0123456789abcdef"[d]
  {
  }

  function HexText(ds: seq<nat>): (s: string)
    requires Below(ds, 16)
    ensures |s| == |ds| && forall k :: 0 <= k < |s| ==> s[k] == HexChar(ds[k])
  {
    seq(|ds|, k requires 0 <= k < |ds| => HexChar(ds[k]))
  }

  lemma {:induction false} ReadsDigitText(ds: seq<nat>)
    requires Below(ds, 16)
    ensures ReadRadix(HexText(ds), 16) == Some(Value(16, ds))
  {
    if ds == [] {
    } else {
      var high, low := ds[..|ds| - 1], ds[|ds| - 1];
      assert ds == high + [low];
      ReadsDigitText(high);
      ReadsTextMore(high, low);
    }
  }

  lemma {:induction false} ReadsTextMore(high: seq<nat>, low: nat)
    requires Below(high, 16) && low < 16 && ReadRadix(HexText(high), 16) == Some(Value(16, high))
    ensures Below(high + [low], 16) && ReadRadix(HexText(high + [low]), 16) == Some(Value(16, high + [low]))
  {
    HexTextSnoc(high, low);
    ReadsOneMore(HexText(high), HexChar(low), Value(16, high), low);
    ValueSnoc(16, high, low);
  }

  lemma {:induction false} HexTextSnoc(high: seq<nat>, low: nat)
    requires Below(high, 16) && low < 16
    ensures Below(high + [low], 16) && HexText(high + [low]) == HexText(high) + [HexChar(low)]
  {
  }

  lemma {:induction false} ReadsOneMore(high: string, c: char, n: nat, d: nat)
    requires ReadRadix(high, 16) == Some(n) && HexDigit(c) == Some(d) && d < 16
    ensures ReadRadix(high + [c], 16) == Some(16 * n + d)
  {
    assert (high + [c])[..|high|] == high;
  }

  /** A word's digits read as its value, and no digits at all are no number. */
  lemma {:induction false} ReadsHexText(ds: seq<nat>)
    requires Below(ds, 16)
    ensures ReadHex(HexText(ds)) == if ds == [] then None else Some(Value(16, ds))
  {
    var t := "0x" + HexText(ds);
    TrimNothing(t);
    assert t[2..] == HexText(ds);
    ReadsDigitText(ds);
  }

  /** The prefix is optional. */
  function Prefixless(text: string): string
  {
    if |text| >= 2 && text[0] == '0' && text[1] == 'x' then text[2..] else text
  }

  /** `words`, and then the rest if it could be read. */
  function Behind(words: seq<nat>, rest: Option<seq<nat>>): Option<seq<nat>>
  {
    if rest.Some? then Some(words + rest.value) else None
  }

  /** The words of a text; a word with anything but hex digits spoils them all. */
  function ReadWords(hex: string): Option<seq<nat>>
    decreases |hex|
  {
    if |hex| == 0 then Some([])
    else
      match ReadHex(Slice(hex, 0, WORD_DIGITS))
      case Some(word) => Behind([word], ReadWords(From(hex, WORD_DIGITS)))
      case None => None
  }

  method ParseWords(hex: string) returns (r: Option<seq<nat>>)
    ensures r == ReadWords(hex)
  {
    var words: seq<nat> := [];
    var i := 0;
    BehindNothing(ReadWords(hex));
    while i < |hex|
      invariant Behind(words, ReadWords(From(hex, i))) == ReadWords(hex)
      decreases |hex| - i
    {
      WordsFrom(hex, i);
      var word := ReadHex(Slice(hex, i, i + WORD_DIGITS));
      if word.None? {
        return None;
      }
      BehindTwice(words, word.value, ReadWords(From(hex, i + WORD_DIGITS)));
      words := words + [word.value];
      i := i + WORD_DIGITS;
    }
    assert words + [] == words;
    r := Some(words);
  }

  lemma {:induction false} BehindNothing(rest: Option<seq<nat>>)
    ensures Behind([], rest) == rest
  {
    if rest.Some? { assert [] + rest.value == rest.value; }
  }

  lemma {:induction false} WordsFrom(hex: string, i: nat)
    requires i < |hex|
    ensures ReadWords(From(hex, i)) ==
            match ReadHex(Slice(hex, i, i + WORD_DIGITS))
            case Some(word) => Behind([word], ReadWords(From(hex, i + WORD_DIGITS)))
            case None => None
  {
    assert Slice(From(hex, i), 0, WORD_DIGITS) == Slice(hex, i, i + WORD_DIGITS);
    assert From(From(hex, i), WORD_DIGITS) == From(hex, i + WORD_DIGITS);
  }

  lemma {:induction false} BehindTwice(words: seq<nat>, word: nat, rest: Option<seq<nat>>)
    ensures Behind(words, Behind([word], rest)) == Behind(words + [word], rest)
  {
    if rest.Some? { assert words + ([word] + rest.value) == words + [word] + rest.value; }
  }

  datatype Frame = Frame(length: nat, payload: Sealed)

  function FrameOf(
      length: Option<nat>, nonce: Option<nat>, authKey0: Option<nat>, authKey1: Option<nat>,
      ciphertext: Option<seq<nat>>): Result<Frame, FrameError>
  {
    if length.Some? && nonce.Some? && authKey0.Some? && authKey1.Some? && ciphertext.Some? then
      Success(Frame(length.value, Sealed(ciphertext.value, nonce.value, authKey0.value, authKey1.value)))
    else Failure(NotANumber)
  }

  /** Four words and the ciphertext behind them, each of which must be a number. */
  function ParsedHex(hex: string): Result<Frame, FrameError>
  {
    FrameOf(ReadHex(HeaderWord(hex, 0)), ReadHex(HeaderWord(hex, 1)), ReadHex(HeaderWord(hex, 2)),
            ReadHex(HeaderWord(hex, 3)), ReadWords(From(hex, 4 * WORD_DIGITS)))
  }

  function Parsed(text: string): Result<Frame, FrameError>
  {
    ParsedHex(Prefixless(text))
  }

  /** Read a frame; a header word without digits, or any word with something else in it, is not a number. */
  method ParseFrame(text: string) returns (r: Result<Frame, FrameError>)
    ensures r == Parsed(text)
  {
    var hex := if |text| >= 2 && text[0] == '0' && text[1] == 'x' then text[2..] else text;
    var length, nonce := ReadHex(Slice(hex, 0, 64)), ReadHex(Slice(hex, 64, 128));
    var authKey0, authKey1 := ReadHex(Slice(hex, 128, 192)), ReadHex(Slice(hex, 192, 256));
    if length.None? || nonce.None? || authKey0.None? || authKey1.None? {
      return Failure(NotANumber);
    }
    var ciphertext := ParseWords(From(hex, 256));
    r := FrameOf(length, nonce, authKey0, authKey1, ciphertext);
  }

  // ----- frames that were written -----

  lemma {:induction false} WordsAppend(xs: seq<nat>, ys: seq<nat>)
    ensures Words(xs + ys) == Words(xs) + Words(ys)
  {
    if xs == [] {
      assert xs + ys == ys;
    } else {
      assert (xs + ys)[1..] == xs[1..] + ys;
      WordsAppend(xs[1..], ys);
    }
  }

  lemma {:induction false} FirstWord(word: seq<nat>, rest: seq<nat>)
    requires |word| == WORD_DIGITS
    ensures Unworded(word + rest) == [Value(16, word)] + Unworded(rest)
  {
    assert (word + rest)[..WORD_DIGITS] == word && (word + rest)[WORD_DIGITS..] == rest;
    if rest == [] {
      assert word + rest == word;
    }
  }

  lemma {:induction false} WordSizedTail(xs: seq<nat>, k: nat)
    requires WordSized(xs) && k <= |xs|
    ensures WordSized(xs[k..])
  {
    assert forall j :: 0 <= j < |xs[k..]| ==> xs[k..][j] == xs[j + k];
  }

  lemma {:induction false} WordsRoundTrip(xs: seq<nat>)
    requires WordSized(xs)
    ensures Unworded(Words(xs)) == xs
  {
    if xs == [] {
    } else {
      WordSizedTail(xs, 1);
      WordsRoundTrip(xs[1..]);
      WordValue(xs[0]);
      FirstWord(Word(xs[0]), Words(xs[1..]));
    }
  }

  /** Word `k` of a frame. */
  lemma {:induction false} WordAt(xs: seq<nat>, k: nat)
    requires k < |xs| && WordSized(xs)
    ensures Value(16, HeaderWord(Words(xs), k)) == xs[k]
    ensures From(Words(xs), WORD_DIGITS * (k + 1)) == Words(xs[k + 1..])
  {
    assert xs == xs[..k] + [xs[k]] + xs[k + 1..];
    WordsAppend(xs[..k] + [xs[k]], xs[k + 1..]);
    WordsAppend(xs[..k], [xs[k]]);
    WordValue(xs[k]);
    assert Words([xs[k]]) == Word(xs[k]);
    assert HeaderWord(Words(xs), k) == Word(xs[k]);
  }

  lemma {:induction false} WordsAreHex(xs: seq<nat>)
    requires WordSized(xs)
    ensures Below(Words(xs), 16)
  {
    if xs == [] {
    } else {
      WordValue(xs[0]);
      WordSizedTail(xs, 1);
      WordsAreHex(xs[1..]);
    }
  }

  /** Slicing the text is slicing the digits. */
  lemma {:induction false} TextSlices(ds: seq<nat>, from: nat, to: nat)
    requires Below(ds, 16) && from <= to
    ensures Below(Slice(ds, from, to), 16) && Slice(HexText(ds), from, to) == HexText(Slice(ds, from, to))
    ensures Below(From(ds, from), 16) && From(HexText(ds), from) == HexText(From(ds, from))
  {
  }

  lemma {:induction false} UnwordedStep(ds: seq<nat>)
    requires ds != []
    ensures Unworded(ds) == [Value(16, Slice(ds, 0, WORD_DIGITS))] + Unworded(From(ds, WORD_DIGITS))
  {
  }

  lemma {:induction false} ReadsAllWords(ds: seq<nat>)
    requires Below(ds, 16)
    ensures ReadWords(HexText(ds)) == Some(Unworded(ds))
    decreases |ds|
  {
    if ds == [] {
    } else {
      TextSlices(ds, 0, WORD_DIGITS);
      TextSlices(ds, WORD_DIGITS, WORD_DIGITS);
      ReadsHexText(Slice(ds, 0, WORD_DIGITS));
      ReadsAllWords(From(ds, WORD_DIGITS));
      UnwordedStep(ds);
    }
  }

  lemma {:induction false} ReadsHeaderWord(ds: seq<nat>, k: nat)
    requires Below(ds, 16) && WORD_DIGITS * k < |ds|
    ensures ReadHex(HeaderWord(HexText(ds), k)) == Some(Value(16, HeaderWord(ds, k)))
  {
    TextSlices(ds, WORD_DIGITS * k, WORD_DIGITS * (k + 1));
    ReadsHexText(HeaderWord(ds, k));
  }

  lemma {:induction false} ParsedWords(xs: seq<nat>)
    requires WordSized(xs) && |xs| >= 4
    ensures Below(Words(xs), 16)
    ensures ParsedHex(HexText(Words(xs))) == Success(Frame(xs[0], Sealed(xs[4..], xs[1], xs[2], xs[3])))
  {
    WordsAreHex(xs);
    ReadsWordOf(xs, 0);
    ReadsWordOf(xs, 1);
    ReadsWordOf(xs, 2);
    ReadsWordOf(xs, 3);
    ReadsTail(xs);
  }

  lemma {:induction false} ReadsWordOf(xs: seq<nat>, k: nat)
    requires k < |xs| && WordSized(xs) && Below(Words(xs), 16)
    ensures ReadHex(HeaderWord(HexText(Words(xs)), k)) == Some(xs[k])
  {
    WordAt(xs, k);
    ReadsHeaderWord(Words(xs), k);
  }

  lemma {:induction false} ReadsTail(xs: seq<nat>)
    requires |xs| >= 4 && WordSized(xs) && Below(Words(xs), 16)
    ensures ReadWords(From(HexText(Words(xs)), 4 * WORD_DIGITS)) == Some(xs[4..])
  {
    WordAt(xs, 3);
    TextSlices(Words(xs), 4 * WORD_DIGITS, 4 * WORD_DIGITS);
    ReadsAllWords(From(Words(xs), 4 * WORD_DIGITS));
    WordSizedTail(xs, 4);
    WordsRoundTrip(xs[4..]);
  }

  /** Length, nonce, authentication key, then the ciphertext, one word each; a number that does not
      fit a word cannot be framed. */
  function Framed(length: nat, s: Sealed): Result<string, FrameError>
  {
    var xs := Header(length, s) + s.ciphertext;
    if WordSized(xs) then
      WordsAreHex(xs);
      Success("0x" + HexText(Words(xs)))
    else Failure(WordTooWide)
  }

  /** Whatever could be framed is parsed to exactly what was framed, with the prefix or without it. */
  lemma {:induction false} FrameRoundTrip(length: nat, s: Sealed)
    ensures Framed(length, s).Success? <==> WordSized(Header(length, s) + s.ciphertext)
    ensures Framed(length, s).Success? ==>
              var text := Framed(length, s).value;
              |text| >= 2 && Parsed(text) == Parsed(text[2..]) == Success(Frame(length, s))
  {
    var xs := Header(length, s) + s.ciphertext;
    if WordSized(xs) {
      ParsedWords(xs);
      var hex := HexText(Words(xs));
      assert ("0x" + hex)[2..] == hex;
      assert Prefixless("0x" + hex) == hex && Prefixless(hex) == hex;
      assert xs[4..] == s.ciphertext;
    }
  }

  // ----- encrypted metadata -----

  /** Encryption to a key pair, as a pair of functions on field elements. */
  datatype Cipher = Cipher(encrypt: seq<nat> -> Sealed, decrypt: (Sealed, nat) -> seq<nat>)

  ghost predicate FieldElements(xs: seq<nat>)
  {
    Below(xs, BN254_SCALAR_FIELD)
  }

  /** Decrypting gives back any list of field elements, and only field elements are sent. */
  ghost predicate Sound(c: Cipher)
  {
    forall m {:trigger c.encrypt(m)} :: FieldElements(m) ==>
      c.decrypt(c.encrypt(m), |m|) == m && FieldElements(Header(0, c.encrypt(m)) + c.encrypt(m).ciphertext)
  }

  function EncryptMetadata(c: Cipher, message: seq<nat>): Result<string, FrameError>
  {
    var (chunks, length) := Str2Int(message);
    Framed(length, c.encrypt(chunks))
  }

  function DecryptMetadata(c: Cipher, text: string): Result<seq<nat>, FrameError>
  {
    match Parsed(text)
    case Success(frame) => Success(Int2Str(c.decrypt(frame.payload, frame.length)))
    case Failure(error) => Failure(error)
  }

  /** A message survives encryption up to its null bytes, unless it has so many chunks that their
      number fits no word; then it is refused. */
  lemma {:induction false} MetadataRoundTrip(c: Cipher, message: seq<nat>)
    requires Sound(c) && Below(message, 256)
    ensures match EncryptMetadata(c, message)
            case Success(text) => DecryptMetadata(c, text) == Success(WithoutNulls(message))
            case Failure(error) => error == WordTooWide && Str2Int(message).1 >= WORD_LIMIT
  {
    var (chunks, length) := Str2Int(message);
    ChunksAreSent(c, message);
    FrameRoundTrip(length, c.encrypt(chunks));
    TextRoundTrip(message);
  }

  lemma {:induction false} ChunksAreSent(c: Cipher, message: seq<nat>)
    requires Sound(c) && Below(message, 256)
    ensures var (chunks, length) := Str2Int(message);
            var s := c.encrypt(chunks);
            && (length < WORD_LIMIT ==> WordSized(Header(length, s) + s.ciphertext))
            && c.decrypt(s, length) == chunks
  {
    var (chunks, length) := Str2Int(message);
    assert FieldElements(chunks) by {
      CombineOfSplit(Value(16, HexDigits(message)));
    }
    var s := c.encrypt(chunks);
    ChunkFitsField();
    var header, sent := Header(0, s) + s.ciphertext, Header(length, s) + s.ciphertext;
    forall k | 0 <= k < |sent| ensures length < WORD_LIMIT ==> sent[k] < WORD_LIMIT {
      assert k > 0 ==> sent[k] == header[k];
    }
  }
}
