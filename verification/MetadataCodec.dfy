/** The metadata codec of the encrypted-token contracts: text to field elements and back.  Text is
    taken as its UTF-8 bytes. */
module MetadataCodec {
  import opened Digits

  /** 2^250 */
  const CHUNK_SIZE: nat := 1809251394333065553493296640760748560207343510400633813116524750123642650624

  const BN254_SCALAR_FIELD: nat := 21888242871839275222246405745257275088548364400416034343698204186575808495617

  /** 2^256, one more than the largest 32-byte word */
  const WORD_LIMIT: nat := 115792089237316195423570985008687907853269984665640564039457584007913129639936

  const WORD_DIGITS := 64

  lemma {:induction false} ShiftedTimes(base: nat, x: nat, y: nat)
    ensures Shifted(base, x * y, 0) == Shifted(base, x, 0) * y
  {
  }

  lemma {:induction false} PowerAdds(base: nat, a: nat, b: nat)
    ensures Power(base, a + b) == Power(base, a) * Power(base, b)
  {
    if a == 0 {
    } else {
      PowerAdds(base, a - 1, b);
      ShiftedTimes(base, Power(base, a - 1), Power(base, b));
      assert Power(base, a + b) == Shifted(base, Power(base, a - 1 + b), 0);
    }
  }

  lemma {:induction false} PowerDoubles(base: nat, k: nat, p: nat)
    requires Power(base, k) == p
    ensures Power(base, 2 * k) == p * p && Power(base, 2 * k + 1) == base * (p * p)
  {
    PowerAdds(base, k, k);
  }

  /** The chunk size is 2^250, so every chunk is a field element, and every field element fits a word. */
  lemma {:induction false} ChunkFitsField()
    ensures CHUNK_SIZE == Power(2, 250) && CHUNK_SIZE < BN254_SCALAR_FIELD
    ensures WORD_LIMIT == Power(16, 64) && BN254_SCALAR_FIELD < WORD_LIMIT
  {
    PowerDoubles(2, 1, 2);
    PowerDoubles(2, 3, 8);
    PowerDoubles(2, 7, 128);
    PowerDoubles(2, 15, 32768);
    PowerDoubles(2, 31, 2147483648);
    PowerDoubles(2, 62, 4611686018427387904);
    PowerDoubles(2, 125, 42535295865117307932921825928971026432);
    PowerDoubles(16, 1, 16);
    PowerDoubles(16, 2, 256);
    PowerDoubles(16, 4, 65536);
    PowerDoubles(16, 8, 4294967296);
    PowerDoubles(16, 16, 18446744073709551616);
    PowerDoubles(16, 32, 340282366920938463463374607431768211456);
  }

  // ----- chunks -----

  function Chunks(n: nat): seq<nat>
  {
    if n == 0 then [0] else LowDigits(CHUNK_SIZE, n)
  }

  method SplitIntoBigIntChunks(n: nat) returns (chunks: seq<nat>)
    ensures chunks == Chunks(n)
  {
    if n == 0 {
      return [0];
    }
    chunks := [];
    var remaining := n;
    while remaining > 0
      invariant chunks + LowDigits(CHUNK_SIZE, remaining) == LowDigits(CHUNK_SIZE, n)
      decreases remaining
    {
      chunks := chunks + [Remainder(CHUNK_SIZE, remaining)];
      remaining := Quotient(CHUNK_SIZE, remaining);
    }
  }

  method CombineFromBigIntChunks(chunks: seq<nat>) returns (result: nat)
    ensures result == LowValue(CHUNK_SIZE, chunks)
  {
    result := 0;
    for i := |chunks| downto 0
      invariant result == LowValue(CHUNK_SIZE, chunks[i..])
    {
      result := Shifted(CHUNK_SIZE, result, chunks[i]);
    }
  }

  /** The shape of a split: chunks in range, no superfluous zero chunk at the high end. */
  ghost predicate Canonical(chunks: seq<nat>)
  {
    chunks != [] && Below(chunks, CHUNK_SIZE) && (chunks == [0] || chunks[|chunks| - 1] != 0)
  }

  lemma {:induction false} CombineOfSplit(n: nat)
    ensures LowValue(CHUNK_SIZE, Chunks(n)) == n && Canonical(Chunks(n))
    ensures forall k :: 0 <= k < |Chunks(n)| ==> Chunks(n)[k] < BN254_SCALAR_FIELD
  {
    LowRoundTrip(CHUNK_SIZE, n);
  }

  /** Splitting undoes combining on the canonical chunk lists and on no others. */
  lemma {:induction false} SplitOfCombineIff(chunks: seq<nat>)
    ensures Chunks(LowValue(CHUNK_SIZE, chunks)) == chunks <==> Canonical(chunks)
  {
    CombineOfSplit(LowValue(CHUNK_SIZE, chunks));
    if Canonical(chunks) && chunks != [0] {
      LowDigitsOfValue(CHUNK_SIZE, chunks);
    }
  }

  // ----- text -----

  function HexDigits(bytes: seq<nat>): (hex: seq<nat>)
    ensures |hex| == 2 * |bytes|
  {
    if bytes == [] then [] else [Quotient(16, bytes[0]), Remainder(16, bytes[0])] + HexDigits(bytes[1..])
  }

  function BytesOfHex(hex: seq<nat>): seq<nat>
  {
    if |hex| < 2 then [] else [Shifted(16, hex[0], hex[1])] + BytesOfHex(hex[2..])
  }

  function WithoutNulls(bytes: seq<nat>): seq<nat>
  {
    if bytes == [] then [] else (if bytes[0] == 0 then [] else [bytes[0]]) + WithoutNulls(bytes[1..])
  }

  /** The chunks of a text, and how many they are. */
  function Str2Int(bytes: seq<nat>): (seq<nat>, nat)
  {
    if bytes == [] then ([0], 1)
    else
      var chunks := Chunks(Value(16, HexDigits(bytes)));
      (chunks, |chunks|)
  }

  function EvenHex(hex: seq<nat>): seq<nat>
  {
    if |hex| % 2 != 0 then [0] + hex else hex
  }

  function Int2Str(chunks: seq<nat>): seq<nat>
  {
    var decimal := LowValue(CHUNK_SIZE, chunks);
    if chunks == [0] || decimal == 0 then []
    else WithoutNulls(BytesOfHex(EvenHex(Numeral(16, decimal))))
  }

  lemma {:induction false} HexDigitsBelow(bytes: seq<nat>)
    requires Below(bytes, 256)
    ensures Below(HexDigits(bytes), 16)
  {
    if bytes == [] {
    } else {
      assert forall k :: 0 <= k < |bytes[1..]| ==> bytes[1..][k] == bytes[k + 1];
      HexDigitsBelow(bytes[1..]);
    }
  }

  lemma {:induction false} BytesOfHexDigits(bytes: seq<nat>)
    ensures BytesOfHex(HexDigits(bytes)) == bytes
  {
    if bytes == [] {
    } else {
      BytesOfHexDigits(bytes[1..]);
      ShiftedSplit(16, bytes[0]);
      assert HexDigits(bytes)[2..] == HexDigits(bytes[1..]);
    }
  }

  /** Dropping a text's leading zero digits and evening the count again drops its leading zero bytes. */
  lemma {:induction false} EvenHexOfText(bytes: seq<nat>)
    requires Below(bytes, 256)
    ensures EvenHex(WithoutLeadingZeros(HexDigits(bytes))) == HexDigits(WithoutLeadingZeros(bytes))
  {
    if bytes == [] {
    } else {
      var hex := HexDigits(bytes);
      if bytes[0] == 0 {
        assert hex[1..][1..] == HexDigits(bytes[1..]);
        assert forall k :: 0 <= k < |bytes[1..]| ==> bytes[1..][k] == bytes[k + 1];
        EvenHexOfText(bytes[1..]);
      } else if hex[0] == 0 {
        assert hex[1] != 0;
        assert [0] + hex[1..] == hex;
      }
    }
  }

  lemma {:induction false} NullsBeforeText(bytes: seq<nat>)
    ensures WithoutNulls(WithoutLeadingZeros(bytes)) == WithoutNulls(bytes)
  {
    if bytes == [] || bytes[0] != 0 {
    } else {
      NullsBeforeText(bytes[1..]);
    }
  }

  lemma {:induction false} NothingNull(bytes: seq<nat>)
    ensures |WithoutNulls(bytes)| <= |bytes| && (WithoutNulls(bytes) == bytes <==> 0 !in bytes)
  {
    if bytes == [] {
    } else {
      NothingNull(bytes[1..]);
      assert WithoutNulls(bytes) == bytes ==> WithoutNulls(bytes)[1..] == bytes[1..];
    }
  }

  /** Decoding an encoded text gives the text without its null bytes, so it gives the text
      exactly if it has none. */
  lemma {:induction false} TextRoundTrip(bytes: seq<nat>)
    requires Below(bytes, 256)
    ensures Int2Str(Str2Int(bytes).0) == WithoutNulls(bytes)
    ensures Int2Str(Str2Int(bytes).0) == bytes <==> 0 !in bytes
  {
    NothingNull(bytes);
    if bytes != [] {
      var n := Value(16, HexDigits(bytes));
      CombineOfSplit(n);
      HexDigitsBelow(bytes);
      NumeralOfValue(16, HexDigits(bytes));
      EvenHexOfText(bytes);
      BytesOfHexDigits(WithoutLeadingZeros(bytes));
      NullsBeforeText(bytes);
      if n == 0 {
        assert HexDigits(WithoutLeadingZeros(bytes)) == [];
      }
    }
  }
}
