/** The compact identity codec of pkg/security/identity.go. */
module Base63 {
  import opened Numerals
  import opened Text
  import opened Radix

  const ALPHABET := UPPER + LOWER + TAIL
  const TAIL := "0123456789_"
  const COMPACT_LEN := 43

  /** The digit a character stands for, by its range. */
  function Rank(c: char): int {
    if 'A' <= c <= 'Z' then c as int - 'A' as int
    else if 'a' <= c <= 'z' then c as int - 'a' as int + 26
    else if '0' <= c <= '9' then c as int - '0' as int + 52
    else if c == '_' then 62
    else -1
  }

  lemma UpperRank(i: nat)
    requires i < 26
    ensures |UPPER| == 26 && Rank(UPPER[i]) == i
  {
  }

  lemma LowerRank(i: nat)
    requires i < 26
    ensures |LOWER| == 26 && Rank(LOWER[i]) == i + 26
  {
  }

  lemma TailRank(i: nat)
    requires i < 11
    ensures |TAIL| == 11 && Rank(TAIL[i]) == i + 52
  {
  }

  lemma AlphabetRank(alphabet: string, i: nat)
    requires alphabet == ALPHABET && i < 63
    ensures |alphabet| == 63 && Rank(alphabet[i]) == i
  {
    if i < 26 {
      UpperRank(i);
    } else if i < 52 {
      LowerRank(i - 26);
    } else {
      TailRank(i - 52);
    }
  }

  lemma AlphabetFacts()
    ensures IsAlphabet(ALPHABET) && Distinct(ALPHABET)
    ensures forall c :: Has(ALPHABET, c) ==> 0 <= Rank(c)
  {
    AlphabetFactsFor(ALPHABET);
  }

  lemma AlphabetFactsFor(alphabet: string)
    requires alphabet == ALPHABET
    ensures IsAlphabet(alphabet) && Distinct(alphabet)
    ensures forall c :: Has(alphabet, c) ==> 0 <= Rank(c)
  {
    AlphabetRank(alphabet, 0);
    UpperRank(0);
    forall i | 0 <= i < 63
      ensures Rank(alphabet[i]) == i
    {
      AlphabetRank(alphabet, i);
    }
  }

  lemma OverIsPlain(s: string, alphabet: string)
    requires alphabet == ALPHABET && Over(s, alphabet)
    ensures Plain(s)
  {
    AlphabetFactsFor(alphabet);
    forall i | 0 <= i < |s|
      ensures s[i] != '-' && !IsSpace(s[i])
    {
      assert 0 <= Rank(s[i]);
    }
  }

  function Base63(data: Bytes): string {
    AlphabetFacts();
    Encoded(Value(data, 256), COMPACT_LEN, ALPHABET)
  }

  method EncodeBase63(data: Bytes) returns (s: string)
    ensures s == Base63(data)
  {
    AlphabetFacts();
    s := WriteNumber(Value(data, 256), COMPACT_LEN, ALPHABET);
  }

  /** What decodeBase63 must return: the 32 bytes of the value, unless it needs more. */
  function FromBase63(s: string): Result<Bytes> {
    AlphabetFacts();
    if |s| != COMPACT_LEN then Failure("invalid length")
    else if !Over(s, ALPHABET) then Failure("invalid character")
    else if Length(Number(s, ALPHABET), 256) > 32 then Failure("decoded value too large")
    else Success(ToBytes(Number(s, ALPHABET), 32))
  }

  method DecodeBase63(s: string) returns (r: Result<Bytes>)
    ensures r == FromBase63(s)
  {
    AlphabetFacts();
    if |s| != COMPACT_LEN {
      return Failure("invalid length");
    }
    var ok, num := ReadNumber(s, ALPHABET);
    if !ok {
      return Failure("invalid character");
    }
    var bytes := NumberToBytes(num, 32);
    LengthBound(num, 256, 32);
    if |bytes| > 32 {
      return Failure("decoded value too large");
    }
    r := Success(bytes);
  }

  /** Exactly the 43-character strings over the alphabet whose value is below
      2^256 decode, and to 32 bytes of that value. */
  lemma DecodesExactly(s: string)
    ensures IsAlphabet(ALPHABET)
    ensures FromBase63(s).Success? <==>
              |s| == 43 && Over(s, ALPHABET) && Number(s, ALPHABET) < Pow(256, 32)
    ensures FromBase63(s).Success? ==>
              |FromBase63(s).value| == 32 && Value(FromBase63(s).value, 256) == Number(s, ALPHABET)
  {
    AlphabetFacts();
    var size: nat := 32;
    if Over(s, ALPHABET) {
      LengthBound(Number(s, ALPHABET), 256, size);
      if Number(s, ALPHABET) < Pow(256, size) {
        ValueOfDigits(Number(s, ALPHABET), 256, size);
      }
    }
  }

  lemma RankInjective(c: char, d: char)
    requires Rank(c) == Rank(d) >= 0
    ensures c == d
  {
  }

  lemma RankIs(c: char, alphabet: string)
    requires alphabet == ALPHABET && 0 <= Rank(c)
    ensures |alphabet| == 63 && Has(alphabet, c) && IndexRune(alphabet, c) == Rank(c)
  {
    AlphabetFactsFor(alphabet);
    AlphabetRank(alphabet, 0);
    RankBelow(c);
    hide Rank;
    RankAt(c, alphabet, Rank(c));
  }

  lemma RankBelow(c: char)
    ensures Rank(c) < 63
  {
  }

  lemma RankAt(c: char, alphabet: string, r: nat)
    requires |alphabet| == 63 && Distinct(alphabet) && r < 63 && Rank(c) == r
    requires alphabet == ALPHABET
    ensures Has(alphabet, c) && IndexRune(alphabet, c) == r
  {
    AlphabetRank(alphabet, r);
    RankInjective(alphabet[r], c);
  }

  /** The number that a text spells, its characters taken by their ranges and the first
      one as the most significant digit. */
  function Spelled(s: string): int {
    if s == "" then 0 else Spelled(s[..|s| - 1]) * 63 + Rank(s[|s| - 1])
  }

  lemma SpelledSnoc(s: string, c: char)
    ensures Spelled("") == 0 && Spelled(s + [c]) == Spelled(s) * 63 + Rank(c)
  {
    assert (s + [c])[..|s|] == s;
  }

  lemma {:induction false} NumberByRank(s: string, alphabet: string)
    requires alphabet == ALPHABET && forall i :: 0 <= i < |s| ==> 0 <= Rank(s[i])
    ensures IsAlphabet(alphabet) && Over(s, alphabet) && Number(s, alphabet) == Spelled(s)
  {
    AlphabetFactsFor(alphabet);
    if s != "" {
      var front, c := s[..|s| - 1], s[|s| - 1];
      NumberByRank(front, alphabet);
      RankIs(c, alphabet);
      NumberSnoc(front, c, alphabet);
      assert front + [c] == s;
    }
  }

  /** The 32 bytes that a compact ID stands for, big-endian, are the number it spells. */
  lemma ReadsByRank(s: string)
    requires FromBase63(s).Success?
    ensures Value(FromBase63(s).value, 256) == Spelled(s)
  {
    AlphabetFacts();
    DecodesExactly(s);
    forall i | 0 <= i < |s|
      ensures 0 <= Rank(s[i])
    {
      assert Has(ALPHABET, s[i]);
    }
    NumberByRank(s, ALPHABET);
  }

  /** Every 32-byte value has a 43-character spelling, and decoding inverts it. */
  lemma DecodeEncode(data: Bytes)
    requires |data| == 32
    ensures |Base63(data)| == COMPACT_LEN && Over(Base63(data), ALPHABET)
    ensures FromBase63(Base63(data)) == Success(data)
  {
    AlphabetFacts();
    EncodedMeaning(Value(data, 256), COMPACT_LEN, ALPHABET);
    var n, width: nat := Value(data, 256), COMPACT_LEN;
    assert |Base63(data)| == width && Number(Base63(data), ALPHABET) == n by {
      WideEnough(data, width);
      EncodedMeaning(n, width, ALPHABET);
    }
    assert Length(n, 256) <= |data| && ToBytes(n, |data|) == data by {
      ValueBound(data, 256);
      LengthBound(n, 256, |data|);
      DigitsOfValue(data, 256);
    }
  }

  /** Whatever decodes, encodes back to the string it came from. */
  lemma EncodeDecode(s: string)
    requires FromBase63(s).Success?
    ensures |FromBase63(s).value| == 32 && Base63(FromBase63(s).value) == s
  {
    AlphabetFacts();
    NumberInverse(s, ALPHABET);
    DecodesExactly(s);
  }

  /** A seed written with a final newline is read back unchanged. */
  lemma SavedSeedReloads(seed: Bytes)
    requires |seed| == 32
    ensures FromBase63(TrimSpace(Base63(seed) + "\n")) == Success(seed)
  {
    DecodeEncode(seed);
    OverIsPlain(Base63(seed), ALPHABET);
    TrimFinalNewline(Base63(seed));
  }
}
