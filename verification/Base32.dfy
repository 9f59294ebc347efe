/** Base32 without padding, as encoding/base32 implements section 6 of RFC 4648:
    the bits of the bytes, in order, cut into groups of five. */
module Base32 {
  import opened Numerals
  import opened Text

  const ALPHABET := UPPER + TAIL
  const TAIL := "234567"

  function Rank(c: char): int {
    if 'A' <= c <= 'Z' then c as int - 'A' as int
    else if '2' <= c <= '7' then c as int - '2' as int + 26
    else -1
  }

  lemma UpperRank(i: nat)
    requires i < 26
    ensures |UPPER| == 26 && Rank(UPPER[i]) == i
  {
  }

  lemma TailRank(i: nat)
    requires i < 6
    ensures |TAIL| == 6 && Rank(TAIL[i]) == i + 26
  {
  }

  lemma AlphabetRank(alphabet: string, i: nat)
    requires alphabet == ALPHABET && i < 32
    ensures |alphabet| == 32 && Rank(alphabet[i]) == i
  {
    if i < 26 {
      UpperRank(i);
    } else {
      TailRank(i - 26);
    }
  }

  lemma AlphabetFacts()
    ensures |ALPHABET| == 32 && Distinct(ALPHABET)
    ensures forall c :: Has(ALPHABET, c) ==> 0 <= Rank(c) == IndexRune(ALPHABET, c)
  {
    AlphabetFactsFor(ALPHABET);
  }

  lemma AlphabetFactsFor(alphabet: string)
    requires alphabet == ALPHABET
    ensures |alphabet| == 32 && Distinct(alphabet)
    ensures forall c :: Has(alphabet, c) ==> 0 <= Rank(c) == IndexRune(alphabet, c)
  {
    AlphabetRank(alphabet, 0);
    forall i | 0 <= i < 32
      ensures Rank(alphabet[i]) == i
    {
      AlphabetRank(alphabet, i);
    }
  }

  /** Alphabet characters survive dash removal, trimming and upper-casing. */
  lemma OverIsPlain(s: string, alphabet: string)
    requires alphabet == ALPHABET && Over(s, alphabet)
    ensures Plain(s) && NoDashes(s) == s && ToUpper(s) == s
  {
    AlphabetFactsFor(alphabet);
    forall i | 0 <= i < |s|
      ensures s[i] != '-' && !IsSpace(s[i]) && Upper(s[i]) == s[i]
    {
      assert 0 <= Rank(s[i]);
    }
  }

  /** The `w`-bit groups of `ds` laid end to end. */
  function Spread(ds: seq<nat>, w: nat): (bits: seq<nat>)
    ensures |bits| == |ds| * w && AreDigits(bits, 2)
  {
    if ds == [] then [] else Digits(ds[0], 2, w) + Spread(ds[1..], w)
  }

  /** The first `k` groups of `w` bits, as numbers. */
  function Gather(bits: seq<nat>, w: nat, k: nat): (ds: seq<nat>)
    requires |bits| >= k * w
    ensures |ds| == k
  {
    if k == 0 then []
    else
      assert k * w == (k - 1) * w + w;
      [Value(bits[..w], 2)] + Gather(bits[w..], w, k - 1)
  }

  lemma {:induction false} GatherBound(bits: seq<nat>, w: nat, k: nat)
    requires |bits| >= k * w && AreDigits(bits, 2)
    ensures AreDigits(Gather(bits, w, k), Pow(2, w))
  {
    if k > 0 {
      assert k * w == (k - 1) * w + w;
      ValueBound(bits[..w], 2);
      GatherBound(bits[w..], w, k - 1);
    }
  }

  lemma {:induction false} GatherSpread(ds: seq<nat>, w: nat, extra: seq<nat>)
    requires AreDigits(ds, Pow(2, w))
    ensures Gather(Spread(ds, w) + extra, w, |ds|) == ds
  {
    if ds != [] {
      hide Digits;
      hide Value;
      hide Pow;
      ValueOfDigits(ds[0], 2, w);
      Halves(Digits(ds[0], 2, w), Spread(ds[1..], w), extra);
      GatherSpread(ds[1..], w, extra);
    }
  }

  lemma Halves(a: seq<nat>, b: seq<nat>, c: seq<nat>)
    ensures (a + b + c)[..|a|] == a && (a + b + c)[|a|..] == b + c
  {
  }

  lemma {:induction false} SpreadGather(bits: seq<nat>, w: nat, k: nat)
    requires |bits| == k * w && AreDigits(bits, 2)
    ensures Spread(Gather(bits, w, k), w) == bits
  {
    if k > 0 {
      assert k * w == (k - 1) * w + w;
      DigitsOfValue(bits[..w], 2);
      SpreadGather(bits[w..], w, k - 1);
      assert bits == bits[..w] + bits[w..];
    }
  }

  function EncodedLen(n: nat): nat {
    (8 * n + 4) / 5
  }

  /** Bytes in a final group of `t` characters; 1, 3 and 6 characters give none. */
  function TailBytes(t: nat): nat
    requires t < 8
  {
    match t case 2 => 1 case 4 => 2 case 5 => 3 case 7 => 4 case _ => 0
  }

  function DecodedLen(c: nat): (n: nat)
    ensures 8 * n <= 5 * c
  {
    5 * (c / 8) + TailBytes(c % 8)
  }

  lemma LengthsInverse(n: nat)
    ensures DecodedLen(EncodedLen(n)) == n
  {
    assert n % 5 == 0 || n % 5 == 1 || n % 5 == 2 || n % 5 == 3 || n % 5 == 4;
  }

  /** The bits of `data`, filled up with zero bits to whole groups of five. */
  function GroupedBits(data: Bytes): (bits: seq<nat>)
    ensures |bits| == 5 * EncodedLen(|data|) && AreDigits(bits, 2)
  {
    Spread(data, 8) + Zeros(5 * EncodedLen(|data|) - 8 * |data|)
  }

  function EncodeDigits(data: Bytes): (ds: seq<nat>)
    ensures |ds| == EncodedLen(|data|) && AreDigits(ds, 32)
  {
    GatherBound(GroupedBits(data), 5, EncodedLen(|data|));
    Gather(GroupedBits(data), 5, EncodedLen(|data|))
  }

  function DecodeDigits(ds: seq<nat>): (data: Bytes)
    ensures |data| == DecodedLen(|ds|)
  {
    GatherBound(Spread(ds, 5), 8, DecodedLen(|ds|));
    Gather(Spread(ds, 5), 8, DecodedLen(|ds|))
  }

  lemma DigitsRoundTrip(data: Bytes)
    ensures DecodeDigits(EncodeDigits(data)) == data
  {
    LengthsInverse(|data|);
    SpreadGather(GroupedBits(data), 5, EncodedLen(|data|));
    GatherSpread(data, 8, Zeros(5 * EncodedLen(|data|) - 8 * |data|));
  }

  function Encode(data: Bytes): (s: string)
    ensures |s| == EncodedLen(|data|)
  {
    AlphabetFacts();
    Spell(EncodeDigits(data), ALPHABET)
  }

  /** The library reader drops carriage returns and newlines first. */
  function StripNewlines(s: string): (r: string)
    ensures |r| <= |s|
  {
    if s == "" then ""
    else (if s[0] == '\n' || s[0] == '\r' then "" else [s[0]]) + StripNewlines(s[1..])
  }

  lemma {:induction false} NoNewlines(s: string)
    requires Over(s, ALPHABET)
    ensures StripNewlines(s) == s
  {
    if s != "" {
      AlphabetFacts();
      NoNewlines(s[1..]);
    }
  }

  function Decode(s: string): Result<Bytes> {
    AlphabetFacts();
    var t := StripNewlines(s);
    if Over(t, ALPHABET) then Success(DecodeDigits(Unspell(t, ALPHABET))) else Failure("illegal base32 data")
  }

  lemma DecodeEncode(data: Bytes)
    ensures Over(Encode(data), ALPHABET)
    ensures Decode(Encode(data)) == Success(data)
  {
    AlphabetFacts();
    UnspellSpell(EncodeDigits(data), ALPHABET);
    NoNewlines(Encode(data));
    DigitsRoundTrip(data);
  }

  lemma RankIs(c: char, alphabet: string)
    requires alphabet == ALPHABET && Rank(c) >= 0
    ensures |alphabet| == 32 && Has(alphabet, c) && IndexRune(alphabet, c) == Rank(c)
  {
    AlphabetFactsFor(alphabet);
    AlphabetRank(alphabet, Rank(c));
    LetterIn(alphabet, Rank(c));
  }

  /** The bits of each byte, first bit first, in groups of five: vectors of section 10
      of RFC 4648. */
  lemma StandardVectors()
    ensures EncodeDigits([0x66]) == [12, 24]                 // "f" is MY
    ensures EncodeDigits([0x66, 0x6f]) == [12, 25, 23, 16]   // "fo" is MZXQ
  {
    ByteBits(0x66, [0, 1, 1, 0, 0, 1, 1, 0]);
    ByteBits(0x6f, [0, 1, 1, 0, 1, 1, 1, 1]);
    assert Zeros(2) == [0, 0] && Zeros(4) == [0, 0, 0, 0];
    OneByte();
    TwoBytes();
  }

  lemma ByteBits(b: nat, bits: seq<nat>)
    requires |bits| == 8 && AreDigits(bits, 2)
    requires b == 128 * bits[0] + 64 * bits[1] + 32 * bits[2] + 16 * bits[3]
                  + 8 * bits[4] + 4 * bits[5] + 2 * bits[6] + bits[7]
    ensures Digits(b, 2, 8) == bits
  {
    Group(bits[..5]);
    EightValue(bits);
    DigitsOfValue(bits, 2);
  }

  lemma Group(g: seq<nat>)
    requires |g| == 5
    ensures Value(g, 2) == 16 * g[0] + 8 * g[1] + 4 * g[2] + 2 * g[3] + g[4]
  {
    assert g[..4][..3] == g[..3] && g[..3][..2] == g[..2] && g[..2][..1] == g[..1] && g[..1][..0] == [];
    assert Value(g[..1], 2) == g[0];
    assert Value(g[..2], 2) == 2 * g[0] + g[1];
    assert Value(g[..3], 2) == 4 * g[0] + 2 * g[1] + g[2];
    assert Value(g[..4], 2) == 8 * g[0] + 4 * g[1] + 2 * g[2] + g[3];
  }

  lemma EightValue(bits: seq<nat>)
    requires |bits| == 8
    ensures Value(bits, 2) ==
            128 * bits[0] + 64 * bits[1] + 32 * bits[2] + 16 * bits[3]
            + 8 * bits[4] + 4 * bits[5] + 2 * bits[6] + bits[7]
  {
    Group(bits[..5]);
    assert bits[..6][..5] == bits[..5] && bits[..7][..6] == bits[..6];
    assert Value(bits[..6], 2) == 2 * Value(bits[..5], 2) + bits[5];
    assert Value(bits[..7], 2) == 2 * Value(bits[..6], 2) + bits[6];
  }

  /** The number of five bits, first bit first. */
  function Five(g: seq<nat>): nat
    requires |g| == 5
  {
    16 * g[0] + 8 * g[1] + 4 * g[2] + 2 * g[3] + g[4]
  }

  lemma GatherCons(g: seq<nat>, rest: seq<nat>, k: nat)
    requires |g| == 5 && |rest| >= 5 * k
    ensures Gather(g + rest, 5, k + 1) == [Five(g)] + Gather(rest, 5, k)
  {
    Group(g);
    assert (g + rest)[..5] == g && (g + rest)[5..] == rest;
  }

  lemma OneByte()
    requires Digits(0x66, 2, 8) == [0, 1, 1, 0, 0, 1, 1, 0] && Zeros(2) == [0, 0]
    ensures EncodeDigits([0x66]) == [12, 24]
  {
    hide Value;
    hide Digits;
    var g0, g1 := [0, 1, 1, 0, 0], [1, 1, 0, 0, 0];
    assert GroupedBits([0x66]) == g0 + (g1 + []) by {
      assert Spread([0x66], 8) == Digits(0x66, 2, 8) + Spread([], 8);
    }
    GatherCons(g0, g1 + [], 1);
    GatherCons(g1, [], 0);
  }

  lemma TwoBytes()
    requires Digits(0x66, 2, 8) == [0, 1, 1, 0, 0, 1, 1, 0] && Digits(0x6f, 2, 8) == [0, 1, 1, 0, 1, 1, 1, 1]
    requires Zeros(4) == [0, 0, 0, 0]
    ensures EncodeDigits([0x66, 0x6f]) == [12, 25, 23, 16]
  {
    hide EncodeDigits;
    hide GroupedBits;
    hide Gather;
    hide Digits;
    hide Value;
    var data: Bytes := [0x66, 0x6f];
    var g0, g1, g2, g3 := [0, 1, 1, 0, 0], [1, 1, 0, 0, 1], [1, 0, 1, 1, 1], [1, 0, 0, 0, 0];
    TwoBytesBits();
    EncodeIs(data, g0 + (g1 + (g2 + (g3 + []))), 4);
    FourGroups(g0, g1, g2, g3);
    assert Five(g0) == 12 && Five(g1) == 25 && Five(g2) == 23 && Five(g3) == 16;
  }

  lemma EncodeIs(data: Bytes, bits: seq<nat>, k: nat)
    requires GroupedBits(data) == bits && k == EncodedLen(|data|)
    ensures |bits| >= 5 * k && EncodeDigits(data) == Gather(bits, 5, k)
  {
  }

  lemma FourGroups(g0: seq<nat>, g1: seq<nat>, g2: seq<nat>, g3: seq<nat>)
    requires |g0| == 5 && |g1| == 5 && |g2| == 5 && |g3| == 5
    ensures Gather(g0 + (g1 + (g2 + (g3 + []))), 5, 4) == [Five(g0), Five(g1), Five(g2), Five(g3)]
  {
    hide Value;
    hide Five;
    var last := g3 + [];
    GatherNone([]);
    GatherCons(g3, [], 0);
    GatherCons(g2, last, 1);
    GatherCons(g1, g2 + last, 2);
    GatherCons(g0, g1 + (g2 + last), 3);
    hide Gather;
  }

  lemma GatherNone(bits: seq<nat>)
    ensures Gather(bits, 5, 0) == []
  {
  }

  lemma TwoBytesBits()
    requires Digits(0x66, 2, 8) == [0, 1, 1, 0, 0, 1, 1, 0] && Digits(0x6f, 2, 8) == [0, 1, 1, 0, 1, 1, 1, 1]
    requires Zeros(4) == [0, 0, 0, 0]
    ensures GroupedBits([0x66, 0x6f]) ==
            [0, 1, 1, 0, 0] + ([1, 1, 0, 0, 1] + ([1, 0, 1, 1, 1] + ([1, 0, 0, 0, 0] + [])))
  {
    hide Digits;
    assert [0x66, 0x6f][1..] == [0x6f] && [0x6f][1..] == [];
    assert Spread([0x6f], 8) == [0, 1, 1, 0, 1, 1, 1, 1] + Spread([], 8);
    assert Spread([0x66, 0x6f], 8) == [0, 1, 1, 0, 0, 1, 1, 0] + [0, 1, 1, 0, 1, 1, 1, 1];
  }
}
