/** Relay hints: an IP address and port appended to a device ID
    (JoinRelayHint, SplitRelayHint, decodePackedIPPort). */
module RelayHint {
  import opened Numerals
  import opened Text
  import opened Radix
  import Base63
  import Base32

  const STANDARD_LEN := 56

  /** net.IP.To4: the four bytes of an IPv4 or v4-mapped address. */
  function To4(ip: Bytes): Option<Bytes> {
    if |ip| == 4 then Some(ip)
    else if |ip| == 16 && ip[..10] == Zeros(10) && ip[10] == 0xff && ip[11] == 0xff then Some(ip[12..])
    else None
  }

  /** The address bytes that get packed: 4, or else 16 (copied, cut or zero-filled). */
  function Canonical(ip: Bytes): (c: Bytes)
    ensures |c| == 4 || |c| == 16
    ensures To4(ip).None? && |ip| == 16 ==> c == ip
  {
    match To4(ip)
    case Some(v4) => v4
    case None => if |ip| <= 16 then ip + Zeros(16 - |ip|) else ip[..16]
  }

  /** The address, then the port as a big-endian uint16. */
  function Pack(ip: Bytes, port: int): (buf: Bytes)
    ensures |buf| == 6 || |buf| == 18
  {
    Canonical(ip) + ToBytes(port % 0x1_0000, 2)
  }

  function CompactHintLen(buf: Bytes): nat {
    if |buf| > 6 then 25 else 8
  }

  function Join(id: string, ip: Bytes, port: int): string {
    Base63.AlphabetFacts();
    var buf := Pack(ip, port);
    if |id| == Base63.COMPACT_LEN then id + Encoded(Value(buf, 256), CompactHintLen(buf), Base63.ALPHABET)
    else if |NoDashes(id)| == STANDARD_LEN then id + Base32.Encode(buf)
    else id
  }

  method JoinRelayHint(id: string, ip: Bytes, port: int) returns (r: string)
    ensures r == Join(id, ip, port)
  {
    Base63.AlphabetFacts();
    var buf := Pack(ip, port);
    if |id| == Base63.COMPACT_LEN {
      var targetLen := 8;
      if |buf| > 6 {
        targetLen := 25;
      }
      var out := WriteNumber(Value(buf, 256), targetLen, Base63.ALPHABET);
      return id + out;
    }
    var cleanId := NoDashes(id);
    if |cleanId| == STANDARD_LEN {
      return id + Base32.Encode(buf);
    }
    r := id;
  }

  datatype Hinted = Hinted(cleanId: string, ip: Bytes, port: nat, ok: bool)

  function DecodePacked(cleanId: string, buf: Bytes): Hinted {
    if |buf| == 6 then Hinted(cleanId, buf[..4], Value(buf[4..], 256), true)
    else if |buf| == 18 then Hinted(cleanId, buf[..16], Value(buf[16..], 256), true)
    else Hinted(cleanId, [], 0, false)
  }

  /** Bytes of a compact hint with this many digits. */
  function PackedLen(digits: nat): nat {
    if digits == 8 then 6 else 18
  }

  /** The guard of the compact branch: 8 or 25 alphabet characters after the
      43rd, whose value fits the packed size. */
  predicate HasCompactHint(s: string) {
    Base63.AlphabetFacts();
    |s| > 43 && (|s| - 43 == 8 || |s| - 43 == 25) && Over(s[43..], Base63.ALPHABET) &&
    Length(Number(s[43..], Base63.ALPHABET), 256) <= PackedLen(|s| - 43)
  }

  function SplitStandard(s: string): Hinted {
    var n := |NoDashes(s)|;
    if n == STANDARD_LEN + 10 || n == STANDARD_LEN + 29 then
      var cut := |s| - (n - STANDARD_LEN);
      match Base32.Decode(s[cut..])
      case Success(buf) =>
        if |buf| == 6 || |buf| == 18 then DecodePacked(s[..cut], buf) else Hinted(s, [], 0, false)
      case Failure(_) => Hinted(s, [], 0, false)
    else Hinted(s, [], 0, false)
  }

  function Split(s: string): Hinted {
    Base63.AlphabetFacts();
    if HasCompactHint(s)
    then DecodePacked(s[..43], ToBytes(Number(s[43..], Base63.ALPHABET), PackedLen(|s| - 43)))
    else SplitStandard(s)
  }

  method SplitRelayHint(s: string) returns (r: Hinted)
    ensures r == Split(s)
  {
    Base63.AlphabetFacts();
    if |s| > Base63.COMPACT_LEN {
      var suffix := s[Base63.COMPACT_LEN..];
      if |suffix| == 8 || |suffix| == 25 {
        var ok, num := ReadNumber(suffix, Base63.ALPHABET);
        if ok {
          var buf := HintBytes(suffix, num, Base63.ALPHABET);
          if |buf| == 6 || |buf| == 18 {
            return DecodePacked(s[..Base63.COMPACT_LEN], buf);
          }
        }
      }
    }
    r := SplitStandard(s);
  }

  method HintBytes(suffix: string, num: nat, alphabet: string) returns (buf: Bytes)
    requires IsAlphabet(alphabet) && Over(suffix, alphabet) && num == Number(suffix, alphabet)
    requires |suffix| == 8 || |suffix| == 25
    ensures |buf| == 6 || |buf| == 18 <==> Length(num, 256) <= PackedLen(|suffix|)
    ensures |buf| == 6 || |buf| == 18 ==> buf == ToBytes(num, PackedLen(|suffix|))
  {
    if |suffix| == 8 {
      EightDigitsFit(suffix, alphabet);
      buf := NumberToBytes(num, 6);
      LengthBound(num, 256, 6);
    } else {
      buf := NumberToBytes(num, 18);
      LengthBound(num, 256, 18);
    }
  }

  /** Eight digits never need more than six bytes. */
  lemma EightDigitsFit(s: string, alphabet: string)
    requires IsAlphabet(alphabet) && Over(s, alphabet) && |s| == 8
    ensures Length(Number(s, alphabet), 256) <= 6
  {
    var digits: nat, size: nat := 8, 6;
    NumberInverse(s, alphabet);
    NarrowWidths();
    LengthBound(Number(s, alphabet), 256, size);
  }

  /** 63^8: packed IPv4 hints from here on need a ninth digit. */
  const V4_LIMIT: nat := 248155780267521

  predicate FitsCompact(buf: Bytes) {
    |buf| == 18 || Value(buf, 256) < V4_LIMIT
  }

  /** What a hint comes back as: the packed address, and the port modulo 2^16. */
  function Restored(id: string, ip: Bytes, port: int): Hinted {
    Hinted(id, Canonical(ip), port % 0x1_0000, true)
  }

  lemma DecodePackedPack(id: string, ip: Bytes, port: int)
    ensures DecodePacked(id, Pack(ip, port)) == Restored(id, ip, port)
  {
    var p, size: nat := port % 0x1_0000, 2;
    assert Pow(256, size) == 0x1_0000;
    ValueOfDigits(p, 256, size);
    var buf := Pack(ip, port);
    assert buf[|buf| - 2..] == ToBytes(p, size) && buf[..|buf| - 2] == Canonical(ip);
  }

  /** A compact hint has its fixed width exactly when the packed value fits it. */
  lemma CompactHintWidth(buf: Bytes)
    requires |buf| == 6 || |buf| == 18
    ensures IsAlphabet(Base63.ALPHABET)
    ensures var hint := Encoded(Value(buf, 256), CompactHintLen(buf), Base63.ALPHABET);
            && Over(hint, Base63.ALPHABET) && Number(hint, Base63.ALPHABET) == Value(buf, 256)
            && (if FitsCompact(buf) then |hint| == CompactHintLen(buf) else |hint| == 9)
  {
    Base63.AlphabetFacts();
    var n, width, nine: nat := Value(buf, 256), CompactHintLen(buf), 9;
    EncodedMeaning(n, width, Base63.ALPHABET);
    if |buf| == 18 {
      WideEnough(buf, width);
    } else {
      PowersOf63();
      PowersOf256();
      ValueBound(buf, 256);
      assert Pow(63, nine) == Pow(63, width) * 63;
      LengthBound(n, 63, width);
      LengthBound(n, 63, nine);
    }
  }

  /** Splitting undoes joining on a compact ID exactly when the packed hint fits;
      otherwise the joined string is taken for an ID without a hint. */
  lemma SplitJoinCompact(id: string, ip: Bytes, port: int)
    requires |id| == 43
    ensures Split(Join(id, ip, port)) == Restored(id, ip, port) <==> FitsCompact(Pack(ip, port))
    ensures !FitsCompact(Pack(ip, port)) ==>
              |Join(id, ip, port)| == 52 && Split(Join(id, ip, port)) == Hinted(Join(id, ip, port), [], 0, false)
  {
    var buf := Pack(ip, port);
    var hint := Encoded(Value(buf, 256), CompactHintLen(buf), Base63.ALPHABET);
    CompactHintWidth(buf);
    assert Join(id, ip, port) == id + hint;
    if FitsCompact(buf) {
      SplitCompact(id, hint, buf);
      DecodePackedPack(id, ip, port);
    } else {
      NoHint(id + hint);
    }
  }

  lemma SplitCompact(id: string, hint: string, buf: Bytes)
    requires |id| == 43 && IsAlphabet(Base63.ALPHABET) && Over(hint, Base63.ALPHABET)
    requires (|hint| == 8 && |buf| == 6) || (|hint| == 25 && |buf| == 18)
    requires Number(hint, Base63.ALPHABET) == Value(buf, 256)
    ensures Split(id + hint) == DecodePacked(id, buf)
  {
    var s := id + hint;
    assert s[..43] == id && s[43..] == hint;
    ValueBound(buf, 256);
    LengthBound(Value(buf, 256), 256, |buf|);
    DigitsOfValue(buf, 256);
  }

  lemma NoHint(s: string)
    requires |s| != 51 && |s| != 68 && |NoDashes(s)| != 66 && |NoDashes(s)| != 85
    ensures Split(s) == Hinted(s, [], 0, false)
  {
  }

  /** The packed value of an IPv4 address is between two multiples of 256^5. */
  lemma PackedBetween(ip: Bytes, port: int)
    requires To4(ip).Some?
    ensures var first := To4(ip).value[0];
            first * 0x100_0000_0000 <= Value(Pack(ip, port), 256) < (first + 1) * 0x100_0000_0000
  {
    var buf := Pack(ip, port);
    var rest := buf[1..];
    assert buf == [buf[0]] + rest;
    ValuePrepend(buf[0], rest, 256);
    ValueBound(rest, 256);
    assert Pow(256, |rest|) == 0x100_0000_0000 by {
      PowersOf256();
    }
  }

  /** Every IPv6 address fits, and every IPv4 address whose first octet is at most 224. */
  lemma FitsByFirstOctet(ip: Bytes, port: int)
    requires To4(ip).None? || To4(ip).value[0] <= 224
    ensures FitsCompact(Pack(ip, port))
  {
    if To4(ip).Some? {
      PackedBetween(ip, port);
    }
  }

  /** No IPv4 address fits whose first octet is 226 or more; with 225 it depends on the rest. */
  lemma OverflowsByFirstOctet(ip: Bytes, port: int)
    requires To4(ip).Some? && To4(ip).value[0] >= 226
    ensures !FitsCompact(Pack(ip, port))
  {
    PackedBetween(ip, port);
  }

  /** On a standard ID, whatever its dashes, splitting undoes joining exactly when
      the joined string does not pass for a compact ID with a hint. */
  lemma SplitJoinStandard(id: string, ip: Bytes, port: int)
    requires |NoDashes(id)| == STANDARD_LEN
    ensures Split(Join(id, ip, port)) == Restored(id, ip, port) <==> !HasCompactHint(Join(id, ip, port))
    ensures HasCompactHint(Join(id, ip, port)) ==> |id| == 58 && To4(ip).Some?
  {
    hide NoDashes;
    hide SplitStandard;
    hide HasCompactHint;
    var buf, s := Pack(ip, port), Join(id, ip, port);
    StandardJoined(id, ip, port);
    if HasCompactHint(s) {
      CompactLengths(s);
      assert |Split(s).cleanId| == 43;
    } else {
      SplitStandardJoined(id, buf);
      DecodePackedPack(id, ip, port);
    }
  }

  lemma StandardJoined(id: string, ip: Bytes, port: int)
    requires |NoDashes(id)| == STANDARD_LEN
    ensures Join(id, ip, port) == id + Base32.Encode(Pack(ip, port))
    ensures |id| >= 56 && |Join(id, ip, port)| == |id| + if To4(ip).Some? then 10 else 29
  {
    hide Base32.EncodeDigits;
  }

  lemma CompactLengths(s: string)
    ensures HasCompactHint(s) ==> |s| == 51 || |s| == 68
    ensures HasCompactHint(s) ==> |Split(s).cleanId| == 43
  {
  }

  lemma SplitStandardJoined(id: string, buf: Bytes)
    requires |NoDashes(id)| == STANDARD_LEN && (|buf| == 6 || |buf| == 18)
    ensures SplitStandard(id + Base32.Encode(buf)) == DecodePacked(id, buf)
  {
    var suffix := Base32.Encode(buf);
    var s := id + suffix;
    Base32.DecodeEncode(buf);
    Base32.OverIsPlain(suffix, Base32.ALPHABET);
    NoDashesConcat(id, suffix);
    assert |suffix| == if |buf| == 6 then 10 else 29;
    assert s[..|id|] == id && s[|id|..] == suffix;
  }

  /** A family where it does: two dashes among the first 43 characters and then
      an 'A'. Every IPv4 hint joined to such an ID is misread. */
  lemma TwoDashesMisread(id: string, ip: Bytes, port: int)
    requires |id| == 58 && |NoDashes(id)| == STANDARD_LEN
    requires Over(id[43..], Base32.ALPHABET) && id[43] == 'A'
    requires To4(ip).Some?
    ensures HasCompactHint(Join(id, ip, port))
    ensures Split(Join(id, ip, port)).cleanId == id[..43]
  {
    hide NoDashes;
    hide HasCompactHint;
    hide Split;
    hide Join;
    var suffix := Base32.Encode(Pack(ip, port));
    StandardJoined(id, ip, port);
    Base32.DecodeEncode(Pack(ip, port));
    assert id + suffix == id[..43] + (id[43..] + suffix);
    MisreadWith(id[..43], id[43..] + suffix);
  }

  lemma MisreadWith(id: string, hint: string)
    requires |id| == 43 && |hint| == 25 && hint[0] == 'A' && Over(hint, Base32.ALPHABET)
    ensures HasCompactHint(id + hint) && Split(id + hint).cleanId == id
  {
    Base63.AlphabetFacts();
    Base32LettersInBase63(hint, Base32.ALPHABET, Base63.ALPHABET);
    SmallHint(hint, Base63.ALPHABET);
    TakenForCompact(id, hint);
  }

  lemma TakenForCompact(id: string, hint: string)
    requires |id| == 43 && |hint| == 25
    requires IsAlphabet(Base63.ALPHABET) && Over(hint, Base63.ALPHABET)
    requires Length(Number(hint, Base63.ALPHABET), 256) <= 18
    ensures HasCompactHint(id + hint) && Split(id + hint).cleanId == id
  {
    assert (id + hint)[43..] == hint && (id + hint)[..43] == id;
  }

  lemma SmallHint(hint: string, alphabet: string)
    requires IsAlphabet(alphabet) && Distinct(alphabet) && Over(hint, alphabet)
    requires |hint| == 25 && hint[0] == 'A'
    ensures Length(Number(hint, alphabet), 256) <= 18
  {
    var ds, size: nat := Unspell(hint, alphabet), 18;
    assert IndexRune(alphabet, alphabet[0]) == 0;
    assert ds == [0] + ds[1..];
    ValuePrepend(0, ds[1..], 63);
    ValueBound(ds[1..], 63);
    NarrowWidths();
    LengthBound(Value(ds, 63), 256, size);
  }

  lemma Base32LettersInBase63(s: string, alphabet32: string, alphabet63: string)
    requires alphabet32 == Base32.ALPHABET && alphabet63 == Base63.ALPHABET
    requires Over(s, alphabet32)
    ensures Over(s, alphabet63)
  {
    Base32.AlphabetFactsFor(alphabet32);
    forall i | 0 <= i < |s|
      ensures Has(alphabet63, s[i])
    {
      assert 0 <= Base32.Rank(s[i]);
      Base63.AlphabetRank(alphabet63, Base63.Rank(s[i]));
      LetterIn(alphabet63, Base63.Rank(s[i]));
    }
  }

  lemma TwoDashesExample(ip: Bytes, port: int)
    requires To4(ip).Some?
    ensures var id := "--" + Letters('A', 56);
            |NoDashes(id)| == STANDARD_LEN && Split(Join(id, ip, port)).cleanId == id[..43]
  {
    var letters := Letters('A', 56);
    var id := "--" + letters;
    assert NoDashes(id) == letters by {
      TwoLeadingDashes(letters);
    }
    Base32.AlphabetRank(Base32.ALPHABET, 0);
    LetterIn(Base32.ALPHABET, 0);
    TwoDashesMisread(id, ip, port);
  }
}
