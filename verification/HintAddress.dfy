/** Which address a relay hint carries (JoinRelayHint and SplitRelayHint), stated on
    the addresses themselves: net.ParseIP hands IPv4 addresses over in the 16-byte
    form, and both forms stand for the same four bytes. */
module HintAddress {
  import opened Numerals
  import opened Text
  import Base63
  import Radix
  import opened RelayHint

  /** The 16-byte form of an IPv4 address. */
  function Mapped(v4: Bytes): Bytes
    requires |v4| == 4
  {
    [0, 0, 0, 0, 0, 0, 0, 0, 0, 0, 255, 255] + v4
  }

  lemma MappedForm(v4: Bytes)
    requires |v4| == 4
    ensures To4(Mapped(v4)) == Some(v4) == To4(v4)
  {
    assert Mapped(v4)[..10] == Zeros(10) && Mapped(v4)[12..] == v4;
  }

  lemma NotMappedForm(ip: Bytes)
    requires |ip| == 16 && ip[..12] != [0, 0, 0, 0, 0, 0, 0, 0, 0, 0, 255, 255]
    ensures To4(ip) == None
  {
    assert ip[..12] == ip[..10] + [ip[10], ip[11]];
  }

  /** Both forms of an IPv4 address are joined to the same text, on any ID. */
  lemma FormsJoinAlike(id: string, v4: Bytes, port: int)
    requires |v4| == 4
    ensures Join(id, Mapped(v4), port) == Join(id, v4, port)
  {
    MappedForm(v4);
  }

  /** The number in a compact IPv4 hint: the address and then the port. */
  function V4Number(v4: Bytes, port: int): nat
    requires |v4| == 4
  {
    v4[0] * 0x100_0000_0000 + v4[1] * 0x1_0000_0000 + v4[2] * 0x100_0000 + v4[3] * 0x1_0000 + port % 0x1_0000
  }

  lemma PackedNumber(v4: Bytes, port: int)
    requires |v4| == 4
    ensures |Pack(v4, port)| == 6 && Value(Pack(v4, port), 256) == V4Number(v4, port)
  {
    var p, size: nat := port % 0x1_0000, 2;
    var low := ToBytes(p, size);
    assert Pow(256, size) == 0x1_0000;
    ValueOfDigits(p, 256, size);
    var a, b, c, d := v4[0], v4[1], v4[2], v4[3];
    assert Pack(v4, port) == [a] + ([b] + ([c] + ([d] + low)));
    ValuePrepend(d, low, 256);
    ValuePrepend(c, [d] + low, 256);
    ValuePrepend(b, [c] + ([d] + low), 256);
    ValuePrepend(a, [b] + ([c] + ([d] + low)), 256);
    SmallPowers();
  }

  lemma SmallPowers()
    ensures Pow(256, 2) == 0x1_0000 && Pow(256, 3) == 0x100_0000
    ensures Pow(256, 4) == 0x1_0000_0000 && Pow(256, 5) == 0x100_0000_0000
  {
  }

  /** On a compact ID the hint gives back exactly the IPv4 address that was joined, in
      either form, if and only if its number is below 63^8; the hint is then the
      numeral of that number. */
  lemma V4OnCompact(id: string, v4: Bytes, port: int)
    requires |id| == 43 && |v4| == 4
    ensures Split(Join(id, v4, port)) == Hinted(id, v4, port % 0x1_0000, true) <==> V4Number(v4, port) < 248155780267521
    ensures Split(Join(id, Mapped(v4), port)) == Hinted(id, v4, port % 0x1_0000, true) <==>
              V4Number(v4, port) < 248155780267521
    ensures (Base63.AlphabetFacts(); Join(id, v4, port) == id + Radix.Encoded(V4Number(v4, port), 8, Base63.ALPHABET))
  {
    hide Split;
    PackedNumber(v4, port);
    FormsJoinAlike(id, v4, port);
    SplitJoinCompact(id, v4, port);
    MappedForm(v4);
  }

  /** Any other 16 bytes come back byte for byte, on every compact ID. */
  lemma V6OnCompact(id: string, ip: Bytes, port: int)
    requires |id| == 43 && |ip| == 16 && ip[..12] != [0, 0, 0, 0, 0, 0, 0, 0, 0, 0, 255, 255]
    ensures Split(Join(id, ip, port)) == Hinted(id, ip, port % 0x1_0000, true)
  {
    hide Split;
    hide Join;
    NotMappedForm(ip);
    SplitJoinCompact(id, ip, port);
  }

  /** The same on every standard ID, however dashed, that does not pass for a compact
      one with a hint. */
  lemma V4OnStandard(id: string, v4: Bytes, port: int)
    requires |NoDashes(id)| == 56 && |v4| == 4
    ensures Split(Join(id, v4, port)) == Hinted(id, v4, port % 0x1_0000, true) <==> !HasCompactHint(Join(id, v4, port))
    ensures Split(Join(id, Mapped(v4), port)) == Hinted(id, v4, port % 0x1_0000, true) <==>
              !HasCompactHint(Join(id, v4, port))
  {
    hide Split;
    hide Join;
    hide NoDashes;
    hide HasCompactHint;
    FormsJoinAlike(id, v4, port);
    SplitJoinStandard(id, v4, port);
    MappedForm(v4);
  }

  lemma V6OnStandard(id: string, ip: Bytes, port: int)
    requires |NoDashes(id)| == 56 && |ip| == 16 && ip[..12] != [0, 0, 0, 0, 0, 0, 0, 0, 0, 0, 255, 255]
    ensures Split(Join(id, ip, port)) == Hinted(id, ip, port % 0x1_0000, true)
  {
    hide Split;
    hide Join;
    hide NoDashes;
    hide HasCompactHint;
    NotMappedForm(ip);
    SplitJoinStandard(id, ip, port);
  }

  /** Anything else, such as no address at all, is cut or filled up with zeros to 16
      bytes. */
  lemma OtherLengths(id: string, ip: Bytes, port: int)
    requires |id| == 43 && |ip| != 4 && |ip| != 16
    ensures var h := Split(Join(id, ip, port));
            && h.ok && h.cleanId == id && h.port == port % 0x1_0000 && |h.ip| == 16
            && forall i :: 0 <= i < 16 ==> h.ip[i] == if i < |ip| then ip[i] else 0
  {
    hide Split;
    hide Join;
    SplitJoinCompact(id, ip, port);
    assert forall i :: 0 <= i < 16 ==> Canonical(ip)[i] == if i < |ip| then ip[i] else 0;
  }

  /** On every compact ID the hint of the documentation names 1.137.158.67, port 53868. */
  lemma DocumentedHint(id: string)
    requires |id| == 43
    ensures Split(id + "AbCdEfGh") == Hinted(id, [1, 137, 158, 67], 53868, true)
  {
    hide Split;
    hide Join;
    hide Radix.Encoded;
    hide Base63.Spelled;
    var hint, v4: Bytes := "AbCdEfGh", [1, 137, 158, 67];
    EightLetters();
    Base63.NumberByRank(hint, Base63.ALPHABET);
    V4OnCompact(id, v4, 53868);
    Radix.NumberInverse(hint, Base63.ALPHABET);
  }

  lemma EightLetters()
    ensures Base63.Spelled("AbCdEfGh") == 1690577392236
  {
    hide Base63.Spelled;
    Base63.SpelledSnoc("", 'A');
    Base63.SpelledSnoc("A", 'b');
    Base63.SpelledSnoc("Ab", 'C');
    Base63.SpelledSnoc("AbC", 'd');
    Base63.SpelledSnoc("AbCd", 'E');
    Base63.SpelledSnoc("AbCdE", 'f');
    Base63.SpelledSnoc("AbCdEf", 'G');
    Base63.SpelledSnoc("AbCdEfG", 'h');
    assert "" + ['A'] == "A" && "A" + ['b'] == "Ab" && "Ab" + ['C'] == "AbC" && "AbC" + ['d'] == "AbCd";
    assert "AbCd" + ['E'] == "AbCdE" && "AbCdE" + ['f'] == "AbCdEf";
    assert "AbCdEf" + ['G'] == "AbCdEfG" && "AbCdEfG" + ['h'] == "AbCdEfGh";
  }
}
