/** XDR opaque data (section 4.10 of RFC 4506) and session invitations
    (XDRBytes and DecodeInvitation in pkg/protocol/wire.go). */
module Xdr {
  import opened Numerals
  import opened Text
  import opened Wire

  const MISSING_FROM := "malformed invitation: missing 'from'"
  const MISSING_KEY := "malformed invitation: missing 'key'"
  const MISSING_ADDRESS := "malformed invitation: missing 'address'"

  datatype Invitation = Invitation(from: Bytes, key: Bytes, address: Bytes, port: nat, serverSocket: bool)

  function Pad(l: nat): (p: nat)
    ensures p < 4 && (l + p) % 4 == 0
  {
    (4 - l % 4) % 4
  }

  function Opaque(b: Bytes): (out: Bytes)
    ensures |out| == 4 + |b| + Pad(|b|) && |out| % 4 == 0
  {
    assert (4 + (|b| + Pad(|b|))) % 4 == 0;
    U32(|b|) + b + Zeros(Pad(|b|))
  }

  method XdrBytes(b: Bytes) returns (out: array<Byte>)
    ensures fresh(out) && out[..] == Opaque(b)
  {
    hide ToBytes;
    hide U32;
    var l := |b|;
    var pad := (4 - l % 4) % 4;
    out := new Byte[4 + l + pad](_ => 0);
    PutU32(out, 0, l);
    CopyInto(out, 4, b);
  }

  /** One opaque field at `offset`: its bytes, and the offset behind its padding.
      The padding itself may be missing at the end of the data. */
  function ReadOpaqueAt(data: Bytes, offset: nat): Option<(Bytes, nat)> {
    if offset + 4 > |data| then None
    else
      var l := Word(data[offset..offset + 4]);
      if offset + 4 + l > |data| then None
      else Some((data[offset + 4..offset + 4 + l], offset + 4 + l + Pad(l)))
  }

  /** The state readOpaque shares with its caller. */
  class OpaqueReader {
    const data: Bytes
    var offset: nat

    constructor (data: Bytes)
      ensures this.data == data && offset == 0
    {
      this.data, offset := data, 0;
    }

    method ReadOpaque() returns (val: Option<Bytes>)
      modifies this
      ensures match ReadOpaqueAt(data, old(offset))
              case Some((v, next)) => val == Some(v) && offset == next
              case None => val == None
    {
      if offset + 4 > |data| {
        return None;
      }
      var l := Word(data[offset..offset + 4]);
      offset := offset + 4;
      if offset + l > |data| {
        return None;
      }
      val := Some(data[offset..offset + l]);
      var pad := (4 - l % 4) % 4;
      offset := offset + l + pad;
    }
  }

  /** The two optional words at the end. */
  function DecodeTail(data: Bytes, offset: nat): (nat, bool) {
    if offset + 4 > |data| then (0, false)
    else (Word(data[offset..offset + 4]) % 0x1_0000,
          offset + 8 <= |data| && Word(data[offset + 4..offset + 8]) == 1)
  }

  function Decode(data: Bytes): Result<Invitation> {
    match ReadOpaqueAt(data, 0)
    case None => Failure(MISSING_FROM)
    case Some((from, o1)) =>
      match ReadOpaqueAt(data, o1)
      case None => Failure(MISSING_KEY)
      case Some((key, o2)) =>
        match ReadOpaqueAt(data, o2)
        case None => Failure(MISSING_ADDRESS)
        case Some((address, o3)) =>
          var (port, serverSocket) := DecodeTail(data, o3);
          Success(Invitation(from, key, address, port, serverSocket))
  }

  /** Total on every input: no slice reaches past the data. */
  method DecodeInvitation(data: Bytes) returns (r: Result<Invitation>)
    ensures r == Decode(data)
  {
    var reader := new OpaqueReader(data);
    var from := reader.ReadOpaque();
    if from == None {
      return Failure(MISSING_FROM);
    }
    var key := reader.ReadOpaque();
    if key == None {
      return Failure(MISSING_KEY);
    }
    var address := reader.ReadOpaque();
    if address == None {
      return Failure(MISSING_ADDRESS);
    }
    var offset, port, serverSocket := reader.offset, 0, false;
    if offset + 4 <= |data| {
      port := Word(data[offset..offset + 4]) % 0x1_0000;
      offset := offset + 4;
    }
    if offset + 4 <= |data| {
      serverSocket := Word(data[offset..offset + 4]) == 1;
    }
    r := Success(Invitation(from.value, key.value, address.value, port, serverSocket));
  }

  /** The relay's encoding: three opaque fields, the port in a whole word, a Boolean word. */
  function Encode(inv: Invitation): Bytes {
    Opaque(inv.from) + Opaque(inv.key) + Opaque(inv.address) + U32(inv.port) + U32(if inv.serverSocket then 1 else 0)
  }

  predicate Encodable(inv: Invitation) {
    |inv.from| < 0x1_0000_0000 && |inv.key| < 0x1_0000_0000 && |inv.address| < 0x1_0000_0000 && inv.port < 0x1_0000
  }

  lemma ReadOpaqueBack(before: Bytes, b: Bytes, after: Bytes)
    requires |b| < 0x1_0000_0000
    ensures ReadOpaqueAt(before + Opaque(b) + after, |before|) == Some((b, |before + Opaque(b)|))
  {
    hide Value;
    hide Digits;
    var data := before + Opaque(b) + after;
    WordOfU32(|b|);
    assert data[|before|..|before| + 4] == U32(|b|);
    assert data[|before| + 4..|before| + 4 + |b|] == b;
  }

  /** Decoding inverts the encoding, whatever bytes follow it. */
  lemma DecodeEncode(inv: Invitation, extra: Bytes)
    requires Encodable(inv)
    ensures Decode(Encode(inv) + extra) == Success(inv)
  {
    hide ReadOpaqueAt;
    hide DecodeTail;
    hide Opaque;
    hide U32;
    var f, k, a := Opaque(inv.from), Opaque(inv.key), Opaque(inv.address);
    var flag := if inv.serverSocket then 1 else 0;
    var tail := U32(inv.port) + U32(flag) + extra;
    var data := Encode(inv) + extra;
    assert ReadOpaqueAt(data, 0) == Some((inv.from, |f|)) by {
      assert data == [] + f + (k + a + tail) && [] + f == f;
      ReadOpaqueBack([], inv.from, k + a + tail);
    }
    assert ReadOpaqueAt(data, |f|) == Some((inv.key, |f + k|)) by {
      assert data == f + k + (a + tail);
      ReadOpaqueBack(f, inv.key, a + tail);
    }
    assert ReadOpaqueAt(data, |f + k|) == Some((inv.address, |f + k + a|)) by {
      assert data == (f + k) + a + tail;
      ReadOpaqueBack(f + k, inv.address, tail);
    }
    assert DecodeTail(data, |f + k + a|) == (inv.port, inv.serverSocket) by {
      assert data == (f + k + a) + tail;
      TailBack(f + k + a, inv.port, flag, extra);
    }
  }

  lemma TailBack(before: Bytes, port: nat, flag: nat, extra: Bytes)
    requires port < 0x1_0000 && flag <= 1
    ensures DecodeTail(before + (U32(port) + U32(flag) + extra), |before|) == (port, flag == 1)
  {
    hide Value;
    hide Digits;
    var data := before + (U32(port) + U32(flag) + extra);
    WordOfU32(port);
    WordOfU32(flag);
    assert data[|before|..|before| + 4] == U32(port);
    assert data[|before| + 4..|before| + 8] == U32(flag);
  }

  lemma OpaqueFits(data: Bytes, offset: nat)
    ensures var r := ReadOpaqueAt(data, offset);
            r.Some? ==> |r.value.0| < 0x1_0000_0000
  {
    if offset + 4 <= |data| {
      WordBound(data[offset..offset + 4]);
    }
  }

  lemma DecodedEncodable(data: Bytes)
    requires Decode(data).Success?
    ensures Encodable(Decode(data).value)
  {
    hide ReadOpaqueAt;
    OpaqueFits(data, 0);
    var o1 := ReadOpaqueAt(data, 0).value.1;
    OpaqueFits(data, o1);
    OpaqueFits(data, ReadOpaqueAt(data, o1).value.1);
  }

  /** Re-encoding what was decoded, however sloppy the input, decodes to the same. */
  lemma ReencodeDecoded(data: Bytes)
    requires Decode(data).Success?
    ensures Decode(Encode(Decode(data).value)) == Decode(data)
  {
    DecodedEncodable(data);
    var inv := Decode(data).value;
    DecodeEncode(inv, []);
    assert Encode(inv) + [] == Encode(inv);
  }

  /** A field of data that may end anywhere is read exactly if its bytes are all there,
      with or without the padding. */
  lemma CutField(data: Bytes, before: Bytes, b: Bytes, after: Bytes)
    requires |b| < 0x1_0000_0000 && data <= before + Opaque(b) + after
    ensures ReadOpaqueAt(data, |before|) ==
            if |data| < |before| + 4 + |b| then None else Some((b, |before| + |Opaque(b)|))
  {
    hide Value;
    hide ToBytes;
    hide U32;
    var full, o := before + Opaque(b) + after, |before|;
    assert data == full[..|data|];
    WordOfU32(|b|);
    assert full[o..o + 4] == U32(|b|) && full[o + 4..o + 4 + |b|] == b;
    if |data| >= o + 4 {
      assert data[o..o + 4] == full[o..o + 4];
      if |data| >= o + 4 + |b| {
        assert data[o + 4..o + 4 + |b|] == full[o + 4..o + 4 + |b|];
      }
    }
  }

  lemma CutTail(data: Bytes, before: Bytes, port: nat, flag: nat)
    requires port < 0x1_0000 && flag <= 1 && data <= before + U32(port) + U32(flag)
    ensures DecodeTail(data, |before|) ==
            (if |data| >= |before| + 4 then port else 0, |data| >= |before| + 8 && flag == 1)
  {
    hide Value;
    hide Digits;
    var full, o := before + U32(port) + U32(flag), |before|;
    assert data == full[..|data|];
    WordOfU32(port);
    WordOfU32(flag);
    assert full[o..o + 4] == U32(port) && full[o + 4..o + 8] == U32(flag);
    if |data| >= o + 4 {
      assert data[o..o + 4] == full[o..o + 4];
      if |data| >= o + 8 {
        assert data[o + 4..o + 8] == full[o + 4..o + 8];
      }
    }
  }

  /** An encoded invitation cut after any byte: it fails to decode exactly if the cut
      is before the last byte of the address; behind it only what was cut off is
      missing, a port reads as 0 and a flag as unset. */
  lemma CutDecodes(inv: Invitation, k: nat)
    requires Encodable(inv) && k <= |Encode(inv)|
    ensures var data, tail := Encode(inv)[..k], |Encode(inv)| - 8;
            Decode(data) ==
            if k < |Opaque(inv.from)| then Failure(if k < 4 + |inv.from| then MISSING_FROM else MISSING_KEY)
            else if k < |Opaque(inv.from)| + 4 + |inv.key| then Failure(MISSING_KEY)
            else if k < |Opaque(inv.from)| + |Opaque(inv.key)| + 4 + |inv.address| then Failure(MISSING_ADDRESS)
            else Success(inv.(port := if k >= tail + 4 then inv.port else 0,
                              serverSocket := k >= tail + 8 && inv.serverSocket))
  {
    hide ReadOpaqueAt;
    hide DecodeTail;
    hide Opaque;
    hide U32;
    var f, ke, a := Opaque(inv.from), Opaque(inv.key), Opaque(inv.address);
    var flag: nat := if inv.serverSocket then 1 else 0;
    var p, fl := U32(inv.port), U32(flag);
    var data := Encode(inv)[..k];
    assert data <= [] + f + (ke + a + p + fl) by {
      assert [] + f + (ke + a + p + fl) == Encode(inv);
    }
    CutField(data, [], inv.from, ke + a + p + fl);
    assert data <= f + ke + (a + p + fl) by {
      assert f + ke + (a + p + fl) == Encode(inv);
    }
    CutField(data, f, inv.key, a + p + fl);
    assert data <= (f + ke) + a + (p + fl) by {
      assert (f + ke) + a + (p + fl) == Encode(inv);
    }
    CutField(data, f + ke, inv.address, p + fl);
    assert data <= (f + ke + a) + p + fl;
    CutTail(data, f + ke + a, inv.port, flag);
    OpaqueLengths(inv);
  }

  lemma OpaqueLengths(inv: Invitation)
    ensures |Opaque(inv.from)| >= 4 + |inv.from| && |Opaque(inv.key)| >= 4 + |inv.key|
    ensures |Opaque(inv.address)| >= 4 + |inv.address|
    ensures |Encode(inv)| == |Opaque(inv.from)| + |Opaque(inv.key)| + |Opaque(inv.address)| + 8
  {
  }

  /** The number of two bytes, high byte first. */
  function Port(high: nat, low: nat): nat {
    high * 256 + low
  }

  /** Whatever the two words at the end hold, the port is the low half of the first, and
      the flag is set exactly for the number 1. */
  lemma TailWords(before: Bytes, port: Bytes, flag: Bytes, extra: Bytes)
    requires |port| == 4 && |flag| == 4
    ensures DecodeTail(before + port + flag + extra, |before|) == (Port(port[2], port[3]), flag == [0, 0, 0, 1])
  {
    hide Value;
    hide ToBytes;
    var data := before + port + flag + extra;
    assert data[|before|..|before| + 4] == port && data[|before| + 4..|before| + 8] == flag;
    LowHalf(port);
    SmallWord(1);
    WordOfU32(1);
    WordBound(flag);
    hide U32;
    assert flag == U32(Word(flag));
  }

  lemma LowHalf(b: Bytes)
    requires |b| == 4
    ensures Word(b) % 0x1_0000 == Port(b[2], b[3])
  {
    hide ToBytes;
    var w := Word(b);
    WordBound(b);
    FourBytes(w);
    hide Word;
    assert w % 0x1_0000_0000 == w;
    assert b[2] == w / 0x100 % 256 && b[3] == w % 256;
    TwoLowBytes(w);
  }

  lemma TwoLowBytes(w: nat)
    ensures w % 0x1_0000 == w / 0x100 % 256 * 256 + w % 256
  {
  }

  /** So for any invitation, with any two words behind it. */
  lemma ForeignTail(inv: Invitation, port: Bytes, flag: Bytes, extra: Bytes)
    requires Encodable(inv) && |port| == 4 && |flag| == 4
    ensures Decode(Opaque(inv.from) + Opaque(inv.key) + Opaque(inv.address) + port + flag + extra) ==
            Success(inv.(port := Port(port[2], port[3]), serverSocket := flag == [0, 0, 0, 1]))
  {
    hide ReadOpaqueAt;
    hide DecodeTail;
    hide Opaque;
    hide U32;
    var f, k, a := Opaque(inv.from), Opaque(inv.key), Opaque(inv.address);
    var tail := port + flag + extra;
    var data := f + k + a + port + flag + extra;
    assert ReadOpaqueAt(data, 0) == Some((inv.from, |f|)) by {
      assert data == [] + f + (k + a + tail) && [] + f == f;
      ReadOpaqueBack([], inv.from, k + a + tail);
    }
    assert ReadOpaqueAt(data, |f|) == Some((inv.key, |f + k|)) by {
      assert data == f + k + (a + tail);
      ReadOpaqueBack(f, inv.key, a + tail);
    }
    assert ReadOpaqueAt(data, |f + k|) == Some((inv.address, |f + k + a|)) by {
      assert data == (f + k) + a + tail;
      ReadOpaqueBack(f + k, inv.address, tail);
    }
    TailWords(f + k + a, port, flag, extra);
  }

  /** The layout, byte by byte. */
  lemma OpaqueLayout()
    ensures Opaque([1, 2, 3, 4, 5]) == [0, 0, 0, 5, 1, 2, 3, 4, 5, 0, 0, 0]
    ensures Opaque([1]) == [0, 0, 0, 1, 1, 0, 0, 0] && Opaque([2]) == [0, 0, 0, 1, 2, 0, 0, 0]
    ensures Opaque([3, 4, 5, 6]) == [0, 0, 0, 4, 3, 4, 5, 6]
  {
    hide ToBytes;
    SmallWord(5);
    SmallWord(1);
    SmallWord(4);
    assert Zeros(3) == [0, 0, 0] && Zeros(0) == [];
  }

  lemma InvitationLayout()
    ensures Encode(Invitation([1], [2], [3, 4, 5, 6], 22067, true)) ==
            [0, 0, 0, 1, 1, 0, 0, 0] + [0, 0, 0, 1, 2, 0, 0, 0] + [0, 0, 0, 4, 3, 4, 5, 6] +
            [0, 0, 86, 51] + [0, 0, 0, 1]
  {
    hide Opaque;
    hide U32;
    OpaqueLayout();
    SmallWord(22067);
    SmallWord(1);
  }
}
