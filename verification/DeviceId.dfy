/** Device IDs: the 56-character spelling with check digits, and the parser that
    tells all spellings apart (BytesToDeviceID, DeviceIDToBytes, NormalizeID,
    DeviceIDFromString). */
module DeviceId {
  import opened Numerals
  import opened Text
  import Radix
  import Base63
  import Base32
  import Luhn
  import opened RelayHint

  function NormalizeID(id: string): string {
    ToUpper(NoDashes(id))
  }

  /** The `i`-th 13 data characters of a 52-character encoding. */
  function Chunk(encoded: string, i: nat): string
    requires |encoded| == 52 && i < 4
  {
    encoded[13 * i..13 * i + 13]
  }

  function WithCheck(chunk: string): string {
    chunk + [Luhn.CheckDigit(chunk)]
  }

  /** The first `n` groups, each followed by its check digit. */
  function Groups(encoded: string, n: nat): (s: string)
    requires |encoded| == 52 && n <= 4
    ensures |s| == 14 * n
  {
    if n == 0 then "" else Groups(encoded, n - 1) + WithCheck(Chunk(encoded, n - 1))
  }

  function Standard(raw: Bytes): string {
    if |raw| != 32 then "" else Groups(Base32.Encode(raw), 4)
  }

  method BytesToDeviceID(raw: Bytes) returns (s: string)
    ensures s == Standard(raw)
  {
    if |raw| != 32 {
      return "";
    }
    s := AddChecks(Base32.Encode(raw));
  }

  method AddChecks(encoded: string) returns (s: string)
    requires |encoded| == 52
    ensures s == Groups(encoded, 4)
  {
    s := "";
    for i := 0 to 4
      invariant s == Groups(encoded, i)
    {
      var chunk := encoded[i * 13..i * 13 + 13];
      assert chunk == Chunk(encoded, i);
      s := s + chunk;
      var check := Luhn.ComputeCheckDigit(chunk);
      s := s + [check];
      assert s == Groups(encoded, i) + WithCheck(chunk);
    }
  }

  function Data(id: string, i: nat): string
    requires |id| == 56 && i < 4
  {
    id[14 * i..14 * i + 13]
  }

  /** The 52 data characters, the check digits skipped. */
  function DataPart(id: string): string
    requires |id| == 56
  {
    Data(id, 0) + Data(id, 1) + Data(id, 2) + Data(id, 3)
  }

  predicate GroupOk(id: string, i: nat)
    requires |id| == 56 && i < 4
  {
    Luhn.CheckDigit(Data(id, i)) == id[14 * i + 13]
  }

  predicate Checked(id: string)
    requires |id| == 56
  {
    forall i: nat :: i < 4 ==> GroupOk(id, i)
  }

  function ToRaw(id: string): Result<Bytes> {
    var n := NormalizeID(id);
    if |n| != 56 then Failure("invalid Device ID length")
    else
      match Base32.Decode(DataPart(n))
      case Failure(e) => Failure("base32 decode failed")
      case Success(raw) => if |raw| == 32 then Success(raw) else Failure("decoded length mismatch")
  }

  function ParseStandard(id: string): Result<Bytes> {
    var n := NormalizeID(NoDashes(id));
    if |n| != 56 then Failure("invalid device ID")
    else if Checked(n) then ToRaw(n)
    else Failure("invalid checksum in device ID")
  }

  /** The ID that is left once white space and a hint are gone. */
  function Stripped(s: string): string {
    var t := TrimSpace(s);
    if Split(t).ok then Split(t).cleanId else t
  }

  function ParseClean(id: string): Result<Bytes> {
    var compact := Base63.FromBase63(id);
    if |id| == Base63.COMPACT_LEN && compact.Success? && |compact.value| == 32 then compact else ParseStandard(id)
  }

  function Parse(s: string): Result<Bytes> {
    ParseClean(Stripped(s))
  }

  method DeviceIDFromString(s: string) returns (r: Result<Bytes>)
    ensures r == Parse(s)
  {
    var id := TrimSpace(s);
    var hinted := SplitRelayHint(id);
    if hinted.ok {
      id := hinted.cleanId;
    }
    if |id| == Base63.COMPACT_LEN {
      var decoded := Base63.DecodeBase63(id);
      if decoded.Success? && |decoded.value| == 32 {
        return decoded;
      }
    }
    var normalized := NormalizeID(NoDashes(id));
    if |normalized| == 56 {
      var ok := CheckGroups(normalized);
      if !ok {
        return Failure("invalid checksum in device ID");
      }
      return ToRaw(normalized);
    }
    r := Failure("invalid device ID");
  }

  method CheckGroups(normalized: string) returns (ok: bool)
    requires |normalized| == 56
    ensures ok <==> Checked(normalized)
  {
    for i := 0 to 4
      invariant forall j: nat :: j < i ==> GroupOk(normalized, j)
    {
      var check := Luhn.ComputeCheckDigit(normalized[14 * i..14 * i + 13]);
      if check != normalized[14 * i + 13] {
        assert !GroupOk(normalized, i);
        return false;
      }
    }
    ok := true;
  }

  // What the parser makes of a well-formed standard ID

  lemma GroupsParts(encoded: string)
    requires |encoded| == 52
    ensures forall i: nat :: i < 4 ==> Data(Groups(encoded, 4), i) == Chunk(encoded, i)
    ensures Checked(Groups(encoded, 4))
  {
    forall i: nat | i < 4
      ensures Groups(encoded, 4)[14 * i..14 * i + 14] == WithCheck(Chunk(encoded, i))
    {
      GroupAt(encoded, 4, i);
    }
    forall i: nat | i < 4
      ensures Data(Groups(encoded, 4), i) == Chunk(encoded, i) && GroupOk(Groups(encoded, 4), i)
    {
      var group := Groups(encoded, 4)[14 * i..14 * i + 14];
      assert group[..13] == Data(Groups(encoded, 4), i) && group[13] == Groups(encoded, 4)[14 * i + 13];
    }
  }

  lemma {:induction false} GroupAt(encoded: string, n: nat, i: nat)
    requires |encoded| == 52 && i < n <= 4
    ensures Groups(encoded, n)[14 * i..14 * i + 14] == WithCheck(Chunk(encoded, i))
  {
    if i < n - 1 {
      GroupAt(encoded, n - 1, i);
      assert Groups(encoded, n)[14 * i..14 * i + 14] == Groups(encoded, n - 1)[14 * i..14 * i + 14];
    }
  }

  lemma CheckDigitInAlphabet(s: string)
    ensures Has(Base32.ALPHABET, Luhn.CheckDigit(s))
  {
    Base32.AlphabetFacts();
  }

  lemma {:induction false} GroupsOver(encoded: string, n: nat)
    requires |encoded| == 52 && n <= 4 && Over(encoded, Base32.ALPHABET)
    ensures Over(Groups(encoded, n), Base32.ALPHABET)
  {
    if n > 0 {
      GroupsOver(encoded, n - 1);
      CheckDigitInAlphabet(Chunk(encoded, n - 1));
    }
  }

  /** Upper-case Base32 text of the right length is accepted exactly when its
      four check digits are right. */
  lemma ParseChecked(id: string)
    requires |id| == 56 && Over(id, Base32.ALPHABET)
    ensures ParseStandard(id) == if Checked(id) then ToRaw(id) else Failure("invalid checksum in device ID")
    ensures ToRaw(id).Success?
    ensures Parse(id) == ParseStandard(id)
  {
    Base32.OverIsPlain(id, Base32.ALPHABET);
    assert NormalizeID(NoDashes(id)) == NormalizeID(id) == id;
    DataDecodes(id);
    TrimFinalNewline(id);
    NoHint(id);
  }

  lemma ParseIffChecked(id: string)
    requires |id| == 56 && Over(id, Base32.ALPHABET)
    ensures Parse(id).Success? <==> Checked(id)
  {
    ParseChecked(id);
  }

  lemma DataDecodes(id: string)
    requires |id| == 56 && Over(id, Base32.ALPHABET)
    ensures Base32.Decode(DataPart(id)).Success? && |Base32.Decode(DataPart(id)).value| == 32
  {
    DataOver(id, Base32.ALPHABET);
    Base32.NoNewlines(DataPart(id));
  }

  lemma DataOver(id: string, alphabet: string)
    requires |id| == 56 && Over(id, alphabet)
    ensures |DataPart(id)| == 52 && Over(DataPart(id), alphabet)
  {
    assert forall i: nat :: i < 4 ==> Over(Data(id, i), alphabet);
  }

  /** The standard spelling of 32 bytes is well formed and reads back as them. */
  lemma StandardReadsBack(raw: Bytes)
    requires |raw| == 32
    ensures |Standard(raw)| == 56 && Over(Standard(raw), Base32.ALPHABET)
    ensures ParseStandard(Standard(raw)) == Success(raw)
  {
    var encoded := Base32.Encode(raw);
    var id := Standard(raw);
    Base32.DecodeEncode(raw);
    GroupsOver(encoded, 4);
    GroupsParts(encoded);
    ParseChecked(id);
    Base32.OverIsPlain(id, Base32.ALPHABET);
    DataOfGroups(encoded);
  }

  lemma DataOfGroups(encoded: string)
    requires |encoded| == 52
    ensures DataPart(Groups(encoded, 4)) == encoded
  {
    GroupsParts(encoded);
    var id := Groups(encoded, 4);
    assert Data(id, 0) == encoded[0..13] && Data(id, 1) == encoded[13..26];
    assert Data(id, 2) == encoded[26..39] && Data(id, 3) == encoded[39..52];
  }

  /** A dash after every seven characters but the last seven. */
  function Dashed(s: string): string {
    if |s| <= 7 then s else s[..7] + "-" + Dashed(s[7..])
  }

  lemma {:induction false} DashedLength(s: string)
    requires s != ""
    ensures |Dashed(s)| == |s| + (|s| - 1) / 7
    ensures Dashed(s)[0] == s[0] && Dashed(s)[|Dashed(s)| - 1] == s[|s| - 1]
  {
    if |s| > 7 {
      DashedLength(s[7..]);
    }
  }

  lemma {:induction false} DashedUndone(s: string)
    requires '-' !in s
    ensures NoDashes(Dashed(s)) == s
  {
    if |s| > 7 {
      DashedUndone(s[7..]);
      NoDashesConcat(s[..7] + "-", Dashed(s[7..]));
      NoDashesConcat(s[..7], "-");
      assert NoDashes(s[..7]) == s[..7] && NoDashes("-") == "";
      assert s == s[..7] + s[7..];
    }
  }

  /** The spellings the code writes or documents. */
  datatype Spelling =
    | Compact
    | CompactHint(ip: Bytes, port: int)
    | Plain56(dashed: bool)
    | Plain56Hint(dashed: bool, ip: Bytes, port: int)

  /** The part before the hint. */
  function Identity(raw: Bytes, sp: Spelling): string {
    match sp
    case Compact => Base63.Base63(raw)
    case CompactHint(_, _) => Base63.Base63(raw)
    case Plain56(dashed) => if dashed then Dashed(Standard(raw)) else Standard(raw)
    case Plain56Hint(dashed, _, _) => if dashed then Dashed(Standard(raw)) else Standard(raw)
  }

  function Write(raw: Bytes, sp: Spelling): string {
    match sp
    case CompactHint(ip, port) => Join(Identity(raw, sp), ip, port)
    case Plain56Hint(_, ip, port) => Join(Identity(raw, sp), ip, port)
    case _ => Identity(raw, sp)
  }

  /** All but the compact IPv4 hints that overflow eight digits. */
  predicate Writable(sp: Spelling) {
    sp.CompactHint? ==> FitsCompact(Pack(sp.ip, sp.port))
  }

  /** What splitting must report for a spelling. */
  function Expected(raw: Bytes, sp: Spelling): Hinted {
    match sp
    case CompactHint(ip, port) => Restored(Identity(raw, sp), ip, port)
    case Plain56Hint(_, ip, port) => Restored(Identity(raw, sp), ip, port)
    case _ => Hinted(Write(raw, sp), [], 0, false)
  }

  lemma CompactIdentity(raw: Bytes)
    requires |raw| == 32
    ensures var id := Base63.Base63(raw);
            |id| == 43 && Plain(id) && ParseClean(id) == Success(raw)
  {
    Base63.DecodeEncode(raw);
    Base63.OverIsPlain(Base63.Base63(raw), Base63.ALPHABET);
  }

  lemma StandardIdentity(raw: Bytes)
    requires |raw| == 32
    ensures |Standard(raw)| == 56 && Plain(Standard(raw))
    ensures NoDashes(Standard(raw)) == Standard(raw) == NoDashes(Dashed(Standard(raw)))
    ensures ParseStandard(Standard(raw)) == Success(raw) == ParseStandard(Dashed(Standard(raw)))
    ensures var d := Dashed(Standard(raw));
            |d| == 63 && !IsSpace(d[0]) && !IsSpace(d[|d| - 1])
  {
    var id := Standard(raw);
    StandardReadsBack(raw);
    Base32.OverIsPlain(id, Base32.ALPHABET);
    DashedLength(id);
    DashedUndone(id);
    assert NormalizeID(NoDashes(Dashed(id))) == NormalizeID(NoDashes(id));
  }

  lemma IdentityFacts(raw: Bytes, sp: Spelling)
    requires |raw| == 32
    ensures ParseClean(Identity(raw, sp)) == Success(raw)
    ensures |Identity(raw, sp)| == if sp.Compact? || sp.CompactHint? then 43 else if sp.dashed then 63 else 56
    ensures sp.Plain56? || sp.Plain56Hint? ==> |NoDashes(Identity(raw, sp))| == 56
    ensures !IsSpace(Identity(raw, sp)[0]) && !IsSpace(Identity(raw, sp)[|Identity(raw, sp)| - 1])
  {
    if sp.Compact? || sp.CompactHint? {
      CompactIdentity(raw);
    } else {
      StandardIdentity(raw);
    }
  }

  /** Splitting tells every spelling apart: it finds a hint exactly where one was
      written, and then returns its address and port. */
  lemma SpellingsSplit(raw: Bytes, sp: Spelling)
    requires |raw| == 32
    ensures Split(Write(raw, sp)) == Expected(raw, sp) <==> Writable(sp)
  {
    IdentityFacts(raw, sp);
    match sp
    case CompactHint(ip, port) => SplitJoinCompact(Identity(raw, sp), ip, port);
    case Plain56Hint(_, ip, port) => SplitJoinStandard(Identity(raw, sp), ip, port);
    case _ => NoHint(Write(raw, sp));
  }

  lemma WrittenEnds(raw: Bytes, sp: Spelling)
    requires |raw| == 32
    ensures TrimSpace(Write(raw, sp)) == Write(raw, sp)
  {
    IdentityFacts(raw, sp);
    match sp
    case CompactHint(ip, port) =>
      var buf := Pack(ip, port);
      CompactHintWidth(buf);
      Base63.OverIsPlain(Radix.Encoded(Value(buf, 256), CompactHintLen(buf), Base63.ALPHABET), Base63.ALPHABET);
    case Plain56Hint(_, ip, port) =>
      Base32.DecodeEncode(Pack(ip, port));
      Base32.OverIsPlain(Base32.Encode(Pack(ip, port)), Base32.ALPHABET);
    case _ =>
  }

  /** Every spelling reads back as the bytes it was written from. */
  lemma SpellingsParse(raw: Bytes, sp: Spelling)
    requires |raw| == 32
    ensures Parse(Write(raw, sp)) == Success(raw) <==> Writable(sp)
  {
    var s := Write(raw, sp);
    WrittenEnds(raw, sp);
    SpellingsSplit(raw, sp);
    IdentityFacts(raw, sp);
    if Writable(sp) {
      assert Stripped(s) == Identity(raw, sp);
    } else {
      OverflowRejected(raw, sp.ip, sp.port);
    }
  }

  /** A compact ID whose IPv4 hint overflows eight digits is rejected altogether. */
  lemma OverflowRejected(raw: Bytes, ip: Bytes, port: int)
    requires |raw| == 32 && !FitsCompact(Pack(ip, port))
    ensures Parse(Write(raw, CompactHint(ip, port))).Failure?
  {
    var sp := CompactHint(ip, port);
    WrittenEnds(raw, sp);
    IdentityFacts(raw, sp);
    SplitJoinCompact(Identity(raw, sp), ip, port);
    WrongLength(Write(raw, sp));
  }

  /** Such as the hint for any address from 226.0.0.0 on, with any port. */
  lemma HighAddressesRejected(raw: Bytes, ip: Bytes, port: int)
    requires |raw| == 32 && To4(ip).Some? && To4(ip).value[0] >= 226
    ensures var s := Write(raw, CompactHint(ip, port));
            |s| == 52 && !Split(s).ok && Parse(s).Failure?
  {
    hide Parse;
    hide Split;
    hide Join;
    hide FitsCompact;
    OverflowsByFirstOctet(ip, port);
    OverflowRejected(raw, ip, port);
    IdentityFacts(raw, Compact);
    SplitJoinCompact(Base63.Base63(raw), ip, port);
  }

  lemma OverflowExample(raw: Bytes)
    requires |raw| == 32
    ensures Parse(Write(raw, CompactHint([226, 0, 0, 0], 22067))).Failure?
  {
    hide Parse;
    hide Write;
    var ip: Bytes := [226, 0, 0, 0];
    HighAddressesRejected(raw, ip, 22067);
  }

  lemma WrongLength(s: string)
    requires |s| == 52 && TrimSpace(s) == s && !Split(s).ok
    ensures Parse(s).Failure?
  {
    assert Stripped(s) == s;
  }

  // Detection

  /** Replacing any one character of a valid ID by another Base32 letter is rejected. */
  lemma ReplacementRejected(id: string, k: nat, c: char)
    requires |id| == 56 && Over(id, Base32.ALPHABET) && Parse(id).Success?
    requires k < 56 && Has(Base32.ALPHABET, c) && c != id[k]
    ensures Parse(id[k := c]).Failure?
  {
    hide Parse;
    ParseIffChecked(id);
    ParseIffChecked(id[k := c]);
    assert k == 14 * (k / 14) + k % 14;
    ReplacementBreaksGroup(id, k / 14, k % 14, c);
  }

  lemma ReplacementBreaksGroup(id: string, i: nat, j: nat, c: char)
    requires |id| == 56 && Over(id, Base32.ALPHABET) && i < 4 && j < 14
    requires GroupOk(id, i) && Has(Base32.ALPHABET, c) && c != id[14 * i + j]
    ensures !GroupOk(id[14 * i + j := c], i)
  {
    var changed := id[14 * i + j := c];
    if j < 13 {
      assert Data(changed, i) == Data(id, i)[j := c];
      Base32.AlphabetFacts();
      Luhn.ReplacementDetected(Data(id, i), j, c, Base32.ALPHABET);
    } else {
      assert Data(changed, i) == Data(id, i);
    }
  }

  /** Swapping two different neighbours among the data characters of a group is
      rejected, except for 'A' and '7' alone. */
  lemma SwapRejected(id: string, i: nat, j: nat)
    requires |id| == 56 && Over(id, Base32.ALPHABET) && Parse(id).Success?
    requires i < 4 && j < 12 && id[14 * i + j] != id[14 * i + j + 1]
    ensures Parse(Luhn.Swapped(id, 14 * i + j)).Failure? <==> {id[14 * i + j], id[14 * i + j + 1]} != {'A', '7'}
  {
    hide Parse;
    var k := 14 * i + j;
    ParseIffChecked(id);
    ParseIffChecked(Luhn.Swapped(id, k));
    SwapChecked(id, i, j);
  }

  lemma SwapChecked(id: string, i: nat, j: nat)
    requires |id| == 56 && Over(id, Base32.ALPHABET) && Checked(id)
    requires i < 4 && j < 12 && id[14 * i + j] != id[14 * i + j + 1]
    ensures Checked(Luhn.Swapped(id, 14 * i + j)) <==> {id[14 * i + j], id[14 * i + j + 1]} == {'A', '7'}
  {
    SwapKeepsOthers(id, i, j);
    SwapInGroup(id, i, j);
    assert Checked(Luhn.Swapped(id, 14 * i + j)) <==> GroupOk(Luhn.Swapped(id, 14 * i + j), i);
  }

  predicate OthersOk(id: string, i: nat)
    requires |id| == 56
  {
    forall g: nat :: g < 4 && g != i ==> GroupOk(id, g)
  }

  lemma SwapKeepsOthers(id: string, i: nat, j: nat)
    requires |id| == 56 && i < 4 && j < 12 && Checked(id)
    ensures OthersOk(Luhn.Swapped(id, 14 * i + j), i)
  {
    var changed := Luhn.Swapped(id, 14 * i + j);
    forall g: nat | g < 4 && g != i
      ensures GroupOk(changed, g)
    {
      assert Data(changed, g) == Data(id, g) && GroupOk(id, g);
    }
  }

  lemma SwapInGroup(id: string, i: nat, j: nat)
    requires |id| == 56 && Over(id, Base32.ALPHABET) && i < 4 && j < 12 && GroupOk(id, i)
    requires id[14 * i + j] != id[14 * i + j + 1]
    ensures GroupOk(Luhn.Swapped(id, 14 * i + j), i) <==> {id[14 * i + j], id[14 * i + j + 1]} == {'A', '7'}
  {
    var data, changed := Data(id, i), Luhn.Swapped(id, 14 * i + j);
    assert data[j] == id[14 * i + j] && data[j + 1] == id[14 * i + j + 1];
    assert Data(changed, i) == Luhn.Swapped(data, j);
    Base32.AlphabetFacts();
    Luhn.SwapDetected(data, j, Base32.ALPHABET);
    EndsAreA7(data[j], data[j + 1], Base32.ALPHABET);
  }

  lemma EndsAreA7(c: char, d: char, alphabet: string)
    requires alphabet == Base32.ALPHABET && Has(alphabet, c) && Has(alphabet, d)
    ensures Luhn.Ends(IndexRune(alphabet, c), IndexRune(alphabet, d)) <==> {c, d} == {'A', '7'}
  {
    Base32.AlphabetFactsFor(alphabet);
    assert Luhn.Ends(IndexRune(alphabet, c), IndexRune(alphabet, d)) <==>
           (c == 'A' && d == '7') || (c == '7' && d == 'A');
    assert {c, d} == {'A', '7'} ==> c in {'A', '7'} && d in {'A', '7'} && 'A' in {c, d} && '7' in {c, d};
  }
}
