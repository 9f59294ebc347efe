/** Upper and lower case in target IDs: the parser ignores it in a standard ID
    (NormalizeID), the splitter does not in a hint, and in a compact ID every
    letter counts. */
module LetterCase {
  import opened Numerals
  import opened Text
  import Base63
  import Base32
  import opened RelayHint
  import opened DeviceId
  import opened Padding

  lemma UpperConcat(a: string, b: string)
    ensures ToUpper(a + b) == ToUpper(a) + ToUpper(b)
  {
  }

  lemma {:induction false} UpperKeepsDashes(t: string)
    ensures NoDashes(ToUpper(t)) == ToUpper(NoDashes(t))
  {
    if t != "" {
      var first, rest := t[..1], t[1..];
      UpperKeepsDashes(rest);
      assert t == first + rest;
      UpperConcat(first, rest);
      NoDashesConcat(first, rest);
      NoDashesConcat(ToUpper(first), ToUpper(rest));
      OneCharacter(t[0]);
      UpperConcat(NoDashes(first), NoDashes(rest));
    }
  }

  lemma OneCharacter(c: char)
    ensures NoDashes(ToUpper([c])) == ToUpper(NoDashes([c]))
  {
    assert ToUpper([c]) == [Upper(c)];
    assert NoDashes([c]) == if c == '-' then "" else [c];
    assert NoDashes([Upper(c)]) == if Upper(c) == '-' then "" else [Upper(c)];
  }

  lemma UpperKeepsSpaces(t: string)
    ensures Solid(ToUpper(t)) <==> Solid(t)
  {
    assert forall i :: 0 <= i < |t| ==> IsSpace(ToUpper(t)[i]) == IsSpace(t[i]);
  }

  lemma UpperTwice(t: string)
    ensures ToUpper(ToUpper(t)) == ToUpper(t)
  {
  }

  /** The standard parser sees upper case only. */
  lemma ParseStandardUpper(t: string)
    ensures ParseStandard(ToUpper(t)) == ParseStandard(t)
    ensures |NoDashes(ToUpper(t))| == |NoDashes(t)|
  {
    UpperKeepsDashes(t);
    UpperKeepsDashes(NoDashes(t));
    UpperTwice(NoDashes(t));
  }

  /** What is left of a text without white space when it shows no hint. */
  lemma ParseBare(t: string)
    requires Solid(t) && !Split(t).ok && |t| != 43
    ensures Parse(t) == ParseStandard(t)
  {
    TrimPadded("", t, "");
    assert "" + t + "" == t;
  }

  lemma PlainAnyCase(raw: Bytes, sp: Spelling, t: string)
    requires |raw| == 32 && sp.Plain56? && ToUpper(t) == Write(raw, sp)
    ensures !Split(t).ok && Parse(t) == Success(raw)
  {
    hide Split;
    hide ParseStandard;
    hide NoDashes;
    hide Write;
    IdentityFacts(raw, sp);
    IdentitySolid(raw, sp);
    WriteBare(raw, sp);
    UpperKeepsSpaces(t);
    ParseStandardUpper(t);
    NoHint(t);
    ParseBare(t);
  }

  /** Away from the check digits, which stand at every fourteenth place, both agree. */
  predicate SameData(a: string, b: string)
    requires |a| == |b| == 56
  {
    forall k :: 0 <= k < 56 && (k + 1) % 14 != 0 ==> a[k] == b[k]
  }

  lemma DataAgrees(a: string, b: string)
    requires |a| == |b| == 56 && SameData(a, b)
    ensures DataPart(a) == DataPart(b)
  {
    forall i: nat | i < 4
      ensures Data(a, i) == Data(b, i)
    {
      assert forall k :: 14 * i <= k < 14 * i + 13 ==> a[k] == b[k];
    }
  }

  lemma StandardRaw(raw: Bytes)
    requires |raw| == 32
    ensures |Standard(raw)| == 56 && NormalizeID(Standard(raw)) == Standard(raw)
    ensures ToRaw(Standard(raw)) == Success(raw)
  {
    hide Standard;
    hide ToRaw;
    StandardReadsBack(raw);
    ParseChecked(Standard(raw));
    Base32.OverIsPlain(Standard(raw), Base32.ALPHABET);
  }

  /** The converter behind the parser drops dashes wherever they stand, takes any mix of
      cases, and does not look at the check digits: data characters of `raw` suffice. */
  lemma RawFromData(raw: Bytes, t: string)
    requires |raw| == 32 && |NoDashes(t)| == |Standard(raw)| == 56
    requires SameData(ToUpper(NoDashes(t)), Standard(raw))
    ensures ToRaw(t) == Success(raw)
  {
    hide NoDashes;
    hide ToUpper;
    hide Standard;
    hide DataPart;
    hide SameData;
    hide Base32.Decode;
    StandardRaw(raw);
    DataAgrees(ToUpper(NoDashes(t)), Standard(raw));
  }

  lemma WriteBare(raw: Bytes, sp: Spelling)
    requires sp.Plain56?
    ensures Write(raw, sp) == Identity(raw, sp)
  {
  }

  /** In any mix of cases a standard ID reads as the same bytes. With a hint it
      does exactly if the hint itself is in upper case; otherwise no hint is found
      and the ID is rejected. */
  lemma HintAnyCase(raw: Bytes, sp: Spelling, id: string, suffix: string)
    requires |raw| == 32 && sp.Plain56Hint?
    requires ToUpper(id) == Identity(raw, sp) && ToUpper(suffix) == Suffix(sp)
    ensures if suffix == Suffix(sp)
            then Split(id + suffix) == Restored(id, sp.ip, sp.port) && Parse(id + suffix) == Success(raw)
            else !Split(id + suffix).ok && Parse(id + suffix).Failure?
  {
    hide Parse;
    hide Write;
    hide Identity;
    hide Suffix;
    hide NoDashes;
    hide SplitStandard;
    hide HasCompactHint;
    var t := id + suffix;
    HintShape(raw, sp, id, suffix);
    NotCompactLength(t);
    if suffix == Suffix(sp) {
      StandardSuffix(sp);
      SplitStandardAt(id, suffix, Pack(sp.ip, sp.port));
      DecodePackedPack(id, sp.ip, sp.port);
      HintedParses(raw, sp, id, suffix);
    } else {
      StandardSuffix(sp);
      LowerSuffix(suffix, Suffix(sp));
      NoSuffix(id, suffix);
      ParseBare(t);
      WrongStandardLength(t);
    }
  }

  lemma HintShape(raw: Bytes, sp: Spelling, id: string, suffix: string)
    requires |raw| == 32 && sp.Plain56Hint?
    requires ToUpper(id) == Identity(raw, sp) && ToUpper(suffix) == Suffix(sp)
    ensures Solid(id + suffix) && (|suffix| == 10 || |suffix| == 29) && (|id| == 56 || |id| == 63)
    ensures |NoDashes(id + suffix)| == STANDARD_LEN + |suffix|
  {
    hide Write;
    hide Identity;
    hide Suffix;
    hide NoDashes;
    hide ParseStandard;
    hide ParseClean;
    hide Solid;
    var t := id + suffix;
    WriteIsJoined(raw, sp);
    Shape(raw, sp);
    UpperConcat(id, suffix);
    UpperKeepsSpaces(t);
    ParseStandardUpper(t);
    IdentityFacts(raw, sp);
  }

  /** A suffix that is not all in upper case is not Base32. */
  lemma LowerSuffix(suffix: string, upper: string)
    requires ToUpper(suffix) == upper && suffix != upper && Solid(upper)
    ensures !Base32.Decode(suffix).Success?
  {
    UpperKeepsSpaces(suffix);
    SuffixDecodes(suffix, "");
    assert suffix + "" == suffix;
    if Over(suffix, Base32.ALPHABET) {
      Base32.OverIsPlain(suffix, Base32.ALPHABET);
    }
  }

  lemma NoSuffix(id: string, suffix: string)
    requires |NoDashes(id + suffix)| == STANDARD_LEN + |suffix| && !Base32.Decode(suffix).Success?
    ensures !SplitStandard(id + suffix).ok
  {
    hide NoDashes;
    hide Base32.Decode;
    assert (id + suffix)[|id|..] == suffix;
  }

  lemma WrongStandardLength(t: string)
    requires |NoDashes(t)| != 56
    ensures ParseStandard(t).Failure?
  {
    assert NoDashes(NoDashes(t)) == NoDashes(t);
  }

  lemma HintedParses(raw: Bytes, sp: Spelling, id: string, suffix: string)
    requires |raw| == 32 && sp.Plain56Hint? && Solid(id + suffix)
    requires Split(id + suffix).ok && Split(id + suffix).cleanId == id
    requires ToUpper(id) == Identity(raw, sp)
    ensures Parse(id + suffix) == Success(raw)
  {
    hide Split;
    hide Identity;
    hide ParseStandard;
    var t := id + suffix;
    TrimPadded("", t, "");
    assert "" + t + "" == t;
    IdentityFacts(raw, sp);
    ParseStandardUpper(id);
  }

  /** No letter of `s` has another case. */
  predicate Caseless(s: string) {
    ToLower(s) == s
  }

  lemma LowerThenUpper(s: string)
    requires ToUpper(s) == s
    ensures ToUpper(ToLower(s)) == s
  {
    assert forall i :: 0 <= i < |s| ==> Upper(s[i]) == s[i];
  }

  /** Lower-cased, every standard spelling reads as the same bytes, except exactly
      for one with a hint that has a letter; in that one no hint is found, and it
      is rejected. */
  lemma LowerCased(raw: Bytes, sp: Spelling)
    requires |raw| == 32 && (sp.Plain56? || sp.Plain56Hint?)
    ensures var t := ToLower(Write(raw, sp));
            && (Parse(t) == Success(raw) <==> sp.Plain56? || Caseless(Suffix(sp)))
            && (Parse(t) != Success(raw) ==> Parse(t).Failure? && !Split(t).ok)
  {
    hide Parse;
    hide Split;
    hide Write;
    hide Suffix;
    WrittenUpper(raw, sp);
    LowerThenUpper(Write(raw, sp));
    var t := ToLower(Write(raw, sp));
    if sp.Plain56? {
      PlainAnyCase(raw, sp, t);
    } else {
      hide Identity;
      var id, suffix := ToLower(Identity(raw, sp)), ToLower(Suffix(sp));
      WriteIsJoined(raw, sp);
      assert t == id + suffix;
      IdentityUpper(raw, sp);
      LowerThenUpper(Identity(raw, sp));
      StandardSuffix(sp);
      Base32.OverIsPlain(Suffix(sp), Base32.ALPHABET);
      LowerThenUpper(Suffix(sp));
      HintAnyCase(raw, sp, id, suffix);
    }
  }

  lemma WrittenUpper(raw: Bytes, sp: Spelling)
    requires |raw| == 32 && (sp.Plain56? || sp.Plain56Hint?)
    ensures ToUpper(Write(raw, sp)) == Write(raw, sp)
  {
    hide Suffix;
    IdentityUpper(raw, sp);
    if sp.Plain56Hint? {
      hide Write;
      WriteIsJoined(raw, sp);
      StandardSuffix(sp);
      Base32.OverIsPlain(Suffix(sp), Base32.ALPHABET);
      assert ToUpper(Identity(raw, sp) + Suffix(sp)) == ToUpper(Identity(raw, sp)) + ToUpper(Suffix(sp));
    }
  }

  lemma IdentityUpper(raw: Bytes, sp: Spelling)
    requires |raw| == 32 && (sp.Plain56? || sp.Plain56Hint?)
    ensures ToUpper(Identity(raw, sp)) == Identity(raw, sp)
  {
    StandardReadsBack(raw);
    Base32.OverIsPlain(Standard(raw), Base32.ALPHABET);
    DashedUpper(Standard(raw));
  }

  lemma {:induction false} DashedUpper(s: string)
    requires ToUpper(s) == s
    ensures ToUpper(Dashed(s)) == Dashed(s)
  {
    if |s| > 7 {
      assert ToUpper(s[7..]) == ToUpper(s)[7..] == s[7..];
      DashedUpper(s[7..]);
      assert ToUpper(s[..7]) == ToUpper(s)[..7] == s[..7];
      var a, b := s[..7] + "-", Dashed(s[7..]);
      assert ToUpper(a) == a && ToUpper(b) == b;
      assert ToUpper(a + b) == a + b;
    }
  }

  /** A compact ID has one spelling only: changing the case of a letter, or anything
      else, gives another ID or none. */
  lemma CompactExact(raw: Bytes, t: string)
    requires |raw| == 32 && |t| == 43 && Solid(t)
    ensures Parse(t) == Success(raw) <==> t == Base63.Base63(raw)
  {
    TrimPadded("", t, "");
    assert "" + t + "" == t;
    NoHint(t);
    Base63.DecodeEncode(raw);
    if Base63.FromBase63(t).Success? {
      Base63.EncodeDecode(t);
    } else {
      WrongStandardLength(t);
    }
  }
}
