/** White space around a target ID. NewClient in client.go splits the ID as it
    stands, while DeviceIDFromString trims it first. */
module Padding {
  import opened Numerals
  import opened Text
  import Base63
  import Base32
  import Radix
  import opened RelayHint
  import opened DeviceId

  predicate White(s: string) {
    forall i :: 0 <= i < |s| ==> IsSpace(s[i])
  }

  /** Without white space. */
  predicate Solid(s: string) {
    forall i :: 0 <= i < |s| ==> !IsSpace(s[i])
  }

  predicate Newlines(s: string) {
    forall i :: 0 <= i < |s| ==> s[i] == '\n' || s[i] == '\r'
  }

  predicate HasHint(sp: Spelling) {
    sp.CompactHint? || sp.Plain56Hint?
  }

  lemma {:induction false} TrimPadded(pre: string, s: string, post: string)
    requires White(pre) && Solid(s) && White(post)
    ensures TrimSpace(pre + s + post) == s
    decreases |pre| + |post|
  {
    var t := pre + s + post;
    if pre != "" {
      assert t[1..] == pre[1..] + s + post;
      TrimPadded(pre[1..], s, post);
    } else if post != "" {
      assert t == s + post && t[|t| - 1] == post[|post| - 1];
      if s == "" {
        assert t[1..] == pre + s + post[1..];
        TrimPadded(pre, s, post[1..]);
      } else {
        assert t[0] == s[0];
        assert t[..|t| - 1] == pre + s + post[..|post| - 1];
        TrimPadded(pre, s, post[..|post| - 1]);
      }
    } else {
      assert t == s;
    }
  }

  lemma WhiteHasNoDash(s: string)
    requires White(s)
    ensures NoDashes(s) == s
  {
  }

  lemma PaddedNoDashes(pre: string, s: string, post: string)
    requires White(pre) && White(post)
    ensures |NoDashes(pre + s + post)| == |pre| + |NoDashes(s)| + |post|
  {
    NoDashesConcat(pre + s, post);
    NoDashesConcat(pre, s);
    WhiteHasNoDash(pre);
    WhiteHasNoDash(post);
  }

  /** Lengths at which the parser looks for anything. */
  lemma OddLengthRejected(pre: string, u: string)
    requires White(pre) && Solid(u)
    requires |u| != 43 && |u| != 51 && |u| != 68
    requires |NoDashes(u)| != 56 && |NoDashes(u)| != 66 && |NoDashes(u)| != 85
    ensures Parse(pre + u).Failure?
  {
    TrimPadded(pre, u, "");
    assert pre + u + "" == pre + u;
    NoHint(u);
    assert Stripped(pre + u) == u;
    assert NoDashes(NoDashes(u)) == NoDashes(u);
  }

  lemma ShortRejected(pre: string, u: string)
    requires White(pre) && Solid(u) && |u| < 43
    ensures Parse(pre + u).Failure?
  {
    OddLengthRejected(pre, u);
  }

  // The compact branch

  /** Taken for a compact ID with a hint, padded text is rejected. */
  lemma CompactBranchRejects(pre: string, s: string, post: string)
    requires White(pre) && Solid(s) && White(post) && |s| >= 43 && (pre != "" || post != "")
    requires HasCompactHint(pre + s + post)
    ensures Parse(Split(pre + s + post).cleanId).Failure?
  {
    var t := pre + s + post;
    if post != "" {
      assert t[|t| - 1] == post[|post| - 1];
      NoHintBeforeSpace(t);
    } else {
      var u := s[..43 - |pre|];
      assert t == pre + s && t[..43] == pre + u;
      ShortRejected(pre, u);
    }
  }

  lemma NoHintBeforeSpace(t: string)
    requires t != "" && IsSpace(t[|t| - 1])
    ensures !HasCompactHint(t)
  {
    if |t| > 43 {
      var suffix := t[43..];
      assert suffix[|suffix| - 1] == t[|t| - 1];
      SpaceNotOver63(suffix);
    }
  }

  lemma SpaceNotOver63(s: string)
    requires s != "" && IsSpace(s[|s| - 1])
    ensures !Over(s, Base63.ALPHABET)
  {
    if Over(s, Base63.ALPHABET) {
      Base63.OverIsPlain(s, Base63.ALPHABET);
    }
  }

  lemma SpaceNotOver32(s: string, i: nat)
    requires i < |s| && IsSpace(s[i])
    ensures !Over(s, Base32.ALPHABET)
  {
    if Over(s, Base32.ALPHABET) {
      Base32.OverIsPlain(s, Base32.ALPHABET);
    }
  }

  // The standard branch

  lemma {:induction false} StripBoth(tail: string, post: string)
    requires Solid(tail)
    ensures Base32.StripNewlines(tail + post) == tail + Base32.StripNewlines(post)
  {
    if tail == "" {
      assert tail + post == post;
    } else {
      StripBoth(tail[1..], post);
      assert (tail + post)[1..] == tail[1..] + post;
    }
  }

  lemma {:induction false} StripWhite(post: string)
    requires White(post)
    ensures White(Base32.StripNewlines(post))
    ensures Base32.StripNewlines(post) == "" <==> Newlines(post)
  {
    if post != "" {
      StripWhite(post[1..]);
    }
  }

  /** The library drops newlines, so that a suffix may end in some. */
  lemma SuffixDecodes(tail: string, post: string)
    requires Solid(tail) && White(post)
    ensures Base32.Decode(tail + post).Success? <==> Over(tail, Base32.ALPHABET) && Newlines(post)
    ensures Base32.Decode(tail + post).Success? ==>
              Base32.Decode(tail + post) == Base32.Decode(tail) &&
              |Base32.Decode(tail).value| == Base32.DecodedLen(|tail|)
  {
    StripBoth(tail, post);
    StripWhite(post);
    StripBoth(tail, "");
    assert tail + "" == tail;
    var rest := Base32.StripNewlines(post);
    if rest == "" {
      assert tail + rest == tail;
    } else {
      SpaceNotOver32(tail + rest, |tail|);
    }
  }

  lemma TenOrAll(c: nat)
    requires c <= 29 && (Base32.DecodedLen(c) == 6 || Base32.DecodedLen(c) == 18)
    ensures c == 10 || c == 29
  {
  }

  /** In the standard branch a suffix is found in padded text only if it is all of
      the text's own end, or its last ten characters before 19 newlines. */
  lemma StandardBranch(pre: string, s: string, post: string)
    requires White(pre) && Solid(s) && White(post) && |s| >= 29
    requires SplitStandard(pre + s + post).ok
    ensures |NoDashes(s)| + |pre| + |post| == 66 || |NoDashes(s)| + |pre| + |post| == 85
    ensures var n := |NoDashes(s)| + |pre| + |post| - 56;
            var c := n - |post|;
            && (c == 10 || c == 29) && Newlines(post)
            && Over(s[|s| - c..], Base32.ALPHABET)
            && SplitStandard(pre + s + post).cleanId == pre + s[..|s| - c]
  {
    hide SplitStandard;
    hide NoDashes;
    hide Base32.Decode;
    var t := pre + s + post;
    PaddedNoDashes(pre, s, post);
    SplitStandardOk(t);
    var n := |NoDashes(t)| - 56;
    var suffix := t[|t| - n..];
    NotAllWhite(t, n, pre + s, post);
    var tail := s[|s| - (n - |post|)..];
    assert suffix == tail + post;
    SuffixDecodes(tail, post);
    TenOrAll(|tail|);
    assert t[..|t| - n] == pre + s[..|s| - |tail|];
  }

  lemma SplitStandardOk(t: string)
    requires SplitStandard(t).ok
    ensures |NoDashes(t)| == 66 || |NoDashes(t)| == 85
    ensures var cut := |t| - (|NoDashes(t)| - 56);
            && Base32.Decode(t[cut..]).Success?
            && |Base32.Decode(t[cut..]).value| in {6, 18}
            && SplitStandard(t).cleanId == t[..cut]
  {
    hide NoDashes;
    hide Base32.Decode;
    hide Value;
  }

  lemma NotAllWhite(t: string, n: nat, front: string, post: string)
    requires t == front + post && White(post) && n <= |t|
    requires Base32.Decode(t[|t| - n..]).Success? && |Base32.Decode(t[|t| - n..]).value| in {6, 18}
    ensures |post| < n
  {
    if |post| >= n {
      var end := post[|post| - n..];
      assert t[|t| - n..] == "" + end;
      SuffixDecodes("", end);
    }
  }

  // Padded spellings

  lemma {:induction false} DashedSolid(s: string)
    requires Solid(s)
    ensures Solid(Dashed(s))
  {
    if |s| > 7 {
      DashedSolid(s[7..]);
    }
  }

  lemma IdentitySolid(raw: Bytes, sp: Spelling)
    requires |raw| == 32
    ensures Solid(Identity(raw, sp))
  {
    if sp.Compact? || sp.CompactHint? {
      CompactIdentity(raw);
    } else {
      StandardIdentity(raw);
      DashedSolid(Standard(raw));
    }
  }

  /** The part behind the ID. */
  function Suffix(sp: Spelling): string
    requires HasHint(sp)
  {
    var buf := Pack(sp.ip, sp.port);
    Base63.AlphabetFacts();
    if sp.CompactHint? then Radix.Encoded(Value(buf, 256), CompactHintLen(buf), Base63.ALPHABET) else Base32.Encode(buf)
  }

  lemma WriteIsJoined(raw: Bytes, sp: Spelling)
    requires |raw| == 32 && HasHint(sp)
    ensures Write(raw, sp) == Identity(raw, sp) + Suffix(sp)
  {
    IdentityFacts(raw, sp);
  }

  lemma CompactSuffix(sp: Spelling)
    requires sp.CompactHint? && Writable(sp)
    ensures |Suffix(sp)| == if To4(sp.ip).Some? then 8 else 25
    ensures Solid(Suffix(sp)) && NoDashes(Suffix(sp)) == Suffix(sp)
  {
    CompactHintWidth(Pack(sp.ip, sp.port));
    Base63.OverIsPlain(Suffix(sp), Base63.ALPHABET);
  }

  lemma StandardSuffix(sp: Spelling)
    requires sp.Plain56Hint?
    ensures |Suffix(sp)| == if To4(sp.ip).Some? then 10 else 29
    ensures Solid(Suffix(sp)) && NoDashes(Suffix(sp)) == Suffix(sp) && Over(Suffix(sp), Base32.ALPHABET)
    ensures Base32.Decode(Suffix(sp)) == Success(Pack(sp.ip, sp.port))
  {
    hide Base32.Decode;
    Base32.DecodeEncode(Pack(sp.ip, sp.port));
    Base32.OverIsPlain(Suffix(sp), Base32.ALPHABET);
  }

  function IdLength(sp: Spelling): nat
    requires HasHint(sp)
  {
    if sp.CompactHint? then 43 else if sp.dashed then 63 else 56
  }

  function HintLength(sp: Spelling): nat
    requires HasHint(sp)
  {
    if sp.CompactHint? then if To4(sp.ip).Some? then 8 else 25
    else if To4(sp.ip).Some? then 10 else 29
  }

  lemma Shape(raw: Bytes, sp: Spelling)
    requires |raw| == 32 && HasHint(sp) && Writable(sp)
    ensures Solid(Write(raw, sp))
    ensures |Write(raw, sp)| == IdLength(sp) + HintLength(sp)
    ensures Write(raw, sp)[..IdLength(sp)] == Identity(raw, sp) && Write(raw, sp)[IdLength(sp)..] == Suffix(sp)
    ensures |NoDashes(Write(raw, sp))| == (if sp.CompactHint? then 43 else 56) + HintLength(sp)
  {
    hide NoDashes;
    hide Write;
    hide Suffix;
    hide Identity;
    WriteIsJoined(raw, sp);
    IdentityFacts(raw, sp);
    IdentitySolid(raw, sp);
    if sp.CompactHint? {
      CompactSuffix(sp);
      CompactNoDashes(raw, sp);
    } else {
      StandardSuffix(sp);
    }
    NoDashesConcat(Identity(raw, sp), Suffix(sp));
  }

  lemma CompactNoDashes(raw: Bytes, sp: Spelling)
    requires |raw| == 32 && sp.CompactHint?
    ensures NoDashes(Identity(raw, sp)) == Identity(raw, sp)
  {
    CompactIdentity(raw);
  }

  /** The client finds the relay that was written and the ID. */
  predicate Uses(t: string, raw: Bytes, ip: Bytes, port: int) {
    var h := Split(t);
    h.ok && h.ip == Canonical(ip) && h.port == port % 0x1_0000 && Parse(h.cleanId) == Success(raw)
  }

  /** Exactly 19 newlines after an IPv4 hint on a standard ID make up the length
      of an IPv6 hint, and the library drops them. */
  predicate LateNewlines(sp: Spelling, post: string) {
    sp.Plain56Hint? && To4(sp.ip).Some? && |post| == 19 && Newlines(post)
  }

  lemma LateNewlinesUsed(raw: Bytes, sp: Spelling, post: string)
    requires |raw| == 32 && LateNewlines(sp, post)
    ensures Uses(Write(raw, sp) + post, raw, sp.ip, sp.port)
  {
    hide Parse;
    hide Write;
    hide Identity;
    hide Suffix;
    hide NoDashes;
    hide HasCompactHint;
    hide SplitStandard;
    hide Base32.Decode;
    hide Pack;
    var s, id, suffix := Write(raw, sp), Identity(raw, sp), Suffix(sp);
    var t := s + post;
    Shape(raw, sp);
    StandardSuffix(sp);
    PaddedNoDashes("", s, post);
    assert "" + s + post == t;
    assert s == id + suffix;
    NotCompactLength(t);
    SuffixDecodes(suffix, post);
    assert t == id + (suffix + post);
    SplitStandardAt(id, suffix + post, Pack(sp.ip, sp.port));
    DecodePackedPack(id, sp.ip, sp.port);
    BareParses(raw, sp);
  }

  lemma NotCompactLength(t: string)
    requires |t| != 51 && |t| != 68
    ensures !HasCompactHint(t)
  {
  }

  lemma SplitStandardAt(id: string, suffix: string, buf: Bytes)
    requires |NoDashes(id + suffix)| == STANDARD_LEN + |suffix| && (|suffix| == 10 || |suffix| == 29)
    requires Base32.Decode(suffix) == Success(buf) && (|buf| == 6 || |buf| == 18)
    ensures SplitStandard(id + suffix) == DecodePacked(id, buf)
  {
    hide NoDashes;
    hide Base32.Decode;
    assert (id + suffix)[|id|..] == suffix && (id + suffix)[..|id|] == id;
  }

  lemma BareParses(raw: Bytes, sp: Spelling)
    requires |raw| == 32 && HasHint(sp)
    ensures Parse(Identity(raw, sp)) == Success(raw)
  {
    hide Parse;
    SpellingsParse(raw, if sp.CompactHint? then Compact else Plain56(sp.dashed));
  }

  /** A hint is used exactly when the ID is given without white space around it,
      or with those 19 newlines. */
  lemma PaddedHint(raw: Bytes, sp: Spelling, pre: string, post: string)
    requires |raw| == 32 && HasHint(sp) && Writable(sp) && White(pre) && White(post)
    ensures var t := pre + Write(raw, sp) + post;
            && (Uses(t, raw, sp.ip, sp.port) <==> pre == "" && (post == "" || LateNewlines(sp, post)))
            && (!Split(t).ok ==> Split(t).cleanId == t && Parse(t) == Success(raw))
            && (Split(t).ok && !Uses(t, raw, sp.ip, sp.port) ==> Parse(Split(t).cleanId).Failure?)
  {
    hide Parse;
    hide SplitStandard;
    hide HasCompactHint;
    hide Write;
    hide NoDashes;
    hide LateNewlines;
    hide Uses;
    hide Split;
    hide White;
    var s := Write(raw, sp);
    var t := pre + s + post;
    Shape(raw, sp);
    SplitCases(t);
    UsesFacts(t, raw, sp.ip, sp.port);
    NothingBefore(pre, s, post);
    if pre == "" && post == "" {
      BareHintUsed(raw, sp);
    } else if HasCompactHint(t) {
      CompactBranchRejects(pre, s, post);
    } else if SplitStandard(t).ok {
      StandardBranchUses(raw, sp, pre, post);
    } else {
      PaddedParse(raw, sp, pre, post);
    }
    if pre == "" && LateNewlines(sp, post) {
      LateNewlinesUsed(raw, sp, post);
    }
  }

  lemma NothingBefore(pre: string, s: string, post: string)
    ensures pre == "" ==> pre + s + post == s + post
    ensures pre == "" && post == "" ==> pre + s + post == s
  {
  }

  lemma SplitCases(t: string)
    ensures !HasCompactHint(t) ==> Split(t) == SplitStandard(t)
    ensures Split(t).ok <==> HasCompactHint(t) || SplitStandard(t).ok
  {
    hide SplitStandard;
    CompactOk(t);
  }

  lemma CompactOk(t: string)
    ensures HasCompactHint(t) ==> Split(t).ok
    ensures SplitStandard(t).ok ==> Split(t).ok
  {
  }

  lemma UsesFacts(t: string, raw: Bytes, ip: Bytes, port: int)
    ensures Uses(t, raw, ip, port) ==> Split(t).ok && Parse(Split(t).cleanId).Success?
    ensures !Split(t).ok ==> Split(t).cleanId == t
  {
    hide Parse;
    hide HasCompactHint;
  }

  lemma BareHintUsed(raw: Bytes, sp: Spelling)
    requires |raw| == 32 && HasHint(sp) && Writable(sp)
    ensures Uses(Write(raw, sp), raw, sp.ip, sp.port)
  {
    hide Parse;
    hide Split;
    hide Write;
    SpellingsSplit(raw, sp);
    BareParses(raw, sp);
  }

  lemma PaddedParse(raw: Bytes, sp: Spelling, pre: string, post: string)
    requires |raw| == 32 && HasHint(sp) && Writable(sp) && White(pre) && White(post)
    ensures Parse(pre + Write(raw, sp) + post) == Success(raw)
  {
    hide Write;
    hide Split;
    Shape(raw, sp);
    TrimPadded(pre, Write(raw, sp), post);
    WrittenEnds(raw, sp);
    SpellingsParse(raw, sp);
  }

  lemma StandardBranchUses(raw: Bytes, sp: Spelling, pre: string, post: string)
    requires |raw| == 32 && HasHint(sp) && Writable(sp) && White(pre) && White(post)
    requires pre != "" || post != ""
    requires var t := pre + Write(raw, sp) + post; SplitStandard(t).ok && !HasCompactHint(t)
    ensures (pre == "" && LateNewlines(sp, post)) || Parse(Split(pre + Write(raw, sp) + post).cleanId).Failure?
  {
    hide Parse;
    hide SplitStandard;
    hide HasCompactHint;
    hide Write;
    hide NoDashes;
    hide Suffix;
    hide Identity;
    var s := Write(raw, sp);
    Shape(raw, sp);
    StandardBranch(pre, s, post);
    var n := |NoDashes(s)| + |pre| + |post| - 56;
    var c := n - |post|;
    var u, tail := s[..|s| - c], s[|s| - c..];
    if |u| < 43 {
      ShortRejected(pre, u);
    } else if c == 29 {
      assert s == u + tail;
      NoDashesConcat(u, tail);
      Base32.OverIsPlain(tail, Base32.ALPHABET);
      OddLengthRejected(pre, u);
    }
  }

  /** In particular a single newline after an ID with a hint makes the client drop
      the relay, without an error. */
  lemma FinalNewlineDropsHint(raw: Bytes, sp: Spelling)
    requires |raw| == 32 && HasHint(sp) && Writable(sp)
    ensures var t := Write(raw, sp) + "\n";
            !Split(t).ok && Split(t).cleanId == t && Parse(t) == Success(raw)
  {
    hide Parse;
    hide SplitStandard;
    hide HasCompactHint;
    hide Write;
    hide NoDashes;
    var s := Write(raw, sp);
    var t := s + "\n";
    Shape(raw, sp);
    assert "" + s + "\n" == t;
    PaddedHint(raw, sp, "", "\n");
    NoHintBeforeSpace(t);
    if SplitStandard(t).ok {
      StandardBranch("", s, "\n");
    }
  }
}
