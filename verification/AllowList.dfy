/** The server's allow-list check on a peer certificate
    (VerifyPeerCertificate in establishTunnel). A hash is any 32 bytes. */
module AllowList {
  import opened Numerals
  import opened Text
  import Base63
  import opened RelayHint
  import opened DeviceId

  /** `entry` is one of the two spellings the server compares against. */
  predicate Names(entry: string, hash: Bytes) {
    entry == Standard(hash) || entry == Base63.Base63(hash)
  }

  /** `hash` is None when the peer sent no certificate. */
  method VerifyPeer(allowed: seq<string>, allowAny: bool, hash: Option<Bytes>) returns (admitted: bool)
    ensures |allowed| == 0 || allowAny ==> admitted
    ensures |allowed| > 0 && !allowAny ==>
              (admitted <==> hash.Some? && exists entry :: entry in allowed && Names(entry, hash.value))
  {
    if |allowed| == 0 || allowAny {
      return true;
    }
    if hash.None? {
      return false;
    }
    var clientId := BytesToDeviceID(hash.value);
    var compactId := Base63.EncodeBase63(hash.value);
    for i := 0 to |allowed|
      invariant forall k :: 0 <= k < i ==> !Names(allowed[k], hash.value)
    {
      if allowed[i] == clientId || allowed[i] == compactId {
        assert Names(allowed[i], hash.value);
        return true;
      }
    }
    admitted := false;
  }

  /** An entry admits at most one certificate hash. */
  lemma EntryNamesOne(entry: string, h1: Bytes, h2: Bytes)
    requires |h1| == 32 && |h2| == 32 && Names(entry, h1) && Names(entry, h2)
    ensures h1 == h2
  {
    StandardReadsBack(h1);
    StandardReadsBack(h2);
    Base63.DecodeEncode(h1);
    Base63.DecodeEncode(h2);
  }

  /** An entry that admits a hash is one the parser reads as that hash. */
  lemma EntryNamesParsed(entry: string, hash: Bytes)
    requires |hash| == 32 && Names(entry, hash)
    ensures Parse(entry) == Success(hash)
  {
    SpellingsParse(hash, Compact);
    SpellingsParse(hash, Plain56(false));
  }

  /** An entry admits somebody exactly when it is a well-formed compact ID, or is
      letter for letter the standard spelling of what the parser reads. */
  lemma EntryNamesSomebody(entry: string)
    ensures (exists hash: Bytes :: |hash| == 32 && Names(entry, hash)) <==>
              || Base63.FromBase63(entry).Success?
              || (Parse(entry).Success? && |Parse(entry).value| == 32 && entry == Standard(Parse(entry).value))
  {
    hide Parse;
    if hash: Bytes :| |hash| == 32 && Names(entry, hash) {
      EntryNamesParsed(entry, hash);
      Base63.DecodeEncode(hash);
    }
    if Base63.FromBase63(entry).Success? {
      Base63.EncodeDecode(entry);
      assert Names(entry, Base63.FromBase63(entry).value);
    } else if Parse(entry).Success? && |Parse(entry).value| == 32 && entry == Standard(Parse(entry).value) {
      assert Names(entry, Parse(entry).value);
    }
  }

  /** Of all the spellings of an ID that the parser understands, only the bare
      compact one and the undashed standard one admit its owner; as an entry, a
      dashed one or one with a relay hint admits nobody. */
  lemma BareSpellingsOnly(raw: Bytes, sp: Spelling, hash: Bytes)
    requires |raw| == 32 && |hash| == 32
    ensures Names(Write(raw, sp), hash) <==> hash == raw && (sp == Compact || sp == Plain56(false))
  {
    IdentityFacts(raw, sp);
    StandardReadsBack(raw);
    StandardReadsBack(hash);
    Base63.DecodeEncode(raw);
    Base63.DecodeEncode(hash);
    HintLengthens(raw, sp);
  }

  lemma HintLengthens(raw: Bytes, sp: Spelling)
    requires |raw| == 32
    ensures sp.CompactHint? ==> 43 < |Write(raw, sp)| && |Write(raw, sp)| != 56
    ensures sp.Plain56Hint? ==> |Write(raw, sp)| > 56
  {
    IdentityFacts(raw, sp);
    if sp.CompactHint? {
      CompactHintWidth(Pack(sp.ip, sp.port));
    }
  }
}
