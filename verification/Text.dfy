/** Strings as the identity code handles them: one `char` per byte. */
module Text {
  import opened Numerals

  const UPPER := "ABCDEFGHIJKLMNOPQRSTUVWXYZ"
  const LOWER := "abcdefghijklmnopqrstuvwxyz"

  datatype Option<+T> = None | Some(value: T)

  datatype Result<+T> = Success(value: T) | Failure(error: string)

  /** strings.IndexRune: the first position of `c`, or -1. */
  function IndexRune(alphabet: string, c: char): (k: int)
    ensures -1 <= k < |alphabet|
    ensures k >= 0 ==> alphabet[k] == c
    ensures k < 0 ==> forall j :: 0 <= j < |alphabet| ==> alphabet[j] != c
  {
    IndexFrom(alphabet, c, 0)
  }

  function IndexFrom(alphabet: string, c: char, from: nat): (k: int)
    requires from <= |alphabet|
    ensures k == -1 || from <= k < |alphabet|
    ensures k >= 0 ==> alphabet[k] == c && forall j :: from <= j < k ==> alphabet[j] != c
    ensures k < 0 ==> forall j :: from <= j < |alphabet| ==> alphabet[j] != c
    decreases |alphabet| - from
  {
    if from == |alphabet| then -1
    else if alphabet[from] == c then from
    else IndexFrom(alphabet, c, from + 1)
  }

  predicate Has(alphabet: string, c: char) {
    IndexRune(alphabet, c) >= 0
  }

  lemma LetterIn(alphabet: string, k: nat)
    requires k < |alphabet|
    ensures Has(alphabet, alphabet[k])
  {
  }

  predicate Distinct(alphabet: string) {
    forall i :: 0 <= i < |alphabet| ==> IndexRune(alphabet, alphabet[i]) == i
  }

  predicate Over(s: string, alphabet: string) {
    forall i :: 0 <= i < |s| ==> Has(alphabet, s[i])
  }

  function Spell(ds: seq<nat>, alphabet: string): (s: string)
    requires AreDigits(ds, |alphabet|)
    ensures |s| == |ds| && forall i :: 0 <= i < |ds| ==> s[i] == alphabet[ds[i]]
  {
    seq(|ds|, i requires 0 <= i < |ds| => alphabet[ds[i]])
  }

  function Unspell(s: string, alphabet: string): (ds: seq<nat>)
    requires Over(s, alphabet)
    ensures |ds| == |s| && AreDigits(ds, |alphabet|)
    ensures forall i :: 0 <= i < |s| ==> alphabet[ds[i]] == s[i]
  {
    seq(|s|, i requires 0 <= i < |s| => IndexRune(alphabet, s[i]))
  }

  lemma UnspellSpell(ds: seq<nat>, alphabet: string)
    requires AreDigits(ds, |alphabet|) && Distinct(alphabet)
    ensures Over(Spell(ds, alphabet), alphabet)
    ensures Unspell(Spell(ds, alphabet), alphabet) == ds
  {
  }

  lemma SpellUnspell(s: string, alphabet: string)
    requires Over(s, alphabet)
    ensures Spell(Unspell(s, alphabet), alphabet) == s
  {
  }

  /** strings.ReplaceAll(s, "-", ""). */
  function NoDashes(s: string): (r: string)
    ensures |r| <= |s| && '-' !in r
    ensures '-' !in s ==> r == s
  {
    if s == "" then "" else (if s[0] == '-' then "" else [s[0]]) + NoDashes(s[1..])
  }

  lemma {:induction false} NoDashesConcat(a: string, b: string)
    ensures NoDashes(a + b) == NoDashes(a) + NoDashes(b)
  {
    if a == "" {
      assert a + b == b;
    } else {
      assert (a + b)[0] == a[0] && (a + b)[1..] == a[1..] + b;
      NoDashesConcat(a[1..], b);
      var first := if a[0] == '-' then "" else [a[0]];
      assert first + (NoDashes(a[1..]) + NoDashes(b)) == first + NoDashes(a[1..]) + NoDashes(b);
    }
  }

  lemma TwoLeadingDashes(s: string)
    requires '-' !in s
    ensures NoDashes("--" + s) == s
  {
    assert ("--" + s)[1..] == "-" + s && ("-" + s)[1..] == s;
  }

  /** strings.ToUpper on ASCII. */
  function Upper(c: char): char {
    if 'a' <= c <= 'z' then c - 'a' + 'A' else c
  }

  function ToUpper(s: string): (r: string)
    ensures |r| == |s| && forall i :: 0 <= i < |s| ==> r[i] == Upper(s[i])
  {
    seq(|s|, i requires 0 <= i < |s| => Upper(s[i]))
  }

  /** strings.ToLower on ASCII. */
  function Lower(c: char): char {
    if 'A' <= c <= 'Z' then c - 'A' + 'a' else c
  }

  function ToLower(s: string): (r: string)
    ensures |r| == |s| && forall i :: 0 <= i < |s| ==> r[i] == Lower(s[i])
  {
    seq(|s|, i requires 0 <= i < |s| => Lower(s[i]))
  }

  /** unicode.IsSpace on ASCII. */
  predicate IsSpace(c: char) {
    c == ' ' || 9 as char <= c <= 13 as char
  }

  lemma SpacesAre(c: char)
    ensures IsSpace(c) <==> c == ' ' || c == '\t' || c == '\n' || c == '\r' || c as int == 11 || c as int == 12
  {
  }

  /** No dash and no white space. */
  predicate Plain(s: string) {
    forall i :: 0 <= i < |s| ==> s[i] != '-' && !IsSpace(s[i])
  }

  function TrimSpace(s: string): (r: string)
    ensures r == "" || (!IsSpace(r[0]) && !IsSpace(r[|r| - 1]))
  {
    if s == "" then ""
    else if IsSpace(s[0]) then TrimSpace(s[1..])
    else if IsSpace(s[|s| - 1]) then TrimSpace(s[..|s| - 1])
    else s
  }

  lemma TrimFinalNewline(s: string)
    requires s != "" && Plain(s)
    ensures TrimSpace(s) == s && TrimSpace(s + "\n") == s
  {
    assert (s + "\n")[..|s|] == s;
    assert TrimSpace(s + "\n") == TrimSpace(s);
  }
}
