/** Strings that spell numbers in Base63: the loops that both writers
    (encodeBase63, JoinRelayHint) and both readers (decodeBase63,
    SplitRelayHint) contain. The alphabet is a parameter, so that proofs never
    look at its 63 letters. */
module Radix {
  import opened Numerals
  import opened Text

  predicate IsAlphabet(alphabet: string) {
    |alphabet| == 63 && alphabet[0] == 'A'
  }

  /** The value of a string of alphabet characters. */
  function Number(s: string, alphabet: string): nat
    requires IsAlphabet(alphabet) && Over(s, alphabet)
  {
    Value(Unspell(s, alphabet), 63)
  }

  /** `n` in Base63, filled up with 'A' to at least `width` characters. */
  function Encoded(n: nat, width: nat, alphabet: string): string
    requires IsAlphabet(alphabet)
  {
    Spell(Padded(n, 63, width), alphabet)
  }

  lemma EncodedMeaning(n: nat, width: nat, alphabet: string)
    requires IsAlphabet(alphabet) && Distinct(alphabet)
    ensures Over(Encoded(n, width, alphabet), alphabet)
    ensures Number(Encoded(n, width, alphabet), alphabet) == n
    ensures |Encoded(n, width, alphabet)| >= width
    ensures |Encoded(n, width, alphabet)| == width <==> n < Pow(63, width)
  {
    PaddedValue(n, 63, width);
    UnspellSpell(Padded(n, 63, width), alphabet);
  }

  /** A string over the alphabet is the spelling of its own value. */
  lemma NumberInverse(s: string, alphabet: string)
    requires IsAlphabet(alphabet) && Over(s, alphabet)
    ensures Number(s, alphabet) < Pow(63, |s|)
    ensures Encoded(Number(s, alphabet), |s|, alphabet) == s
  {
    hide Value;
    hide Digits;
    hide Length;
    hide Pow;
    var ds := Unspell(s, alphabet);
    ValueBound(ds, 63);
    assert Padded(Value(ds, 63), 63, |s|) == ds by {
      LengthBound(Value(ds, 63), 63, |s|);
      DigitsOfValue(ds, 63);
    }
    SpellUnspell(s, alphabet);
  }

  /** The characters of `ds`, last digit first, as the loops collect them. */
  ghost function Backwards(ds: seq<nat>, alphabet: string): string
    requires AreDigits(ds, |alphabet|)
  {
    Reverse(Spell(ds, alphabet))
  }

  lemma PushDigit(d: nat, ds: seq<nat>, alphabet: string)
    requires d < |alphabet| && AreDigits(ds, |alphabet|)
    ensures AreDigits([d] + ds, |alphabet|)
    ensures Backwards([d] + ds, alphabet) == Backwards(ds, alphabet) + [alphabet[d]]
  {
  }

  lemma BackwardsTwice(ds: seq<nat>, alphabet: string)
    requires AreDigits(ds, |alphabet|)
    ensures Reverse(Backwards(ds, alphabet)) == Spell(ds, alphabet)
  {
  }

  lemma LastDigit(n: nat)
    requires n > 0
    ensures Digits(n, 63, Length(n, 63)) == Digits(n / 63, 63, Length(n / 63, 63)) + [n % 63]
  {
  }

  lemma NoDigits(alphabet: string)
    ensures Digits(0, 63, Length(0, 63)) == [] && Backwards([], alphabet) == []
  {
  }

  /** The digit loop: the digits of `n`, least significant first. */
  method CollectDigits(n: nat, alphabet: string) returns (out: string)
    requires IsAlphabet(alphabet)
    ensures out == Backwards(Digits(n, 63, Length(n, 63)), alphabet)
  {
    hide Digits;
    hide Length;
    hide Backwards;
    var num := n;
    out := [];
    ghost var ds: seq<nat> := [];
    NoDigits(alphabet);
    while num > 0
      invariant AreDigits(ds, |alphabet|) && out == Backwards(ds, alphabet)
      invariant Digits(n, 63, Length(n, 63)) == Digits(num, 63, Length(num, 63)) + ds
    {
      LastDigit(num);
      PushDigit(num % 63, ds, alphabet);
      ghost var rest := Digits(num / 63, 63, Length(num / 63, 63));
      assert rest + [num % 63] + ds == rest + ([num % 63] + ds);
      ds := [num % 63] + ds;
      out := out + [alphabet[num % 63]];
      num := num / 63;
    }
    assert [] + ds == ds;
  }

  function Letters(c: char, k: nat): string {
    seq(k, _ => c)
  }

  lemma FillMeaning(k: nat, ds: seq<nat>, alphabet: string)
    requires IsAlphabet(alphabet) && AreDigits(ds, 63)
    ensures Backwards(Zeros(k) + ds, alphabet) == Backwards(ds, alphabet) + Letters('A', k)
  {
  }

  /** The 'A' fill, before the reversal. */
  method Fill(digits: string, width: nat) returns (out: string)
    ensures out == digits + Letters('A', if |digits| < width then width - |digits| else 0)
  {
    out := digits;
    while |out| < width
      invariant |out| >= |digits| && (out == digits || |out| <= width)
      invariant out == digits + Letters('A', |out| - |digits|)
    {
      out := out + ['A'];
    }
  }

  /** The digit loop, the 'A' fill and the reversal together. */
  method WriteNumber(n: nat, width: nat, alphabet: string) returns (s: string)
    requires IsAlphabet(alphabet)
    ensures s == Encoded(n, width, alphabet)
  {
    ghost var ds := Digits(n, 63, Length(n, 63));
    var digits := CollectDigits(n, alphabet);
    var out := Fill(digits, width);
    s := ReversedCopy(out);
    ghost var fill := if |ds| < width then width - |ds| else 0;
    FillMeaning(fill, ds, alphabet);
    BackwardsTwice(Zeros(fill) + ds, alphabet);
    FillIsPadding(n, width, ds);
  }

  method ReversedCopy(out: string) returns (s: string)
    ensures s == Reverse(out)
  {
    var buf := new char[|out|](i requires 0 <= i < |out| => out[i]);
    assert buf[..] == out;
    ReverseInPlace(buf);
    s := buf[..];
  }

  lemma FillIsPadding(n: nat, width: nat, ds: seq<nat>)
    requires ds == Digits(n, 63, Length(n, 63))
    ensures Zeros(if |ds| < width then width - |ds| else 0) + ds == Padded(n, 63, width)
  {
    if |ds| < width {
      PadWithZeros(n, 63, width);
    } else {
      assert Zeros(0) + ds == ds;
    }
  }

  /** The Horner loop; `ok` is false at the first character outside the alphabet. */
  method ReadNumber(s: string, alphabet: string) returns (ok: bool, num: nat)
    requires IsAlphabet(alphabet)
    ensures ok <==> Over(s, alphabet)
    ensures ok ==> num == Number(s, alphabet)
  {
    num := 0;
    for i := 0 to |s|
      invariant Over(s[..i], alphabet) && num == Number(s[..i], alphabet)
    {
      var idx := IndexRune(alphabet, s[i]);
      if idx < 0 {
        return false, 0;
      }
      NumberSnoc(s[..i], s[i], alphabet);
      assert s[..i + 1] == s[..i] + [s[i]];
      num := num * 63;
      num := num + idx;
    }
    assert s[..|s|] == s;
    ok := true;
  }

  lemma NumberSnoc(s: string, c: char, alphabet: string)
    requires IsAlphabet(alphabet) && Over(s, alphabet) && Has(alphabet, c)
    ensures Over(s + [c], alphabet)
    ensures Number(s + [c], alphabet) == Number(s, alphabet) * 63 + IndexRune(alphabet, c)
  {
    var k := IndexRune(alphabet, c);
    assert Unspell(s + [c], alphabet) == Unspell(s, alphabet) + [k];
    ValueSnoc(Unspell(s, alphabet), k, Number(s, alphabet) * 63 + k, 63);
  }

  /** big.Int.Bytes, then left-filled with zero bytes to `size`. */
  method NumberToBytes(num: nat, size: nat) returns (bytes: Bytes)
    ensures num < Pow(256, size) ==> bytes == Digits(num, 256, size)
    ensures num >= Pow(256, size) ==> |bytes| > size && bytes == Digits(num, 256, Length(num, 256))
  {
    LengthBound(num, 256, size);
    bytes := Digits(num, 256, Length(num, 256));
    if |bytes| < size {
      PadWithZeros(num, 256, size);
      bytes := Zeros(size - |bytes|) + bytes;
    }
  }
}
