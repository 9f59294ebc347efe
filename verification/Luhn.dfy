/** The check digits of device IDs (luhn32CheckDigit) and what they detect.
    Proofs take the alphabet as a parameter and so never look at its letters. */
module Luhn {
  import opened Numerals
  import opened Text
  import Base32

  predicate IsAlphabet(alphabet: string) {
    |alphabet| == 32 && Distinct(alphabet)
  }

  /** What a codepoint adds at a place with the given factor, 1 or 2. */
  function Addend(factor: nat, codepoint: nat): nat {
    var a := if factor == 2 then 2 * codepoint else codepoint;
    a / 32 + a % 32
  }

  datatype Tally = Tally(factor: nat, sum: nat)

  /** Characters outside the alphabet (codepoint -1) are skipped. */
  function Step(t: Tally, codepoint: int): Tally {
    if codepoint < 0 then t
    else Tally(if t.factor == 2 then 1 else 2, t.sum + Addend(t.factor, codepoint))
  }

  /** The running factor and sum after `s`. */
  function Run(s: string, alphabet: string): Tally {
    if s == "" then Tally(1, 0)
    else Step(Run(s[..|s| - 1], alphabet), IndexRune(alphabet, s[|s| - 1]))
  }

  lemma RunSnoc(s: string, c: char, alphabet: string)
    ensures Run(s + [c], alphabet) == Step(Run(s, alphabet), IndexRune(alphabet, c))
  {
    assert (s + [c])[..|s|] == s;
  }

  /** A character outside the alphabet does not count, not even as a place. */
  lemma ForeignSkipped(s: string, c: char, alphabet: string)
    requires !Has(alphabet, c) && |alphabet| == 32
    ensures CheckDigitIn(s + [c], alphabet) == CheckDigitIn(s, alphabet)
    ensures Run(s + [c], alphabet) == Run(s, alphabet)
  {
    RunSnoc(s, c, alphabet);
  }

  function CheckCodepoint(sum: nat): nat {
    (32 - sum % 32) % 32
  }

  function CheckDigitIn(s: string, alphabet: string): char
    requires |alphabet| == 32
  {
    alphabet[CheckCodepoint(Run(s, alphabet).sum)]
  }

  function CheckDigit(s: string): char {
    Base32.AlphabetFacts();
    CheckDigitIn(s, Base32.ALPHABET)
  }

  method ComputeCheckDigit(s: string) returns (c: char)
    ensures c == CheckDigit(s)
  {
    Base32.AlphabetFacts();
    c := ComputeCheckDigitIn(s, Base32.ALPHABET);
  }

  method ComputeCheckDigitIn(s: string, alphabet: string) returns (c: char)
    requires |alphabet| == 32
    ensures c == CheckDigitIn(s, alphabet)
  {
    var factor: nat, sum: nat := 1, 0;
    for i := 0 to |s|
      invariant factor == 1 || factor == 2
      invariant Run(s[..i], alphabet) == Tally(factor, sum)
    {
      RunSnoc(s[..i], s[i], alphabet);
      assert s[..i + 1] == s[..i] + [s[i]];
      var codepoint := IndexRune(alphabet, s[i]);
      if codepoint == -1 {
        continue;
      }
      var addend := factor * codepoint;
      assert addend == if factor == 2 then 2 * codepoint else codepoint;
      if factor == 2 {
        factor := 1;
      } else {
        factor := 2;
      }
      addend := addend / 32 + addend % 32;
      sum := sum + addend;
    }
    assert s[..|s|] == s;
    var remainder := sum % 32;
    var checkCodepoint := (32 - remainder) % 32;
    c := alphabet[checkCodepoint];
  }

  function Factor(place: nat): nat {
    1 + place % 2
  }

  lemma FactorAlternates(place: nat)
    ensures Factor(place + 1) == if Factor(place) == 2 then 1 else 2
  {
  }

  /** The sum for codepoints at places 0, 1, 2, ... */
  function Sum(ds: seq<nat>): nat {
    if ds == [] then 0 else Sum(ds[..|ds| - 1]) + Addend(Factor(|ds| - 1), ds[|ds| - 1])
  }

  lemma {:induction false} RunIsSum(s: string, alphabet: string)
    requires Over(s, alphabet)
    ensures Run(s, alphabet) == Tally(Factor(|s|), Sum(Unspell(s, alphabet)))
  {
    if s != "" {
      RunIsSum(s[..|s| - 1], alphabet);
      assert Unspell(s, alphabet)[..|s| - 1] == Unspell(s[..|s| - 1], alphabet);
      FactorAlternates(|s| - 1);
    }
  }

  lemma AddendValue(x: nat)
    requires x < 32
    ensures Addend(1, x) == x
    ensures Addend(2, x) == if x < 16 then 2 * x else 2 * x - 31
  {
  }

  /** Doubling with the carry added back permutes 0..31. */
  lemma AddendPermutes(factor: nat, x: nat, y: nat)
    requires (factor == 1 || factor == 2) && x < 32 && y < 32
    ensures Addend(factor, x) < 32 && Addend(factor, y) < 32
    ensures Addend(factor, x) == Addend(factor, y) <==> x == y
  {
    AddendValue(x);
    AddendValue(y);
  }

  lemma {:induction false} SumUpdate(ds: seq<nat>, k: nat, x: nat)
    requires k < |ds|
    ensures Sum(ds[k := x]) + Addend(Factor(k), ds[k]) == Sum(ds) + Addend(Factor(k), x)
  {
    var last := |ds| - 1;
    if k == last {
      assert ds[k := x][..last] == ds[..last];
    } else {
      assert ds[k := x][..last] == ds[..last][k := x];
      SumUpdate(ds[..last], k, x);
    }
  }

  lemma SameCheckCodepoint(a: nat, b: nat)
    ensures CheckCodepoint(a) == CheckCodepoint(b) <==> a % 32 == b % 32
  {
    CheckCodepointValue(a);
    CheckCodepointValue(b);
  }

  lemma CheckCodepointValue(sum: nat)
    ensures CheckCodepoint(sum) == if sum % 32 == 0 then 0 else 32 - sum % 32
  {
  }

  lemma CheckDigitsEqual(s: string, t: string, alphabet: string)
    requires IsAlphabet(alphabet) && Over(s, alphabet) && Over(t, alphabet)
    ensures CheckDigitIn(s, alphabet) == CheckDigitIn(t, alphabet) <==>
              Sum(Unspell(s, alphabet)) % 32 == Sum(Unspell(t, alphabet)) % 32
  {
    RunIsSum(s, alphabet);
    RunIsSum(t, alphabet);
    var a, b := Run(s, alphabet).sum, Run(t, alphabet).sum;
    SameCheckCodepoint(a, b);
    assert IndexRune(alphabet, alphabet[CheckCodepoint(a)]) == CheckCodepoint(a);
    assert IndexRune(alphabet, alphabet[CheckCodepoint(b)]) == CheckCodepoint(b);
  }

  /** Replacing one character by another always changes the check digit. */
  lemma ReplacementDetected(s: string, k: nat, c: char, alphabet: string)
    requires IsAlphabet(alphabet) && Over(s, alphabet)
    requires k < |s| && Has(alphabet, c) && c != s[k]
    ensures CheckDigitIn(s[k := c], alphabet) != CheckDigitIn(s, alphabet)
  {
    var ds, x := Unspell(s, alphabet), IndexRune(alphabet, c);
    assert Unspell(s[k := c], alphabet) == ds[k := x];
    SumUpdate(ds, k, x);
    AddendPermutes(Factor(k), ds[k], x);
    SmallDifference(Sum(ds[k := x]), Sum(ds));
    CheckDigitsEqual(s[k := c], s, alphabet);
  }

  function Swapped(s: string, k: nat): string
    requires k + 1 < |s|
  {
    s[k := s[k + 1]][k + 1 := s[k]]
  }

  /** Codepoints 0 and 31: the only two that doubling with carry shifts alike. */
  predicate Ends(x: nat, y: nat) {
    (x == 0 && y == 31) || (x == 31 && y == 0)
  }

  /** Swapping neighbours changes the check digit, except for equal ones and for
      the first and last letter of the alphabet. */
  lemma SwapDetected(s: string, k: nat, alphabet: string)
    requires IsAlphabet(alphabet) && Over(s, alphabet) && k + 1 < |s|
    ensures CheckDigitIn(Swapped(s, k), alphabet) == CheckDigitIn(s, alphabet) <==>
              s[k] == s[k + 1] || Ends(IndexRune(alphabet, s[k]), IndexRune(alphabet, s[k + 1]))
  {
    var ds := Unspell(s, alphabet);
    assert Unspell(Swapped(s, k), alphabet) == ds[k := ds[k + 1]][k + 1 := ds[k]];
    SwapSum(ds, k);
    CheckDigitsEqual(Swapped(s, k), s, alphabet);
  }

  lemma SwapSum(ds: seq<nat>, k: nat)
    requires AreDigits(ds, 32) && k + 1 < |ds|
    ensures Sum(ds[k := ds[k + 1]][k + 1 := ds[k]]) % 32 == Sum(ds) % 32
       <==> ds[k] == ds[k + 1] || Ends(ds[k], ds[k + 1])
  {
    var x, y := ds[k], ds[k + 1];
    SumUpdate(ds, k, y);
    SumUpdate(ds[k := y], k + 1, x);
    SwapArithmetic(Sum(ds), Sum(ds[k := y][k + 1 := x]), k, x, y);
  }

  lemma SwapArithmetic(before: nat, after: nat, k: nat, x: nat, y: nat)
    requires x < 32 && y < 32
    requires after + Addend(Factor(k), x) + Addend(Factor(k + 1), y)
          == before + Addend(Factor(k), y) + Addend(Factor(k + 1), x)
    ensures after % 32 == before % 32 <==> x == y || Ends(x, y)
  {
    AddendValue(x);
    AddendValue(y);
    assert (Factor(k) == 1 && Factor(k + 1) == 2) || (Factor(k) == 2 && Factor(k + 1) == 1);
    SmallDifference(before, after);
  }

  lemma SmallDifference(a: nat, b: nat)
    requires -32 < a - b < 32
    ensures a % 32 == b % 32 <==> a == b
  {
  }

  /** With its check digit a text sums to a multiple of 32. */
  lemma ChecksToZero(s: string, alphabet: string)
    requires IsAlphabet(alphabet) && Over(s, alphabet)
    ensures (Sum(Unspell(s, alphabet)) + IndexRune(alphabet, CheckDigitIn(s, alphabet))) % 32 == 0
  {
    RunIsSum(s, alphabet);
    var sum := Run(s, alphabet).sum;
    CheckCodepointValue(sum);
    assert IndexRune(alphabet, alphabet[CheckCodepoint(sum)]) == CheckCodepoint(sum);
    Complement(sum);
  }

  lemma Complement(sum: nat)
    ensures (sum + if sum % 32 == 0 then 0 else 32 - sum % 32) % 32 == 0
  {
  }

  /** A codepoint doubled, with the carry out of 32 added back. */
  function Doubled(x: nat): nat {
    if x < 16 then 2 * x else 2 * x - 31
  }

  lemma SumStep(ds: seq<nat>, k: nat)
    requires AreDigits(ds, 32) && k < |ds|
    ensures Sum(ds[..k + 1]) == Sum(ds[..k]) + if k % 2 == 0 then ds[k] else Doubled(ds[k])
  {
    assert ds[..k + 1][..k] == ds[..k];
    AddendValue(ds[k]);
  }

  /** The sum over a group: every second codepoint, from the second on, is doubled. */
  lemma GroupSum(ds: seq<nat>)
    requires AreDigits(ds, 32) && |ds| == 13
    ensures Sum(ds) ==
            ds[0] + Doubled(ds[1]) + ds[2] + Doubled(ds[3]) + ds[4] + Doubled(ds[5]) + ds[6] +
            Doubled(ds[7]) + ds[8] + Doubled(ds[9]) + ds[10] + Doubled(ds[11]) + ds[12]
  {
    hide Doubled;
    hide Sum;
    FirstSix(ds);
    NextSix(ds);
    SumStep(ds, 12);
    assert ds[..12 + 1] == ds;
  }

  lemma FirstSix(ds: seq<nat>)
    requires AreDigits(ds, 32) && |ds| == 13
    ensures Sum(ds[..6]) == ds[0] + Doubled(ds[1]) + ds[2] + Doubled(ds[3]) + ds[4] + Doubled(ds[5])
  {
    hide Doubled;
    assert Sum(ds[..0]) == 0;
    hide Sum;
    HalfSum(ds, 0);
    HalfSum(ds, 2);
    HalfSum(ds, 4);
  }

  lemma NextSix(ds: seq<nat>)
    requires AreDigits(ds, 32) && |ds| == 13
    ensures Sum(ds[..12]) ==
            Sum(ds[..6]) + ds[6] + Doubled(ds[7]) + ds[8] + Doubled(ds[9]) + ds[10] + Doubled(ds[11])
  {
    hide Doubled;
    hide Sum;
    HalfSum(ds, 6);
    HalfSum(ds, 8);
    HalfSum(ds, 10);
  }

  lemma HalfSum(ds: seq<nat>, k: nat)
    requires AreDigits(ds, 32) && k + 1 < |ds| && k % 2 == 0
    ensures Sum(ds[..k + 2]) == Sum(ds[..k]) + ds[k] + Doubled(ds[k + 1])
  {
    SumStep(ds, k);
    SumStep(ds, k + 1);
  }

  /** The check digit of a group with these codepoints. */
  lemma GroupCheck(s: string, ds: seq<nat>, alphabet: string)
    requires IsAlphabet(alphabet) && Over(s, alphabet) && Unspell(s, alphabet) == ds && |ds| == 13
    ensures CheckDigitIn(s, alphabet) ==
            alphabet[(32 - (ds[0] + Doubled(ds[1]) + ds[2] + Doubled(ds[3]) + ds[4] + Doubled(ds[5]) + ds[6] +
                            Doubled(ds[7]) + ds[8] + Doubled(ds[9]) + ds[10] + Doubled(ds[11]) + ds[12]) % 32) % 32]
  {
    hide Doubled;
    hide Sum;
    hide Run;
    RunIsSum(s, alphabet);
    GroupSum(ds);
  }
}
