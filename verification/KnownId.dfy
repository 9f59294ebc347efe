/** A relay ID that is in use (specifications.txt:265), group by group: it pins the
    alphabet, the place of the check digits and the way they are computed. */
module KnownId {
  import opened Numerals
  import opened Text
  import Base32
  import Luhn
  import opened DeviceId

  const RELAY_ID := "F6UOFEFIG3F7O" + "5" + "7VTPVFJC6TKTH" + "4" + "TKOFVKK2EKYZL" + "L" + "ZY47V4UN4RCYA" + "N"

  lemma Spelled(s: string, ds: seq<nat>)
    requires |s| == |ds| && forall i :: 0 <= i < |s| ==> Base32.Rank(s[i]) == ds[i]
    ensures Over(s, Base32.ALPHABET) && |Base32.ALPHABET| == 32
    ensures Unspell(s, Base32.ALPHABET) == ds
  {
    Base32.AlphabetFacts();
    forall i | 0 <= i < |s|
      ensures Has(Base32.ALPHABET, s[i]) && IndexRune(Base32.ALPHABET, s[i]) == ds[i]
    {
      Base32.RankIs(s[i], Base32.ALPHABET);
    }
  }

  /** The check digit is the letter that completes the weighted sum. */
  lemma GroupChecks(s: string, ds: seq<nat>, sum: nat, check: char)
    requires |s| == 13 && |ds| == 13 && forall i :: 0 <= i < 13 ==> Base32.Rank(s[i]) == ds[i]
    requires sum == ds[0] + Luhn.Doubled(ds[1]) + ds[2] + Luhn.Doubled(ds[3]) + ds[4] + Luhn.Doubled(ds[5]) + ds[6] +
                    Luhn.Doubled(ds[7]) + ds[8] + Luhn.Doubled(ds[9]) + ds[10] + Luhn.Doubled(ds[11]) + ds[12]
    requires Base32.Rank(check) == (32 - sum % 32) % 32
    ensures Luhn.CheckDigit(s) == check
  {
    hide Luhn.Doubled;
    Base32.AlphabetFacts();
    Spelled(s, ds);
    Luhn.GroupCheck(s, ds, Base32.ALPHABET);
    Base32.RankIs(check, Base32.ALPHABET);
  }

  lemma FirstGroup()
    ensures Luhn.CheckDigit("F6UOFEFIG3F7O") == '5'
    ensures Over("F6UOFEFIG3F7O", Base32.ALPHABET) && Has(Base32.ALPHABET, '5')
  {
    var s, ds := "F6UOFEFIG3F7O", [5, 30, 20, 14, 5, 4, 5, 8, 6, 27, 5, 31, 14];
    Spelled(s, ds);
    GroupChecks(s, ds, 195, '5');
    Base32.RankIs('5', Base32.ALPHABET);
  }

  lemma SecondGroup()
    ensures Luhn.CheckDigit("7VTPVFJC6TKTH") == '4'
    ensures Over("7VTPVFJC6TKTH", Base32.ALPHABET) && Has(Base32.ALPHABET, '4')
  {
    var s, ds := "7VTPVFJC6TKTH", [31, 21, 19, 15, 21, 5, 9, 2, 30, 19, 10, 19, 7];
    Spelled(s, ds);
    GroupChecks(s, ds, 196, '4');
    Base32.RankIs('4', Base32.ALPHABET);
  }

  lemma ThirdGroup()
    ensures Luhn.CheckDigit("TKOFVKK2EKYZL") == 'L'
    ensures Over("TKOFVKK2EKYZL", Base32.ALPHABET) && Has(Base32.ALPHABET, 'L')
  {
    var s, ds := "TKOFVKK2EKYZL", [19, 10, 14, 5, 21, 10, 10, 26, 4, 10, 24, 25, 11];
    Spelled(s, ds);
    GroupChecks(s, ds, 213, 'L');
    Base32.RankIs('L', Base32.ALPHABET);
  }

  lemma FourthGroup()
    ensures Luhn.CheckDigit("ZY47V4UN4RCYA") == 'N'
    ensures Over("ZY47V4UN4RCYA", Base32.ALPHABET) && Has(Base32.ALPHABET, 'N')
  {
    var s, ds := "ZY47V4UN4RCYA", [25, 24, 28, 31, 21, 28, 20, 13, 28, 17, 2, 24, 0];
    Spelled(s, ds);
    GroupChecks(s, ds, 243, 'N');
    Base32.RankIs('N', Base32.ALPHABET);
  }

  /** The parser takes it, all four check digits being right. */
  lemma KnownIdParses()
    ensures |RELAY_ID| == 56 && Parse(RELAY_ID).Success?
  {
    hide Parse;
    hide Luhn.CheckDigit;
    FirstGroup();
    SecondGroup();
    ThirdGroup();
    FourthGroup();
    Assembled("F6UOFEFIG3F7O", "7VTPVFJC6TKTH", "TKOFVKK2EKYZL", "ZY47V4UN4RCYA", '5', '4', 'L', 'N');
  }

  lemma Assembled(a: string, b: string, c: string, d: string, ca: char, cb: char, cc: char, cd: char)
    requires |a| == 13 && |b| == 13 && |c| == 13 && |d| == 13
    requires Luhn.CheckDigit(a) == ca && Luhn.CheckDigit(b) == cb
    requires Luhn.CheckDigit(c) == cc && Luhn.CheckDigit(d) == cd
    requires Over(a + [ca], Base32.ALPHABET) && Over(b + [cb], Base32.ALPHABET)
    requires Over(c + [cc], Base32.ALPHABET) && Over(d + [cd], Base32.ALPHABET)
    ensures Parse(a + [ca] + b + [cb] + c + [cc] + d + [cd]).Success?
  {
    hide Parse;
    hide Luhn.CheckDigit;
    var id := a + [ca] + b + [cb] + c + [cc] + d + [cd];
    assert id == (a + [ca]) + (b + [cb]) + (c + [cc]) + (d + [cd]);
    assert Data(id, 0) == a && Data(id, 1) == b && Data(id, 2) == c && Data(id, 3) == d;
    assert id[13] == ca && id[27] == cb && id[41] == cc && id[55] == cd;
    ParseIffChecked(id);
  }
}
