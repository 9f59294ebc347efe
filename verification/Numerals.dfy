/** Positional numerals, most significant digit first: the theory behind
    math/big's SetBytes, Bytes and DivMod as the identity codec uses them. */
module Numerals {

  type Byte = b: nat | b < 256

  type Bytes = seq<Byte>

  function Pow(b: nat, e: nat): (p: nat)
    ensures b > 0 ==> p > 0
  {
    if e == 0 then 1 else Pow(b, e - 1) * b
  }

  predicate AreDigits(ds: seq<nat>, base: nat) {
    forall i :: 0 <= i < |ds| ==> ds[i] < base
  }

  /** The number that `ds` spells. */
  function Value(ds: seq<nat>, base: nat): nat {
    if ds == [] then 0 else Value(ds[..|ds| - 1], base) * base + ds[|ds| - 1]
  }

  /** The last `len` digits of `n`. */
  function Digits(n: nat, base: nat, len: nat): (ds: seq<nat>)
    requires base >= 2
    ensures |ds| == len && AreDigits(ds, base)
    decreases len
  {
    if len == 0 then [] else Digits(n / base, base, len - 1) + [n % base]
  }

  /** The last `size` bytes of `n`, big-endian. */
  function ToBytes(n: nat, size: nat): Bytes {
    Digits(n, 256, size)
  }

  /** How many digits `n` has without leading zeros; zero has none. */
  function Length(n: nat, base: nat): nat
    requires base >= 2
    decreases n
  {
    if n == 0 then 0 else 1 + Length(n / base, base)
  }

  function Zeros(n: nat): (ds: seq<nat>)
    ensures |ds| == n && forall i :: 0 <= i < n ==> ds[i] == 0
  {
    seq(n, _ => 0)
  }

  /** `n` without leading zeros, then filled up with zeros to at least `len` digits. */
  function Padded(n: nat, base: nat, len: nat): seq<nat>
    requires base >= 2
  {
    var l := Length(n, base);
    Digits(n, base, if l < len then len else l)
  }

  lemma {:induction false} ValueBound(ds: seq<nat>, base: nat)
    requires base >= 2 && AreDigits(ds, base)
    ensures Value(ds, base) < Pow(base, |ds|)
  {
    if ds != [] {
      var front := ds[..|ds| - 1];
      ValueBound(front, base);
      AppendDigitBound(Value(front, base), ds[|ds| - 1], Pow(base, |front|), base);
    }
  }

  lemma AppendDigitBound(v: nat, d: nat, p: nat, base: nat)
    requires v < p && d < base
    ensures v * base + d < p * base
  {
    assert (v + 1) * base <= p * base;
  }

  lemma ValueSnoc(front: seq<nat>, d: nat, n: nat, base: nat)
    requires n == Value(front, base) * base + d
    ensures Value(front + [d], base) == n
  {
    assert (front + [d])[..|front|] == front;
  }

  lemma {:induction false} ValueOfDigits(n: nat, base: nat, len: nat)
    requires base >= 2 && n < Pow(base, len)
    ensures Value(Digits(n, base, len), base) == n
    decreases len
  {
    if len > 0 {
      QuotientBound(n, base, Pow(base, len - 1));
      ValueOfDigits(n / base, base, len - 1);
      ValueSnoc(Digits(n / base, base, len - 1), n % base, n, base) by {
        DivMod(n, base);
      }
    }
  }

  lemma QuotientBound(n: nat, base: nat, p: nat)
    requires base >= 2
    ensures n < p * base <==> n / base < p
  {
    var q := n / base;
    assert q < p ==> (q + 1) * base <= p * base;
    assert q >= p ==> q * base >= p * base;
  }

  lemma {:induction false} DigitsOfValue(ds: seq<nat>, base: nat)
    requires base >= 2 && AreDigits(ds, base)
    ensures Digits(Value(ds, base), base, |ds|) == ds
  {
    if ds != [] {
      var front, d := ds[..|ds| - 1], ds[|ds| - 1];
      DigitsOfValue(front, base);
      DivModUnique(Value(front, base), d, base);
      assert ds == front + [d];
    }
  }

  lemma DivModUnique(q: nat, r: nat, base: nat)
    requires r < base
    ensures (q * base + r) / base == q && (q * base + r) % base == r
  {
    var n := q * base + r;
    var k := n / base - q;
    assert k * base == r - n % base;
    SmallMultiple(k, base);
  }

  lemma SmallMultiple(k: int, base: int)
    requires -base < k * base < base
    ensures k == 0
  {
    assert k >= 1 ==> k * base >= base;
    assert k <= -1 ==> k * base <= -base;
  }

  lemma DivMod(n: nat, base: nat)
    requires base >= 2
    ensures n == n / base * base + n % base
  {
  }

  lemma QuotientSmaller(n: nat, base: nat)
    requires base >= 2 && n > 0
    ensures n / base < n
  {
  }

  /** Equal numbers with equally many digits have the same spelling. */
  lemma ValueInjective(a: seq<nat>, b: seq<nat>, base: nat)
    requires base >= 2 && AreDigits(a, base) && AreDigits(b, base)
    requires |a| == |b| && Value(a, base) == Value(b, base)
    ensures a == b
  {
    DigitsOfValue(a, base);
    DigitsOfValue(b, base);
  }

  lemma {:induction false} LengthBound(n: nat, base: nat, len: nat)
    requires base >= 2
    ensures Length(n, base) <= len <==> n < Pow(base, len)
    decreases n
  {
    if n > 0 && len > 0 {
      QuotientBound(n, base, Pow(base, len - 1));
      QuotientSmaller(n, base);
      LengthBound(n / base, base, len - 1);
    }
  }

  lemma {:induction false} ValueOfZeros(k: nat, ds: seq<nat>, base: nat)
    ensures Value(Zeros(k) + ds, base) == Value(ds, base)
  {
    if ds != [] {
      assert (Zeros(k) + ds)[..k + |ds| - 1] == Zeros(k) + ds[..|ds| - 1];
      ValueOfZeros(k, ds[..|ds| - 1], base);
    } else if k > 0 {
      assert (Zeros(k) + ds)[..k - 1] == Zeros(k - 1) + ds;
      ValueOfZeros(k - 1, ds, base);
    }
  }

  lemma {:induction false} ValuePrepend(d: nat, ds: seq<nat>, base: nat)
    ensures Value([d] + ds, base) == d * Pow(base, |ds|) + Value(ds, base)
  {
    if ds != [] {
      var front := ds[..|ds| - 1];
      assert ([d] + ds)[..|ds|] == [d] + front;
      ValuePrepend(d, front, base);
      Distribute(d, Pow(base, |front|), Value(front, base), base);
    }
  }

  lemma Distribute(d: nat, p: nat, v: nat, base: nat)
    ensures (d * p + v) * base == d * (p * base) + v * base
  {
  }

  /** Left-filling the shortest spelling with zeros gives the longer spelling. */
  lemma PadWithZeros(n: nat, base: nat, len: nat)
    requires base >= 2 && Length(n, base) <= len
    ensures Digits(n, base, len) == Zeros(len - Length(n, base)) + Digits(n, base, Length(n, base))
  {
    var l := Length(n, base);
    var short, long := Digits(n, base, l), Digits(n, base, len);
    assert Value(short, base) == n by {
      LengthBound(n, base, l);
      ValueOfDigits(n, base, l);
    }
    assert Value(long, base) == n by {
      LengthBound(n, base, len);
      ValueOfDigits(n, base, len);
    }
    SameNumber(short, long, base);
  }

  lemma SameNumber(short: seq<nat>, long: seq<nat>, base: nat)
    requires base >= 2 && AreDigits(short, base) && AreDigits(long, base)
    requires |short| <= |long| && Value(short, base) == Value(long, base)
    ensures long == Zeros(|long| - |short|) + short
  {
    ValueOfZeros(|long| - |short|, short, base);
    ValueInjective(long, Zeros(|long| - |short|) + short, base);
  }

  lemma PaddedValue(n: nat, base: nat, len: nat)
    requires base >= 2
    ensures Value(Padded(n, base, len), base) == n
    ensures AreDigits(Padded(n, base, len), base)
    ensures |Padded(n, base, len)| == len <==> n < Pow(base, len)
    ensures |Padded(n, base, len)| >= len
  {
    LengthBound(n, base, |Padded(n, base, len)|);
    LengthBound(n, base, len);
    ValueOfDigits(n, base, |Padded(n, base, len)|);
  }

  function Reverse<T>(s: seq<T>): (r: seq<T>)
    ensures |r| == |s| && forall i :: 0 <= i < |s| ==> r[i] == s[|s| - 1 - i]
  {
    seq(|s|, i requires 0 <= i < |s| => s[|s| - 1 - i])
  }

  /** The in-place swap loop that both Base63 writers end with. */
  method ReverseInPlace<T>(a: array<T>)
    modifies a
    ensures a[..] == Reverse(old(a[..]))
  {
    var i, j := 0, a.Length - 1;
    while i < j
      invariant 0 <= i && j == a.Length - 1 - i && i <= j + 1
      invariant forall k :: 0 <= k < i || j < k < a.Length ==> a[k] == old(a[a.Length - 1 - k])
      invariant forall k :: i <= k <= j ==> a[k] == old(a[k])
    {
      a[i], a[j] := a[j], a[i];
      i, j := i + 1, j - 1;
    }
    assert forall k :: 0 <= k < a.Length ==> a[k] == Reverse(old(a[..]))[k];
  }

  lemma {:induction false} PowAdd(b: nat, e: nat, f: nat)
    ensures Pow(b, e + f) == Pow(b, e) * Pow(b, f)
  {
    if f > 0 {
      PowAdd(b, e, f - 1);
      Associate(Pow(b, e), Pow(b, f - 1), b);
    }
  }

  lemma Associate(x: nat, y: nat, z: nat)
    ensures x * y * z == x * (y * z)
  {
  }

  lemma PowersOf63()
    ensures Pow(63, 8) == 248155780267521
    ensures Pow(63, 24) == Pow(63, 8) * Pow(63, 8) * Pow(63, 8)
    ensures Pow(63, 25) == 63 * Pow(63, 24)
    ensures Pow(63, 43) == Pow(63, 24) * Pow(63, 8) * Pow(63, 8) * 250047
  {
    PowAdd(63, 8, 8);
    PowAdd(63, 16, 8);
    PowAdd(63, 24, 8);
    PowAdd(63, 32, 8);
    PowAdd(63, 40, 3);
  }

  lemma PowersOf256()
    ensures Pow(256, 5) == 0x100_0000_0000
    ensures Pow(256, 6) == 0x1_0000_0000_0000
    ensures Pow(256, 18) == Pow(256, 6) * Pow(256, 6) * Pow(256, 6)
    ensures Pow(256, 32) == Pow(256, 18) * Pow(256, 6) * Pow(256, 6) * 65536
  {
    PowAdd(256, 6, 6);
    PowAdd(256, 12, 6);
    PowAdd(256, 18, 6);
    PowAdd(256, 24, 6);
    PowAdd(256, 30, 2);
  }

  /** 32 bytes fit 43 Base63 digits, and 18 bytes fit 25. */
  lemma WideEnough(data: Bytes, width: nat)
    requires (|data| == 32 && width == 43) || (|data| == 18 && width == 25)
    ensures Value(data, 256) < Pow(63, width)
  {
    ValueBound(data, 256);
    PowersOf63();
    PowersOf256();
  }

  /** Eight digits cover less than 6 bytes, but every 6 bytes whose first is at
      most 224; 24 digits cover less than 18 bytes. */
  lemma NarrowWidths()
    ensures 225 * Pow(256, 5) <= Pow(63, 8) < Pow(256, 6)
    ensures Pow(63, 24) < Pow(256, 18)
  {
    PowersOf63();
    PowersOf256();
  }
}
