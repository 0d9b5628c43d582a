/** Little-endian positional numerals: the least significant digit comes first.
    NAR lengths are 8 digits in base 256; Nix base-32 digests are 52 digits in base 32. */
module Numerals {

  function Pow(base: nat, k: nat): nat {
    if k == 0 then 1 else base * Pow(base, k - 1)
  }

  /** The k low digits of n. */
  function Digits(n: nat, base: nat, k: nat): (ds: seq<nat>)
    requires 2 <= base
    ensures |ds| == k
    ensures forall i :: 0 <= i < k ==> ds[i] < base
    decreases k
  {
    if k == 0 then [] else [n % base] + Digits(n / base, base, k - 1)
  }

  function Value(ds: seq<nat>, base: nat): nat {
    if ds == [] then 0 else ds[0] + base * Value(ds[1..], base)
  }

  lemma DivBelow(n: nat, base: nat, bound: nat)
    requires 2 <= base && n < base * bound
    ensures n / base < bound
  {
  }

  lemma {:induction false} MulSeparates(base: nat, x: int, y: int)
    requires x < y
    ensures base * x + base <= base * y
    decreases y - x
  {
    assert base * y == base * (y - 1) + base;
    if x + 1 < y { MulSeparates(base, x, y - 1); }
  }

  lemma SplitDigit(d: nat, rest: nat, base: nat)
    requires 2 <= base && d < base
    ensures (d + base * rest) % base == d
    ensures (d + base * rest) / base == rest
  {
    var n := d + base * rest;
    var q, r := n / base, n % base;
    assert n == base * q + r;
    if q < rest { MulSeparates(base, q, rest); }
    if rest < q { MulSeparates(base, rest, q); }
  }

  /** Writing a number that fits in k digits and reading it back gives the number. */
  lemma {:induction false} ValueOfDigits(n: nat, base: nat, k: nat)
    requires 2 <= base && n < Pow(base, k)
    ensures Value(Digits(n, base, k), base) == n
    decreases k
  {
    if k != 0 {
      var high := OneDigit(n, base, k);
      ValueOfDigits(high, base, k - 1);
      hide Pow, Digits, Value;
    }
  }

  lemma OneDigit(n: nat, base: nat, k: nat) returns (high: nat)
    requires 2 <= base && 0 < k && n < Pow(base, k)
    ensures high < Pow(base, k - 1)
    ensures Value(Digits(high, base, k - 1), base) == high ==> Value(Digits(n, base, k), base) == n
  {
    high := n / base;
    var p := Pow(base, k - 1);
    assert Pow(base, k) == base * p;
    DivBelow(n, base, p);
    var ds := Digits(n, base, k);
    assert ds[0] == n % base && ds[1..] == Digits(high, base, k - 1);
    assert Value(ds, base) == n % base + base * Value(ds[1..], base);
    DivMod(n, base);
  }

  lemma DivMod(n: nat, base: nat)
    requires 2 <= base
    ensures n == n % base + base * (n / base)
  {
  }

  /** Every digit string denotes a number that fits, and is the only one that denotes it. */
  lemma {:induction false} DigitsOfValue(ds: seq<nat>, base: nat)
    requires 2 <= base && forall i :: 0 <= i < |ds| ==> ds[i] < base
    ensures Value(ds, base) < Pow(base, |ds|)
    ensures Digits(Value(ds, base), base, |ds|) == ds
  {
    if ds != [] {
      var rest := Value(ds[1..], base);
      DigitsOfValue(ds[1..], base);
      SplitDigit(ds[0], rest, base);
      MulSeparates(base, rest, Pow(base, |ds| - 1));
      assert ds == [ds[0]] + Digits(rest, base, |ds| - 1);
    }
  }

  lemma {:induction false} PowPositive(base: nat, k: nat)
    requires 1 <= base
    ensures Pow(base, k) >= 1
    decreases k
  {
    if k != 0 { PowPositive(base, k - 1); }
  }

  lemma Nested(base: nat, p: nat, q: nat, r: nat, low: nat)
    ensures low + base * (p * q + r) == (base * r + low) + base * p * q
  {
    assert base * (p * q + r) == base * (p * q) + base * r;
    assert base * (p * q) == base * p * q;
  }

  lemma DivTwice(n: nat, base: nat, p: nat)
    requires 2 <= base && 1 <= p
    ensures 2 <= base * p && n / base / p == n / (base * p)
  {
    var low := n % base;
    var q, r := n / base / p, n / base % p;
    DivMod(n, base);
    assert n / base == p * q + r;
    Nested(base, p, q, r, low);
    MulSeparates(base, r, p);
    MulSeparates(base, 0, p);
    SplitDigit(base * r + low, q, base * p);
  }

  /** The digits, least significant first, are those of division by the powers of the base. */
  lemma {:induction false} DigitAt(n: nat, base: nat, k: nat, i: nat)
    requires 2 <= base && i < k
    ensures Pow(base, i) >= 1 && Digits(n, base, k)[i] == n / Pow(base, i) % base
    decreases k
  {
    PowPositive(base, i);
    if i > 0 {
      PowPositive(base, i - 1);
      DigitAt(n / base, base, k - 1, i - 1);
      DivTwice(n, base, Pow(base, i - 1));
    }
  }
}
