/** SHA-256 digests in Nix base 32: the digest read as a little-endian number, written with 52
    base-32 digits, most significant digit first. */
module NixBase32 {
  import opened NarFormat
  import opened Numerals
  import opened Options

  const NIX32: string := "0123456789abcdfghijklmnpqrsvwxyz"
  const WIDTH: nat := 52
  const DIGEST_BYTES: nat := 32

  /* ---- the alphabet ---- */

  lemma Consecutive()
    ensures |NIX32| == 32
    ensures forall k :: 0 <= k < 31 ==> NIX32[k] < NIX32[k + 1]
  {
  }

  lemma {:induction false} Increasing(alphabet: string, i: nat, j: nat)
    requires forall k :: 0 <= k < |alphabet| - 1 ==> alphabet[k] < alphabet[k + 1]
    requires i < j < |alphabet|
    ensures alphabet[i] < alphabet[j]
    decreases j - i
  {
    if i + 1 < j { Increasing(alphabet, i, j - 1); }
  }

  /** No symbol stands for two digits. */
  lemma SymbolsDistinct(i: nat, j: nat)
    requires i < j < 32
    ensures |NIX32| == 32 && NIX32[i] != NIX32[j]
  {
    Consecutive();
    Increasing(NIX32, i, j);
  }

  function Symbol(d: nat): char
    requires d < 32
  {
    assert |NIX32| == 32;
    NIX32[d]
  }

  function FindFrom(c: char, i: nat): (r: Option<nat>)
    requires i <= |NIX32|
    ensures r.Some? ==> i <= r.value < |NIX32| && NIX32[r.value] == c
    ensures r.None? ==> forall k :: i <= k < |NIX32| ==> NIX32[k] != c
    decreases |NIX32| - i
  {
    if i == |NIX32| then None
    else if NIX32[i] == c then Some(i)
    else FindFrom(c, i + 1)
  }

  /** The digit a character stands for, if any. */
  function DigitOf(c: char): (r: Option<nat>)
    ensures r.Some? <==> c in NIX32
    ensures r.Some? ==> r.value < 32 && Symbol(r.value) == c
  {
    assert |NIX32| == 32;
    FindFrom(c, 0)
  }

  lemma DigitOfSymbol(d: nat)
    requires d < 32
    ensures DigitOf(Symbol(d)) == Some(d)
  {
    hide FindFrom;
    assert |NIX32| == 32;
    var k := DigitOf(Symbol(d)).value;
    if k < d { SymbolsDistinct(k, d); }
    if d < k { SymbolsDistinct(d, k); }
  }

  /* ---- text and numbers ---- */

  function Symbols(ds: seq<nat>): (s: string)
    requires forall i :: 0 <= i < |ds| ==> ds[i] < 32
    ensures |s| == |ds|
  {
    seq(|ds|, i requires 0 <= i < |ds| => Symbol(ds[i]))
  }

  predicate InAlphabet(s: string) {
    forall i :: 0 <= i < |s| ==> s[i] in NIX32
  }

  function DigitsOf(s: string): (ds: seq<nat>)
    requires InAlphabet(s)
    ensures |ds| == |s| && forall i :: 0 <= i < |ds| ==> ds[i] < 32
  {
    seq(|s|, i requires 0 <= i < |s| => DigitOf(s[i]).value)
  }

  function Reversed<T>(s: seq<T>): (r: seq<T>)
    ensures |r| == |s|
  {
    seq(|s|, i requires 0 <= i < |s| => s[|s| - 1 - i])
  }

  lemma ReversedTwice<T>(s: seq<T>)
    ensures Reversed(Reversed(s)) == s
  {
  }

  function Encode(digest: bytes): (s: string)
    ensures |s| == WIDTH
  {
    Reversed(Symbols(Digits(Value(digest, 256), 32, WIDTH)))
  }

  /** The library refuses symbols outside the alphabet and set bits beyond the last byte. */
  function Decode(value: string): (r: Option<bytes>)
    ensures r.Some? ==> |r.value| == DIGEST_BYTES
  {
    if |value| != WIDTH || !InAlphabet(value) then None
    else
      var n := Value(DigitsOf(Reversed(value)), 32);
      if n >= Pow(256, DIGEST_BYTES) then None else Some(Digits(n, 256, DIGEST_BYTES))
  }

  lemma SymbolsOfDigits(s: string)
    requires InAlphabet(s)
    ensures Symbols(DigitsOf(s)) == s
  {
    hide DigitOf;
  }

  lemma DigitsOfSymbols(ds: seq<nat>)
    requires forall i :: 0 <= i < |ds| ==> ds[i] < 32
    ensures InAlphabet(Symbols(ds)) && DigitsOf(Symbols(ds)) == ds
  {
    hide DigitOf;
    forall i | 0 <= i < |ds| ensures DigitOf(Symbols(ds)[i]) == Some(ds[i]) { DigitOfSymbol(ds[i]); }
  }

  lemma ReversedAlphabet(s: string)
    ensures InAlphabet(Reversed(s)) <==> InAlphabet(s)
  {
    hide NIX32;
    forall i | 0 <= i < |s| ensures s[i] == Reversed(s)[|s| - 1 - i] {}
  }

  lemma PowersAgree()
    ensures Pow(256, DIGEST_BYTES) == 2 * Pow(32, WIDTH - 1)
    ensures Pow(256, DIGEST_BYTES) <= Pow(32, WIDTH)
  {
    assert Pow(32, 8) == 0x100_0000_0000 && Pow(256, 5) == 0x100_0000_0000;
    PowAdd(32, 8, 8);
    PowAdd(32, 16, 16);
    PowAdd(32, 32, 16);
    PowAdd(32, 48, 3);
    PowAdd(256, 5, 5);
    PowAdd(256, 10, 10);
    PowAdd(256, 20, 10);
    PowAdd(256, 30, 2);
    assert Pow(32, 3) == 0x8000 && Pow(256, 2) == 0x1_0000;
    assert Pow(32, 48) == Pow(256, 30);
    assert Pow(32, 52) == 32 * Pow(32, 51);
  }

  lemma {:induction false} PowAdd(base: nat, m: nat, n: nat)
    ensures Pow(base, m + n) == Pow(base, m) * Pow(base, n)
    decreases m
  {
    if m != 0 {
      PowAdd(base, m - 1, n);
      MulAssoc(base, Pow(base, m - 1), Pow(base, n), 0);
    }
  }

  /** Parsing what was printed gives the digest back. */
  lemma DecodeAfterEncode(digest: bytes)
    requires |digest| == DIGEST_BYTES
    ensures Decode(Encode(digest)) == Some(digest)
  {
    hide Digits, Value, Pow, Symbols, DigitsOf, InAlphabet;
    var n := Value(digest, 256);
    DigitsOfValue(digest, 256);
    PowersAgree();
    var ds := Digits(n, 32, WIDTH);
    ValueOfDigits(n, 32, WIDTH);
    DigitsOfSymbols(ds);
    ReversedTwice(Symbols(ds));
    ReversedAlphabet(Symbols(ds));
  }

  /** Printing what was parsed gives the text back: each digest has one accepted spelling. */
  lemma EncodeAfterDecode(value: string)
    requires Decode(value).Some?
    ensures Encode(Decode(value).value) == value
  {
    hide Digits, Value, Pow, Symbols, DigitsOf, InAlphabet;
    ReversedAlphabet(value);
    var ds := DigitsOf(Reversed(value));
    var n := Value(ds, 32);
    ValueOfDigits(n, 256, DIGEST_BYTES);
    DigitsOfValue(ds, 32);
    SymbolsOfDigits(Reversed(value));
    ReversedTwice(value);
  }

  /* ---- exactly which texts are accepted ---- */

  lemma {:induction false} ValueSplit(ds: seq<nat>, base: nat, k: nat)
    requires k <= |ds|
    ensures Value(ds, base) == Value(ds[..k], base) + Pow(base, k) * Value(ds[k..], base)
    decreases k
  {
    if k == 0 {
      assert ds[0..] == ds;
    } else {
      ValueSplit(ds[1..], base, k - 1);
      assert ds[1..][..k - 1] == ds[..k][1..];
      assert ds[1..][k - 1..] == ds[k..];
      MulAssoc(base, Pow(base, k - 1), Value(ds[k..], base), Value(ds[..k][1..], base));
    }
  }

  lemma MulAssoc(a: nat, b: nat, c: nat, d: nat)
    ensures a * (d + b * c) == a * d + (a * b) * c
  {
  }

  /** The most significant digit decides whether the number fits. */
  lemma TopDigit(ds: seq<nat>)
    requires |ds| == WIDTH && forall i :: 0 <= i < |ds| ==> ds[i] < 32
    ensures Value(ds, 32) < Pow(256, DIGEST_BYTES) <==> ds[WIDTH - 1] < 2
  {
    hide Pow;
    var k := WIDTH - 1;
    ValueSplit(ds, 32, k);
    DigitsOfValue(ds[..k], 32);
    PowersAgree();
    assert ds[k..] == [ds[k]];
    assert Value([ds[k]], 32) == ds[k] by { assert [ds[k]][1..] == []; }
    var p, low := Pow(32, k), Value(ds[..k], 32);
    TopTerm(p, low, ds[k]);
  }

  lemma TopTerm(p: nat, low: nat, d: nat)
    requires low < p
    ensures low + p * d < 2 * p <==> d < 2
  {
    if d >= 2 { MulSeparates(p, 1, d); }
  }

  /** Accepted are exactly the 52-symbol texts whose first symbol carries no unused high bit. */
  lemma AcceptedTexts(value: string)
    ensures Decode(value).Some? <==>
            |value| == WIDTH && InAlphabet(value) && (value[0] == '0' || value[0] == '1')
  {
    hide Digits, Value, Pow;
    if |value| == WIDTH && InAlphabet(value) {
      ReversedAlphabet(value);
      var ds := DigitsOf(Reversed(value));
      TopDigit(ds);
      assert ds[WIDTH - 1] == DigitOf(value[0]).value;
      FirstSymbol(value[0]);
    }
  }

  lemma FirstSymbol(c: char)
    requires c in NIX32
    ensures DigitOf(c).value < 2 <==> c == '0' || c == '1'
  {
    hide FindFrom;
    assert Symbol(0) == '0' && Symbol(1) == '1';
    DigitOfSymbol(0);
    DigitOfSymbol(1);
  }

  /* ---- the array code ---- */

  /** Exchange the outermost symbols not yet exchanged until the two ends meet. */
  method TurnRound(symbols: array<char>)
    modifies symbols
    ensures symbols[..] == Reversed(old(symbols[..]))
  {
    ghost var before, turned := symbols[..], Reversed(symbols[..]);
    var low, high := 0, symbols.Length;
    while high - low > 1
      invariant 0 <= low <= high <= symbols.Length == |before| && low + high == symbols.Length
      invariant forall k :: 0 <= k < symbols.Length ==> symbols[k] == if low <= k < high then before[k] else turned[k]
    {
      high := high - 1;
      assert turned[low] == before[high] && turned[high] == before[low];
      var carried := symbols[high];
      symbols[high] := symbols[low];
      symbols[low] := carried;
      low := low + 1;
    }
    assert forall k :: low <= k < high ==> turned[k] == before[k];
  }

  /** Fill the symbols of a digest, low digit first, then turn them round. */
  method EncodeNix32(digest: array<byte>) returns (output: array<char>)
    requires digest.Length == DIGEST_BYTES
    ensures fresh(output) && output[..] == Encode(digest[..])
  {
    output := new char[WIDTH];
    var n := ReadNumber(digest[..], 256);
    ghost var whole := Digits(n, 32, WIDTH);
    var i := 0;
    while i < WIDTH
      invariant 0 <= i <= WIDTH && output.Length == WIDTH
      invariant Digits(n, 32, WIDTH - i) == whole[i..]
      invariant forall k :: 0 <= k < i ==> output[k] == Symbol(whole[k])
    {
      hide Symbol, NIX32;
      assert whole[i] == Digits(n, 32, WIDTH - i)[0] == n % 32;
      output[i] := Symbol(n % 32);
      n := n / 32;
      assert whole[i + 1..] == whole[i..][1..];
      i := i + 1;
    }
    assert output[..] == Symbols(whole);
    TurnRound(output);
  }

  /** The number that little-endian digits denote, from the most significant digit down. */
  method ReadNumber(ds: seq<nat>, base: nat) returns (n: nat)
    requires 2 <= base
    ensures n == Value(ds, base)
  {
    n := 0;
    var i := |ds|;
    assert ds[|ds|..] == [];
    while i > 0
      invariant 0 <= i <= |ds|
      invariant n == Value(ds[i..], base)
    {
      i := i - 1;
      n := ds[i] + base * n;
      assert ds[i..][1..] == ds[i + 1..];
    }
    assert ds[0..] == ds;
  }

  method ReadDigits(encoded: array<char>) returns (r: Option<seq<nat>>)
    ensures r == if InAlphabet(encoded[..]) then Some(DigitsOf(encoded[..])) else None
  {
    hide DigitOf;
    var digits: seq<nat> := [];
    for i := 0 to encoded.Length
      invariant |digits| == i
      invariant forall k :: 0 <= k < i ==> encoded[k] in NIX32 && digits[k] == DigitOf(encoded[k]).value
    {
      var d := DigitOf(encoded[i]);
      if d.None? {
        assert encoded[..][i] == encoded[i];
        return None;
      }
      digits := digits + [d.value];
    }
    assert InAlphabet(encoded[..]);
    assert digits == DigitsOf(encoded[..]);
    return Some(digits);
  }

  method DecodeSha256(value: string) returns (r: Option<bytes>)
    ensures r == Decode(value)
  {
    hide Digits, Value, Pow, DigitOf;
    if |value| != WIDTH { return None; }
    var encoded := new char[WIDTH](i requires 0 <= i < |value| => value[i]);
    assert encoded[..] == value;
    TurnRound(encoded);
    ReversedAlphabet(value);
    var digits := ReadDigits(encoded);
    if digits.None? { return None; }
    var n := ReadNumber(digits.value, 32);
    if n >= Pow(256, DIGEST_BYTES) { return None; }
    return Some(Digits(n, 256, DIGEST_BYTES));
  }
}
