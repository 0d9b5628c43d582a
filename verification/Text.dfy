/** String handling as Rust's standard library does it: stripping, splitting, joining, decimal
    numbers, and the order of strings. */
module Text {
  import Lexicographic
  import opened NarFormat
  import opened Options

  /* ---- order ---- */

  function Codes(s: string): (r: seq<int>)
    ensures |r| == |s|
  {
    seq(|s|, i requires 0 <= i < |s| => s[i] as int)
  }

  predicate Before(a: string, b: string) {
    Lexicographic.Less(Codes(a), Codes(b))
  }

  /** A string comes before another exactly when, at the first place they differ, it has the smaller character
      or has ended. */
  lemma BeforeExact(a: string, b: string)
    ensures Before(a, b) <==> exists k: nat :: CharsDifferAt(a, b, k)
  {
    Lexicographic.LessExact(Codes(a), Codes(b));
    forall k: nat | k <= |a| && k <= |b| ensures Codes(a)[..k] == Codes(b)[..k] <==> a[..k] == b[..k] {
      SamePrefixes(a, b, k);
    }
    forall k: nat ensures Lexicographic.DiffersAt(Codes(a), Codes(b), k) <==> CharsDifferAt(a, b, k) {
    }
  }

  predicate CharsDifferAt(a: string, b: string, k: nat) {
    && k <= |a| && k < |b| && a[..k] == b[..k]
    && (k == |a| || a[k] < b[k])
  }

  lemma SamePrefixes(a: string, b: string, k: nat)
    requires k <= |a| && k <= |b|
    ensures Codes(a)[..k] == Codes(b)[..k] <==> a[..k] == b[..k]
  {
    assert Codes(a)[..k] == Codes(a[..k]) && Codes(b)[..k] == Codes(b[..k]);
    if Codes(a[..k]) == Codes(b[..k]) { CodesInjective(a[..k], b[..k]); }
  }

  lemma CodesInjective(a: string, b: string)
    requires Codes(a) == Codes(b)
    ensures a == b
  {
    forall i | 0 <= i < |a| ensures a[i] == b[i] {
      assert Codes(a)[i] == Codes(b)[i];
    }
  }

  lemma BeforeTotal(a: string, b: string)
    ensures a == b || Before(a, b) || Before(b, a)
  {
    Lexicographic.Total(Codes(a), Codes(b));
    if Codes(a) == Codes(b) { CodesInjective(a, b); }
  }

  lemma BeforeStrict(a: string, b: string)
    ensures !(Before(a, b) && Before(b, a)) && !Before(a, a)
  {
    Lexicographic.Irreflexive(Codes(a));
    if Before(a, b) && Before(b, a) { Lexicographic.Transitive(Codes(a), Codes(b), Codes(a)); }
  }

  lemma BeforeTransitive(a: string, b: string, c: string)
    requires Before(a, b) && Before(b, c)
    ensures Before(a, c)
  {
    Lexicographic.Transitive(Codes(a), Codes(b), Codes(c));
  }

  /* ---- prefixes and suffixes ---- */

  function StripPrefix(s: string, p: string): (r: Option<string>)
    ensures r.Some? <==> p <= s
    ensures r.Some? ==> s == p + r.value
  {
    if p <= s then Some(s[|p|..]) else None
  }

  predicate EndsWith(s: string, p: string) {
    |p| <= |s| && s[|s| - |p|..] == p
  }

  function StripSuffix(s: string, p: string): (r: Option<string>)
    ensures r.Some? <==> EndsWith(s, p)
    ensures r.Some? ==> s == r.value + p
  {
    if EndsWith(s, p) then Some(s[..|s| - |p|]) else None
  }

  lemma PrefixStripped(p: string, rest: string)
    ensures StripPrefix(p + rest, p) == Some(rest)
  {
    assert (p + rest)[|p|..] == rest;
  }

  lemma SuffixStripped(rest: string, p: string)
    ensures StripSuffix(rest + p, p) == Some(rest)
  {
    assert (rest + p)[|rest + p| - |p|..] == p;
    assert (rest + p)[..|rest|] == rest;
  }

  /* ---- splitting at a character ---- */

  function IndexOf(s: string, c: char): (r: Option<nat>)
    ensures r.Some? <==> c in s
    ensures r.Some? ==> r.value < |s| && s[r.value] == c && c !in s[..r.value]
  {
    if s == [] then None
    else if s[0] == c then Some(0)
    else
      var rest := IndexOf(s[1..], c);
      assert s == [s[0]] + s[1..];
      if rest.None? then None
      else
        assert s[..rest.value + 1] == [s[0]] + s[1..][..rest.value];
        Some(rest.value + 1)
  }

  /** The text before and after the first occurrence of c. */
  function SplitOnce(s: string, c: char): (r: Option<(string, string)>)
    ensures r.Some? <==> c in s
    ensures r.Some? ==> s == r.value.0 + [c] + r.value.1 && c !in r.value.0
  {
    var k := IndexOf(s, c);
    if k.None? then None else Some((s[..k.value], s[k.value + 1..]))
  }

  lemma SplitAt(a: string, c: char, b: string)
    requires c !in a
    ensures SplitOnce(a + [c] + b, c) == Some((a, b))
  {
    var s := a + [c] + b;
    assert s[|a|] == c;
    var k := IndexOf(s, c).value;
    assert k == |a|;
    assert s[..|a|] == a && s[|a| + 1..] == b;
  }

  /** Two texts that agree up to a separator neither part contains agree in both parts. */
  lemma SameSplit(a: string, c: char, b: string, a': string, b': string)
    requires c !in a && c !in a' && a + [c] + b == a' + [c] + b'
    ensures a == a' && b == b'
  {
    SplitAt(a, c, b);
    SplitAt(a', c, b');
  }

  function Split(s: string, c: char): (r: seq<string>)
    ensures r != []
    decreases |s|
  {
    var k := IndexOf(s, c);
    if k.None? then [s] else [s[..k.value]] + Split(s[k.value + 1..], c)
  }

  function Join(parts: seq<string>, c: char): string {
    if parts == [] then [] else if |parts| == 1 then parts[0] else parts[0] + [c] + Join(parts[1..], c)
  }

  lemma {:induction false} SplitJoin(parts: seq<string>, c: char)
    requires parts != [] && forall i :: 0 <= i < |parts| ==> c !in parts[i]
    ensures Split(Join(parts, c), c) == parts
    decreases |parts|
  {
    if |parts| == 1 {
      assert parts == [parts[0]];
    } else {
      var a, b := parts[0], Join(parts[1..], c);
      SplitJoin(parts[1..], c);
      SplitAt(a, c, b);
      var s := a + [c] + b;
      var k := IndexOf(s, c).value;
      assert s[..k] == a && s[k + 1..] == b;
      assert parts == [a] + parts[1..];
    }
  }

  lemma {:induction false} SplitParts(s: string, c: char)
    ensures Join(Split(s, c), c) == s
    ensures forall i :: 0 <= i < |Split(s, c)| ==> c !in Split(s, c)[i]
    decreases |s|
  {
    var k := IndexOf(s, c);
    if k.Some? {
      SplitParts(s[k.value + 1..], c);
      assert s == s[..k.value] + [c] + s[k.value + 1..];
      assert Split(s, c)[1..] == Split(s[k.value + 1..], c);
    }
  }

  /** Lines, each followed by a newline. */
  function Lines(parts: seq<string>): string {
    if parts == [] then [] else parts[0] + ['\n'] + Lines(parts[1..])
  }

  lemma {:induction false} LinesJoin(parts: seq<string>)
    requires parts != []
    ensures Lines(parts) == Join(parts, '\n') + ['\n']
    decreases |parts|
  {
    if |parts| == 1 {
      assert parts[1..] == [];
    } else {
      LinesJoin(parts[1..]);
    }
  }

  lemma {:induction false} LinesConcat(a: seq<string>, b: seq<string>)
    ensures Lines(a + b) == Lines(a) + Lines(b)
    decreases |a|
  {
    if a == [] {
      assert a + b == b;
    } else {
      assert (a + b)[1..] == a[1..] + b;
      LinesConcat(a[1..], b);
    }
  }

  /* ---- decimal numbers ---- */

  function DigitChar(d: nat): char
    requires d < 10
  {
    '0' + d as char
  }

  function Decimal(n: nat): (s: string)
    ensures s != [] && forall i :: 0 <= i < |s| ==> '0' <= s[i] <= '9'
  {
    if n < 10 then [DigitChar(n)] else Decimal(n / 10) + [DigitChar(n % 10)]
  }

  predicate AllDigits(s: string) {
    forall i :: 0 <= i < |s| ==> '0' <= s[i] <= '9'
  }

  function DecimalValue(s: string): nat
    requires AllDigits(s)
  {
    if s == [] then 0
    else 10 * DecimalValue(s[..|s| - 1]) + (s[|s| - 1] as int - '0' as int)
  }

  /** `str::parse::<u64>`: an optional plus sign, then digits whose value fits. */
  function ParseU64(s: string): Option<u64> {
    var t := if s != [] && s[0] == '+' then s[1..] else s;
    if t == [] || !AllDigits(t) || DecimalValue(t) > U64_MAX then None else Some(DecimalValue(t))
  }

  lemma {:induction false} DecimalRoundTrip(n: nat)
    ensures AllDigits(Decimal(n)) && DecimalValue(Decimal(n)) == n
  {
    var s := Decimal(n);
    if n < 10 {
      assert s[..|s| - 1] == [];
    } else {
      DecimalRoundTrip(n / 10);
      assert s[..|s| - 1] == Decimal(n / 10);
    }
  }

  /** Printing a 64-bit number and parsing it gives the number back. */
  lemma U64RoundTrip(n: u64)
    ensures ParseU64(Decimal(n)) == Some(n)
  {
    DecimalRoundTrip(n);
    assert Decimal(n)[0] != '+';
  }

  function Noughts(k: nat): (s: string)
    ensures |s| == k
  {
    seq(k, _ => '0')
  }

  /** Digits are the decimal of their value with noughts in front. */
  lemma {:induction false} DigitsForm(t: string) returns (k: nat)
    requires t != [] && AllDigits(t)
    ensures t == Noughts(k) + Decimal(DecimalValue(t))
    decreases |t|
  {
    var front, last := t[..|t| - 1], t[|t| - 1];
    var d := last as int - '0' as int;
    assert DigitChar(d) == last;
    assert t == front + [last];
    if front == [] {
      k := 0;
      assert DecimalValue(t) == d;
    } else {
      k := DigitsForm(front);
      var v := DecimalValue(front);
      assert DecimalValue(t) == 10 * v + d && (10 * v + d) / 10 == v && (10 * v + d) % 10 == d;
      if v == 0 {
        assert Decimal(0) == ['0'];
        assert t == Noughts(k + 1) + [last];
        k := k + 1;
      } else {
        assert Decimal(DecimalValue(t)) == Decimal(v) + [last];
      }
    }
  }

  lemma {:induction false} NoughtsAway(k: nat, s: string)
    requires AllDigits(s)
    ensures AllDigits(Noughts(k) + s) && DecimalValue(Noughts(k) + s) == DecimalValue(s)
    decreases |s|
  {
    var t := Noughts(k) + s;
    if s != [] {
      NoughtsAway(k, s[..|s| - 1]);
      assert t[..|t| - 1] == Noughts(k) + s[..|s| - 1];
    } else {
      assert t == Noughts(k);
      AllNoughts(k);
    }
  }

  lemma {:induction false} AllNoughts(k: nat)
    ensures AllDigits(Noughts(k)) && DecimalValue(Noughts(k)) == 0
    decreases k
  {
    if k > 0 {
      AllNoughts(k - 1);
      assert Noughts(k)[..k - 1] == Noughts(k - 1);
    }
  }

  /** The text is the number in decimal, perhaps after a plus sign and noughts. */
  predicate Denotes(s: string, sign: string, k: nat, n: nat) {
    (sign == "" || sign == "+") && s == sign + (Noughts(k) + Decimal(n))
  }

  lemma DenotedParsed(s: string, sign: string, k: nat, n: nat)
    requires Denotes(s, sign, k, n) && n <= U64_MAX
    ensures ParseU64(s) == Some(n)
  {
    hide Decimal, DecimalValue;
    var t := Noughts(k) + Decimal(n);
    DecimalRoundTrip(n);
    NoughtsAway(k, Decimal(n));
    assert t[0] != '+';
    assert s[|sign|..] == t;
  }

  lemma ParsedDenotes(s: string) returns (sign: string, k: nat)
    requires ParseU64(s).Some?
    ensures Denotes(s, sign, k, ParseU64(s).value)
  {
    hide Decimal, DecimalValue;
    sign := if s != [] && s[0] == '+' then "+" else "";
    k := DigitsForm(s[|sign|..]);
    assert s == sign + s[|sign|..];
  }

  /** Exactly the texts that denote a 64-bit number are parsed, and to that number. */
  lemma U64Exact(s: string, n: nat)
    ensures ParseU64(s) == Some(n) <==> n <= U64_MAX && exists sign, k :: Denotes(s, sign, k, n)
  {
    hide ParseU64, Denotes;
    if ParseU64(s) == Some(n) {
      var sign, k := ParsedDenotes(s);
    }
    if n <= U64_MAX && exists sign, k :: Denotes(s, sign, k, n) {
      var sign, k :| Denotes(s, sign, k, n);
      DenotedParsed(s, sign, k, n);
    }
  }

  lemma DecimalInjective(m: nat, n: nat)
    requires Decimal(m) == Decimal(n)
    ensures m == n
  {
    DecimalRoundTrip(m);
    DecimalRoundTrip(n);
  }

  /* ---- length in bytes ---- */

  /** The number of bytes of a character in UTF-8. */
  function CharBytes(c: char): nat {
    if c as int < 0x80 then 1 else if c as int < 0x800 then 2 else if c as int < 0x1_0000 then 3 else 4
  }

  function ByteLength(s: string): nat {
    if s == [] then 0 else ByteLength(s[..|s| - 1]) + CharBytes(s[|s| - 1])
  }

  lemma {:induction false} ByteLengthConcat(a: string, b: string)
    ensures ByteLength(a + b) == ByteLength(a) + ByteLength(b)
    decreases |b|
  {
    if b == [] {
      assert a + b == a;
    } else {
      ByteLengthConcat(a, b[..|b| - 1]);
      assert (a + b)[..|a + b| - 1] == a + b[..|b| - 1];
    }
  }

  /** A character takes as many bytes as UTF-8 needs for the bits of its code point. */
  lemma CharBytesExact(c: char)
    ensures 1 <= CharBytes(c) <= 4
    ensures c as int < Capacity(CharBytes(c))
    ensures forall k :: 1 <= k < CharBytes(c) ==> Capacity(k) <= c as int
  {
  }

  /** How many code points fit into one to four bytes: 7, 11, 16 and 21 bits. */
  function Capacity(bytes: nat): nat {
    match bytes
    case 1 => 128
    case 2 => 32 * 64
    case 3 => 16 * 64 * 64
    case _ => 8 * 64 * 64 * 64
  }
}
