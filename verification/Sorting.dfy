/** Sorting strings, and dropping the repeats of a sorted sequence. */
module Sorting {
  import opened Text

  predicate Sorted(s: seq<string>) {
    forall i, j :: 0 <= i < j < |s| ==> !Before(s[j], s[i])
  }

  predicate Ascending(s: seq<string>) {
    forall i, j :: 0 <= i < j < |s| ==> Before(s[i], s[j])
  }

  ghost predicate SameElements(a: seq<string>, b: seq<string>) {
    forall x: string :: x in a <==> x in b
  }

  function Insert(x: string, s: seq<string>): seq<string> {
    if s == [] || !Before(s[0], x) then [x] + s else [s[0]] + Insert(x, s[1..])
  }

  function Sort(s: seq<string>): seq<string> {
    if s == [] then [] else Insert(s[0], Sort(s[1..]))
  }

  /** Drop every element equal to the one before it. */
  function Dedup(s: seq<string>): seq<string> {
    if |s| <= 1 then s
    else if s[0] == s[1] then Dedup(s[1..])
    else [s[0]] + Dedup(s[1..])
  }

  function SortDedup(s: seq<string>): seq<string> {
    Dedup(Sort(s))
  }

  /** Not being greater is transitive. */
  lemma NotAfter(a: string, b: string, c: string)
    requires !Before(b, a) && !Before(c, b)
    ensures !Before(c, a)
  {
    hide Before;
    BeforeTotal(a, b);
    BeforeTotal(b, c);
    if Before(c, a) {
      if a != b { BeforeTransitive(c, a, b); }
    }
  }

  lemma HeadSmallest(x: string, s: seq<string>)
    requires Sorted(s) && (s != [] ==> !Before(s[0], x))
    ensures Sorted([x] + s)
  {
    hide Before;
    var t := [x] + s;
    forall i, j | 0 <= i < j < |t| ensures !Before(t[j], t[i]) {
      if i == 0 {
        if j > 1 { NotAfter(x, s[0], s[j - 1]); }
      } else {
        assert t[i] == s[i - 1] && t[j] == s[j - 1];
      }
    }
  }

  lemma SmallestFirst(s: seq<string>, x: string)
    requires Sorted(s) && x in s
    ensures s != [] && !Before(x, s[0])
  {
    BeforeStrict(s[0], s[0]);
  }

  lemma {:induction false} InsertSound(x: string, s: seq<string>)
    requires Sorted(s)
    ensures Sorted(Insert(x, s)) && multiset(Insert(x, s)) == multiset(s) + multiset{x}
    decreases |s|
  {
    hide Before;
    if s == [] || !Before(s[0], x) {
      HeadSmallest(x, s);
    } else {
      var rest := Insert(x, s[1..]);
      InsertSound(x, s[1..]);
      assert s == [s[0]] + s[1..];
      assert rest[0] in multiset(rest);
      BeforeStrict(s[0], x);
      HeadSmallest(s[0], rest);
    }
  }

  lemma {:induction false} SortSound(s: seq<string>)
    ensures Sorted(Sort(s)) && multiset(Sort(s)) == multiset(s)
    decreases |s|
  {
    if s != [] {
      SortSound(s[1..]);
      InsertSound(s[0], Sort(s[1..]));
      assert s == [s[0]] + s[1..];
    }
  }

  lemma SameHead(a: seq<string>, b: seq<string>)
    requires Sorted(a) && Sorted(b) && a != [] && b != [] && multiset(a) == multiset(b)
    ensures a[0] == b[0] && multiset(a[1..]) == multiset(b[1..])
  {
    assert b[0] in multiset(b) && a[0] in multiset(a);
    SmallestFirst(a, b[0]);
    SmallestFirst(b, a[0]);
    hide Sorted, Before;
    BeforeTotal(a[0], b[0]);
    assert a == [a[0]] + a[1..] && b == [b[0]] + b[1..];
    assert multiset(a[1..]) == multiset(a) - multiset{a[0]};
  }

  /** A sorted sequence is determined by how often each element occurs. */
  lemma {:induction false} SortedUnique(a: seq<string>, b: seq<string>)
    requires Sorted(a) && Sorted(b) && multiset(a) == multiset(b)
    ensures a == b
    decreases |a|
  {
    assert |multiset(a)| == |a| && |multiset(b)| == |b|;
    if a != [] {
      SameHead(a, b);
      SortedUnique(a[1..], b[1..]);
      assert a == [a[0]] + a[1..] && b == [b[0]] + b[1..];
    }
  }

  lemma {:induction false} DedupSound(s: seq<string>)
    requires Sorted(s)
    ensures Ascending(Dedup(s)) && SameElements(Dedup(s), s)
    ensures s != [] ==> Dedup(s) != [] && Dedup(s)[0] == s[0]
    decreases |s|
  {
    hide Before;
    if |s| > 1 {
      var rest := Dedup(s[1..]);
      DedupSound(s[1..]);
      assert s == [s[0]] + s[1..];
      if s[0] != s[1] {
        BeforeTotal(s[0], s[1]);
        forall j | 0 <= j < |rest| ensures Before(s[0], rest[j]) {
          if j > 0 { BeforeTransitive(s[0], rest[0], rest[j]); }
        }
      }
    }
  }

  lemma HasFirst(s: seq<string>)
    ensures s != [] ==> s[0] in s
  {
  }

  lemma TailElements(s: seq<string>, x: string)
    requires Ascending(s) && s != []
    ensures x in s[1..] <==> x in s && x != s[0]
  {
    hide Before;
    BeforeStrict(s[0], s[0]);
    assert s == [s[0]] + s[1..];
  }

  /** An ascending sequence is determined by the set of its elements. */
  lemma {:induction false} AscendingUnique(a: seq<string>, b: seq<string>)
    requires Ascending(a) && Ascending(b) && SameElements(a, b)
    ensures a == b
    decreases |a|
  {
    hide Before;
    if a == [] {
      HasFirst(b);
    } else {
      assert a[0] in a;
      assert b[0] in b;
      BeforeStrict(a[0], b[0]);
      assert a[0] == b[0];
      forall x: string ensures x in a[1..] <==> x in b[1..] {
        TailElements(a, x);
        TailElements(b, x);
      }
      AscendingUnique(a[1..], b[1..]);
    }
  }

  lemma SortDedupSound(s: seq<string>)
    ensures Ascending(SortDedup(s)) && SameElements(SortDedup(s), s)
  {
    hide Before, Ascending, Sorted, Sort, Dedup;
    SortSound(s);
    DedupSound(Sort(s));
    forall x: string ensures x in Sort(s) <==> x in s {
      assert x in Sort(s) <==> x in multiset(Sort(s));
      assert x in s <==> x in multiset(s);
    }
  }

  /** Neither the order nor the number of times an element is given matters. */
  lemma OrderAndRepeatsIrrelevant(a: seq<string>, b: seq<string>)
    requires SameElements(a, b)
    ensures SortDedup(a) == SortDedup(b)
  {
    SortDedupSound(a);
    SortDedupSound(b);
    hide SortDedup, Ascending;
    AscendingUnique(SortDedup(a), SortDedup(b));
  }

  lemma AscendingKept(s: seq<string>)
    requires Ascending(s)
    ensures SortDedup(s) == s
  {
    SortDedupSound(s);
    hide SortDedup, Ascending;
    AscendingUnique(SortDedup(s), s);
  }
}
