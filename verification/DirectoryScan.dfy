/** The bounded scan of a directory: the first names in order, holding no more than asked for. */
module DirectoryScan {
  import opened Options
  import opened Sorting
  import opened Text

  /** One step of reading the directory. */
  datatype Entry = Name(name: string) | Unreadable(error: string)

  datatype Outcome = Names(names: seq<string>) | Stopped | Failed(error: string)

  /** Nothing failed and nothing asked to stop before this entry. */
  ghost predicate Clear(entries: seq<Entry>, stopping: nat -> bool, i: nat)
    requires i <= |entries|
  {
    forall j: nat :: j < i ==> entries[j].Name? && !stopping(j)
  }

  function NamesOf(entries: seq<Entry>): (names: seq<string>)
    requires forall i :: 0 <= i < |entries| ==> entries[i].Name?
    ensures |names| == |entries| && forall i :: 0 <= i < |names| ==> names[i] == entries[i].name
  {
    seq(|entries|, i requires 0 <= i < |entries| => entries[i].name)
  }

  function Min(a: nat, b: nat): nat {
    if a < b then a else b
  }

  /** The first names of the sorted whole. */
  function FirstOf(names: seq<string>, limit: nat): (first: seq<string>)
    ensures |first| == Min(limit, |names|)
  {
    SortLength(names);
    Sort(names)[..Min(limit, |names|)]
  }

  lemma SortLength(names: seq<string>)
    ensures |Sort(names)| == |names|
  {
    SortSound(names);
    assert |multiset(Sort(names))| == |Sort(names)| && |multiset(names)| == |names|;
  }

  ghost predicate Largest(x: string, names: multiset<string>) {
    x in names && forall y :: y in names ==> !Before(x, y)
  }

  /** No discarded name comes before a selected one. */
  ghost predicate Ahead(selected: multiset<string>, discarded: multiset<string>) {
    forall a, b :: a in selected && b in discarded ==> !Before(b, a)
  }

  ghost function SomeOrder(names: multiset<string>): (s: seq<string>)
    ensures multiset(s) == names
    decreases |names|
  {
    if names == multiset{} then []
    else
      var x :| x in names;
      [x] + SomeOrder(names - multiset{x})
  }

  lemma SortedConcat(a: seq<string>, b: seq<string>)
    requires Sorted(a) && Sorted(b) && Ahead(multiset(a), multiset(b))
    ensures Sorted(a + b)
  {
    hide Before;
    var s := a + b;
    forall i, j | 0 <= i < j < |s| ensures !Before(s[j], s[i]) {
      if i < |a| <= j {
        assert s[i] == a[i] && a[i] in multiset(a);
        assert s[j] == b[j - |a|] && b[j - |a|] in multiset(b);
      }
    }
  }

  /** Selected names that are all ahead of the others are the front of the sorted whole. */
  lemma SelectedIsFront(names: seq<string>, selected: seq<string>, discarded: multiset<string>)
    requires multiset(selected) + discarded == multiset(names) && Ahead(multiset(selected), discarded)
    ensures |selected| <= |names| && Sort(selected) == FirstOf(names, |selected|)
  {
    hide Sort, Sorted, Ahead, Before;
    var rest := SomeOrder(discarded);
    SortSound(selected);
    SortSound(rest);
    SortSound(names);
    SortLength(names);
    SortLength(selected);
    var whole := Sort(selected) + Sort(rest);
    assert multiset(Sort(rest)) == discarded;
    SortedConcat(Sort(selected), Sort(rest));
    SortedUnique(whole, Sort(names));
    assert |whole| == |names|;
  }

  lemma HasLargest(names: multiset<string>) returns (x: string)
    requires names != multiset{}
    ensures Largest(x, names)
    decreases |names|
  {
    hide Before;
    x :| x in names;
    var rest := names - multiset{x};
    if rest == multiset{} {
      forall y | y in names ensures !Before(x, y) {
        assert y == x || y in rest;
        BeforeStrict(x, x);
      }
    } else {
      var z := HasLargest(rest);
      forall y | y in names ensures y == x || !Before(z, y) { assert y == x || y in rest; }
      if Before(z, x) {
        forall y | y in names ensures !Before(x, y) {
          if y == x { BeforeStrict(x, x); } else if Before(x, y) { BeforeTransitive(z, x, y); }
        }
      } else {
        x := z;
      }
    }
  }

  lemma Replaced(selected: multiset<string>, discarded: multiset<string>, largest: string, x: string)
    requires Ahead(selected, discarded) && Largest(largest, selected) && Before(x, largest)
    ensures Ahead(selected - multiset{largest} + multiset{x}, discarded + multiset{largest})
  {
    hide Before;
    forall a, b | a in selected - multiset{largest} + multiset{x} && b in discarded + multiset{largest}
      ensures !Before(b, a)
    {
      BeforeStrict(x, largest);
      if a == x && b in discarded && Before(b, x) { BeforeTransitive(b, x, largest); }
    }
  }

  lemma Skipped(selected: multiset<string>, discarded: multiset<string>, x: string)
    requires Ahead(selected, discarded)
    requires selected == multiset{} || exists largest :: Largest(largest, selected) && !Before(x, largest)
    ensures Ahead(selected, discarded + multiset{x})
  {
    hide Before;
    if selected != multiset{} {
      var largest :| Largest(largest, selected) && !Before(x, largest);
      forall a | a in selected ensures !Before(x, a) { NotAfter(a, largest, x); }
    }
  }

  method IntoNames(selected: multiset<string>) returns (names: seq<string>)
    ensures multiset(names) == selected
  {
    names := [];
    var left := selected;
    while left != multiset{}
      invariant multiset(names) + left == selected
      decreases |left|
    {
      var x :| x in left;
      names, left := names + [x], left - multiset{x};
    }
  }

  /** A max-heap of names, which remembers the most it ever held. */
  class NameHeap {
    var names: multiset<string>
    ghost var peak: nat

    ghost predicate Valid()
      reads this
    {
      |names| <= peak
    }

    constructor ()
      ensures Valid() && names == multiset{} && peak == 0
    {
      names, peak := multiset{}, 0;
    }

    method Push(name: string)
      requires Valid()
      modifies this
      ensures Valid() && names == old(names) + multiset{name}
      ensures peak == if |names| > old(peak) then |names| else old(peak)
    {
      names := names + multiset{name};
      peak := if |names| > peak then |names| else peak;
    }

    method Peek() returns (largest: Option<string>)
      ensures largest.None? <==> names == multiset{}
      ensures largest.Some? ==> Largest(largest.value, names)
    {
      if names == multiset{} { return None; }
      ghost var some := HasLargest(names);
      var x :| x in names && forall y :: y in names ==> !Before(x, y);
      return Some(x);
    }

    method Pop() returns (largest: string)
      requires Valid() && names != multiset{}
      modifies this
      ensures Valid() && Largest(largest, old(names)) && names == old(names) - multiset{largest} && peak == old(peak)
    {
      var top := Peek();
      largest := top.value;
      names := names - multiset{largest};
    }
  }

  /** The entry at i cannot be read, and is reached. */
  ghost predicate FailsAt(entries: seq<Entry>, stopping: nat -> bool, i: nat) {
    i < |entries| && Clear(entries, stopping, i) && !stopping(i) && entries[i].Unreadable?
  }

  /** How a scan ends: with the first names of the whole, or stopped, or at an entry that cannot be read. */
  ghost predicate Ends(r: Outcome, entries: seq<Entry>, limit: nat, stopping: nat -> bool) {
    && (r.Names? <==> Clear(entries, stopping, |entries|) && !stopping(|entries|))
    && (r.Names? ==>
          && (forall i :: 0 <= i < |entries| ==> entries[i].Name?)
          && r.names == FirstOf(NamesOf(entries), limit))
    && (r.Stopped? <==> exists i: nat :: i <= |entries| && Clear(entries, stopping, i) && stopping(i))
    && (r.Failed? <==> exists i: nat :: FailsAt(entries, stopping, i))
    && (r.Failed? ==> exists i: nat :: FailsAt(entries, stopping, i) && entries[i].error == r.error)
  }

  /** Read the whole directory, keeping only the smallest names. */
  method BoundedDirectoryNames(entries: seq<Entry>, limit: nat, stopping: nat -> bool) returns (r: Outcome)
    ensures Ends(r, entries, limit, stopping)
  {
    hide Ends;
    var selected := new NameHeap();
    r := ScanInto(selected, entries, limit, stopping);
  }

  /** The same into an empty heap, which never holds more names than asked for, not even for a moment. */
  method ScanInto(selected: NameHeap, entries: seq<Entry>, limit: nat, stopping: nat -> bool) returns (r: Outcome)
    requires selected.Valid() && selected.names == multiset{} && selected.peak == 0
    modifies selected
    ensures selected.peak <= limit
    ensures r.Names? ==> selected.names == multiset(r.names)
    ensures Ends(r, entries, limit, stopping)
  {
    hide Before, Ahead, FirstOf, Ends, Sort;
    ghost var discarded: multiset<string> := multiset{};
    ghost var read: seq<string> := [];
    var i: nat := 0;
    AheadOfNothing(selected.names);
    assert Kept(read, selected.names, discarded, limit);
    hide Kept;
    while true
      invariant i <= |entries| && Clear(entries, stopping, i)
      invariant read == NamesOf(entries[..i])
      invariant selected.Valid() && selected.peak <= limit
      invariant Kept(read, selected.names, discarded, limit)
      decreases |entries| - i
    {
      if stopping(i) {
        StoppedEnds(entries, limit, stopping, i);
        return Stopped;
      }
      if i == |entries| { break; }
      if entries[i].Unreadable? {
        FailedEnds(entries, limit, stopping, i);
        return Failed(entries[i].error);
      }
      NextName(entries, i);
      discarded := Take(selected, entries[i].name, limit, read, discarded);
      read := read + [entries[i].name];
      i := i + 1;
    }
    assert entries[..|entries|] == entries;
    var names := IntoNames(selected.names);
    FinallyFront(read, names, selected.names, discarded, limit);
    SortSound(names);
    NamesEnds(entries, limit, stopping);
    return Names(Sort(names));
  }

  lemma NextName(entries: seq<Entry>, i: nat)
    requires i < |entries| && forall j :: 0 <= j <= i ==> entries[j].Name?
    ensures NamesOf(entries[..i + 1]) == NamesOf(entries[..i]) + [entries[i].name]
  {
  }

  lemma StoppedEnds(entries: seq<Entry>, limit: nat, stopping: nat -> bool, i: nat)
    requires i <= |entries| && Clear(entries, stopping, i) && stopping(i)
    ensures Ends(Stopped, entries, limit, stopping)
  {
  }

  lemma FailedEnds(entries: seq<Entry>, limit: nat, stopping: nat -> bool, i: nat)
    requires FailsAt(entries, stopping, i)
    ensures Ends(Failed(entries[i].error), entries, limit, stopping)
  {
  }

  lemma NamesEnds(entries: seq<Entry>, limit: nat, stopping: nat -> bool)
    requires Clear(entries, stopping, |entries|) && !stopping(|entries|)
    ensures forall i :: 0 <= i < |entries| ==> entries[i].Name?
    ensures Ends(Names(FirstOf(NamesOf(entries), limit)), entries, limit, stopping)
  {
    hide FirstOf;
  }

  /** One more name: held while there is room, or in place of a larger one. */
  method Take(selected: NameHeap, name: string, limit: nat, ghost read: seq<string>, ghost discarded: multiset<string>)
    returns (ghost dropped: multiset<string>)
    requires selected.Valid() && selected.peak <= limit && Kept(read, selected.names, discarded, limit)
    modifies selected
    ensures selected.Valid() && selected.peak <= limit && Kept(read + [name], selected.names, dropped, limit)
  {
    hide Before, Ahead, Kept;
    KeptBound(read, selected.names, discarded, limit);
    if |selected.names| < limit {
      KeptAll(read, selected.names, discarded, limit, name);
      selected.Push(name);
      return discarded;
    }
    var top := selected.Peek();
    if top.Some? && Before(name, top.value) {
      KeptSmaller(read, selected.names, discarded, limit, name, top.value);
      ghost var before := selected.names;
      var largest := selected.Pop();
      BeforeTotal(largest, top.value);
      selected.Push(name);
      return discarded + multiset{largest};
    }
    KeptNone(read, selected.names, discarded, limit, name);
    return discarded + multiset{name};
  }

  lemma KeptBound(read: seq<string>, selected: multiset<string>, discarded: multiset<string>, limit: nat)
    requires Kept(read, selected, discarded, limit)
    ensures |selected| <= limit
  {
  }

  /** What the scan keeps: never more than asked for, and the rest only once that many are held. */
  ghost predicate Kept(read: seq<string>, selected: multiset<string>, discarded: multiset<string>, limit: nat) {
    && selected + discarded == multiset(read)
    && Ahead(selected, discarded)
    && |selected| <= limit
    && (discarded != multiset{} ==> |selected| == limit)
  }

  lemma AheadOfNothing(selected: multiset<string>)
    ensures Ahead(selected, multiset{})
  {
  }

  lemma KeptAll(read: seq<string>, selected: multiset<string>, discarded: multiset<string>, limit: nat, name: string)
    requires Kept(read, selected, discarded, limit) && |selected| < limit
    ensures Kept(read + [name], selected + multiset{name}, discarded, limit)
  {
    hide Before;
  }

  lemma KeptNone(read: seq<string>, selected: multiset<string>, discarded: multiset<string>, limit: nat, name: string)
    requires Kept(read, selected, discarded, limit) && |selected| == limit
    requires selected == multiset{} || exists largest :: Largest(largest, selected) && !Before(name, largest)
    ensures Kept(read + [name], selected, discarded + multiset{name}, limit)
  {
    hide Before, Largest, Ahead;
    Skipped(selected, discarded, name);
  }

  lemma KeptSmaller(read: seq<string>, selected: multiset<string>, discarded: multiset<string>, limit: nat,
                    name: string, largest: string)
    requires Kept(read, selected, discarded, limit) && |selected| == limit
    requires Largest(largest, selected) && Before(name, largest)
    ensures Kept(read + [name], selected - multiset{largest} + multiset{name}, discarded + multiset{largest}, limit)
  {
    Replaced(selected, discarded, largest, name);
    assert largest in selected;
    hide Before, Largest, Ahead;
  }

  lemma FinallyFront(read: seq<string>, names: seq<string>, selected: multiset<string>, discarded: multiset<string>,
                     limit: nat)
    requires Kept(read, selected, discarded, limit) && multiset(names) == selected
    ensures Sort(names) == FirstOf(read, limit)
  {
    hide Before, Ahead, Sort, FirstOf;
    SelectedIsFront(read, names, discarded);
    assert |names| == |multiset(names)|;
    assert |read| == |multiset(read)|;
    assert |names| == Min(limit, |read|);
    SameFront(read, |names|, limit);
  }

  lemma SameFront(read: seq<string>, k: nat, limit: nat)
    requires k == Min(limit, |read|)
    ensures FirstOf(read, k) == FirstOf(read, limit)
  {
  }
}
