/** What makes a directory entry's name valid: below any directory it leads one step down, by itself. */
module NarNames {
  import opened NarFormat

  const SLASH: int := 47
  const DOT: bytes := [46]
  const DOT_DOT: bytes := [46, 46]

  /** The parts of a path between slashes. */
  function Parts(path: bytes): (parts: seq<bytes>)
    ensures parts != [] && forall i :: 0 <= i < |parts| ==> SLASH !in parts[i]
  {
    if path == [] then [[]]
    else
      var rest := Parts(path[1..]);
      if path[0] == SLASH then [[]] + rest else [[path[0]] + rest[0]] + rest[1..]
  }

  /** One step along a path: nothing and `.` stay, `..` goes up, anything else goes down. */
  function Follow(from: seq<bytes>, part: bytes): seq<bytes> {
    if part == [] || part == DOT then from
    else if part == DOT_DOT then if from == [] then [] else from[..|from| - 1]
    else from + [part]
  }

  /** Where a path leads from a directory. */
  function Resolve(from: seq<bytes>, parts: seq<bytes>): seq<bytes>
    decreases |parts|
  {
    if parts == [] then from else Resolve(Follow(from, parts[0]), parts[1..])
  }

  lemma {:induction false} OnePart(path: bytes)
    requires SLASH !in path
    ensures Parts(path) == [path]
    decreases |path|
  {
    if path != [] {
      OnePart(path[1..]);
      assert [path[0]] + path[1..] == path;
    }
  }

  lemma {:induction false} StaysPlain(from: seq<bytes>, parts: seq<bytes>)
    requires forall i :: 0 <= i < |from| ==> SLASH !in from[i]
    requires forall i :: 0 <= i < |parts| ==> SLASH !in parts[i]
    ensures forall i :: 0 <= i < |Resolve(from, parts)| ==> SLASH !in Resolve(from, parts)[i]
    decreases |parts|
  {
    if parts != [] { StaysPlain(Follow(from, parts[0]), parts[1..]); }
  }

  /** The name leads from every directory to its own child of that name. */
  ghost predicate LeadsToItself(name: bytes) {
    forall from: seq<bytes> :: Resolve(from, Parts(name)) == from + [name]
  }

  /** A name is valid exactly when it holds no NUL and leads to itself: it can name neither the directory, nor its
      parent, nor anything further down. */
  lemma NameExact(name: bytes)
    ensures ValidName(name) <==> 0 !in name && LeadsToItself(name)
  {
    assert Ascii(".") == DOT && Ascii("..") == DOT_DOT;
    if SLASH in name {
      StaysPlain([], Parts(name));
      var child: seq<bytes> := [] + [name];
      assert SLASH in child[0];
      assert Resolve([], Parts(name)) != child;
    } else {
      OnePart(name);
      forall from: seq<bytes> ensures Resolve(from, Parts(name)) == Follow(from, name) {
        assert [name][1..] == [];
      }
      if name == [] || name == DOT || name == DOT_DOT {
        assert |Follow([], name)| == 0;
        assert Resolve([], Parts(name)) != [] + [name];
      }
    }
  }
}
