/** The decoder's grammar is exact: it accepts just the serializations of canonical trees that
    stay within the limits, and it reports the traversal of the tree. */
module NarDecoding {
  import opened NarFormat
  import opened NarGrammar
  import opened NarTokens

  /** The same tree with every file body delivered in pieces of CHUNK_SIZE. */
  function Recut(t: Node): Node {
    match t
    case Directory(es) => Directory(RecutEntries(es))
    case Regular(x, chunks) => Regular(x, Cut(Concat(chunks)))
    case Symlink(_) => t
  }

  function RecutEntries(es: Entries): Entries {
    match es
    case NoEntries => NoEntries
    case Entry(name, node, rest) => Entry(name, Recut(node), RecutEntries(rest))
  }

  /* ---- closed form of the state after a node ---- */

  function After(s: State, t: Node, depth: nat): State {
    s.(
    raw := s.raw + |Serialize(t)|,
    work := Saturate(s.work + Work(t)),
    entries := s.entries + EntryCount(t),
    files := Saturate(s.files + FileCount(t)),
    symlinks := Saturate(s.symlinks + LinkCount(t)),
    events := s.events + Trace(t, depth, s.raw))
  }

  function AfterEntries(s: State, es: Entries, depth: nat): State {
    s.(
    raw := s.raw + |SerializeEntries(es)| + |Str(CLOSE)|,
    work := Saturate(s.work + Works(es)),
    entries := s.entries + EntryCounts(es),
    files := Saturate(s.files + FileCounts(es)),
    symlinks := Saturate(s.symlinks + LinkCounts(es)),
    events := s.events + (TraceOf(es, depth + 1, s.raw) + [Plain(EndDirectory)]))
  }

  function AfterName(s: State, name: bytes): State {
    s.Skip(|EntryHead(name)|).Emit(Plain(EntryNamed(name))).(
    work := Saturate(s.work + 1), entries := s.entries + 1)
  }

  function AfterOpening(s: State, depth: nat): State {
    s.Skip(|Head(DirectoryKind)|).Emit(DirectoryAt(depth)).(work := Saturate(s.work + 1))
  }

  /** What a tree needs from the limits when its node starts in state s. */
  ghost predicate Affordable(s: State, t: Node, depth: nat) {
    && Allowed(t, s.limits, depth)
    && s.entries + EntryCount(t) <= s.limits.maxEntries
    && Saturate(s.work + Work(t)) <= s.limits.maxWork
    && Reads(s, Serialize(t))
  }

  ghost predicate AffordableEntries(s: State, es: Entries, depth: nat, previous: bytes) {
    && AllowedEntries(es, s.limits, depth + 1, previous)
    && s.entries + EntryCounts(es) <= s.limits.maxEntries
    && Saturate(s.work + Works(es)) <= s.limits.maxWork
    && Reads(s, SerializeEntries(es) + Str(CLOSE))
  }

  /* ---- leaves and openings ---- */

  lemma FileShape(s: State, x: bool, chunks: seq<bytes>, depth: nat)
    ensures AfterFile(s.(work := Saturate(s.work + 1)).Skip(|Head(RegularKind)|), x, Concat(chunks))
         == After(s, Regular(x, chunks), depth)
  {
    hide Concat, Head, FileHead, Str, Cut, PlainAll, ChunkEvents;
  }

  lemma LinkShape(s: State, target: bytes, depth: nat)
    ensures AfterLink(s.(work := Saturate(s.work + 1)).Skip(|Head(SymlinkKind)|), target)
         == After(s, Symlink(target), depth)
  {
    hide Head, Str;
  }

  lemma FileLeaf(s: State, x: bool, chunks: seq<bytes>, depth: nat)
    requires Affordable(s, Regular(x, chunks), depth)
    ensures StartNode(s, depth) == Ok(Finished(Recut(Regular(x, chunks))), After(s, Regular(x, chunks), depth))
  {
    hide NodeKind, RegularNode, SymlinkNode, Within, Str, Head, After, Concat, Cut, FileHead, FileTail, Orderly, Named;
    var s0 := s.(work := Saturate(s.work + 1));
    FileReads(s, x, chunks);
    KindExact(s0, RegularKind);
    FileComplete(s0.Skip(|Head(RegularKind)|), x, Concat(chunks));
    FileShape(s, x, chunks, depth);
  }

  lemma FileReads(s: State, x: bool, chunks: seq<bytes>)
    requires Reads(s, Serialize(Regular(x, chunks)))
    ensures var s0 := s.(work := Saturate(s.work + 1));
            Reads(s0, Head(RegularKind)) && Reads(s0.Skip(|Head(RegularKind)|), FileTail(x, Concat(chunks)))
  {
    hide Within, Str, Head, Concat, FileHead;
    var s0 := s.(work := Saturate(s.work + 1));
    ReadsConcat(s0, Head(RegularKind), FileTail(x, Concat(chunks)));
  }

  lemma LinkLeaf(s: State, target: bytes, depth: nat)
    requires Affordable(s, Symlink(target), depth)
    ensures StartNode(s, depth) == Ok(Finished(Symlink(target)), After(s, Symlink(target), depth))
  {
    hide NodeKind, RegularNode, SymlinkNode, Within, Str, Head, After, Orderly, Named;
    var s0 := s.(work := Saturate(s.work + 1));
    KindExact(s0, SymlinkKind);
    ReadsConcat(s0, Head(SymlinkKind), LinkTail(target));
    LinkComplete(s0.Skip(|Head(SymlinkKind)|), target);
    LinkShape(s, target, depth);
  }

  lemma LeafComplete(s: State, t: Node, depth: nat)
    requires !t.Directory? && Affordable(s, t, depth)
    ensures StartNode(s, depth) == Ok(Finished(Recut(t)), After(s, t, depth))
  {
    hide StartNode, Affordable, After;
    match t
    case Regular(x, chunks) => FileLeaf(s, x, chunks, depth);
    case Symlink(target) => LinkLeaf(s, target, depth);
  }

  lemma OpeningExact(s: State, depth: nat)
    ensures StartNode(s, depth).Ok? && StartNode(s, depth).value == Opened <==>
            && depth <= s.limits.maxDepth && Saturate(s.work + 1) <= s.limits.maxWork
            && Reads(s, Head(DirectoryKind))
    ensures StartNode(s, depth).Ok? && StartNode(s, depth).value == Opened ==>
            StartNode(s, depth).st == AfterOpening(s, depth)
  {
    hide NodeKind, RegularNode, SymlinkNode, Within, Str, Head;
    KindExact(s.(work := Saturate(s.work + 1)), DirectoryKind);
  }

  lemma ConcatCut(body: bytes)
    ensures Concat(Cut(body)) == body
  {
    if body != [] {
      var k := if |body| < CHUNK_SIZE then |body| else CHUNK_SIZE;
      ConcatCut(body[k..]);
      assert Cut(body)[1..] == Cut(body[k..]);
      assert body == body[..k] + body[k..];
    }
  }

  lemma LeafSound(s: State, depth: nat)
    requires StartNode(s, depth).Ok? && StartNode(s, depth).value.Finished?
    requires s.entries <= s.limits.maxEntries
    ensures var t := StartNode(s, depth).value.leaf;
            !t.Directory? && Affordable(s, t, depth) && Recut(t) == t
  {
    hide NodeKind, RegularNode, SymlinkNode, Within, Str, Head, Cut, FileHead;
    var s0 := s.(work := Saturate(s.work + 1));
    var kind := NodeKind(s0).value;
    KindExact(s0, kind);
    var s1 := s0.Skip(|Head(kind)|);
    if kind == RegularKind {
      var x, body := FileSound(s1);
      ConcatCut(body);
      ReadsConcat(s0, Head(RegularKind), FileTail(x, body));
    } else {
      var target := LinkSound(s1);
      ReadsConcat(s0, Head(SymlinkKind), LinkTail(target));
    }
  }

  ghost predicate NameAffordable(s: State, name: bytes, previous: bytes) {
    && AllowedName(name, s.limits, previous) && s.entries < s.limits.maxEntries
    && Saturate(s.work + 1) <= s.limits.maxWork && Reads(s, EntryHead(name))
  }

  lemma NamedComplete(s: State, previous: bytes, name: bytes)
    requires NameAffordable(s, name, previous)
    ensures NextEntry(s, previous).Ok? && NextEntry(s, previous).value == Next(name)
    ensures Expect(NextEntry(s, previous).st.Emit(Plain(EntryNamed(name))), NODE) == Ok((), AfterName(s, name))
  {
    hide NextEntry, Expect, Within, Str, EntryName;
    ReadsConcat(s, EntryName(name), Str(NODE));
    NameComplete(s, previous, name);
    ExpectExact(NextEntry(s, previous).st.Emit(Plain(EntryNamed(name))), NODE);
  }

  lemma NamedSound(s: State, previous: bytes)
    requires NextEntry(s, previous).Ok? && NextEntry(s, previous).value.Next?
    requires Expect(NextEntry(s, previous).st.Emit(Plain(EntryNamed(NextEntry(s, previous).value.name))), NODE).Ok?
    ensures NameAffordable(s, NextEntry(s, previous).value.name, previous)
  {
    hide NextEntry, Expect, Within, Str, EntryName;
    var name := NextEntry(s, previous).value.name;
    NameSound(s, previous);
    NameComplete(s, previous, name);
    ExpectExact(NextEntry(s, previous).st.Emit(Plain(EntryNamed(name))), NODE);
    ReadsConcat(s, EntryName(name), Str(NODE));
  }

  /* ---- the grammar accepts every affordable tree ---- */

  lemma DirectoryShape(s: State, es: Entries, depth: nat)
    ensures AfterEntries(AfterOpening(s, depth), es, depth) == After(s, Directory(es), depth)
  {
    hide Head, Str, SerializeEntries, TraceOf;
    Assoc(s.events, [DirectoryAt(depth)],
          TraceOf(es, depth + 1, s.raw + |Head(DirectoryKind)|) + [Plain(EndDirectory)]);
  }

  lemma EntryShape(s: State, name: bytes, node: Node, rest: Entries, depth: nat)
    ensures AfterEntries(After(AfterName(s, name), node, depth + 1).Skip(|Str(CLOSE)|), rest, depth)
         == AfterEntries(s, Entry(name, node, rest), depth)
  {
    hide EntryHead, Str, Serialize, Trace, Work, EntryCount, FileCount, LinkCount;
    var e := [Plain(EntryNamed(name))];
    var tn := Trace(node, depth + 1, s.raw + |EntryHead(name)|);
    var tr := TraceOf(rest, depth + 1, s.raw + |EntryHead(name)| + |Serialize(node)| + |Str(CLOSE)|);
    EntryTrace(s.events, e, tn, tr, [Plain(EndDirectory)]);
  }

  lemma EntryTrace<T>(before: seq<T>, e: seq<T>, tn: seq<T>, tr: seq<T>, end: seq<T>)
    ensures ((before + e) + tn) + (tr + end) == before + ((e + (tn + tr)) + end)
  {
    Assoc(before + e, tn, tr + end);
    Assoc(before, e, tn + (tr + end));
    Assoc(tn, tr, end);
    Assoc(e, tn + tr, end);
  }

  lemma EntryPieces(s: State, name: bytes, node: Node, rest: Entries)
    ensures Reads(s, SerializeEntries(Entry(name, node, rest)) + Str(CLOSE)) <==>
            && Reads(s, EntryHead(name))
            && Reads(s.Skip(|EntryHead(name)|), Serialize(node))
            && Reads(s.Skip(|EntryHead(name)| + |Serialize(node)|), Str(CLOSE))
            && Reads(s.Skip(|EntryHead(name)| + |Serialize(node)| + |Str(CLOSE)|), SerializeEntries(rest) + Str(CLOSE))
  {
    hide EntryHead, Str, Serialize, Within;
    var tail := SerializeEntries(rest) + Str(CLOSE);
    assert SerializeEntries(Entry(name, node, rest)) + Str(CLOSE)
        == EntryHead(name) + (Serialize(node) + (Str(CLOSE) + tail));
    ReadsConcat(s, EntryHead(name), Serialize(node) + (Str(CLOSE) + tail));
    var s1 := s.Skip(|EntryHead(name)|);
    ReadsConcat(s1, Serialize(node), Str(CLOSE) + tail);
    ReadsConcat(s1.Skip(|Serialize(node)|), Str(CLOSE), tail);
  }

  function AfterChild(s: State, name: bytes, node: Node, depth: nat): State {
    After(AfterName(s, name), node, depth + 1)
  }

  /** A directory is affordable when each of its parts is, taken one after the other. */
  lemma EntryBudget(s: State, name: bytes, node: Node, rest: Entries, depth: nat, previous: bytes)
    ensures AffordableEntries(s, Entry(name, node, rest), depth, previous) <==>
            && NameAffordable(s, name, previous)
            && Affordable(AfterName(s, name), node, depth + 1)
            && Reads(AfterChild(s, name, node, depth), Str(CLOSE))
            && AffordableEntries(AfterChild(s, name, node, depth).Skip(|Str(CLOSE)|), rest, depth, name)
  {
    hide EntryHead, Str, Serialize, SerializeEntries, Within, AllowedName;
    hide Trace, Work, EntryCount, Allowed, FileCount, LinkCount;
    EntryPieces(s, name, node, rest);
  }

  lemma {:induction false} NodeComplete(s: State, t: Node, depth: nat)
    requires Affordable(s, t, depth)
    ensures ParseNode(s, depth) == Ok(Recut(t), After(s, t, depth))
    decreases t
  {
    hide StartNode, Within, Str, Head, After, AfterEntries;
    match t
    case Directory(es) =>
      ReadsConcat(s, Head(DirectoryKind), SerializeEntries(es) + Str(CLOSE));
      OpeningExact(s, depth);
      EntriesComplete(AfterOpening(s, depth), es, depth, []);
      DirectoryShape(s, es, depth);
    case _ => LeafComplete(s, t, depth);
  }

  lemma {:induction false} EntriesComplete(s: State, es: Entries, depth: nat, previous: bytes)
    requires AffordableEntries(s, es, depth, previous)
    ensures ParseEntries(s, depth, previous) == Ok(RecutEntries(es), AfterEntries(s, es, depth))
    decreases es
  {
    hide NextEntry, Expect, Within, Str, Affordable, After, AfterName, NameAffordable;
    match es
    case NoEntries =>
      assert [] + Str(CLOSE) == Str(CLOSE);
      NoMoreExact(s, previous);
    case Entry(name, node, rest) =>
      EntryBudget(s, name, node, rest, depth, previous);
      NamedComplete(s, previous, name);
      NodeComplete(AfterName(s, name), node, depth + 1);
      var s3 := AfterChild(s, name, node, depth);
      ExpectExact(s3, CLOSE);
      EntriesComplete(s3.Skip(|Str(CLOSE)|), rest, depth, name);
      EntryShape(s, name, node, rest, depth);
  }

  /* ---- and nothing else ---- */

  lemma {:induction false} NodeSound(s: State, depth: nat)
    requires ParseNode(s, depth).Ok? && s.entries <= s.limits.maxEntries
    ensures var t := ParseNode(s, depth).value;
            Affordable(s, t, depth) && Recut(t) == t
    decreases s.limits.maxTotalBytes - s.raw
  {
    hide StartNode, Within, Str, Head, Orderly, Named, After, AfterEntries, Trace;
    if StartNode(s, depth).value.Finished? {
      LeafSound(s, depth);
    } else {
      OpeningExact(s, depth);
      var s1 := AfterOpening(s, depth);
      EntriesSound(s1, depth, []);
      var es := ParseEntries(s1, depth, []).value;
      ReadsConcat(s, Head(DirectoryKind), SerializeEntries(es) + Str(CLOSE));
    }
  }

  lemma {:induction false} EntriesSound(s: State, depth: nat, previous: bytes)
    requires ParseEntries(s, depth, previous).Ok? && s.entries <= s.limits.maxEntries
    ensures var es := ParseEntries(s, depth, previous).value;
            AffordableEntries(s, es, depth, previous) && RecutEntries(es) == es
    decreases s.limits.maxTotalBytes - s.raw
  {
    hide NextEntry, Expect, Within, Str, EntryHead, Serialize;
    if NextEntry(s, previous).value.NoMore? {
      NoMoreExact(s, previous);
      assert [] + Str(CLOSE) == Str(CLOSE);
    } else {
      var name := NextEntry(s, previous).value.name;
      NamedSound(s, previous);
      NamedComplete(s, previous, name);
      var s2 := AfterName(s, name);
      NodeSound(s2, depth + 1);
      var node := ParseNode(s2, depth + 1).value;
      NodeComplete(s2, node, depth + 1);
      var s3 := AfterChild(s, name, node, depth);
      ExpectExact(s3, CLOSE);
      var s4 := s3.Skip(|Str(CLOSE)|);
      EntriesSound(s4, depth, name);
      EntryBudget(s, name, node, ParseEntries(s4, depth, name).value, depth, previous);
    }
  }
}
