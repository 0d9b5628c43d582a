/** The encoder accepts the traversal of every canonical tree within its limits, in whatever
    chunks the file bodies come, and writes the tree's serialization. */
module NarEncodes {
  import opened NarFormat
  import opened NarEncoding
  import opened NarWriting

  lemma {:induction false} RunConcat(s: State, a: seq<EncodeEvent>, b: seq<EncodeEvent>)
    ensures Run(s, a).Refused? ==> Run(s, a + b) == Run(s, a)
    ensures Run(s, a).Done? ==> Run(s, a + b) == Run(Run(s, a).st, b)
    decreases |a|
  {
    hide PushEvent;
    if a == [] {
      assert a + b == b;
    } else {
      assert (a + b)[1..] == a[1..] + b;
      if PushEvent(s, a[0]).Done? { RunConcat(PushEvent(s, a[0]).st, a[1..], b); }
    }
  }

  lemma RunOne(s: State, e: EncodeEvent)
    ensures Run(s, [e]) == PushEvent(s, e)
  {
    hide PushEvent;
    assert [e][1..] == [];
  }

  /** A first event and the rest. */
  lemma RunFirst(s: State, e: EncodeEvent, rest: seq<EncodeEvent>)
    requires PushEvent(s, e).Done?
    ensures Run(s, [e] + rest) == Run(PushEvent(s, e).st, rest)
  {
    hide PushEvent;
    assert ([e] + rest)[1..] == rest;
  }

  /* ---- closed forms ---- */

  function LastFrom(es: Entries, last: Last): Last {
    match es
    case NoEntries => last
    case Entry(name, _, rest) => LastFrom(rest, LastName(name))
  }

  function NameOf(last: Last): bytes {
    match last case NoName => [] case LastName(name) => name
  }

  /** The state once a complete node has been written: its parent's entry, or the root, ends. */
  function Ended(s: State, kind: RootKind): State {
    if s.stack == [] then s.(root := Complete(kind))
    else
      match s.Top()
      case ChildOpen(name) => Wrote(s, Str(CLOSE)).SetTop(Ready(LastName(name)))
      case _ => s
  }

  function Grown(s: State, t: Node): State {
    s.(
    out := s.out + Serialize(t),
    entries := s.entries + EntryCount(t),
    files := Saturate(s.files + FileCount(t)),
    symlinks := Saturate(s.symlinks + LinkCount(t)),
    work := Saturate(s.work + |Events(t)|))
  }

  function AfterNode(s: State, t: Node): State {
    Ended(Grown(s, t), t.Kind())
  }

  function AfterEntries(s: State, es: Entries): State
    requires s.stack != [] && s.Top().Ready?
  {
    s.SetTop(Ready(LastFrom(es, s.Top().last))).(
    out := s.out + SerializeEntries(es),
    entries := s.entries + EntryCounts(es),
    files := Saturate(s.files + FileCounts(es)),
    symlinks := Saturate(s.symlinks + LinkCounts(es)),
    work := Saturate(s.work + |EventsOf(es)|))
  }

  function AfterChunks(s: State, chunks: seq<bytes>): State
    requires s.stack != [] && s.Top().OpenRegular? && |Concat(chunks)| <= s.Top().remaining
  {
    s.SetTop(OpenRegular(s.Top().remaining - |Concat(chunks)|, s.Top().size)).(
    out := s.out + Concat(chunks),
    work := Saturate(s.work + |chunks|))
  }

  /** A node may start here: at the very beginning, or as the child of an open entry. */
  predicate CanStart(s: State) {
    if s.stack == [] then s.root.Awaiting? else !s.root.Complete? && s.Top().ChildOpen?
  }

  function EntryEnd(s: State): nat {
    if s.stack == [] then 0 else |Str(CLOSE)|
  }

  ghost predicate Affordable(s: State, t: Node) {
    && CanStart(s)
    && Allowed(t, s.limits, |s.stack|)
    && s.entries + EntryCount(t) <= s.limits.maxEntries
    && Saturate(s.work + |Events(t)|) <= s.limits.maxWork
    && Room(s, |Serialize(t)| + EntryEnd(s))
  }

  ghost predicate AffordableEntries(s: State, es: Entries) {
    && s.stack != [] && s.Top().Ready? && !s.root.Complete?
    && AllowedEntries(es, s.limits, |s.stack|, NameOf(s.Top().last))
    && s.entries + EntryCounts(es) <= s.limits.maxEntries
    && Saturate(s.work + |EventsOf(es)|) <= s.limits.maxWork
    && Room(s, |SerializeEntries(es)|)
  }

  /* ---- single events ---- */

  lemma Started(s: State, kind: RootKind)
    requires CanStart(s) && |s.stack| <= s.limits.maxDepth
    ensures BeginNode(s, kind) == Done(s.(root := if s.stack == [] then OpenRoot(kind) else s.root))
  {
  }

  lemma ParentFinished(s: State, kind: RootKind)
    requires s.stack == [] ==> s.root == OpenRoot(kind)
    requires s.stack != [] ==> s.Top().ChildOpen?
    requires Room(s, |Str(CLOSE)| + EntryEnd(s))
    ensures CloseNode(s) == Done(Ended(Wrote(s, Str(CLOSE)), kind))
  {
    hide PutStr, Str;
    StrExact(s, CLOSE);
    StrExact(Wrote(s, Str(CLOSE)), CLOSE);
  }

  lemma LinkShape(s: State, target: bytes)
    ensures Wrote(Wrote(Wrote(Wrote(s, Head(SymlinkKind)), Str(TARGET)), Str(target)), Str(CLOSE)).out
         == s.out + LinkBytes(target)
  {
    hide Head, Str;
  }

  lemma LinkEvent(s: State, target: bytes)
    requires Affordable(s, Symlink(target))
    ensures PushEvent(s, SymlinkTo(target)) == Done(AfterNode(s, Symlink(target)))
  {
    hide PutHead, PutStr, CloseNode, Head, Str, BeginNode;
    var s0 := s.(work := Saturate(s.work + 1));
    Started(s0, SymlinkKind);
    var s1 := s0.(root := if s.stack == [] then OpenRoot(SymlinkKind) else s.root);
    HeadExact(s1, SymlinkKind);
    var s2 := Wrote(s1, Head(SymlinkKind));
    StrExact(s2, TARGET);
    var s3 := Wrote(s2, Str(TARGET));
    StrExact(s3, target);
    var s4 := Wrote(s3, Str(target));
    ParentFinished(s4, SymlinkKind);
    LinkShape(s1, target);
  }

  lemma DirectoryEvent(s: State)
    requires CanStart(s) && |s.stack| <= s.limits.maxDepth
    requires Saturate(s.work + 1) <= s.limits.maxWork && Room(s, |Head(DirectoryKind)|)
    ensures PushEvent(s, BeginDirectory) == Done(Opened(s, DirectoryKind, Head(DirectoryKind), Ready(NoName)))
  {
    hide PutHead, Head, BeginNode;
    var s0 := s.(work := Saturate(s.work + 1));
    Started(s0, DirectoryKind);
    HeadExact(s0.(root := if s.stack == [] then OpenRoot(DirectoryKind) else s.root), DirectoryKind);
  }

  function Opened(s: State, kind: RootKind, head: bytes, node: OpenNode): State {
    s.(work := Saturate(s.work + 1), root := if s.stack == [] then OpenRoot(kind) else s.root,
       out := s.out + head, stack := s.stack + [node])
  }

  lemma FileEvent(s: State, x: bool, size: nat)
    requires CanBeginFile(s, x, size)
    ensures PushEvent(s, BeginFile(x, size)) == Done(FileOpened(s, x, size))
  {
    hide PutHead, PutFileHead, Head, FileHead, BeginNode, Le64;
    var s0 := s.(work := Saturate(s.work + 1));
    Started(s0, RegularKind);
    var s1 := s0.(root := if s.stack == [] then OpenRoot(RegularKind) else s.root);
    HeadExact(s1, RegularKind);
    var s2 := Wrote(s1, Head(RegularKind));
    FileHeadExact(s2, x, size);
    WroteTwice(s1, Head(RegularKind), FileHead(x) + Le64(size));
  }

  lemma EntryEvent(s: State, name: bytes)
    requires s.stack != [] && s.Top().Ready? && !s.root.Complete?
    requires AllowedName(name, s.limits, NameOf(s.Top().last))
    requires s.entries < s.limits.maxEntries && Saturate(s.work + 1) <= s.limits.maxWork
    requires Room(s, |EntryHead(name)|)
    ensures PushEvent(s, EntryNamed(name))
         == Done(s.SetTop(ChildOpen(name)).(work := Saturate(s.work + 1), entries := s.entries + 1,
                                            out := s.out + EntryHead(name)))
  {
    hide PutEntryHead, EntryHead, ValidName;
    var s0 := s.(work := Saturate(s.work + 1));
    EntryHeadExact(s0.SetTop(ChildOpen(name)), name);
  }

  function AfterChunk(s: State, chunk: bytes): State
    requires s.stack != [] && s.Top().OpenRegular? && |chunk| <= s.Top().remaining
  {
    s.SetTop(OpenRegular(s.Top().remaining - |chunk|, s.Top().size)).(
    out := s.out + chunk, work := Saturate(s.work + 1))
  }

  lemma ChunkEvent(s: State, chunk: bytes)
    requires s.stack != [] && s.Top().OpenRegular? && |chunk| <= s.Top().remaining
    requires Room(s, |chunk|) && Saturate(s.work + 1) <= s.limits.maxWork
    ensures PushEvent(s, FileChunk(chunk)) == Done(AfterChunk(s, chunk))
  {
  }

  lemma ChunksShape(s: State, c: bytes, rest: seq<bytes>)
    requires s.stack != [] && s.Top().OpenRegular? && |c| + |Concat(rest)| <= s.Top().remaining
    ensures [c] + rest != [] && Concat([c] + rest) == c + Concat(rest)
    ensures AfterChunks(AfterChunk(s, c), rest) == AfterChunks(s, [c] + rest)
  {
    assert ([c] + rest)[1..] == rest;
    Assoc(s.out, c, Concat(rest));
  }

  lemma {:induction false} RunChunks(s: State, chunks: seq<bytes>)
    requires s.stack != [] && s.Top().OpenRegular? && |Concat(chunks)| <= s.Top().remaining
    requires Room(s, |Concat(chunks)|) && Saturate(s.work + |chunks|) <= s.limits.maxWork
    ensures Run(s, ChunkEvents(chunks)) == Done(AfterChunks(s, chunks))
    decreases |chunks|
  {
    hide PushEvent;
    if chunks == [] {
      assert s.stack == s.stack[..|s.stack| - 1] + [s.Top()];
    } else {
      var c, rest := chunks[0], chunks[1..];
      assert chunks == [c] + rest;
      ChunkEvent(s, c);
      ChunksShape(s, c, rest);
      RunChunks(AfterChunk(s, c), rest);
      assert ChunkEvents(chunks) == [FileChunk(c)] + ChunkEvents(rest);
      RunFirst(s, FileChunk(c), ChunkEvents(rest));
    }
  }

  /** A regular node with all its contents written can be closed. */
  ghost predicate CanEndFile(s: State, size: nat) {
    && s.stack != [] && s.Top() == OpenRegular(0, size)
    && var p := s.Pop();
    && (p.stack == [] ==> s.root == OpenRoot(RegularKind)) && (p.stack != [] ==> p.Top().ChildOpen?)
    && Room(s, PadLength(size) + |Str(CLOSE)| + EntryEnd(p))
    && Saturate(s.work + 1) <= s.limits.maxWork
  }

  function FileEnded(s: State, size: nat): State
    requires s.stack != []
  {
    Ended(Wrote(s.Pop(), Zeros(PadLength(size)) + Str(CLOSE)), RegularKind)
    .(files := Saturate(s.files + 1), work := Saturate(s.work + 1))
  }

  lemma EndFileEvent(s: State, size: nat)
    requires CanEndFile(s, size)
    ensures PushEvent(s, EndFile) == Done(FileEnded(s, size))
  {
    hide CloseNode, Str;
    var s0 := s.(work := Saturate(s.work + 1));
    var pad := Zeros(PadLength(size));
    PutExact(s0, pad);
    var s1 := Wrote(s0, pad).Pop();
    ParentFinished(s1, RegularKind);
    WroteTwice(s0.Pop(), pad, Str(CLOSE));
  }

  lemma EndDirectoryEvent(s: State)
    requires s.stack != [] && s.Top().Ready?
    requires var p := s.Pop();
             && (p.stack == [] ==> s.root == OpenRoot(DirectoryKind)) && (p.stack != [] ==> p.Top().ChildOpen?)
             && Room(s, |Str(CLOSE)| + EntryEnd(p))
    requires Saturate(s.work + 1) <= s.limits.maxWork
    ensures PushEvent(s, EndDirectory)
         == Done(Ended(Wrote(s.Pop(), Str(CLOSE)), DirectoryKind).(work := Saturate(s.work + 1)))
  {
    hide CloseNode, Str;
    ParentFinished(s.(work := Saturate(s.work + 1)).Pop(), DirectoryKind);
  }

  /* ---- nodes ---- */

  lemma FileBytesSplit(x: bool, body: bytes)
    ensures FileBytes(x, body)
         == (Head(RegularKind) + (FileHead(x) + Le64(|body|))) + (body + (Zeros(PadLength(|body|)) + Str(CLOSE)))
  {
    hide Head, FileHead, Le64, Zeros;
  }

  /** A node that opens, has contents, and closes. */
  lemma RunBracketed(s: State, first: EncodeEvent, middle: seq<EncodeEvent>, last: EncodeEvent, s1: State, s2: State)
    requires PushEvent(s, first) == Done(s1) && Run(s1, middle) == Done(s2)
    ensures Run(s, [first] + (middle + [last])) == PushEvent(s2, last)
  {
    hide PushEvent, Run;
    RunOne(s2, last);
    RunConcat(s1, middle, [last]);
    RunFirst(s, first, middle + [last]);
  }

  function FileOpened(s: State, x: bool, size: nat): State {
    Opened(s, RegularKind, Head(RegularKind) + (FileHead(x) + Le64(size)), OpenRegular(size, size))
  }

  lemma FileOut(out: bytes, x: bool, body: bytes)
    ensures ((out + (Head(RegularKind) + (FileHead(x) + Le64(|body|)))) + body)
            + (Zeros(PadLength(|body|)) + Str(CLOSE))
         == out + FileBytes(x, body)
  {
    hide *;
    FileBytesSplit(x, body);
    var head := Head(RegularKind) + (FileHead(x) + Le64(|body|));
    var tail := Zeros(PadLength(|body|)) + Str(CLOSE);
    Assoc(out + head, body, tail);
    Assoc(out, head, body + tail);
  }

  lemma FileFilled(s: State, x: bool, chunks: seq<bytes>)
    ensures var body := Concat(chunks);
            AfterChunks(FileOpened(s, x, |body|), chunks)
            == s.(stack := s.stack + [OpenRegular(0, |body|)],
                  root := if s.stack == [] then OpenRoot(RegularKind) else s.root,
                  out := (s.out + (Head(RegularKind) + (FileHead(x) + Le64(|body|)))) + body,
                  work := Saturate(s.work + 1 + |chunks|))
  {
    hide Head, FileHead, Le64, Concat;
    var n := |Concat(chunks)|;
    assert (s.stack + [OpenRegular(n, n)])[..|s.stack|] == s.stack;
  }

  lemma FileShape(s: State, x: bool, chunks: seq<bytes>)
    requires CanStart(s)
    ensures var body := Concat(chunks);
            FileEnded(AfterChunks(FileOpened(s, x, |body|), chunks), |body|) == AfterNode(s, Regular(x, chunks))
  {
    hide Head, FileHead, Le64, Str, Zeros, Concat, PadLength, FileBytes, ChunkEvents, AfterChunks, FileOpened;
    var body := Concat(chunks);
    FileOut(s.out, x, body);
    FileFilled(s, x, chunks);
    assert (s.stack + [OpenRegular(0, |body|)])[..|s.stack|] == s.stack;
  }

  lemma FileLengths(x: bool, chunks: seq<bytes>)
    ensures var body := Concat(chunks);
            |Serialize(Regular(x, chunks))|
            == |Head(RegularKind)| + |FileHead(x)| + 8 + |body| + PadLength(|body|) + |Str(CLOSE)|
    ensures |Events(Regular(x, chunks))| == 2 + |chunks|
  {
    hide Head, FileHead, Str, Concat, PadLength, Zeros;
    FileBytesSplit(x, Concat(chunks));
  }

  /** A regular node with this body can be opened here. */
  ghost predicate CanBeginFile(s: State, x: bool, size: nat) {
    && CanStart(s) && |s.stack| <= s.limits.maxDepth && size <= s.limits.maxFileBytes
    && Saturate(s.work + 1) <= s.limits.maxWork
    && Room(s, |Head(RegularKind)| + |FileHead(x)| + 8)
  }

  lemma FileBudget(s: State, x: bool, chunks: seq<bytes>, s1: State, s2: State)
    requires Affordable(s, Regular(x, chunks))
    requires s1 == FileOpened(s, x, |Concat(chunks)|) && s2 == AfterChunks(s1, chunks)
    ensures CanBeginFile(s, x, |Concat(chunks)|)
    ensures Room(s1, |Concat(chunks)|) && Saturate(s1.work + |chunks|) <= s1.limits.maxWork
    ensures CanEndFile(s2, |Concat(chunks)|)
  {
    hide Head, FileHead, Le64, Str, Concat, PadLength, Serialize, Events;
    FileLengths(x, chunks);
    FileFilled(s, x, chunks);
    assert s2.Pop().stack == s.stack;
  }

  lemma {:induction false} RunFile(s: State, x: bool, chunks: seq<bytes>)
    requires Affordable(s, Regular(x, chunks))
    ensures Run(s, Events(Regular(x, chunks))) == Done(AfterNode(s, Regular(x, chunks)))
  {
    hide PushEvent, Head, FileHead, Str, Run, PadLength, Le64;
    hide Zeros, Concat, AfterNode, Room, FileEnded, CanEndFile, ChunkEvents;
    var body := Concat(chunks);
    var s1 := FileOpened(s, x, |body|);
    var s2 := AfterChunks(s1, chunks);
    FileBudget(s, x, chunks, s1, s2);
    hide Affordable;
    FileEvent(s, x, |body|);
    RunChunks(s1, chunks);
    FileShape(s, x, chunks);
    EndFileEvent(s2, |body|);
    RunBracketed(s, BeginFile(x, |body|), ChunkEvents(chunks), EndFile, s1, s2);
  }

  function DirectoryOpened(s: State): State {
    Opened(s, DirectoryKind, Head(DirectoryKind), Ready(NoName))
  }

  lemma DirectoryShape(s: State, es: Entries)
    requires CanStart(s)
    ensures var s2 := AfterEntries(DirectoryOpened(s), es);
            && s2.Pop().stack == s.stack
            && Ended(Wrote(s2.Pop(), Str(CLOSE)), DirectoryKind).(work := Saturate(s2.work + 1))
               == AfterNode(s, Directory(es))
  {
    hide Head, Str, SerializeEntries, EventsOf;
    assert (s.stack + [Ready(NoName)])[..|s.stack|] == s.stack;
    Assoc(s.out + Head(DirectoryKind), SerializeEntries(es), Str(CLOSE));
    Assoc(s.out, Head(DirectoryKind), SerializeEntries(es) + Str(CLOSE));
  }

  function Named(s: State, name: bytes): State
    requires s.stack != []
  {
    s.SetTop(ChildOpen(name)).(work := Saturate(s.work + 1), entries := s.entries + 1,
                               out := s.out + EntryHead(name))
  }

  lemma EntryShape(s: State, name: bytes, node: Node, rest: Entries)
    requires s.stack != [] && s.Top().Ready?
    ensures var s2 := AfterNode(Named(s, name), node);
            && |s2.stack| == |s.stack| && s2.Top() == Ready(LastName(name))
            && s2.root == s.root && s2.limits == s.limits
            && AfterEntries(s2, rest) == AfterEntries(s, Entry(name, node, rest))
  {
    hide EntryHead, Str, Serialize, Events;
    EntryOut(s.out, EntryHead(name), Serialize(node), Str(CLOSE), SerializeEntries(rest));
  }

  lemma EntryOut(out: bytes, head: bytes, node: bytes, close: bytes, rest: bytes)
    ensures (((out + head) + node) + close) + rest == out + (head + (node + (close + rest)))
  {
    Assoc((out + head) + node, close, rest);
    Assoc(out + head, node, close + rest);
    Assoc(out, head, node + (close + rest));
  }

  lemma EntryBudget(s: State, name: bytes, node: Node, rest: Entries)
    requires AffordableEntries(s, Entry(name, node, rest))
    ensures Affordable(Named(s, name), node)
    ensures AffordableEntries(AfterNode(Named(s, name), node), rest)
  {
    hide EntryHead, Str, Serialize, Events, Allowed, AllowedName, EntryCount, FileCount, LinkCount, SerializeEntries;
    EntryLengths(name, node, rest);
    EntryShape(s, name, node, rest);
  }

  lemma EntryLengths(name: bytes, node: Node, rest: Entries)
    ensures |SerializeEntries(Entry(name, node, rest))|
         == |EntryHead(name)| + |Serialize(node)| + |Str(CLOSE)| + |SerializeEntries(rest)|
    ensures |EventsOf(Entry(name, node, rest))| == 1 + |Events(node)| + |EventsOf(rest)|
  {
    hide EntryHead, Str, Serialize, Events;
  }

  lemma DirectoryBudget(s: State, es: Entries)
    requires Affordable(s, Directory(es))
    ensures AffordableEntries(DirectoryOpened(s), es)
    ensures |s.stack| <= s.limits.maxDepth && Saturate(s.work + 1) <= s.limits.maxWork
    ensures Room(s, |Head(DirectoryKind)|)
    ensures Saturate(AfterEntries(DirectoryOpened(s), es).work + 1) <= s.limits.maxWork
    ensures Room(AfterEntries(DirectoryOpened(s), es), |Str(CLOSE)| + EntryEnd(s))
  {
    hide Head, Str, SerializeEntries, EventsOf, AllowedEntries;
  }

  lemma {:induction false} RunNode(s: State, t: Node)
    requires Affordable(s, t)
    ensures Run(s, Events(t)) == Done(AfterNode(s, t))
    decreases t
  {
    hide PushEvent, Head, Str, Run, Ended, Grown, SerializeEntries, EventsOf;
    match t
    case Directory(es) =>
      DirectoryBudget(s, es);
      DirectoryEvent(s);
      var s1 := DirectoryOpened(s);
      RunEntries(s1, es);
      var s2 := AfterEntries(s1, es);
      DirectoryShape(s, es);
      EndDirectoryEvent(s2);
      RunBracketed(s, BeginDirectory, EventsOf(es), EndDirectory, s1, s2);
    case Regular(x, chunks) => RunFile(s, x, chunks);
    case Symlink(target) =>
      LinkEvent(s, target);
      RunOne(s, SymlinkTo(target));
  }

  lemma {:induction false} RunEntries(s: State, es: Entries)
    requires AffordableEntries(s, es)
    ensures Run(s, EventsOf(es)) == Done(AfterEntries(s, es))
    decreases es
  {
    hide PushEvent, EntryHead, Str, Affordable, AfterNode, Serialize;
    match es
    case NoEntries =>
      assert s.stack == s.stack[..|s.stack| - 1] + [s.Top()];
    case Entry(name, node, rest) =>
      EntryLengths(name, node, rest);
      EntryEvent(s, name);
      var s1 := Named(s, name);
      EntryBudget(s, name, node, rest);
      RunNode(s1, node);
      var s2 := AfterNode(s1, node);
      RunEntries(s2, rest);
      EntryShape(s, name, node, rest);
      RunConcat(s1, Events(node), EventsOf(rest));
      RunFirst(s, EntryNamed(name), Events(node) + EventsOf(rest));
  }
}
