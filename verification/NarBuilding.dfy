/** Every accepted run of the encoder spells a tree. A run that is still open is described by
    the partly built nodes on the path from the root to where the run stands. */
module NarBuilding {
  import opened NarFormat
  import opened NarEncoding
  import opened NarWriting
  import opened NarEncodes

  datatype Partial =
    | PartialDirectory(done: Entries, pending: Last)
    | PartialFile(executable: bool, size: nat, chunks: seq<bytes>)
  {
    function Kind(): RootKind {
      if PartialDirectory? then DirectoryKind else RegularKind
    }
  }

  /** How far a run has come: the open nodes from the root inwards, or the finished tree. */
  datatype Progress = Building(path: seq<Partial>) | Built(tree: Node)

  /* ---- what a partly built node has written and consumed ---- */

  function PartialBytes(p: Partial): bytes {
    match p
    case PartialDirectory(done, pending) =>
      Head(DirectoryKind) + (SerializeEntries(done) + PendingBytes(pending))
    case PartialFile(x, size, chunks) =>
      Head(RegularKind) + (FileHead(x) + Le64(size)) + Concat(chunks)
  }

  function PendingBytes(pending: Last): bytes {
    match pending case NoName => [] case LastName(name) => EntryHead(name)
  }

  function PendingEvents(pending: Last): seq<EncodeEvent> {
    match pending case NoName => [] case LastName(name) => [EntryNamed(name)]
  }

  function PartialEvents(p: Partial): seq<EncodeEvent> {
    match p
    case PartialDirectory(done, pending) => [BeginDirectory] + (EventsOf(done) + PendingEvents(pending))
    case PartialFile(x, size, chunks) => [BeginFile(x, size)] + ChunkEvents(chunks)
  }

  datatype Counts = Counts(entries: nat, files: nat, links: nat) {
    function Plus(c: Counts): Counts {
      Counts(entries + c.entries, files + c.files, links + c.links)
    }
  }

  function CountsOf(t: Node): Counts {
    Counts(EntryCount(t), FileCount(t), LinkCount(t))
  }

  function PartialCounts(p: Partial): Counts {
    match p
    case PartialDirectory(done, pending) =>
      Counts(EntryCounts(done) + if pending.LastName? then 1 else 0, FileCounts(done), LinkCounts(done))
    case PartialFile(_, _, _) => Counts(0, 0, 0)
  }

  function PathBytes(path: seq<Partial>): bytes {
    if path == [] then [] else PathBytes(path[..|path| - 1]) + PartialBytes(path[|path| - 1])
  }

  function PathEvents(path: seq<Partial>): seq<EncodeEvent> {
    if path == [] then [] else PathEvents(path[..|path| - 1]) + PartialEvents(path[|path| - 1])
  }

  function PathCounts(path: seq<Partial>): Counts {
    if path == [] then Counts(0, 0, 0)
    else PathCounts(path[..|path| - 1]).Plus(PartialCounts(path[|path| - 1]))
  }

  lemma PathSnoc(path: seq<Partial>, p: Partial)
    ensures PathBytes(path + [p]) == PathBytes(path) + PartialBytes(p)
    ensures PathEvents(path + [p]) == PathEvents(path) + PartialEvents(p)
    ensures PathCounts(path + [p]) == PathCounts(path).Plus(PartialCounts(p))
  {
    assert (path + [p])[..|path|] == path;
  }

  /* ---- agreement of the encoder's stack with the path ---- */

  predicate Mirrors(node: OpenNode, p: Partial) {
    match p
    case PartialDirectory(done, NoName) => node == Ready(LastFrom(done, NoName))
    case PartialDirectory(_, LastName(name)) => node == ChildOpen(name)
    case PartialFile(_, size, chunks) =>
      |Concat(chunks)| <= size && node == OpenRegular(size - |Concat(chunks)|, size)
  }

  predicate Lawful(p: Partial, limits: Limits, depth: nat) {
    depth <= limits.maxDepth &&
    match p
    case PartialDirectory(done, pending) =>
      && AllowedEntries(done, limits, depth + 1, [])
      && (pending.LastName? ==> AllowedName(pending.name, limits, NameOf(LastFrom(done, NoName))))
    case PartialFile(_, size, _) => size <= limits.maxFileBytes
  }

  predicate Waiting(p: Partial) {
    p.PartialDirectory? && p.pending.LastName?
  }

  /** The stack mirrors the path; all below the top are directories with an open child. */
  ghost predicate OnPath(stack: seq<OpenNode>, path: seq<Partial>, limits: Limits) {
    && |stack| == |path|
    && (forall i :: 0 <= i < |path| ==> Mirrors(stack[i], path[i]) && Lawful(path[i], limits, i))
    && (forall i :: 0 <= i < |path| - 1 ==> Waiting(path[i]))
  }

  ghost predicate Tallies(s: State, c: Counts) {
    && s.entries == c.entries <= s.limits.maxEntries
    && s.files == Saturate(c.files) && s.symlinks == Saturate(c.links)
  }

  ghost predicate Describes(s: State, z: Progress, events: seq<EncodeEvent>) {
    && |s.out| <= s.limits.maxTotalBytes
    && s.work == Saturate(|events|) <= s.limits.maxWork
    && match z
       case Building(path) => AtPath(s, path, events)
       case Built(t) =>
         && s.root == Complete(t.Kind()) && s.stack == [] && Allowed(t, s.limits, 0)
         && s.out == Archive(t) && events == Events(t) && Tallies(s, CountsOf(t))
  }

  ghost predicate AtPath(s: State, path: seq<Partial>, events: seq<EncodeEvent>) {
    && OnPath(s.stack, path, s.limits)
    && s.root == (if path == [] then Awaiting else OpenRoot(path[0].Kind()))
    && s.out == Str(MAGIC) + PathBytes(path) && events == PathEvents(path)
    && Tallies(s, PathCounts(path))
  }

  /** All of node t, the child that the path waits for, has just been written. */
  ghost predicate Holding(s: State, path: seq<Partial>, t: Node, events: seq<EncodeEvent>) {
    && s.work == Saturate(|events|) <= s.limits.maxWork
    && OnPath(s.stack, path, s.limits) && (path != [] ==> Waiting(path[|path| - 1]))
    && s.root == OpenRoot(if path == [] then t.Kind() else path[0].Kind())
    && Allowed(t, s.limits, |path|)
    && s.out == (Str(MAGIC) + PathBytes(path)) + Serialize(t)
    && events == PathEvents(path) + Events(t)
    && Tallies(s, PathCounts(path).Plus(CountsOf(t)))
  }

  /* ---- adding an entry at the end of a directory ---- */

  function Append(es: Entries, name: bytes, node: Node): Entries {
    match es
    case NoEntries => Entry(name, node, NoEntries)
    case Entry(n, t, rest) => Entry(n, t, Append(rest, name, node))
  }

  lemma {:induction false} AppendWrites(es: Entries, name: bytes, node: Node)
    ensures SerializeEntries(Append(es, name, node))
         == SerializeEntries(es) + (EntryHead(name) + (Serialize(node) + Str(CLOSE)))
    decreases es
  {
    hide EntryHead, Str, Serialize;
    match es
    case NoEntries =>
      assert Append(es, name, node) == Entry(name, node, NoEntries);
    case Entry(n, t, rest) =>
      AppendWrites(rest, name, node);
      var last := EntryHead(name) + (Serialize(node) + Str(CLOSE));
      Assoc(Str(CLOSE), SerializeEntries(rest), last);
      Assoc(Serialize(t), Str(CLOSE) + SerializeEntries(rest), last);
      Assoc(EntryHead(n), Serialize(t) + (Str(CLOSE) + SerializeEntries(rest)), last);
  }

  lemma {:induction false} AppendEvents(es: Entries, name: bytes, node: Node)
    ensures EventsOf(Append(es, name, node)) == EventsOf(es) + ([EntryNamed(name)] + Events(node))
    ensures EntryCounts(Append(es, name, node)) == EntryCounts(es) + 1 + EntryCount(node)
    ensures FileCounts(Append(es, name, node)) == FileCounts(es) + FileCount(node)
    ensures LinkCounts(Append(es, name, node)) == LinkCounts(es) + LinkCount(node)
    decreases es
  {
    hide Events, EntryCount, FileCount, LinkCount;
    match es
    case NoEntries =>
    case Entry(n, t, rest) => AppendEvents(rest, name, node);
  }

  lemma {:induction false} AppendAllowed(es: Entries, name: bytes, node: Node, limits: Limits, depth: nat, last: Last)
    requires AllowedEntries(es, limits, depth, NameOf(last))
    requires AllowedName(name, limits, NameOf(LastFrom(es, last))) && Allowed(node, limits, depth)
    ensures AllowedEntries(Append(es, name, node), limits, depth, NameOf(last))
    ensures LastFrom(Append(es, name, node), last) == LastName(name)
    decreases es
  {
    hide AllowedName;
    match es
    case NoEntries =>
    case Entry(n, t, rest) => AppendAllowed(rest, name, node, limits, depth, LastName(n));
  }

  /* ---- steps ---- */

  lemma {:induction false} PushPath(s: State, path: seq<Partial>, p: Partial, node: OpenNode)
    requires OnPath(s.stack, path, s.limits)
    requires path != [] ==> Waiting(path[|path| - 1])
    requires Mirrors(node, p) && Lawful(p, s.limits, |path|)
    ensures OnPath(s.stack + [node], path + [p], s.limits)
  {
    hide Mirrors, Lawful, Waiting;
  }

  lemma {:induction false} ReplaceTop(s: State, path: seq<Partial>, p: Partial, node: OpenNode)
    requires path != [] && OnPath(s.stack, path, s.limits)
    requires Mirrors(node, p) && Lawful(p, s.limits, |path| - 1)
    ensures OnPath(s.SetTop(node).stack, path[..|path| - 1] + [p], s.limits)
  {
    hide Mirrors, Lawful, Waiting;
  }

  lemma PopPath(s: State, path: seq<Partial>)
    requires path != [] && OnPath(s.stack, path, s.limits)
    ensures OnPath(s.Pop().stack, path[..|path| - 1], s.limits)
    ensures |path| > 1 ==> Waiting(path[|path| - 2])
  {
    hide Mirrors, Lawful;
  }

  lemma JoinBytes(pre: bytes, done: Entries, name: bytes, t: Node)
    ensures ((pre + PartialBytes(PartialDirectory(done, LastName(name)))) + Serialize(t)) + Str(CLOSE)
         == pre + PartialBytes(PartialDirectory(Append(done, name, t), NoName))
    ensures PartialEvents(PartialDirectory(done, LastName(name))) + Events(t)
         == PartialEvents(PartialDirectory(Append(done, name, t), NoName))
    ensures PartialCounts(PartialDirectory(done, LastName(name))).Plus(CountsOf(t))
         == PartialCounts(PartialDirectory(Append(done, name, t), NoName))
  {
    hide Head, Str, Serialize, EntryHead, SerializeEntries, Events, EventsOf;
    AppendWrites(done, name, t);
    AppendEvents(done, name, t);
    JoinedBytes(pre, Head(DirectoryKind), SerializeEntries(done), EntryHead(name), Serialize(t), Str(CLOSE));
  }

  lemma JoinedBytes(pre: bytes, h: bytes, d: bytes, e: bytes, n: bytes, c: bytes)
    ensures ((pre + (h + (d + e))) + n) + c == pre + (h + ((d + (e + (n + c))) + []))
  {
    Assoc(pre + (h + (d + e)), n, c);
    Assoc(pre, h + (d + e), n + c);
    Assoc(h, d + e, n + c);
    Assoc(d, e, n + c);
    assert (d + (e + (n + c))) + [] == d + (e + (n + c));
  }

  lemma GrowPath(front: seq<Partial>, entries: Entries, name: bytes, t: Node)
    ensures var path := front + [PartialDirectory(entries, LastName(name))];
            var path' := front + [PartialDirectory(Append(entries, name, t), NoName)];
            && ((Str(MAGIC) + PathBytes(path)) + Serialize(t)) + Str(CLOSE) == Str(MAGIC) + PathBytes(path')
            && PathEvents(path) + Events(t) == PathEvents(path')
            && PathCounts(path).Plus(CountsOf(t)) == PathCounts(path')
  {
    hide Str, Serialize, Events, PartialBytes, PartialEvents, PartialCounts, PathBytes, PathEvents, PathCounts, Append;
    var top, grown := PartialDirectory(entries, LastName(name)), PartialDirectory(Append(entries, name, t), NoName);
    PathSnoc(front, top);
    PathSnoc(front, grown);
    JoinBytes(Str(MAGIC) + PathBytes(front), entries, name, t);
    Assoc(Str(MAGIC), PathBytes(front), PartialBytes(top));
    Assoc(Str(MAGIC), PathBytes(front), PartialBytes(grown));
    Assoc(PathEvents(front), PartialEvents(top), Events(t));
  }

  lemma {:induction false} AttachEntry(s: State, front: seq<Partial>, entries: Entries, name: bytes, t: Node,
                                       events: seq<EncodeEvent>)
    requires Holding(s, front + [PartialDirectory(entries, LastName(name))], t, events)
    requires |Ended(s, t.Kind()).out| <= s.limits.maxTotalBytes
    ensures Describes(Ended(s, t.Kind()), Building(front + [PartialDirectory(Append(entries, name, t), NoName)]),
                      events)
  {
    hide Str, Serialize, Events, PathBytes, PathEvents, PathCounts, Allowed;
    var path := front + [PartialDirectory(entries, LastName(name))];
    var grown := PartialDirectory(Append(entries, name, t), NoName);
    assert path[|path| - 1] == PartialDirectory(entries, LastName(name)) && path[..|path| - 1] == front;
    assert s.Top() == ChildOpen(name);
    AppendAllowed(entries, name, t, s.limits, |path|, NoName);
    ReplaceTop(s, path, grown, Ready(LastName(name)));
    GrowPath(front, entries, name, t);
    hide OnPath, Append;
  }

  lemma AttachRoot(s: State, t: Node, events: seq<EncodeEvent>)
    requires Holding(s, [], t, events)
    requires |Ended(s, t.Kind()).out| <= s.limits.maxTotalBytes
    ensures Describes(Ended(s, t.Kind()), Built(t), events)
  {
    hide Str, Serialize, Events, Allowed;
    assert s.out == Archive(t);
    assert events == Events(t);
  }

  /** A finished node becomes the root, or the next entry of the directory that waits for it. */
  lemma {:induction false} Attach(s: State, path: seq<Partial>, t: Node, events: seq<EncodeEvent>) returns (z: Progress)
    requires Holding(s, path, t, events)
    requires |Ended(s, t.Kind()).out| <= s.limits.maxTotalBytes
    ensures Describes(Ended(s, t.Kind()), z, events)
  {
    hide Str, Serialize, Events, Allowed, Describes, PathBytes, PathEvents, PathCounts, OnPath;
    if path == [] {
      AttachRoot(s, t, events);
      z := Built(t);
    } else {
      var front, top := path[..|path| - 1], path[|path| - 1];
      assert path == front + [PartialDirectory(top.done, LastName(top.pending.name))];
      AttachEntry(s, front, top.done, top.pending.name, t, events);
      z := Building(front + [PartialDirectory(Append(top.done, top.pending.name, t), NoName)]);
    }
  }

  /* ---- one event ---- */

  lemma BeginSound(s: State, path: seq<Partial>, kind: RootKind)
    requires OnPath(s.stack, path, s.limits)
    requires s.root == (if path == [] then Awaiting else OpenRoot(path[0].Kind()))
    requires BeginNode(s, kind).Done?
    ensures |path| <= s.limits.maxDepth && (path != [] ==> Waiting(path[|path| - 1]))
    ensures BeginNode(s, kind).st == s.(root := OpenRoot(if path == [] then kind else path[0].Kind()))
  {
    hide Lawful;
  }

  lemma CloseSound(s: State, kind: RootKind)
    requires CloseNode(s).Done?
    ensures s.stack == [] ==> s.root.OpenRoot?
    ensures s.stack != [] ==> s.Top().ChildOpen?
    ensures (s.stack == [] ==> s.root == OpenRoot(kind)) ==> CloseNode(s).st == Ended(Wrote(s, Str(CLOSE)), kind)
    ensures |CloseNode(s).st.out| <= s.limits.maxTotalBytes
  {
    hide PutStr, Str;
    StrExact(s, CLOSE);
    StrExact(Wrote(s, Str(CLOSE)), CLOSE);
  }

  lemma {:induction false} AfterBegin(s: State, path: seq<Partial>, events: seq<EncodeEvent>, e: EncodeEvent,
                                      p: Partial, node: OpenNode, t: State)
    requires Describes(s, Building(path), events)
    requires path != [] ==> Waiting(path[|path| - 1])
    requires Mirrors(node, p) && Lawful(p, s.limits, |path|) && PartialEvents(p) == [e]
    requires PartialCounts(p) == Counts(0, 0, 0)
    requires t == s.(work := Saturate(s.work + 1), out := s.out + PartialBytes(p), stack := s.stack + [node],
                     root := OpenRoot(if path == [] then p.Kind() else path[0].Kind()))
    requires |t.out| <= s.limits.maxTotalBytes && t.work <= s.limits.maxWork
    ensures Describes(t, Building(path + [p]), events + [e])
  {
    hide Mirrors, Lawful, Waiting, PartialBytes, PartialEvents, PartialCounts;
    hide Str, OnPath, PathBytes, PathEvents, PathCounts;
    PushPath(s, path, p, node);
    PathSnoc(path, p);
    Assoc(Str(MAGIC), PathBytes(path), PartialBytes(p));
  }

  lemma {:induction false} DirectorySound(s: State, path: seq<Partial>, events: seq<EncodeEvent>)
    requires Describes(s, Building(path), events) && PushEvent(s, BeginDirectory).Done?
    ensures Describes(PushEvent(s, BeginDirectory).st, Building(path + [PartialDirectory(NoEntries, NoName)]),
                      events + [BeginDirectory])
  {
    hide PutHead, Head, BeginNode, OnPath, PathBytes, PathEvents, PathCounts;
    var s0 := s.(work := Saturate(s.work + 1));
    BeginSound(s0, path, DirectoryKind);
    HeadExact(BeginNode(s0, DirectoryKind).st, DirectoryKind);
    var p := PartialDirectory(NoEntries, NoName);
    assert PartialBytes(p) == Head(DirectoryKind);
    AfterBegin(s, path, events, BeginDirectory, p, Ready(NoName), PushEvent(s, BeginDirectory).st);
  }

  lemma {:induction false} FileSound(s: State, path: seq<Partial>, events: seq<EncodeEvent>, x: bool, size: nat)
    requires Describes(s, Building(path), events) && PushEvent(s, BeginFile(x, size)).Done?
    ensures Describes(PushEvent(s, BeginFile(x, size)).st, Building(path + [PartialFile(x, size, [])]),
                      events + [BeginFile(x, size)])
  {
    hide PutHead, PutFileHead, Head, FileHead, Le64, BeginNode, OnPath, PathBytes, PathEvents, PathCounts;
    var s0 := s.(work := Saturate(s.work + 1));
    BeginSound(s0, path, RegularKind);
    var s1 := BeginNode(s0, RegularKind).st;
    HeadExact(s1, RegularKind);
    FileHeadExact(Wrote(s1, Head(RegularKind)), x, size);
    WroteTwice(s1, Head(RegularKind), FileHead(x) + Le64(size));
    var p := PartialFile(x, size, []);
    assert PartialBytes(p) == Head(RegularKind) + (FileHead(x) + Le64(size));
    AfterBegin(s, path, events, BeginFile(x, size), p, OpenRegular(size, size), PushEvent(s, BeginFile(x, size)).st);
  }

  /** The top of the path takes one more event without opening or closing a node. */
  lemma {:induction false} AfterGrowth(s: State, path: seq<Partial>, events: seq<EncodeEvent>, e: EncodeEvent,
                                       p: Partial, node: OpenNode, b: bytes, extra: nat, t: State)
    requires path != [] && s.stack != [] && Describes(s, Building(path), events)
    requires Mirrors(node, p) && Lawful(p, s.limits, |path| - 1) && p.Kind() == path[|path| - 1].Kind()
    requires PartialBytes(p) == PartialBytes(path[|path| - 1]) + b
    requires PartialEvents(p) == PartialEvents(path[|path| - 1]) + [e]
    requires t == s.SetTop(node).(work := Saturate(s.work + 1), out := s.out + b, entries := s.entries + extra)
    requires PartialCounts(p) == PartialCounts(path[|path| - 1]).Plus(Counts(extra, 0, 0))
    requires |t.out| <= s.limits.maxTotalBytes && t.work <= s.limits.maxWork
    requires extra == 0 || t.entries <= s.limits.maxEntries
    ensures Describes(t, Building(path[..|path| - 1] + [p]), events + [e])
  {
    hide Mirrors, Lawful, Waiting, PartialBytes, PartialEvents, PartialCounts;
    hide Str, OnPath, PathBytes, PathEvents, PathCounts;
    var front, top := path[..|path| - 1], path[|path| - 1];
    assert path == front + [top];
    ReplaceTop(s, path, p, node);
    PathSnoc(front, top);
    PathSnoc(front, p);
    assert (Str(MAGIC) + (PathBytes(front) + PartialBytes(top))) + b
        == Str(MAGIC) + (PathBytes(front) + (PartialBytes(top) + b));
    Assoc(PathEvents(front), PartialEvents(top), [e]);
  }

  lemma TopMirrored(s: State, path: seq<Partial>, events: seq<EncodeEvent>)
    requires Describes(s, Building(path), events) && s.stack != []
    ensures path != [] && |path| == |s.stack|
    ensures Mirrors(s.Top(), path[|path| - 1]) && Lawful(path[|path| - 1], s.limits, |path| - 1)
  {
    hide Mirrors, Lawful, PathBytes, PathEvents, PathCounts, Str;
  }

  lemma {:induction false} EntrySound(s: State, path: seq<Partial>, events: seq<EncodeEvent>, name: bytes)
    returns (p: Partial)
    requires Describes(s, Building(path), events) && PushEvent(s, EntryNamed(name)).Done?
    ensures path != []
    ensures Describes(PushEvent(s, EntryNamed(name)).st, Building(path[..|path| - 1] + [p]),
                      events + [EntryNamed(name)])
  {
    hide PutEntryHead, EntryHead, Describes, PartialBytes, PartialEvents;
    hide EntryCounts, FileCounts, LinkCounts, AllowedEntries;
    TopMirrored(s, path, events);
    var top := path[|path| - 1];
    p := PartialDirectory(top.done, LastName(name));
    var s0 := s.(work := Saturate(s.work + 1)).SetTop(ChildOpen(name));
    EntryHeadExact(s0, name);
    GrowDirectory(top.done, name);
    AfterGrowth(s, path, events, EntryNamed(name), p, ChildOpen(name), EntryHead(name), 1,
                PushEvent(s, EntryNamed(name)).st);
  }

  lemma GrowDirectory(done: Entries, name: bytes)
    ensures PartialBytes(PartialDirectory(done, LastName(name)))
         == PartialBytes(PartialDirectory(done, NoName)) + EntryHead(name)
    ensures PartialEvents(PartialDirectory(done, LastName(name)))
         == PartialEvents(PartialDirectory(done, NoName)) + [EntryNamed(name)]
  {
    hide Head, EntryHead, SerializeEntries, EventsOf;
  }

  lemma {:induction false} ConcatSnoc(chunks: seq<bytes>, c: bytes)
    ensures Concat(chunks + [c]) == Concat(chunks) + c
    decreases |chunks|
  {
    if chunks == [] {
      assert [c][1..] == [];
    } else {
      assert (chunks + [c])[1..] == chunks[1..] + [c];
      ConcatSnoc(chunks[1..], c);
      Assoc(chunks[0], Concat(chunks[1..]), c);
    }
  }

  lemma ChunkAccepted(s: State, chunk: bytes)
    requires PushEvent(s, FileChunk(chunk)).Done?
    ensures s.stack != [] && s.Top().OpenRegular? && |chunk| <= s.Top().remaining
    ensures Room(s, |chunk|) && Saturate(s.work + 1) <= s.limits.maxWork
  {
  }

  /** When the encoder's top is a regular node, so is the path's. */
  lemma FileTop(s: State, path: seq<Partial>, events: seq<EncodeEvent>)
    returns (x: bool, size: nat, chunks: seq<bytes>)
    requires Describes(s, Building(path), events) && s.stack != [] && s.Top().OpenRegular?
    ensures path != [] && path[|path| - 1] == PartialFile(x, size, chunks)
    ensures |Concat(chunks)| <= size <= s.limits.maxFileBytes && |path| - 1 <= s.limits.maxDepth
    ensures s.Top() == OpenRegular(size - |Concat(chunks)|, size)
    ensures PartialCounts(path[|path| - 1]) == Counts(0, 0, 0)
  {
    hide Describes, Concat;
    TopMirrored(s, path, events);
    var top := path[|path| - 1];
    x, size, chunks := top.executable, top.size, top.chunks;
  }

  lemma FileMirrored(p: Partial, node: OpenNode, limits: Limits, depth: nat)
    requires p.PartialFile? && p.size <= limits.maxFileBytes && depth <= limits.maxDepth
    requires |Concat(p.chunks)| <= p.size && node == OpenRegular(p.size - |Concat(p.chunks)|, p.size)
    ensures Mirrors(node, p) && Lawful(p, limits, depth) && PartialCounts(p) == Counts(0, 0, 0)
  {
    hide Concat;
  }

  lemma {:induction false} ChunkSound(s: State, path: seq<Partial>, events: seq<EncodeEvent>, chunk: bytes)
    returns (p: Partial)
    requires Describes(s, Building(path), events) && PushEvent(s, FileChunk(chunk)).Done?
    ensures path != []
    ensures Describes(PushEvent(s, FileChunk(chunk)).st, Building(path[..|path| - 1] + [p]),
                      events + [FileChunk(chunk)])
  {
    hide Describes, PartialBytes, PartialEvents, PushEvent, Concat, Mirrors, Lawful, PartialCounts;
    ChunkAccepted(s, chunk);
    var x, size, chunks := FileTop(s, path, events);
    p := PartialFile(x, size, chunks + [chunk]);
    GrowFile(x, size, chunks, chunk);
    FileMirrored(p, OpenRegular(s.Top().remaining - |chunk|, size), s.limits, |path| - 1);
    ChunkEvent(s, chunk);
    AfterGrowth(s, path, events, FileChunk(chunk), p, OpenRegular(s.Top().remaining - |chunk|, size), chunk, 0,
                AfterChunk(s, chunk));
  }

  lemma GrowFile(x: bool, size: nat, chunks: seq<bytes>, c: bytes)
    ensures |Concat(chunks + [c])| == |Concat(chunks)| + |c|
    ensures PartialBytes(PartialFile(x, size, chunks + [c])) == PartialBytes(PartialFile(x, size, chunks)) + c
    ensures PartialEvents(PartialFile(x, size, chunks + [c]))
         == PartialEvents(PartialFile(x, size, chunks)) + [FileChunk(c)]
  {
    hide Head, FileHead, Le64;
    ConcatSnoc(chunks, c);
    Assoc(Head(RegularKind) + (FileHead(x) + Le64(size)), Concat(chunks), c);
    assert ChunkEvents(chunks + [c]) == ChunkEvents(chunks) + [FileChunk(c)];
  }

  /* ---- events that finish a node ---- */

  /** The state a link leaves before its node is closed into its parent. */
  function LinkWritten(s1: State, target: bytes): State {
    s1.(out := s1.out + LinkBytes(target), symlinks := Saturate(s1.symlinks + 1))
  }

  lemma LinkAccepted(s: State, target: bytes, s1: State)
    requires PushEvent(s, SymlinkTo(target)).Done?
    requires BeginNode(s.(work := Saturate(s.work + 1)), SymlinkKind) == Done(s1)
    requires s1.stack == [] ==> s1.root == OpenRoot(SymlinkKind)
    ensures PushEvent(s, SymlinkTo(target)).st == Ended(LinkWritten(s1, target), SymlinkKind)
    ensures |PushEvent(s, SymlinkTo(target)).st.out| <= s1.limits.maxTotalBytes
    ensures ValidTarget(target) && |target| <= s1.limits.maxSymlinkTargetBytes
    ensures Saturate(s.work + 1) <= s.limits.maxWork
  {
    hide PutHead, PutStr, CloseNode, Head, Str, BeginNode;
    HeadExact(s1, SymlinkKind);
    var s2 := Wrote(s1, Head(SymlinkKind));
    StrExact(s2, TARGET);
    var s3 := Wrote(s2, Str(TARGET));
    StrExact(s3, target);
    var s4 := Wrote(s3, Str(target));
    CloseSound(s4, SymlinkKind);
    LinkShape(s1, target);
  }

  lemma {:induction false} LinkSound(s: State, path: seq<Partial>, events: seq<EncodeEvent>, target: bytes)
    returns (z: Progress)
    requires Describes(s, Building(path), events) && PushEvent(s, SymlinkTo(target)).Done?
    ensures Describes(PushEvent(s, SymlinkTo(target)).st, z, events + [SymlinkTo(target)])
  {
    hide PutHead, PutStr, CloseNode, BeginNode, OnPath, PathBytes, PathEvents, PathCounts, LinkBytes, ValidTarget, Str;
    var t := Symlink(target);
    var s0 := s.(work := Saturate(s.work + 1));
    BeginSound(s0, path, SymlinkKind);
    var s1 := BeginNode(s0, SymlinkKind).st;
    SameLength(s, path);
    LinkAccepted(s, target, s1);
    hide PushEvent;
    z := Attach(LinkWritten(s1, target), path, t, events + [SymlinkTo(target)]);
  }

  lemma SameLength(s: State, path: seq<Partial>)
    requires OnPath(s.stack, path, s.limits)
    ensures |s.stack| == |path|
  {
  }

  /** Taking the finished top off the path: what is left waits for it. */
  lemma {:induction false} Finish(s: State, path: seq<Partial>, events: seq<EncodeEvent>, e: EncodeEvent,
                                  t: Node, tail: bytes, extra: nat, u: State)
    requires path != [] && s.stack != [] && Describes(s, Building(path), events)
    requires t.Kind() == path[|path| - 1].Kind() && Allowed(t, s.limits, |path| - 1)
    requires PartialBytes(path[|path| - 1]) + tail == Serialize(t)
    requires PartialEvents(path[|path| - 1]) + [e] == Events(t)
    requires u == s.Pop().(work := Saturate(s.work + 1), out := s.out + tail, files := u.files)
    requires u.files == Saturate(s.files + extra)
    requires CountsOf(t) == PartialCounts(path[|path| - 1]).Plus(Counts(0, extra, 0))
    requires u.work <= s.limits.maxWork
    ensures Holding(u, path[..|path| - 1], t, events + [e])
    ensures u.stack == [] ==> u.root == OpenRoot(t.Kind())
  {
    hide Mirrors, Lawful, Waiting, PartialBytes, PartialEvents, PartialCounts, CountsOf, Str;
    hide OnPath, PathBytes, PathEvents, PathCounts, Serialize, Events, Allowed;
    var front, top := path[..|path| - 1], path[|path| - 1];
    assert path == front + [top];
    PopPath(s, path);
    SameLength(s, path);
    PathSnoc(front, top);
    assert (Str(MAGIC) + (PathBytes(front) + PartialBytes(top))) + tail
        == (Str(MAGIC) + PathBytes(front)) + (PartialBytes(top) + tail);
    Assoc(PathEvents(front), PartialEvents(top), [e]);
  }

  lemma FileFinished(x: bool, size: nat, chunks: seq<bytes>)
    requires |Concat(chunks)| == size
    ensures PartialBytes(PartialFile(x, size, chunks)) + (Zeros(PadLength(size)) + Str(CLOSE))
         == Serialize(Regular(x, chunks))
    ensures PartialEvents(PartialFile(x, size, chunks)) + [EndFile] == Events(Regular(x, chunks))
  {
    hide Head, FileHead, Le64, Zeros, Str, FileBytes;
    FileBytesSplit(x, Concat(chunks));
  }

  lemma {:induction false} EndFileSound(s: State, path: seq<Partial>, events: seq<EncodeEvent>)
    returns (z: Progress)
    requires Describes(s, Building(path), events) && PushEvent(s, EndFile).Done?
    ensures Describes(PushEvent(s, EndFile).st, z, events + [EndFile])
  {
    hide CloseNode, Str, Zeros, Describes, Holding, PartialBytes, PartialEvents;
    hide Serialize, Events, Concat, Ended, PartialCounts, Mirrors, Lawful;
    var x, size, chunks := FileTop(s, path, events);
    var t := Regular(x, chunks);
    FileFinished(x, size, chunks);
    var pad := Zeros(PadLength(size));
    var s0 := s.(work := Saturate(s.work + 1));
    PutExact(s0, pad);
    var s1 := Wrote(s0, pad).Pop();
    CloseSound(s1, RegularKind);
    WroteTwice(s0.Pop(), pad, Str(CLOSE));
    EndedFiles(Wrote(s1, Str(CLOSE)), RegularKind, Saturate(s.files + 1));
    var u := Wrote(s1, Str(CLOSE)).(files := Saturate(s.files + 1));
    Finish(s, path, events, EndFile, t, pad + Str(CLOSE), 1, u);
    assert PushEvent(s, EndFile).st == Ended(u, RegularKind);
    z := Attach(u, path[..|path| - 1], t, events + [EndFile]);
  }

  lemma EndedFiles(s: State, kind: RootKind, files: u64)
    ensures Ended(s, kind).files == s.files && Ended(s, kind).(files := files) == Ended(s.(files := files), kind)
    ensures |Ended(s.(files := files), kind).out| == |Ended(s, kind).out|
  {
  }

  lemma {:induction false} EndDirectorySound(s: State, path: seq<Partial>, events: seq<EncodeEvent>)
    returns (z: Progress)
    requires Describes(s, Building(path), events) && PushEvent(s, EndDirectory).Done?
    ensures Describes(PushEvent(s, EndDirectory).st, z, events + [EndDirectory])
  {
    hide CloseNode, Str, Describes, Holding, PartialBytes, PartialEvents;
    hide Serialize, Events, EntryCounts, FileCounts, LinkCounts, AllowedEntries;
    TopMirrored(s, path, events);
    var top := path[|path| - 1];
    var t := Directory(top.done);
    DirectoryFinished(top.done);
    var s0 := s.(work := Saturate(s.work + 1));
    CloseSound(s0.Pop(), DirectoryKind);
    var u := Wrote(s0.Pop(), Str(CLOSE));
    Finish(s, path, events, EndDirectory, t, Str(CLOSE), 0, u);
    assert PushEvent(s, EndDirectory).st == Ended(u, DirectoryKind);
    z := Attach(u, path[..|path| - 1], t, events + [EndDirectory]);
  }

  lemma DirectoryFinished(done: Entries)
    ensures PartialBytes(PartialDirectory(done, NoName)) + Str(CLOSE) == Serialize(Directory(done))
    ensures PartialEvents(PartialDirectory(done, NoName)) + [EndDirectory] == Events(Directory(done))
  {
    hide Head, Str, SerializeEntries, EventsOf;
    var h, d, e := Head(DirectoryKind), SerializeEntries(done), EventsOf(done);
    assert d + [] == d && e + [] == e;
    Assoc(h, d, Str(CLOSE));
    Assoc([BeginDirectory], e, [EndDirectory]);
  }

  /* ---- whole runs ---- */

  lemma {:induction false} EventSound(s: State, z: Progress, events: seq<EncodeEvent>, e: EncodeEvent)
    returns (next: Progress)
    requires Describes(s, z, events) && PushEvent(s, e).Done?
    ensures Describes(PushEvent(s, e).st, next, events + [e])
  {
    hide PutHead, PutStr, PutEntryHead, PutFileHead, CloseNode, Put, Describes;
    if z.Built? {
      NothingAfterRoot(s, z, events, e);
      assert false;
    }
    match e
    case BeginDirectory =>
      DirectorySound(s, z.path, events);
      next := Building(z.path + [PartialDirectory(NoEntries, NoName)]);
    case EntryNamed(name) =>
      var p := EntrySound(s, z.path, events, name);
      next := Building(z.path[..|z.path| - 1] + [p]);
    case BeginFile(x, size) =>
      FileSound(s, z.path, events, x, size);
      next := Building(z.path + [PartialFile(x, size, [])]);
    case FileChunk(chunk) =>
      var p := ChunkSound(s, z.path, events, chunk);
      next := Building(z.path[..|z.path| - 1] + [p]);
    case EndFile => next := EndFileSound(s, z.path, events);
    case SymlinkTo(target) => next := LinkSound(s, z.path, events, target);
    case EndDirectory => next := EndDirectorySound(s, z.path, events);
  }

  /** Once the root is complete no event is accepted. */
  lemma NothingAfterRoot(s: State, z: Progress, events: seq<EncodeEvent>, e: EncodeEvent)
    requires Describes(s, z, events) && z.Built?
    ensures PushEvent(s, e).Refused?
  {
    hide PutHead, PutStr, PutEntryHead, PutFileHead, CloseNode, Put, Allowed, Archive, Events, Tallies;
  }

  lemma {:induction false} RunSound(s: State, z: Progress, before: seq<EncodeEvent>, events: seq<EncodeEvent>)
    returns (last: Progress)
    requires Describes(s, z, before) && Run(s, events).Done?
    ensures Describes(Run(s, events).st, last, before + events)
    decreases |events|
  {
    hide PushEvent, Describes;
    if events == [] {
      assert before + events == before;
      last := z;
    } else {
      var next := EventSound(s, z, before, events[0]);
      last := RunSound(PushEvent(s, events[0]).st, next, before + [events[0]], events[1..]);
      assert before + events == (before + [events[0]]) + events[1..];
    }
  }
}
