/** The event-driven encoder: it writes each event's bytes at once and keeps only a stack of open
    nodes. Every method is proved against the functions of NarEncoding. */
module NarEncoder {
  import opened NarFormat
  import opened NarEncoding
  import NarWriting
  import NarEncodes
  import NarBuilding
  import NarCodec
  import NarGrammar
  import NarArchive
  import Lexicographic

  datatype Outcome = Pass | Fail(error: EncodeError) {
    predicate IsFailure() { Fail? }
    function PropagateFailure(): Outcome
      requires Fail?
    {
      this
    }
  }

  datatype Finished = Summarized(summary: NarGrammar.Summary) | Unfinished(error: EncodeError)

  const ZEROES: bytes := [0, 0, 0, 0, 0, 0, 0, 0]

  class Encoder {
    const limits: Limits
    var writer: bytes
    var digest: bytes
    var rawSize: nat
    var root: RootState
    var stack: seq<OpenNode>
    var entries: nat
    var files: u64
    var symlinks: u64
    var work: u64
    /** The events accepted so far, and whether one has been refused. */
    ghost var accepted: seq<EncodeEvent>
    ghost var broken: bool

    ghost predicate Consistent()
      reads this
    {
      digest == writer && rawSize == |writer|
    }

    /** What holds between calls: the bytes hashed and counted are the bytes written, and the
        state is the one the accepted events lead to. */
    ghost predicate Valid()
      reads this
    {
      && Consistent()
      && (!broken ==> Create(limits).Done? && Run(Create(limits).st, accepted) == Done(Snap()))
    }

    ghost function Snap(): State
      reads this
    {
      State(limits, writer, root, stack, entries, files, symlinks, work)
    }

    ghost predicate Ends(o: Outcome, spec: Step)
      reads this
    {
      && Snap() == spec.st && (spec.Done? <==> o.Pass?)
      && (spec.Refused? ==> o.error == spec.error)
    }

    /** Start an archive; the limits may be too small even for the magic string. */
    constructor (limits: Limits)
      ensures this.limits == limits && accepted == [] && Valid()
      ensures Snap() == Create(limits).st && (broken <==> Create(limits).Refused?)
    {
      this.limits := limits;
      writer, digest, rawSize := [], [], 0;
      root, stack, entries, files, symlinks, work := Awaiting, [], 0, 0, 0, 0;
      accepted, broken := [], false;
      new;
      var o := String(MAGIC);
      broken := o.Fail?;
    }

    /* ---- writing ---- */

    method Bytes(b: bytes) returns (o: Outcome)
      requires Consistent()
      modifies this`writer, this`digest, this`rawSize
      ensures Consistent() && Ends(o, Put(old(Snap()), b))
    {
      var next := rawSize + |b|;
      if next > U64_MAX {
        return Fail(LimitExceeded("raw size", limits.maxTotalBytes, U64_MAX));
      }
      if next > limits.maxTotalBytes {
        return Fail(LimitExceeded("raw size", limits.maxTotalBytes, next));
      }
      writer := writer + b;
      digest := digest + b;
      rawSize := next;
      return Pass;
    }

    method Padding(length: nat) returns (o: Outcome)
      requires Consistent()
      modifies this`writer, this`digest, this`rawSize
      ensures Consistent() && Ends(o, Put(old(Snap()), Zeros(PadLength(length))))
    {
      assert ZEROES[..PadLength(length)] == Zeros(PadLength(length));
      o := Bytes(ZEROES[..PadLength(length)]);
    }

    method String(v: bytes) returns (o: Outcome)
      requires Consistent()
      modifies this`writer, this`digest, this`rawSize
      ensures Consistent() && Ends(o, PutStr(old(Snap()), v))
    {
      var length := Le64(|v|);
      :- Bytes(length);
      :- Bytes(v);
      o := Padding(|v|);
    }

    /* ---- opening and closing nodes ---- */

    method CheckOpen() returns (o: Outcome)
      ensures Ends(o, EnsureOpen(Snap()))
    {
      if root.Complete? {
        return Fail(Invalid("events follow the completed root"));
      }
      return Pass;
    }

    method Begin(kind: RootKind) returns (o: Outcome)
      requires Consistent()
      modifies this`root
      ensures Consistent() && Ends(o, BeginNode(old(Snap()), kind))
    {
      var depth := |stack|;
      :- CheckOpen();
      if depth > limits.maxDepth {
        return Fail(LimitExceeded("directory depth", limits.maxDepth, Saturate(depth)));
      }
      if stack != [] {
        match stack[|stack| - 1]
        case ChildOpen(_) => return Pass;
        case Ready(_) => return Fail(Invalid("node is not preceded by a directory entry"));
        case OpenRegular(_, _) => return Fail(Invalid("node is nested under a regular file"));
      }
      match root
      case Awaiting =>
        root := OpenRoot(kind);
        return Pass;
      case OpenRoot(_) => return Fail(Invalid("multiple root nodes"));
      case Complete(_) => assert false;
    }

    method CloseDirectoryEntry() returns (o: Outcome)
      requires Consistent() && stack != [] && stack[|stack| - 1].ChildOpen?
      modifies this`writer, this`digest, this`rawSize, this`stack
      ensures Consistent() && Ends(o, FinishParent(old(Snap())))
    {
      hide PutStr;
      :- String(CLOSE);
      match stack[|stack| - 1]
      case ChildOpen(name) =>
        stack := stack[..|stack| - 1] + [Ready(LastName(name))];
        return Pass;
      case Ready(_) => assert false;
      case OpenRegular(_, _) => assert false;
    }

    method FinishUp() returns (o: Outcome)
      requires Consistent()
      modifies this`writer, this`digest, this`rawSize, this`stack, this`root
      ensures Consistent() && Ends(o, FinishParent(old(Snap())))
    {
      hide PutStr;
      if stack != [] {
        match stack[|stack| - 1] {
          case ChildOpen(_) => o := CloseDirectoryEntry();
          case Ready(_) => o := Fail(Invalid("completed node has no parent entry"));
          case OpenRegular(_, _) => o := Fail(Invalid("node is nested under a regular file"));
        }
        return;
      }
      match root {
        case OpenRoot(kind) =>
          root := Complete(kind);
          o := Pass;
        case _ => o := Fail(Invalid("the root node is incomplete"));
      }
    }

    /** Close the innermost node, which the caller has found to be of this kind. */
    method FinishNode(kind: RootKind) returns (o: Outcome)
      requires Consistent() && stack != []
      requires kind == if stack[|stack| - 1].OpenRegular? then RegularKind else DirectoryKind
      modifies this`writer, this`digest, this`rawSize, this`stack, this`root
      ensures Consistent() && Ends(o, CloseNode(old(Snap()).Pop()))
    {
      hide PutStr, FinishParent;
      var node := stack[|stack| - 1];
      stack := stack[..|stack| - 1];
      var actual := if node.OpenRegular? then RegularKind else DirectoryKind;
      if actual != kind { assert false; }
      :- String(CLOSE);
      o := FinishUp();
    }

    /* ---- events ---- */

    method StringHead(kind: RootKind) returns (o: Outcome)
      requires Consistent()
      modifies this`writer, this`digest, this`rawSize
      ensures Consistent() && Ends(o, PutHead(old(Snap()), kind))
    {
      hide PutStr;
      :- String(OPEN);
      :- String(TYPE);
      o := String(KindName(kind));
    }

    method HandleBeginDirectory() returns (o: Outcome)
      requires Consistent()
      modifies this`writer, this`digest, this`rawSize, this`stack, this`root
      ensures Consistent() && Ends(o, OnBeginDirectory(old(Snap())))
    {
      hide PutHead, BeginNode;
      :- Begin(DirectoryKind);
      :- StringHead(DirectoryKind);
      stack := stack + [Ready(NoName)];
      return Pass;
    }

    method StringEntry(name: bytes) returns (o: Outcome)
      requires Consistent()
      modifies this`writer, this`digest, this`rawSize
      ensures Consistent() && Ends(o, PutEntryHead(old(Snap()), name))
    {
      hide PutStr;
      :- String(ENTRY);
      :- String(OPEN);
      :- String(NAME);
      :- String(name);
      o := String(NODE);
    }

    method HandleEntry(name: bytes) returns (o: Outcome)
      requires Consistent()
      modifies this`writer, this`digest, this`rawSize, this`stack, this`entries
      ensures Consistent() && Ends(o, OnEntry(old(Snap()), name))
    {
      hide PutEntryHead, ValidName;
      :- CheckOpen();
      if |name| > limits.maxNameBytes {
        return Fail(LimitExceeded("name length", limits.maxNameBytes, Saturate(|name|)));
      }
      if entries + 1 > U64_MAX {
        return Fail(LimitExceeded("entry count", limits.maxEntries, U64_MAX));
      }
      var next := entries + 1;
      if next > limits.maxEntries {
        return Fail(LimitExceeded("entry count", limits.maxEntries, next));
      }
      if !ValidName(name) {
        return Fail(NonCanonical("invalid directory entry name"));
      }
      if stack == [] || stack[|stack| - 1].OpenRegular? {
        return Fail(Invalid("entry outside a directory"));
      }
      match stack[|stack| - 1] {
        case Ready(last) =>
          if last.LastName? && !Lexicographic.Less(last.name, name) {
            return Fail(NonCanonical("directory entries are not strictly ordered"));
          }
          stack := stack[..|stack| - 1] + [ChildOpen(name)];
        case _ => return Fail(Invalid("directory entry is missing its child"));
      }
      :- StringEntry(name);
      entries := next;
      return Pass;
    }

    method HandleBeginFile(executable: bool, size: nat) returns (o: Outcome)
      requires Consistent()
      modifies this`writer, this`digest, this`rawSize, this`stack, this`root
      ensures Consistent() && Ends(o, OnBeginFile(old(Snap()), executable, size))
    {
      hide PutHead, PutStr, BeginNode;
      if size > limits.maxFileBytes {
        return Fail(LimitExceeded("file size", limits.maxFileBytes, Saturate(size)));
      }
      :- Begin(RegularKind);
      :- StringHead(RegularKind);
      if executable {
        :- String(EXECUTABLE);
        :- String([]);
      }
      :- String(CONTENTS);
      :- Bytes(Le64(size));
      stack := stack + [OpenRegular(size, size)];
      return Pass;
    }

    method HandleFileChunk(chunk: bytes) returns (o: Outcome)
      requires Consistent()
      modifies this`writer, this`digest, this`rawSize, this`stack
      ensures Consistent() && Ends(o, OnFileChunk(old(Snap()), chunk))
    {
      if stack == [] || !stack[|stack| - 1].OpenRegular? {
        return Fail(Invalid("file chunk outside a regular node"));
      }
      if |chunk| > stack[|stack| - 1].remaining {
        return Fail(Invalid("file body is larger than its declared size"));
      }
      :- Bytes(chunk);
      match stack[|stack| - 1]
      case OpenRegular(remaining, size) =>
        stack := stack[..|stack| - 1] + [OpenRegular(remaining - |chunk|, size)];
        return Pass;
      case Ready(_) => assert false;
      case ChildOpen(_) => assert false;
    }

    method HandleEndFile() returns (o: Outcome)
      requires Consistent()
      modifies this`writer, this`digest, this`rawSize, this`stack, this`root, this`files
      ensures Consistent() && Ends(o, OnEndFile(old(Snap())))
    {
      hide CloseNode;
      if stack == [] || !stack[|stack| - 1].OpenRegular? {
        return Fail(Invalid("file end outside a regular node"));
      }
      if stack[|stack| - 1].remaining != 0 {
        return Fail(Invalid("file body is smaller than its declared size"));
      }
      :- Padding(stack[|stack| - 1].size);
      :- FinishNode(RegularKind);
      files := Saturate(files + 1);
      return Pass;
    }

    method HandleSymlink(target: bytes) returns (o: Outcome)
      requires Consistent()
      modifies this`writer, this`digest, this`rawSize, this`stack, this`root, this`symlinks
      ensures Consistent() && Ends(o, OnSymlink(old(Snap()), target))
    {
      hide PutHead, PutStr, BeginNode, FinishParent;
      if |target| > limits.maxSymlinkTargetBytes {
        return Fail(LimitExceeded("symlink target length", limits.maxSymlinkTargetBytes, Saturate(|target|)));
      }
      if target == [] {
        return Fail(NonCanonical("symlink target is empty"));
      }
      if 0 in target {
        return Fail(NonCanonical("symlink target contains NUL"));
      }
      :- Begin(SymlinkKind);
      :- StringHead(SymlinkKind);
      :- String(TARGET);
      :- String(target);
      :- String(CLOSE);
      :- FinishUp();
      symlinks := Saturate(symlinks + 1);
      return Pass;
    }

    method HandleEndDirectory() returns (o: Outcome)
      requires Consistent()
      modifies this`writer, this`digest, this`rawSize, this`stack, this`root
      ensures Consistent() && Ends(o, OnEndDirectory(old(Snap())))
    {
      hide CloseNode;
      if stack == [] || !stack[|stack| - 1].Ready? {
        return Fail(Invalid("directory end is outside a directory or has an open child"));
      }
      o := FinishNode(DirectoryKind);
    }

    method HandleEvent(e: EncodeEvent) returns (o: Outcome)
      requires Consistent()
      modifies this`writer, this`digest, this`rawSize, this`root, this`stack, this`entries, this`files, this`symlinks
      ensures Consistent() && Ends(o, Dispatch(old(Snap()), e))
    {
      hide OnBeginDirectory, OnEntry, OnBeginFile, OnFileChunk, OnEndFile, OnSymlink, OnEndDirectory;
      match e
      case BeginDirectory => o := HandleBeginDirectory();
      case EntryNamed(name) => o := HandleEntry(name);
      case BeginFile(executable, size) => o := HandleBeginFile(executable, size);
      case FileChunk(chunk) => o := HandleFileChunk(chunk);
      case EndFile => o := HandleEndFile();
      case SymlinkTo(target) => o := HandleSymlink(target);
      case EndDirectory => o := HandleEndDirectory();
    }

    /** Apply one event. After a refusal the encoder must be discarded. */
    method Push(e: EncodeEvent) returns (o: Outcome)
      requires Valid() && !broken
      modifies this
      ensures Valid() && broken == o.Fail?
      ensures Ends(o, PushEvent(old(Snap()), e))
      ensures accepted == if o.Pass? then old(accepted) + [e] else old(accepted)
    {
      hide Dispatch, Create, Run;
      ghost var s := Snap();
      broken := true;
      work := Saturate(work + 1);
      if work > limits.maxWork {
        return Fail(LimitExceeded("work", limits.maxWork, work));
      }
      :- HandleEvent(e);
      NarEncodes.RunConcat(Create(limits).st, accepted, [e]);
      NarEncodes.RunOne(s, e);
      accepted := accepted + [e];
      broken := false;
      return Pass;
    }

    /** Hand over the archive. Success means that the accepted events spell a whole canonical tree
        within the limits, and that the writer holds exactly its archive. */
    method Finish() returns (r: Finished)
      requires Valid() && !broken
      ensures r.Summarized? <==> exists t :: NarCodec.Spells(accepted, t, limits)
      ensures forall t :: NarCodec.Spells(accepted, t, limits) ==>
                r.Summarized? && r.summary == NarArchive.SummaryOf(t) && writer == Archive(t)
      ensures r.Unfinished? ==> r.error == Invalid("the root node is incomplete")
    {
      hide Create, Run, NarCodec.Spells, NarArchive.SummaryOf;
      NarCodec.EncodeExact(limits, accepted);
      if root.Complete? {
        r := Summarized(NarGrammar.Summary(root.kind, rawSize, digest, entries, files, symlinks));
        forall t | NarCodec.Spells(accepted, t, limits)
          ensures writer == Archive(t)
        {
          WholeArchive(t, Snap());
        }
      } else {
        r := Unfinished(Invalid("the root node is incomplete"));
      }
    }

    static lemma WholeArchive(t: Node, s: State)
      requires s.root.Complete? && NarCodec.EncodeSummary(s) == NarArchive.SummaryOf(t)
      ensures s.out == Archive(t)
    {
    }
  }

  /** On every run that has not been refused, a regular node is only ever on top of the stack,
      all nodes below the top are directories with an open child, and the stack is empty just
      when the root has not begun or is complete. */
  lemma StackShape(limits: Limits, events: seq<EncodeEvent>)
    requires Create(limits).Done? && Run(Create(limits).st, events).Done?
    ensures var s := Run(Create(limits).st, events).st;
            && (forall i :: 0 <= i < |s.stack| - 1 ==> s.stack[i].ChildOpen?)
            && (s.stack == [] <==> !s.root.OpenRoot?)
            && |s.stack| <= limits.maxDepth + 1
  {
    hide Run, Str, NarBuilding.PathBytes, NarBuilding.PathEvents, NarBuilding.PathCounts;
    var z := Described(limits, events);
    if z.Building? && z.path != [] {
      assert NarBuilding.Lawful(z.path[|z.path| - 1], limits, |z.path| - 1);
    }
  }

  lemma Described(limits: Limits, events: seq<EncodeEvent>) returns (z: NarBuilding.Progress)
    requires Create(limits).Done? && Run(Create(limits).st, events).Done?
    ensures NarBuilding.Describes(Run(Create(limits).st, events).st, z, events)
  {
    hide Run, PutStr, Str;
    var s0 := State(limits, [], Awaiting, [], 0, 0, 0, 0);
    NarWriting.StrExact(s0, MAGIC);
    assert Create(limits).st.out == Str(MAGIC) + [];
    z := NarBuilding.RunSound(Create(limits).st, NarBuilding.Building([]), [], events);
    assert [] + events == events;
  }

  predicate Guard(error: EncodeError) {
    || error == Invalid("multiple root nodes")
    || error == Invalid("completed node has no parent entry")
    || error == Invalid("the root node is incomplete")
  }

  /** The refusals that guard the encoder's own bookkeeping are never reported on such a run. */
  lemma GuardsNeverReported(limits: Limits, events: seq<EncodeEvent>, e: EncodeEvent)
    requires Create(limits).Done? && Run(Create(limits).st, events).Done?
    ensures var r := PushEvent(Run(Create(limits).st, events).st, e);
            r.Refused? ==> !Guard(r.error)
  {
    hide Run, Create, Dispatch, Guard;
    StackShape(limits, events);
    var s := Run(Create(limits).st, events).st;
    assert !Guard(LimitExceeded("work", s.limits.maxWork, Saturate(s.work + 1))) by { NoGuard(s); }
    DispatchGuards(s.(work := Saturate(s.work + 1)), e);
  }

  lemma NoGuard(s: State)
    ensures !Guard(LimitExceeded("work", s.limits.maxWork, Saturate(s.work + 1)))
  {
  }

  ghost predicate WellStacked(s: State) {
    && (forall i :: 0 <= i < |s.stack| - 1 ==> s.stack[i].ChildOpen?)
    && (s.stack == [] <==> !s.root.OpenRoot?)
  }

  lemma EndFileGuards(s: State)
    requires WellStacked(s)
    ensures OnEndFile(s).Refused? ==> !Guard(OnEndFile(s).error)
  {
    hide Put, CloseNode, Extends;
    if s.stack != [] && s.Top().OpenRegular? {
      var pad := Zeros(PadLength(s.Top().size));
      PutRefusal(s, pad);
      CloseGuards(Put(s, pad).st.Pop());
    }
  }

  lemma LinkGuards(s: State, target: bytes)
    requires WellStacked(s)
    ensures OnSymlink(s, target).Refused? ==> !Guard(OnSymlink(s, target).error)
  {
    hide PutHead, PutStr, ValidTarget, CloseNode, BeginNode, Extends;
    BeginGuards(s, SymlinkKind);
    if BeginNode(s, SymlinkKind).Done? {
      var s1 := BeginNode(s, SymlinkKind).st;
      HeadRefusal(s1, SymlinkKind);
      var s2 := PutHead(s1, SymlinkKind).st;
      StrRefusal(s2, TARGET);
      var s3 := PutStr(s2, TARGET).st;
      StrRefusal(s3, target);
      CloseGuards(PutStr(s3, target).st);
    }
  }

  lemma DirectoryGuards(s: State)
    requires WellStacked(s)
    ensures OnBeginDirectory(s).Refused? ==> !Guard(OnBeginDirectory(s).error)
  {
    hide PutHead, BeginNode, Extends;
    BeginGuards(s, DirectoryKind);
    HeadRefusal(BeginNode(s, DirectoryKind).st, DirectoryKind);
  }

  lemma FileGuards(s: State, x: bool, size: nat)
    requires WellStacked(s)
    ensures OnBeginFile(s, x, size).Refused? ==> !Guard(OnBeginFile(s, x, size).error)
  {
    hide PutHead, PutFileHead, BeginNode, Extends;
    BeginGuards(s, RegularKind);
    var s1 := BeginNode(s, RegularKind).st;
    HeadRefusal(s1, RegularKind);
    FileRefusal(PutHead(s1, RegularKind).st, x, size);
  }

  lemma EntryGuards(s: State, name: bytes)
    requires WellStacked(s)
    ensures OnEntry(s, name).Refused? ==> !Guard(OnEntry(s, name).error)
  {
    hide PutEntryHead, ValidName, Extends, Lexicographic.Less;
    if s.stack != [] { EntryRefusal(s.SetTop(ChildOpen(name)), name); }
  }

  lemma EndDirectoryGuards(s: State)
    requires WellStacked(s)
    ensures OnEndDirectory(s).Refused? ==> !Guard(OnEndDirectory(s).error)
  {
    hide CloseNode, Extends;
    if s.stack != [] { CloseGuards(s.Pop()); }
  }

  lemma DispatchGuards(s: State, e: EncodeEvent)
    requires WellStacked(s)
    ensures Dispatch(s, e).Refused? ==> !Guard(Dispatch(s, e).error)
  {
    hide Put, Extends, OnBeginDirectory, OnEntry, OnBeginFile, OnSymlink, OnEndFile, OnEndDirectory;
    match e
    case BeginDirectory => DirectoryGuards(s);
    case EntryNamed(name) => EntryGuards(s, name);
    case BeginFile(x, size) => FileGuards(s, x, size);
    case FileChunk(chunk) => PutRefusal(s, chunk);
    case EndFile => EndFileGuards(s);
    case SymlinkTo(target) => LinkGuards(s, target);
    case EndDirectory => EndDirectoryGuards(s);
  }

  /** A node that may start does not meet a guard, and can later be closed. */
  lemma BeginGuards(s: State, kind: RootKind)
    requires WellStacked(s)
    ensures BeginNode(s, kind).Refused? ==> !Guard(BeginNode(s, kind).error)
    ensures BeginNode(s, kind).Done? ==> Closable(BeginNode(s, kind).st)
  {
  }

  predicate Closable(s: State) {
    if s.stack == [] then s.root.OpenRoot? else s.Top().ChildOpen?
  }

  lemma CloseGuards(s: State)
    requires Closable(s)
    ensures CloseNode(s).Refused? ==> !Guard(CloseNode(s).error)
  {
    hide PutStr;
    StrRefusal(s, CLOSE);
    StrRefusal(PutStr(s, CLOSE).st, CLOSE);
  }

  /* Writing fails only for lack of room, and leaves the stack and the root alone. */

  ghost predicate Writes(s: State, r: Step) {
    && r.st.stack == s.stack && r.st.root == s.root
    && (r.Refused? ==> !Guard(r.error))
  }

  lemma PutRefusal(s: State, b: bytes)
    ensures Writes(s, Put(s, b))
  {
  }

  lemma StrRefusal(s: State, v: bytes)
    ensures Writes(s, PutStr(s, v))
  {
    hide Le64, Zeros, Guard;
    PutRefusal(s, Le64(|v|));
    PutRefusal(Put(s, Le64(|v|)).st, v);
    PutRefusal(Put(Put(s, Le64(|v|)).st, v).st, Zeros(PadLength(|v|)));
  }

  lemma HeadRefusal(s: State, kind: RootKind)
    ensures Writes(s, PutHead(s, kind))
  {
    hide PutStr, Guard;
    StrRefusal(s, OPEN);
    var s1 := PutStr(s, OPEN).st;
    StrRefusal(s1, TYPE);
    StrRefusal(PutStr(s1, TYPE).st, KindName(kind));
  }

  lemma EntryRefusal(s: State, name: bytes)
    ensures Writes(s, PutEntryHead(s, name))
  {
    hide PutStr, Guard;
    StrRefusal(s, ENTRY);
    var s1 := PutStr(s, ENTRY).st;
    StrRefusal(s1, OPEN);
    var s2 := PutStr(s1, OPEN).st;
    StrRefusal(s2, NAME);
    var s3 := PutStr(s2, NAME).st;
    StrRefusal(s3, name);
    StrRefusal(PutStr(s3, name).st, NODE);
  }

  lemma FileRefusal(s: State, x: bool, size: nat)
    ensures Writes(s, PutFileHead(s, x, size))
  {
    hide PutStr, Put, Guard;
    StrRefusal(s, EXECUTABLE);
    var s1 := PutStr(s, EXECUTABLE).st;
    StrRefusal(s1, []);
    var s2 := if x then PutStr(s1, []).st else s;
    StrRefusal(s2, CONTENTS);
    PutRefusal(PutStr(s2, CONTENTS).st, Le64(size));
  }
}
