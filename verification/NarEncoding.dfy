/** What the event-driven NAR encoder computes, as functions on its state. A refused event
    leaves behind whatever had been written or changed before the refusal. */
module NarEncoding {
  import opened NarFormat
  import Lexicographic

  datatype EncodeError =
    | Invalid(what: string)
    | NonCanonical(what: string)
    | LimitExceeded(what: string, limit: u64, actual: u64)

  datatype OpenNode =
    | Ready(last: Last)
    | ChildOpen(name: bytes)
    | OpenRegular(remaining: nat, size: nat)

  datatype Last = NoName | LastName(name: bytes)

  datatype RootState = Awaiting | OpenRoot(kind: RootKind) | Complete(kind: RootKind)

  datatype State = State(
    limits: Limits,
    out: bytes,
    root: RootState,
    stack: seq<OpenNode>,
    entries: nat,
    files: u64,
    symlinks: u64,
    work: u64)
  {
    function Top(): OpenNode
      requires stack != []
    {
      stack[|stack| - 1]
    }

    function Push(node: OpenNode): State {
      this.(stack := stack + [node])
    }

    function Pop(): State
      requires stack != []
    {
      this.(stack := stack[..|stack| - 1])
    }

    function SetTop(node: OpenNode): State
      requires stack != []
    {
      this.(stack := stack[..|stack| - 1] + [node])
    }
  }

  datatype Step = Done(st: State) | Refused(error: EncodeError, st: State) {
    predicate IsFailure() { Refused? }
    function PropagateFailure(): Step
      requires Refused?
    {
      this
    }
    function Extract(): State
      requires Done?
    {
      st
    }
  }

  /** Output and counters are never taken back, and output and entries never pass their limits, refused or not. */
  ghost predicate Extends(s: State, t: State) {
    && t.limits == s.limits && s.out <= t.out
    && (|s.out| <= s.limits.maxTotalBytes ==> |t.out| <= t.limits.maxTotalBytes)
    && s.work <= t.work && s.entries <= t.entries && s.files <= t.files && s.symlinks <= t.symlinks
    && (s.entries <= s.limits.maxEntries ==> t.entries <= t.limits.maxEntries)
  }

  /* ---- writing ---- */

  function Put(s: State, b: bytes): (r: Step)
    ensures Extends(s, r.st)
  {
    var next := |s.out| + |b|;
    if next > U64_MAX then Refused(LimitExceeded("raw size", s.limits.maxTotalBytes, U64_MAX), s)
    else if next > s.limits.maxTotalBytes then
      Refused(LimitExceeded("raw size", s.limits.maxTotalBytes, next), s)
    else Done(s.(out := s.out + b))
  }

  function PutStr(s: State, v: bytes): (r: Step)
    ensures Extends(s, r.st)
  {
    var s :- Put(s, Le64(|v|));
    var s :- Put(s, v);
    Put(s, Zeros(PadLength(|v|)))
  }

  function PutHead(s: State, kind: RootKind): (r: Step)
    ensures Extends(s, r.st)
  {
    var s :- PutStr(s, OPEN);
    var s :- PutStr(s, TYPE);
    PutStr(s, KindName(kind))
  }

  function PutEntryHead(s: State, name: bytes): (r: Step)
    ensures Extends(s, r.st)
  {
    var s :- PutStr(s, ENTRY);
    var s :- PutStr(s, OPEN);
    var s :- PutStr(s, NAME);
    var s :- PutStr(s, name);
    PutStr(s, NODE)
  }

  function PutFileHead(s: State, executable: bool, size: nat): (r: Step)
    ensures Extends(s, r.st)
  {
    var s :- if executable then (var s :- PutStr(s, EXECUTABLE); PutStr(s, [])) else Done(s);
    var s :- PutStr(s, CONTENTS);
    Put(s, Le64(size))
  }

  /* ---- opening and closing nodes ---- */

  function EnsureOpen(s: State): (r: Step)
    ensures Extends(s, r.st)
  {
    if s.root.Complete? then Refused(Invalid("events follow the completed root"), s) else Done(s)
  }

  function BeginNode(s: State, kind: RootKind): (r: Step)
    ensures Extends(s, r.st)
  {
    var s :- EnsureOpen(s);
    if |s.stack| > s.limits.maxDepth then
      Refused(LimitExceeded("directory depth", s.limits.maxDepth, Saturate(|s.stack|)), s)
    else if s.stack != [] then
      match s.Top()
      case ChildOpen(_) => Done(s)
      case Ready(_) => Refused(Invalid("node is not preceded by a directory entry"), s)
      case OpenRegular(_, _) => Refused(Invalid("node is nested under a regular file"), s)
    else
      match s.root
      case Awaiting => Done(s.(root := OpenRoot(kind)))
      case _ => Refused(Invalid("multiple root nodes"), s)
  }

  /** Close the parent's entry, or the root. */
  function FinishParent(s: State): (r: Step)
    ensures Extends(s, r.st)
  {
    if s.stack != [] then
      match s.Top()
      case ChildOpen(name) =>
        var s :- PutStr(s, CLOSE);
        Done(s.SetTop(Ready(LastName(name))))
      case Ready(_) => Refused(Invalid("completed node has no parent entry"), s)
      case OpenRegular(_, _) => Refused(Invalid("node is nested under a regular file"), s)
    else
      match s.root
      case OpenRoot(kind) => Done(s.(root := Complete(kind)))
      case _ => Refused(Invalid("the root node is incomplete"), s)
  }

  function CloseNode(s: State): (r: Step)
    ensures Extends(s, r.st)
  {
    var s :- PutStr(s, CLOSE);
    FinishParent(s)
  }

  /* ---- events ---- */

  function OnBeginDirectory(s: State): (r: Step)
    ensures Extends(s, r.st)
  {
    var s :- BeginNode(s, DirectoryKind);
    var s :- PutHead(s, DirectoryKind);
    Done(s.Push(Ready(NoName)))
  }

  function OnEntry(s: State, name: bytes): (r: Step)
    ensures Extends(s, r.st)
  {
    var s :- EnsureOpen(s);
    if |name| > s.limits.maxNameBytes then
      Refused(LimitExceeded("name length", s.limits.maxNameBytes, Saturate(|name|)), s)
    else if s.entries + 1 > U64_MAX then
      Refused(LimitExceeded("entry count", s.limits.maxEntries, U64_MAX), s)
    else if s.entries + 1 > s.limits.maxEntries then
      Refused(LimitExceeded("entry count", s.limits.maxEntries, s.entries + 1), s)
    else if !ValidName(name) then Refused(NonCanonical("invalid directory entry name"), s)
    else if s.stack == [] || s.Top().OpenRegular? then Refused(Invalid("entry outside a directory"), s)
    else if s.Top().ChildOpen? then Refused(Invalid("directory entry is missing its child"), s)
    else if s.Top().last.LastName? && !Lexicographic.Less(s.Top().last.name, name) then
      Refused(NonCanonical("directory entries are not strictly ordered"), s)
    else
      var next := s.entries + 1;
      var s :- PutEntryHead(s.SetTop(ChildOpen(name)), name);
      Done(s.(entries := next))
  }

  function OnBeginFile(s: State, executable: bool, size: nat): (r: Step)
    ensures Extends(s, r.st)
  {
    if size > s.limits.maxFileBytes then
      Refused(LimitExceeded("file size", s.limits.maxFileBytes, Saturate(size)), s)
    else
      var s :- BeginNode(s, RegularKind);
      var s :- PutHead(s, RegularKind);
      var s :- PutFileHead(s, executable, size);
      Done(s.Push(OpenRegular(size, size)))
  }

  function OnFileChunk(s: State, chunk: bytes): (r: Step)
    ensures Extends(s, r.st)
  {
    if s.stack == [] || !s.Top().OpenRegular? then Refused(Invalid("file chunk outside a regular node"), s)
    else if |chunk| > s.Top().remaining then
      Refused(Invalid("file body is larger than its declared size"), s)
    else
      var node := s.Top();
      var s :- Put(s, chunk);
      Done(s.SetTop(OpenRegular(node.remaining - |chunk|, node.size)))
  }

  function OnEndFile(s: State): (r: Step)
    ensures Extends(s, r.st)
  {
    if s.stack == [] || !s.Top().OpenRegular? then Refused(Invalid("file end outside a regular node"), s)
    else if s.Top().remaining != 0 then
      Refused(Invalid("file body is smaller than its declared size"), s)
    else
      var size := s.Top().size;
      var s :- Put(s, Zeros(PadLength(size)));
      var s :- CloseNode(s.Pop());
      Done(s.(files := Saturate(s.files + 1)))
  }

  function OnSymlink(s: State, target: bytes): (r: Step)
    ensures Extends(s, r.st)
  {
    hide PutHead, PutStr, BeginNode, CloseNode;
    if |target| > s.limits.maxSymlinkTargetBytes then
      Refused(LimitExceeded("symlink target length", s.limits.maxSymlinkTargetBytes, Saturate(|target|)), s)
    else if !ValidTarget(target) then
      Refused(NonCanonical(if target == [] then "symlink target is empty" else "symlink target contains NUL"), s)
    else
      var s :- BeginNode(s, SymlinkKind);
      var s :- PutHead(s, SymlinkKind);
      var s :- PutStr(s, TARGET);
      var s :- PutStr(s, target);
      var s :- CloseNode(s);
      Done(s.(symlinks := Saturate(s.symlinks + 1)))
  }

  function OnEndDirectory(s: State): (r: Step)
    ensures Extends(s, r.st)
  {
    if s.stack == [] || !s.Top().Ready? then
      Refused(Invalid("directory end is outside a directory or has an open child"), s)
    else CloseNode(s.Pop())
  }

  function Dispatch(s: State, e: EncodeEvent): (r: Step)
    ensures Extends(s, r.st)
  {
    match e
    case BeginDirectory => OnBeginDirectory(s)
    case EntryNamed(name) => OnEntry(s, name)
    case BeginFile(x, size) => OnBeginFile(s, x, size)
    case FileChunk(chunk) => OnFileChunk(s, chunk)
    case EndFile => OnEndFile(s)
    case SymlinkTo(target) => OnSymlink(s, target)
    case EndDirectory => OnEndDirectory(s)
  }

  function BumpWork(s: State): (r: Step)
    ensures Extends(s, r.st)
  {
    var s := s.(work := Saturate(s.work + 1));
    if s.work > s.limits.maxWork then Refused(LimitExceeded("work", s.limits.maxWork, s.work), s)
    else Done(s)
  }

  function PushEvent(s: State, e: EncodeEvent): (r: Step)
    ensures Extends(s, r.st)
    ensures r.Done? ==> Saturate(s.work + 1) <= s.limits.maxWork
  {
    var s :- BumpWork(s);
    Dispatch(s, e)
  }

  function Run(s: State, events: seq<EncodeEvent>): (r: Step)
    ensures Extends(s, r.st)
    decreases |events|
  {
    if events == [] then Done(s)
    else
      var s :- PushEvent(s, events[0]);
      Run(s, events[1..])
  }

  function Create(limits: Limits): (r: Step)
    ensures r.st.limits == limits && |r.st.out| <= limits.maxTotalBytes
  {
    PutStr(State(limits, [], Awaiting, [], 0, 0, 0, 0), MAGIC)
  }

  /** A whole encoding: all events accepted, and the root complete at the end. */
  function Encode(limits: Limits, events: seq<EncodeEvent>): (r: Step)
    ensures r.Done? ==> r.st.root.Complete?
    ensures r.st.limits == limits && |r.st.out| <= limits.maxTotalBytes
  {
    var s :- Create(limits);
    var s :- Run(s, events);
    if s.root.Complete? then Done(s) else Refused(Invalid("the root node is incomplete"), s)
  }
}
