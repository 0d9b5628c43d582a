/** The streaming decoder: fixed buffers, counters updated in place, and an explicit stack of
    directory frames instead of recursion. Each method is proved against the grammar. */
module NarDecoder {
  import opened NarFormat
  import opened NarGrammar
  import opened NarArchive
  import Numerals
  import Lexicographic

  datatype Outcome<+T> = Got(value: T) | Failed(error: DecodeError) {
    predicate IsFailure() { Failed? }
    function PropagateFailure<U>(): Outcome<U>
      requires Failed?
    {
      Failed(error)
    }
    function Extract(): T
      requires Got?
    {
      value
    }
  }

  datatype DirectoryEnd = AtRoot | InEntry

  /** An open directory: the name accepted last, and how its node ends. */
  datatype Frame = Frame(previous: bytes, end: DirectoryEnd)

  datatype Current = Nothing | Open(frame: Frame)

  /* ---- what is left to do for a stack of frames ---- */

  /** Finish the innermost directory, close its entry in the parent, and so on outwards. */
  function Resume(s: State, previous: bytes, parents: seq<Frame>): Result<()>
    decreases |parents|
  {
    var (_, s) :- ParseEntries(s, |parents|, previous);
    if parents == [] then Ok((), s)
    else
      var (_, s) :- Expect(s, CLOSE);
      Resume(s, parents[|parents| - 1].previous, parents[..|parents| - 1])
  }

  ghost predicate SameEnd<T, U>(a: Result<T>, b: Result<U>) {
    a.st == b.st && (a.Ok? <==> b.Ok?) && (a.Err? ==> a.error == b.error)
  }

  /** The entry `name` has been read and its node starts in state s2. */
  ghost predicate EntersNode(s: State, previous: bytes, name: bytes, s2: State) {
    && NextEntry(s, previous).Ok? && NextEntry(s, previous).value == Next(name)
    && Expect(NextEntry(s, previous).st.Emit(Plain(EntryNamed(name))), NODE) == Ok((), s2)
  }

  lemma EntriesUnfold(s: State, depth: nat, previous: bytes, name: bytes, s2: State)
    requires EntersNode(s, previous, name, s2)
    ensures var n := ParseNode(s2, depth + 1);
            && (n.Err? ==> SameEnd(ParseEntries(s, depth, previous), n))
            && (n.Ok? ==>
                  var r := Expect(n.st, CLOSE);
                  && (r.Err? ==> SameEnd(ParseEntries(s, depth, previous), r))
                  && (r.Ok? ==> SameEnd(ParseEntries(s, depth, previous), ParseEntries(r.st, depth, name))))
  {
    hide NextEntry, Expect, StartNode, ParseNode, Advances, Moves;
  }

  lemma NodeUnfold(s: State, depth: nat)
    ensures var n := StartNode(s, depth);
            && (n.Err? ==> SameEnd(ParseNode(s, depth), n))
            && (n.Ok? && n.value.Finished? ==> ParseNode(s, depth) == Ok(n.value.leaf, n.st))
            && (n.Ok? && n.value.Opened? ==> SameEnd(ParseNode(s, depth), ParseEntries(n.st, depth, [])))
            && (n.Ok? && n.value.Opened? && ParseNode(s, depth).Ok? ==> ParseNode(s, depth).value.Directory?)
  {
    hide StartNode, ParseEntries, Orderly, Named;
  }

  lemma ResumeSame(s: State, previous: bytes, t: State, next: bytes, parents: seq<Frame>)
    requires SameEnd(ParseEntries(s, |parents|, previous), ParseEntries(t, |parents|, next))
    ensures SameEnd(Resume(s, previous, parents), Resume(t, next, parents))
  {
    hide Expect, ParseEntries, Advances, Moves;
  }

  lemma ResumeError(s: State, previous: bytes, parents: seq<Frame>)
    requires ParseEntries(s, |parents|, previous).Err?
    ensures SameEnd(Resume(s, previous, parents), ParseEntries(s, |parents|, previous))
  {
    hide Expect, ParseEntries, Advances, Moves;
  }

  /** The child cannot be read: everything fails the same way. */
  lemma ResumeFailed(s: State, previous: bytes, parents: seq<Frame>, name: bytes, s2: State)
    requires EntersNode(s, previous, name, s2) && StartNode(s2, |parents| + 1).Err?
    ensures SameEnd(Resume(s, previous, parents), StartNode(s2, |parents| + 1))
  {
    hide Expect, StartNode, ParseEntries, ParseNode, EntersNode, Resume, Advances, Moves;
    EntriesUnfold(s, |parents|, previous, name, s2);
    NodeUnfold(s2, |parents| + 1);
    ResumeError(s, previous, parents);
  }

  /** An entry whose child is a leaf: the directory goes on behind it. */
  lemma ResumeLeaf(s: State, previous: bytes, parents: seq<Frame>, name: bytes, s2: State)
    requires EntersNode(s, previous, name, s2)
    requires StartNode(s2, |parents| + 1).Ok? && StartNode(s2, |parents| + 1).value.Finished?
    ensures var r := Expect(StartNode(s2, |parents| + 1).st, CLOSE);
            && (r.Err? ==> SameEnd(Resume(s, previous, parents), r))
            && (r.Ok? ==> SameEnd(Resume(s, previous, parents), Resume(r.st, name, parents)))
  {
    hide Expect, StartNode, ParseEntries, ParseNode, EntersNode, Resume, Advances, Moves;
    EntriesUnfold(s, |parents|, previous, name, s2);
    NodeUnfold(s2, |parents| + 1);
    var r := Expect(StartNode(s2, |parents| + 1).st, CLOSE);
    if r.Ok? {
      ResumeSame(s, previous, r.st, name, parents);
    } else {
      ResumeError(s, previous, parents);
    }
  }

  /** An entry whose child is a directory: its frame goes on top of the stack. */
  lemma ResumeDirectory(s: State, previous: bytes, parents: seq<Frame>, name: bytes, end: DirectoryEnd, s2: State)
    requires EntersNode(s, previous, name, s2)
    requires StartNode(s2, |parents| + 1).Ok? && StartNode(s2, |parents| + 1).value.Opened?
    ensures SameEnd(Resume(s, previous, parents),
                    Resume(StartNode(s2, |parents| + 1).st, [], parents + [Frame(name, end)]))
  {
    hide Expect, StartNode, ParseEntries, ParseNode, EntersNode, Advances, Moves;
    EntriesUnfold(s, |parents|, previous, name, s2);
    NodeUnfold(s2, |parents| + 1);
    var deeper := parents + [Frame(name, end)];
    assert deeper[..|parents|] == parents;
    var s3 := StartNode(s2, |parents| + 1).st;
    var n := ParseEntries(s3, |parents| + 1, []);
    if n.Ok? && Expect(n.st, CLOSE).Ok? {
      ResumeSame(s, previous, Expect(n.st, CLOSE).st, name, parents);
    }
  }

  /** Only the outermost directory is the root: its frame is at the bottom of the stack. */
  ghost predicate RootAtBottom(frame: Frame, parents: seq<Frame>) {
    && (frame.end.AtRoot? <==> parents == [])
    && forall i :: 0 <= i < |parents| ==> (parents[i].end.AtRoot? <==> i == 0)
  }

  /** The directories enclosing the current one, outermost first; it remembers how many there ever were. */
  class FrameStack {
    var frames: seq<Frame>
    ghost var deepest: nat

    ghost predicate Valid()
      reads this
    {
      |frames| <= deepest
    }

    constructor ()
      ensures Valid() && frames == [] && deepest == 0
    {
      frames, deepest := [], 0;
    }

    method Push(frame: Frame)
      requires Valid()
      modifies this
      ensures Valid() && frames == old(frames) + [frame]
      ensures deepest == if |frames| > old(deepest) then |frames| else old(deepest)
    {
      frames := frames + [frame];
      deepest := if |frames| > deepest then |frames| else deepest;
    }

    method Pop() returns (top: Current)
      requires Valid()
      modifies this
      ensures Valid() && deepest == old(deepest)
      ensures old(frames) == [] ==> top == Nothing && frames == []
      ensures old(frames) != [] ==> top.Open? && old(frames) == frames + [top.frame]
    {
      if frames == [] { return Nothing; }
      top := Open(frames[|frames| - 1]);
      frames := frames[..|frames| - 1];
    }
  }

  class Decoder {
    const reader: Reader
    const limits: Limits
    const controlToken: array<byte>
    const fileBuffer: array<byte>
    var tokenLength: nat
    var symlinkTarget: bytes
    var digest: bytes
    var rawBytes: nat
    var work: u64
    var entries: nat
    var files: u64
    var symlinks: u64
    var events: seq<DecodeEvent>

    constructor (reader: Reader, limits: Limits)
      ensures Valid() && fresh(controlToken) && fresh(fileBuffer)
      ensures Snap() == Start(reader, limits)
    {
      this.reader, this.limits := reader, limits;
      controlToken, fileBuffer := new byte[TOKEN_LIMIT], new byte[CHUNK_SIZE];
      tokenLength, symlinkTarget, digest := 0, [], [];
      rawBytes, work, entries, files, symlinks, events := 0, 0, 0, 0, 0, [];
    }

    ghost predicate Valid()
      reads this
    {
      && controlToken.Length == TOKEN_LIMIT && fileBuffer.Length == CHUNK_SIZE
      && controlToken != fileBuffer && tokenLength <= TOKEN_LIMIT
      && rawBytes <= limits.maxTotalBytes
      && digest == reader.Take(0, rawBytes)
    }

    ghost function Snap(): State
      reads this
    {
      State(reader, limits, rawBytes, work, entries, files, symlinks, events)
    }

    /** The method ended as the specification does, in the same state. */
    ghost predicate Ends<T, U>(o: Outcome<T>, spec: Result<U>)
      reads this
    {
      Snap() == spec.st && (spec.Ok? ==> o.Got?) && (spec.Err? ==> o == Failed(spec.error))
    }

    ghost predicate Gives<T>(o: Outcome<T>, spec: Result<T>)
      reads this
    {
      Ends(o, spec) && (spec.Ok? ==> o == Got(spec.value))
    }

    /* ---- raw reads ---- */

    method CheckedRawByteCount(requested: u64) returns (o: Outcome<nat>)
      requires Valid()
      ensures Gives(o, CheckedCount(Snap(), requested))
    {
      if rawBytes + requested > U64_MAX {
        return Failed(LimitExceeded("raw size", limits.maxTotalBytes, U64_MAX));
      }
      if rawBytes + requested > limits.maxTotalBytes {
        return Failed(LimitExceeded("raw size", limits.maxTotalBytes, rawBytes + requested));
      }
      return Got(rawBytes + requested);
    }

    /** Fill the first n cells of a buffer from the reader and feed them to the digest. */
    method ReadInto(buffer: array<byte>, n: u64) returns (o: Outcome<()>)
      requires Valid() && n <= buffer.Length
      modifies this`rawBytes, this`digest, buffer
      ensures Valid() && Ends(o, ReadRaw(old(Snap()), n))
      ensures o.Got? ==> buffer[..n] == ReadRaw(old(Snap()), n).value
    {
      var next :- CheckedRawByteCount(n);
      if !reader.Has(rawBytes, n) {
        return Failed(Io);
      }
      forall i | 0 <= i < n {
        buffer[i] := reader.at(rawBytes + i);
      }
      assert buffer[..n] == reader.Take(rawBytes, n);
      assert digest + buffer[..n] == reader.Take(0, next);
      digest := digest + buffer[..n];
      rawBytes := next;
      return Got(());
    }

    method ReadBytes(n: u64) returns (o: Outcome<bytes>)
      requires Valid()
      modifies this`rawBytes, this`digest
      ensures Valid() && Gives(o, ReadRaw(old(Snap()), n))
    {
      var buffer := new byte[n];
      var _ :- ReadInto(buffer, n);
      assert buffer[..n] == buffer[..];
      return Got(buffer[..]);
    }

    method ReadLength() returns (o: Outcome<u64>)
      requires Valid()
      modifies this`rawBytes, this`digest
      ensures Valid() && Gives(o, ReadU64(old(Snap())))
    {
      var b :- ReadBytes(8);
      Le64Bound(b);
      return Got(Numerals.Value(b, 256));
    }

    method ReadBoundedStringLength(max: u64) returns (o: Outcome<u64>)
      requires Valid()
      modifies this`rawBytes, this`digest
      ensures Valid() && Gives(o, BoundedLength(old(Snap()), max))
    {
      var n :- ReadLength();
      if n > max {
        return Failed(LimitExceeded("string length", max, n));
      }
      var _ :- CheckedRawByteCount(Saturate(n + PadLength(n)));
      return Got(n);
    }

    method SkipPadding(n: u64) returns (o: Outcome<()>)
      requires Valid()
      modifies this`rawBytes, this`digest
      ensures Valid() && Gives(o, ReadPadding(old(Snap()), n))
    {
      if PadLength(n) == 0 {
        return Got(());
      }
      var b :- ReadBytes(PadLength(n));
      if exists i :: 0 <= i < |b| && b[i] != 0 {
        assert b != Zeros(PadLength(n));
        return Failed(NonCanonical("non-zero string padding"));
      }
      assert b == Zeros(PadLength(n));
      return Got(());
    }

    method ReadStringInto(max: u64) returns (o: Outcome<bytes>)
      requires Valid()
      modifies this`rawBytes, this`digest
      ensures Valid() && Gives(o, ReadString(old(Snap()), max))
    {
      var n :- ReadBoundedStringLength(max);
      var b :- ReadBytes(n);
      var _ :- SkipPadding(n);
      return Got(b);
    }

    /** Read a grammar token into the fixed buffer; bytes beyond its length are stale. */
    method ReadControlToken() returns (o: Outcome<()>)
      requires Valid()
      modifies this`rawBytes, this`digest, this`tokenLength, controlToken
      ensures Valid() && Ends(o, Token(old(Snap())))
      ensures o.Got? ==> controlToken[..tokenLength] == Token(old(Snap())).value
    {
      var n :- ReadBoundedStringLength(TOKEN_LIMIT);
      var _ :- ReadInto(controlToken, n);
      var _ :- SkipPadding(n);
      tokenLength := n;
      return Got(());
    }

    method ExpectToken(expected: bytes) returns (o: Outcome<()>)
      requires Valid()
      modifies this`rawBytes, this`digest, this`tokenLength, controlToken
      ensures Valid() && Gives(o, Expect(old(Snap()), expected))
    {
      var _ :- ReadControlToken();
      if controlToken[..tokenLength] != expected {
        return Failed(Invalid("unexpected token"));
      }
      return Got(());
    }

    /* ---- nodes ---- */

    method Bump() returns (o: Outcome<()>)
      requires Valid()
      modifies this`work
      ensures Valid() && Gives(o, BumpWork(old(Snap())))
    {
      work := Saturate(work + 1);
      if work > limits.maxWork {
        return Failed(LimitExceeded("work", limits.maxWork, work));
      }
      return Got(());
    }

    method ReadNodeKind() returns (o: Outcome<RootKind>)
      requires Valid()
      modifies this`rawBytes, this`digest, this`tokenLength, controlToken
      ensures Valid() && Gives(o, NodeKind(old(Snap())))
    {
      hide Token, Expect;
      var _ :- ExpectToken(OPEN);
      var _ :- ExpectToken(TYPE);
      var _ :- ReadControlToken();
      var kind := controlToken[..tokenLength];
      if kind == KindName(DirectoryKind) { return Got(DirectoryKind); }
      if kind == KindName(RegularKind) { return Got(RegularKind); }
      if kind == KindName(SymlinkKind) { return Got(SymlinkKind); }
      return Failed(Invalid("unknown NAR node type"));
    }

    method ReadExecutableFlag() returns (o: Outcome<bool>)
      requires Valid()
      modifies this`rawBytes, this`digest, this`tokenLength, controlToken
      ensures Valid() && Gives(o, ExecutableFlag(old(Snap())))
    {
      hide Token, Expect;
      var _ :- ReadControlToken();
      if controlToken[..tokenLength] == CONTENTS { return Got(false); }
      if controlToken[..tokenLength] != EXECUTABLE {
        return Failed(Invalid("regular contents expected"));
      }
      var _ :- ReadControlToken();
      if controlToken[..tokenLength] != [] {
        return Failed(NonCanonical("the executable marker must have an empty value"));
      }
      var _ :- ExpectToken(CONTENTS);
      return Got(true);
    }

    method ReadFileChunk(n: u64) returns (o: Outcome<()>)
      requires Valid() && n <= CHUNK_SIZE
      modifies this`rawBytes, this`digest, this`events, fileBuffer
      ensures Valid()
      ensures var r := ReadRaw(old(Snap()), n);
              && (r.Err? ==> Ends(o, r))
              && (r.Ok? ==> o.Got? && Snap() == r.st.Emit(Plain(FileChunk(r.value))))
    {
      var _ :- ReadInto(fileBuffer, n);
      events := events + [Plain(FileChunk(fileBuffer[..n]))];
      return Got(());
    }

    method StreamFileContents(size: u64) returns (o: Outcome<()>)
      requires Valid()
      modifies this`rawBytes, this`digest, this`events, fileBuffer
      ensures Valid() && Ends(o, StreamContents(old(Snap()), size))
    {
      hide Orderly, Named, ReadRaw;
      var offset := 0;
      while offset < size
        invariant offset <= size && Valid()
        invariant SameEnd(StreamContents(old(Snap()), size), StreamContents(Snap(), size - offset))
      {
        var length := if size - offset < CHUNK_SIZE then size - offset else CHUNK_SIZE;
        var _ :- ReadFileChunk(length);
        offset := offset + length;
      }
      return Got(());
    }

    method ReadFileContents(size: u64) returns (o: Outcome<()>)
      requires Valid()
      modifies this, controlToken, fileBuffer
      ensures Valid() && Ends(o, FileContents(old(Snap()), size))
    {
      hide Orderly, Named, StreamContents, ReadPadding, Expect;
      var _ :- StreamFileContents(size);
      var _ :- SkipPadding(size);
      events := events + [Plain(EndFile)];
      var _ :- ExpectToken(CLOSE);
      return Got(());
    }

    method DecodeRegularFile() returns (o: Outcome<RootKind>)
      requires Valid()
      modifies this, controlToken, fileBuffer
      ensures Valid() && Ends(o, RegularNode(old(Snap()))) && (o.Got? ==> o.value == RegularKind)
    {
      hide Orderly, Named, ExecutableFlag, ReadU64, FileContents;
      var executable :- ReadExecutableFlag();
      var size :- ReadLength();
      if size > limits.maxFileBytes {
        return Failed(LimitExceeded("file size", limits.maxFileBytes, size));
      }
      events := events + [FileAt(executable, size, rawBytes)];
      var _ :- ReadFileContents(size);
      files := Saturate(files + 1);
      return Got(RegularKind);
    }

    method ReadSymlinkTarget() returns (o: Outcome<()>)
      requires Valid()
      modifies this`rawBytes, this`digest, this`tokenLength, this`symlinkTarget, controlToken
      ensures Valid()
      ensures var e := Expect(old(Snap()), TARGET);
              && (e.Err? ==> Ends(o, e))
              && (e.Ok? ==>
                    var r := ReadString(e.st, limits.maxSymlinkTargetBytes);
                    && Snap() == r.st
                    && (r.Err? ==> o == Failed(r.error))
                    && (r.Ok? ==>
                          && symlinkTarget == r.value
                          && o == if ValidTarget(r.value) then Got(()) else Failed(NonCanonical(TargetError(r.value)))))
    {
      hide Expect, ReadString;
      var _ :- ExpectToken(TARGET);
      var target :- ReadStringInto(limits.maxSymlinkTargetBytes);
      symlinkTarget := target;
      if symlinkTarget == [] {
        return Failed(NonCanonical("symlink target is empty"));
      }
      if 0 in symlinkTarget {
        return Failed(NonCanonical("symlink target contains NUL"));
      }
      return Got(());
    }

    method DecodeSymlink() returns (o: Outcome<RootKind>)
      requires Valid()
      modifies this, controlToken, fileBuffer
      ensures Valid() && Ends(o, SymlinkNode(old(Snap()))) && (o.Got? ==> o.value == SymlinkKind)
    {
      hide Orderly, Named, Expect, ReadString, ValidTarget, TargetError;
      var _ :- ReadSymlinkTarget();
      events := events + [Plain(SymlinkTo(symlinkTarget))];
      var _ :- ExpectToken(CLOSE);
      symlinks := Saturate(symlinks + 1);
      return Got(SymlinkKind);
    }

    method DecodeNode(depth: nat) returns (o: Outcome<RootKind>)
      requires Valid()
      modifies this, controlToken, fileBuffer
      ensures Valid() && Ends(o, StartNode(old(Snap()), depth))
      ensures o.Got? ==> (o.value == DirectoryKind <==> StartNode(old(Snap()), depth).value.Opened?)
      ensures o.Got? ==> depth <= limits.maxDepth
      ensures o.Got? && StartNode(old(Snap()), depth).value.Finished?
              ==> o.value == StartNode(old(Snap()), depth).value.leaf.Kind()
    {
      hide Orderly, Named, NodeKind, RegularNode, SymlinkNode;
      var _ :- Bump();
      if depth > limits.maxDepth {
        return Failed(LimitExceeded("directory depth", limits.maxDepth, Saturate(depth)));
      }
      var kind :- ReadNodeKind();
      match kind
      case DirectoryKind =>
        events := events + [DirectoryAt(depth)];
        return Got(DirectoryKind);
      case RegularKind =>
        LeafKinds(Snap());
        o := DecodeRegularFile();
      case SymlinkKind =>
        LeafKinds(Snap());
        o := DecodeSymlink();
    }

    static lemma LeafKinds(s: State)
      ensures RegularNode(s).Ok? ==> RegularNode(s).value.Regular?
      ensures SymlinkNode(s).Ok? ==> SymlinkNode(s).value.Symlink?
    {
      hide ExecutableFlag, ReadU64, FileContents, Expect, ReadString, Orderly, Named;
    }

    /* ---- directories ---- */

    method ReadNextEntryName(previous: bytes) returns (o: Outcome<NextName>)
      requires Valid()
      modifies this, controlToken, fileBuffer
      ensures Valid() && Gives(o, NextEntry(old(Snap()), previous))
    {
      hide Token, OrderedName, Orderly, Named;
      var _ :- Bump();
      var _ :- ReadControlToken();
      if controlToken[..tokenLength] == CLOSE { return Got(NoMore); }
      if controlToken[..tokenLength] != ENTRY {
        return Failed(Invalid("directory entry expected"));
      }
      if entries + 1 > U64_MAX {
        return Failed(LimitExceeded("entry count", limits.maxEntries, U64_MAX));
      }
      entries := entries + 1;
      if entries > limits.maxEntries {
        return Failed(LimitExceeded("entry count", limits.maxEntries, entries));
      }
      var name :- ReadOrderedName(previous);
      return Got(Next(name));
    }

    method ReadOrderedName(previous: bytes) returns (o: Outcome<bytes>)
      requires Valid()
      modifies this`rawBytes, this`digest, this`tokenLength, controlToken
      ensures Valid() && Gives(o, OrderedName(old(Snap()), previous))
    {
      hide Expect, ReadString, ValidName;
      var _ :- ExpectToken(OPEN);
      var _ :- ExpectToken(NAME);
      var name :- ReadStringInto(limits.maxNameBytes);
      if !ValidName(name) {
        return Failed(NonCanonical("invalid directory entry name"));
      }
      if !Lexicographic.Less(previous, name) {
        return Failed(NonCanonical("directory entries are not strictly ordered"));
      }
      return Got(name);
    }

    /** One step of the tree loop: the next entry with its node, or the end of the directory on
        top of the stack. Returns the new top; the stack holds what is below it. */
    method DecodeChildOrEnd(frame: Frame, parents: FrameStack) returns (o: Outcome<Current>)
      requires Valid() && parents.Valid() && parents.deepest <= limits.maxDepth
      requires RootAtBottom(frame, parents.frames)
      modifies this, controlToken, fileBuffer, parents
      ensures Valid() && parents.Valid() && parents.deepest <= limits.maxDepth
      ensures o.Failed? ==> Ends(o, Resume(old(Snap()), frame.previous, old(parents.frames)))
      ensures o.Got? && o.value.Nothing? ==>
                Resume(old(Snap()), frame.previous, old(parents.frames)) == Ok((), Snap())
      ensures o.Got? && o.value.Open? ==>
                && SameEnd(Resume(old(Snap()), frame.previous, old(parents.frames)),
                           Resume(Snap(), o.value.frame.previous, parents.frames))
                && RootAtBottom(o.value.frame, parents.frames)
      ensures o.Got? ==> old(rawBytes) < rawBytes
    {
      hide NextEntry, Expect, StartNode, Orderly, Named;
      ghost var s := Snap();
      var next :- ReadNextEntryName(frame.previous);
      if next.NoMore? {
        events := events + [Plain(EndDirectory)];
        if frame.end.InEntry? {
          var _ :- ExpectToken(CLOSE);
        }
        var top := parents.Pop();
        return Got(top);
      }
      events := events + [Plain(EntryNamed(next.name))];
      var _ :- ExpectToken(NODE);
      o := DecodeChildNode(Frame(next.name, frame.end), parents, frame.previous, s);
    }

    /** The node of the entry `parent.previous`: a directory goes on top of the stack, a leaf is closed. */
    method DecodeChildNode(parent: Frame, parents: FrameStack, ghost previous: bytes, ghost s: State)
      returns (o: Outcome<Current>)
      requires Valid() && parents.Valid() && parents.deepest <= limits.maxDepth
      requires RootAtBottom(parent, parents.frames)
      requires EntersNode(s, previous, parent.previous, Snap())
      modifies this, controlToken, fileBuffer, parents
      ensures Valid() && parents.Valid() && parents.deepest <= limits.maxDepth
      ensures o.Failed? ==> Ends(o, Resume(s, previous, old(parents.frames)))
      ensures o.Got? ==>
                && o.value.Open?
                && SameEnd(Resume(s, previous, old(parents.frames)),
                           Resume(Snap(), o.value.frame.previous, parents.frames))
                && RootAtBottom(o.value.frame, parents.frames)
                && old(rawBytes) <= rawBytes
    {
      hide EntersNode, Expect, StartNode, Orderly, Named, Resume;
      ghost var s2, frames := Snap(), parents.frames;
      if StartNode(s2, |frames| + 1).Err? {
        ResumeFailed(s, previous, frames, parent.previous, s2);
      }
      var kind :- DecodeNode(|parents.frames| + 1);
      if kind == DirectoryKind {
        ResumeDirectory(s, previous, frames, parent.previous, parent.end, s2);
        parents.Push(parent);
        return Got(Open(Frame([], InEntry)));
      }
      ResumeLeaf(s, previous, frames, parent.previous, s2);
      var _ :- ExpectToken(CLOSE);
      return Got(Open(parent));
    }

    /** Work off the open directories. The stack never holds more frames than the depth limit. */
    method DecodeFrames(first: Current, parents: FrameStack, ghost s: State) returns (o: Outcome<()>)
      requires Valid() && parents.Valid() && parents.frames == [] && parents.deepest == 0
      requires first.Nothing? ==> ParseNode(s, 0).Ok? && ParseNode(s, 0).st == Snap()
      requires first.Open? ==> SameEnd(ParseNode(s, 0), Resume(Snap(), first.frame.previous, []))
      requires first.Open? ==> first.frame.end.AtRoot?
      modifies this, controlToken, fileBuffer, parents
      ensures Valid() && Ends(o, ParseNode(s, 0))
      ensures parents.deepest <= limits.maxDepth
    {
      hide ParseEntries, ParseNode, Orderly, Named, Resume;
      var current := first;
      while current.Open?
        invariant Valid() && parents.Valid() && parents.deepest <= limits.maxDepth
        invariant current.Nothing? ==> ParseNode(s, 0).Ok? && ParseNode(s, 0).st == Snap()
        invariant current.Open? ==>
                    SameEnd(ParseNode(s, 0), Resume(Snap(), current.frame.previous, parents.frames))
        invariant current.Open? ==> RootAtBottom(current.frame, parents.frames)
        decreases current.Open?, limits.maxTotalBytes - rawBytes
      {
        current :- DecodeChildOrEnd(current.frame, parents);
      }
      return Got(());
    }

    method DecodeTree() returns (o: Outcome<RootKind>)
      requires Valid()
      modifies this, controlToken, fileBuffer
      ensures Valid() && Ends(o, ParseNode(old(Snap()), 0))
      ensures o.Got? ==> o.value == ParseNode(old(Snap()), 0).value.Kind()
    {
      hide StartNode, ParseEntries, ParseNode, Orderly, Named;
      ghost var s := Snap();
      NodeUnfold(s, 0);
      var root :- DecodeNode(0);
      var current := if root == DirectoryKind then Open(Frame([], AtRoot)) else Nothing;
      var parents := new FrameStack();
      var _ :- DecodeFrames(current, parents, s);
      return Got(root);
    }

    /** Decode one archive. */
    method DecodeArchive() returns (o: Outcome<Summary>)
      requires Valid() && Snap() == Start(reader, limits)
      modifies this, controlToken, fileBuffer
      ensures Ends(o, Decode(reader, limits))
      ensures o.Got? ==> o.value == Summarize(Decode(reader, limits).value.Kind(), Snap())
    {
      hide Expect, ParseNode, Orderly, Named;
      var _ :- ExpectToken(MAGIC);
      var root :- DecodeTree();
      if reader.end == FailsAt(rawBytes) { return Failed(Io); }
      if reader.end != EndsAt(rawBytes) {
        return Failed(Invalid("trailing bytes after root node"));
      }
      return Got(Summary(root, rawBytes, digest, entries, files, symlinks));
    }
  }
}
