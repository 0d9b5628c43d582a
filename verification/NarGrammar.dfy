/** What the streaming NAR decoder computes, as functions on its state: token reading with
    resource limits, the leaf nodes, and the recursive grammar that the decoder's explicit
    frame stack has to agree with. */
module NarGrammar {
  import opened NarFormat
  import Numerals
  import Lexicographic

  const TOKEN_LIMIT: u64 := 256

  /* ---- the reader ---- */

  /** Where a reader stops: never, with end of file, or with an I/O error. */
  datatype Ending = Endless | EndsAt(length: nat) | FailsAt(length: nat)

  datatype Reader = Reader(at: nat -> byte, end: Ending) {
    predicate Has(p: nat, n: nat) {
      match end
      case Endless => true
      case EndsAt(length) => p + n <= length
      case FailsAt(length) => p + n <= length
    }

    function Take(p: nat, n: nat): (b: bytes)
      ensures |b| == n
    {
      seq<byte>(n, i requires 0 <= i < n => at(p + i))
    }

    /** The bytes b stand at offset p. */
    predicate Holds(p: nat, b: bytes) {
      Has(p, |b|) && Take(p, |b|) == b
    }
  }

  function FromBytes(b: bytes): Reader {
    Reader((i: nat) => if i < |b| then b[i] else 0, EndsAt(|b|))
  }

  lemma HoldsConcat(r: Reader, p: nat, a: bytes, b: bytes)
    ensures r.Holds(p, a + b) <==> r.Holds(p, a) && r.Holds(p + |a|, b)
  {
    var t := r.Take(p, |a| + |b|);
    assert t[..|a|] == r.Take(p, |a|);
    assert t[|a|..] == r.Take(p + |a|, |b|);
    if t == a + b {
      assert t[..|a|] == a && t[|a|..] == b;
    }
    assert t == t[..|a|] + t[|a|..];
  }

  /* ---- state and results ---- */

  datatype DecodeError =
    | Io
    | Invalid(what: string)
    | NonCanonical(what: string)
    | LimitExceeded(what: string, limit: u64, actual: u64)

  datatype State = State(
    reader: Reader,
    limits: Limits,
    raw: nat,
    work: u64,
    entries: nat,
    files: u64,
    symlinks: u64,
    events: seq<DecodeEvent>)
  {
    function Skip(n: nat): State
    {
      this.(raw := raw + n)
    }

    function Emit(e: DecodeEvent): (s: State)
      ensures Named(s.events) == Named(events) + if IsName(e) then 1 else 0
      ensures Permitted(e, limits) && !IsName(e) && Orderly(events, entries, limits)
              ==> Orderly(s.events, entries, limits)
      ensures Permitted(e, limits) && 0 < entries <= limits.maxEntries && Orderly(events, entries - 1, limits)
              ==> Orderly(s.events, entries, limits)
    {
      assert (events + [e])[..|events|] == events;
      this.(events := events + [e])
    }
  }

  /** A value and the state after it, or an error and the state the decoder had reached. */
  datatype Result<+T> = Ok(value: T, st: State) | Err(error: DecodeError, st: State) {
    predicate IsFailure() { Err? }
    function PropagateFailure<U>(): Result<U>
      requires Err?
    {
      Err(error, st)
    }
    function Extract(): (T, State)
      requires Ok?
    {
      (value, st)
    }
  }

  predicate IsName(e: DecodeEvent) {
    e.Plain? && e.event.EntryNamed?
  }

  /** How many entry names a log of events holds. */
  function Named(events: seq<DecodeEvent>): nat {
    if events == [] then 0
    else Named(events[..|events| - 1]) + if IsName(events[|events| - 1]) then 1 else 0
  }

  /** An event the limits permit. */
  predicate Permitted(e: DecodeEvent, limits: Limits) {
    match e
    case DirectoryAt(depth) => depth <= limits.maxDepth
    case FileAt(_, size, _) => size <= limits.maxFileBytes
    case Plain(EntryNamed(name)) => |name| <= limits.maxNameBytes && ValidName(name)
    case Plain(FileChunk(chunk)) => 0 < |chunk| <= CHUNK_SIZE
    case Plain(SymlinkTo(target)) => |target| <= limits.maxSymlinkTargetBytes && ValidTarget(target)
    case Plain(_) => true
  }

  ghost predicate Orderly(events: seq<DecodeEvent>, entries: nat, limits: Limits) {
    && Named(events) <= entries && Named(events) <= limits.maxEntries
    && forall i :: 0 <= i < |events| ==> Permitted(events[i], limits)
  }

  /** Nothing the decoder does moves backwards, passes the total-size limit, takes back an
      event, or reports one that the limits forbid. This holds on errors as well. */
  ghost predicate Advances(s: State, t: State) {
    && t.reader == s.reader && t.limits == s.limits
    && s.raw <= t.raw && s.events <= t.events
    && (s.raw <= s.limits.maxTotalBytes ==> t.raw <= t.limits.maxTotalBytes)
    && (Orderly(s.events, s.entries, s.limits) ==> Orderly(t.events, t.entries, t.limits))
  }

  /** Reading a token changes the position and nothing else. */
  ghost predicate Moves(s: State, t: State) {
    && t == s.(raw := t.raw) && s.raw <= t.raw
    && (s.raw <= s.limits.maxTotalBytes ==> t.raw <= t.limits.maxTotalBytes)
  }

  /* ---- raw reads ---- */

  function CheckedCount(s: State, requested: u64): (r: Result<u64>)
    ensures r.st == s
    ensures r.Ok? <==> s.raw + requested <= s.limits.maxTotalBytes
  {
    if s.raw + requested > U64_MAX then
      Err(LimitExceeded("raw size", s.limits.maxTotalBytes, U64_MAX), s)
    else if s.raw + requested > s.limits.maxTotalBytes then
      Err(LimitExceeded("raw size", s.limits.maxTotalBytes, s.raw + requested), s)
    else Ok(s.raw + requested, s)
  }

  function ReadRaw(s: State, n: u64): (r: Result<bytes>)
    ensures Moves(s, r.st)
    ensures r.Ok? ==> |r.value| == n && r.st == s.Skip(n) && r.st.raw <= s.limits.maxTotalBytes
  {
    var (next, s) :- CheckedCount(s, n);
    if !s.reader.Has(s.raw, n) then Err(Io, s)
    else Ok(s.reader.Take(s.raw, n), s.(raw := next))
  }

  function ReadU64(s: State): (r: Result<u64>)
    ensures Moves(s, r.st)
    ensures r.Ok? ==> r.st == s.Skip(8) && r.st.raw <= s.limits.maxTotalBytes
  {
    var (b, s) :- ReadRaw(s, 8);
    Le64Bound(b);
    Ok(Numerals.Value(b, 256), s)
  }

  lemma Le64Bound(b: bytes)
    requires |b| == 8
    ensures Numerals.Value(b, 256) <= U64_MAX
    ensures Le64(Numerals.Value(b, 256)) == b
  {
    Numerals.DigitsOfValue(b, 256);
    PowTwo64();
  }

  lemma PowTwo64()
    ensures Numerals.Pow(256, 8) == U64_MAX + 1
  {
    assert Numerals.Pow(256, 4) == 0x1_0000_0000;
    assert Numerals.Pow(256, 6) == 256 * Numerals.Pow(256, 5) == 256 * 256 * 0x1_0000_0000;
  }

  function BoundedLength(s: State, max: u64): (r: Result<u64>)
    ensures r.Ok? ==> r.value <= max
    ensures Moves(s, r.st)
    ensures r.Ok? ==> r.st.raw == s.raw + 8
  {
    var (n, s) :- ReadU64(s);
    if n > max then Err(LimitExceeded("string length", max, n), s)
    else
      var (_, s) :- CheckedCount(s, Saturate(n + PadLength(n)));
      Ok(n, s)
  }

  function ReadPadding(s: State, n: u64): (r: Result<()>)
    ensures Moves(s, r.st)
    ensures r.Ok? ==> r.st.raw == s.raw + PadLength(n)
  {
    if PadLength(n) == 0 then Ok((), s)
    else
      var (b, s) :- ReadRaw(s, PadLength(n));
      if b != Zeros(PadLength(n)) then Err(NonCanonical("non-zero string padding"), s)
      else Ok((), s)
  }

  function ReadString(s: State, max: u64): (r: Result<bytes>)
    ensures r.Ok? ==> |r.value| <= max
    ensures Moves(s, r.st)
    ensures r.Ok? ==> s.raw < r.st.raw <= s.limits.maxTotalBytes
  {
    var (n, s) :- BoundedLength(s, max);
    var (b, s) :- ReadRaw(s, n);
    var (_, s) :- ReadPadding(s, n);
    Ok(b, s)
  }

  function Token(s: State): (r: Result<bytes>)
    ensures Moves(s, r.st)
    ensures r.Ok? ==> s.raw < r.st.raw <= s.limits.maxTotalBytes
  {
    ReadString(s, TOKEN_LIMIT)
  }

  function Expect(s: State, expected: bytes): (r: Result<()>)
    ensures Moves(s, r.st)
    ensures r.Ok? ==> s.raw < r.st.raw <= s.limits.maxTotalBytes
  {
    var (b, s) :- Token(s);
    if b == expected then Ok((), s) else Err(Invalid("unexpected token"), s)
  }

  /* ---- nodes ---- */

  function BumpWork(s: State): (r: Result<()>)
    ensures r.st == s.(work := r.st.work)
  {
    var s := s.(work := Saturate(s.work + 1));
    if s.work > s.limits.maxWork then Err(LimitExceeded("work", s.limits.maxWork, s.work), s)
    else Ok((), s)
  }

  function NodeKind(s: State): (r: Result<RootKind>)
    ensures Moves(s, r.st)
    ensures r.Ok? ==> s.raw < r.st.raw <= s.limits.maxTotalBytes
  {
    var (_, s) :- Expect(s, OPEN);
    var (_, s) :- Expect(s, TYPE);
    var (b, s) :- Token(s);
    if b == KindName(DirectoryKind) then Ok(DirectoryKind, s)
    else if b == KindName(RegularKind) then Ok(RegularKind, s)
    else if b == KindName(SymlinkKind) then Ok(SymlinkKind, s)
    else Err(Invalid("unknown NAR node type"), s)
  }

  function ExecutableFlag(s: State): (r: Result<bool>)
    ensures Moves(s, r.st)
  {
    var (field, s) :- Token(s);
    if field == CONTENTS then Ok(false, s)
    else if field != EXECUTABLE then Err(Invalid("regular contents expected"), s)
    else
      var (marker, s) :- Token(s);
      if marker != [] then Err(NonCanonical("the executable marker must have an empty value"), s)
      else
        var (_, s) :- Expect(s, CONTENTS);
        Ok(true, s)
  }

  /** The rest of a file body, read and reported piece by piece. */
  function StreamContents(s: State, remaining: u64): (r: Result<bytes>)
    ensures Advances(s, r.st) && r.st.entries == s.entries
    decreases remaining
  {
    if remaining == 0 then Ok([], s)
    else
      var k := if remaining < CHUNK_SIZE then remaining else CHUNK_SIZE;
      var (b, s) :- ReadRaw(s, k);
      var (rest, s) :- StreamContents(s.Emit(Plain(FileChunk(b))), remaining - k);
      Ok(b + rest, s)
  }

  /** A file body of the declared size, its padding and the token that closes the node. */
  function FileContents(s: State, size: u64): (r: Result<bytes>)
    ensures Advances(s, r.st) && r.st.entries == s.entries
  {
    var (body, s) :- StreamContents(s, size);
    var (_, s) :- ReadPadding(s, size);
    var (_, s) :- Expect(s.Emit(Plain(EndFile)), CLOSE);
    Ok(body, s)
  }

  function RegularNode(s: State): (r: Result<Node>)
    ensures Advances(s, r.st) && r.st.entries == s.entries
  {
    hide Orderly, Named, ExecutableFlag, ReadU64, FileContents, Cut;
    var (x, s) :- ExecutableFlag(s);
    var (size, s) :- ReadU64(s);
    if size > s.limits.maxFileBytes then
      Err(LimitExceeded("file size", s.limits.maxFileBytes, size), s)
    else
      var (body, s) :- FileContents(s.Emit(FileAt(x, size, s.raw)), size);
      Ok(Regular(x, Cut(body)), s.(files := Saturate(s.files + 1)))
  }

  function TargetError(target: bytes): string {
    if target == [] then "symlink target is empty" else "symlink target contains NUL"
  }

  function SymlinkNode(s: State): (r: Result<Node>)
    ensures Advances(s, r.st) && r.st.entries == s.entries
  {
    hide Orderly, Named, Expect, ReadString;
    var (_, s) :- Expect(s, TARGET);
    var (target, s) :- ReadString(s, s.limits.maxSymlinkTargetBytes);
    if !ValidTarget(target) then Err(NonCanonical(TargetError(target)), s)
    else
      var (_, s) :- Expect(s.Emit(Plain(SymlinkTo(target))), CLOSE);
      Ok(Symlink(target), s.(symlinks := Saturate(s.symlinks + 1)))
  }

  /** What reading the start of a node yields: a directory to descend into, or a whole leaf. */
  datatype Started = Opened | Finished(leaf: Node)

  function StartNode(s: State, depth: nat): (r: Result<Started>)
    ensures Advances(s, r.st) && r.st.entries == s.entries
    ensures r.Ok? ==> s.raw < r.st.raw <= s.limits.maxTotalBytes && depth <= s.limits.maxDepth
  {
    hide Orderly, Named, NodeKind, RegularNode, SymlinkNode;
    var (_, s) :- BumpWork(s);
    if depth > s.limits.maxDepth then
      Err(LimitExceeded("directory depth", s.limits.maxDepth, Saturate(depth)), s)
    else
      var (kind, s) :- NodeKind(s);
      match kind
      case DirectoryKind => Ok(Opened, s.Emit(DirectoryAt(depth)))
      case RegularKind => var (leaf, s) :- RegularNode(s); Ok(Finished(leaf), s)
      case SymlinkKind => var (leaf, s) :- SymlinkNode(s); Ok(Finished(leaf), s)
  }

  /** The name of an entry, which must be valid and follow the previous one. */
  function OrderedName(s: State, previous: bytes): (r: Result<bytes>)
    ensures Moves(s, r.st)
    ensures r.Ok? ==> |r.value| <= s.limits.maxNameBytes && ValidName(r.value)
  {
    var (_, s) :- Expect(s, OPEN);
    var (_, s) :- Expect(s, NAME);
    var (name, s) :- ReadString(s, s.limits.maxNameBytes);
    if !ValidName(name) then Err(NonCanonical("invalid directory entry name"), s)
    else if !Lexicographic.Less(previous, name) then
      Err(NonCanonical("directory entries are not strictly ordered"), s)
    else Ok(name, s)
  }

  datatype NextName = NoMore | Next(name: bytes)

  function NextEntry(s: State, previous: bytes): (r: Result<NextName>)
    ensures Advances(s, r.st) && r.st.events == s.events
    ensures r.Ok? && r.value.NoMore? ==> r.st.entries == s.entries
    ensures r.Ok? && r.value.Next? ==> r.st.entries == s.entries + 1 <= s.limits.maxEntries
    ensures r.Ok? && r.value.Next? ==> |r.value.name| <= s.limits.maxNameBytes && ValidName(r.value.name)
    ensures r.Ok? ==> s.raw < r.st.raw <= s.limits.maxTotalBytes
  {
    hide Named, Token, OrderedName;
    var (_, s) :- BumpWork(s);
    var (kind, s) :- Token(s);
    if kind == CLOSE then Ok(NoMore, s)
    else if kind != ENTRY then Err(Invalid("directory entry expected"), s)
    else if s.entries + 1 > U64_MAX then
      Err(LimitExceeded("entry count", s.limits.maxEntries, U64_MAX), s)
    else
      var s := s.(entries := s.entries + 1);
      if s.entries > s.limits.maxEntries then
        Err(LimitExceeded("entry count", s.limits.maxEntries, s.entries), s)
      else
        var (name, s) :- OrderedName(s, previous);
        Ok(Next(name), s)
  }

  /* ---- the recursive grammar ---- */

  function ParseNode(s: State, depth: nat): (r: Result<Node>)
    ensures Advances(s, r.st)
    ensures r.Ok? ==> s.raw < r.st.raw <= s.limits.maxTotalBytes
    decreases s.limits.maxTotalBytes - s.raw
  {
    var (started, s1) :- StartNode(s, depth);
    match started
    case Finished(leaf) => Ok(leaf, s1)
    case Opened =>
      var (es, s2) :- ParseEntries(s1, depth, []);
      Ok(Directory(es), s2)
  }

  /** The entries that remain in a directory at the given depth, and its closing token. */
  function ParseEntries(s: State, depth: nat, previous: bytes): (r: Result<Entries>)
    ensures Advances(s, r.st)
    ensures r.Ok? ==> s.raw < r.st.raw <= s.limits.maxTotalBytes
    decreases s.limits.maxTotalBytes - s.raw
  {
    hide Orderly, Named, NextEntry, Expect;
    var (next, s1) :- NextEntry(s, previous);
    match next
    case NoMore => Ok(NoEntries, s1.Emit(Plain(EndDirectory)))
    case Next(name) =>
      var (_, s2) :- Expect(s1.Emit(Plain(EntryNamed(name))), NODE);
      var (node, s3) :- ParseNode(s2, depth + 1);
      var (_, s4) :- Expect(s3, CLOSE);
      var (rest, s5) :- ParseEntries(s4, depth, name);
      Ok(Entry(name, node, rest), s5)
  }

  datatype Summary = Summary(
    root: RootKind,
    rawSize: nat,
    hashed: bytes,
    entries: nat,
    files: nat,
    symlinks: nat)

  function Start(reader: Reader, limits: Limits): State {
    State(reader, limits, 0, 0, 0, 0, 0, [])
  }

  /** The whole archive: the magic string, one node, and then nothing more. */
  function Decode(reader: Reader, limits: Limits): (r: Result<Node>)
    ensures Advances(Start(reader, limits), r.st)
    ensures r.st.reader == reader && r.st.limits == limits
    ensures r.st.raw <= limits.maxTotalBytes
  {
    hide Orderly;
    var (_, s) :- Expect(Start(reader, limits), MAGIC);
    var (t, s) :- ParseNode(s, 0);
    if s.reader.end == EndsAt(s.raw) then Ok(t, s)
    else if s.reader.end == FailsAt(s.raw) then Err(Io, s)
    else Err(Invalid("trailing bytes after root node"), s)
  }
}
