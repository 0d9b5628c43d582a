/** The Nix Archive format: byte strings framed by length and zero padding, the tree they
    describe, and the limits both the decoder and the encoder work under. */
module NarFormat {
  import Numerals
  import Lexicographic

  type byte = x: nat | x < 256
  type bytes = seq<byte>

  const U64_MAX: nat := 0xFFFF_FFFF_FFFF_FFFF
  type u64 = x: nat | x <= U64_MAX

  /** `u64::saturating_add` on an exact sum. */
  function Saturate(n: nat): u64 {
    if n <= U64_MAX then n else U64_MAX
  }

  lemma Assoc<T>(a: seq<T>, b: seq<T>, c: seq<T>)
    ensures (a + b) + c == a + (b + c)
  {
  }

  /* ---- tokens ---- */

  function Ascii(s: string): (b: bytes)
    ensures |b| == |s|
  {
    seq(|s|, i requires 0 <= i < |s| => (s[i] as int) % 256)
  }

  function Le64(n: nat): (b: bytes)
    ensures |b| == 8
  {
    Numerals.Digits(n, 256, 8)
  }

  function PadLength(n: nat): nat {
    (8 - n % 8) % 8
  }

  function Zeros(k: nat): (b: bytes)
    ensures |b| == k
  {
    seq(k, _ => 0)
  }

  /** One framed string: its length, its bytes, zeros up to a multiple of eight. */
  function Str(b: bytes): (r: bytes)
    ensures |r| == 8 + |b| + PadLength(|b|)
  {
    Le64(|b|) + b + Zeros(PadLength(|b|))
  }

  const MAGIC: bytes := Ascii("nix-archive-1")
  const OPEN: bytes := Ascii("(")
  const CLOSE: bytes := Ascii(")")
  const TYPE: bytes := Ascii("type")
  const EXECUTABLE: bytes := Ascii("executable")
  const CONTENTS: bytes := Ascii("contents")
  const TARGET: bytes := Ascii("target")
  const ENTRY: bytes := Ascii("entry")
  const NAME: bytes := Ascii("name")
  const NODE: bytes := Ascii("node")

  datatype RootKind = DirectoryKind | RegularKind | SymlinkKind

  function KindName(k: RootKind): bytes {
    match k
    case DirectoryKind => Ascii("directory")
    case RegularKind => Ascii("regular")
    case SymlinkKind => Ascii("symlink")
  }

  lemma KindNamesDiffer()
    ensures KindName(DirectoryKind) != KindName(RegularKind)
    ensures KindName(DirectoryKind) != KindName(SymlinkKind)
    ensures KindName(RegularKind) != KindName(SymlinkKind)
  {
    assert KindName(RegularKind)[0] != KindName(SymlinkKind)[0];
  }

  lemma TokensDiffer()
    ensures ENTRY != CLOSE && EXECUTABLE != CONTENTS
  {
    assert |ENTRY| == 5 && |CLOSE| == 1 && |EXECUTABLE| == 10 && |CONTENTS| == 8;
  }

  /* ---- trees ---- */

  /** A node of the archived file tree. A file body is kept as the list of chunks in which it
      is delivered, so that one tree also fixes one event sequence. */
  datatype Node =
    | Directory(entries: Entries)
    | Regular(executable: bool, chunks: seq<bytes>)
    | Symlink(target: bytes)
  {
    function Kind(): RootKind {
      match this
      case Directory(_) => DirectoryKind
      case Regular(_, _) => RegularKind
      case Symlink(_) => SymlinkKind
    }
  }

  datatype Entries = NoEntries | Entry(name: bytes, node: Node, rest: Entries)

  function Concat(chunks: seq<bytes>): bytes {
    if chunks == [] then [] else chunks[0] + Concat(chunks[1..])
  }

  function Head(kind: RootKind): bytes {
    Str(OPEN) + (Str(TYPE) + Str(KindName(kind)))
  }

  function FileHead(executable: bool): bytes {
    if executable then Str(EXECUTABLE) + (Str([]) + Str(CONTENTS)) else Str(CONTENTS)
  }

  function EntryName(name: bytes): bytes {
    Str(ENTRY) + (Str(OPEN) + (Str(NAME) + Str(name)))
  }

  function EntryHead(name: bytes): bytes {
    EntryName(name) + Str(NODE)
  }

  function FileBytes(executable: bool, body: bytes): bytes {
    Head(RegularKind) + (FileHead(executable) + (Str(body) + Str(CLOSE)))
  }

  function LinkBytes(target: bytes): bytes {
    Head(SymlinkKind) + (Str(TARGET) + (Str(target) + Str(CLOSE)))
  }

  function Serialize(t: Node): bytes {
    match t
    case Directory(es) => Head(DirectoryKind) + (SerializeEntries(es) + Str(CLOSE))
    case Regular(x, chunks) => FileBytes(x, Concat(chunks))
    case Symlink(target) => LinkBytes(target)
  }

  function SerializeEntries(es: Entries): bytes {
    match es
    case NoEntries => []
    case Entry(name, node, rest) =>
      EntryHead(name) + (Serialize(node) + (Str(CLOSE) + SerializeEntries(rest)))
  }

  function Archive(t: Node): bytes {
    Str(MAGIC) + Serialize(t)
  }

  /* ---- canonicality and limits ---- */

  datatype Limits = Limits(
    maxDepth: u64,
    maxNameBytes: u64,
    maxSymlinkTargetBytes: u64,
    maxEntries: u64,
    maxFileBytes: u64,
    maxTotalBytes: u64,
    maxWork: u64)

  const UNLIMITED := Limits(U64_MAX, U64_MAX, U64_MAX, U64_MAX, U64_MAX, U64_MAX, U64_MAX)

  predicate ValidName(name: bytes) {
    name != [] && name != Ascii(".") && name != Ascii("..")
    && '/' as int !in name && 0 !in name
  }

  predicate ValidTarget(target: bytes) {
    target != [] && 0 !in target
  }

  /** The rules that concern one node at a time: canonical names in strictly increasing order,
      proper link targets, and the limits on nesting and on single names, targets and files. */
  predicate Allowed(t: Node, limits: Limits, depth: nat) {
    depth <= limits.maxDepth &&
    match t
    case Directory(es) => AllowedEntries(es, limits, depth + 1, [])
    case Regular(_, chunks) => |Concat(chunks)| <= limits.maxFileBytes
    case Symlink(target) => |target| <= limits.maxSymlinkTargetBytes && ValidTarget(target)
  }

  predicate AllowedEntries(es: Entries, limits: Limits, depth: nat, previous: bytes) {
    match es
    case NoEntries => true
    case Entry(name, node, rest) =>
      && AllowedName(name, limits, previous)
      && Allowed(node, limits, depth)
      && AllowedEntries(rest, limits, depth, name)
  }

  predicate AllowedName(name: bytes, limits: Limits, previous: bytes) {
    |name| <= limits.maxNameBytes && ValidName(name) && Lexicographic.Less(previous, name)
  }

  function EntryCount(t: Node): nat {
    match t case Directory(es) => EntryCounts(es) case _ => 0
  }

  function EntryCounts(es: Entries): nat {
    match es
    case NoEntries => 0
    case Entry(_, node, rest) => 1 + EntryCount(node) + EntryCounts(rest)
  }

  function FileCount(t: Node): nat {
    match t case Directory(es) => FileCounts(es) case Regular(_, _) => 1 case Symlink(_) => 0
  }

  function FileCounts(es: Entries): nat {
    match es
    case NoEntries => 0
    case Entry(_, node, rest) => FileCount(node) + FileCounts(rest)
  }

  function LinkCount(t: Node): nat {
    match t case Directory(es) => LinkCounts(es) case Regular(_, _) => 0 case Symlink(_) => 1
  }

  function LinkCounts(es: Entries): nat {
    match es
    case NoEntries => 0
    case Entry(_, node, rest) => LinkCount(node) + LinkCounts(rest)
  }

  /** Work the decoder spends: one unit for each node, each entry and each directory end. */
  function Work(t: Node): nat {
    match t case Directory(es) => 1 + Works(es) case _ => 1
  }

  function Works(es: Entries): nat {
    match es
    case NoEntries => 1
    case Entry(_, node, rest) => 1 + Work(node) + Works(rest)
  }

  /** The tree is canonical and its archive stays within every limit except the one on work. */
  predicate Fits(t: Node, limits: Limits) {
    && Allowed(t, limits, 0)
    && EntryCount(t) <= limits.maxEntries
    && |Archive(t)| <= limits.maxTotalBytes
  }

  /** Every count is below the number of bytes it stands for. */
  lemma {:induction false} CountsBelowSize(t: Node)
    ensures EntryCount(t) + FileCount(t) + LinkCount(t) + Work(t) <= |Serialize(t)|
  {
    match t
    case Directory(es) => CountsBelowSizes(es);
    case _ =>
  }

  lemma {:induction false} CountsBelowSizes(es: Entries)
    ensures EntryCounts(es) + FileCounts(es) + LinkCounts(es) + Works(es) <= |SerializeEntries(es)| + 1
  {
    match es
    case NoEntries =>
    case Entry(_, node, rest) =>
      CountsBelowSize(node);
      CountsBelowSizes(rest);
  }

  /* ---- events ---- */

  datatype EncodeEvent =
    | BeginDirectory
    | EntryNamed(name: bytes)
    | BeginFile(executable: bool, size: nat)
    | FileChunk(chunk: bytes)
    | EndFile
    | SymlinkTo(target: bytes)
    | EndDirectory

  /** What the decoder reports: an encoder event, with the nesting depth of a directory and the
      stream offset of a file body. */
  datatype DecodeEvent =
    | DirectoryAt(depth: nat)
    | FileAt(executable: bool, size: nat, offset: nat)
    | Plain(event: EncodeEvent)

  function Strip(e: DecodeEvent): EncodeEvent {
    match e
    case DirectoryAt(_) => BeginDirectory
    case FileAt(x, size, _) => BeginFile(x, size)
    case Plain(event) => event
  }

  function StripAll(es: seq<DecodeEvent>): (r: seq<EncodeEvent>)
    ensures |r| == |es|
  {
    seq(|es|, i requires 0 <= i < |es| => Strip(es[i]))
  }

  function ChunkEvents(chunks: seq<bytes>): (r: seq<EncodeEvent>)
    ensures |r| == |chunks|
  {
    seq(|chunks|, i requires 0 <= i < |chunks| => FileChunk(chunks[i]))
  }

  function PlainAll(es: seq<EncodeEvent>): (r: seq<DecodeEvent>)
    ensures |r| == |es|
  {
    seq(|es|, i requires 0 <= i < |es| => Plain(es[i]))
  }

  /** The traversal of a tree as encoder events. */
  function Events(t: Node): seq<EncodeEvent> {
    match t
    case Directory(es) => [BeginDirectory] + (EventsOf(es) + [EndDirectory])
    case Regular(x, chunks) =>
      [BeginFile(x, |Concat(chunks)|)] + (ChunkEvents(chunks) + [EndFile])
    case Symlink(target) => [SymlinkTo(target)]
  }

  function EventsOf(es: Entries): seq<EncodeEvent> {
    match es
    case NoEntries => []
    case Entry(name, node, rest) => [EntryNamed(name)] + (Events(node) + EventsOf(rest))
  }

  const CHUNK_SIZE: nat := 65536

  /** A file body cut into pieces of CHUNK_SIZE, the last one possibly shorter. */
  function Cut(body: bytes): seq<bytes> {
    if body == [] then []
    else
      var k := if |body| < CHUNK_SIZE then |body| else CHUNK_SIZE;
      [body[..k]] + Cut(body[k..])
  }

  /** The traversal the decoder reports for a node that starts at stream offset `at`. */
  function Trace(t: Node, depth: nat, at: nat): seq<DecodeEvent> {
    match t
    case Directory(es) =>
      [DirectoryAt(depth)] + (TraceOf(es, depth + 1, at + |Head(DirectoryKind)|) + [Plain(EndDirectory)])
    case Regular(x, chunks) => FileTrace(x, Concat(chunks), at)
    case Symlink(target) => [Plain(SymlinkTo(target))]
  }

  function FileTrace(executable: bool, body: bytes, at: nat): seq<DecodeEvent> {
    [FileAt(executable, |body|, at + |Head(RegularKind)| + |FileHead(executable)| + 8)]
    + (PlainAll(ChunkEvents(Cut(body))) + [Plain(EndFile)])
  }

  function TraceOf(es: Entries, depth: nat, at: nat): seq<DecodeEvent> {
    match es
    case NoEntries => []
    case Entry(name, node, rest) =>
      [Plain(EntryNamed(name))]
      + (Trace(node, depth, at + |EntryHead(name)|)
         + TraceOf(rest, depth, at + |EntryHead(name)| + |Serialize(node)| + |Str(CLOSE)|))
  }
}
