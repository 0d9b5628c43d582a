/** Reading tokens and leaf nodes is exact: each reader function succeeds just when the
    framed bytes stand in the stream within the limits, and then moves past them. */
module NarTokens {
  import opened NarFormat
  import opened NarGrammar
  import Numerals

  /** The bytes b stand at offset p and end within the total-size limit. */
  ghost predicate Within(r: Reader, cap: nat, p: nat, b: bytes) {
    p + |b| <= cap && r.Holds(p, b)
  }

  /** The bytes b come next in the stream. */
  ghost predicate Reads(s: State, b: bytes) {
    Within(s.reader, s.limits.maxTotalBytes, s.raw, b)
  }

  lemma ReadsConcat(s: State, a: bytes, b: bytes)
    ensures Reads(s, a + b) <==> Reads(s, a) && Reads(s.Skip(|a|), b)
  {
    HoldsConcat(s.reader, s.raw, a, b);
  }

  lemma ReadsEnd(s: State, b: bytes)
    requires Reads(s, b)
    ensures Reads(s.Skip(|b|), [])
  {
    assert b == b + [];
    ReadsConcat(s, b, []);
  }

  lemma RawExact(s: State, b: bytes)
    requires |b| <= U64_MAX
    ensures Reads(s, b) <==> ReadRaw(s, |b|) == Ok(b, s.Skip(|b|))
  {
  }

  lemma U64Exact(s: State, n: u64)
    ensures Reads(s, Le64(n)) <==> ReadU64(s) == Ok(n, s.Skip(8))
  {
    RawExact(s, Le64(n));
    PowTwo64();
    Numerals.ValueOfDigits(n, 256, 8);
    var r := ReadRaw(s, 8);
    if r.Ok? { Le64Bound(r.value); }
  }

  lemma PaddingExact(s: State, n: u64)
    requires Reads(s, [])
    ensures Reads(s, Zeros(PadLength(n))) <==> ReadPadding(s, n).Ok?
    ensures ReadPadding(s, n).Ok? ==> ReadPadding(s, n).st == s.Skip(PadLength(n))
  {
    RawExact(s, Zeros(PadLength(n)));
  }

  lemma StringComplete(s: State, max: u64, b: bytes)
    requires |b| <= max && Reads(s, Str(b))
    ensures ReadString(s, max) == Ok(b, s.Skip(|Str(b)|))
  {
    hide ReadU64, ReadRaw, ReadPadding, Le64, Zeros, Within;
    ReadsConcat(s, Le64(|b|) + b, Zeros(PadLength(|b|)));
    ReadsConcat(s, Le64(|b|), b);
    U64Exact(s, |b|);
    RawExact(s.Skip(8), b);
    ReadsEnd(s.Skip(8), b);
    PaddingExact(s.Skip(8 + |b|), |b|);
  }

  lemma StringSound(s: State, max: u64)
    requires ReadString(s, max).Ok?
    ensures var b := ReadString(s, max).value;
            |b| <= max && Reads(s, Str(b)) && ReadString(s, max).st == s.Skip(|Str(b)|)
  {
    hide ReadU64, ReadRaw, ReadPadding, Le64, Zeros, Within, Orderly, Named;
    var b := ReadString(s, max).value;
    var n := ReadU64(s).value;
    U64Exact(s, n);
    ReadsEnd(s, Le64(n));
    RawExact(s.Skip(8), b);
    ReadsEnd(s.Skip(8), b);
    PaddingExact(s.Skip(8 + |b|), |b|);
    ReadsConcat(s, Le64(|b|), b);
    ReadsConcat(s, Le64(|b|) + b, Zeros(PadLength(|b|)));
  }

  lemma TokenExact(s: State, b: bytes)
    requires |b| <= TOKEN_LIMIT
    ensures Reads(s, Str(b)) <==> Token(s) == Ok(b, s.Skip(|Str(b)|))
    ensures Reads(s, Str(b)) <==> Token(s).Ok? && Token(s).value == b
  {
    if Reads(s, Str(b)) { StringComplete(s, TOKEN_LIMIT, b); }
    if Token(s).Ok? { StringSound(s, TOKEN_LIMIT); }
  }

  lemma ExpectExact(s: State, b: bytes)
    requires |b| <= TOKEN_LIMIT
    ensures Reads(s, Str(b)) <==> Expect(s, b).Ok?
    ensures Reads(s, Str(b)) ==> Expect(s, b) == Ok((), s.Skip(|Str(b)|))
  {
    TokenExact(s, b);
    if Token(s).Ok? { StringSound(s, TOKEN_LIMIT); }
  }

  lemma KindExact(s: State, kind: RootKind)
    ensures Reads(s, Head(kind)) <==> NodeKind(s).Ok? && NodeKind(s).value == kind
    ensures Reads(s, Head(kind)) ==> NodeKind(s) == Ok(kind, s.Skip(|Head(kind)|))
  {
    hide Expect, Token, ReadString, Str, Within;
    KindNamesDiffer();
    ReadsConcat(s, Str(OPEN), Str(TYPE) + Str(KindName(kind)));
    ExpectExact(s, OPEN);
    if Expect(s, OPEN).Ok? {
      var s1 := s.Skip(|Str(OPEN)|);
      ReadsConcat(s1, Str(TYPE), Str(KindName(kind)));
      ExpectExact(s1, TYPE);
      if Expect(s1, TYPE).Ok? {
        TokenExact(s1.Skip(|Str(TYPE)|), KindName(kind));
      }
    }
  }

  lemma FlagExact(s: State, x: bool)
    ensures Reads(s, FileHead(x)) <==> ExecutableFlag(s).Ok? && ExecutableFlag(s).value == x
    ensures Reads(s, FileHead(x)) ==> ExecutableFlag(s) == Ok(x, s.Skip(|FileHead(x)|))
  {
    hide Expect, Token, ReadString, Str, Within;
    TokensDiffer();
    TokenExact(s, CONTENTS);
    TokenExact(s, EXECUTABLE);
    if x {
      ReadsConcat(s, Str(EXECUTABLE), Str([]) + Str(CONTENTS));
      if Token(s).Ok? && Token(s).value == EXECUTABLE {
        var s1 := s.Skip(|Str(EXECUTABLE)|);
        ReadsConcat(s1, Str([]), Str(CONTENTS));
        TokenExact(s1, []);
        if Token(s1).Ok? && Token(s1).value == [] {
          ExpectExact(s1.Skip(|Str([])|), CONTENTS);
        }
      }
    }
  }

  /* ---- file bodies ---- */

  function AfterBody(s: State, body: bytes): State
  {
    s.Skip(|body|).(events := s.events + PlainAll(ChunkEvents(Cut(body))))
  }

  lemma CutStep(events: seq<DecodeEvent>, b: bytes, rest: bytes)
    requires b != [] && |b| <= CHUNK_SIZE && (rest != [] ==> |b| == CHUNK_SIZE)
    ensures Cut(b + rest) == [b] + Cut(rest)
    ensures events + PlainAll(ChunkEvents(Cut(b + rest)))
         == (events + [Plain(FileChunk(b))]) + PlainAll(ChunkEvents(Cut(rest)))
  {
    var k := if |b + rest| < CHUNK_SIZE then |b + rest| else CHUNK_SIZE;
    assert k == |b|;
    assert (b + rest)[..k] == b && (b + rest)[k..] == rest;
  }

  lemma NoBody(s: State)
    ensures AfterBody(s, []) == s
  {
    assert PlainAll(ChunkEvents([])) == [];
  }

  lemma {:induction false} StreamComplete(s: State, body: bytes)
    requires Reads(s, body)
    ensures StreamContents(s, |body|) == Ok(body, AfterBody(s, body))
    decreases |body|
  {
    hide ReadRaw, Within, Cut, PlainAll, ChunkEvents, Orderly, Named;
    if body == [] {
      NoBody(s);
    } else {
      var k := if |body| < CHUNK_SIZE then |body| else CHUNK_SIZE;
      var b, rest := body[..k], body[k..];
      assert body == b + rest;
      ReadsConcat(s, b, rest);
      RawExact(s, b);
      StreamComplete(s.Skip(k).Emit(Plain(FileChunk(b))), rest);
      CutStep(s.events, b, rest);
    }
  }

  lemma {:induction false} StreamSound(s: State, n: u64)
    requires StreamContents(s, n).Ok? && Reads(s, [])
    ensures var body := StreamContents(s, n).value;
            |body| == n && Reads(s, body) && StreamContents(s, n).st == AfterBody(s, body)
    decreases n
  {
    hide ReadRaw, Within, Cut, PlainAll, ChunkEvents, Orderly, Named;
    if n == 0 {
      NoBody(s);
    } else {
      var k := if n < CHUNK_SIZE then n else CHUNK_SIZE;
      var b := ReadRaw(s, k).value;
      RawExact(s, b);
      ReadsEnd(s, b);
      var s1 := s.Skip(k).Emit(Plain(FileChunk(b)));
      StreamSound(s1, n - k);
      var rest := StreamContents(s1, n - k).value;
      ReadsConcat(s, b, rest);
      CutStep(s.events, b, rest);
    }
  }

  /** A file body as it stands after its length field. */
  function BodyTail(body: bytes): bytes {
    body + (Zeros(PadLength(|body|)) + Str(CLOSE))
  }

  function AfterContents(s: State, body: bytes): State {
    s.Skip(|BodyTail(body)|).(
    events := s.events + (PlainAll(ChunkEvents(Cut(body))) + [Plain(EndFile)]))
  }

  lemma ContentsComplete(s: State, body: bytes)
    requires |body| <= U64_MAX && Reads(s, BodyTail(body))
    ensures FileContents(s, |body|) == Ok(body, AfterContents(s, body))
  {
    hide Expect, ReadPadding, StreamContents, Cut, Str, Within;
    var pad := Zeros(PadLength(|body|));
    ReadsConcat(s, body, pad + Str(CLOSE));
    StreamComplete(s, body);
    var s1 := AfterBody(s, body);
    ReadsConcat(s1, pad, Str(CLOSE));
    ReadsEnd(s, body);
    PaddingExact(s1, |body|);
    var s2 := s1.Skip(|pad|).Emit(Plain(EndFile));
    ExpectExact(s2, CLOSE);
    assert s2.Skip(|Str(CLOSE)|) == AfterContents(s, body);
  }

  lemma ContentsSound(s: State, size: u64)
    requires FileContents(s, size).Ok? && Reads(s, [])
    ensures var body := FileContents(s, size).value;
            |body| == size && Reads(s, BodyTail(body))
            && FileContents(s, size).st == AfterContents(s, body)
  {
    hide Expect, ReadPadding, StreamContents, Cut, Str, Within;
    StreamSound(s, size);
    var body := StreamContents(s, size).value;
    var s1 := AfterBody(s, body);
    var pad := Zeros(PadLength(size));
    ReadsEnd(s, body);
    PaddingExact(s1, size);
    ExpectExact(s1.Skip(|pad|).Emit(Plain(EndFile)), CLOSE);
    ReadsConcat(s1, pad, Str(CLOSE));
    ReadsConcat(s, body, pad + Str(CLOSE));
    ContentsComplete(s, body);
  }

  /** A file after its type: the executable marker, the framed body, the closing token. */
  function FileTail(x: bool, body: bytes): bytes {
    FileHead(x) + (Str(body) + Str(CLOSE))
  }

  function AfterFile(s: State, x: bool, body: bytes): State {
    s.Skip(|FileTail(x, body)|).(
    files := Saturate(s.files + 1),
    events := s.events + ([FileAt(x, |body|, s.raw + |FileHead(x)| + 8)]
                          + (PlainAll(ChunkEvents(Cut(body))) + [Plain(EndFile)])))
  }

  lemma FilePieces(s: State, x: bool, body: bytes)
    ensures Reads(s, FileTail(x, body)) <==>
            && Reads(s, FileHead(x))
            && Reads(s.Skip(|FileHead(x)|), Le64(|body|))
            && Reads(s.Skip(|FileHead(x)| + 8), BodyTail(body))
  {
    hide Within, FileHead, BodyTail, Str, Le64;
    ReadsConcat(s, FileHead(x), Str(body) + Str(CLOSE));
    BodyFraming(body);
    ReadsConcat(s.Skip(|FileHead(x)|), Le64(|body|), BodyTail(body));
  }

  lemma BodyFraming(body: bytes)
    ensures Str(body) + Str(CLOSE) == Le64(|body|) + BodyTail(body)
  {
    var pad, close := Zeros(PadLength(|body|)), Str(CLOSE);
    hide Zeros, Le64;
    Assoc(Le64(|body|) + body, pad, close);
    Assoc(Le64(|body|), body, pad + close);
  }

  lemma FileShape(s: State, x: bool, body: bytes)
    ensures var t := AfterContents(s.Skip(|FileHead(x)| + 8).Emit(FileAt(x, |body|, s.raw + |FileHead(x)| + 8)), body);
            t.(files := Saturate(t.files + 1)) == AfterFile(s, x, body)
  {
    hide Cut, Str, PadLength, FileHead, ChunkEvents, PlainAll;
    Assoc(s.events, [FileAt(x, |body|, s.raw + |FileHead(x)| + 8)],
          PlainAll(ChunkEvents(Cut(body))) + [Plain(EndFile)]);
  }

  lemma FileComplete(s: State, x: bool, body: bytes)
    requires |body| <= s.limits.maxFileBytes && Reads(s, FileTail(x, body))
    ensures RegularNode(s) == Ok(Regular(x, Cut(body)), AfterFile(s, x, body))
  {
    hide ExecutableFlag, FileContents, ReadU64, Cut, Reads, AfterContents;
    hide AfterFile, FileHead, FileTail, Orderly, Named;
    FileParts(s, x, body);
    FileShape(s, x, body);
  }

  lemma FileParts(s: State, x: bool, body: bytes)
    requires |body| <= U64_MAX && Reads(s, FileTail(x, body))
    ensures ExecutableFlag(s) == Ok(x, s.Skip(|FileHead(x)|))
    ensures ReadU64(s.Skip(|FileHead(x)|)) == Ok(|body|, s.Skip(|FileHead(x)| + 8))
    ensures var s2 := s.Skip(|FileHead(x)| + 8).Emit(FileAt(x, |body|, s.raw + |FileHead(x)| + 8));
            FileContents(s2, |body|) == Ok(body, AfterContents(s2, body))
  {
    hide ExecutableFlag, FileContents, ReadU64, Within, AfterContents, FileHead, FileTail, BodyTail, Orderly, Named;
    FilePieces(s, x, body);
    FlagExact(s, x);
    U64Exact(s.Skip(|FileHead(x)|), |body|);
    ContentsComplete(s.Skip(|FileHead(x)| + 8).Emit(FileAt(x, |body|, s.raw + |FileHead(x)| + 8)), body);
  }

  lemma FileSound(s: State) returns (x: bool, body: bytes)
    requires RegularNode(s).Ok?
    ensures |body| <= s.limits.maxFileBytes && Reads(s, FileTail(x, body))
    ensures RegularNode(s) == Ok(Regular(x, Cut(body)), AfterFile(s, x, body))
  {
    hide ExecutableFlag, FileContents, ReadU64, Cut, Within, AfterContents;
    hide AfterFile, FileTail, FileHead, Orderly, Named;
    x := ExecutableFlag(s).value;
    FlagExact(s, x);
    var s1 := s.Skip(|FileHead(x)|);
    var size := ReadU64(s1).value;
    U64Exact(s1, size);
    ReadsEnd(s1, Le64(size));
    var s2 := s1.Skip(8).Emit(FileAt(x, size, s1.raw + 8));
    ContentsSound(s2, size);
    body := FileContents(s2, size).value;
    FilePieces(s, x, body);
    FileComplete(s, x, body);
  }

  /* ---- links ---- */

  function LinkTail(target: bytes): bytes {
    Str(TARGET) + (Str(target) + Str(CLOSE))
  }

  function AfterLink(s: State, target: bytes): State
  {
    s.Skip(|LinkTail(target)|).(
    symlinks := Saturate(s.symlinks + 1), events := s.events + [Plain(SymlinkTo(target))])
  }

  lemma LinkComplete(s: State, target: bytes)
    requires |target| <= s.limits.maxSymlinkTargetBytes && ValidTarget(target)
    requires Reads(s, LinkTail(target))
    ensures SymlinkNode(s) == Ok(Symlink(target), AfterLink(s, target))
  {
    hide Expect, ReadString, Str, Within, ValidTarget, Orderly, Named;
    ReadsConcat(s, Str(TARGET), Str(target) + Str(CLOSE));
    ExpectExact(s, TARGET);
    var s1 := s.Skip(|Str(TARGET)|);
    ReadsConcat(s1, Str(target), Str(CLOSE));
    StringComplete(s1, s.limits.maxSymlinkTargetBytes, target);
    ExpectExact(s1.Skip(|Str(target)|).Emit(Plain(SymlinkTo(target))), CLOSE);
  }

  lemma LinkSound(s: State) returns (target: bytes)
    requires SymlinkNode(s).Ok?
    ensures |target| <= s.limits.maxSymlinkTargetBytes && ValidTarget(target)
    ensures Reads(s, LinkTail(target))
    ensures SymlinkNode(s) == Ok(Symlink(target), AfterLink(s, target))
  {
    hide Expect, ReadString, Str, Within, Orderly, Named;
    ExpectExact(s, TARGET);
    var s1 := s.Skip(|Str(TARGET)|);
    StringSound(s1, s.limits.maxSymlinkTargetBytes);
    target := ReadString(s1, s.limits.maxSymlinkTargetBytes).value;
    ExpectExact(s1.Skip(|Str(target)|).Emit(Plain(SymlinkTo(target))), CLOSE);
    ReadsConcat(s1, Str(target), Str(CLOSE));
    ReadsConcat(s, Str(TARGET), Str(target) + Str(CLOSE));
    LinkComplete(s, target);
  }

  /* ---- directory entries ---- */

  lemma NameComplete(s: State, previous: bytes, name: bytes)
    requires AllowedName(name, s.limits, previous) && s.entries < s.limits.maxEntries
    requires Saturate(s.work + 1) <= s.limits.maxWork && Reads(s, EntryName(name))
    ensures NextEntry(s, previous)
         == Ok(Next(name), s.Skip(|EntryName(name)|).(work := Saturate(s.work + 1), entries := s.entries + 1))
  {
    hide Expect, Token, ReadString, Str, Within;
    TokensDiffer();
    var s0 := s.(work := Saturate(s.work + 1));
    ReadsConcat(s0, Str(ENTRY), Str(OPEN) + (Str(NAME) + Str(name)));
    TokenExact(s0, ENTRY);
    var s1 := s0.Skip(|Str(ENTRY)|).(entries := s.entries + 1);
    ReadsConcat(s1, Str(OPEN), Str(NAME) + Str(name));
    ExpectExact(s1, OPEN);
    var s2 := s1.Skip(|Str(OPEN)|);
    ReadsConcat(s2, Str(NAME), Str(name));
    ExpectExact(s2, NAME);
    StringComplete(s2.Skip(|Str(NAME)|), s.limits.maxNameBytes, name);
  }

  lemma NameSound(s: State, previous: bytes)
    requires NextEntry(s, previous).Ok? && NextEntry(s, previous).value.Next?
    ensures var name := NextEntry(s, previous).value.name;
            && AllowedName(name, s.limits, previous) && s.entries < s.limits.maxEntries
            && Saturate(s.work + 1) <= s.limits.maxWork && Reads(s, EntryName(name))
  {
    hide Expect, Token, ReadString, Str, Within;
    var s0 := s.(work := Saturate(s.work + 1));
    TokenExact(s0, ENTRY);
    var s1 := s0.Skip(|Str(ENTRY)|).(entries := s.entries + 1);
    ExpectExact(s1, OPEN);
    var s2 := s1.Skip(|Str(OPEN)|);
    ExpectExact(s2, NAME);
    var s3 := s2.Skip(|Str(NAME)|);
    StringSound(s3, s.limits.maxNameBytes);
    var name := ReadString(s3, s.limits.maxNameBytes).value;
    ReadsConcat(s2, Str(NAME), Str(name));
    ReadsConcat(s1, Str(OPEN), Str(NAME) + Str(name));
    ReadsConcat(s0, Str(ENTRY), Str(OPEN) + (Str(NAME) + Str(name)));
  }

  lemma NoMoreExact(s: State, previous: bytes)
    ensures NextEntry(s, previous).Ok? && NextEntry(s, previous).value.NoMore? <==>
            Saturate(s.work + 1) <= s.limits.maxWork && Reads(s, Str(CLOSE))
    ensures NextEntry(s, previous).Ok? && NextEntry(s, previous).value.NoMore? ==>
            NextEntry(s, previous).st == s.Skip(|Str(CLOSE)|).(work := Saturate(s.work + 1))
  {
    hide Expect, Token, ReadString, Str, Within;
    TokensDiffer();
    TokenExact(s.(work := Saturate(s.work + 1)), CLOSE);
  }
}
