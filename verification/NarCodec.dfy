/** The two machines together: exactly which event sequences the encoder accepts, and that
    encoder and decoder undo each other under the same limits. */
module NarCodec {
  import opened NarFormat
  import Enc = NarEncoding
  import NarWriting
  import NarEncodes
  import NarBuilding
  import opened NarGrammar
  import opened NarDecoding
  import opened NarArchive

  function EncodeSummary(s: Enc.State): Summary
    requires s.root.Complete?
  {
    Summary(s.root.kind, |s.out|, s.out, s.entries, s.files, s.symlinks)
  }

  /** The events spell the tree t, and t fits the encoder's limits. One event is one unit of
      work; a saturated counter never exceeds a limit of U64_MAX. */
  ghost predicate Spells(events: seq<EncodeEvent>, t: Node, limits: Limits) {
    events == Events(t) && Fits(t, limits) && Saturate(|events|) <= limits.maxWork
  }

  /* ---- the encoder is exact ---- */

  lemma {:induction false} EncodesTree(limits: Limits, t: Node)
    requires Fits(t, limits) && Saturate(|Events(t)|) <= limits.maxWork
    ensures Enc.Encode(limits, Events(t)).Done?
    ensures EncodeSummary(Enc.Encode(limits, Events(t)).st) == SummaryOf(t)
  {
    hide Enc.Run, Enc.PutStr, Str, Serialize, Events, Allowed;
    var s0 := Enc.State(limits, [], Enc.Awaiting, [], 0, 0, 0, 0);
    NarWriting.StrExact(s0, MAGIC);
    var s1 := NarWriting.Wrote(s0, Str(MAGIC));
    assert s1.out == Str(MAGIC);
    NarEncodes.RunNode(s1, t);
    CountsBelowSize(t);
  }

  lemma {:induction false} EncodedIsTree(limits: Limits, events: seq<EncodeEvent>) returns (t: Node)
    requires Enc.Encode(limits, events).Done?
    ensures Spells(events, t, limits)
  {
    hide Enc.Run, Enc.PutStr, Str, Serialize, Events, Allowed;
    var s0 := Enc.State(limits, [], Enc.Awaiting, [], 0, 0, 0, 0);
    NarWriting.StrExact(s0, MAGIC);
    var s1 := Enc.Create(limits).st;
    assert s1.out == Str(MAGIC) + [];
    var z := NarBuilding.RunSound(s1, NarBuilding.Building([]), [], events);
    assert [] + events == events;
    t := z.tree;
  }

  /** The encoder takes an event sequence to a successful finish just when it spells a canonical
      tree within the limits; it has then written that tree's archive. */
  lemma EncodeExact(limits: Limits, events: seq<EncodeEvent>)
    ensures Enc.Encode(limits, events).Done? <==> exists t :: Spells(events, t, limits)
    ensures forall t :: Spells(events, t, limits) ==>
              EncodeSummary(Enc.Encode(limits, events).st) == SummaryOf(t)
  {
    hide Enc.Encode, SummaryOf, EncodeSummary, Fits, Events;
    if Enc.Encode(limits, events).Done? {
      var t := EncodedIsTree(limits, events);
    }
    forall t | Spells(events, t, limits)
      ensures Enc.Encode(limits, events).Done?
      ensures EncodeSummary(Enc.Encode(limits, events).st) == SummaryOf(t)
    {
      EncodesTree(limits, t);
    }
  }

  /* ---- events and work ---- */

  function ChunkCount(t: Node): nat {
    match t case Directory(es) => ChunkCounts(es) case Regular(_, chunks) => |chunks| case Symlink(_) => 0
  }

  function ChunkCounts(es: Entries): nat {
    match es
    case NoEntries => 0
    case Entry(_, node, rest) => ChunkCount(node) + ChunkCounts(rest)
  }

  /** The decoder's work is the encoder's less the chunk and end-of-file events. */
  lemma {:induction false} WorkExact(t: Node)
    ensures |Events(t)| == Work(t) + FileCount(t) + ChunkCount(t)
  {
    match t case Directory(es) => WorksExact(es); case _ =>
  }

  lemma {:induction false} WorksExact(es: Entries)
    ensures |EventsOf(es)| + 1 == Works(es) + FileCounts(es) + ChunkCounts(es)
  {
    match es
    case NoEntries =>
    case Entry(_, node, rest) =>
      WorkExact(node);
      WorksExact(rest);
  }

  lemma StripConcat(a: seq<DecodeEvent>, b: seq<DecodeEvent>)
    ensures StripAll(a + b) == StripAll(a) + StripAll(b)
  {
  }

  /** What the decoder reports is the traversal of the tree, re-cut. */
  lemma {:induction false} StripTrace(t: Node, depth: nat, at: nat)
    ensures StripAll(Trace(t, depth, at)) == Events(Recut(t))
    decreases t
  {
    hide Head, FileHead, Cut, Concat;
    match t
    case Directory(es) =>
      var inner := TraceOf(es, depth + 1, at + |Head(DirectoryKind)|);
      StripTraces(es, depth + 1, at + |Head(DirectoryKind)|);
      StripConcat(inner, [Plain(EndDirectory)]);
      StripConcat([DirectoryAt(depth)], inner + [Plain(EndDirectory)]);
      assert StripAll([DirectoryAt(depth)]) == [BeginDirectory];
      assert StripAll([Plain(EndDirectory)]) == [EndDirectory];
    case Regular(x, chunks) =>
      ConcatCut(Concat(chunks));
      var log := FileTrace(x, Concat(chunks), at);
      assert StripAll(log) == Events(Recut(t));
    case Symlink(target) =>
  }

  lemma {:induction false} StripTraces(es: Entries, depth: nat, at: nat)
    ensures StripAll(TraceOf(es, depth, at)) == EventsOf(RecutEntries(es))
    decreases es
  {
    hide EntryHead, Str, Serialize;
    match es
    case NoEntries =>
    case Entry(name, node, rest) =>
      var p := at + |EntryHead(name)|;
      var q := p + |Serialize(node)| + |Str(CLOSE)|;
      StripTrace(node, depth, p);
      StripTraces(rest, depth, q);
      StripConcat(Trace(node, depth, p), TraceOf(rest, depth, q));
      StripConcat([Plain(EntryNamed(name))], Trace(node, depth, p) + TraceOf(rest, depth, q));
      assert StripAll([Plain(EntryNamed(name))]) == [EntryNamed(name)];
  }

  /** The same events with every file chunk broken into single bytes: what is left of an event
      sequence when chunk boundaries are forgotten. */
  function Unchunk(events: seq<EncodeEvent>): seq<EncodeEvent> {
    if events == [] then []
    else (if events[0].FileChunk? then Single(events[0].chunk) else [events[0]]) + Unchunk(events[1..])
  }

  function Single(chunk: bytes): seq<EncodeEvent> {
    seq(|chunk|, i requires 0 <= i < |chunk| => FileChunk([chunk[i]]))
  }

  lemma {:induction false} UnchunkConcat(a: seq<EncodeEvent>, b: seq<EncodeEvent>)
    ensures Unchunk(a + b) == Unchunk(a) + Unchunk(b)
  {
    if a == [] {
      assert a + b == b;
    } else {
      assert (a + b)[1..] == a[1..] + b;
      UnchunkConcat(a[1..], b);
      Assoc(if a[0].FileChunk? then Single(a[0].chunk) else [a[0]], Unchunk(a[1..]), Unchunk(b));
    }
  }

  lemma UnchunkOne(e: EncodeEvent)
    requires !e.FileChunk?
    ensures Unchunk([e]) == [e]
  {
    assert [e][1..] == [];
  }

  lemma {:induction false} UnchunkBody(chunks: seq<bytes>)
    ensures Unchunk(ChunkEvents(chunks)) == Single(Concat(chunks))
  {
    if chunks != [] {
      assert ChunkEvents(chunks)[1..] == ChunkEvents(chunks[1..]);
      UnchunkBody(chunks[1..]);
      assert Single(chunks[0]) + Single(Concat(chunks[1..])) == Single(chunks[0] + Concat(chunks[1..]));
    }
  }

  lemma UnchunkBracket(first: EncodeEvent, middle: seq<EncodeEvent>, last: EncodeEvent)
    requires !first.FileChunk? && !last.FileChunk?
    ensures Unchunk([first] + (middle + [last])) == [first] + (Unchunk(middle) + [last])
  {
    UnchunkConcat([first], middle + [last]);
    UnchunkConcat(middle, [last]);
    UnchunkOne(first);
    UnchunkOne(last);
  }

  lemma {:induction false} UnchunkTree(t: Node)
    ensures Unchunk(Events(Recut(t))) == Unchunk(Events(t))
    decreases t
  {
    hide Cut, Unchunk, Single, Concat, ChunkEvents;
    match t
    case Directory(es) =>
      UnchunkTrees(es);
      UnchunkBracket(BeginDirectory, EventsOf(es), EndDirectory);
      UnchunkBracket(BeginDirectory, EventsOf(RecutEntries(es)), EndDirectory);
    case Regular(x, chunks) =>
      var body := Concat(chunks);
      ConcatCut(body);
      UnchunkBody(chunks);
      UnchunkBody(Cut(body));
      UnchunkBracket(BeginFile(x, |body|), ChunkEvents(chunks), EndFile);
      UnchunkBracket(BeginFile(x, |body|), ChunkEvents(Cut(body)), EndFile);
    case Symlink(_) =>
  }

  lemma {:induction false} UnchunkTrees(es: Entries)
    ensures Unchunk(EventsOf(RecutEntries(es))) == Unchunk(EventsOf(es))
    decreases es
  {
    hide Unchunk, Recut, Events;
    match es
    case NoEntries =>
    case Entry(name, node, rest) =>
      UnchunkTree(node);
      UnchunkTrees(rest);
      UnchunkConcat([EntryNamed(name)], Events(node) + EventsOf(rest));
      UnchunkConcat([EntryNamed(name)], Events(Recut(node)) + EventsOf(RecutEntries(rest)));
      UnchunkConcat(Events(node), EventsOf(rest));
      UnchunkConcat(Events(Recut(node)), EventsOf(RecutEntries(rest)));
  }
}
