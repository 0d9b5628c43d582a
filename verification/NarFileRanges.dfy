/** File bodies in the decoder's report: the chunks that follow a file event are the bytes at
    the offset it announces, and successive files lie further on in the stream. */
module NarFileRanges {
  import opened NarFormat
  import opened NarGrammar
  import opened NarDecoding
  import opened NarArchive

  /** The chunks at the front of a log, joined. */
  function Leading(events: seq<DecodeEvent>): bytes {
    if events != [] && events[0].Plain? && events[0].event.FileChunk?
    then events[0].event.chunk + Leading(events[1..])
    else []
  }

  /** Every file event is followed by exactly the announced bytes of the stream, and no file
      range starts before `low` or before the end of the one reported earlier. */
  ghost predicate Delivered(events: seq<DecodeEvent>, reader: Reader, low: nat) {
    if events == [] then true
    else if events[0].FileAt? then
      var body := Leading(events[1..]);
      && low <= events[0].offset
      && |body| == events[0].size && reader.Holds(events[0].offset, body)
      && Delivered(events[1..], reader, events[0].offset + events[0].size)
    else Delivered(events[1..], reader, low)
  }

  lemma {:induction false} DeliveredFurther(events: seq<DecodeEvent>, reader: Reader, low: nat, lower: nat)
    requires Delivered(events, reader, low) && lower <= low
    ensures Delivered(events, reader, lower)
  {
    if events != [] && !events[0].FileAt? {
      DeliveredFurther(events[1..], reader, low, lower);
    }
  }

  lemma SkipEvent(e: DecodeEvent, log: seq<DecodeEvent>, reader: Reader, low: nat)
    requires !e.FileAt?
    ensures Delivered([e] + log, reader, low) <==> Delivered(log, reader, low)
  {
    assert ([e] + log)[1..] == log;
  }

  lemma StartFile(x: bool, body: bytes, offset: nat, log: seq<DecodeEvent>, reader: Reader, low: nat)
    requires low <= offset && Leading(log) == body && reader.Holds(offset, body)
    requires Delivered(log, reader, offset + |body|)
    ensures Delivered([FileAt(x, |body|, offset)] + log, reader, low)
  {
    assert ([FileAt(x, |body|, offset)] + log)[1..] == log;
  }

  lemma {:induction false} LeadingChunks(chunks: seq<bytes>, tail: seq<DecodeEvent>, reader: Reader, low: nat)
    requires Leading(tail) == [] && Delivered(tail, reader, low)
    ensures Leading(PlainAll(ChunkEvents(chunks)) + tail) == Concat(chunks)
    ensures Delivered(PlainAll(ChunkEvents(chunks)) + tail, reader, low)
  {
    var log := PlainAll(ChunkEvents(chunks)) + tail;
    if chunks == [] {
      assert log == tail;
    } else {
      LeadingChunks(chunks[1..], tail, reader, low);
      assert log[1..] == PlainAll(ChunkEvents(chunks[1..])) + tail;
    }
  }

  lemma BodyInFile(x: bool, body: bytes, at: nat, reader: Reader)
    requires reader.Holds(at, FileBytes(x, body))
    ensures reader.Holds(at + |Head(RegularKind)| + |FileHead(x)| + 8, body)
  {
    hide FileHead, Head, Reader.Holds, Le64, Zeros;
    var before := Head(RegularKind) + (FileHead(x) + Le64(|body|));
    var after := Zeros(PadLength(|body|)) + Str(CLOSE);
    assert FileBytes(x, body) == before + (body + after);
    HoldsConcat(reader, at, before, body + after);
    HoldsConcat(reader, at + |before|, body, after);
  }

  lemma {:induction false} FileDelivered(x: bool, body: bytes, at: nat, tail: seq<DecodeEvent>, reader: Reader)
    requires reader.Holds(at, FileBytes(x, body))
    requires Delivered(tail, reader, at + |FileBytes(x, body)|)
    ensures Delivered(FileTrace(x, body, at) + tail, reader, at)
  {
    hide Cut, FileHead, Head, Reader.Holds, PlainAll, ChunkEvents, Delivered, Str;
    var offset := at + |Head(RegularKind)| + |FileHead(x)| + 8;
    BodyInFile(x, body, at, reader);
    var rest := [Plain(EndFile)] + tail;
    DeliveredFurther(tail, reader, at + |FileBytes(x, body)|, offset + |body|);
    SkipEvent(Plain(EndFile), tail, reader, offset + |body|);
    LeadingChunks(Cut(body), rest, reader, offset + |body|);
    ConcatCut(body);
    var log := PlainAll(ChunkEvents(Cut(body))) + rest;
    StartFile(x, body, offset, log, reader, at);
    assert FileTrace(x, body, at) + tail == [FileAt(x, |body|, offset)] + log;
  }

  lemma {:induction false} NodeDelivered(t: Node, depth: nat, at: nat, tail: seq<DecodeEvent>, reader: Reader)
    requires reader.Holds(at, Serialize(t))
    requires Delivered(tail, reader, at + |Serialize(t)|)
    ensures Delivered(Trace(t, depth, at) + tail, reader, at)
    decreases t
  {
    hide Head, Str, FileTrace, FileBytes, LinkBytes, Delivered, Reader.Holds, SerializeEntries, TraceOf;
    match t
    case Directory(es) =>
      var start := at + |Head(DirectoryKind)|;
      HoldsConcat(reader, at, Head(DirectoryKind), SerializeEntries(es) + Str(CLOSE));
      HoldsConcat(reader, start, SerializeEntries(es), Str(CLOSE));
      var rest := [Plain(EndDirectory)] + tail;
      DeliveredFurther(tail, reader, at + |Serialize(t)|, start + |SerializeEntries(es)|);
      SkipEvent(Plain(EndDirectory), tail, reader, start + |SerializeEntries(es)|);
      EntriesDelivered(es, depth + 1, start, rest, reader);
      var log := TraceOf(es, depth + 1, start) + rest;
      DeliveredFurther(log, reader, start, at);
      SkipEvent(DirectoryAt(depth), log, reader, at);
      assert Trace(t, depth, at) + tail == [DirectoryAt(depth)] + log;
    case Regular(x, chunks) => FileDelivered(x, Concat(chunks), at, tail, reader);
    case Symlink(target) =>
      DeliveredFurther(tail, reader, at + |Serialize(t)|, at);
      SkipEvent(Plain(SymlinkTo(target)), tail, reader, at);
  }

  lemma {:induction false} EntriesDelivered(es: Entries, depth: nat, at: nat, tail: seq<DecodeEvent>, reader: Reader)
    requires reader.Holds(at, SerializeEntries(es))
    requires Delivered(tail, reader, at + |SerializeEntries(es)|)
    ensures Delivered(TraceOf(es, depth, at) + tail, reader, at)
    decreases es
  {
    hide EntryHead, Str, Delivered, Reader.Holds, Serialize, Trace;
    match es
    case NoEntries =>
      assert TraceOf(es, depth, at) + tail == tail;
    case Entry(name, node, others) =>
      var p := at + |EntryHead(name)|;
      var q := p + |Serialize(node)|;
      HoldsConcat(reader, at, EntryHead(name), Serialize(node) + (Str(CLOSE) + SerializeEntries(others)));
      HoldsConcat(reader, p, Serialize(node), Str(CLOSE) + SerializeEntries(others));
      HoldsConcat(reader, q, Str(CLOSE), SerializeEntries(others));
      EntriesDelivered(others, depth, q + |Str(CLOSE)|, tail, reader);
      var rest := TraceOf(others, depth, q + |Str(CLOSE)|) + tail;
      DeliveredFurther(rest, reader, q + |Str(CLOSE)|, q);
      NodeDelivered(node, depth, p, rest, reader);
      var log := Trace(node, depth, p) + rest;
      DeliveredFurther(log, reader, p, at);
      SkipEvent(Plain(EntryNamed(name)), log, reader, at);
      assert TraceOf(es, depth, at) + tail == [Plain(EntryNamed(name))] + log;
  }

  /** In every accepted archive each file is reported with its own bytes, at the announced
      offset, in chunks of at most CHUNK_SIZE, and file ranges are disjoint and increasing. */
  lemma FilesDelivered(reader: Reader, limits: Limits)
    requires Decode(reader, limits).Ok?
    ensures Delivered(Decode(reader, limits).st.events, reader, 0)
    ensures forall e :: e in Decode(reader, limits).st.events && e.Plain? && e.event.FileChunk?
              ==> 0 < |e.event.chunk| <= CHUNK_SIZE
  {
    hide Decode, Serialize, Trace, Str, Decodable, Recut;
    AcceptedIsArchive(reader, limits);
    var t := Decode(reader, limits).value;
    AcceptsArchive(reader, limits, t);
    EveryRunBounded(reader, limits);
    HoldsConcat(reader, 0, Str(MAGIC), Serialize(t));
    NodeDelivered(t, 0, |Str(MAGIC)|, [], reader);
    assert ArchiveTrace(t) + [] == ArchiveTrace(t);
    DeliveredFurther(ArchiveTrace(t), reader, |Str(MAGIC)|, 0);
  }
}
