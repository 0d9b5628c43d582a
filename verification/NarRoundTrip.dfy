/** Encoder and decoder undo each other. */
module NarRoundTrip {
  import opened NarFormat
  import Lexicographic
  import Enc = NarEncoding
  import opened NarGrammar
  import opened NarDecoding
  import opened NarArchive
  import opened NarCodec

  lemma FromBytesCarries(t: Node)
    ensures Carries(FromBytes(Archive(t)), t)
  {
    hide Archive;
    var reader := FromBytes(Archive(t));
    assert reader.Take(0, |Archive(t)|) == Archive(t);
  }

  lemma TreeDecodable(t: Node, limits: Limits)
    requires Fits(t, limits) && Saturate(|Events(t)|) <= limits.maxWork
    ensures Decodable(t, limits)
  {
    hide Serialize, Str, Allowed, Events;
    WorkExact(t);
    CountsBelowSize(t);
  }

  /** Decode after encode. Whatever event sequence the encoder takes to a successful finish, the
      decoder accepts its output under the same limits, with the same root, size, hashed bytes
      and counts, and reports the same events but for chunk boundaries, which it sets afresh. */
  lemma DecodeAfterEncode(limits: Limits, events: seq<EncodeEvent>)
    requires Enc.Encode(limits, events).Done?
    ensures var s := Enc.Encode(limits, events).st;
            var d := Decode(FromBytes(s.out), limits);
            && d.Ok?
            && Summarize(d.value.Kind(), d.st) == EncodeSummary(s)
            && Unchunk(StripAll(d.st.events)) == Unchunk(events)
            && exists t :: events == Events(t) && StripAll(d.st.events) == Events(Recut(t))
  {
    hide Enc.Encode, Decode, SummaryOf, EncodeSummary, Summarize, Fits;
    hide Events, Carries, Decodable, Unchunk, Recut, Trace;
    var t := EncodedIsTree(limits, events);
    EncodesTree(limits, t);
    assert Enc.Encode(limits, events).st.out == Archive(t) by { SummaryBytes(Enc.Encode(limits, events).st, t); }
    TreeDecodable(t, limits);
    FromBytesCarries(t);
    AcceptsArchive(FromBytes(Archive(t)), limits, t);
    RecutKind(t);
    StripTrace(t, 0, |Str(MAGIC)|);
    UnchunkTree(t);
  }

  lemma SummaryBytes(s: Enc.State, t: Node)
    requires s.root.Complete? && EncodeSummary(s) == SummaryOf(t)
    ensures s.out == Archive(t)
  {
  }

  lemma RecutKind(t: Node)
    ensures Recut(t).Kind() == t.Kind()
  {
  }

  /* ---- looser limits ---- */

  predicate Looser(limits: Limits, more: Limits) {
    && limits.maxDepth <= more.maxDepth && limits.maxNameBytes <= more.maxNameBytes
    && limits.maxSymlinkTargetBytes <= more.maxSymlinkTargetBytes
    && limits.maxFileBytes <= more.maxFileBytes
  }

  lemma {:induction false} AllowedLooser(t: Node, limits: Limits, more: Limits, depth: nat)
    requires Looser(limits, more) && Allowed(t, limits, depth)
    ensures Allowed(t, more, depth)
    decreases t
  {
    match t case Directory(es) => EntriesLooser(es, limits, more, depth + 1, []); case _ =>
  }

  lemma {:induction false} EntriesLooser(es: Entries, limits: Limits, more: Limits, depth: nat, previous: bytes)
    requires Looser(limits, more) && AllowedEntries(es, limits, depth, previous)
    ensures AllowedEntries(es, more, depth, previous)
    decreases es
  {
    hide ValidName, Lexicographic.Less;
    match es
    case NoEntries =>
    case Entry(name, node, rest) =>
      AllowedLooser(node, limits, more, depth);
      EntriesLooser(rest, limits, more, depth, name);
  }

  /** Encode after decode. The events of an accepted stream, fed back to an encoder with the same
      limits except on work, are accepted just when that limit allows one unit for each event,
      and then the output is the stream, byte for byte. */
  lemma EncodeAfterDecode(reader: Reader, limits: Limits, maxWork: u64)
    requires Decode(reader, limits).Ok?
    ensures var d := Decode(reader, limits).st;
            var e := Enc.Encode(limits.(maxWork := maxWork), StripAll(d.events));
            && (e.Done? <==> Saturate(|d.events|) <= maxWork)
            && (e.Done? ==> e.st.out == reader.Take(0, d.raw))
  {
    hide Enc.Encode, Decode, SummaryOf, EncodeSummary, Summarize, Events, Allowed, Recut, Trace, Archive;
    var d := Decode(reader, limits).st;
    var more := limits.(maxWork := maxWork);
    AcceptedIsArchive(reader, limits);
    var t := Decode(reader, limits).value;
    AcceptsArchive(reader, limits, t);
    StripTrace(t, 0, |Str(MAGIC)|);
    var events := StripAll(d.events);
    AllowedLooser(t, limits, more, 0);
    if Enc.Encode(more, events).Done? {
      var u := EncodedIsTree(more, events);
    }
    if Saturate(|d.events|) <= maxWork {
      EncodesTree(more, t);
      SummaryBytes(Enc.Encode(more, events).st, t);
      ReadBytes(t, d);
    }
  }

  lemma ReadBytes(t: Node, s: State)
    requires Summarize(t.Kind(), s) == SummaryOf(t)
    ensures s.reader.Take(0, s.raw) == Archive(t)
  {
    hide Archive;
  }

  /** One tree, one accepted encoding: streams that report the same events are the same bytes. */
  lemma OneEncoding(a: Reader, b: Reader, m: Limits, n: Limits)
    requires Decode(a, m).Ok? && Decode(b, n).Ok?
    requires StripAll(Decode(a, m).st.events) == StripAll(Decode(b, n).st.events)
    ensures Decode(a, m).st.raw == Decode(b, n).st.raw
    ensures a.Take(0, Decode(a, m).st.raw) == b.Take(0, Decode(b, n).st.raw)
  {
    hide Enc.Encode, Decode, SummaryOf, EncodeSummary, Summarize, Events, Archive, Recut;
    var events := StripAll(Decode(a, m).st.events);
    var t := UnlimitedSpelling(a, m);
    var u := UnlimitedSpelling(b, n);
    EncodeExact(UNLIMITED, events);
    SummaryBytes(Enc.Encode(UNLIMITED, events).st, t);
    SummaryBytes(Enc.Encode(UNLIMITED, events).st, u);
    TakeLength(a, Decode(a, m).st.raw);
    TakeLength(b, Decode(b, n).st.raw);
  }

  lemma TakeLength(r: Reader, n: nat)
    ensures |r.Take(0, n)| == n
  {
  }

  lemma UnlimitedSpelling(reader: Reader, limits: Limits) returns (t: Node)
    requires Decode(reader, limits).Ok?
    ensures Spells(StripAll(Decode(reader, limits).st.events), t, UNLIMITED)
    ensures reader.Take(0, Decode(reader, limits).st.raw) == Archive(t)
  {
    hide Decode, SummaryOf, Summarize, Events, Archive, Recut, Trace, Allowed;
    AcceptedIsArchive(reader, limits);
    t := Decode(reader, limits).value;
    AcceptsArchive(reader, limits, t);
    StripTrace(t, 0, |Str(MAGIC)|);
    AllowedLooser(t, limits, UNLIMITED, 0);
    ReadBytes(t, Decode(reader, limits).st);
  }

  /* ---- limits out of the way ---- */

  /** The rules of the format itself. */
  predicate WellFormed(t: Node) {
    match t
    case Directory(es) => WellFormedEntries(es, [])
    case Regular(_, _) => true
    case Symlink(target) => ValidTarget(target)
  }

  predicate WellFormedEntries(es: Entries, previous: bytes) {
    match es
    case NoEntries => true
    case Entry(name, node, rest) =>
      && ValidName(name) && Lexicographic.Less(previous, name)
      && WellFormed(node) && WellFormedEntries(rest, name)
  }

  lemma {:induction false} WellFormedAllowed(t: Node, depth: nat)
    ensures depth + |Serialize(t)| <= U64_MAX && WellFormed(t) ==> Allowed(t, UNLIMITED, depth)
    ensures Allowed(t, UNLIMITED, depth) ==> WellFormed(t)
    decreases t
  {
    hide ValidName, ValidTarget, Concat;
    match t case Directory(es) => WellFormedAllowedEntries(es, depth + 1, []); case _ =>
  }

  lemma {:induction false} WellFormedAllowedEntries(es: Entries, depth: nat, previous: bytes)
    ensures depth + |SerializeEntries(es)| <= U64_MAX && WellFormedEntries(es, previous)
            ==> AllowedEntries(es, UNLIMITED, depth, previous)
    ensures AllowedEntries(es, UNLIMITED, depth, previous) ==> WellFormedEntries(es, previous)
    decreases es
  {
    hide ValidName, Lexicographic.Less;
    match es
    case NoEntries =>
    case Entry(name, node, rest) =>
      WellFormedAllowed(node, depth);
      WellFormedAllowedEntries(rest, depth, name);
  }

  /** Without limits other than 64-bit counters, the decoder accepts exactly the archives of
      well-formed trees. */
  lemma UnlimitedExact(reader: Reader)
    ensures Decode(reader, UNLIMITED).Ok? <==>
            exists t :: WellFormed(t) && |Archive(t)| <= U64_MAX && Carries(reader, t)
  {
    hide Decode, Serialize, Str, Allowed, WellFormed, Carries, Recut;
    forall t
      ensures Decodable(t, UNLIMITED) <==> WellFormed(t) && |Archive(t)| <= U64_MAX
    {
      WellFormedAllowed(t, 0);
      CountsBelowSize(t);
    }
    DecodeExact(reader, UNLIMITED);
  }
}
