/** Whole archives: exactly which byte streams the decoder accepts, and what it reports. */
module NarArchive {
  import opened NarFormat
  import opened NarGrammar
  import opened NarTokens
  import opened NarDecoding

  /** The stream is the archive of t: these bytes, then end of file. */
  ghost predicate Carries(reader: Reader, t: Node) {
    reader.end == EndsAt(|Archive(t)|) && reader.Holds(0, Archive(t))
  }

  /** The tree is canonical and within every limit of the decoder. */
  predicate Decodable(t: Node, limits: Limits) {
    Fits(t, limits) && Work(t) <= limits.maxWork
  }

  function SummaryOf(t: Node): Summary {
    Summary(t.Kind(), |Archive(t)|, Archive(t), EntryCount(t), FileCount(t), LinkCount(t))
  }

  /** The summary the decoder returns: the hashed bytes stand for their SHA-256. */
  function Summarize(kind: RootKind, s: State): Summary {
    Summary(kind, s.raw, s.reader.Take(0, s.raw), s.entries, s.files, s.symlinks)
  }

  function ArchiveTrace(t: Node): seq<DecodeEvent> {
    Trace(t, 0, |Str(MAGIC)|)
  }

  lemma BudgetAtRoot(t: Node, s: State)
    requires s.raw == |Str(MAGIC)| && s.work == 0 && s.entries == 0
    ensures Affordable(s, t, 0) <==> Decodable(t, s.limits) && Reads(s, Serialize(t))
    ensures |Archive(t)| <= s.limits.maxTotalBytes ==>
              Work(t) <= U64_MAX && FileCount(t) <= U64_MAX && LinkCount(t) <= U64_MAX
  {
    hide Str, Serialize, Allowed, Reader.Holds;
    CountsBelowSize(t);
  }

  lemma ArchiveReads(reader: Reader, limits: Limits, t: Node)
    ensures |Archive(t)| <= limits.maxTotalBytes && reader.Holds(0, Archive(t)) <==>
            && Reads(Start(reader, limits), Str(MAGIC))
            && Reads(Start(reader, limits).Skip(|Str(MAGIC)|), Serialize(t))
    ensures reader.Holds(0, Archive(t)) ==> reader.Take(0, |Archive(t)|) == Archive(t)
  {
    hide Str, Serialize;
    ReadsConcat(Start(reader, limits), Str(MAGIC), Serialize(t));
  }

  lemma {:induction false} AcceptsArchive(reader: Reader, limits: Limits, t: Node)
    requires Decodable(t, limits) && Carries(reader, t)
    ensures Decode(reader, limits).Ok? && Decode(reader, limits).value == Recut(t)
    ensures Decode(reader, limits).st.events == ArchiveTrace(t)
    ensures Summarize(t.Kind(), Decode(reader, limits).st) == SummaryOf(t)
  {
    hide Expect, ParseNode, Within, Str, Serialize, Allowed, Affordable, Reader.Holds;
    var s0 := Start(reader, limits);
    ArchiveReads(reader, limits, t);
    ExpectExact(s0, MAGIC);
    var s1 := s0.Skip(|Str(MAGIC)|);
    BudgetAtRoot(t, s1);
    NodeComplete(s1, t, 0);
  }

  lemma DecodeStages(reader: Reader, limits: Limits)
    requires Decode(reader, limits).Ok?
    ensures var s1 := Start(reader, limits).Skip(|Str(MAGIC)|);
            && Reads(Start(reader, limits), Str(MAGIC))
            && ParseNode(s1, 0).Ok? && Decode(reader, limits).value == ParseNode(s1, 0).value
            && reader.end == EndsAt(ParseNode(s1, 0).st.raw)
  {
    hide Expect, ParseNode, Within, Str;
    ExpectExact(Start(reader, limits), MAGIC);
  }

  lemma {:induction false} AcceptedIsArchive(reader: Reader, limits: Limits)
    requires Decode(reader, limits).Ok?
    ensures var t := Decode(reader, limits).value;
            Decodable(t, limits) && Carries(reader, t) && Recut(t) == t
  {
    hide Decode, ParseNode, Within, Str, Serialize, Recut, Affordable, Reader.Holds, Decodable, Trace;
    DecodeStages(reader, limits);
    var s1 := Start(reader, limits).Skip(|Str(MAGIC)|);
    NodeSound(s1, 0);
    var t := ParseNode(s1, 0).value;
    NodeComplete(s1, t, 0);
    AffordableReads(s1, t);
    ArchiveReads(reader, limits, t);
    BudgetAtRoot(t, s1);
  }

  lemma AffordableReads(s: State, t: Node)
    requires Affordable(s, t, 0)
    ensures Reads(s, Serialize(t))
  {
  }

  /** The decoder accepts a stream just when it is the archive of a canonical tree within the
      limits; it then reports that tree's traversal, cut into CHUNK_SIZE pieces, and its size,
      bytes and counts. */
  lemma DecodeExact(reader: Reader, limits: Limits)
    ensures Decode(reader, limits).Ok? <==> exists t :: Decodable(t, limits) && Carries(reader, t)
    ensures forall t :: Decodable(t, limits) && Carries(reader, t) ==>
              && Decode(reader, limits).value == Recut(t)
              && Decode(reader, limits).st.events == ArchiveTrace(t)
              && Summarize(t.Kind(), Decode(reader, limits).st) == SummaryOf(t)
  {
    hide *;
    if Decode(reader, limits).Ok? {
      AcceptedIsArchive(reader, limits);
    }
    forall t | Decodable(t, limits) && Carries(reader, t)
      ensures Decode(reader, limits).Ok?
      ensures Decode(reader, limits).value == Recut(t)
      ensures Decode(reader, limits).st.events == ArchiveTrace(t)
      ensures Summarize(t.Kind(), Decode(reader, limits).st) == SummaryOf(t)
    {
      AcceptsArchive(reader, limits, t);
    }
  }

  /** A reader that never ends, or that fails, is refused; every run stops within the total-size
      limit, and even a refused run reports only events that the limits permit and at most
      maxEntries entry names. */
  lemma EveryRunBounded(reader: Reader, limits: Limits)
    ensures !reader.end.EndsAt? ==> Decode(reader, limits).Err?
    ensures Decode(reader, limits).st.raw <= limits.maxTotalBytes
    ensures Named(Decode(reader, limits).st.events) <= limits.maxEntries
    ensures forall e :: e in Decode(reader, limits).st.events ==> Permitted(e, limits)
  {
    hide Expect, ParseNode;
  }

  /** An archive has one tree: two canonical trees within the limits with the same bytes
      differ at most in how file bodies are cut. */
  lemma ArchiveDetermines(t: Node, u: Node, limits: Limits)
    requires Decodable(t, limits) && Decodable(u, limits)
    requires Archive(t) == Archive(u)
    ensures Recut(t) == Recut(u)
  {
    hide Expect, ParseNode, Serialize, Str, Recut;
    var reader := FromBytes(Archive(t));
    assert reader.Take(0, |Archive(t)|) == Archive(t);
    AcceptsArchive(reader, limits, t);
    AcceptsArchive(reader, limits, u);
  }
}
