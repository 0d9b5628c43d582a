/** narinfo documents: lines of the form `Name: value`, each field at most once except signatures. */
module NarInfoDocument {
  import opened Options
  import opened Text

  datatype Field =
    | StorePath | Url | Compression | FileHash | FileSize | NarHash | NarSize | References
    | Deriver | System | ContentAddress

  datatype LineField = Unique(field: Field) | Signature {
    function Name(): string {
      match this
      case Unique(StorePath) => "StorePath"
      case Unique(Url) => "URL"
      case Unique(Compression) => "Compression"
      case Unique(FileHash) => "FileHash"
      case Unique(FileSize) => "FileSize"
      case Unique(NarHash) => "NarHash"
      case Unique(NarSize) => "NarSize"
      case Unique(References) => "References"
      case Unique(Deriver) => "Deriver"
      case Unique(System) => "System"
      case Unique(ContentAddress) => "CA"
      case Signature => "Sig"
    }
  }

  function ParseName(name: string): Option<LineField> {
    match name
    case "StorePath" => Some(Unique(StorePath))
    case "URL" => Some(Unique(Url))
    case "Compression" => Some(Unique(Compression))
    case "FileHash" => Some(Unique(FileHash))
    case "FileSize" => Some(Unique(FileSize))
    case "NarHash" => Some(Unique(NarHash))
    case "NarSize" => Some(Unique(NarSize))
    case "References" => Some(Unique(References))
    case "Deriver" => Some(Unique(Deriver))
    case "System" => Some(Unique(System))
    case "CA" => Some(Unique(ContentAddress))
    case "Sig" => Some(Signature)
    case _ => None
  }

  datatype Document = Document(fields: map<Field, string>, signatures: seq<string>) {
    function Get(f: Field): Option<string> {
      if f in fields then Some(fields[f]) else None
    }
  }

  const EMPTY: Document := Document(map[], [])

  datatype UnknownFields = Reject | Ignore

  /** The text before and after the first `": "`. */
  function SplitLine(line: string): (r: Option<(string, string)>)
    ensures r.Some? ==> line == r.value.0 + ": " + r.value.1
    decreases |line|
  {
    if |line| < 2 then None
    else if line[..2] == ": " then Some(([], line[2..]))
    else
      match SplitLine(line[1..])
      case None => None
      case Some((name, value)) => Some(([line[0]] + name, value))
  }

  function RecordField(d: Document, f: LineField, value: string): Option<Document> {
    match f
    case Signature => Some(d.(signatures := d.signatures + [value]))
    case Unique(field) =>
      if field in d.fields then None else Some(d.(fields := d.fields[field := value]))
  }

  function RecordLine(d: Document, line: string, unknown: UnknownFields): Option<Document> {
    var (name, value) :- SplitLine(line);
    match ParseName(name)
    case None => if unknown.Reject? then None else Some(d)
    case Some(f) => RecordField(d, f, value)
  }

  function RecordLines(d: Document, lines: seq<string>, unknown: UnknownFields): Option<Document>
    decreases |lines|
  {
    if lines == [] then Some(d)
    else
      var next :- RecordLine(d, lines[0], unknown);
      RecordLines(next, lines[1..], unknown)
  }

  function ParseDocument(text: string, unknown: UnknownFields): Option<Document> {
    var body :- StripSuffix(text, "\n");
    RecordLines(EMPTY, Split(body, '\n'), unknown)
  }

  /* ---- what a document says, without reading it line by line ---- */

  datatype Entry = Entry(field: LineField, value: string) {
    function Line(): string {
      field.Name() + ": " + value
    }
  }

  function EntryLines(entries: seq<Entry>): (lines: seq<string>)
    ensures |lines| == |entries|
    ensures forall i :: 0 <= i < |lines| ==> lines[i] == entries[i].Line()
  {
    if entries == [] then [] else [entries[0].Line()] + EntryLines(entries[1..])
  }

  /** The value of the first entry for a field. */
  function Lookup(entries: seq<Entry>, f: Field): Option<string> {
    if entries == [] then None
    else if entries[0].field == Unique(f) then Some(entries[0].value)
    else Lookup(entries[1..], f)
  }

  function SignaturesIn(entries: seq<Entry>): seq<string> {
    if entries == [] then []
    else if entries[0].field.Signature? then [entries[0].value] + SignaturesIn(entries[1..])
    else SignaturesIn(entries[1..])
  }

  /** No field other than a signature is given twice. */
  predicate Once(entries: seq<Entry>) {
    entries == [] ||
    (&& (entries[0].field.Unique? ==> Lookup(entries[1..], entries[0].field.field).None?)
     && Once(entries[1..]))
  }

  /** None of the entries gives a field the document already has. */
  ghost predicate New(d: Document, entries: seq<Entry>) {
    forall f: Field :: Lookup(entries, f).Some? ==> f !in d.fields
  }

  lemma NamesRoundTrip(f: LineField)
    ensures ParseName(f.Name()) == Some(f)
  {
    if f.Unique? {
      match f.field
      case StorePath =>
      case Url =>
      case Compression =>
      case FileHash =>
      case FileSize =>
      case NarHash =>
      case NarSize =>
      case References =>
      case Deriver =>
      case System =>
      case ContentAddress =>
    }
  }

  lemma NamesPlain(f: LineField)
    ensures forall i :: 0 <= i < |f.Name()| ==> 'A' <= f.Name()[i] <= 'z'
  {
  }

  lemma NameOfParsed(name: string)
    requires ParseName(name).Some?
    ensures ParseName(name).value.Name() == name
  {
  }

  lemma {:induction false} SplitAtColon(name: string, value: string)
    requires ':' !in name
    ensures SplitLine(name + ": " + value) == Some((name, value))
    decreases |name|
  {
    var line := name + ": " + value;
    if name == [] {
      assert line == ": " + value;
      assert line[..2] == ": " && line[2..] == value;
    } else {
      assert line[..2][0] == name[0] && line[0] != ':';
      assert line[1..] == name[1..] + ": " + value;
      SplitAtColon(name[1..], value);
      assert [name[0]] + name[1..] == name;
    }
  }

  lemma RecordEntry(d: Document, e: Entry, unknown: UnknownFields)
    ensures RecordLine(d, e.Line(), unknown) == RecordField(d, e.field, e.value)
  {
    NamesRoundTrip(e.field);
    NamesPlain(e.field);
    SplitAtColon(e.field.Name(), e.value);
  }

  /** Lines are accepted exactly when no field is given twice, and then the document says what the lines say. */
  lemma {:induction false} RecordExact(d: Document, entries: seq<Entry>, unknown: UnknownFields)
    ensures var r := RecordLines(d, EntryLines(entries), unknown);
            && (r.Some? <==> Once(entries) && New(d, entries))
            && (r.Some? ==> Agrees(d, entries, r.value))
    decreases |entries|
  {
    hide ParseName, SplitLine;
    if entries == [] {
      assert d.signatures + [] == d.signatures;
    } else {
      var e, rest := entries[0], entries[1..];
      RecordEntry(d, e, unknown);
      hide RecordLine;
      assert EntryLines(entries)[1..] == EntryLines(rest);
      var next := RecordField(d, e.field, e.value);
      if next.Some? {
        RecordExact(next.value, rest, unknown);
        NewStep(d, entries, next.value);
        var r := RecordLines(next.value, EntryLines(rest), unknown);
        if r.Some? { AgreesStep(d, entries, next.value, r.value); }
      } else {
        assert Lookup(entries, e.field.field).Some?;
      }
    }
  }

  ghost predicate Agrees(d: Document, entries: seq<Entry>, r: Document) {
    && r.signatures == d.signatures + SignaturesIn(entries)
    && forall f: Field :: r.Get(f) == if f in d.fields then d.Get(f) else Lookup(entries, f)
  }

  lemma NewStep(d: Document, entries: seq<Entry>, next: Document)
    requires entries != [] && RecordField(d, entries[0].field, entries[0].value) == Some(next)
    ensures Once(entries) && New(d, entries) <==> Once(entries[1..]) && New(next, entries[1..])
  {
    var e, rest := entries[0], entries[1..];
    if Once(rest) && New(next, rest) {
      forall f: Field | Lookup(entries, f).Some? ensures f !in d.fields {
        assert f !in d.fields || Lookup(rest, f).None?;
      }
    }
    if Once(entries) && New(d, entries) {
      forall f: Field | Lookup(rest, f).Some? ensures f !in next.fields {
        assert Lookup(entries, f).Some?;
      }
    }
  }

  lemma AgreesStep(d: Document, entries: seq<Entry>, next: Document, r: Document)
    requires entries != [] && RecordField(d, entries[0].field, entries[0].value) == Some(next)
    requires Agrees(next, entries[1..], r)
    ensures Agrees(d, entries, r)
  {
    var e, rest := entries[0], entries[1..];
    assert r.signatures == d.signatures + SignaturesIn(entries);
    forall f: Field ensures r.Get(f) == if f in d.fields then d.Get(f) else Lookup(entries, f) {
    }
  }

  /** Texts read back: lines without newlines, none given twice. */
  lemma EntriesRead(entries: seq<Entry>, unknown: UnknownFields)
    requires entries != [] && forall i :: 0 <= i < |entries| ==> '\n' !in entries[i].Line()
    ensures var r := ParseDocument(Lines(EntryLines(entries)), unknown);
            && (r.Some? <==> Once(entries))
            && (r.Some? ==> Agrees(EMPTY, entries, r.value))
  {
    hide Split, Join, Lines, Entry.Line, RecordLines, Once, Agrees, EndsWith;
    var lines := EntryLines(entries);
    LinesJoin(lines);
    SuffixStripped(Join(lines, '\n'), "\n");
    SplitJoin(lines, '\n');
    RecordExact(EMPTY, entries, unknown);
  }

  lemma RecordedEntry(d: Document, line: string) returns (e: Entry)
    requires RecordLine(d, line, Reject).Some?
    ensures e.Line() == line
  {
    var (name, value) := SplitLine(line).value;
    NameOfParsed(name);
    e := Entry(ParseName(name).value, value);
  }

  lemma RecordedEntries(d: Document, lines: seq<string>) returns (entries: seq<Entry>)
    requires RecordLines(d, lines, Reject).Some?
    ensures EntryLines(entries) == lines
    decreases |lines|
  {
    hide RecordLine, Entry.Line;
    if lines == [] {
      entries := [];
    } else {
      var e := RecordedEntry(d, lines[0]);
      var rest := RecordedEntries(RecordLine(d, lines[0], Reject).value, lines[1..]);
      entries := [e] + rest;
    }
  }

  /** Everything the strict reader accepts is a list of entries, none given twice. */
  lemma DocumentEntries(text: string) returns (entries: seq<Entry>)
    requires ParseDocument(text, Reject).Some?
    ensures text == Lines(EntryLines(entries)) && Once(entries)
    ensures Agrees(EMPTY, entries, ParseDocument(text, Reject).value)
  {
    hide Split, Join, Lines, Entry.Line, RecordLines, Once, Agrees, EndsWith;
    var body := StripSuffix(text, "\n").value;
    entries := RecordedEntries(EMPTY, Split(body, '\n'));
    SplitParts(body, '\n');
    LinesJoin(EntryLines(entries));
    RecordExact(EMPTY, entries, Reject);
  }

  /** The lenient reader says the same of every text the strict reader accepts. */
  lemma StrictIsLenient(text: string)
    requires ParseDocument(text, Reject).Some?
    ensures ParseDocument(text, Ignore) == ParseDocument(text, Reject)
  {
    LenientLines(EMPTY, Split(StripSuffix(text, "\n").value, '\n'));
  }

  lemma {:induction false} LenientLines(d: Document, lines: seq<string>)
    requires RecordLines(d, lines, Reject).Some?
    ensures RecordLines(d, lines, Ignore) == RecordLines(d, lines, Reject)
    decreases |lines|
  {
    hide ParseName, SplitLine;
    if lines != [] {
      LenientLines(RecordLine(d, lines[0], Reject).value, lines[1..]);
    }
  }
}
