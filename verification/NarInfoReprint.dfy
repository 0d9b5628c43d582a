/** What was parsed prints no longer than the text it was parsed from. */
module NarInfoReprint {
  import opened NarInfo
  import opened NarInfoDocument
  import opened NarInfoMetadata
  import opened NarInfoParsing
  import opened NarInfoRoundTrip
  import opened NarObjects
  import opened Options
  import opened Sorting
  import opened StorePaths
  import opened Text
  import NixBase32

  /* ---- lengths in bytes ---- */

  predicate SingleBytes(s: string) {
    forall i :: 0 <= i < |s| ==> CharBytes(s[i]) == 1
  }

  lemma {:induction false} AtLeastChars(s: string)
    ensures |s| <= ByteLength(s) && (SingleBytes(s) ==> ByteLength(s) == |s|)
    decreases |s|
  {
    if s != [] { AtLeastChars(s[..|s| - 1]); }
  }

  /** A text of single bytes with no more characters has no more bytes. */
  lemma NoLonger(printed: string, read: string)
    requires SingleBytes(printed) && |printed| <= |read|
    ensures ByteLength(printed) <= ByteLength(read)
  {
    hide ByteLength;
    AtLeastChars(printed);
    AtLeastChars(read);
  }

  /* ---- numbers: printing drops a plus sign and leading zeros ---- */

  lemma {:induction false} ShortestDecimal(t: string)
    requires AllDigits(t) && t != []
    ensures |Decimal(DecimalValue(t))| <= |t|
    decreases |t|
  {
    var front, d := t[..|t| - 1], t[|t| - 1] as int - '0' as int;
    if front != [] { ShortestDecimal(front); }
    LastDigit(DecimalValue(front), d);
  }

  lemma LastDigit(v: nat, d: nat)
    requires d < 10
    ensures |Decimal(10 * v + d)| == if v == 0 then 1 else |Decimal(v)| + 1
  {
    var n := 10 * v + d;
    assert n / 10 == v && n % 10 == d;
  }

  lemma SizeNoLonger(text: string)
    requires ParseU64(text).Some?
    ensures ByteLength(Decimal(ParseU64(text).value)) <= ByteLength(text)
  {
    hide DecimalValue, ByteLength;
    var digits := if text[0] == '+' then text[1..] else text;
    ShortestDecimal(digits);
    NoLonger(Decimal(ParseU64(text).value), text);
  }

  /* ---- references: printing drops repeats ---- */

  /** The characters the paths' basenames take in the references field, with a separator each. */
  function Span(paths: seq<string>): int {
    if paths == [] then 0 else |paths[0]| - |STORE_PREFIX| + 1 + Span(paths[1..])
  }

  lemma {:induction false} JoinSpan(paths: seq<string>)
    requires ValidPaths(paths) && paths != []
    ensures |Join(Basenames(paths), ' ')| + 1 == Span(paths)
    decreases |paths|
  {
    hide BasenameStore;
    var names := Basenames(paths);
    assert names[1..] == Basenames(paths[1..]);
    if |paths| == 1 {
      assert paths[1..] == [] && names == [names[0]];
    } else {
      JoinSpan(paths[1..]);
    }
  }

  lemma {:induction false} InsertSpan(x: string, s: seq<string>)
    ensures Span(Insert(x, s)) == Span(s) + |x| - |STORE_PREFIX| + 1
    decreases |s|
  {
    hide Before;
    if s == [] || !Before(s[0], x) {
      assert ([x] + s)[1..] == s;
    } else {
      InsertSpan(x, s[1..]);
      assert ([s[0]] + Insert(x, s[1..]))[1..] == Insert(x, s[1..]);
    }
  }

  lemma {:induction false} SortSpan(s: seq<string>)
    ensures Span(Sort(s)) == Span(s)
    decreases |s|
  {
    if s != [] {
      SortSpan(s[1..]);
      InsertSpan(s[0], Sort(s[1..]));
    }
  }

  lemma {:induction false} DedupSpan(s: seq<string>)
    requires forall i :: 0 <= i < |s| ==> |s[i]| >= |STORE_PREFIX|
    ensures Span(Dedup(s)) <= Span(s)
    decreases |s|
  {
    if |s| > 1 {
      DedupSpan(s[1..]);
      if s[0] != s[1] { assert ([s[0]] + Dedup(s[1..]))[1..] == Dedup(s[1..]); }
    }
  }

  lemma SortDedupSpan(paths: seq<string>)
    requires ValidPaths(paths)
    ensures Span(SortDedup(paths)) <= Span(paths)
  {
    hide BasenameStore, Sort, Dedup;
    SortSpan(paths);
    SortSound(paths);
    forall i | 0 <= i < |Sort(paths)| ensures |Sort(paths)[i]| >= |STORE_PREFIX| {
      assert Sort(paths)[i] in multiset(Sort(paths));
      assert Sort(paths)[i] in paths;
    }
    DedupSpan(Sort(paths));
  }

  lemma {:induction false} NamesOfParsed(names: seq<string>)
    requires FromBasenames(names).Some?
    ensures |FromBasenames(names).value| == |names| && ValidPaths(FromBasenames(names).value)
    ensures Basenames(FromBasenames(names).value) == names
    decreases |names|
  {
    hide ValidPath, Basename, FromBasename;
    ParsedValid(names);
    if names != [] {
      NamesOfParsed(names[1..]);
      NameOfPath(names[0]);
      var paths := FromBasenames(names).value;
      assert paths[0] == FromBasename(names[0]).value && paths[1..] == FromBasenames(names[1..]).value;
      assert Basenames(paths) == [Basename(paths[0])] + Basenames(paths[1..]);
      assert names == [names[0]] + names[1..];
    }
  }

  lemma NameOfPath(name: string)
    requires FromBasename(name).Some?
    ensures ValidPath(FromBasename(name).value) && Basename(FromBasename(name).value) == name
  {
  }

  lemma {:induction false} JoinSingle(parts: seq<string>)
    requires forall i :: 0 <= i < |parts| ==> SingleBytes(parts[i])
    ensures SingleBytes(Join(parts, ' '))
    decreases |parts|
  {
    if |parts| > 1 { JoinSingle(parts[1..]); }
  }

  lemma FieldSingle(references: seq<string>)
    requires ValidPaths(references)
    ensures SingleBytes(ReferencesField(references))
  {
    hide ValidPath, Basename, Join;
    forall i | 0 <= i < |references| ensures SingleBytes(Basename(references[i])) {
      PathTame(references[i]);
    }
    JoinSingle(Basenames(references));
  }

  lemma NoReferences()
    ensures ReferencesField([]) == []
  {
  }

  lemma ReferencesNoLonger(value: string)
    requires ParseReferences(value).Some?
    ensures ValidPaths(ParseReferences(value).value)
    ensures ByteLength(ReferencesField(ParseReferences(value).value)) <= ByteLength(value)
  {
    hide ByteLength, Split, Join, ValidPath, FromBasenames, SortDedup, Span;
    ReferencesValid(value);
    if value == [] {
      NoReferences();
    } else {
      var names := Split(value, ' ');
      var paths := FromBasenames(names).value;
      var sorted := SortDedup(paths);
      NamesOfParsed(names);
      SplitParts(value, ' ');
      JoinSpan(paths);
      SortDedupSpan(paths);
      SortDedupSound(paths);
      assert paths[0] in sorted;
      JoinSpan(sorted);
      FieldSingle(sorted);
      NoLonger(ReferencesField(sorted), value);
    }
  }

  /* ---- documents: the lines may come in another order ---- */

  function LineBytes(e: Entry): nat {
    ByteLength(e.Line()) + 1
  }

  lemma LineGrows(f: LineField, a: string, b: string)
    requires ByteLength(a) <= ByteLength(b)
    ensures LineBytes(Entry(f, a)) <= LineBytes(Entry(f, b))
  {
    hide ByteLength;
    ByteLengthConcat(f.Name() + ": ", a);
    ByteLengthConcat(f.Name() + ": ", b);
  }

  function Bytes(entries: seq<Entry>): nat {
    if entries == [] then 0 else LineBytes(entries[0]) + Bytes(entries[1..])
  }

  lemma {:induction false} TextBytes(entries: seq<Entry>)
    ensures ByteLength(EntryText(entries)) == Bytes(entries)
    decreases |entries|
  {
    if entries != [] {
      var line, rest := entries[0].Line(), entries[1..];
      TextBytes(rest);
      assert EntryLines(entries)[1..] == EntryLines(rest);
      assert EntryText(entries) == line + ['\n'] + EntryText(rest);
      ByteLengthConcat(line + ['\n'], EntryText(rest));
      assert (line + ['\n'])[..|line|] == line;
      assert ByteLength(line + ['\n']) == ByteLength(line) + 1;
    }
  }

  /** What the line of one field takes. */
  function FieldBytes(entries: seq<Entry>, f: Field): nat {
    match Lookup(entries, f)
    case None => 0
    case Some(value) => LineBytes(Entry(Unique(f), value))
  }

  function AllFieldBytes(entries: seq<Entry>): nat {
    FieldBytes(entries, StorePath) + FieldBytes(entries, Url) + FieldBytes(entries, Compression)
    + FieldBytes(entries, FileHash) + FieldBytes(entries, FileSize) + FieldBytes(entries, NarHash)
    + FieldBytes(entries, NarSize) + FieldBytes(entries, References) + FieldBytes(entries, Deriver)
    + FieldBytes(entries, System) + FieldBytes(entries, ContentAddress)
  }

  function SignatureBytes(signatures: seq<string>): nat {
    if signatures == [] then 0 else LineBytes(Entry(Signature, signatures[0])) + SignatureBytes(signatures[1..])
  }

  lemma FieldStep(entries: seq<Entry>, f: Field)
    requires entries != [] && Once(entries)
    ensures FieldBytes(entries, f)
         == FieldBytes(entries[1..], f) + if entries[0].field == Unique(f) then LineBytes(entries[0]) else 0
  {
  }

  lemma FieldsStep(entries: seq<Entry>)
    requires entries != [] && Once(entries)
    ensures AllFieldBytes(entries)
         == AllFieldBytes(entries[1..]) + if entries[0].field.Unique? then LineBytes(entries[0]) else 0
  {
    hide FieldBytes, LineBytes, Once;
    forall f: Field
      ensures FieldBytes(entries, f)
           == FieldBytes(entries[1..], f) + if entries[0].field == Unique(f) then LineBytes(entries[0]) else 0
    {
      FieldStep(entries, f);
    }
    if entries[0].field.Unique? {
      match entries[0].field.field
      case StorePath =>
      case Url =>
      case Compression =>
      case FileHash =>
      case FileSize =>
      case NarHash =>
      case NarSize =>
      case References =>
      case Deriver =>
      case System =>
      case ContentAddress =>
    }
  }

  /** A document without repeated fields takes the bytes of its fields and of its signatures, in any order. */
  lemma {:induction false} BytesByField(entries: seq<Entry>)
    requires Once(entries)
    ensures Bytes(entries) == AllFieldBytes(entries) + SignatureBytes(SignaturesIn(entries))
    decreases |entries|
  {
    hide LineBytes;
    if entries != [] {
      FieldsStep(entries);
      hide AllFieldBytes;
      BytesByField(entries[1..]);
      assert SignaturesIn(entries)[..] == SignaturesIn(entries);
      if entries[0].field.Signature? {
        assert SignaturesIn(entries)[1..] == SignaturesIn(entries[1..]);
      }
    }
  }

  /** Every field printed was read, from a value that is no shorter. */
  ghost predicate Covers(read: seq<Entry>, printed: seq<Entry>) {
    forall f: Field :: Lookup(printed, f).Some? ==> CoversField(read, printed, f)
  }

  predicate CoversField(read: seq<Entry>, printed: seq<Entry>, f: Field)
    requires Lookup(printed, f).Some?
  {
    Lookup(read, f).Some? && ByteLength(Lookup(printed, f).value) <= ByteLength(Lookup(read, f).value)
  }

  lemma FieldNoLonger(read: seq<Entry>, printed: seq<Entry>, f: Field)
    requires Covers(read, printed)
    ensures FieldBytes(printed, f) <= FieldBytes(read, f)
  {
    hide Lookup, ByteLength, LineBytes;
    if Lookup(printed, f).Some? {
      assert CoversField(read, printed, f);
      LineGrows(Unique(f), Lookup(printed, f).value, Lookup(read, f).value);
    }
  }

  lemma DocumentNoLonger(read: seq<Entry>, printed: seq<Entry>)
    requires Once(read) && Once(printed) && Covers(read, printed)
    requires SignaturesIn(printed) == SignaturesIn(read)
    ensures ByteLength(EntryText(printed)) <= ByteLength(EntryText(read))
  {
    hide Once, ByteLength, EntryText, FieldBytes, Bytes, SignaturesIn, Covers, SignatureBytes;
    TextBytes(read);
    TextBytes(printed);
    BytesByField(read);
    BytesByField(printed);
    forall f: Field ensures FieldBytes(printed, f) <= FieldBytes(read, f) { FieldNoLonger(read, printed, f); }
  }

  /* ---- what was parsed, field by field ---- */

  /** The document has the field, with a value no shorter than this one. */
  predicate Shortens(d: Document, f: Field, value: string) {
    d.Get(f).Some? && ByteLength(value) <= ByteLength(d.Get(f).value)
  }

  lemma HashPrinted(value: string)
    requires HashField(value).Some?
    ensures "sha256:" + NixBase32.Encode(HashField(value).value) == value
  {
    hide NixBase32.Encode, NixBase32.Decode;
    NixBase32.EncodeAfterDecode(StripPrefix(value, "sha256:").value);
  }

  ghost predicate ClaimsShorten(d: Document, claims: Claims)
    requires claims.Valid()
  {
    && Shortens(d, StorePath, claims.path)
    && Shortens(d, NarHash, "sha256:" + NixBase32.Encode(claims.identity.hash))
    && Shortens(d, NarSize, Decimal(claims.identity.size))
    && Shortens(d, References, ReferencesField(claims.references))
  }

  lemma ClaimsFields(route: string, d: Document, claims: Claims)
    requires ClaimsOf(route, d, Rejected) == Some(claims) && claims.Valid()
    ensures ClaimsShorten(d, claims)
  {
    hide ByteLength, HashField, ParseU64, ParseReferences, ReferencesField, Claims.Valid, Decimal, NixBase32.Encode;
    HashPrinted(d.Get(NarHash).value);
    SizeNoLonger(d.Get(NarSize).value);
    ReferencesNoLonger(d.Get(References).value);
  }

  ghost predicate PayloadShortens(d: Document, payload: Representation) {
    var file := payload.FileName();
    && Shortens(d, Url, "nar/" + file.Display())
    && Shortens(d, Compression, file.encoding.Compression())
    && Shortens(d, FileHash, "sha256:" + NixBase32.Encode(file.fileHash))
    && Shortens(d, FileSize, Decimal(payload.EncodedSize()))
  }

  lemma PayloadFields(d: Document, identity: Identity, payload: Representation)
    requires PayloadOf(d, identity) == Some(payload)
    ensures PayloadShortens(d, payload)
  {
    hide ByteLength, HashField, ParseU64, ParseFileName, NarFileName.Display, Decimal, NixBase32.Encode;
    var name := StripPrefix(d.Get(Url).value, "nar/").value;
    FileNameCanonical(name);
    HashPrinted(d.Get(FileHash).value);
    SizeNoLonger(d.Get(FileSize).value);
    FieldsSound(ParseFileName(name).value, HashField(d.Get(FileHash).value).value,
                ParseU64(d.Get(FileSize).value).value, identity);
  }

  lemma RestFields(claims: Claims, d: Document, base64: Base64, m: Metadata)
    requires MetadataOf(claims, d, base64) == Some(m)
    ensures m.deriver.Some? ==> m.deriver.value.Valid() && Shortens(d, Deriver, m.deriver.value.Value())
    ensures m.contentAddress.Some? ==> Shortens(d, ContentAddress, m.contentAddress.value)
    ensures m.signatures == d.signatures && m.claims == claims
  {
    hide ByteLength, ValidContentAddress, BasenameStore;
  }

  lemma HeaderAt(claims: Claims, payload: Representation, f: Field)
    requires claims.Valid() && Rank(Unique(f)) < 8
    ensures Header(claims, payload)[Rank(Unique(f))].field == Unique(f)
  {
    hide Claims.Valid, ReferencesField, Decimal, NixBase32.Encode, NarFileName.Display;
    match f
    case StorePath =>
    case Url =>
    case Compression =>
    case FileHash =>
    case FileSize =>
    case NarHash =>
    case NarSize =>
    case References =>
  }

  lemma HeaderShortens(d: Document, claims: Claims, payload: Representation, f: Field)
    requires claims.Valid() && Rank(Unique(f)) < 8 && ClaimsShorten(d, claims) && PayloadShortens(d, payload)
    ensures Shortens(d, f, Header(claims, payload)[Rank(Unique(f))].value)
  {
    hide Claims.Valid, ReferencesField, Decimal, NixBase32.Encode;
    hide NarFileName.Display, Shortens, WireEncoding.Compression;
    match f
    case StorePath =>
    case Url =>
    case Compression =>
    case FileHash =>
    case FileSize =>
    case NarHash =>
    case NarSize =>
    case References =>
  }

  /** The document read has every field that is printed, at least as long. */
  ghost predicate Shortened(d: Document, m: Metadata, payload: Representation)
    requires m.claims.Valid() && (m.deriver.Some? ==> m.deriver.value.Valid())
  {
    && ClaimsShorten(d, m.claims)
    && PayloadShortens(d, payload)
    && (m.deriver.Some? ==> Shortens(d, Deriver, m.deriver.value.Value()))
    && (m.contentAddress.Some? ==> Shortens(d, ContentAddress, m.contentAddress.value))
    && m.signatures == d.signatures
  }

  lemma PrintedShortens(d: Document, m: Metadata, payload: Representation, f: Field)
    requires m.claims.Valid() && (m.deriver.Some? ==> m.deriver.value.Valid()) && Shortened(d, m, payload)
    requires Lookup(MetadataEntries(m, payload), f).Some?
    ensures Shortens(d, f, Lookup(MetadataEntries(m, payload), f).value)
  {
    hide Lookup, MetadataEntries, Header, Claims.Valid, DeriverValue.Valid;
    hide DeriverValue.Value, ClaimsShorten, PayloadShortens, Shortens;
    if Rank(Unique(f)) < 8 {
      HeaderAt(m.claims, payload, f);
      HeaderLookup(m, payload, Rank(Unique(f)));
      HeaderShortens(d, m.claims, payload, f);
    } else {
      EntriesDistinct(m, payload);
      DeriverLookup(m, payload);
      AddressLookup(m, payload);
    }
  }

  lemma PrintedCovered(read: seq<Entry>, d: Document, m: Metadata, payload: Representation)
    requires m.claims.Valid() && (m.deriver.Some? ==> m.deriver.value.Valid()) && Shortened(d, m, payload)
    requires Once(read) && Agrees(EMPTY, read, d)
    ensures ByteLength(Print(m, payload)) <= ByteLength(EntryText(read))
  {
    hide ByteLength, EntryText, Lookup, MetadataEntries, Claims.Valid;
    hide DeriverValue.Valid, ClaimsShorten, PayloadShortens, Once, SignaturesIn;
    var printed := MetadataEntries(m, payload);
    forall f: Field | Lookup(printed, f).Some? ensures CoversField(read, printed, f) {
      PrintedShortens(d, m, payload, f);
    }
    EntriesDistinct(m, payload);
    PrintedSignatures(m, payload);
    assert d.signatures == SignaturesIn(read);
    DocumentNoLonger(read, printed);
  }

  lemma ParsedStages(route: string, text: string, base64: Base64) returns (d: Document, claims: Claims)
    requires ParsePublication(route, text, base64).Some?
    ensures var (m, payload) := ParsePublication(route, text, base64).value;
            && ParseDocument(text, Reject) == Some(d)
            && ClaimsOf(route, d, Rejected) == Some(claims)
            && MetadataOf(claims, d, base64) == Some(m)
            && PayloadOf(d, claims.identity) == Some(payload)
  {
    hide ValidText, ParseDocument, ClaimsOf, PayloadOf, MetadataOf, WellFormedSignatures;
    d := ParseDocument(text, Reject).value;
    claims := ClaimsOf(route, d, Rejected).value;
  }

  /** Whatever the parser accepts prints in no more bytes than it was parsed from. */
  lemma ReprintNoLonger(route: string, text: string, base64: Base64)
    requires ParsePublication(route, text, base64).Some?
    ensures var (m, payload) := ParsePublication(route, text, base64).value;
            m.Valid(base64) && ByteLength(Print(m, payload)) <= ByteLength(text)
  {
    hide ParsePublication, ParseDocument, ClaimsOf, PayloadOf, MetadataOf, ByteLength, Claims.Valid, Print, Lines;
    hide ClaimsShorten, PayloadShortens, Shortens, ValidContentAddress, DeriverValue.Valid, Once, Agrees, EntryLines;
    hide WellFormedSignatures;
    ParsedValidMetadata(route, text, base64);
    var (m, payload) := ParsePublication(route, text, base64).value;
    var d, claims := ParsedStages(route, text, base64);
    RestFields(claims, d, base64, m);
    ClaimsFields(route, d, claims);
    PayloadFields(d, claims.identity, payload);
    var read := DocumentEntries(text);
    PrintedCovered(read, d, m, payload);
  }

  /** Printing what was parsed gives, within the size limit, a text that parses the same way again. */
  lemma ReprintStable(route: string, text: string, base64: Base64)
    requires UsesAlphabet(base64) && ParsePublication(route, text, base64).Some?
    ensures var (m, payload) := ParsePublication(route, text, base64).value;
            && m.Valid(base64)
            && Serialize(m, payload).Some?
            && ByteLength(Serialize(m, payload).value) <= ByteLength(text)
            && ParsePublication(route, Serialize(m, payload).value, base64) == Some((m, payload))
  {
    hide ParsePublication, Claims.Valid, UsesAlphabet, WellFormedSignatures, ValidContentAddress, Print, ByteLength;
    ParsedValidMetadata(route, text, base64);
    ReprintNoLonger(route, text, base64);
    AcceptedFits(route, text, base64);
    var (m, payload) := ParsePublication(route, text, base64).value;
    RoundTrip(m, payload, base64);
  }

  lemma AcceptedFits(route: string, text: string, base64: Base64)
    requires ParsePublication(route, text, base64).Some?
    ensures ByteLength(text) <= MAX_NARINFO_BYTES
  {
    hide ByteLength, ParseDocument, ClaimsOf, PayloadOf, MetadataOf, WellFormedSignatures;
  }
}
