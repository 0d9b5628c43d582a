/** Printing narinfo metadata and parsing the text give the metadata and the payload back. */
module NarInfoRoundTrip {
  import opened NarInfo
  import opened NarInfoDocument
  import opened NarInfoMetadata
  import opened NarInfoParsing
  import opened NarObjects
  import opened Options
  import opened Sorting
  import opened StorePaths
  import opened Text
  import NixBase32

  predicate OneLine(s: string) {
    '\n' !in s && '\r' !in s
  }

  lemma TameLine(s: string)
    requires Tame(s)
    ensures OneLine(s)
  {
  }

  lemma LineConcat(a: string, b: string)
    requires OneLine(a) && OneLine(b)
    ensures OneLine(a + b)
  {
  }

  lemma EntryLine(e: Entry)
    requires OneLine(e.value)
    ensures OneLine(e.Line())
  {
    NamesPlain(e.field);
    LineConcat(e.field.Name(), ": ");
    LineConcat(e.field.Name() + ": ", e.value);
  }

  lemma DigestTame(d: Digest)
    ensures Tame(NixBase32.Encode(d))
  {
    hide NixBase32.Encode, NixBase32.Decode, NixBase32.InAlphabet, Tame;
    NixBase32.DecodeAfterEncode(d);
    NixBase32.AcceptedTexts(NixBase32.Encode(d));
    HashTame(NixBase32.Encode(d));
  }

  lemma {:induction false} JoinLine(parts: seq<string>)
    requires forall i :: 0 <= i < |parts| ==> OneLine(parts[i])
    ensures OneLine(Join(parts, ' '))
    decreases |parts|
  {
    if |parts| > 1 {
      JoinLine(parts[1..]);
      LineConcat(parts[0] + " ", Join(parts[1..], ' '));
    }
  }

  lemma {:induction false} LinesNoReturn(lines: seq<string>)
    requires forall i :: 0 <= i < |lines| ==> OneLine(lines[i])
    ensures '\r' !in Lines(lines)
    decreases |lines|
  {
    if lines != [] { LinesNoReturn(lines[1..]); }
  }

  lemma ReferencesLine(references: seq<string>)
    requires ValidPaths(references)
    ensures OneLine(ReferencesField(references))
  {
    hide ValidPath, Basename, Tame;
    forall i | 0 <= i < |references| ensures OneLine(Basename(references[i])) {
      PathTame(references[i]);
      TameLine(Basename(references[i]));
    }
    JoinLine(Basenames(references));
  }

  lemma EncodingLine(e: WireEncoding)
    ensures OneLine(e.Suffix()) && OneLine(e.Compression())
  {
    match e
    case RawEncoding =>
    case CompressedWith(Zstd) =>
    case CompressedWith(Xz) =>
  }

  lemma FileNameLine(f: NarFileName)
    ensures OneLine("nar/" + f.Display()) && OneLine("sha256:" + NixBase32.Encode(f.fileHash))
  {
    hide NixBase32.Encode;
    var hash := NixBase32.Encode(f.fileHash);
    DigestTame(f.fileHash);
    TameLine(hash);
    EncodingLine(f.encoding);
    LineConcat(hash, f.encoding.Suffix());
    LineConcat("nar/", f.Display());
    LineConcat("sha256:", hash);
  }

  lemma DecimalLine(n: nat)
    ensures OneLine(Decimal(n))
  {
  }

  lemma HeaderLines(claims: Claims, payload: Representation, k: nat)
    requires claims.Valid() && k < 8
    ensures OneLine(Header(claims, payload)[k].value)
  {
    hide OneLine, NixBase32.Encode, ReferencesField, ValidPath, Ascending, Decimal, NarFileName.Display;
    var file := payload.FileName();
    PathTame(claims.path);
    TameLine(claims.path);
    FileNameLine(file);
    EncodingLine(file.encoding);
    FileNameLine(NarFileName(claims.identity.hash, RawEncoding));
    DecimalLine(payload.EncodedSize());
    DecimalLine(claims.identity.size);
    ReferencesLine(claims.references);
  }

  lemma RestLines(m: Metadata, base64: Base64)
    requires m.Valid(base64) && UsesAlphabet(base64)
    ensures forall e :: e in DeriverEntries(m.deriver) ==> OneLine(e.value)
    ensures forall e :: e in AddressEntries(m.contentAddress) ==> OneLine(e.value)
  {
    hide Claims.Valid, ValidPath, Basename, Tame, ValidContentAddress, UsesAlphabet;
    if m.deriver.Some? && m.deriver.value.DerivedFrom? {
      PathTame(m.deriver.value.path);
      TameLine(m.deriver.value.Value());
    }
    if m.contentAddress.Some? {
      ContentAddressTame(m.contentAddress.value, base64);
      TameLine(m.contentAddress.value);
    }
  }

  lemma PrintedLines(m: Metadata, payload: Representation, base64: Base64)
    requires m.Valid(base64) && UsesAlphabet(base64)
    requires forall i :: 0 <= i < |m.signatures| ==> OneLine(m.signatures[i])
    ensures forall i :: 0 <= i < |MetadataEntries(m, payload)| ==> OneLine(MetadataEntries(m, payload)[i].Line())
  {
    hide Claims.Valid, DeriverValue.Valid, OneLine, Header, DeriverEntries;
    hide AddressEntries, ValidContentAddress, UsesAlphabet, Entry.Line;
    var entries := MetadataEntries(m, payload);
    var header := Header(m.claims, payload);
    forall e | e in header ensures OneLine(e.value) {
      var k :| 0 <= k < 8 && header[k] == e;
      HeaderLines(m.claims, payload, k);
    }
    RestLines(m, base64);
    forall i | 0 <= i < |entries| ensures OneLine(entries[i].Line()) {
      assert entries[i] in entries;
      EntryLine(entries[i]);
    }
  }

  /** What the printed text is read as. */
  lemma PrintedDocument(m: Metadata, payload: Representation, base64: Base64, unknown: UnknownFields)
    requires m.Valid(base64) && UsesAlphabet(base64) && Serialize(m, payload).Some?
    requires forall i :: 0 <= i < |m.signatures| ==> OneLine(m.signatures[i])
    ensures ValidText(Print(m, payload)) && ParseDocument(Print(m, payload), unknown).Some?
    ensures var d := ParseDocument(Print(m, payload), unknown).value;
            StatesClaims(d, m.claims) && StatesPayload(d, payload) && StatesRest(d, m)
  {
    hide Claims.Valid, DeriverValue.Valid, MetadataEntries, ValidContentAddress, UsesAlphabet, Entry.Line;
    hide ParseDocument, Once, Agrees, Lines, Join;
    hide StatesClaims, StatesPayload, StatesRest, ByteLength;
    var entries := MetadataEntries(m, payload);
    PrintedLines(m, payload, base64);
    LinesNoReturn(EntryLines(entries));
    LinesJoin(EntryLines(entries));
    SuffixStripped(Join(EntryLines(entries), '\n'), "\n");
    EntriesRead(entries, unknown);
    EntriesDistinct(m, payload);
    DocumentStates(m, payload, ParseDocument(Print(m, payload), unknown).value);
  }

  lemma SignedLines(signatures: seq<string>, base64: Base64)
    requires UsesAlphabet(base64) && WellFormedSignatures(signatures, base64)
    ensures forall i :: 0 <= i < |signatures| ==> OneLine(signatures[i])
  {
    hide UsesAlphabet, WellFormedSignature;
    forall i | 0 <= i < |signatures| ensures OneLine(signatures[i]) {
      SignatureTame(signatures[i], base64);
      TameLine(signatures[i]);
    }
  }

  lemma PrintedParses(m: Metadata, payload: Representation, base64: Base64)
    requires m.Valid(base64) && UsesAlphabet(base64) && Serialize(m, payload).Some?
    requires m.claims.identity.size != 0 && WellFormedSignatures(m.signatures, base64)
    ensures ParsePublication(m.claims.Store(), Print(m, payload), base64) == Some((m, payload))
  {
    SignedLines(m.signatures, base64);
    PrintedDocument(m, payload, base64, Reject);
    hide Claims.Valid, DeriverValue.Valid, Print, ParseDocument, ValidText;
    hide ClaimsOf, PayloadOf, MetadataOf, UsesAlphabet;
    hide ValidContentAddress, WellFormedSignatures, StatesClaims, StatesPayload;
    var d := ParseDocument(Print(m, payload), Reject).value;
    ClaimsRead(d, m.claims, Rejected);
    MetadataRead(d, m, base64);
    PayloadRead(d, payload);
  }

  /** Everything the parser accepts is valid metadata, stored under the given hash, with its payload. */
  lemma ParsedValidMetadata(route: string, text: string, base64: Base64)
    requires ParsePublication(route, text, base64).Some?
    ensures var (m, payload) := ParsePublication(route, text, base64).value;
            && m.Valid(base64)
            && m.claims.Store() == route
            && payload.Logical() == m.claims.identity
            && m.claims.identity.size != 0
            && WellFormedSignatures(m.signatures, base64)
  {
    hide ParseDocument, ValidText, ParseReferences, ValidPath, HashField;
    hide ParseU64, ParseFileName, WellFormedSignatures, ValidContentAddress;
    var d := ParseDocument(text, Reject).value;
    var claims := ClaimsOf(route, d, Rejected).value;
    ReferencesValid(d.Get(References).value);
    PayloadSound(d, claims.identity);
    DeriverSound(d);
  }

  lemma DeriverSound(d: Document)
    requires DeriverOf(d).Some?
    ensures DeriverOf(d).value.Some? ==> DeriverOf(d).value.value.Valid()
  {
  }

  lemma PayloadSound(d: Document, identity: Identity)
    requires PayloadOf(d, identity).Some?
    ensures PayloadOf(d, identity).value.Logical() == identity
  {
    hide ParseFileName, HashField, ParseU64, Document.Get;
  }

  /** Printed metadata is parsed back, to the same metadata and the same payload, exactly when the
      archive is not empty and it carries well-formed signatures. */
  lemma RoundTrip(m: Metadata, payload: Representation, base64: Base64)
    requires m.Valid(base64) && UsesAlphabet(base64) && Serialize(m, payload).Some?
    ensures ByteLength(Serialize(m, payload).value) <= MAX_NARINFO_BYTES
    ensures ParsePublication(m.claims.Store(), Serialize(m, payload).value, base64) == Some((m, payload))
       <==> m.claims.identity.size != 0 && WellFormedSignatures(m.signatures, base64)
  {
    hide ValidPath, ParsePublication, UsesAlphabet, WellFormedSignatures, Print, ValidContentAddress, ByteLength;
    if m.claims.identity.size != 0 && WellFormedSignatures(m.signatures, base64) {
      PrintedParses(m, payload, base64);
    }
    if ParsePublication(m.claims.Store(), Print(m, payload), base64) == Some((m, payload)) {
      ParsedValidMetadata(m.claims.Store(), Print(m, payload), base64);
    }
  }

  /** A peer reads the printed claims, whether or not the document is signed. */
  lemma ExternalClaims(m: Metadata, payload: Representation, base64: Base64)
    requires m.Valid(base64) && UsesAlphabet(base64) && Serialize(m, payload).Some?
    requires forall i :: 0 <= i < |m.signatures| ==> OneLine(m.signatures[i])
    ensures ParseExternalClaims(m.claims.Store(), Print(m, payload))
         == if m.claims.identity.size == 0 then None else Some(m.claims)
  {
    PrintedDocument(m, payload, base64, Ignore);
    hide Claims.Valid, Print, ParseDocument, ValidText, ClaimsOf;
    hide UsesAlphabet, ValidContentAddress, StatesClaims, StatesPayload, StatesRest;
    ClaimsRead(ParseDocument(Print(m, payload), Ignore).value, m.claims, MeanNone);
  }
}
