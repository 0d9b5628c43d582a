/** Parsing narinfo text into metadata and a payload; printing and parsing undo each other. */
module NarInfoParsing {
  import opened NarInfo
  import opened NarInfoDocument
  import opened NarInfoMetadata
  import opened NarObjects
  import opened Options
  import opened Sorting
  import opened StorePaths
  import opened Text
  import NixBase32

  /* ---- parsing ---- */

  function HashField(value: string): Option<Digest> {
    var hash :- StripPrefix(value, "sha256:");
    ParseHash(hash)
  }

  datatype MissingReferences = Rejected | MeanNone

  function ReferencesOf(d: Document, missing: MissingReferences): Option<seq<string>> {
    match d.Get(References)
    case Some(value) => ParseReferences(value)
    case None => if missing.Rejected? then None else Some([])
  }

  function IdentityOf(d: Document): Option<Identity> {
    var hashText :- d.Get(NarHash);
    var hash :- HashField(hashText);
    var sizeText :- d.Get(NarSize);
    var size :- ParseU64(sizeText);
    if size == 0 then None else Some(Identity(hash, size))
  }

  function ClaimsOf(route: string, d: Document, missing: MissingReferences): Option<Claims> {
    var pathText :- d.Get(StorePath);
    var path :- ParsePath(pathText);
    if StoreOf(path) != route then None
    else
      var identity :- IdentityOf(d);
      var references :- ReferencesOf(d, missing);
      Some(Claims(path, references, identity))
  }

  function PayloadOf(d: Document, identity: Identity): Option<Representation> {
    if d.Get(System).Some? then None
    else
      var url :- d.Get(Url);
      var name :- StripPrefix(url, "nar/");
      var file :- ParseFileName(name);
      var compression :- d.Get(Compression);
      if compression != file.encoding.Compression() then None
      else
        var hashText :- d.Get(FileHash);
        var hash :- HashField(hashText);
        var sizeText :- d.Get(FileSize);
        var size :- ParseU64(sizeText);
        FromFields(file, hash, size, identity)
  }

  function DeriverOf(d: Document): Option<Option<DeriverValue>> {
    match d.Get(Deriver)
    case None => Some(None)
    case Some(value) =>
      var deriver :- ParseDeriver(value);
      Some(Some(deriver))
  }

  function MetadataOf(claims: Claims, d: Document, base64: Base64): Option<Metadata> {
    var deriver :- DeriverOf(d);
    var address := d.Get(ContentAddress);
    if address.Some? && !ValidContentAddress(address.value, base64) then None
    else Some(Metadata(claims, deriver, address, d.signatures))
  }

  predicate ValidText(text: string) {
    ByteLength(text) <= MAX_NARINFO_BYTES && EndsWith(text, "\n") && '\r' !in text
  }

  /** Metadata and payload of a document to be published under a store hash. */
  function ParsePublication(route: string, text: string, base64: Base64): Option<(Metadata, Representation)> {
    if !ValidText(text) then None
    else
      var d :- ParseDocument(text, Reject);
      var claims :- ClaimsOf(route, d, Rejected);
      var m :- MetadataOf(claims, d, base64);
      var payload :- PayloadOf(d, claims.identity);
      if WellFormedSignatures(d.signatures, base64) then Some((m, payload)) else None
  }

  /** The claims of a document from elsewhere, wherever its payload is kept. */
  function ParseExternalClaims(route: string, text: string): Option<Claims> {
    if !ValidText(text) then None
    else
      var d :- ParseDocument(text, Ignore);
      ClaimsOf(route, d, MeanNone)
  }

  /* ---- what a printed document says ---- */

  predicate Distinct(entries: seq<Entry>) {
    forall i, j :: 0 <= i < j < |entries| && entries[i].field.Unique? ==> entries[i].field != entries[j].field
  }

  lemma {:induction false} LookupNone(entries: seq<Entry>, f: Field)
    requires forall i :: 0 <= i < |entries| ==> entries[i].field != Unique(f)
    ensures Lookup(entries, f).None?
    decreases |entries|
  {
    if entries != [] { LookupNone(entries[1..], f); }
  }

  lemma {:induction false} LookupAt(entries: seq<Entry>, k: nat)
    requires Distinct(entries) && k < |entries| && entries[k].field.Unique?
    ensures Lookup(entries, entries[k].field.field) == Some(entries[k].value)
    decreases |entries|
  {
    if k > 0 { LookupAt(entries[1..], k - 1); }
  }

  lemma {:induction false} DistinctOnce(entries: seq<Entry>)
    requires Distinct(entries)
    ensures Once(entries)
    decreases |entries|
  {
    if entries != [] {
      var rest := entries[1..];
      DistinctOnce(rest);
      if entries[0].field.Unique? {
        forall i | 0 <= i < |rest| ensures rest[i].field != entries[0].field {
          assert rest[i] == entries[i + 1];
        }
        LookupNone(rest, entries[0].field.field);
      }
    }
  }

  lemma {:induction false} SignaturesConcat(a: seq<Entry>, b: seq<Entry>)
    ensures SignaturesIn(a + b) == SignaturesIn(a) + SignaturesIn(b)
    decreases |a|
  {
    if a == [] {
      assert a + b == b;
    } else {
      assert (a + b)[1..] == a[1..] + b;
      SignaturesConcat(a[1..], b);
    }
  }

  lemma {:induction false} NoSignatures(entries: seq<Entry>)
    requires forall i :: 0 <= i < |entries| ==> entries[i].field.Unique?
    ensures SignaturesIn(entries) == []
    decreases |entries|
  {
    if entries != [] { NoSignatures(entries[1..]); }
  }

  lemma {:induction false} OnlySignatures(signatures: seq<string>)
    ensures SignaturesIn(SignatureEntries(signatures)) == signatures
    decreases |signatures|
  {
    if signatures != [] {
      OnlySignatures(signatures[1..]);
      assert SignatureEntries(signatures)[1..] == SignatureEntries(signatures[1..]);
      assert signatures == [signatures[0]] + signatures[1..];
    }
  }

  lemma PrintedSignatures(m: Metadata, payload: Representation)
    requires m.claims.Valid() && (m.deriver.Some? ==> m.deriver.value.Valid())
    ensures SignaturesIn(MetadataEntries(m, payload)) == m.signatures
  {
    hide SignaturesIn, Claims.Valid, DeriverValue.Valid, SignatureEntries, Header;
    var header, signatures := Header(m.claims, payload), SignatureEntries(m.signatures);
    var derivers, addresses := DeriverEntries(m.deriver), AddressEntries(m.contentAddress);
    forall i | 0 <= i < |header| ensures header[i].field.Unique? { HeaderField(m.claims, payload, i); }
    NoSignatures(header);
    OnlySignatures(m.signatures);
    NoSignatures(derivers);
    NoSignatures(addresses);
    SignaturesConcat(header, signatures);
    SignaturesConcat(header + signatures, derivers);
    SignaturesConcat(header + signatures + derivers, addresses);
  }

  /** The order fields are printed in. */
  function Rank(f: LineField): nat {
    match f
    case Unique(StorePath) => 0
    case Unique(Url) => 1
    case Unique(Compression) => 2
    case Unique(FileHash) => 3
    case Unique(FileSize) => 4
    case Unique(NarHash) => 5
    case Unique(NarSize) => 6
    case Unique(References) => 7
    case Signature => 8
    case Unique(Deriver) => 9
    case Unique(ContentAddress) => 10
    case Unique(System) => 11
  }

  predicate Ranked(entries: seq<Entry>, low: nat, high: nat) {
    && (forall i :: 0 <= i < |entries| ==> low <= Rank(entries[i].field) < high)
    && (forall i, j :: 0 <= i < j < |entries| && entries[i].field.Unique? ==>
          Rank(entries[i].field) < Rank(entries[j].field))
  }

  lemma RankedConcat(a: seq<Entry>, b: seq<Entry>, low: nat, middle: nat, high: nat)
    requires low <= middle <= high && Ranked(a, low, middle) && Ranked(b, middle, high)
    ensures Ranked(a + b, low, high)
  {
    hide Rank;
  }

  lemma HeaderField(claims: Claims, payload: Representation, k: nat)
    requires claims.Valid() && k < 8
    ensures Header(claims, payload)[k].field.Unique? && Rank(Header(claims, payload)[k].field) == k
  {
    hide Claims.Valid, ReferencesField, Decimal, NixBase32.Encode, NarFileName.Display;
    if k < 4 {
      if k < 2 { assert k == 0 || k == 1; } else { assert k == 2 || k == 3; }
    } else {
      if k < 6 { assert k == 4 || k == 5; } else { assert k == 6 || k == 7; }
    }
  }

  lemma HeaderRanked(claims: Claims, payload: Representation)
    requires claims.Valid()
    ensures Ranked(Header(claims, payload), 0, 8)
  {
    hide Claims.Valid, Rank, Header;
    var h := Header(claims, payload);
    forall i | 0 <= i < 8 ensures Rank(h[i].field) == i { HeaderField(claims, payload, i); }
  }

  lemma EntriesRanked(m: Metadata, payload: Representation)
    requires m.claims.Valid() && (m.deriver.Some? ==> m.deriver.value.Valid())
    ensures Ranked(MetadataEntries(m, payload), 0, 11)
  {
    hide Claims.Valid, DeriverValue.Valid, Header;
    var header, signatures := Header(m.claims, payload), SignatureEntries(m.signatures);
    var derivers, addresses := DeriverEntries(m.deriver), AddressEntries(m.contentAddress);
    HeaderRanked(m.claims, payload);
    RankedConcat(header, signatures, 0, 8, 9);
    RankedConcat(header + signatures, derivers, 0, 9, 10);
    RankedConcat(header + signatures + derivers, addresses, 0, 10, 11);
  }

  lemma EntriesDistinct(m: Metadata, payload: Representation)
    requires m.claims.Valid() && (m.deriver.Some? ==> m.deriver.value.Valid())
    ensures Distinct(MetadataEntries(m, payload)) && Once(MetadataEntries(m, payload))
    ensures Lookup(MetadataEntries(m, payload), System).None?
  {
    hide MetadataEntries, Claims.Valid, DeriverValue.Valid;
    EntriesRanked(m, payload);
    DistinctOnce(MetadataEntries(m, payload));
    LookupNone(MetadataEntries(m, payload), System);
  }

  lemma HeaderLookup(m: Metadata, payload: Representation, k: nat)
    requires m.claims.Valid() && (m.deriver.Some? ==> m.deriver.value.Valid())
    requires k < 8 && Header(m.claims, payload)[k].field.Unique?
    ensures var e := Header(m.claims, payload)[k];
            Lookup(MetadataEntries(m, payload), e.field.field) == Some(e.value)
  {
    hide Claims.Valid, DeriverValue.Valid, Header, SignatureEntries, Distinct, Once, Lookup;
    EntriesDistinct(m, payload);
    LookupAt(MetadataEntries(m, payload), k);
  }

  lemma DeriverLookup(m: Metadata, payload: Representation)
    requires m.claims.Valid() && (m.deriver.Some? ==> m.deriver.value.Valid())
    ensures Lookup(MetadataEntries(m, payload), Deriver)
         == if m.deriver.None? then None else Some(m.deriver.value.Value())
  {
    hide Claims.Valid, DeriverValue.Valid, Header, SignatureEntries, Distinct, Once, Lookup;
    EntriesDistinct(m, payload);
    var entries := MetadataEntries(m, payload);
    if m.deriver.Some? {
      LookupAt(entries, 8 + |m.signatures|);
    } else {
      HeaderRanked(m.claims, payload);
      LookupNone(entries, Deriver);
    }
  }

  lemma AddressLookup(m: Metadata, payload: Representation)
    requires m.claims.Valid() && (m.deriver.Some? ==> m.deriver.value.Valid())
    ensures Lookup(MetadataEntries(m, payload), ContentAddress) == m.contentAddress
  {
    hide Claims.Valid, DeriverValue.Valid, Header, SignatureEntries, Distinct, Once, Lookup;
    EntriesDistinct(m, payload);
    var entries := MetadataEntries(m, payload);
    if m.contentAddress.Some? {
      LookupAt(entries, |entries| - 1);
    } else {
      HeaderRanked(m.claims, payload);
      LookupNone(entries, ContentAddress);
    }
  }

  /** The document states the claims, for whichever way of printing them. */
  ghost predicate StatesClaims(d: Document, claims: Claims)
    requires claims.Valid()
  {
    && d.Get(StorePath) == Some(claims.path)
    && d.Get(NarHash) == Some("sha256:" + NixBase32.Encode(claims.identity.hash))
    && d.Get(NarSize) == Some(Decimal(claims.identity.size))
    && d.Get(References) == Some(ReferencesField(claims.references))
  }

  ghost predicate StatesPayload(d: Document, payload: Representation) {
    var file := payload.FileName();
    && d.Get(System).None?
    && d.Get(Url) == Some("nar/" + file.Display())
    && d.Get(Compression) == Some(file.encoding.Compression())
    && d.Get(FileHash) == Some("sha256:" + NixBase32.Encode(file.fileHash))
    && d.Get(FileSize) == Some(Decimal(payload.EncodedSize()))
  }

  ghost predicate StatesRest(d: Document, m: Metadata)
    requires m.deriver.Some? ==> m.deriver.value.Valid()
  {
    && d.Get(Deriver) == (if m.deriver.None? then None else Some(m.deriver.value.Value()))
    && d.Get(ContentAddress) == m.contentAddress
    && d.signatures == m.signatures
  }

  lemma DocumentStates(m: Metadata, payload: Representation, d: Document)
    requires m.claims.Valid() && (m.deriver.Some? ==> m.deriver.value.Valid())
    requires Agrees(EMPTY, MetadataEntries(m, payload), d)
    ensures StatesClaims(d, m.claims) && StatesPayload(d, payload) && StatesRest(d, m)
  {
    hide StatesClaims, StatesPayload, StatesRest, Agrees, MetadataEntries, Claims.Valid, DeriverValue.Valid;
    ClaimsStated(m, payload, d);
    PayloadStated(m, payload, d);
    RestStated(m, payload, d);
  }

  lemma ClaimsStated(m: Metadata, payload: Representation, d: Document)
    requires m.claims.Valid() && (m.deriver.Some? ==> m.deriver.value.Valid())
    requires Agrees(EMPTY, MetadataEntries(m, payload), d)
    ensures StatesClaims(d, m.claims)
  {
    hide MetadataEntries, Lookup, Claims.Valid, DeriverValue.Valid, SignaturesIn;
    hide NixBase32.Encode, NarFileName.Display, Decimal, ReferencesField;
    HeaderLookup(m, payload, 0);
    HeaderLookup(m, payload, 5);
    HeaderLookup(m, payload, 6);
    HeaderLookup(m, payload, 7);
  }

  lemma PayloadStated(m: Metadata, payload: Representation, d: Document)
    requires m.claims.Valid() && (m.deriver.Some? ==> m.deriver.value.Valid())
    requires Agrees(EMPTY, MetadataEntries(m, payload), d)
    ensures StatesPayload(d, payload)
  {
    hide MetadataEntries, Lookup, Claims.Valid, DeriverValue.Valid, SignaturesIn, Once, Distinct;
    hide NixBase32.Encode, NarFileName.Display, Decimal, ReferencesField, WireEncoding.Compression;
    EntriesDistinct(m, payload);
    HeaderLookup(m, payload, 1);
    HeaderLookup(m, payload, 2);
    HeaderLookup(m, payload, 3);
    HeaderLookup(m, payload, 4);
  }

  lemma RestStated(m: Metadata, payload: Representation, d: Document)
    requires m.claims.Valid() && (m.deriver.Some? ==> m.deriver.value.Valid())
    requires Agrees(EMPTY, MetadataEntries(m, payload), d)
    ensures StatesRest(d, m)
  {
    hide MetadataEntries, Lookup, Claims.Valid, DeriverValue.Valid, SignaturesIn, DeriverValue.Value;
    PrintedSignatures(m, payload);
    assert d.signatures == m.signatures;
    DeriverLookup(m, payload);
    AddressLookup(m, payload);
  }

  lemma HashFieldRoundTrip(d: Digest)
    ensures HashField("sha256:" + NixBase32.Encode(d)) == Some(d)
  {
    hide ParseHash;
    PrefixStripped("sha256:", NixBase32.Encode(d));
    HashRoundTrip(d);
  }

  lemma ClaimsRead(d: Document, claims: Claims, missing: MissingReferences)
    requires claims.Valid() && StatesClaims(d, claims)
    ensures ClaimsOf(claims.Store(), d, missing) == if claims.identity.size == 0 then None else Some(claims)
  {
    hide Document.Get, HashField, ParseU64, ParseReferences, Ascending, ReferencesField;
    HashFieldRoundTrip(claims.identity.hash);
    U64RoundTrip(claims.identity.size);
    ReferencesRoundTrip(claims.references);
  }

  lemma PayloadRead(d: Document, payload: Representation)
    requires StatesPayload(d, payload)
    ensures PayloadOf(d, payload.Logical()) == if payload.Logical().size == 0 then None else Some(payload)
  {
    hide Document.Get, HashField, ParseU64, ParseFileName;
    var file := payload.FileName();
    PrefixStripped("nar/", file.Display());
    FileNameRoundTrip(file);
    HashFieldRoundTrip(file.fileHash);
    U64RoundTrip(payload.EncodedSize());
    FieldsRoundTrip(payload);
  }

  lemma MetadataRead(d: Document, m: Metadata, base64: Base64)
    requires m.Valid(base64) && StatesRest(d, m)
    ensures MetadataOf(m.claims, d, base64) == Some(m)
  {
    hide Document.Get, ParseDeriver, Claims.Valid, ValidContentAddress;
    if m.deriver.Some? { DeriverRoundTrip(m.deriver.value); }
  }
}
