/** Exactly which texts the narinfo parsers accept, and what they take them to say. */
module NarInfoAccepts {
  import opened NarInfo
  import opened NarInfoDocument
  import opened NarInfoMetadata
  import opened NarInfoParsing
  import opened NarObjects
  import opened Options
  import opened Sorting
  import opened StorePaths
  import opened Text
  import NixBase32

  /* ---- lines ---- */

  predicate ColonAt(line: string, k: nat) {
    k + 2 <= |line| && line[k] == ':' && line[k + 1] == ' '
  }

  /** The line has a colon and a blank after this name, and none before. */
  predicate NamedLine(line: string, name: string) {
    && ColonAt(line, |name|) && line[..|name|] == name
    && forall k: nat :: k < |name| ==> !ColonAt(line, k)
  }

  lemma {:induction false} SplitExact(line: string, name: string)
    ensures NamedLine(line, name) <==> SplitLine(line).Some? && SplitLine(line).value.0 == name
    decreases |line|
  {
    if |line| >= 2 {
      assert line[..2] == ": " <==> ColonAt(line, 0);
      if name == [] {
        assert line[..0] == [];
      } else if !ColonAt(line, 0) {
        SplitExact(line[1..], name[1..]);
        if name[0] == line[0] { NamedTail(line, name); }
        if SplitLine(line[1..]).Some? { assert SplitLine(line).value.0[1..] == SplitLine(line[1..]).value.0; }
        assert name == [name[0]] + name[1..];
      }
    }
  }

  lemma NamedTail(line: string, name: string)
    requires line != [] && !ColonAt(line, 0) && name != [] && name[0] == line[0]
    ensures NamedLine(line, name) <==> NamedLine(line[1..], name[1..])
  {
    assert forall k: nat :: ColonAt(line, k + 1) <==> ColonAt(line[1..], k);
    if |name| <= |line| {
      assert line[..|name|] == [line[0]] + line[1..][..|name| - 1];
      assert name == [name[0]] + name[1..];
    }
    if NamedLine(line, name) {
      assert line[1..][..|name| - 1] == line[..|name|][1..];
      forall k: nat | k < |name| - 1 ensures !ColonAt(line[1..], k) { assert !ColonAt(line, k + 1); }
    }
    if NamedLine(line[1..], name[1..]) {
      forall k: nat | k < |name| ensures !ColonAt(line, k) { if k > 0 { assert !ColonAt(line[1..], k - 1); } }
    }
  }

  /** The entries among the lines, those of unknown fields left out. */
  function KnownIn(lines: seq<string>): seq<Entry> {
    if lines == [] then []
    else
      var rest := KnownIn(lines[1..]);
      match SplitLine(lines[0])
      case None => rest
      case Some((name, value)) =>
        match ParseName(name)
        case None => rest
        case Some(f) => [Entry(f, value)] + rest
  }

  /** Every line has a name, and a known one where others are refused. */
  predicate Readable(lines: seq<string>, unknown: UnknownFields) {
    forall i :: 0 <= i < |lines| ==> LineReadable(lines[i], unknown)
  }

  predicate LineReadable(line: string, unknown: UnknownFields) {
    SplitLine(line).Some? && (unknown.Reject? ==> ParseName(SplitLine(line).value.0).Some?)
  }

  lemma {:induction false} LinesExact(d: Document, lines: seq<string>, unknown: UnknownFields)
    ensures var r := RecordLines(d, lines, unknown);
            && (r.Some? <==> Readable(lines, unknown) && Once(KnownIn(lines)) && New(d, KnownIn(lines)))
            && (r.Some? ==> Agrees(d, KnownIn(lines), r.value))
    decreases |lines|
  {
    hide ParseName, SplitLine;
    if lines == [] {
      assert d.signatures + [] == d.signatures;
    } else {
      assert Readable(lines, unknown) <==> LineReadable(lines[0], unknown) && Readable(lines[1..], unknown);
      LineStep(d, lines, unknown);
      if RecordLine(d, lines[0], unknown).Some? {
        LinesExact(RecordLine(d, lines[0], unknown).value, lines[1..], unknown);
      }
    }
  }

  lemma LineStep(d: Document, lines: seq<string>, unknown: UnknownFields)
    requires lines != []
    ensures var next := RecordLine(d, lines[0], unknown);
            var entries, rest := KnownIn(lines), KnownIn(lines[1..]);
            && (next.None? ==> !LineReadable(lines[0], unknown) || !New(d, entries))
            && (next.Some? ==>
                  && LineReadable(lines[0], unknown)
                  && (Once(entries) && New(d, entries) <==> Once(rest) && New(next.value, rest))
                  && forall r :: Agrees(next.value, rest, r) ==> Agrees(d, entries, r))
  {
    hide ParseName, SplitLine, Once, New, Agrees;
    var next := RecordLine(d, lines[0], unknown);
    if SplitLine(lines[0]).Some? && ParseName(SplitLine(lines[0]).value.0).Some? {
      var entries := KnownIn(lines);
      assert entries[1..] == KnownIn(lines[1..]);
      if next.Some? {
        NewStep(d, entries, next.value);
        forall r | Agrees(next.value, entries[1..], r) ensures Agrees(d, entries, r) {
          AgreesStep(d, entries, next.value, r);
        }
      } else {
        Repeated(d, entries);
      }
    }
  }

  lemma Repeated(d: Document, entries: seq<Entry>)
    requires entries != [] && RecordField(d, entries[0].field, entries[0].value).None?
    ensures !New(d, entries)
  {
    assert Lookup(entries, entries[0].field.field).Some?;
  }

  /** A text is a document exactly when it ends in a newline, every line is readable, and no field is given twice. */
  lemma DocumentExact(text: string, unknown: UnknownFields)
    ensures var r := ParseDocument(text, unknown);
            && (r.Some? <==> EndsWith(text, "\n") && var lines := Split(text[..|text| - 1], '\n');
                             Readable(lines, unknown) && Once(KnownIn(lines)))
            && (r.Some? ==> Agrees(EMPTY, KnownIn(Split(text[..|text| - 1], '\n')), r.value))
  {
    hide RecordLines, Readable, Once, KnownIn, Split, Agrees;
    if EndsWith(text, "\n") {
      LinesExact(EMPTY, Split(text[..|text| - 1], '\n'), unknown);
    }
  }

  /* ---- values ---- */

  lemma HashFieldExact(value: string, hash: Digest)
    ensures HashField(value) == Some(hash) <==> value == "sha256:" + NixBase32.Encode(hash)
  {
    hide NixBase32.Encode, NixBase32.Decode;
    NixBase32.DecodeAfterEncode(hash);
    PrefixStripped("sha256:", NixBase32.Encode(hash));
    if HashField(value) == Some(hash) {
      NixBase32.EncodeAfterDecode(StripPrefix(value, "sha256:").value);
    }
  }

  /** The value is the basenames of these paths, with single blanks between them. */
  predicate ListsPaths(value: string, paths: seq<string>) {
    ValidPaths(paths) && value == ReferencesField(paths)
  }

  lemma {:induction false} FromBasenamesSound(names: seq<string>)
    requires FromBasenames(names).Some?
    ensures ValidPaths(FromBasenames(names).value) && Basenames(FromBasenames(names).value) == names
    decreases |names|
  {
    hide ValidPath, FromBasename, Basename, Basenames;
    if names == [] {
      NoBasenames();
    } else {
      var path, rest := FromBasename(names[0]).value, FromBasenames(names[1..]).value;
      FromBasenamesSound(names[1..]);
      FromBasenameSound(names[0]);
      OneBasenameMore(path, rest);
      assert names == [names[0]] + names[1..];
    }
  }

  lemma NoBasenames()
    ensures Basenames([]) == []
  {
  }

  lemma OneBasenameMore(path: string, rest: seq<string>)
    requires ValidPath(path) && ValidPaths(rest)
    ensures ValidPaths([path] + rest) && Basenames([path] + rest) == [Basename(path)] + Basenames(rest)
  {
    hide ValidPath, Basename;
    assert ([path] + rest)[1..] == rest;
  }

  lemma FromBasenameSound(name: string)
    requires FromBasename(name).Some?
    ensures ValidPath(FromBasename(name).value) && Basename(FromBasename(name).value) == name
  {
    hide BasenameStore;
  }

  lemma ListedParsed(value: string, paths: seq<string>)
    requires ListsPaths(value, paths)
    ensures ParseReferences(value) == Some(SortDedup(paths))
  {
    hide ValidPath, Basename, FromBasename, Join, Split, SortDedup;
    if paths == [] {
      NothingListed();
    } else {
      forall i | 0 <= i < |paths| ensures ' ' !in Basenames(paths)[i] { PathTame(paths[i]); }
      SplitJoin(Basenames(paths), ' ');
      BasenamesParsed(paths);
      PathTame(paths[0]);
      JoinNotEmpty(Basenames(paths));
    }
  }

  lemma NothingListed()
    ensures Join([], ' ') == [] && SortDedup([]) == []
  {
  }

  lemma JoinNotEmpty(parts: seq<string>)
    requires parts != [] && parts[0] != []
    ensures Join(parts, ' ') != []
  {
  }

  /** References are parsed exactly from the lists of basenames of store paths, and then sorted and given once. */
  lemma ReferencesExact(value: string, references: seq<string>)
    ensures ParseReferences(value) == Some(references) <==>
            exists paths :: ListsPaths(value, paths) && references == SortDedup(paths)
  {
    hide ListsPaths;
    forall paths | ListsPaths(value, paths) ensures ParseReferences(value) == Some(SortDedup(paths)) {
      ListedParsed(value, paths);
    }
    if ParseReferences(value) == Some(references) {
      var paths := ParsedListed(value);
    }
  }

  lemma ParsedListed(value: string) returns (paths: seq<string>)
    requires ParseReferences(value).Some?
    ensures ListsPaths(value, paths) && ParseReferences(value).value == SortDedup(paths)
  {
    hide ValidPath, SortDedup, Join, Split;
    if value == [] {
      paths := [];
      NothingListed();
    } else {
      paths := FromBasenames(Split(value, ' ')).value;
      FromBasenamesSound(Split(value, ' '));
      SplitParts(value, ' ');
    }
  }

  /* ---- claims ---- */

  /** The document has this identity, and the archive is not empty. */
  predicate SaysIdentity(d: Document, identity: Identity) {
    && d.Get(NarHash) == Some("sha256:" + NixBase32.Encode(identity.hash))
    && d.Get(NarSize).Some? && ParseU64(d.Get(NarSize).value) == Some(identity.size) && identity.size > 0
  }

  ghost predicate SaysReferences(d: Document, references: seq<string>, missing: MissingReferences) {
    match d.Get(References)
    case None => missing.MeanNone? && references == []
    case Some(value) => exists paths :: ListsPaths(value, paths) && references == SortDedup(paths)
  }

  ghost predicate SaysClaims(d: Document, route: string, claims: Claims, missing: MissingReferences) {
    && d.Get(StorePath) == Some(claims.path) && ValidPath(claims.path) && StoreOf(claims.path) == route
    && SaysIdentity(d, claims.identity) && SaysReferences(d, claims.references, missing)
  }

  lemma IdentityExact(d: Document, identity: Identity)
    ensures IdentityOf(d) == Some(identity) <==> SaysIdentity(d, identity)
  {
    hide ParseU64, NixBase32.Encode, HashField;
    if d.Get(NarHash).Some? { HashFieldExact(d.Get(NarHash).value, identity.hash); }
  }

  lemma ClaimsExact(d: Document, route: string, claims: Claims, missing: MissingReferences)
    ensures ClaimsOf(route, d, missing) == Some(claims) <==> SaysClaims(d, route, claims, missing)
  {
    hide ValidPath, SaysIdentity, IdentityOf, ParseReferences, ListsPaths, SortDedup;
    IdentityExact(d, claims.identity);
    if d.Get(References).Some? { ReferencesExact(d.Get(References).value, claims.references); }
  }

  /* ---- payloads ---- */

  /** The ending of a payload's URL and the name of its compression. */
  function Wire(payload: Representation): (string, string) {
    match payload
    case Raw(_) => (".nar", "none")
    case Compressed(Zstd, _, _, _) => (".nar.zst", "zstd")
    case Compressed(Xz, _, _, _) => (".nar.xz", "xz")
  }

  function FileHashOf(payload: Representation): Digest {
    match payload
    case Raw(identity) => identity.hash
    case Compressed(_, fileHash, _, _) => fileHash
  }

  function FileSizeOf(payload: Representation): NarObjects.NarFormat.u64 {
    match payload
    case Raw(identity) => identity.size
    case Compressed(_, _, fileSize, _) => fileSize
  }

  predicate SaysPayload(d: Document, identity: Identity, payload: Representation) {
    && d.Get(System).None?
    && d.Get(Url) == Some("nar/" + (NixBase32.Encode(FileHashOf(payload)) + Wire(payload).0))
    && d.Get(Compression) == Some(Wire(payload).1)
    && d.Get(FileHash) == Some("sha256:" + NixBase32.Encode(FileHashOf(payload)))
    && d.Get(FileSize).Some? && ParseU64(d.Get(FileSize).value) == Some(FileSizeOf(payload))
    && payload.Logical() == identity
  }

  lemma PayloadComplete(d: Document, identity: Identity, payload: Representation)
    requires SaysPayload(d, identity, payload) && identity.size > 0
    ensures PayloadOf(d, identity) == Some(payload)
  {
    hide ParseU64, NixBase32.Encode, HashField, ParseFileName;
    FileNameRoundTrip(payload.FileName());
    PrefixStripped("nar/", payload.FileName().Display());
    HashFieldExact(d.Get(FileHash).value, FileHashOf(payload));
    FieldsRoundTrip(payload);
  }

  lemma PayloadSays(d: Document, identity: Identity)
    requires PayloadOf(d, identity).Some?
    ensures SaysPayload(d, identity, PayloadOf(d, identity).value) && identity.size > 0
  {
    hide ParseU64, NixBase32.Encode, HashField, ParseFileName;
    var payload := PayloadOf(d, identity).value;
    var name := StripPrefix(d.Get(Url).value, "nar/").value;
    FileNameCanonical(name);
    HashFieldExact(d.Get(FileHash).value, FileHashOf(payload));
    FieldsSound(ParseFileName(name).value, FileHashOf(payload), FileSizeOf(payload), identity);
  }

  /** The payload is the one that URL, compression, file hash and file size agree on. */
  lemma PayloadExact(d: Document, identity: Identity, payload: Representation)
    ensures PayloadOf(d, identity) == Some(payload) <==> SaysPayload(d, identity, payload) && identity.size > 0
  {
    hide PayloadOf, SaysPayload;
    if PayloadOf(d, identity).Some? { PayloadSays(d, identity); }
    if SaysPayload(d, identity, payload) && identity.size > 0 { PayloadComplete(d, identity, payload); }
  }

  /* ---- content addresses and signatures ---- */

  predicate DigestSize(algorithm: string, size: nat) {
    || (algorithm == "md5" && size == 16) || (algorithm == "sha1" && size == 20)
    || ((algorithm == "sha256" || algorithm == "blake3") && size == 32)
    || (algorithm == "sha512" && size == 64)
  }

  /** How many base-32 digits hold that many bytes. */
  predicate Base32Digits(size: nat, digits: nat) {
    5 * (digits - 1) < 8 * size <= 5 * digits
  }

  predicate DigestForm(hash: string, size: nat, base64: Base64) {
    || (|hash| == 2 * size && forall i :: 0 <= i < |hash| ==> hash[i] in "0123456789abcdefABCDEF")
    || (Base32Digits(size, |hash|) && forall i :: 0 <= i < |hash| ==> hash[i] in "0123456789abcdfghijklmnpqrsvwxyz")
    || base64(hash) == Some(size)
  }

  predicate AddressForm(value: string, how: string, algorithm: string, hash: string, size: nat, base64: Base64) {
    && (how == "text:" || how == "fixed:" || how == "fixed:r:" || how == "fixed:git:")
    && DigestSize(algorithm, size) && DigestForm(hash, size, base64)
    && value == how + (algorithm + ([':'] + hash))
  }

  lemma HexExact(c: char)
    ensures HexDigit(c) <==> c in "0123456789abcdefABCDEF"
  {
    var digits := "0123456789abcdefABCDEF";
    if '0' <= c <= '9' { assert digits[c as int - '0' as int] == c; }
    if 'a' <= c <= 'f' { assert digits[10 + c as int - 'a' as int] == c; }
    if 'A' <= c <= 'F' { assert digits[16 + c as int - 'A' as int] == c; }
  }

  lemma DigestExact(algorithm: string, hash: string, size: nat, base64: Base64)
    ensures HashBytes(algorithm) == Some(size) <==> DigestSize(algorithm, size)
    ensures ValidHashText(hash, size, base64) <==> DigestForm(hash, size, base64)
  {
    forall i | 0 <= i < |hash| ensures HexDigit(hash[i]) <==> hash[i] in "0123456789abcdefABCDEF" { HexExact(hash[i]); }
    hide HexDigit;
    assert |hash| == (size * 8 + 4) / 5 <==> Base32Digits(size, |hash|);
    assert NixBase32.NIX32 == "0123456789abcdfghijklmnpqrsvwxyz";
  }

  lemma AlgorithmPlain(algorithm: string, size: nat)
    requires DigestSize(algorithm, size)
    ensures ':' !in algorithm && algorithm != [] && algorithm[0] in "mbs"
  {
  }

  lemma FixedStripped(rest: string)
    ensures AfterMethod("fixed:" + rest)
         == match StripPrefix(rest, "r:")
            case Some(after) => Some(after)
            case None =>
              match StripPrefix(rest, "git:")
              case Some(after) => Some(after)
              case None => Some(rest)
  {
    PrefixStripped("fixed:", rest);
    assert ("fixed:" + rest)[0] == 'f';
  }

  lemma TextStripped(rest: string)
    ensures AfterMethod("text:" + rest) == Some(rest)
  {
    PrefixStripped("text:", rest);
  }

  lemma MethodStripped(how: string, algorithm: string, size: nat, rest: string)
    requires how == "text:" || how == "fixed:" || how == "fixed:r:" || how == "fixed:git:"
    requires DigestSize(algorithm, size)
    ensures AfterMethod(how + (algorithm + rest)) == Some(algorithm + rest)
  {
    AlgorithmPlain(algorithm, size);
    hide DigestSize, AfterMethod;
    var after := algorithm + rest;
    assert after[0] in "mbs";
    if how == "text:" {
      TextStripped(after);
    } else if how == "fixed:" {
      FixedStripped(after);
    } else if how == "fixed:r:" {
      assert how + after == "fixed:" + ("r:" + after);
      FixedStripped("r:" + after);
      PrefixStripped("r:", after);
    } else {
      assert how + after == "fixed:" + ("git:" + after);
      assert ("git:" + after)[0] == 'g';
      FixedStripped("git:" + after);
      PrefixStripped("git:", after);
    }
  }

  lemma AddressComplete(value: string, how: string, algorithm: string, hash: string, size: nat, base64: Base64)
    requires AddressForm(value, how, algorithm, hash, size, base64)
    ensures ValidContentAddress(value, base64)
  {
    MethodStripped(how, algorithm, size, [':'] + hash);
    AlgorithmPlain(algorithm, size);
    DigestExact(algorithm, hash, size, base64);
    hide AfterMethod, DigestForm, DigestSize, HashBytes, ValidHashText;
    assert algorithm + ([':'] + hash) == algorithm + [':'] + hash;
    SplitAt(algorithm, ':', hash);
  }

  lemma MethodKnown(value: string) returns (how: string)
    requires AfterMethod(value).Some?
    ensures how == "text:" || how == "fixed:" || how == "fixed:r:" || how == "fixed:git:"
    ensures value == how + AfterMethod(value).value
  {
    if "text:" <= value {
      how := "text:";
    } else {
      var rest := StripPrefix(value, "fixed:").value;
      how := if "r:" <= rest then "fixed:r:" else if "git:" <= rest then "fixed:git:" else "fixed:";
    }
  }

  /** Content addresses are a method, an algorithm, and a digest of its size in hexadecimal, base 32 or base 64. */
  lemma AddressExact(value: string, base64: Base64)
    ensures ValidContentAddress(value, base64) <==>
            exists how, algorithm, hash, size :: AddressForm(value, how, algorithm, hash, size, base64)
  {
    hide AfterMethod, DigestForm, DigestSize, HashBytes, ValidHashText;
    forall how, algorithm, hash, size | AddressForm(value, how, algorithm, hash, size, base64)
      ensures ValidContentAddress(value, base64)
    {
      AddressComplete(value, how, algorithm, hash, size, base64);
    }
    if ValidContentAddress(value, base64) {
      var how := MethodKnown(value);
      var (algorithm, hash) := SplitOnce(AfterMethod(value).value, ':').value;
      var size := HashBytes(algorithm).value;
      DigestExact(algorithm, hash, size, base64);
      assert value == how + (algorithm + ([':'] + hash));
      assert AddressForm(value, how, algorithm, hash, size, base64);
    }
  }

  /** A key name of letters, digits, full stops, underscores and dashes, and 64 bytes in base 64. */
  predicate SignatureForm(value: string, name: string, encoded: string, base64: Base64) {
    && value == name + [':'] + encoded && |name| > 0
    && (forall i :: 0 <= i < |name| ==> KeyCharacter(name[i]))
    && |encoded| > 0 && base64(encoded) == Some(64)
  }

  predicate KeyCharacter(c: char) {
    var code := c as int;
    48 <= code <= 57 || 65 <= code <= 90 || 97 <= code <= 122 || code == 46 || code == 95 || code == 45
  }

  lemma SignatureExact(value: string, base64: Base64)
    ensures WellFormedSignature(value, base64) <==>
            exists name, encoded :: SignatureForm(value, name, encoded, base64)
  {
    assert forall c: char :: KeyCharacter(c) <==> Alphanumeric(c) || c in "._-" by {
      assert forall c: char :: c in "._-" <==> c == '.' || c == '_' || c == '-';
    }
    if WellFormedSignature(value, base64) {
      var (name, encoded) := SplitOnce(value, ':').value;
      assert SignatureForm(value, name, encoded, base64);
    }
    forall name, encoded | SignatureForm(value, name, encoded, base64) ensures WellFormedSignature(value, base64) {
      assert ':' !in name;
      SplitAt(name, ':', encoded);
    }
  }

  /* ---- whole documents ---- */

  /** The document says just this of its deriver. */
  predicate SaysDeriver(d: Document, deriver: Option<DeriverValue>) {
    match deriver
    case None => d.Get(Deriver).None?
    case Some(UnknownDeriver) => d.Get(Deriver) == Some("unknown-deriver")
    case Some(DerivedFrom(path)) => ValidPath(path) && d.Get(Deriver) == Some(Basename(path))
  }

  lemma DeriverExact(d: Document, deriver: Option<DeriverValue>)
    ensures DeriverOf(d) == Some(deriver) <==> SaysDeriver(d, deriver)
  {
    hide ValidPath, Basename, FromBasename;
    if d.Get(Deriver).Some? {
      var value := d.Get(Deriver).value;
      if FromBasename(value).Some? { FromBasenameSound(value); }
    }
    if deriver.Some? && deriver.value.DerivedFrom? && ValidPath(deriver.value.path) { PathTame(deriver.value.path); }
  }

  /** The lines of the text, and the entries among them. */
  function EntriesOf(text: string): seq<Entry> {
    if text == [] then [] else KnownIn(Split(text[..|text| - 1], '\n'))
  }

  /** At most a mebibyte, without carriage returns, ending in a newline, each line readable and no field twice. */
  predicate DocumentForm(text: string, unknown: UnknownFields) {
    && ByteLength(text) <= 1_048_576 && '\r' !in text
    && text != [] && text[|text| - 1] == '\n'
    && Readable(Split(text[..|text| - 1], '\n'), unknown) && Once(EntriesOf(text))
  }

  lemma FormExact(text: string, unknown: UnknownFields)
    ensures DocumentForm(text, unknown) <==> ValidText(text) && ParseDocument(text, unknown).Some?
    ensures DocumentForm(text, unknown) ==> Agrees(EMPTY, EntriesOf(text), ParseDocument(text, unknown).value)
  {
    hide ParseDocument, Readable, Once, KnownIn, Split, Agrees, ByteLength;
    DocumentExact(text, unknown);
    assert EndsWith(text, "\n") <==> text != [] && text[|text| - 1] == '\n';
  }

  /** What the entries of a text say, as a document. */
  ghost predicate Reads(d: Document, text: string, unknown: UnknownFields) {
    DocumentForm(text, unknown) && Agrees(EMPTY, EntriesOf(text), d)
  }

  lemma AgreesOnce(entries: seq<Entry>, a: Document, b: Document)
    requires Agrees(EMPTY, entries, a) && Agrees(EMPTY, entries, b)
    ensures a == b
  {
    assert a.signatures == b.signatures;
    forall f: Field ensures (f in a.fields <==> f in b.fields) && (f in a.fields ==> a.fields[f] == b.fields[f]) {
      assert a.Get(f) == b.Get(f);
    }
    assert a.fields == b.fields;
  }

  lemma ReadsExact(d: Document, text: string, unknown: UnknownFields)
    ensures Reads(d, text, unknown) <==> ValidText(text) && ParseDocument(text, unknown) == Some(d)
  {
    hide DocumentForm, ParseDocument, ValidText, Agrees, EntriesOf;
    FormExact(text, unknown);
    if Reads(d, text, unknown) { AgreesOnce(EntriesOf(text), d, ParseDocument(text, unknown).value); }
  }

  /** A peer takes exactly these claims from a text: unknown fields are passed over, and missing references are none. */
  lemma ExternalExact(route: string, text: string, claims: Claims)
    ensures ParseExternalClaims(route, text) == Some(claims) <==>
            exists d :: Reads(d, text, Ignore) && SaysClaims(d, route, claims, MeanNone)
  {
    hide Reads, ValidText, ParseDocument, SaysClaims, ClaimsOf;
    forall d ensures Reads(d, text, Ignore) <==> ValidText(text) && ParseDocument(text, Ignore) == Some(d) {
      ReadsExact(d, text, Ignore);
    }
    forall d ensures ClaimsOf(route, d, MeanNone) == Some(claims) <==> SaysClaims(d, route, claims, MeanNone) {
      ClaimsExact(d, route, claims, MeanNone);
    }
  }

  /** The document says just this, and carries well-formed signatures. */
  ghost predicate SaysMetadata(d: Document, route: string, m: Metadata, payload: Representation, base64: Base64) {
    && SaysClaims(d, route, m.claims, Rejected) && SaysPayload(d, m.claims.identity, payload)
    && SaysDeriver(d, m.deriver)
    && d.Get(ContentAddress) == m.contentAddress
    && (m.contentAddress.Some? ==> ValidContentAddress(m.contentAddress.value, base64))
    && d.signatures == m.signatures && |m.signatures| > 0
    && forall i :: 0 <= i < |m.signatures| ==> WellFormedSignature(m.signatures[i], base64)
  }

  lemma MetadataExact(d: Document, route: string, m: Metadata, payload: Representation, base64: Base64)
    ensures SaysMetadata(d, route, m, payload, base64) <==>
            && ClaimsOf(route, d, Rejected) == Some(m.claims) && MetadataOf(m.claims, d, base64) == Some(m)
            && PayloadOf(d, m.claims.identity) == Some(payload) && WellFormedSignatures(d.signatures, base64)
  {
    hide SaysClaims, ClaimsOf, SaysPayload, PayloadOf, SaysDeriver, DeriverOf;
    hide ValidContentAddress, WellFormedSignature;
    ClaimsExact(d, route, m.claims, Rejected);
    PayloadExact(d, m.claims.identity, payload);
    DeriverExact(d, m.deriver);
    if SaysClaims(d, route, m.claims, Rejected) { NotEmpty(d, route, m.claims); }
  }

  lemma NotEmpty(d: Document, route: string, claims: Claims)
    requires SaysClaims(d, route, claims, Rejected)
    ensures claims.identity.size > 0
  {
    hide ValidPath, NixBase32.Encode, ParseU64;
  }

  /** A text is published exactly as what its lines say: known fields only, and references required. */
  lemma PublicationExact(route: string, text: string, m: Metadata, payload: Representation, base64: Base64)
    ensures ParsePublication(route, text, base64) == Some((m, payload)) <==>
            exists d :: Reads(d, text, Reject) && SaysMetadata(d, route, m, payload, base64)
  {
    hide Reads, ValidText, ParseDocument, SaysMetadata, ClaimsOf, MetadataOf, PayloadOf, WellFormedSignatures;
    forall d ensures Reads(d, text, Reject) <==> ValidText(text) && ParseDocument(text, Reject) == Some(d) {
      ReadsExact(d, text, Reject);
    }
    forall d
      ensures SaysMetadata(d, route, m, payload, base64) <==>
              && ClaimsOf(route, d, Rejected) == Some(m.claims) && MetadataOf(m.claims, d, base64) == Some(m)
              && PayloadOf(d, m.claims.identity) == Some(payload) && WellFormedSignatures(d.signatures, base64)
    {
      MetadataExact(d, route, m, payload, base64);
    }
    if ParsePublication(route, text, base64) == Some((m, payload)) {
      MetadataKeepsClaims(route, text, base64);
    }
  }

  lemma MetadataKeepsClaims(route: string, text: string, base64: Base64)
    requires ParsePublication(route, text, base64).Some?
    ensures var d := ParseDocument(text, Reject).value;
            ClaimsOf(route, d, Rejected) == Some(ParsePublication(route, text, base64).value.0.claims)
  {
    hide ValidText, ParseDocument, ClaimsOf, PayloadOf, WellFormedSignatures, DeriverOf, ValidContentAddress;
  }
}
