/** narinfo metadata: what a document states, how it is printed, and how it is read back. */
module NarInfo {
  import opened NarObjects
  import opened Options
  import opened Sorting
  import opened StorePaths
  import opened Text
  import NixBase32

  const MAX_NARINFO_BYTES: nat := 1024 * 1024

  /** The number of bytes a base-64 text decodes to, if it decodes. */
  type Base64 = string -> Option<nat>

  predicate Base64Char(c: char) {
    Alphanumeric(c) || c in "+/="
  }

  /** What is assumed of the decoder: it takes no characters outside its alphabet and padding. */
  ghost predicate UsesAlphabet(base64: Base64) {
    forall s: string :: base64(s).Some? ==> forall i :: 0 <= i < |s| ==> Base64Char(s[i])
  }

  /* ---- claims ---- */

  datatype Claims = Claims(path: string, references: seq<string>, identity: Identity) {
    predicate Valid() {
      ValidPath(path) && ValidPaths(references) && Ascending(references)
    }

    function Store(): string
      requires ValidPath(path)
    {
      StoreOf(path)
    }
  }

  predicate ValidPaths(paths: seq<string>) {
    forall i :: 0 <= i < |paths| ==> ValidPath(paths[i])
  }

  function NewClaims(path: string, references: seq<string>, identity: Identity): (r: Option<Claims>) {
    if ValidPath(path) && ValidPaths(references)
    then Some(Claims(path, SortDedup(references), identity))
    else None
  }

  datatype Mismatch = PathDiffers | IdentityDiffers | ReferencesDiffer

  function CompareClaims(a: Claims, b: Claims): Option<Mismatch> {
    if a.path != b.path then Some(PathDiffers)
    else if a.identity != b.identity then Some(IdentityDiffers)
    else if a.references != b.references then Some(ReferencesDiffer)
    else None
  }

  function Basenames(paths: seq<string>): (r: seq<string>)
    requires ValidPaths(paths)
    ensures |r| == |paths|
    ensures forall i :: 0 <= i < |r| ==> r[i] == Basename(paths[i])
  {
    if paths == [] then [] else [Basename(paths[0])] + Basenames(paths[1..])
  }

  function FromBasenames(names: seq<string>): Option<seq<string>> {
    if names == [] then Some([])
    else
      var path :- FromBasename(names[0]);
      var rest :- FromBasenames(names[1..]);
      Some([path] + rest)
  }

  function ReferencesField(references: seq<string>): string
    requires ValidPaths(references)
  {
    Join(Basenames(references), ' ')
  }

  function ParseReferences(value: string): Option<seq<string>> {
    if value == [] then Some([])
    else
      var paths :- FromBasenames(Split(value, ' '));
      Some(SortDedup(paths))
  }

  /** Claims made of valid paths are valid, whatever order and repeats the references came in. */
  lemma NewClaimsValid(path: string, references: seq<string>, identity: Identity)
    requires NewClaims(path, references, identity).Some?
    ensures NewClaims(path, references, identity).value.Valid()
  {
    hide ValidPath;
    SortDedupSound(references);
    var sorted := SortDedup(references);
    forall i | 0 <= i < |sorted| ensures ValidPath(sorted[i]) {
      assert sorted[i] in references;
    }
  }

  lemma {:induction false} BasenamesParsed(paths: seq<string>)
    requires ValidPaths(paths)
    ensures FromBasenames(Basenames(paths)) == Some(paths)
    decreases |paths|
  {
    hide ValidPath, Basename, FromBasename;
    if paths != [] {
      PathTame(paths[0]);
      BasenamesParsed(paths[1..]);
      assert paths == [paths[0]] + paths[1..];
      assert Basenames(paths)[1..] == Basenames(paths[1..]);
    }
  }

  lemma {:induction false} ParsedValid(names: seq<string>)
    requires FromBasenames(names).Some?
    ensures ValidPaths(FromBasenames(names).value)
    decreases |names|
  {
    hide ValidPath;
    if names != [] { ParsedValid(names[1..]); }
  }

  lemma ReferencesRoundTrip(references: seq<string>)
    requires ValidPaths(references) && Ascending(references)
    ensures ParseReferences(ReferencesField(references)) == Some(references)
  {
    hide ValidPath, Basename, Split, Ascending, SortDedup;
    var names := Basenames(references);
    if names != [] {
      forall i | 0 <= i < |names| ensures ' ' !in names[i] && names[i] != [] {
        PathTame(references[i]);
      }
      assert ReferencesField(references) != [];
      SplitJoin(names, ' ');
      BasenamesParsed(references);
      AscendingKept(references);
    }
  }

  lemma ReferencesValid(value: string)
    requires ParseReferences(value).Some?
    ensures ValidPaths(ParseReferences(value).value) && Ascending(ParseReferences(value).value)
  {
    hide ValidPath, FromBasenames, Split, SortDedup;
    if value != [] {
      var paths := FromBasenames(Split(value, ' ')).value;
      ParsedValid(Split(value, ' '));
      SortDedupSound(paths);
      var sorted := SortDedup(paths);
      forall i | 0 <= i < |sorted| ensures ValidPath(sorted[i]) {
        assert sorted[i] in paths;
      }
    }
  }

  /* ---- the other fields ---- */

  datatype DeriverValue = UnknownDeriver | DerivedFrom(path: string) {
    predicate Valid() {
      DerivedFrom? ==> ValidPath(path)
    }

    function Value(): string
      requires Valid()
    {
      if UnknownDeriver? then "unknown-deriver" else Basename(path)
    }
  }

  function ParseDeriver(value: string): Option<DeriverValue> {
    if value == "unknown-deriver" then Some(UnknownDeriver)
    else
      var path :- FromBasename(value);
      Some(DerivedFrom(path))
  }

  lemma DeriverRoundTrip(d: DeriverValue)
    requires d.Valid()
    ensures ParseDeriver(d.Value()) == Some(d)
  {
    hide ValidPath, Basename, FromBasename;
    if d.DerivedFrom? { PathTame(d.path); }
  }

  predicate HexDigit(c: char) {
    '0' <= c <= '9' || 'a' <= c <= 'f' || 'A' <= c <= 'F'
  }

  function HashBytes(algorithm: string): Option<nat> {
    match algorithm
    case "md5" => Some(16)
    case "sha1" => Some(20)
    case "blake3" => Some(32)
    case "sha256" => Some(32)
    case "sha512" => Some(64)
    case _ => None
  }

  predicate ValidHashText(hash: string, size: nat, base64: Base64) {
    || (|hash| == size * 2 && forall i :: 0 <= i < |hash| ==> HexDigit(hash[i]))
    || (|hash| == (size * 8 + 4) / 5 && NixBase32.InAlphabet(hash))
    || base64(hash) == Some(size)
  }

  /** What follows the method of a content address. */
  function AfterMethod(value: string): Option<string> {
    match StripPrefix(value, "text:")
    case Some(rest) => Some(rest)
    case None =>
      var rest :- StripPrefix(value, "fixed:");
      match StripPrefix(rest, "r:")
      case Some(after) => Some(after)
      case None =>
        match StripPrefix(rest, "git:")
        case Some(after) => Some(after)
        case None => Some(rest)
  }

  lemma MethodTame(value: string)
    requires AfterMethod(value).Some? && Tame(AfterMethod(value).value)
    ensures Tame(value)
  {
    assert Tame("text:") && Tame("fixed:") && Tame("r:") && Tame("git:");
    if "text:" <= value {
      TameConcat("text:", AfterMethod(value).value);
    } else {
      var rest := StripPrefix(value, "fixed:").value;
      if "r:" <= rest { TameConcat("r:", AfterMethod(value).value); }
      else if "git:" <= rest { TameConcat("git:", AfterMethod(value).value); }
      TameConcat("fixed:", rest);
    }
  }

  predicate ValidContentAddress(value: string, base64: Base64) {
    var rest := AfterMethod(value);
    && rest.Some?
    && var parts := SplitOnce(rest.value, ':');
    && parts.Some?
    && HashBytes(parts.value.0).Some?
    && ValidHashText(parts.value.1, HashBytes(parts.value.0).value, base64)
  }

  lemma HashTextTame(hash: string, size: nat, base64: Base64)
    requires UsesAlphabet(base64) && ValidHashText(hash, size, base64)
    ensures Tame(hash)
  {
    if NixBase32.InAlphabet(hash) { HashTame(hash); }
  }

  lemma AlgorithmTame(algorithm: string)
    requires HashBytes(algorithm).Some?
    ensures Tame(algorithm)
  {
  }

  lemma ContentAddressTame(value: string, base64: Base64)
    requires UsesAlphabet(base64) && ValidContentAddress(value, base64)
    ensures Tame(value)
  {
    hide ValidHashText, UsesAlphabet, HashBytes;
    var rest := AfterMethod(value).value;
    var (algorithm, hash) := SplitOnce(rest, ':').value;
    AlgorithmTame(algorithm);
    HashTextTame(hash, HashBytes(algorithm).value, base64);
    assert Tame(":");
    TameConcat(algorithm, ":");
    TameConcat(algorithm + ":", hash);
    MethodTame(value);
  }

  const SIGNATURE_BYTES: nat := 64

  predicate ValidKeyName(name: string) {
    name != [] && forall i :: 0 <= i < |name| ==> Alphanumeric(name[i]) || name[i] in "._-"
  }

  predicate WellFormedSignature(value: string, base64: Base64) {
    var parts := SplitOnce(value, ':');
    && parts.Some?
    && ValidKeyName(parts.value.0)
    && parts.value.1 != []
    && base64(parts.value.1) == Some(SIGNATURE_BYTES)
  }

  predicate WellFormedSignatures(signatures: seq<string>, base64: Base64) {
    signatures != [] && forall i :: 0 <= i < |signatures| ==> WellFormedSignature(signatures[i], base64)
  }

  lemma SignatureTame(value: string, base64: Base64)
    requires UsesAlphabet(base64) && WellFormedSignature(value, base64)
    ensures Tame(value)
  {
    var (name, encoded) := SplitOnce(value, ':').value;
    assert Tame(name);
    assert Tame(encoded);
    assert Tame(":");
    TameConcat(name, ":");
    TameConcat(name + ":", encoded);
  }
}
