/** Nix store paths: a path is its text; the store hash is what the text determines. */
module StorePaths {
  import opened Options
  import opened Text
  import NixBase32

  const STORE_PREFIX: string := "/nix/store/"
  const HASH_LENGTH: nat := 32
  const MAX_STORE_NAME_BYTES: nat := 211

  /** A printable character that separates nothing in a narinfo document or a fingerprint. */
  predicate TameChar(c: char) {
    '!' <= c <= '~' && c != ',' && c != ';'
  }

  predicate Tame(s: string) {
    forall i :: 0 <= i < |s| ==> TameChar(s[i])
  }

  lemma TameConcat(a: string, b: string)
    requires Tame(a) && Tame(b)
    ensures Tame(a + b)
  {
  }

  predicate Alphanumeric(c: char) {
    '0' <= c <= '9' || 'a' <= c <= 'z' || 'A' <= c <= 'Z'
  }

  predicate NameChar(c: char) {
    Alphanumeric(c) || c in "+-._?="
  }

  predicate ValidName(name: string) {
    && name != []
    && |name| <= MAX_STORE_NAME_BYTES
    && name != "."
    && name != ".."
    && !(".-" <= name)
    && !("..-" <= name)
    && forall i :: 0 <= i < |name| ==> NameChar(name[i])
  }

  predicate ValidHash(hash: string) {
    |hash| == HASH_LENGTH && NixBase32.InAlphabet(hash)
  }

  /** The store hash of a complete basename, `<hash>-<name>`. */
  function BasenameStore(basename: string): Option<string> {
    var (hash, name) :- SplitOnce(basename, '-');
    if ValidName(name) && ValidHash(hash) then Some(hash) else None
  }

  predicate ValidPath(path: string) {
    STORE_PREFIX <= path && BasenameStore(path[|STORE_PREFIX|..]).Some?
  }

  function StoreOf(path: string): string
    requires ValidPath(path)
  {
    BasenameStore(path[|STORE_PREFIX|..]).value
  }

  function Basename(path: string): string
    requires ValidPath(path)
  {
    path[|STORE_PREFIX|..]
  }

  function ParsePath(value: string): Option<string> {
    if ValidPath(value) then Some(value) else None
  }

  function FromBasename(basename: string): Option<string> {
    ParsePath(STORE_PREFIX + basename)
  }

  lemma AlphabetTame(c: char)
    requires c in NixBase32.NIX32
    ensures TameChar(c)
  {
  }

  lemma HashTame(hash: string)
    requires NixBase32.InAlphabet(hash)
    ensures Tame(hash)
  {
    forall i | 0 <= i < |hash| ensures TameChar(hash[i]) { AlphabetTame(hash[i]); }
  }

  lemma NameTame(name: string)
    requires ValidName(name)
    ensures Tame(name)
  {
  }

  lemma BasenameTame(basename: string)
    requires BasenameStore(basename).Some?
    ensures Tame(basename) && |basename| > HASH_LENGTH
    ensures basename != "unknown-deriver"
  {
    hide ValidName;
    var (hash, name) := SplitOnce(basename, '-').value;
    HashTame(hash);
    assert Tame(name) by { NameTame(name); }
    assert Tame("-");
    TameConcat(hash, "-");
    TameConcat(hash + "-", name);
  }

  lemma PathTame(path: string)
    requires ValidPath(path)
    ensures Tame(path) && Tame(Basename(path)) && Basename(path) != [] && path == STORE_PREFIX + Basename(path)
    ensures FromBasename(Basename(path)) == Some(path)
    ensures Basename(path) != "unknown-deriver"
  {
    hide BasenameStore;
    BasenameTame(Basename(path));
    assert Tame(STORE_PREFIX);
    TameConcat(STORE_PREFIX, Basename(path));
  }
}
