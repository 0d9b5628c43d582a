/** Exactly which texts are store paths, store hashes and store names. */
module StorePathForms {
  import opened StorePaths
  import opened Text

  const HASH_CHARACTERS: string := "0123456789abcdfghijklmnpqrsvwxyz"

  /** A letter, a digit, or one of plus, dash, full stop, underscore, question mark and equals sign. */
  predicate NameCharacter(c: char) {
    var code := c as int;
    || 48 <= code <= 57 || 65 <= code <= 90 || 97 <= code <= 122
    || code == 43 || code == 45 || code == 46 || code == 95 || code == 63 || code == 61
  }

  predicate HashForm(hash: string) {
    |hash| == 32 && forall i :: 0 <= i < |hash| ==> hash[i] in HASH_CHARACTERS
  }

  /** What comes before the first dash, or the whole name. */
  function FirstWord(name: string): string {
    if name == [] || name[0] == '-' then [] else [name[0]] + FirstWord(name[1..])
  }

  /** One to 211 characters, not beginning with a word of one or two dots. */
  predicate NameForm(name: string) {
    && 1 <= |name| <= 211 && (forall i :: 0 <= i < |name| ==> NameCharacter(name[i]))
    && FirstWord(name) != "." && FirstWord(name) != ".."
  }

  lemma CharacterExact(c: char)
    ensures NameChar(c) <==> NameCharacter(c)
  {
    assert c in "+-._?=" <==> c == '+' || c == '-' || c == '.' || c == '_' || c == '?' || c == '=';
  }

  lemma WordHead(name: string)
    requires name != [] && name[0] == '.'
    ensures FirstWord(name) == ['.'] + FirstWord(name[1..])
  {
  }

  lemma NoWord(name: string)
    ensures FirstWord(name) == [] <==> name == [] || name[0] == '-'
  {
  }

  lemma WordStart(name: string)
    requires FirstWord(name) != []
    ensures name != [] && FirstWord(name)[0] == name[0]
  {
  }

  lemma OneDot(name: string)
    ensures FirstWord(name) == "." <==> name == "." || ".-" <= name
  {
    if FirstWord(name) != [] { WordStart(name); }
    if name != [] && name[0] == '.' {
      WordHead(name);
      NoWord(name[1..]);
      hide FirstWord;
      assert FirstWord(name) == "." <==> FirstWord(name[1..]) == [];
      assert name == ['.'] + name[1..];
    }
  }

  lemma DotsForm(name: string)
    ensures FirstWord(name) == "." <==> name == "." || ".-" <= name
    ensures FirstWord(name) == ".." <==> name == ".." || "..-" <= name
  {
    OneDot(name);
    if FirstWord(name) != [] { WordStart(name); }
    if name != [] && name[0] == '.' {
      WordHead(name);
      OneDot(name[1..]);
      hide FirstWord;
      assert FirstWord(name)[1..] == FirstWord(name[1..]);
      assert ['.'] + "." == "..";
      assert FirstWord(name) == ".." <==> FirstWord(name[1..]) == ".";
      assert name == ['.'] + name[1..];
    }
  }

  lemma NameExact(name: string)
    ensures ValidName(name) <==> NameForm(name)
  {
    DotsForm(name);
    hide FirstWord;
    forall i | 0 <= i < |name| ensures NameChar(name[i]) <==> NameCharacter(name[i]) { CharacterExact(name[i]); }
    hide NameChar, NameCharacter;
  }

  lemma HashExact(hash: string)
    ensures ValidHash(hash) <==> HashForm(hash)
  {
  }

  /** A store path is `/nix/store/<hash>-<name>`, and nothing else is. */
  lemma PathExact(path: string)
    ensures ValidPath(path) <==>
            exists hash, name :: HashForm(hash) && NameForm(name) && path == "/nix/store/" + (hash + (['-'] + name))
    ensures forall hash, name :: HashForm(hash) && NameForm(name) && path == "/nix/store/" + (hash + (['-'] + name)) ==>
              ValidPath(path) && StoreOf(path) == hash && Basename(path) == hash + (['-'] + name)
  {
    hide ValidName, NameForm, ValidHash, HashForm;
    if ValidPath(path) {
      var (hash, name) := SplitOnce(path[11..], '-').value;
      NameExact(name);
      HashExact(hash);
      assert path == "/nix/store/" + (hash + (['-'] + name));
    }
    forall hash, name | HashForm(hash) && NameForm(name) && path == "/nix/store/" + (hash + (['-'] + name))
      ensures ValidPath(path) && StoreOf(path) == hash && Basename(path) == hash + (['-'] + name)
    {
      NameExact(name);
      HashExact(hash);
      NoDash(hash);
      assert path[11..] == hash + ['-'] + name;
      SplitAt(hash, '-', name);
    }
  }

  lemma NoDash(hash: string)
    requires HashForm(hash)
    ensures '-' !in hash
  {
    assert '-' !in HASH_CHARACTERS;
  }
}
