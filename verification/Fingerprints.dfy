/** The text a narinfo signature signs, and what it commits to. */
module Fingerprints {
  import opened NarFormat
  import opened NarInfo
  import opened NarObjects
  import opened Sorting
  import opened StorePaths
  import opened Text
  import NixBase32

  function HashText(c: Claims): string {
    "sha256:" + NixBase32.Encode(c.identity.hash)
  }

  function Front(c: Claims): string {
    "1;" + c.path + [';'] + HashText(c) + [';'] + Decimal(c.identity.size) + [';']
  }

  function Fingerprint(c: Claims): string
    requires c.Valid()
  {
    Front(c) + Join(c.references, ',')
  }

  lemma {:induction false} JoinSnoc(parts: seq<string>, last: string, c: char)
    ensures Join(parts + [last], c) == if parts == [] then last else Join(parts, c) + [c] + last
    decreases |parts|
  {
    if parts == [] {
      assert parts + [last] == [last];
    } else {
      var s := parts + [last];
      assert s[1..] == parts[1..] + [last];
      JoinSnoc(parts[1..], last, c);
      if |parts| == 1 {
        assert s[1..] == [last];
      } else {
        var tail := Join(parts[1..], c);
        Assoc(parts[0] + [c], tail + [c], last);
        Assoc(parts[0] + [c], tail, [c]);
      }
    }
  }

  /** The loop over the references' basenames, separated by commas. */
  method BuildFingerprint(c: Claims) returns (fingerprint: string)
    requires c.Valid()
    ensures fingerprint == Fingerprint(c)
  {
    hide ValidPath, Ascending, Front, Join, Basename;
    fingerprint := Front(c);
    NothingJoined(Front(c));
    assert c.references[..0] == [];
    for index := 0 to |c.references|
      invariant fingerprint == Front(c) + Join(c.references[..index], ',')
    {
      ghost var before := fingerprint;
      if index != 0 { fingerprint := fingerprint + [',']; }
      fingerprint := fingerprint + STORE_PREFIX;
      fingerprint := fingerprint + Basename(c.references[index]);
      NextReference(Front(c), c.references, index, before, fingerprint);
    }
    assert c.references[..|c.references|] == c.references;
  }

  lemma NothingJoined(front: string)
    ensures front + Join([], ',') == front
  {
  }

  lemma NextReference(front: string, references: seq<string>, index: nat, before: string, after: string)
    requires index < |references| && ValidPath(references[index]) && before == front + Join(references[..index], ',')
    requires after == (if index != 0 then before + [','] else before) + STORE_PREFIX + Basename(references[index])
    ensures after == front + Join(references[..index + 1], ',')
  {
    hide ValidPath, Join, Basename;
    var comma, joined := if index != 0 then [','] else [], Join(references[..index], ',');
    assert index == 0 ==> before + [] == before;
    Appended(before, comma, references[index], after);
    Assoc(front, joined, comma + references[index]);
    Assoc(joined, comma, references[index]);
    JoinSnoc(references[..index], references[index], ',');
    assert references[..index + 1] == references[..index] + [references[index]];
    if index == 0 {
      NothingJoined("");
      assert references[..0] == [];
    }
  }

  lemma Appended(before: string, comma: string, reference: string, after: string)
    requires ValidPath(reference) && after == before + comma + STORE_PREFIX + Basename(reference)
    ensures after == before + (comma + reference)
  {
    hide BasenameStore;
    PathTame(reference);
  }

  lemma {:induction false} JoinInjective(a: seq<string>, b: seq<string>, c: char)
    requires forall i :: 0 <= i < |a| ==> c !in a[i] && a[i] != []
    requires forall i :: 0 <= i < |b| ==> c !in b[i] && b[i] != []
    requires Join(a, c) == Join(b, c)
    ensures a == b
  {
    if a != [] && b != [] {
      SplitJoin(a, c);
      SplitJoin(b, c);
    }
  }

  lemma ReferencesDetermined(a: seq<string>, b: seq<string>)
    requires ValidPaths(a) && ValidPaths(b) && Join(a, ',') == Join(b, ',')
    ensures a == b
  {
    hide ValidPath;
    forall i | 0 <= i < |a| ensures ',' !in a[i] && a[i] != [] { PathTame(a[i]); }
    forall i | 0 <= i < |b| ensures ',' !in b[i] && b[i] != [] { PathTame(b[i]); }
    JoinInjective(a, b, ',');
  }

  /** Equal fingerprints split the same way at every semicolon. */
  lemma PartsDetermined(path: string, hash: string, size: string, rest: string,
                        path': string, hash': string, size': string, rest': string)
    requires ';' !in path && ';' !in hash && ';' !in size && ';' !in path' && ';' !in hash' && ';' !in size'
    requires path + [';'] + (hash + [';'] + (size + [';'] + rest))
          == path' + [';'] + (hash' + [';'] + (size' + [';'] + rest'))
    ensures path == path' && hash == hash' && size == size' && rest == rest'
  {
    SameSplit(path, ';', hash + [';'] + (size + [';'] + rest), path', hash' + [';'] + (size' + [';'] + rest'));
    SameSplit(hash, ';', size + [';'] + rest, hash', size' + [';'] + rest');
    SameSplit(size, ';', rest, size', rest');
  }

  lemma Regrouped(front: string, path: string, hash: string, size: string, rest: string)
    ensures front + path + [';'] + hash + [';'] + size + [';'] + rest
         == front + (path + [';'] + (hash + [';'] + (size + [';'] + rest)))
  {
    Assoc(front, path, [';']);
    Assoc(front + path + [';'], hash, [';']);
    Assoc(front + path + [';'] + (hash + [';']), size, [';']);
    Assoc(front + path + [';'] + (hash + [';']), size + [';'], rest);
    Assoc(front + path + [';'], hash + [';'], size + [';'] + rest);
    Assoc(front, path + [';'], hash + [';'] + (size + [';'] + rest));
  }

  lemma NoSemicolons(c: Claims)
    requires c.Valid()
    ensures ';' !in c.path && ';' !in HashText(c) && ';' !in Decimal(c.identity.size)
  {
    hide NixBase32.Encode, NixBase32.Decode, NixBase32.InAlphabet, ValidPath, Ascending;
    var hash := NixBase32.Encode(c.identity.hash);
    PathTame(c.path);
    NixBase32.DecodeAfterEncode(c.identity.hash);
    NixBase32.AcceptedTexts(hash);
    HashTame(hash);
    assert ';' !in "sha256:";
  }

  /** Two claims have the same fingerprint exactly when the comparison finds no difference. */
  lemma FingerprintsAgree(a: Claims, b: Claims)
    requires a.Valid() && b.Valid()
    ensures Fingerprint(a) == Fingerprint(b) <==> CompareClaims(a, b).None?
  {
    hide ValidPath, Ascending, Join, Decimal, HashText;
    if Fingerprint(a) == Fingerprint(b) {
      Regrouped("1;", a.path, HashText(a), Decimal(a.identity.size), Join(a.references, ','));
      Regrouped("1;", b.path, HashText(b), Decimal(b.identity.size), Join(b.references, ','));
      NoSemicolons(a);
      NoSemicolons(b);
      SameAfter("1;",
                a.path + [';'] + (HashText(a) + [';'] + (Decimal(a.identity.size) + [';'] + Join(a.references, ','))),
                b.path + [';'] + (HashText(b) + [';'] + (Decimal(b.identity.size) + [';'] + Join(b.references, ','))));
      PartsDetermined(a.path, HashText(a), Decimal(a.identity.size), Join(a.references, ','),
                      b.path, HashText(b), Decimal(b.identity.size), Join(b.references, ','));
      HashDetermined(a, b);
      DecimalInjective(a.identity.size, b.identity.size);
      ReferencesDetermined(a.references, b.references);
    } else {
      assert a != b;
    }
  }

  lemma SameAfter(p: string, a: string, b: string)
    requires p + a == p + b
    ensures a == b
  {
    PrefixStripped(p, a);
    PrefixStripped(p, b);
  }

  lemma HashDetermined(a: Claims, b: Claims)
    requires HashText(a) == HashText(b)
    ensures a.identity.hash == b.identity.hash
  {
    hide NixBase32.Encode, NixBase32.Decode;
    SameAfter("sha256:", NixBase32.Encode(a.identity.hash), NixBase32.Encode(b.identity.hash));
    NixBase32.DecodeAfterEncode(a.identity.hash);
    NixBase32.DecodeAfterEncode(b.identity.hash);
  }

  /** The order and the repeats of the references given do not change the fingerprint. */
  lemma FingerprintIgnoresOrder(path: string, references: seq<string>, references': seq<string>, identity: Identity)
    requires SameElements(references, references')
    requires NewClaims(path, references, identity).Some?
    ensures NewClaims(path, references', identity).Some?
    ensures NewClaims(path, references, identity).value.Valid() && NewClaims(path, references', identity).value.Valid()
    ensures Fingerprint(NewClaims(path, references, identity).value)
         == Fingerprint(NewClaims(path, references', identity).value)
  {
    hide ValidPath, SortDedup, Claims.Valid, Fingerprint;
    forall i | 0 <= i < |references'| ensures ValidPath(references'[i]) {
      assert references'[i] in references;
    }
    OrderAndRepeatsIrrelevant(references, references');
    NewClaimsValid(path, references, identity);
  }
}
