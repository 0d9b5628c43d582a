/** How an archive is laid out: a list of tokens, each framed by its length and padded to eight bytes. */
module NarLayout {
  import opened NarFormat
  import Numerals

  /* ---- frames ---- */

  /** Padding is as short as it can be. */
  lemma PadExact(n: nat)
    ensures PadLength(n) < 8 && (n + PadLength(n)) % 8 == 0
  {
  }

  lemma StrAligned(b: bytes)
    ensures |Str(b)| % 8 == 0 && |Str(b)| < 16 + |b|
  {
    PadExact(|b|);
    hide PadLength, Str;
    AddAligned(8, |b| + PadLength(|b|));
  }

  lemma AddAligned(m: nat, n: nat)
    requires m % 8 == 0 && n % 8 == 0
    ensures (m + n) % 8 == 0
  {
  }

  lemma LengthByte(b: bytes, k: nat)
    requires k < 8
    ensures Numerals.Pow(256, k) >= 1 && Str(b)[k] == |b| / Numerals.Pow(256, k) % 256
  {
    hide PadLength, Numerals.Pow, Numerals.Digits;
    Numerals.DigitAt(|b|, 256, 8, k);
    assert Str(b)[k] == Le64(|b|)[k];
  }

  /** A frame holds the length, least significant byte first, then the bytes, then zeros, and is the shortest such
      multiple of eight bytes. */
  lemma StrLayout(b: bytes)
    ensures |Str(b)| % 8 == 0 && |Str(b)| < 16 + |b|
    ensures forall k: nat :: k < 8 ==> Numerals.Pow(256, k) >= 1 && Str(b)[k] == |b| / Numerals.Pow(256, k) % 256
    ensures Str(b)[8..8 + |b|] == b
    ensures forall k :: 8 + |b| <= k < |Str(b)| ==> Str(b)[k] == 0
  {
    hide PadLength, Numerals.Pow, Le64;
    StrAligned(b);
    forall k: nat | k < 8 ensures Numerals.Pow(256, k) >= 1 && Str(b)[k] == |b| / Numerals.Pow(256, k) % 256 {
      LengthByte(b, k);
    }
  }

  /* ---- tokens ---- */

  function Framed(tokens: seq<bytes>): bytes {
    if tokens == [] then [] else Str(tokens[0]) + Framed(tokens[1..])
  }

  function Spelled(words: seq<string>): (r: seq<bytes>)
    ensures |r| == |words|
  {
    seq(|words|, i requires 0 <= i < |words| => Ascii(words[i]))
  }

  /** The tokens of a node. */
  function Tokens(t: Node): seq<bytes> {
    match t
    case Directory(entries) => Spelled(["(", "type", "directory"]) + (EntryTokens(entries) + Spelled([")"]))
    case Regular(executable, chunks) =>
      Spelled(["(", "type", "regular"])
      + ((if executable then Spelled(["executable", "", "contents"]) else Spelled(["contents"]))
         + ([Concat(chunks)] + Spelled([")"])))
    case Symlink(target) => Spelled(["(", "type", "symlink"]) + (Spelled(["target"]) + ([target] + Spelled([")"])))
  }

  function EntryTokens(entries: Entries): seq<bytes> {
    match entries
    case NoEntries => []
    case Entry(name, node, rest) =>
      Spelled(["entry", "(", "name"])
      + ([name] + (Spelled(["node"]) + (Tokens(node) + (Spelled([")"]) + EntryTokens(rest)))))
  }

  lemma {:induction false} FramedConcat(a: seq<bytes>, b: seq<bytes>)
    ensures Framed(a + b) == Framed(a) + Framed(b)
    decreases |a|
  {
    hide Str;
    if a == [] {
      assert a + b == b;
    } else {
      FramedConcat(a[1..], b);
      assert (a + b)[1..] == a[1..] + b;
    }
  }

  lemma FramedOne(token: bytes)
    ensures Framed([token]) == Str(token)
  {
    hide Str;
    assert [token][1..] == [];
  }

  lemma FramedWord(word: string)
    ensures Framed(Spelled([word])) == Str(Ascii(word))
  {
    assert Spelled([word]) == [Ascii(word)];
    FramedOne(Ascii(word));
  }

  lemma FramedThree(a: string, b: string, c: string)
    ensures Framed(Spelled([a, b, c])) == Str(Ascii(a)) + (Str(Ascii(b)) + Str(Ascii(c)))
  {
    hide Str;
    assert Spelled([a, b, c]) == [Ascii(a)] + ([Ascii(b)] + [Ascii(c)]);
    FramedConcat([Ascii(a)], [Ascii(b)] + [Ascii(c)]);
    FramedConcat([Ascii(b)], [Ascii(c)]);
    FramedOne(Ascii(a));
    FramedOne(Ascii(b));
    FramedOne(Ascii(c));
  }

  lemma HeadFramed()
    ensures Head(DirectoryKind) == Framed(Spelled(["(", "type", "directory"]))
    ensures Head(RegularKind) == Framed(Spelled(["(", "type", "regular"]))
    ensures Head(SymlinkKind) == Framed(Spelled(["(", "type", "symlink"]))
    ensures Str(CLOSE) == Framed(Spelled([")"]))
  {
    hide Str, Framed, Spelled, Ascii;
    FramedThree("(", "type", "directory");
    FramedThree("(", "type", "regular");
    FramedThree("(", "type", "symlink");
    FramedWord(")");
  }

  lemma FileFramed(executable: bool, body: bytes)
    ensures FileBytes(executable, body) == Framed(Tokens(Regular(executable, [body])))
  {
    HeadFramed();
    FramedThree("executable", "", "contents");
    FramedWord("contents");
    FramedOne(body);
    assert Concat([body]) == body + [] == body;
    var flag := if executable then Spelled(["executable", "", "contents"]) else Spelled(["contents"]);
    assert FileHead(executable) == Framed(flag) by { assert Ascii("") == []; }
    hide Str, Framed, Spelled, Ascii, Head, FileHead;
    FramedConcat([body], Spelled([")"]));
    FramedConcat(flag, [body] + Spelled([")"]));
    FramedConcat(Spelled(["(", "type", "regular"]), flag + ([body] + Spelled([")"])));
  }

  lemma LinkFramed(target: bytes)
    ensures LinkBytes(target) == Framed(Tokens(Symlink(target)))
  {
    HeadFramed();
    FramedWord("target");
    FramedOne(target);
    hide Str, Framed, Spelled, Ascii, Head;
    FramedConcat([target], Spelled([")"]));
    FramedConcat(Spelled(["target"]), [target] + Spelled([")"]));
    FramedConcat(Spelled(["(", "type", "symlink"]), Spelled(["target"]) + ([target] + Spelled([")"])));
  }

  lemma EntryFramed(name: bytes)
    ensures EntryHead(name) == Framed(Spelled(["entry", "(", "name"])) + (Str(name) + Framed(Spelled(["node"])))
  {
    FramedThree("entry", "(", "name");
    FramedWord("node");
    hide Str, Framed, Spelled, Ascii;
    var a, b, c, d, e := Str(ENTRY), Str(OPEN), Str(NAME), Str(name), Str(NODE);
    assert (a + (b + (c + d))) + e == (a + (b + c)) + (d + e);
  }

  /** The bytes of a node are its tokens, framed one after the other. */
  lemma {:induction false} NodeFramed(t: Node)
    ensures Serialize(t) == Framed(Tokens(t))
    decreases t
  {
    match t
    case Directory(entries) =>
      EntriesFramed(entries);
      HeadFramed();
      hide Str, Framed, Spelled, Head, SerializeEntries, EntryTokens;
      FramedConcat(EntryTokens(entries), Spelled([")"]));
      FramedConcat(Spelled(["(", "type", "directory"]), EntryTokens(entries) + Spelled([")"]));
    case Regular(executable, chunks) =>
      FileFramed(executable, Concat(chunks));
      assert Concat([Concat(chunks)]) == Concat(chunks) + [] == Concat(chunks);
    case Symlink(target) => LinkFramed(target);
  }

  lemma {:induction false} EntriesFramed(entries: Entries)
    ensures SerializeEntries(entries) == Framed(EntryTokens(entries))
    decreases entries
  {
    match entries
    case NoEntries =>
    case Entry(name, node, rest) =>
      NodeFramed(node);
      EntriesFramed(rest);
      EntryFramed(name);
      HeadFramed();
      FramedOne(name);
      var head, child, close := Spelled(["entry", "(", "name"]), Tokens(node), Spelled([")"]);
      var after := EntryTokens(rest);
      hide Str, Framed, Spelled, Serialize, Tokens;
      FramedConcat(close, after);
      FramedConcat(child, close + after);
      FramedConcat(Spelled(["node"]), child + (close + after));
      FramedConcat([name], Spelled(["node"]) + (child + (close + after)));
      FramedConcat(head, [name] + (Spelled(["node"]) + (child + (close + after))));
      Regroup(Framed(head), Str(name), Framed(Spelled(["node"])),
              Serialize(node) + (Str(CLOSE) + SerializeEntries(rest)));
  }

  lemma Regroup(a: bytes, b: bytes, c: bytes, d: bytes)
    ensures (a + (b + c)) + d == a + (b + (c + d))
  {
  }

  /** An archive is the framed list of its tokens, the version first, and so a multiple of eight bytes long. */
  lemma ArchiveLayout(t: Node)
    ensures Archive(t) == Framed(Spelled(["nix-archive-1"]) + Tokens(t))
    ensures |Archive(t)| % 8 == 0
  {
    NodeFramed(t);
    FramedWord("nix-archive-1");
    hide Str, Framed, Spelled, Tokens, Serialize;
    FramedConcat(Spelled(["nix-archive-1"]), Tokens(t));
    FramedAligned(Spelled(["nix-archive-1"]) + Tokens(t));
  }

  lemma {:induction false} FramedAligned(tokens: seq<bytes>)
    ensures |Framed(tokens)| % 8 == 0
    decreases |tokens|
  {
    if tokens != [] {
      hide Str;
      StrAligned(tokens[0]);
      FramedAligned(tokens[1..]);
      AddAligned(|Str(tokens[0])|, |Framed(tokens[1..])|);
    }
  }

  /* ---- file bodies ---- */

  /** A body is cut into pieces of 64 KiB, and a shorter last one that is not empty. */
  lemma {:induction false} CutExact(body: bytes)
    ensures Concat(Cut(body)) == body
    ensures forall i :: 0 <= i < |Cut(body)| ==> 0 < |Cut(body)[i]| <= 65_536
    ensures forall i :: 0 <= i < |Cut(body)| - 1 ==> |Cut(body)[i]| == 65_536
    decreases |body|
  {
    if body != [] {
      var k := if |body| < CHUNK_SIZE then |body| else CHUNK_SIZE;
      CutExact(body[k..]);
      assert Cut(body)[1..] == Cut(body[k..]);
      assert body == body[..k] + body[k..];
    }
  }
}
