/** Printing narinfo metadata through a writer of bounded size, and parsing it. */
module NarInfoMetadata {
  import opened NarInfo
  import opened NarInfoDocument
  import opened NarObjects
  import opened Options
  import opened Text
  import NixBase32

  datatype Metadata = Metadata(
    claims: Claims,
    deriver: Option<DeriverValue>,
    contentAddress: Option<string>,
    signatures: seq<string>)
  {
    predicate Valid(base64: Base64) {
      && claims.Valid()
      && (deriver.Some? ==> deriver.value.Valid())
      && (contentAddress.Some? ==> ValidContentAddress(contentAddress.value, base64))
    }
  }

  /* ---- printing ---- */

  function Header(claims: Claims, payload: Representation): (entries: seq<Entry>)
    requires claims.Valid()
    ensures |entries| == 8
  {
    var file := payload.FileName();
    [ Entry(Unique(StorePath), claims.path),
      Entry(Unique(Url), "nar/" + file.Display()),
      Entry(Unique(Compression), file.encoding.Compression()),
      Entry(Unique(FileHash), "sha256:" + NixBase32.Encode(file.fileHash)),
      Entry(Unique(FileSize), Decimal(payload.EncodedSize())),
      Entry(Unique(NarHash), "sha256:" + NixBase32.Encode(claims.identity.hash)),
      Entry(Unique(NarSize), Decimal(claims.identity.size)),
      Entry(Unique(References), ReferencesField(claims.references)) ]
  }

  function SignatureEntries(signatures: seq<string>): (entries: seq<Entry>)
    ensures |entries| == |signatures|
    ensures forall i :: 0 <= i < |entries| ==> entries[i] == Entry(Signature, signatures[i])
  {
    seq(|signatures|, i requires 0 <= i < |signatures| => Entry(Signature, signatures[i]))
  }

  function DeriverEntries(deriver: Option<DeriverValue>): seq<Entry>
    requires deriver.Some? ==> deriver.value.Valid()
  {
    if deriver.None? then [] else [Entry(Unique(Deriver), deriver.value.Value())]
  }

  function AddressEntries(address: Option<string>): seq<Entry> {
    if address.None? then [] else [Entry(Unique(ContentAddress), address.value)]
  }

  function MetadataEntries(m: Metadata, payload: Representation): (entries: seq<Entry>)
    requires m.claims.Valid() && (m.deriver.Some? ==> m.deriver.value.Valid())
    ensures |entries| >= 8
  {
    Header(m.claims, payload) + SignatureEntries(m.signatures)
    + DeriverEntries(m.deriver) + AddressEntries(m.contentAddress)
  }

  function EntryText(entries: seq<Entry>): string {
    Lines(EntryLines(entries))
  }

  function Print(m: Metadata, payload: Representation): string
    requires m.claims.Valid() && (m.deriver.Some? ==> m.deriver.value.Valid())
  {
    EntryText(MetadataEntries(m, payload))
  }

  function Serialize(m: Metadata, payload: Representation): Option<string>
    requires m.claims.Valid() && (m.deriver.Some? ==> m.deriver.value.Valid())
  {
    if payload.Logical() != m.claims.identity || ByteLength(Print(m, payload)) > MAX_NARINFO_BYTES
    then None else Some(Print(m, payload))
  }

  /** Text held below a byte limit: a write that would pass the limit is refused whole. */
  class BoundedWriter {
    var text: string

    ghost predicate Valid()
      reads this
    {
      ByteLength(text) <= MAX_NARINFO_BYTES
    }

    constructor ()
      ensures Valid() && text == ""
    {
      text := "";
    }

    method Write(piece: string) returns (ok: bool)
      requires Valid()
      modifies this
      ensures Valid()
      ensures ok <==> ByteLength(old(text) + piece) <= MAX_NARINFO_BYTES
      ensures text == if ok then old(text) + piece else old(text)
    {
      ByteLengthConcat(text, piece);
      ok := ByteLength(text) + ByteLength(piece) <= MAX_NARINFO_BYTES;
      if ok { text := text + piece; }
    }

    method WriteLine(entry: Entry) returns (ok: bool)
      requires Valid()
      modifies this
      ensures Valid()
      ensures ok <==> ByteLength(old(text) + Lines([entry.Line()])) <= MAX_NARINFO_BYTES
      ensures ok ==> text == old(text) + Lines([entry.Line()])
    {
      var line := entry.Line() + ['\n'];
      assert [entry.Line()][1..] == [];
      assert line == Lines([entry.Line()]);
      ok := Write(line);
    }
  }

  /** Once a part of a text passes the limit, the whole does. */
  lemma PassedLimit(part: string, rest: string)
    requires ByteLength(part) > MAX_NARINFO_BYTES
    ensures ByteLength(part + rest) > MAX_NARINFO_BYTES
  {
    ByteLengthConcat(part, rest);
  }

  lemma EntryTextConcat(a: seq<Entry>, b: seq<Entry>)
    ensures EntryText(a + b) == EntryText(a) + EntryText(b)
  {
    hide Entry.Line, Lines;
    assert EntryLines(a + b) == EntryLines(a) + EntryLines(b);
    LinesConcat(EntryLines(a), EntryLines(b));
  }

  lemma EntryTextOne(e: Entry)
    ensures EntryText([e]) == Lines([e.Line()])
  {
    assert EntryLines([e]) == [e.Line()];
  }

  /** A refused line: no text continuing it fits either. */
  lemma Refused(before: seq<Entry>, e: Entry, after: seq<Entry>)
    requires ByteLength(EntryText(before) + Lines([e.Line()])) > MAX_NARINFO_BYTES
    ensures ByteLength(EntryText(before + [e] + after)) > MAX_NARINFO_BYTES
  {
    hide Entry.Line;
    EntryTextConcat(before + [e], after);
    EntryTextConcat(before, [e]);
    EntryTextOne(e);
    PassedLimit(EntryText(before) + Lines([e.Line()]), EntryText(after));
  }

  lemma Accepted(before: seq<Entry>, e: Entry)
    ensures EntryText(before + [e]) == EntryText(before) + Lines([e.Line()])
  {
    EntryTextConcat(before, [e]);
    EntryTextOne(e);
  }

  lemma SignatureEntriesNext(s: seq<string>, k: nat)
    requires k < |s|
    ensures SignatureEntries(s) == SignatureEntries(s[..k]) + [Entry(Signature, s[k])] + SignatureEntries(s[k + 1..])
    ensures SignatureEntries(s[..k + 1]) == SignatureEntries(s[..k]) + [Entry(Signature, s[k])]
  {
  }

  lemma Regroup(header: seq<Entry>, a: seq<Entry>, e: Entry, b: seq<Entry>, after: seq<Entry>)
    ensures header + (a + [e] + b) + after == (header + a) + [e] + (b + after)
    ensures header + (a + [e]) == (header + a) + [e]
  {
  }

  method WriteSignatures(signatures: seq<string>, output: BoundedWriter, ghost header: seq<Entry>,
                         ghost after: seq<Entry>)
    returns (ok: bool)
    requires output.Valid() && output.text == EntryText(header)
    modifies output
    ensures output.Valid()
    ensures ok ==> output.text == EntryText(header + SignatureEntries(signatures))
    ensures !ok ==> ByteLength(EntryText(header + SignatureEntries(signatures) + after)) > MAX_NARINFO_BYTES
  {
    hide EntryText, ByteLength, Entry.Line, SignatureEntries;
    var i := 0;
    assert header + SignatureEntries(signatures[..0]) == header;
    while i < |signatures|
      invariant 0 <= i <= |signatures|
      invariant output.Valid()
      invariant output.text == EntryText(header + SignatureEntries(signatures[..i]))
    {
      ghost var before := SignatureEntries(signatures[..i]);
      ghost var behind := SignatureEntries(signatures[i + 1..]);
      var e := Entry(Signature, signatures[i]);
      SignatureEntriesNext(signatures, i);
      Regroup(header, before, e, behind, after);
      ok := output.WriteLine(e);
      if !ok {
        Refused(header + before, e, behind + after);
        return false;
      }
      Accepted(header + before, e);
      i := i + 1;
    }
    assert signatures[..i] == signatures;
    return true;
  }

  /** Print line by line into a bounded writer. */
  method SerializeMetadata(m: Metadata, payload: Representation) returns (r: Option<string>)
    requires m.claims.Valid() && (m.deriver.Some? ==> m.deriver.value.Valid())
    ensures r == Serialize(m, payload)
  {
    hide Claims.Valid, DeriverValue.Valid, Header, DeriverEntries;
    hide AddressEntries, EntryText, ByteLength, SignatureEntries;
    if payload.Logical() != m.claims.identity { return None; }
    ghost var header, signatures := Header(m.claims, payload), SignatureEntries(m.signatures);
    ghost var derivers, addresses := DeriverEntries(m.deriver), AddressEntries(m.contentAddress);
    Regrouped(header, signatures, derivers, addresses);
    var output := new BoundedWriter();
    var ok := output.Write(EntryText(Header(m.claims, payload)));
    assert "" + EntryText(header) == EntryText(header);
    if !ok {
      EntryTextConcat(header, signatures + derivers + addresses);
      PassedLimit(EntryText(header), EntryText(signatures + derivers + addresses));
      return None;
    }
    ok := WriteSignatures(m.signatures, output, header, derivers + addresses);
    if !ok { return None; }
    r := FinishMetadata(m, output, header + signatures);
  }

  lemma Regrouped(a: seq<Entry>, b: seq<Entry>, c: seq<Entry>, d: seq<Entry>)
    ensures a + b + c + d == a + (b + c + d) == (a + b) + (c + d)
  {
  }

  /** The optional lines at the end. */
  method FinishMetadata(m: Metadata, output: BoundedWriter, ghost signed: seq<Entry>) returns (r: Option<string>)
    requires output.Valid() && output.text == EntryText(signed)
    requires m.deriver.Some? ==> m.deriver.value.Valid()
    modifies output
    ensures var all := EntryText(signed + DeriverEntries(m.deriver) + AddressEntries(m.contentAddress));
            r == if ByteLength(all) > MAX_NARINFO_BYTES then None else Some(all)
  {
    hide DeriverValue.Valid, EntryText, ByteLength, Entry.Line, DeriverValue.Value;
    ghost var derived := signed + DeriverEntries(m.deriver);
    if m.deriver.Some? {
      var e := Entry(Unique(Deriver), m.deriver.value.Value());
      var ok := output.WriteLine(e);
      if !ok {
        Refused(signed, e, AddressEntries(m.contentAddress));
        return None;
      }
      Accepted(signed, e);
    }
    assert m.deriver.None? ==> derived == signed;
    if m.contentAddress.Some? {
      var e := Entry(Unique(ContentAddress), m.contentAddress.value);
      var ok := output.WriteLine(e);
      if !ok {
        Refused(derived, e, []);
        assert derived + [e] + [] == derived + AddressEntries(m.contentAddress);
        return None;
      }
      Accepted(derived, e);
    }
    assert m.contentAddress.None? ==> derived + AddressEntries(m.contentAddress) == derived;
    return Some(output.text);
  }
}
