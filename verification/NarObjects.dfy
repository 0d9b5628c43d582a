/** Identities of archives and payload files, and the file names payloads are served under. */
module NarObjects {
  import opened NarFormat
  import opened Options
  import opened Text
  import NixBase32

  type Digest = d: bytes | |d| == NixBase32.DIGEST_BYTES witness Zeros(NixBase32.DIGEST_BYTES)

  datatype Codec = Zstd | Xz

  datatype WireEncoding = RawEncoding | CompressedWith(codec: Codec) {
    function Suffix(): string {
      match this
      case RawEncoding => ".nar"
      case CompressedWith(Zstd) => ".nar.zst"
      case CompressedWith(Xz) => ".nar.xz"
    }

    /** The value of the narinfo field `Compression`. */
    function Compression(): string {
      match this
      case RawEncoding => "none"
      case CompressedWith(Zstd) => "zstd"
      case CompressedWith(Xz) => "xz"
    }
  }

  datatype NarFileName = NarFileName(fileHash: Digest, encoding: WireEncoding) {
    function Display(): string {
      NixBase32.Encode(fileHash) + encoding.Suffix()
    }
  }

  function ParseHash(value: string): (r: Option<Digest>) {
    match NixBase32.Decode(value)
    case None => None
    case Some(d) => Some(d)
  }

  /** The first suffix that matches decides, whether or not a hash precedes it. */
  function ParseFileName(name: string): Option<NarFileName> {
    if EndsWith(name, ".nar.zst") then Named(name, CompressedWith(Zstd))
    else if EndsWith(name, ".nar.xz") then Named(name, CompressedWith(Xz))
    else if EndsWith(name, ".nar") then Named(name, RawEncoding)
    else None
  }

  function Named(name: string, encoding: WireEncoding): (r: Option<NarFileName>)
    requires EndsWith(name, encoding.Suffix())
  {
    var hash :- ParseHash(StripSuffix(name, encoding.Suffix()).value);
    Some(NarFileName(hash, encoding))
  }

  lemma LastOf(name: string, p: string)
    requires EndsWith(name, p) && p != []
    ensures name != [] && name[|name| - 1] == p[|p| - 1]
  {
    assert name[|name| - |p|..][|p| - 1] == name[|name| - 1];
  }

  lemma LastsDiffer(e: WireEncoding)
    ensures e.Suffix() != []
    ensures var last := e.Suffix()[|e.Suffix()| - 1];
            && (last == 't' <==> e == CompressedWith(Zstd))
            && (last == 'z' <==> e == CompressedWith(Xz))
  {
    match e
    case RawEncoding =>
    case CompressedWith(Zstd) =>
    case CompressedWith(Xz) =>
  }

  /** A name cannot end in two of the suffixes. */
  lemma SuffixesDiffer(name: string, e: WireEncoding, f: WireEncoding)
    requires EndsWith(name, e.Suffix()) && EndsWith(name, f.Suffix())
    ensures e == f
  {
    hide EndsWith;
    LastsDiffer(e);
    LastsDiffer(f);
    LastOf(name, e.Suffix());
    LastOf(name, f.Suffix());
  }

  lemma HashRoundTrip(d: Digest)
    ensures ParseHash(NixBase32.Encode(d)) == Some(d)
  {
    hide NixBase32.Encode, NixBase32.Decode;
    NixBase32.DecodeAfterEncode(d);
  }

  /** Every payload name is read back to what it was printed from. */
  lemma FileNameRoundTrip(f: NarFileName)
    ensures ParseFileName(f.Display()) == Some(f)
  {
    hide NixBase32.Encode, ParseHash, EndsWith;
    var hash := NixBase32.Encode(f.fileHash);
    SuffixStripped(hash, f.encoding.Suffix());
    forall e: WireEncoding | EndsWith(f.Display(), e.Suffix()) ensures e == f.encoding {
      SuffixesDiffer(f.Display(), e, f.encoding);
    }
    assert CompressedWith(Zstd).Suffix() == ".nar.zst" && CompressedWith(Xz).Suffix() == ".nar.xz";
    HashRoundTrip(f.fileHash);
  }

  /** And every accepted name is printed back as it was read. */
  lemma FileNameCanonical(name: string)
    requires ParseFileName(name).Some?
    ensures ParseFileName(name).value.Display() == name
  {
    hide NixBase32.Encode, NixBase32.Decode, EndsWith;
    var f := ParseFileName(name).value;
    NixBase32.EncodeAfterDecode(StripSuffix(name, f.encoding.Suffix()).value);
  }

  datatype Identity = Identity(hash: Digest, size: u64)

  /** The exact payload a narinfo document describes. */
  datatype Representation =
    | Raw(identity: Identity)
    | Compressed(codec: Codec, fileHash: Digest, fileSize: u64, decoded: Identity)
  {
    function Logical(): Identity {
      if Raw? then identity else decoded
    }

    function FileName(): NarFileName {
      if Raw? then NarFileName(identity.hash, RawEncoding) else NarFileName(fileHash, CompressedWith(codec))
    }

    function EncodedSize(): u64 {
      if Raw? then identity.size else fileSize
    }
  }

  /** Rebuild the representation from narinfo fields, checking what they must agree on. */
  function FromFields(name: NarFileName, fileHash: Digest, fileSize: u64,
                      identity: Identity): (r: Option<Representation>) {
    if name.fileHash != fileHash || identity.size == 0 then None
    else
      match name.encoding
      case RawEncoding =>
        if fileHash == identity.hash && fileSize == identity.size then Some(Raw(identity)) else None
      case CompressedWith(codec) => Some(Compressed(codec, fileHash, fileSize, identity))
  }

  lemma FieldsRoundTrip(r: Representation)
    ensures FromFields(r.FileName(), r.FileName().fileHash, r.EncodedSize(), r.Logical())
         == if r.Logical().size == 0 then None else Some(r)
  {
  }

  /** Fields describe a payload at most one way: the payload prints back to the same fields. */
  lemma FieldsSound(name: NarFileName, fileHash: Digest, fileSize: u64, identity: Identity)
    requires FromFields(name, fileHash, fileSize, identity).Some?
    ensures var r := FromFields(name, fileHash, fileSize, identity).value;
            r.FileName() == name && name.fileHash == fileHash && r.EncodedSize() == fileSize && r.Logical() == identity
  {
  }
}
