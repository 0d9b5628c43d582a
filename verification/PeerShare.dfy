/** Which local store paths are offered to peers, and with what documents. */
module PeerShare {
  import NarFormat
  import opened NarInfo
  import opened NarInfoMetadata
  import opened NarInfoParsing
  import opened NarInfoRoundTrip
  import opened NarObjects
  import opened Options
  import opened Sorting
  import opened StorePaths
  import opened Totals
  import Enc = NarEncoding
  import Fingerprints
  import NarCodec
  import Strings = Text

  const MAX_OFFERED_PATHS: nat := 100_000

  datatype LocalPath = LocalPath(
    path: string,
    narHash: Digest,
    narSize: NarFormat.u64,
    references: Option<seq<string>>)
  {
    predicate Valid() {
      ValidPath(path)
    }
  }

  /** The signing key is what it makes of a fingerprint. */
  datatype Settings = Settings(publishAll: bool, signingKey: Option<string -> string>) {
    ghost predicate SignsOnOneLine() {
      signingKey.Some? ==> forall f: string :: OneLine(signingKey.value(f))
    }
  }

  datatype Fetched = Reply(document: Option<string>) | FetchFailed(error: string)

  datatype Offer = Offered(document: string) | NotOffered | CannotSign(error: string)

  /** The document is read, under the path's hash, as describing that path with that archive hash. */
  predicate Describes(document: string, local: LocalPath)
    requires local.Valid()
  {
    var claims := ParseExternalClaims(StoreOf(local.path), document);
    claims.Some? && claims.value.path == local.path && claims.value.identity.hash == local.narHash
  }

  function SignedClaims(local: LocalPath, references: seq<string>): Option<Claims> {
    NewClaims(local.path, references, Identity(local.narHash, local.narSize))
  }

  function Signed(claims: Claims, sign: string -> string): Metadata
    requires claims.Valid()
  {
    Metadata(claims, None, None, [sign(Fingerprints.Fingerprint(claims))])
  }

  function SignedNarinfo(local: LocalPath, references: seq<string>, sign: string -> string): Offer {
    match SignedClaims(local, references)
    case None => CannotSign("peer share narinfo claims are invalid")
    case Some(claims) =>
      NewClaimsValid(local.path, references, Identity(local.narHash, local.narSize));
      match Serialize(Signed(claims, sign), Raw(claims.identity))
      case None => CannotSign("peer share narinfo is too large")
      case Some(document) => Offered(document)
  }

  function OfferNarinfo(local: LocalPath, upstream: Option<string>, settings: Settings): Offer
    requires local.Valid()
  {
    if upstream.Some? && Describes(upstream.value, local) then Offered(upstream.value)
    else if !settings.publishAll || settings.signingKey.None? || local.references.None? then NotOffered
    else SignedNarinfo(local, local.references.value, settings.signingKey.value)
  }

  /** A document made here has no field that base 64 is needed for. */
  function NoBase64(s: string): Option<nat> {
    None
  }

  lemma SignedValid(claims: Claims, sign: string -> string)
    requires claims.Valid()
    ensures Signed(claims, sign).Valid(NoBase64) && UsesAlphabet(NoBase64)
  {
    hide ValidPath, Fingerprints.Fingerprint;
  }

  lemma SignedParses(claims: Claims, sign: string -> string)
    requires claims.Valid() && OneLine(sign(Fingerprints.Fingerprint(claims)))
    requires Serialize(Signed(claims, sign), Raw(claims.identity)).Some?
    ensures ParseExternalClaims(claims.Store(), Serialize(Signed(claims, sign), Raw(claims.identity)).value)
         == if claims.identity.size == 0 then None else Some(claims)
  {
    hide Claims.Valid, ParseExternalClaims, Fingerprints.Fingerprint, UsesAlphabet;
    hide Print, Strings.ByteLength, OneLine, Metadata.Valid;
    SignedValid(claims, sign);
    ExternalClaims(Signed(claims, sign), Raw(claims.identity), NoBase64);
  }

  /** A document made here is read back, unless the path's archive is said to be empty. */
  lemma SignedDescribes(local: LocalPath, references: seq<string>, sign: string -> string)
    requires local.Valid() && (forall f: string :: OneLine(sign(f)))
    requires SignedNarinfo(local, references, sign).Offered?
    ensures Describes(SignedNarinfo(local, references, sign).document, local) <==> local.narSize != 0
  {
    hide Claims.Valid, ValidPath, Serialize, ParseExternalClaims, Fingerprints.Fingerprint, OneLine, Signed;
    NewClaimsValid(local.path, references, Identity(local.narHash, local.narSize));
    var claims := SignedClaims(local, references).value;
    SignedParses(claims, sign);
  }

  /** Every offered document is read as its path, exactly if it came from upstream or the archive is not empty. */
  lemma OfferDescribes(local: LocalPath, upstream: Option<string>, settings: Settings)
    requires local.Valid() && settings.SignsOnOneLine()
    requires OfferNarinfo(local, upstream, settings).Offered?
    ensures Describes(OfferNarinfo(local, upstream, settings).document, local)
       <==> (upstream.Some? && Describes(upstream.value, local)) || local.narSize != 0
  {
    hide Describes, SignedNarinfo, OneLine;
    if !(upstream.Some? && Describes(upstream.value, local)) {
      SignedDescribes(local, local.references.value, settings.signingKey.value);
    }
  }

  /* ---- when a path is offered ---- */

  /** What came from upstream is read under the path's hash as claims about that path and that archive hash. */
  ghost predicate Confirms(reply: Fetched, local: LocalPath)
    requires local.Valid()
  {
    && reply.Reply? && reply.document.Some?
    && exists claims: Claims ::
         && ParseExternalClaims(StoreOf(local.path), reply.document.value) == Some(claims)
         && claims.path == local.path && claims.identity.hash == local.narHash
  }

  /** The settings let a path without a document from upstream be signed here, and its references are known. */
  predicate SignedHere(local: LocalPath, settings: Settings) {
    settings.publishAll && settings.signingKey.Some? && local.references.Some?
  }

  /** What is signed for a path: its own claims, with the references sorted and given once. */
  function OwnClaims(local: LocalPath, references: seq<string>): Claims {
    Claims(local.path, SortDedup(references), Identity(local.narHash, local.narSize))
  }

  function OwnMetadata(local: LocalPath, references: seq<string>, sign: string -> string): (m: Metadata)
    requires local.Valid() && ValidPaths(references)
    ensures m.claims.Valid() && m.deriver.None? && m.claims.Store() == StoreOf(local.path)
  {
    NewClaimsValid(local.path, references, Identity(local.narHash, local.narSize));
    Metadata(OwnClaims(local, references), None, None, [sign(Fingerprints.Fingerprint(OwnClaims(local, references)))])
  }

  function OwnDocument(local: LocalPath, references: seq<string>, sign: string -> string): string
    requires local.Valid() && ValidPaths(references)
  {
    Print(OwnMetadata(local, references, sign), Raw(Identity(local.narHash, local.narSize)))
  }

  /** Signing fails exactly when a reference is not a store path or the text is longer than a mebibyte; and what is
      signed otherwise is the path's own claims, with the signature of their fingerprint. */
  lemma SignedExact(local: LocalPath, references: seq<string>, sign: string -> string)
    requires local.Valid()
    ensures SignedNarinfo(local, references, sign)
         == if !ValidPaths(references) then CannotSign("peer share narinfo claims are invalid")
            else if Strings.ByteLength(OwnDocument(local, references, sign)) > 1_048_576
            then CannotSign("peer share narinfo is too large")
            else Offered(OwnDocument(local, references, sign))
  {
    hide ValidPath, Print, Fingerprints.Fingerprint, Strings.ByteLength, SortDedup, Claims.Valid;
    if ValidPaths(references) { NewClaimsValid(local.path, references, Identity(local.narHash, local.narSize)); }
  }

  /** A signed document is parsed back to those claims and that signature, if the signature is well formed. */
  lemma SignedReadBack(local: LocalPath, references: seq<string>, sign: string -> string, base64: Base64)
    requires local.Valid() && local.narSize != 0 && UsesAlphabet(base64)
    requires ValidPaths(references) && SignedNarinfo(local, references, sign).Offered?
    requires WellFormedSignatures(OwnMetadata(local, references, sign).signatures, base64)
    ensures ParsePublication(StoreOf(local.path), SignedNarinfo(local, references, sign).document, base64)
         == Some((OwnMetadata(local, references, sign), Raw(Identity(local.narHash, local.narSize))))
  {
    hide ValidPath, ValidPaths, Print, Fingerprints.Fingerprint, Strings.ByteLength, SortDedup, Claims.Valid;
    hide SignedNarinfo, ParsePublication, UsesAlphabet, WellFormedSignatures;
    SignedExact(local, references, sign);
    RoundTrip(OwnMetadata(local, references, sign), Raw(Identity(local.narHash, local.narSize)), base64);
  }

  /** The document a path is offered with, if any: upstream's own where that confirms the path, and otherwise, where
      the settings allow it, one signed here. */
  ghost predicate Publishes(local: LocalPath, reply: Fetched, settings: Settings, document: string)
    requires local.Valid()
  {
    if Confirms(reply, local) then reply.document.value == document
    else reply.Reply? && SignedHere(local, settings)
         && SignedNarinfo(local, local.references.value, settings.signingKey.value) == Offered(document)
  }

  lemma ConfirmsDescribes(local: LocalPath, reply: Fetched)
    requires local.Valid() && reply.Reply?
    ensures Confirms(reply, local) <==> reply.document.Some? && Describes(reply.document.value, local)
  {
    hide ParseExternalClaims, ValidPath;
  }

  /** Exactly when a path is offered, kept back, or cannot be signed. */
  lemma OfferExact(local: LocalPath, reply: Fetched, settings: Settings)
    requires local.Valid() && reply.Reply?
    ensures var offer := OfferNarinfo(local, reply.document, settings);
            && (forall document :: offer == Offered(document) <==> Publishes(local, reply, settings, document))
            && (offer == NotOffered <==> !Confirms(reply, local) && !SignedHere(local, settings))
            && (offer.CannotSign? <==>
                  && !Confirms(reply, local) && SignedHere(local, settings)
                  && SignedNarinfo(local, local.references.value, settings.signingKey.value).CannotSign?)
  {
    ConfirmsDescribes(local, reply);
    SignedNever(local, settings);
    hide Confirms, Describes, SignedNarinfo, ValidPath;
  }

  lemma SignedNever(local: LocalPath, settings: Settings)
    requires local.Valid()
    ensures SignedHere(local, settings) ==>
              SignedNarinfo(local, local.references.value, settings.signingKey.value) != NotOffered
  {
    hide Serialize, ValidPath, Claims.Valid, Signed;
  }

  /** Without leave to publish, a path is offered exactly by upstream's own document, confirming it. */
  lemma KeptBack(local: LocalPath, reply: Fetched, settings: Settings, document: string)
    requires local.Valid() && reply.Reply? && !settings.publishAll
    ensures OfferNarinfo(local, reply.document, settings) == Offered(document) <==>
              reply.document == Some(document) && Confirms(reply, local)
  {
    hide ParseExternalClaims, OfferNarinfo, ValidPath;
    OfferExact(local, reply, settings);
  }

  /* ---- refreshing ---- */

  ghost predicate ValidLocals(locals: seq<LocalPath>) {
    forall i :: 0 <= i < |locals| ==> locals[i].Valid()
  }

  /** What the refresh makes of a listed path. */
  function OfferAt(locals: seq<LocalPath>, fetch: nat -> Fetched, settings: Settings, i: nat): Offer
    requires i < |locals| && locals[i].Valid()
  {
    match fetch(i)
    case FetchFailed(_) => NotOffered
    case Reply(document) => OfferNarinfo(locals[i], document, settings)
  }

  /** The documents of the first n paths by store hash, a later path replacing an earlier one. */
  ghost function Offers(locals: seq<LocalPath>, fetch: nat -> Fetched, settings: Settings, n: nat): map<string, string>
    requires n <= |locals| && ValidLocals(locals)
  {
    if n == 0 then map[]
    else
      var before := Offers(locals, fetch, settings, n - 1);
      match OfferAt(locals, fetch, settings, n - 1)
      case Offered(document) => before[StoreOf(locals[n - 1].path) := document]
      case NotOffered => before
      case CannotSign(_) => before
  }

  /** The bytes counted for the first n paths. */
  ghost function Counted(locals: seq<LocalPath>, fetch: nat -> Fetched, settings: Settings, n: nat): nat
    requires n <= |locals| && ValidLocals(locals)
  {
    if n == 0 then 0
    else
      Counted(locals, fetch, settings, n - 1) +
      match OfferAt(locals, fetch, settings, n - 1)
      case Offered(document) => Strings.ByteLength(document)
      case NotOffered => 0
      case CannotSign(_) => 0
  }

  /** There is room for the path at n after those before it. */
  ghost predicate Fits(locals: seq<LocalPath>, fetch: nat -> Fetched, settings: Settings, n: nat, byteLimit: nat)
    requires n < |locals| && ValidLocals(locals)
  {
    && |Offers(locals, fetch, settings, n)| < 100_000
    && Counted(locals, fetch, settings, n + 1) <= byteLimit
  }

  datatype Listing = Listed(locals: seq<LocalPath>) | ListingStopped | ListingFailed(error: string)

  datatype Refresh =
    | Complete(upstreamFailure: Option<string>, signingFailure: Option<string>, limitReached: bool)
    | Stopped
    | Failed(error: string)

  class ShareIndex {
    var offered: map<string, string>

    constructor ()
      ensures offered == map[]
    {
      offered := map[];
    }

    /** Replace the index by what was decided for every path in turn, or leave it as it was. */
    method RefreshFrom(listing: Listing, fetch: nat -> Fetched, stopping: nat -> bool, byteLimit: nat,
                       settings: Settings)
      returns (outcome: Refresh, ghost n: nat)
      requires listing.Listed? ==> ValidLocals(listing.locals)
      modifies this
      ensures !outcome.Complete? ==> offered == old(offered)
      ensures outcome.Failed? <==> listing.ListingFailed?
      ensures outcome.Stopped? <==> listing.ListingStopped? || (listing.Listed? && n < |listing.locals| && stopping(n))
      ensures listing.Listed? ==>
                n <= |listing.locals| && Considered(listing.locals, fetch, stopping, settings, byteLimit, n)
      ensures outcome.Complete? ==> offered == Offers(listing.locals, fetch, settings, n)
      ensures outcome.Complete? ==> IndexExact(offered, listing.locals, fetch, settings, n)
      ensures outcome.Complete? && !outcome.limitReached ==> n == |listing.locals|
      ensures outcome.Complete? && outcome.limitReached ==>
                n < |listing.locals| && !Fits(listing.locals, fetch, settings, n, byteLimit)
      ensures outcome.Complete? ==> FirstFetchFailure(outcome.upstreamFailure, fetch, n)
      ensures outcome.Complete? ==> FirstSigningFailure(outcome.signingFailure, listing.locals, fetch, settings, n)
    {
      hide Considered, Fits, Offers, ValidLocals, FirstFetchFailure, FirstSigningFailure, IndexExact;
      match listing
      case ListingFailed(error) => return Failed(error), 0;
      case ListingStopped => return Stopped, 0;
      case Listed(locals) =>
        var collected;
        outcome, collected, n := Decide(locals, fetch, stopping, byteLimit, settings);
        OffersExact(locals, fetch, settings, n);
        if outcome.Complete? { offered := collected; }
    }
  }

  /** The first n paths were looked at: nothing asked to stop, and each had room. */
  ghost predicate Considered(locals: seq<LocalPath>, fetch: nat -> Fetched, stopping: nat -> bool, settings: Settings,
                             byteLimit: nat, n: nat)
    requires n <= |locals| && ValidLocals(locals)
  {
    forall k: nat :: k < n ==> !stopping(k) && Fits(locals, fetch, settings, k, byteLimit)
  }

  /** What upstream's failure for a path is reported as. */
  function FetchFailure(fetch: nat -> Fetched, k: nat): Option<string> {
    match fetch(k)
    case FetchFailed(error) => Some(error)
    case Reply(_) => None
  }

  function SigningFailure(locals: seq<LocalPath>, fetch: nat -> Fetched, settings: Settings, k: nat): Option<string>
    requires k < |locals| && locals[k].Valid()
  {
    match OfferAt(locals, fetch, settings, k)
    case CannotSign(error) => Some(error)
    case Offered(_) => None
    case NotOffered => None
  }

  /** Of the first n paths, the first one for which fetching failed, if any. */
  ghost predicate FirstFetchFailure(r: Option<string>, fetch: nat -> Fetched, n: nat) {
    && (r.None? <==> forall k: nat :: k < n ==> FetchFailure(fetch, k).None?)
    && (r.Some? ==> exists k: nat :: k < n && FetchFailure(fetch, k) == r
                      && forall j: nat :: j < k ==> FetchFailure(fetch, j).None?)
  }

  /** Of the first n paths, the first one for which no document could be built, if any. */
  ghost predicate FirstSigningFailure(r: Option<string>, locals: seq<LocalPath>, fetch: nat -> Fetched,
                                      settings: Settings, n: nat)
    requires n <= |locals| && ValidLocals(locals)
  {
    && (r.None? <==> forall k: nat :: k < n ==> SigningFailure(locals, fetch, settings, k).None?)
    && (r.Some? ==> exists k: nat :: k < n && SigningFailure(locals, fetch, settings, k) == r
                      && forall j: nat :: j < k ==> SigningFailure(locals, fetch, settings, j).None?)
  }

  lemma NextFetchFailure(r: Option<string>, fetch: nat -> Fetched, n: nat)
    requires FirstFetchFailure(r, fetch, n)
    ensures FirstFetchFailure(if r.Some? then r else FetchFailure(fetch, n), fetch, n + 1)
  {
    hide FetchFailure;
  }

  lemma NextSigningFailure(r: Option<string>, locals: seq<LocalPath>, fetch: nat -> Fetched, settings: Settings, n: nat)
    requires n < |locals| && ValidLocals(locals) && FirstSigningFailure(r, locals, fetch, settings, n)
    ensures FirstSigningFailure(if r.Some? then r else SigningFailure(locals, fetch, settings, n),
                                locals, fetch, settings, n + 1)
  {
    hide SigningFailure, ValidPath;
  }

  lemma OneMore(locals: seq<LocalPath>, fetch: nat -> Fetched, settings: Settings, i: nat)
    requires i < |locals| && ValidLocals(locals)
    ensures var offer := OfferAt(locals, fetch, settings, i);
            && Offers(locals, fetch, settings, i + 1)
               == (if offer.Offered? then Offers(locals, fetch, settings, i)[StoreOf(locals[i].path) := offer.document]
                   else Offers(locals, fetch, settings, i))
            && Counted(locals, fetch, settings, i + 1)
               == Counted(locals, fetch, settings, i)
                  + (if offer.Offered? then Strings.ByteLength(offer.document) else 0)
  {
    hide OfferAt, ValidPath;
  }

  method Decide(locals: seq<LocalPath>, fetch: nat -> Fetched, stopping: nat -> bool, byteLimit: nat,
                settings: Settings)
    returns (outcome: Refresh, collected: map<string, string>, ghost n: nat)
    requires ValidLocals(locals)
    ensures n <= |locals| && Considered(locals, fetch, stopping, settings, byteLimit, n)
    ensures !outcome.Failed? && collected == Offers(locals, fetch, settings, n)
    ensures outcome.Stopped? <==> n < |locals| && stopping(n)
    ensures outcome.Complete? && !outcome.limitReached ==> n == |locals|
    ensures outcome.Complete? && outcome.limitReached ==> n < |locals| && !Fits(locals, fetch, settings, n, byteLimit)
    ensures outcome.Complete? ==> FirstFetchFailure(outcome.upstreamFailure, fetch, n)
    ensures outcome.Complete? ==> FirstSigningFailure(outcome.signingFailure, locals, fetch, settings, n)
  {
    hide OfferNarinfo, ValidPath, Offers, Counted, Strings.ByteLength;
    collected := map[];
    var bytes := 0;
    var upstreamFailure, signingFailure := None, None;
    var i: nat := 0;
    NoneYet(locals, fetch, settings);
    assert FirstFetchFailure(upstreamFailure, fetch, 0);
    assert FirstSigningFailure(signingFailure, locals, fetch, settings, 0);
    hide FirstFetchFailure, FirstSigningFailure;
    while i < |locals|
      invariant i <= |locals|
      invariant collected == Offers(locals, fetch, settings, i) && bytes == Counted(locals, fetch, settings, i)
      invariant bytes <= byteLimit
      invariant Considered(locals, fetch, stopping, settings, byteLimit, i)
      invariant FirstFetchFailure(upstreamFailure, fetch, i)
      invariant FirstSigningFailure(signingFailure, locals, fetch, settings, i)
    {
      n := i;
      NextFetchFailure(upstreamFailure, fetch, i);
      NextSigningFailure(signingFailure, locals, fetch, settings, i);
      OneMore(locals, fetch, settings, i);
      if stopping(i) { return Stopped, collected, i; }
      if |collected| >= MAX_OFFERED_PATHS {
        return Complete(upstreamFailure, signingFailure, true), collected, i;
      }
      match fetch(i) {
        case FetchFailed(error) =>
          if upstreamFailure.None? { upstreamFailure := Some(error); }
        case Reply(document) =>
          match OfferNarinfo(locals[i], document, settings) {
            case NotOffered =>
            case CannotSign(error) =>
              if signingFailure.None? { signingFailure := Some(error); }
            case Offered(narinfo) =>
              if bytes + Strings.ByteLength(narinfo) > byteLimit {
                return Complete(upstreamFailure, signingFailure, true), collected, i;
              }
              bytes := bytes + Strings.ByteLength(narinfo);
              collected := collected[StoreOf(locals[i].path) := narinfo];
          }
      }
      i := i + 1;
    }
    return Complete(upstreamFailure, signingFailure, false), collected, i;
  }

  lemma NoneYet(locals: seq<LocalPath>, fetch: nat -> Fetched, settings: Settings)
    requires ValidLocals(locals)
    ensures Offers(locals, fetch, settings, 0) == map[] && Counted(locals, fetch, settings, 0) == 0
  {
  }

  /* ---- what a completed refresh offers ---- */

  ghost function Sizes(documents: map<string, string>): map<string, nat> {
    map key | key in documents :: Strings.ByteLength(documents[key])
  }

  lemma SizesUpdate(documents: map<string, string>, key: string, document: string)
    ensures Sizes(documents[key := document]) == Sizes(documents)[key := Strings.ByteLength(document)]
  {
    hide Strings.ByteLength;
  }

  lemma NoSizes()
    ensures Total(Sizes(map[])) == 0
  {
    assert Sizes(map[]) == map[];
  }

  lemma {:induction false} TotalCounted(locals: seq<LocalPath>, fetch: nat -> Fetched, settings: Settings, n: nat)
    requires n <= |locals| && ValidLocals(locals)
    ensures Total(Sizes(Offers(locals, fetch, settings, n))) <= Counted(locals, fetch, settings, n)
    decreases n
  {
    hide Strings.ByteLength, Total, OfferAt, ValidPath, Offers, Counted;
    if n == 0 {
      NoneYet(locals, fetch, settings);
      NoSizes();
    } else {
      TotalCounted(locals, fetch, settings, n - 1);
      OneMore(locals, fetch, settings, n - 1);
      var offer := OfferAt(locals, fetch, settings, n - 1);
      if offer.Offered? {
        var before, key := Offers(locals, fetch, settings, n - 1), StoreOf(locals[n - 1].path);
        SizesUpdate(before, key, offer.document);
        TotalUpdate(Sizes(before), key, Strings.ByteLength(offer.document));
      }
    }
  }

  /** Both budgets hold of the index, even when two paths share a store hash. */
  lemma BudgetsHold(locals: seq<LocalPath>, fetch: nat -> Fetched, stopping: nat -> bool, settings: Settings,
                    byteLimit: nat, n: nat)
    requires n <= |locals| && ValidLocals(locals) && Considered(locals, fetch, stopping, settings, byteLimit, n)
    ensures |Offers(locals, fetch, settings, n)| <= 100_000
    ensures Total(Sizes(Offers(locals, fetch, settings, n))) <= byteLimit
  {
    TotalCounted(locals, fetch, settings, n);
    NoneYet(locals, fetch, settings);
    hide Strings.ByteLength, Total, OfferAt, ValidPath, Offers, Counted;
    if n > 0 {
      assert Fits(locals, fetch, settings, n - 1, byteLimit);
      OneMore(locals, fetch, settings, n - 1);
    }
  }

  lemma OfferedBy(locals: seq<LocalPath>, fetch: nat -> Fetched, settings: Settings, n: nat,
                  hash: string) returns (i: nat)
    requires n <= |locals| && ValidLocals(locals) && hash in Offers(locals, fetch, settings, n)
    ensures i < n && StoreOf(locals[i].path) == hash
    ensures OfferAt(locals, fetch, settings, i) == Offered(Offers(locals, fetch, settings, n)[hash])
    decreases n
  {
    hide OfferAt, ValidPath, StoreOf, Offers, Counted, Strings.ByteLength;
    NoneYet(locals, fetch, settings);
    OneMore(locals, fetch, settings, n - 1);
    var offer := OfferAt(locals, fetch, settings, n - 1);
    if offer.Offered? && StoreOf(locals[n - 1].path) == hash {
      i := n - 1;
    } else {
      i := OfferedBy(locals, fetch, settings, n - 1, hash);
    }
  }

  /** Of the first n paths with this store hash, the path at i is the last that is offered, and with this document. */
  ghost predicate LastPublished(locals: seq<LocalPath>, fetch: nat -> Fetched, settings: Settings, n: nat, i: nat,
                                hash: string, document: string)
    requires n <= |locals| && ValidLocals(locals)
  {
    && i < n && StoreOf(locals[i].path) == hash && Publishes(locals[i], fetch(i), settings, document)
    && forall k: nat, d :: i < k < n && StoreOf(locals[k].path) == hash ==> !Publishes(locals[k], fetch(k), settings, d)
  }

  /** The index has the store hashes of the offered paths, each with the document of the last such path. */
  ghost predicate IndexExact(index: map<string, string>, locals: seq<LocalPath>, fetch: nat -> Fetched,
                             settings: Settings, n: nat)
    requires n <= |locals| && ValidLocals(locals)
  {
    && (forall hash :: hash in index ==>
          exists i: nat :: LastPublished(locals, fetch, settings, n, i, hash, index[hash]))
    && (forall i: nat, d :: i < n && Publishes(locals[i], fetch(i), settings, d) ==> StoreOf(locals[i].path) in index)
  }

  lemma OfferAtExact(locals: seq<LocalPath>, fetch: nat -> Fetched, settings: Settings, i: nat)
    requires i < |locals| && ValidLocals(locals)
    ensures forall d ::
              OfferAt(locals, fetch, settings, i) == Offered(d) <==> Publishes(locals[i], fetch(i), settings, d)
  {
    hide OfferNarinfo, ValidPath;
    if fetch(i).Reply? { OfferExact(locals[i], fetch(i), settings); }
  }

  lemma IndexGrows(locals: seq<LocalPath>, fetch: nat -> Fetched, settings: Settings, n: nat,
                   before: map<string, string>)
    requires n < |locals| && ValidLocals(locals) && IndexExact(before, locals, fetch, settings, n)
    ensures var offer := OfferAt(locals, fetch, settings, n);
            var index := if offer.Offered? then before[StoreOf(locals[n].path) := offer.document] else before;
            IndexExact(index, locals, fetch, settings, n + 1)
  {
    hide OfferAt, ValidPath, Publishes, StoreOf;
    var m := n + 1;
    OfferAtExact(locals, fetch, settings, n);
    var offer := OfferAt(locals, fetch, settings, n);
    var key := StoreOf(locals[n].path);
    var index := if offer.Offered? then before[key := offer.document] else before;
    forall hash | hash in index
      ensures exists i: nat :: LastPublished(locals, fetch, settings, m, i, hash, index[hash])
    {
      if offer.Offered? && hash == key {
        assert LastPublished(locals, fetch, settings, m, n, hash, index[hash]);
      } else {
        var i: nat :| LastPublished(locals, fetch, settings, n, i, hash, before[hash]);
        assert LastPublished(locals, fetch, settings, m, i, hash, index[hash]);
      }
    }
  }

  lemma NoIndex(locals: seq<LocalPath>, fetch: nat -> Fetched, settings: Settings)
    requires ValidLocals(locals)
    ensures IndexExact(map[], locals, fetch, settings, 0)
  {
  }

  lemma {:induction false} OffersExact(locals: seq<LocalPath>, fetch: nat -> Fetched, settings: Settings, n: nat)
    requires n <= |locals| && ValidLocals(locals)
    ensures IndexExact(Offers(locals, fetch, settings, n), locals, fetch, settings, n)
    decreases n
  {
    hide OfferAt, ValidPath, Offers, Counted, Strings.ByteLength, IndexExact;
    if n == 0 {
      NoneYet(locals, fetch, settings);
      NoIndex(locals, fetch, settings);
    } else {
      OffersExact(locals, fetch, settings, n - 1);
      OneMore(locals, fetch, settings, n - 1);
      IndexGrows(locals, fetch, settings, n - 1, Offers(locals, fetch, settings, n - 1));
    }
  }

  /** A listed path is hashed by encoding what is found there: it takes the size and the digest of the output. */
  ghost predicate Hashed(local: LocalPath, sha256: NarFormat.bytes -> Digest) {
    exists limits, events :: Enc.Encode(limits, events).Done? && Measures(local, sha256, Enc.Encode(limits, events).st)
  }

  predicate Measures(local: LocalPath, sha256: NarFormat.bytes -> Digest, s: Enc.State)
    requires s.root.Complete?
  {
    var summary := NarCodec.EncodeSummary(s);
    local.narHash == sha256(summary.hashed) && local.narSize == summary.rawSize
  }

  /** So it has the size and the digest of the archive of some tree, and no archive is empty. */
  lemma HashedTree(local: LocalPath, sha256: NarFormat.bytes -> Digest) returns (t: NarFormat.Node)
    requires Hashed(local, sha256)
    ensures local.narHash == sha256(NarFormat.Archive(t)) && local.narSize == |NarFormat.Archive(t)| > 24
  {
    hide Enc.Encode, NarFormat.Archive, NarCodec.Spells;
    var limits, events :| Enc.Encode(limits, events).Done? && Measures(local, sha256, Enc.Encode(limits, events).st);
    NarCodec.EncodeExact(limits, events);
    t :| NarCodec.Spells(events, t, limits);
    ArchiveSize(t);
  }

  lemma ArchiveSize(t: NarFormat.Node)
    ensures |NarFormat.Archive(t)| > 24
  {
  }

  /** Every document of the index is read, under its key, as a listed path, and names the digest of the archive
      of the tree found there. */
  lemma OfferedDocuments(locals: seq<LocalPath>, fetch: nat -> Fetched, settings: Settings, n: nat, hash: string,
                         sha256: NarFormat.bytes -> Digest)
    returns (i: nat, t: NarFormat.Node)
    requires n <= |locals| && ValidLocals(locals) && settings.SignsOnOneLine()
    requires forall k :: 0 <= k < |locals| ==> Hashed(locals[k], sha256)
    requires hash in Offers(locals, fetch, settings, n)
    ensures i < n && StoreOf(locals[i].path) == hash && Describes(Offers(locals, fetch, settings, n)[hash], locals[i])
    ensures locals[i].narHash == sha256(NarFormat.Archive(t)) && locals[i].narSize == |NarFormat.Archive(t)|
  {
    hide ValidPath, Offers, OfferNarinfo, Describes, Hashed, NarFormat.Archive;
    i := OfferedBy(locals, fetch, settings, n, hash);
    t := HashedTree(locals[i], sha256);
    OfferDescribes(locals[i], fetch(i).document, settings);
  }
}
