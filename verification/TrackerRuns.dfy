/** What every run of tracker requests keeps. */
module TrackerRuns {
  import opened Json
  import opened Options
  import opened Tracker
  import opened TrackerBodies
  import Strings = Text

  /* ---- bounded tables ---- */

  lemma RoomKept<T>(table: map<string, T>, key: string, row: T)
    requires |table| <= MAX_TRACKED_ROWS && Room(table, key)
    ensures |table[key := row]| <= MAX_TRACKED_ROWS
  {
  }

  lemma LearnBounded(s: State, hash: string, reply: Option<Value>, now: Time)
    requires s.Bounded()
    ensures LearnProviders(s, hash, reply, now).Bounded()
  {
    if reply.Some? && Listed(reply.value, "providers").Some? && Room(s.learnedProviders, hash) {
      RoomKept(s.learnedProviders, hash, ProviderList(Listed(reply.value, "providers").value, now));
    }
  }

  lemma RefreshBounded(s: State, peers: Option<Value>, iroh: Option<Value>, now: Time)
    requires s.Bounded()
    ensures Refresh(s, peers, iroh, now).0.Bounded()
  {
    hide PeerTable, IrohTable;
  }

  lemma AnnounceBounded(s: State, id: string, row: PeerRow, packages: seq<string>)
    requires s.Bounded()
    ensures RecordAnnounce(s, id, row, packages).0.Bounded()
  {
  }

  lemma StepBounded(s: State, r: Request)
    requires s.Bounded()
    ensures Handle(s, r).0.Bounded()
  {
    hide ReadAnnounce, ReadIroh, ReadBatch, ReadDelta, Refresh, LearnProviders, RecordAnnounce, PackagesOf;
    match r
    case Announce(body, addr, now) =>
      if ReadAnnounce(body, addr, now).Good? {
        var a := ReadAnnounce(body, addr, now).value;
        AnnounceBounded(s, a.id, a.row, a.packages);
      }
    case AnnounceIroh(body, addr, now) =>
    case Batch(body) =>
    case Delta(body) =>
    case Upstream(peers, iroh, now) => RefreshBounded(s, peers, iroh, now);
    case Find(hash, found, now) => LearnBounded(s, hash, found, now);
  }

  /** No sequence of requests takes a table past its bound. */
  lemma {:induction false} RunBounded(s: State, requests: seq<Request>)
    requires s.Bounded()
    ensures Run(s, requests).Bounded()
    decreases |requests|
  {
    hide Handle, State.Bounded;
    if requests != [] {
      StepBounded(s, requests[0]);
      RunBounded(Handle(s, requests[0]).0, requests[1..]);
    }
  }

  lemma ReachableBounded(requests: seq<Request>)
    ensures Run(EMPTY, requests).Bounded()
  {
    RunBounded(EMPTY, requests);
  }

  /* ---- refusals ---- */

  /** Every reply that can be read gives the table already held. */
  predicate NothingNew(s: State, peers: Option<Value>, iroh: Option<Value>, now: Time) {
    && (Readable(peers).Some? ==> PeerTable(Readable(peers).value, now) == s.learnedPeers)
    && (Readable(iroh).Some? ==> IrohTable(Readable(iroh).value, now) == s.learnedIroh)
  }

  /** A refresh leaves the state unchanged if and only if its readable replies bring nothing new, succeeds if and
      only if both can be read, and never touches an announced row or a provider. */
  lemma RefreshExact(s: State, peers: Option<Value>, iroh: Option<Value>, now: Time)
    ensures var (s', reply) := Refresh(s, peers, iroh, now);
            && (s' == s <==> NothingNew(s, peers, iroh, now))
            && (reply.Accepted? <==> Readable(peers).Some? && Readable(iroh).Some?)
            && s'.learnedPeers
               == (if Readable(peers).Some? then PeerTable(Readable(peers).value, now) else s.learnedPeers)
            && s'.learnedIroh
               == (if Readable(iroh).Some? then IrohTable(Readable(iroh).value, now) else s.learnedIroh)
            && s'.localPeers == s.localPeers && s'.localPackages == s.localPackages
            && s'.localIroh == s.localIroh && s'.learnedProviders == s.learnedProviders
  {
    hide PeerTable, IrohTable, Listed;
  }

  /** A refused request leaves the state unchanged, if and only if it is not a refresh that read something new. */
  lemma RefusedUnchanged(s: State, r: Request)
    requires Handle(s, r).1.Refused?
    ensures Handle(s, r).0 == s <==> (r.Upstream? ==> NothingNew(s, r.peers, r.iroh, r.now))
  {
    hide ReadAnnounce, ReadIroh, ReadBatch, ReadDelta, LearnProviders, Refresh, NothingNew;
    if r.Upstream? { RefreshExact(s, r.peers, r.iroh, r.now); }
  }

  /** A refresh that reads the peers and not the nodes is refused and has replaced the learned peers. */
  lemma RefusedRefreshChanges(now: Time)
    ensures var peer := Object(map["peer_id" := Text("p"), "addr" := Text("a"), "port" := Natural(80)]);
            var (s, reply) := Handle(EMPTY, Upstream(Some(Object(map["peers" := Array([peer])])), None, now));
            && reply.Refused? && s.learnedPeers == map["p" := PeerRow("a", 80, now, None)] && s != EMPTY
  {
    var peer := Object(map["peer_id" := Text("p"), "addr" := Text("a"), "port" := Natural(80)]);
    assert Strings.ByteLength("p") == 1 && Strings.ByteLength("a") == 1 by {
      assert "p"[..0] == [] && "a"[..0] == [];
    }
    assert LearnedPeer(peer, now) == Some(ProviderRow("p", PeerRow("a", 80, now, None)));
    assert [peer][..0] == [];
    assert PeerTable([peer], now) == map["p" := PeerRow("a", 80, now, None)];
  }

  /* ---- package sets ---- */

  datatype Edit = Replace(hashes: set<string>) | Amend(added: set<string>, removed: set<string>)

  function Apply(old': Option<set<string>>, e: Edit): set<string> {
    match e
    case Replace(hashes) => hashes
    case Amend(added, removed) => (if old'.None? then {} else old'.value) - removed + added
  }

  /** The change to one peer's package set that a request's body asks for. */
  function EditOf(r: Request): Option<(string, Edit)> {
    match r
    case Announce(body, _, _) =>
      if NamedHashes(body, "packages") == {} then None
      else Some((TextAt(body, "peer_id"), Replace(NamedHashes(body, "packages"))))
    case Batch(body) => Some((TextAt(body, "peer_id"), Replace(NamedHashes(body, "hashes"))))
    case Delta(body) =>
      Some((TextAt(body, "peer_id"), Amend(NamedHashes(body, "added"), NamedHashes(body, "removed"))))
    case AnnounceIroh(_, _, _) => None
    case Upstream(_, _, _) => None
    case Find(_, _, _) => None
  }

  /** The accepted edits of one peer's packages, in the order they were accepted. */
  function AcceptedEdits(s: State, requests: seq<Request>, id: string): seq<Edit>
    decreases |requests|
  {
    if requests == [] then []
    else
      var (next, reply) := Handle(s, requests[0]);
      var rest := AcceptedEdits(next, requests[1..], id);
      var edit := EditOf(requests[0]);
      if reply.Accepted? && edit.Some? && edit.value.0 == id then [edit.value.1] + rest else rest
  }

  function ApplyAll(start: Option<set<string>>, edits: seq<Edit>): Option<set<string>>
    decreases |edits|
  {
    if edits == [] then start else ApplyAll(Some(Apply(start, edits[0])), edits[1..])
  }

  function Packages(s: State, id: string): Option<set<string>> {
    if id in s.localPackages then Some(s.localPackages[id]) else None
  }

  /** One request edits the packages of one peer at most, and of the others nothing. */
  lemma EditStep(s: State, r: Request, id: string)
    ensures var (next, reply) := Handle(s, r);
            var edit := EditOf(r);
            Packages(next, id) == if reply.Accepted? && edit.Some? && edit.value.0 == id
                                  then Some(Apply(Packages(s, id), edit.value.1))
                                  else Packages(s, id)
  {
    hide ReadIroh, PeerTable, IrohTable, ProviderList, Listed, Token, OptionalHashes, NamedHashes, Plain, HashesAllowed;
    match r
    case Announce(body, addr, now) => AnnounceEdits(s, body, addr, now, id);
    case AnnounceIroh(body, addr, now) =>
    case Batch(body) =>
      TokenRead(body.Get("peer_id"));
      OptionalHashesRead(body, "hashes");
    case Delta(body) => DeltaEdits(s, body, id);
    case Upstream(peers, iroh, now) =>
    case Find(hash, found, now) =>
  }

  lemma AnnounceEdits(s: State, body: Value, addr: Option<string>, now: Time, id: string)
    ensures var (next, reply) := Handle(s, Announce(body, addr, now));
            var named := NamedHashes(body, "packages");
            Packages(next, id) == if reply.Accepted? && named != {} && TextAt(body, "peer_id") == id
                                  then Some(named)
                                  else Packages(s, id)
  {
    hide Token, OptionalHashes, NamedHashes, Plain, HashesAllowed;
    TokenRead(body.Get("peer_id"));
    OptionalHashesRead(body, "packages");
  }

  lemma DeltaEdits(s: State, body: Value, id: string)
    ensures var (next, reply) := Handle(s, Delta(body));
            Packages(next, id) == if reply.Accepted? && TextAt(body, "peer_id") == id
                                  then Some(PackagesOf(s.localPackages, id) - NamedHashes(body, "removed")
                                            + NamedHashes(body, "added"))
                                  else Packages(s, id)
  {
    hide Token, OptionalHashes, NamedHashes, Plain, HashesAllowed;
    TokenRead(body.Get("peer_id"));
    OptionalHashesRead(body, "added");
    OptionalHashesRead(body, "removed");
  }

  lemma {:induction false} PackagesFrom(s: State, requests: seq<Request>, id: string)
    ensures Packages(Run(s, requests), id) == ApplyAll(Packages(s, id), AcceptedEdits(s, requests, id))
    decreases |requests|
  {
    hide Handle, EditOf, Apply, Packages;
    if requests != [] {
      var next := Handle(s, requests[0]).0;
      EditStep(s, requests[0], id);
      PackagesFrom(next, requests[1..], id);
    }
  }

  /** After any run, a peer's packages are the fold of the edits accepted for it. */
  lemma PackagesFold(requests: seq<Request>, id: string)
    ensures Packages(Run(EMPTY, requests), id) == ApplyAll(None, AcceptedEdits(EMPTY, requests, id))
  {
    PackagesFrom(EMPTY, requests, id);
  }
}
