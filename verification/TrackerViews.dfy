/** What the tracker tells at a given time: fresh local rows over fresh learned rows. */
module TrackerViews {
  import opened Json
  import opened Options
  import opened Tracker
  import opened TrackerBodies
  import opened TrackerRuns
  import Strings = Text

  const PEER_TTL: real := 120.0

  predicate Fresh(lastSeen: Time, now: Time) {
    if now < lastSeen then true else now - lastSeen <= PEER_TTL
  }

  lemma FreshEarlier(lastSeen: Time, t: Time, t': Time)
    requires t <= t' && Fresh(lastSeen, t')
    ensures Fresh(lastSeen, t)
  {
  }

  /* ---- peers ---- */

  predicate FreshPeer(table: map<string, PeerRow>, id: string, now: Time) {
    id in table && Fresh(table[id].lastSeen, now)
  }

  function PeersView(s: State, now: Time): map<string, PeerRow> {
    map id | id in s.localPeers.Keys + s.learnedPeers.Keys
             && (FreshPeer(s.localPeers, id, now) || FreshPeer(s.learnedPeers, id, now))
      :: if FreshPeer(s.localPeers, id, now) then s.localPeers[id] else s.learnedPeers[id]
  }

  lemma PeersShrink(s: State, t: Time, t': Time)
    requires t <= t'
    ensures PeersView(s, t').Keys <= PeersView(s, t).Keys
  {
  }

  /* ---- providers of a store hash ---- */

  /** A learned provider, with what a fresh local row for the same peer says instead. */
  function Merged(s: State, p: ProviderRow, now: Time): PeerRow {
    if FreshPeer(s.localPeers, p.peerId, now) then
      var local := s.localPeers[p.peerId];
      PeerRow(local.addr, local.port, local.lastSeen, if local.libp2p.Some? then local.libp2p else p.row.libp2p)
    else p.row
  }

  /** The last of the listed providers with this id that is fresh. */
  function LearnedProvider(s: State, list: seq<ProviderRow>, id: string, now: Time): (r: Option<PeerRow>)
    ensures r.Some? ==> exists i :: 0 <= i < |list| && list[i].peerId == id
  {
    if list == [] then None
    else
      var p := list[|list| - 1];
      if p.peerId == id && Fresh(Merged(s, p, now).lastSeen, now) then Some(Merged(s, p, now))
      else LearnedProvider(s, list[..|list| - 1], id, now)
  }

  function LearnedList(s: State, hash: string): seq<ProviderRow> {
    if hash in s.learnedProviders then s.learnedProviders[hash] else []
  }

  predicate Offers(s: State, id: string, hash: string, now: Time) {
    id in s.localPackages && hash in s.localPackages[id] && FreshPeer(s.localPeers, id, now)
  }

  predicate Provides(s: State, id: string, hash: string, now: Time) {
    Offers(s, id, hash, now) || LearnedProvider(s, LearnedList(s, hash), id, now).Some?
  }

  function ProviderIds(list: seq<ProviderRow>): (ids: set<string>)
    ensures forall i :: 0 <= i < |list| ==> list[i].peerId in ids
  {
    set i | 0 <= i < |list| :: list[i].peerId
  }

  function ProvidersView(s: State, hash: string, now: Time): map<string, PeerRow> {
    map id | id in s.localPackages.Keys + ProviderIds(LearnedList(s, hash)) && Provides(s, id, hash, now)
      :: if Offers(s, id, hash, now) then s.localPeers[id] else LearnedProvider(s, LearnedList(s, hash), id, now).value
  }

  lemma {:induction false} LearnedFresh(s: State, list: seq<ProviderRow>, id: string, now: Time)
    ensures LearnedProvider(s, list, id, now).Some? ==> Fresh(LearnedProvider(s, list, id, now).value.lastSeen, now)
    decreases |list|
  {
    hide Fresh, Merged;
    if list != [] { LearnedFresh(s, list[..|list| - 1], id, now); }
  }

  lemma MergedEarlier(s: State, p: ProviderRow, t: Time, t': Time)
    requires t <= t' && Fresh(Merged(s, p, t').lastSeen, t')
    ensures Fresh(Merged(s, p, t).lastSeen, t)
  {
  }

  lemma {:induction false} LearnedShrink(s: State, list: seq<ProviderRow>, id: string, t: Time, t': Time)
    requires t <= t' && LearnedProvider(s, list, id, t').Some?
    ensures LearnedProvider(s, list, id, t).Some?
    decreases |list|
  {
    hide Fresh, Merged;
    if list != [] {
      var p := list[|list| - 1];
      if Fresh(Merged(s, p, t').lastSeen, t') { MergedEarlier(s, p, t, t'); }
      if LearnedProvider(s, list[..|list| - 1], id, t').Some? {
        LearnedShrink(s, list[..|list| - 1], id, t, t');
      }
    }
  }

  lemma ProvidersShrink(s: State, hash: string, t: Time, t': Time)
    requires t <= t'
    ensures ProvidersView(s, hash, t').Keys <= ProvidersView(s, hash, t).Keys
  {
    hide LearnedProvider;
    forall id | id in ProvidersView(s, hash, t') ensures id in ProvidersView(s, hash, t) {
      if LearnedProvider(s, LearnedList(s, hash), id, t').Some? {
        LearnedShrink(s, LearnedList(s, hash), id, t, t');
      }
    }
  }

  /* ---- iroh nodes ---- */

  predicate FreshNode(table: map<string, IrohRow>, id: string, now: Time) {
    id in table && Fresh(table[id].lastSeen, now)
  }

  /** A fresh local node belongs to this peer. */
  predicate PeerIsLocal(s: State, peer: string, now: Time) {
    exists n :: n in s.localIroh && FreshNode(s.localIroh, n, now) && s.localIroh[n].peerId == peer
  }

  predicate LearnedNodeShown(s: State, id: string, now: Time) {
    && FreshNode(s.learnedIroh, id, now)
    && !FreshNode(s.localIroh, id, now)
    && !PeerIsLocal(s, s.learnedIroh[id].peerId, now)
  }

  function IrohView(s: State, now: Time): map<string, IrohRow> {
    map id | id in s.localIroh.Keys + s.learnedIroh.Keys
             && (FreshNode(s.localIroh, id, now) || LearnedNodeShown(s, id, now))
      :: if FreshNode(s.localIroh, id, now) then s.localIroh[id] else s.learnedIroh[id]
  }

  predicate SamePeer(s: State, m: string, node: string) {
    m in s.localIroh && node in s.learnedIroh && s.localIroh[m].peerId == s.learnedIroh[node].peerId
  }

  /** Some local row of the learned node's peer is at least as recent as the learned row. */
  predicate PeerAsRecent(s: State, node: string)
    requires node in s.learnedIroh
  {
    exists m :: m in s.localIroh && SamePeer(s, m, node) && s.localIroh[m].lastSeen >= s.learnedIroh[node].lastSeen
  }

  /** The node itself is announced here, as recently as any local row of the learned row's peer. */
  predicate NodeAsRecent(s: State, node: string) {
    && node in s.localIroh
    && forall m :: m in s.localIroh && SamePeer(s, m, node) ==> s.localIroh[node].lastSeen >= s.localIroh[m].lastSeen
  }

  predicate PeerUnknownHere(s: State, node: string) {
    forall m :: m in s.localIroh ==> !SamePeer(s, m, node)
  }

  /** No learned node is hidden by its peer's local rows and outlives them. */
  predicate Steady(s: State) {
    forall node :: node in s.learnedIroh ==> PeerUnknownHere(s, node) || PeerAsRecent(s, node) || NodeAsRecent(s, node)
  }

  ghost predicate IrohOnlyShrinks(s: State) {
    forall t: Time, t': Time :: t <= t' ==> IrohView(s, t').Keys <= IrohView(s, t).Keys
  }

  lemma SteadyNode(s: State, node: string, t: Time, t': Time)
    requires Steady(s) && t <= t' && node in IrohView(s, t')
    ensures node in IrohView(s, t)
  {
    if FreshNode(s.localIroh, node, t') {
      FreshEarlier(s.localIroh[node].lastSeen, t, t');
    } else {
      var row := s.learnedIroh[node];
      FreshEarlier(row.lastSeen, t, t');
      if PeerIsLocal(s, row.peerId, t) && !FreshNode(s.localIroh, node, t) {
        var m :| m in s.localIroh && FreshNode(s.localIroh, m, t) && s.localIroh[m].peerId == row.peerId;
        assert SamePeer(s, m, node);
        forall k | k in s.localIroh && SamePeer(s, k, node) ensures s.localIroh[k].lastSeen < row.lastSeen {
          assert !FreshNode(s.localIroh, k, t');
        }
        assert false;
      }
    }
  }

  lemma Outlives(s: State, node: string) returns (t: Time, t': Time)
    requires node in s.learnedIroh && !PeerUnknownHere(s, node) && !PeerAsRecent(s, node) && !NodeAsRecent(s, node)
    ensures t <= t' && node in IrohView(s, t') && node !in IrohView(s, t)
  {
    var m :|
      && m in s.localIroh && SamePeer(s, m, node)
      && (node in s.localIroh ==> s.localIroh[node].lastSeen < s.localIroh[m].lastSeen);
    t := s.localIroh[m].lastSeen + PEER_TTL;
    t' := s.learnedIroh[node].lastSeen + PEER_TTL;
    assert FreshNode(s.localIroh, m, t);
    assert PeerIsLocal(s, s.learnedIroh[node].peerId, t);
    forall k | k in s.localIroh && FreshNode(s.localIroh, k, t')
      ensures s.localIroh[k].peerId != s.learnedIroh[node].peerId
    {
      assert SamePeer(s, k, node) <==> s.localIroh[k].peerId == s.learnedIroh[node].peerId;
    }
    assert LearnedNodeShown(s, node, t');
  }

  /** The listed node ids only shrink as time passes exactly when the tables are steady. */
  lemma IrohShrinkExact(s: State)
    ensures IrohOnlyShrinks(s) <==> Steady(s)
  {
    if Steady(s) {
      forall t: Time, t': Time | t <= t' ensures IrohView(s, t').Keys <= IrohView(s, t).Keys {
        forall node | node in IrohView(s, t') ensures node in IrohView(s, t) {
          SteadyNode(s, node, t, t');
        }
      }
    } else {
      var node :|
        && node in s.learnedIroh
        && !(PeerUnknownHere(s, node) || PeerAsRecent(s, node) || NodeAsRecent(s, node));
      var t, t' := Outlives(s, node);
      assert !(IrohView(s, t').Keys <= IrohView(s, t).Keys);
    }
  }

  const LOCAL_NODE: Value := Object(map["node_id" := Text("a"), "peer_id" := Text("p")])
  const LEARNED_NODE: Value := Object(map["node_id" := Text("b"), "peer_id" := Text("p"), "addr" := Text("r")])

  /** A node announced here, then another node of the same peer learned from upstream a minute later. */
  function HidingRequests(): seq<Request> {
    [ AnnounceIroh(LOCAL_NODE, Some("l"), 0.0),
      Upstream(None, Some(Object(map["peers" := Array([LEARNED_NODE])])), 60.0) ]
  }

  const HIDING_TABLES: State := EMPTY.(
    localIroh := map["a" := IrohRow("p", None, [], "l", 0.0)],
    learnedIroh := map["b" := IrohRow("p", None, [], "r", 60.0)])

  lemma ShortToken(c: char)
    requires TokenChar(c) && c as int < 0x80
    ensures ValidToken([c], MAX_TOKEN_LEN)
  {
    assert [c][..0] == [];
    assert Strings.ByteLength([c]) == 1;
  }

  lemma LocalNodeRead()
    ensures ReadIroh(LOCAL_NODE, Some("l"), 0.0) == Good(("a", IrohRow("p", None, [], "l", 0.0)))
  {
    hide ValidToken;
    ShortToken('a');
    ShortToken('p');
  }

  lemma LearnedNodeRead()
    ensures IrohTable([LEARNED_NODE], 60.0) == map["b" := IrohRow("p", None, [], "r", 60.0)]
  {
    hide ValidToken;
    ShortToken('b');
    ShortToken('p');
    ShortToken('r');
    assert LearnedIroh(LEARNED_NODE, 60.0) == Some(("b", IrohRow("p", None, [], "r", 60.0)));
    assert [LEARNED_NODE][..0] == [];
  }

  lemma HidingReached()
    ensures Run(EMPTY, HidingRequests()) == HIDING_TABLES
  {
    LocalNodeRead();
    LearnedNodeRead();
    hide ReadIroh, IrohTable, PeerTable;
    var requests := HidingRequests();
    var s1 := Handle(EMPTY, requests[0]).0;
    assert s1 == EMPTY.(localIroh := HIDING_TABLES.localIroh);
    assert Handle(s1, requests[1]).0 == HIDING_TABLES;
    assert requests[1..] == [requests[1]] && requests[1..][1..] == [];
    assert Run(HIDING_TABLES, []) == HIDING_TABLES;
    assert Run(s1, [requests[1]]) == HIDING_TABLES;
  }

  /** In tables the tracker reaches, a learned node can reappear: a local node of its peer hides it until that
      one goes stale. */
  lemma IrohIdsCanGrow()
    ensures var s := Run(EMPTY, HidingRequests());
            && IrohView(s, 100.0).Keys == {"a"}
            && IrohView(s, 150.0).Keys == {"b"}
            && !Steady(s)
  {
    HidingReached();
    HidingViews();
    hide Run, IrohView, Steady;
    IrohShrinkExact(HIDING_TABLES);
    assert !(IrohView(HIDING_TABLES, 150.0).Keys <= IrohView(HIDING_TABLES, 100.0).Keys);
  }

  lemma HidingViews()
    ensures IrohView(HIDING_TABLES, 100.0).Keys == {"a"} && IrohView(HIDING_TABLES, 150.0).Keys == {"b"}
  {
    var s := HIDING_TABLES;
    assert FreshNode(s.localIroh, "a", 100.0);
    assert PeerIsLocal(s, "p", 100.0);
    assert !FreshNode(s.localIroh, "a", 150.0);
    assert LearnedNodeShown(s, "b", 150.0);
    assert forall id :: id in IrohView(s, 100.0) <==> id == "a";
    assert forall id :: id in IrohView(s, 150.0) <==> id == "b";
  }

  /** No document lists a stale row. */
  lemma ListedRowsFresh(s: State, hash: string, now: Time)
    ensures forall id :: id in PeersView(s, now) ==> Fresh(PeersView(s, now)[id].lastSeen, now)
    ensures forall id :: id in IrohView(s, now) ==> Fresh(IrohView(s, now)[id].lastSeen, now)
    ensures forall id :: id in ProvidersView(s, hash, now) ==> Fresh(ProvidersView(s, hash, now)[id].lastSeen, now)
  {
    hide Fresh, LearnedProvider;
    forall id | id in ProvidersView(s, hash, now) ensures Fresh(ProvidersView(s, hash, now)[id].lastSeen, now) {
      LearnedFresh(s, LearnedList(s, hash), id, now);
    }
  }

  /** A peer with a fresh local row is listed by it, and a peer that offers the hash too. */
  lemma LocalRowsWin(s: State, hash: string, now: Time, id: string)
    requires FreshPeer(s.localPeers, id, now)
    ensures id in PeersView(s, now) && PeersView(s, now)[id] == s.localPeers[id]
    ensures id in ProvidersView(s, hash, now) ==>
            && ProvidersView(s, hash, now)[id].addr == s.localPeers[id].addr
            && ProvidersView(s, hash, now)[id].port == s.localPeers[id].port
            && ProvidersView(s, hash, now)[id].lastSeen == s.localPeers[id].lastSeen
  {
    hide Fresh, LearnedProvider;
    if id in ProvidersView(s, hash, now) && !Offers(s, id, hash, now) {
      MergedByLocal(s, LearnedList(s, hash), id, now);
    }
  }

  lemma {:induction false} MergedByLocal(s: State, list: seq<ProviderRow>, id: string, now: Time)
    requires FreshPeer(s.localPeers, id, now) && LearnedProvider(s, list, id, now).Some?
    ensures var row := LearnedProvider(s, list, id, now).value;
            var local := s.localPeers[id];
            row.addr == local.addr && row.port == local.port && row.lastSeen == local.lastSeen
    decreases |list|
  {
    hide Fresh;
    if LearnedProvider(s, list[..|list| - 1], id, now).Some? {
      MergedByLocal(s, list[..|list| - 1], id, now);
    }
  }

  /** A learned provider is told when it is fresh. */
  predicate ToldFrom(list: seq<ProviderRow>, i: nat, id: string, now: Time) {
    i < |list| && list[i].peerId == id && Fresh(list[i].row.lastSeen, now)
  }

  ghost predicate LastTold(list: seq<ProviderRow>, i: nat, id: string, now: Time) {
    ToldFrom(list, i, id, now) && forall j: nat :: i < j ==> !ToldFrom(list, j, id, now)
  }

  lemma {:induction false} LastFreshKept(s: State, list: seq<ProviderRow>, id: string, now: Time)
    requires !FreshPeer(s.localPeers, id, now)
    ensures LearnedProvider(s, list, id, now).None? ==> forall i: nat :: !ToldFrom(list, i, id, now)
    ensures LearnedProvider(s, list, id, now).Some? ==>
              exists i: nat :: LastTold(list, i, id, now) && list[i].row == LearnedProvider(s, list, id, now).value
    decreases |list|
  {
    hide Fresh;
    if list != [] {
      var front := list[..|list| - 1];
      if ToldFrom(list, |list| - 1, id, now) {
        assert LastTold(list, |list| - 1, id, now);
      } else {
        LastFreshKept(s, front, id, now);
        assert forall i: nat :: ToldFrom(list, i, id, now) <==> ToldFrom(front, i, id, now);
        if LearnedProvider(s, front, id, now).Some? {
          var i: nat :| LastTold(front, i, id, now) && front[i].row == LearnedProvider(s, front, id, now).value;
          assert LastTold(list, i, id, now);
        }
      }
    }
  }

  /** Where no fresh local row stands in, a hash's learned provider is told exactly when a row of it is fresh, and
      by the last such row. */
  lemma LearnedTold(s: State, hash: string, id: string, now: Time)
    requires !FreshPeer(s.localPeers, id, now)
    ensures var list := LearnedList(s, hash);
            && (id in ProvidersView(s, hash, now) <==> exists i: nat :: ToldFrom(list, i, id, now))
            && (id in ProvidersView(s, hash, now) ==>
                  exists i: nat :: LastTold(list, i, id, now) && ProvidersView(s, hash, now)[id] == list[i].row)
  {
    hide Fresh, LearnedProvider;
    LastFreshKept(s, LearnedList(s, hash), id, now);
  }

  /* ---- from a request to what is told ---- */

  lemma AnnouncedRow(s: State, body: Value, addr: Option<string>, now: Time)
    requires Handle(s, Announce(body, addr, now)).1.Accepted?
    ensures addr.Some? && IsPort(body.Get("port"))
    ensures Handle(s, Announce(body, addr, now)).0.localPeers == s.localPeers[TextAt(body, "peer_id") :=
              PeerRow(addr.value, body.Get("port").value.n, now, TextIfPlain(body, "libp2p_peer_id"))]
  {
    hide Plain, Token, OptionalHashes;
    TokenRead(body.Get("peer_id"));
    TokenRead(body.Get("libp2p_peer_id"));
  }

  /** An accepted announcement is listed with the client's address and the body's port until it goes stale,
      and as a provider of every package it names. */
  lemma AnnounceTold(s: State, body: Value, addr: Option<string>, now: Time, t: Time)
    requires Handle(s, Announce(body, addr, now)).1.Accepted? && Fresh(now, t)
    ensures var s' := Handle(s, Announce(body, addr, now)).0;
            && addr.Some? && IsPort(body.Get("port"))
            && var id := TextAt(body, "peer_id");
            && var row := PeerRow(addr.value, body.Get("port").value.n, now, TextIfPlain(body, "libp2p_peer_id"));
            && id in PeersView(s', t) && PeersView(s', t)[id] == row
            && forall h: string :: Named(body, "packages", h) ==>
                 id in ProvidersView(s', h, t) && ProvidersView(s', h, t)[id] == row
  {
    hide Fresh, LearnedProvider, LearnedList, Handle, NamedHashes, TextAt, TextIfPlain, IsPort;
    var s' := Handle(s, Announce(body, addr, now)).0;
    var id := TextAt(body, "peer_id");
    AnnouncedRow(s, body, addr, now);
    AnnounceEdits(s, body, addr, now, id);
    assert FreshPeer(s'.localPeers, id, t);
    forall h: string | Named(body, "packages", h) ensures Offers(s', id, h, t) {
      assert h in NamedHashes(body, "packages");
    }
  }

  /** After an accepted batch the peer offers, while fresh, exactly what the batch names. */
  lemma BatchTold(s: State, body: Value, t: Time, h: string)
    requires Handle(s, Batch(body)).1.Accepted?
    ensures var s' := Handle(s, Batch(body)).0;
            var id := TextAt(body, "peer_id");
            Offers(s', id, h, t) <==> FreshPeer(s.localPeers, id, t) && Named(body, "hashes", h)
  {
    hide Fresh, Token, OptionalHashes, NamedHashes;
    EditStep(s, Batch(body), TextAt(body, "peer_id"));
    assert Named(body, "hashes", h) <==> h in NamedHashes(body, "hashes");
  }

  /** After an accepted delta the peer offers, while fresh, exactly what was added and, of what it had, what was
      not removed. */
  lemma DeltaTold(s: State, body: Value, t: Time, h: string)
    requires Handle(s, Delta(body)).1.Accepted?
    ensures var s' := Handle(s, Delta(body)).0;
            var id := TextAt(body, "peer_id");
            Offers(s', id, h, t) <==>
              && FreshPeer(s.localPeers, id, t)
              && (Named(body, "added", h) || (h in PackagesOf(s.localPackages, id) && !Named(body, "removed", h)))
  {
    hide Fresh, Token, OptionalHashes, NamedHashes;
    DeltaEdits(s, body, TextAt(body, "peer_id"));
    assert Named(body, "added", h) <==> h in NamedHashes(body, "added");
    assert Named(body, "removed", h) <==> h in NamedHashes(body, "removed");
  }

  /** A learned table holds, for each id, the row of the last readable item with that id. */
  lemma {:induction false} LastItemWins(items: seq<Value>, now: Time, id: string)
    ensures id in PeerTable(items, now) <==> exists i :: 0 <= i < |items| && Reads(items[i], now, id)
    ensures id in PeerTable(items, now) ==>
              exists i :: 0 <= i < |items| && LastRead(items, i, now, id, PeerTable(items, now)[id])
    decreases |items|
  {
    hide LearnedPeer;
    if items != [] {
      var front := items[..|items| - 1];
      LastItemWins(front, now, id);
      assert forall i :: 0 <= i < |front| ==> front[i] == items[i];
      if Reads(items[|items| - 1], now, id) {
        assert LastRead(items, |items| - 1, now, id, PeerTable(items, now)[id]);
      } else if id in PeerTable(front, now) {
        var i :| 0 <= i < |front| && LastRead(front, i, now, id, PeerTable(front, now)[id]);
        assert LastRead(items, i, now, id, PeerTable(items, now)[id]);
      }
    }
  }

  /** The item at i is the last that gives this id, and gives it this row. */
  predicate LastRead(items: seq<Value>, i: nat, now: Time, id: string, row: PeerRow)
    requires i < |items|
  {
    && Reads(items[i], now, id) && LearnedPeer(items[i], now).value.row == row
    && forall j :: i < j < |items| ==> !Reads(items[j], now, id)
  }

  predicate Reads(item: Value, now: Time, id: string) {
    LearnedPeer(item, now).Some? && LearnedPeer(item, now).value.peerId == id
  }
}
