/** The tracker as it keeps its tables and answers: updates in place, documents built row by row. */
module TrackerService {
  import opened Json
  import opened Listings
  import opened Options
  import opened Tracker
  import opened TrackerRuns
  import opened TrackerViews

  class Tables {
    var localPeers: map<string, PeerRow>
    var learnedPeers: map<string, PeerRow>
    var localPackages: map<string, set<string>>
    var learnedProviders: map<string, seq<ProviderRow>>
    var localIroh: map<string, IrohRow>
    var learnedIroh: map<string, IrohRow>

    ghost function Now(): State
      reads this
    {
      State(localPeers, learnedPeers, localPackages, learnedProviders, localIroh, learnedIroh)
    }

    ghost predicate Valid()
      reads this
    {
      Now().Bounded()
    }

    constructor ()
      ensures Valid() && Now() == EMPTY
    {
      localPeers, learnedPeers, localPackages, learnedProviders := map[], map[], map[], map[];
      localIroh, learnedIroh := map[], map[];
    }

    /* ---- updates ---- */

    method Announce(body: Value, addr: Option<string>, now: Time) returns (reply: Reply)
      requires Valid()
      modifies this
      ensures Valid() && (Now(), reply) == Handle(old(Now()), Request.Announce(body, addr, now))
    {
      StepBounded(Now(), Request.Announce(body, addr, now));
      hide State.Bounded, ReadAnnounce, Tracker.RecordAnnounce;
      match ReadAnnounce(body, addr, now)
      case Bad(message) => return Refused(message);
      case Good(a) => reply := RecordAnnounce(a.id, a.row, a.packages);
    }

    method RecordAnnounce(id: string, row: PeerRow, packages: seq<string>) returns (reply: Reply)
      modifies this
      ensures (Now(), reply) == Tracker.RecordAnnounce(old(Now()), id, row, packages)
    {
      if id !in localPeers && |localPeers| >= MAX_TRACKED_ROWS { return Refused(FULL); }
      if packages != [] && id !in localPackages && |localPackages| >= MAX_TRACKED_ROWS { return Refused(FULL); }
      localPeers := localPeers[id := row];
      if packages != [] {
        var hashes := Add({}, packages);
        assert hashes == set h | h in packages;
        localPackages := localPackages[id := hashes];
      }
      return Accepted;
    }

    method AnnounceIroh(body: Value, addr: Option<string>, now: Time) returns (reply: Reply)
      requires Valid()
      modifies this
      ensures Valid() && (Now(), reply) == Handle(old(Now()), Request.AnnounceIroh(body, addr, now))
    {
      StepBounded(Now(), Request.AnnounceIroh(body, addr, now));
      hide State.Bounded, ReadIroh;
      match ReadIroh(body, addr, now)
      case Bad(message) => return Refused(message);
      case Good((node, row)) =>
        if node !in localIroh && |localIroh| >= MAX_TRACKED_ROWS { return Refused(FULL); }
        localIroh := localIroh[node := row];
        return Accepted;
    }

    method Batch(body: Value) returns (reply: Reply)
      requires Valid()
      modifies this
      ensures Valid() && (Now(), reply) == Handle(old(Now()), Request.Batch(body))
    {
      StepBounded(Now(), Request.Batch(body));
      hide State.Bounded, ReadBatch, Tracker.RecordBatch;
      match ReadBatch(body)
      case Bad(message) => return Refused(message);
      case Good((id, hashes)) => reply := RecordBatch(id, hashes);
    }

    method RecordBatch(id: string, hashes: seq<string>) returns (reply: Reply)
      modifies this
      ensures (Now(), reply) == Tracker.RecordBatch(old(Now()), id, hashes)
    {
      if id !in localPackages && |localPackages| >= MAX_TRACKED_ROWS { return Refused(FULL); }
      var collected := Add({}, hashes);
      assert collected == set h | h in hashes;
      localPackages := localPackages[id := collected];
      return Accepted;
    }

    method Delta(body: Value) returns (reply: Reply)
      requires Valid()
      modifies this
      ensures Valid() && (Now(), reply) == Handle(old(Now()), Request.Delta(body))
    {
      StepBounded(Now(), Request.Delta(body));
      hide State.Bounded, ReadDelta, Tracker.RecordDelta;
      match ReadDelta(body)
      case Bad(message) => return Refused(message);
      case Good(d) => reply := RecordDelta(d);
    }

    method RecordDelta(d: PackageDelta) returns (reply: Reply)
      modifies this
      ensures (Now(), reply) == Tracker.RecordDelta(old(Now()), d)
    {
      if d.id !in localPackages && |localPackages| >= MAX_TRACKED_ROWS { return Refused(FULL); }
      var kept := Remove(if d.id in localPackages then localPackages[d.id] else {}, d.removed);
      var packages := Add(kept, d.added);
      localPackages := localPackages[d.id := packages];
      return Accepted;
    }

    method RefreshWith(peers: Option<Value>, iroh: Option<Value>, now: Time) returns (reply: Reply)
      requires Valid()
      modifies this
      ensures Valid() && (Now(), reply) == Handle(old(Now()), Upstream(peers, iroh, now))
    {
      StepBounded(Now(), Upstream(peers, iroh, now));
      hide State.Bounded, Listed;
      var peersRead := StorePeers(Readable(peers), now);
      var irohRead := StoreNodes(Readable(iroh), now);
      return if peersRead && irohRead then Accepted else Refused("upstream");
    }

    method StorePeers(items: Option<seq<Value>>, now: Time) returns (read: bool)
      modifies this
      ensures read == items.Some?
      ensures Now() == if items.None? then old(Now()) else old(Now()).(learnedPeers := PeerTable(items.value, now))
    {
      if items.None? { return false; }
      learnedPeers := ReadPeers(items.value, now);
      return true;
    }

    method StoreNodes(items: Option<seq<Value>>, now: Time) returns (read: bool)
      modifies this
      ensures read == items.Some?
      ensures Now() == if items.None? then old(Now()) else old(Now()).(learnedIroh := IrohTable(items.value, now))
    {
      if items.None? { return false; }
      learnedIroh := ReadNodes(items.value, now);
      return true;
    }

    method StoreLearnedProviders(hash: string, found: Option<Value>, now: Time)
      requires Valid()
      modifies this
      ensures Valid() && Now() == LearnProviders(old(Now()), hash, found, now)
    {
      LearnBounded(Now(), hash, found, now);
      hide State.Bounded, ProviderList, Listed;
      if found.None? { return; }
      var items := Listed(found.value, "providers");
      if items.None? { return; }
      if hash in learnedProviders || |learnedProviders| < MAX_TRACKED_ROWS {
        var rows := ReadProviders(items.value, now);
        learnedProviders := learnedProviders[hash := rows];
      }
    }

    /* ---- documents ---- */

    method PeersDocument(now: Time) returns (peers: seq<Row<PeerRow>>)
      ensures Lists(peers, PeersView(Now(), now))
    {
      hide Fresh, Collects, Lists, SortRows;
      StartEmpty(Restrict(localPeers, FreshPeerIds(localPeers, {}, now)));
      var local, localIds := FreshPeers(localPeers, {}, now, [], map[]);
      var all, _ := FreshPeers(learnedPeers, localIds, now, local, Restrict(localPeers, localIds));
      PeersViewParts(Now(), now);
      SortedLists(all, PeersView(Now(), now));
      peers := SortRows(all);
    }

    method IrohDocument(now: Time) returns (nodes: seq<Row<IrohRow>>)
      ensures Lists(nodes, IrohView(Now(), now))
    {
      hide Fresh, Collects, Lists, SortRows;
      StartEmpty(Restrict(localIroh, FreshNodeIds(localIroh, {}, {}, now)));
      var local, localNodes, localPeerIds := FreshNodes(localIroh, {}, {}, now, [], map[]);
      var all, _, _ := FreshNodes(learnedIroh, localNodes, localPeerIds, now, local, Restrict(localIroh, localNodes));
      IrohViewParts(Now(), now);
      SortedLists(all, IrohView(Now(), now));
      nodes := SortRows(all);
    }

    /** Learned providers in the order listed, a later row replacing an earlier one. */
    method LearnedProviders(hash: string, now: Time) returns (providers: map<string, PeerRow>)
      ensures forall id :: id in providers <==> LearnedProvider(Now(), LearnedList(Now(), hash), id, now).Some?
      ensures forall id :: id in providers ==>
                Some(providers[id]) == LearnedProvider(Now(), LearnedList(Now(), hash), id, now)
    {
      hide Fresh;
      var learned := if hash in learnedProviders then learnedProviders[hash] else [];
      providers := map[];
      for i := 0 to |learned|
        invariant forall id :: id in providers <==> LearnedProvider(Now(), learned[..i], id, now).Some?
        invariant forall id :: id in providers ==> Some(providers[id]) == LearnedProvider(Now(), learned[..i], id, now)
      {
        var provider := learned[i];
        assert learned[..i + 1][..i] == learned[..i];
        var row := provider.row;
        if provider.peerId in localPeers && Fresh(localPeers[provider.peerId].lastSeen, now) {
          var local := localPeers[provider.peerId];
          row := row.(addr := local.addr, port := local.port, lastSeen := local.lastSeen);
          if local.libp2p.Some? { row := row.(libp2p := local.libp2p); }
        }
        assert row == Merged(Now(), provider, now);
        if Fresh(row.lastSeen, now) {
          providers := providers[provider.peerId := row];
        }
      }
      assert learned[..|learned|] == learned;
    }

    method ProvidersDocument(hash: string, now: Time) returns (providers: seq<Row<PeerRow>>)
      ensures Lists(providers, ProvidersView(Now(), hash, now))
    {
      hide Fresh, LearnedProvider, Collects, Lists, SortRows;
      var told := LearnedProviders(hash, now);
      var keys := localPackages.Keys;
      while keys != {}
        invariant keys <= localPackages.Keys
        invariant forall id :: id in told <==>
                  || (id !in keys && Offers(Now(), id, hash, now))
                  || LearnedProvider(Now(), LearnedList(Now(), hash), id, now).Some?
        invariant forall id :: id in told ==>
                  Some(told[id]) == (if id !in keys && Offers(Now(), id, hash, now) then Some(localPeers[id])
                                     else LearnedProvider(Now(), LearnedList(Now(), hash), id, now))
        decreases |keys|
      {
        var id :| id in keys;
        keys := keys - {id};
        if hash in localPackages[id] && id in localPeers && Fresh(localPeers[id].lastSeen, now) {
          told := told[id := localPeers[id]];
        }
      }
      ProvidersViewIs(Now(), hash, now, told);
      hide ProvidersView;
      providers := CollectRows(told);
      SortedLists(providers, told);
      providers := SortRows(providers);
    }
  }

  lemma ProvidersViewIs(s: State, hash: string, now: Time, told: map<string, PeerRow>)
    requires forall id :: id in told <==> Provides(s, id, hash, now)
    requires forall id :: id in told && Offers(s, id, hash, now) ==> told[id] == s.localPeers[id]
    requires forall id :: id in told && !Offers(s, id, hash, now) ==>
             Some(told[id]) == LearnedProvider(s, LearnedList(s, hash), id, now)
    ensures told == ProvidersView(s, hash, now)
  {
    hide LearnedProvider, Fresh, LearnedList;
    var view := ProvidersView(s, hash, now);
    forall id | id in told ensures id in view && told[id] == view[id] {
      assert Provides(s, id, hash, now);
    }
  }

  method CollectRows(table: map<string, PeerRow>) returns (rows: seq<Row<PeerRow>>)
    ensures Collects(rows, table)
  {
    hide Collects;
    rows := [];
    ghost var shown, none := table.Keys, map[];
    CollectNothing(table, shown);
    var keys := table.Keys;
    assert none + Restrict(table, shown - keys) == Restrict(table, shown - keys);
    while keys != {}
      invariant keys <= table.Keys
      invariant Collects(rows, none + Restrict(table, shown - keys))
      decreases |keys|
    {
      var id :| id in keys;
      CollectStep(rows, none, table, shown, keys, id);
      keys := keys - {id};
      rows := rows + [Row(id, table[id])];
    }
    assert none + Restrict(table, shown) == table;
  }

  ghost function FreshPeerIds(table: map<string, PeerRow>, skip: set<string>, now: Time): set<string> {
    set id | id in table && FreshPeer(table, id, now) && id !in skip
  }

  lemma PeersViewParts(s: State, now: Time)
    ensures var ids := FreshPeerIds(s.localPeers, {}, now);
            PeersView(s, now)
            == Restrict(s.localPeers, ids) + Restrict(s.learnedPeers, FreshPeerIds(s.learnedPeers, ids, now))
  {
    hide Fresh;
  }

  /** Append the fresh rows of a table whose ids are not to be skipped. */
  method FreshPeers(table: map<string, PeerRow>, skip: set<string>, now: Time, before: seq<Row<PeerRow>>,
                    ghost told: map<string, PeerRow>)
    returns (rows: seq<Row<PeerRow>>, ids: set<string>)
    requires Collects(before, told) && told.Keys <= skip
    ensures ids == FreshPeerIds(table, skip, now)
    ensures Collects(rows, told + Restrict(table, ids))
  {
    hide Fresh, Collects, Restrict;
    rows, ids := before, {};
    var keys := table.Keys;
    ghost var shown := FreshPeerIds(table, skip, now);
    PeersOf(table, skip, now);
    CollectNothing(table, shown);
    NothingAdded(told);
    hide FreshPeerIds;
    while keys != {}
      invariant keys <= table.Keys
      invariant ids == shown - keys
      invariant Collects(rows, told + Restrict(table, shown - keys))
      decreases |keys|
    {
      var id :| id in keys;
      CollectStep(rows, told, table, shown, keys, id);
      ShownPeer(table, skip, now, id);
      ShownMore(shown, keys, id);
      keys := keys - {id};
      if id !in skip && Fresh(table[id].lastSeen, now) {
        ids := ids + {id};
        rows := rows + [Row(id, table[id])];
      }
    }
  }

  lemma ShownPeer(table: map<string, PeerRow>, skip: set<string>, now: Time, id: string)
    requires id in table
    ensures id in FreshPeerIds(table, skip, now) <==> id !in skip && Fresh(table[id].lastSeen, now)
  {
  }

  lemma PeersOf(table: map<string, PeerRow>, skip: set<string>, now: Time)
    ensures FreshPeerIds(table, skip, now) <= table.Keys
    ensures FreshPeerIds(table, skip, now) !! skip
  {
  }

  ghost function FreshNodeIds(table: map<string, IrohRow>, skip: set<string>, skipPeers: set<string>,
                              now: Time): set<string> {
    set id | id in table && FreshNode(table, id, now) && id !in skip && table[id].peerId !in skipPeers
  }

  ghost function PeerIds(table: map<string, IrohRow>, ids: set<string>): set<string> {
    set id | id in table && id in ids :: table[id].peerId
  }

  lemma IrohViewParts(s: State, now: Time)
    ensures var ids := FreshNodeIds(s.localIroh, {}, {}, now);
            var shown := FreshNodeIds(s.learnedIroh, ids, PeerIds(s.localIroh, ids), now);
            IrohView(s, now) == Restrict(s.localIroh, ids) + Restrict(s.learnedIroh, shown)
  {
    hide Fresh;
    var ids := FreshNodeIds(s.localIroh, {}, {}, now);
    forall p ensures p in PeerIds(s.localIroh, ids) <==> PeerIsLocal(s, p, now) {}
  }

  method FreshNodes(table: map<string, IrohRow>, skip: set<string>, skipPeers: set<string>, now: Time,
                    before: seq<Row<IrohRow>>, ghost told: map<string, IrohRow>)
    returns (rows: seq<Row<IrohRow>>, ids: set<string>, peers: set<string>)
    requires Collects(before, told) && told.Keys <= skip
    ensures ids == FreshNodeIds(table, skip, skipPeers, now) && peers == PeerIds(table, ids)
    ensures Collects(rows, told + Restrict(table, ids))
  {
    hide Fresh, Collects, Restrict;
    rows, ids, peers := before, {}, {};
    var keys := table.Keys;
    ghost var shown := FreshNodeIds(table, skip, skipPeers, now);
    NodesOf(table, skip, skipPeers, now);
    CollectNothing(table, shown);
    NothingAdded(told);
    hide FreshNodeIds, PeerIds;
    while keys != {}
      invariant keys <= table.Keys
      invariant ids == shown - keys && peers == PeerIds(table, ids)
      invariant Collects(rows, told + Restrict(table, shown - keys))
      decreases |keys|
    {
      var id :| id in keys;
      CollectStep(rows, told, table, shown, keys, id);
      ShownNode(table, skip, skipPeers, now, id);
      ShownMore(shown, keys, id);
      keys := keys - {id};
      if id !in skip && table[id].peerId !in skipPeers && Fresh(table[id].lastSeen, now) {
        OnePeerMore(table, ids, id);
        ids, peers := ids + {id}, peers + {table[id].peerId};
        rows := rows + [Row(id, table[id])];
      }
    }
  }

  lemma ShownNode(table: map<string, IrohRow>, skip: set<string>, skipPeers: set<string>, now: Time, id: string)
    requires id in table
    ensures id in FreshNodeIds(table, skip, skipPeers, now)
       <==> id !in skip && table[id].peerId !in skipPeers && Fresh(table[id].lastSeen, now)
  {
  }

  lemma NodesOf(table: map<string, IrohRow>, skip: set<string>, skipPeers: set<string>, now: Time)
    ensures FreshNodeIds(table, skip, skipPeers, now) <= table.Keys
    ensures FreshNodeIds(table, skip, skipPeers, now) !! skip
    ensures PeerIds(table, {}) == {}
  {
  }

  lemma ShownMore(shown: set<string>, keys: set<string>, id: string)
    requires id in keys
    ensures id in shown ==> shown - (keys - {id}) == (shown - keys) + {id}
    ensures id !in shown ==> shown - (keys - {id}) == shown - keys
  {
  }

  lemma OnePeerMore(table: map<string, IrohRow>, ids: set<string>, id: string)
    requires id in table
    ensures PeerIds(table, ids + {id}) == PeerIds(table, ids) + {table[id].peerId}
  {
  }

  method Add(packages: set<string>, hashes: seq<string>) returns (grown: set<string>)
    ensures grown == packages + set h | h in hashes
  {
    grown := packages;
    for i := 0 to |hashes|
      invariant grown == packages + set h | h in hashes[..i]
    {
      assert hashes[..i + 1] == hashes[..i] + [hashes[i]];
      grown := grown + {hashes[i]};
    }
    assert hashes[..|hashes|] == hashes;
  }

  method Remove(packages: set<string>, hashes: seq<string>) returns (kept: set<string>)
    ensures kept == packages - set h | h in hashes
  {
    kept := packages;
    for i := 0 to |hashes|
      invariant kept == packages - set h | h in hashes[..i]
    {
      assert hashes[..i + 1] == hashes[..i] + [hashes[i]];
      kept := kept - {hashes[i]};
    }
    assert hashes[..|hashes|] == hashes;
  }

  method ReadPeers(items: seq<Value>, now: Time) returns (rows: map<string, PeerRow>)
    ensures rows == PeerTable(items, now)
  {
    rows := map[];
    for i := 0 to |items|
      invariant rows == PeerTable(items[..i], now)
    {
      assert items[..i + 1][..i] == items[..i];
      match LearnedPeer(items[i], now)
      case None =>
      case Some(p) => rows := rows[p.peerId := p.row];
    }
    assert items[..|items|] == items;
  }

  method ReadNodes(items: seq<Value>, now: Time) returns (rows: map<string, IrohRow>)
    ensures rows == IrohTable(items, now)
  {
    rows := map[];
    for i := 0 to |items|
      invariant rows == IrohTable(items[..i], now)
    {
      assert items[..i + 1][..i] == items[..i];
      match LearnedIroh(items[i], now)
      case None =>
      case Some((id, row)) => rows := rows[id := row];
    }
    assert items[..|items|] == items;
  }

  method ReadProviders(items: seq<Value>, now: Time) returns (rows: seq<ProviderRow>)
    ensures rows == ProviderList(items, now)
  {
    rows := [];
    for i := 0 to |items|
      invariant ProviderList(items, now) == rows + ProviderList(items[i..], now)
    {
      assert items[i..][1..] == items[i + 1..];
      match LearnedPeer(items[i], now)
      case None =>
      case Some(p) => rows := rows + [p];
    }
  }
}
