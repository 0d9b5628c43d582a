/** The Peerix tracker: tables of announced and learned rows, and what each request does to them. */
module Tracker {
  import opened Json
  import opened Options
  import opened StorePaths
  import Strings = Text

  const MAX_HASHES: nat := 200_000
  const MAX_TRACKED_ROWS: nat := 10_000
  const MAX_TOKEN_LEN: nat := 256
  const MAX_RELAY_URL_LEN: nat := 512
  const MAX_DIRECT_ADDR_LEN: nat := 256
  const MAX_DIRECT_ADDRS: nat := 32

  /** Seconds since the Unix epoch. */
  type Time = real

  /** How far from the epoch a system time can be, in seconds. */
  const TIME_LIMIT: real := 9_223_372_036_854_775_808.0

  datatype PeerRow = PeerRow(addr: string, port: nat, lastSeen: Time, libp2p: Option<string>)

  datatype ProviderRow = ProviderRow(peerId: string, row: PeerRow)

  datatype IrohRow = IrohRow(
    peerId: string,
    relay: Option<string>,
    directAddrs: seq<string>,
    addr: string,
    lastSeen: Time)

  datatype State = State(
    localPeers: map<string, PeerRow>,
    learnedPeers: map<string, PeerRow>,
    localPackages: map<string, set<string>>,
    learnedProviders: map<string, seq<ProviderRow>>,
    localIroh: map<string, IrohRow>,
    learnedIroh: map<string, IrohRow>)
  {
    /** No table holds more rows than the tracker allows. */
    predicate Bounded() {
      && |localPeers| <= MAX_TRACKED_ROWS
      && |learnedPeers| <= MAX_TRACKED_ROWS
      && |localPackages| <= MAX_TRACKED_ROWS
      && |learnedProviders| <= MAX_TRACKED_ROWS
      && |localIroh| <= MAX_TRACKED_ROWS
      && |learnedIroh| <= MAX_TRACKED_ROWS
      && forall h :: h in learnedProviders ==> |learnedProviders[h]| <= MAX_TRACKED_ROWS
    }
  }

  const EMPTY: State := State(map[], map[], map[], map[], map[], map[])

  /* ---- reading requests ---- */

  datatype Read<+T> = Good(value: T) | Bad(message: string) {
    predicate IsFailure() { Bad? }
    function PropagateFailure<U>(): Read<U>
      requires Bad?
    {
      Bad(message)
    }
    function Extract(): T
      requires Good?
    {
      value
    }
  }

  function Require<T>(o: Option<T>, message: string): Read<T> {
    match o
    case Some(v) => Good(v)
    case None => Bad(message)
  }

  predicate TokenChar(c: char) {
    c > ' ' && c as int != 0x7F
  }

  predicate ValidToken(s: string, max: nat) {
    && s != []
    && Strings.ByteLength(s) <= max
    && forall i :: 0 <= i < |s| ==> TokenChar(s[i])
  }

  function Token(v: Option<Value>): Option<string> {
    if v.Some? && v.value.Text? && ValidToken(v.value.text, MAX_TOKEN_LEN) then Some(v.value.text) else None
  }

  function Port(v: Option<Value>): Option<nat> {
    if v.Some? && v.value.Natural? && v.value.n <= 0xFFFF then Some(v.value.n) else None
  }

  predicate Absent(v: Option<Value>) {
    v.None? || v.value.Null?
  }

  function Hashes(items: seq<Value>): Read<seq<string>> {
    if items == [] then Good([])
    else if !items[0].Text? || !ValidHash(items[0].text) then Bad("invalid store hash")
    else
      var rest :- Hashes(items[1..]);
      Good([items[0].text] + rest)
  }

  function HashList(v: Value): Read<seq<string>> {
    if !v.Array? then Bad("hashes must be a list")
    else if |v.items| > MAX_HASHES then Bad("too many hashes")
    else Hashes(v.items)
  }

  /** A list that may be left out, which is an empty list. */
  function OptionalHashes(v: Option<Value>): Read<seq<string>> {
    if Absent(v) then Good([]) else HashList(v.value)
  }

  function Addrs(items: seq<Value>): Read<seq<string>> {
    if items == [] then Good([])
    else if !items[0].Text? || !ValidToken(items[0].text, MAX_DIRECT_ADDR_LEN) then Bad("invalid direct address")
    else
      var rest :- Addrs(items[1..]);
      Good([items[0].text] + rest)
  }

  function DirectAddrs(v: Option<Value>): Read<seq<string>> {
    if Absent(v) then Good([])
    else if !v.value.Array? then Bad("direct_addrs must be a list")
    else if |v.value.items| > MAX_DIRECT_ADDRS then Bad("too many direct addresses")
    else Addrs(v.value.items)
  }

  function Relay(v: Option<Value>): Read<Option<string>> {
    if Absent(v) then Good(None)
    else if v.value.Text? && v.value.text == [] then Good(None)
    else if v.value.Text? && ValidToken(v.value.text, MAX_RELAY_URL_LEN) then Good(Some(v.value.text))
    else Bad("invalid relay_url")
  }

  /* ---- reading upstream replies ---- */

  function LastSeen(v: Option<Value>, now: Time): Time {
    if v.None? then now
    else if v.value.Natural? && v.value.n as real < TIME_LIMIT then v.value.n as real
    else if v.value.Number? && -TIME_LIMIT <= v.value.r < TIME_LIMIT then v.value.r
    else now
  }

  function LearnedPeer(v: Value, now: Time): Option<ProviderRow> {
    var peerId :- Token(v.Get("peer_id"));
    var addr :- Token(v.Get("addr"));
    var port :- Port(v.Get("port"));
    Some(ProviderRow(peerId, PeerRow(addr, port, LastSeen(v.Get("last_seen"), now), Token(v.Get("libp2p_peer_id")))))
  }

  function LearnedAddrs(items: seq<Value>, room: nat): (r: seq<string>)
    ensures |r| <= room
  {
    if items == [] || room == 0 then []
    else if items[0].Text? && ValidToken(items[0].text, MAX_DIRECT_ADDR_LEN)
    then [items[0].text] + LearnedAddrs(items[1..], room - 1)
    else LearnedAddrs(items[1..], room)
  }

  function LearnedIroh(v: Value, now: Time): Option<(string, IrohRow)> {
    var nodeId :- Token(v.Get("node_id"));
    var peerId :- Token(v.Get("peer_id"));
    var addr :- Token(v.Get("addr"));
    var listed := v.Get("direct_addrs");
    var addrs := if listed.Some? && listed.value.Array? then LearnedAddrs(listed.value.items, MAX_DIRECT_ADDRS) else [];
    Some((nodeId, IrohRow(peerId, Token(v.Get("relay_url")), addrs, addr, LastSeen(v.Get("last_seen"), now))))
  }

  /** The listed rows, later ones replacing earlier ones, rows that cannot be read left out. */
  function PeerTable(items: seq<Value>, now: Time): (rows: map<string, PeerRow>)
    ensures |rows| <= |items|
  {
    if items == [] then map[]
    else
      var before := PeerTable(items[..|items| - 1], now);
      match LearnedPeer(items[|items| - 1], now)
      case None => before
      case Some(p) => before[p.peerId := p.row]
  }

  function IrohTable(items: seq<Value>, now: Time): (rows: map<string, IrohRow>)
    ensures |rows| <= |items|
  {
    if items == [] then map[]
    else
      var before := IrohTable(items[..|items| - 1], now);
      match LearnedIroh(items[|items| - 1], now)
      case None => before
      case Some((id, row)) => before[id := row]
  }

  function ProviderList(items: seq<Value>, now: Time): (rows: seq<ProviderRow>)
    ensures |rows| <= |items|
  {
    if items == [] then []
    else
      match LearnedPeer(items[0], now)
      case None => ProviderList(items[1..], now)
      case Some(p) => [p] + ProviderList(items[1..], now)
  }

  /** The rows of a reply, unless the list is missing or too long. */
  function Listed(reply: Value, key: string): Option<seq<Value>> {
    var list :- reply.Get(key);
    if list.Array? && |list.items| <= MAX_TRACKED_ROWS then Some(list.items) else None
  }

  /* ---- what each request does ---- */

  /** A table takes a row for a key it has, or for a new key while there is room. */
  predicate Room<T>(table: map<string, T>, key: string) {
    key in table || |table| < MAX_TRACKED_ROWS
  }

  datatype Reply = Accepted | Refused(message: string)

  const FULL: string := "tracker is full"

  function RecordAnnounce(s: State, id: string, row: PeerRow, packages: seq<string>): (State, Reply) {
    if !Room(s.localPeers, id) then (s, Refused(FULL))
    else if packages != [] && !Room(s.localPackages, id) then (s, Refused(FULL))
    else
      var peers := s.(localPeers := s.localPeers[id := row]);
      if packages == [] then (peers, Accepted)
      else (peers.(localPackages := s.localPackages[id := set h | h in packages]), Accepted)
  }

  datatype Announcement = Announcement(id: string, row: PeerRow, packages: seq<string>)

  function ReadAnnounce(body: Value, addr: Option<string>, now: Time): Read<Announcement> {
    var id :- Require(Token(body.Get("peer_id")), "peer_id and port required");
    var port :- Require(Port(body.Get("port")), "peer_id and port required");
    var client :- Require(addr, "peer_id and port required");
    var packages :- OptionalHashes(body.Get("packages"));
    Good(Announcement(id, PeerRow(client, port, now, Token(body.Get("libp2p_peer_id"))), packages))
  }

  function ReadIroh(body: Value, addr: Option<string>, now: Time): Read<(string, IrohRow)> {
    var node :- Require(Token(body.Get("node_id")), "node_id and peer_id required");
    var peer :- Require(Token(body.Get("peer_id")), "node_id and peer_id required");
    var relay :- Relay(body.Get("relay_url"));
    var addrs :- DirectAddrs(body.Get("direct_addrs"));
    var client :- Require(addr, "node_id and peer_id required");
    Good((node, IrohRow(peer, relay, addrs, client, now)))
  }

  function RecordIroh(s: State, node: string, row: IrohRow): (State, Reply) {
    if !Room(s.localIroh, node) then (s, Refused(FULL))
    else (s.(localIroh := s.localIroh[node := row]), Accepted)
  }

  function ReadBatch(body: Value): Read<(string, seq<string>)> {
    var id :- Require(Token(body.Get("peer_id")), "peer_id required");
    var hashes :- OptionalHashes(body.Get("hashes"));
    Good((id, hashes))
  }

  function RecordBatch(s: State, id: string, hashes: seq<string>): (State, Reply) {
    if !Room(s.localPackages, id) then (s, Refused(FULL))
    else (s.(localPackages := s.localPackages[id := set h | h in hashes]), Accepted)
  }

  datatype PackageDelta = PackageDelta(id: string, added: seq<string>, removed: seq<string>)

  function ReadDelta(body: Value): Read<PackageDelta> {
    var id :- Require(Token(body.Get("peer_id")), "peer_id required");
    var added :- OptionalHashes(body.Get("added"));
    var removed :- OptionalHashes(body.Get("removed"));
    Good(PackageDelta(id, added, removed))
  }

  function PackagesOf(packages: map<string, set<string>>, id: string): set<string> {
    if id in packages then packages[id] else {}
  }

  function RecordDelta(s: State, d: PackageDelta): (State, Reply) {
    if !Room(s.localPackages, d.id) then (s, Refused(FULL))
    else
      var kept := PackagesOf(s.localPackages, d.id) - (set h | h in d.removed);
      (s.(localPackages := s.localPackages[d.id := kept + set h | h in d.added]), Accepted)
  }

  /** The rows of a reply that was fetched and can be read. */
  function Readable(reply: Option<Value>): Option<seq<Value>> {
    if reply.None? then None else Listed(reply.value, "peers")
  }

  /** A reply that cannot be fetched or read leaves its table as it was. */
  function Refresh(s: State, peers: Option<Value>, iroh: Option<Value>, now: Time): (State, Reply) {
    var peerRows, irohRows := Readable(peers), Readable(iroh);
    var s1 := if peerRows.None? then s else s.(learnedPeers := PeerTable(peerRows.value, now));
    var s2 := if irohRows.None? then s1 else s1.(learnedIroh := IrohTable(irohRows.value, now));
    (s2, if peerRows.Some? && irohRows.Some? then Accepted else Refused("upstream"))
  }

  function LearnProviders(s: State, hash: string, reply: Option<Value>, now: Time): State {
    if reply.None? then s
    else
      match Listed(reply.value, "providers")
      case None => s
      case Some(items) =>
        if Room(s.learnedProviders, hash)
        then s.(learnedProviders := s.learnedProviders[hash := ProviderList(items, now)])
        else s
  }

  datatype Request =
    | Announce(body: Value, addr: Option<string>, now: Time)
    | AnnounceIroh(body: Value, addr: Option<string>, now: Time)
    | Batch(body: Value)
    | Delta(body: Value)
    | Upstream(peers: Option<Value>, iroh: Option<Value>, now: Time)
    | Find(hash: string, found: Option<Value>, now: Time)

  function Handle(s: State, r: Request): (State, Reply) {
    match r
    case Announce(body, addr, now) =>
      (match ReadAnnounce(body, addr, now)
       case Bad(message) => (s, Refused(message))
       case Good(a) => RecordAnnounce(s, a.id, a.row, a.packages))
    case AnnounceIroh(body, addr, now) =>
      (match ReadIroh(body, addr, now)
       case Bad(message) => (s, Refused(message))
       case Good((node, row)) => RecordIroh(s, node, row))
    case Batch(body) =>
      (match ReadBatch(body)
       case Bad(message) => (s, Refused(message))
       case Good((id, hashes)) => RecordBatch(s, id, hashes))
    case Delta(body) =>
      (match ReadDelta(body)
       case Bad(message) => (s, Refused(message))
       case Good(d) => RecordDelta(s, d))
    case Upstream(peers, iroh, now) => Refresh(s, peers, iroh, now)
    case Find(hash, found, now) =>
      if !ValidHash(hash) then (s, Refused("invalid store hash"))
      else (LearnProviders(s, hash, found, now), Accepted)
  }

  function Run(s: State, requests: seq<Request>): State
    decreases |requests|
  {
    if requests == [] then s else Run(Handle(s, requests[0]).0, requests[1..])
  }
}
