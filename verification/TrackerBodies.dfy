/** What the tracker takes a request's body or an upstream item to say, and which bodies it takes. */
module TrackerBodies {
  import opened Json
  import opened Options
  import opened StorePaths
  import opened Tracker
  import Strings = Text

  /* ---- lists of hashes ---- */

  /** The body's list under this key holds the hash. */
  predicate Named(body: Value, key: string, h: string) {
    var list := body.Get(key);
    list.Some? && list.value.Array? && Text(h) in list.value.items
  }

  function NamedHashes(body: Value, key: string): (r: set<string>)
    ensures forall h: string :: h in r <==> Named(body, key, h)
  {
    var list := body.Get(key);
    if list.Some? && list.value.Array? then TextsOf(list.value.items) else {}
  }

  function TextsOf(items: seq<Value>): (r: set<string>)
    ensures forall h: string :: h in r <==> Text(h) in items
  {
    var r := set v | v in items && v.Text? :: v.text;
    assert forall h: string :: Text(h) in items ==> Text(h).text in r;
    r
  }

  /** Left out, null, or a list of at most 200,000 store hashes. */
  predicate HashesAllowed(v: Option<Value>) {
    || v.None? || v.value == Null
    || (v.value.Array? && |v.value.items| <= 200_000
        && forall i :: 0 <= i < |v.value.items| ==> IsHash(v.value.items[i]))
  }

  predicate IsHash(v: Value) {
    v.Text? && ValidHash(v.text)
  }

  lemma {:induction false} HashesRead(items: seq<Value>)
    ensures Hashes(items).Good? <==> forall i :: 0 <= i < |items| ==> IsHash(items[i])
    ensures Hashes(items).Good? ==> TextsOf(items) == set h | h in Hashes(items).value
    ensures Hashes(items).Good? ==> |Hashes(items).value| == |items|
    decreases |items|
  {
    hide ValidHash;
    if items != [] {
      HashesRead(items[1..]);
      assert items == [items[0]] + items[1..];
      if Hashes(items).Good? {
        assert Hashes(items).value == [items[0].text] + Hashes(items[1..]).value;
        forall h: string ensures h in TextsOf(items) <==> h in Hashes(items).value {
          assert Text(h) in items <==> items[0] == Text(h) || Text(h) in items[1..];
          assert h in TextsOf(items[1..]) <==> h in Hashes(items[1..]).value;
        }
      }
    }
  }

  lemma OptionalHashesRead(body: Value, key: string)
    ensures OptionalHashes(body.Get(key)).Good? <==> HashesAllowed(body.Get(key))
    ensures OptionalHashes(body.Get(key)).Good? ==>
              && NamedHashes(body, key) == (set h | h in OptionalHashes(body.Get(key)).value)
              && (NamedHashes(body, key) == {} <==> OptionalHashes(body.Get(key)).value == [])
  {
    hide Hashes, IsHash;
    var list := body.Get(key);
    if list.Some? && list.value.Array? {
      HashesRead(list.value.items);
    }
    if OptionalHashes(list).Good? && OptionalHashes(list).value != [] {
      assert OptionalHashes(list).value[0] in NamedHashes(body, key);
    }
  }

  /* ---- texts, ports and times ---- */

  /** A text of at most so many bytes, not empty, without blanks and control characters. */
  predicate Plain(v: Option<Value>, max: nat) {
    && v.Some? && v.value.Text? && 0 < |v.value.text| && Strings.ByteLength(v.value.text) <= max
    && forall i :: 0 <= i < |v.value.text| ==> v.value.text[i] > ' ' && v.value.text[i] != '\U{7F}'
  }

  predicate IsPort(v: Option<Value>) {
    v.Some? && v.value.Natural? && v.value.n < 65536
  }

  lemma TokenRead(v: Option<Value>)
    ensures Token(v).Some? <==> Plain(v, 256)
    ensures Token(v).Some? ==> v.Some? && v.value.Text? && Token(v).value == v.value.text
  {
    if Plain(v, 256) {
      forall i | 0 <= i < |v.value.text| ensures TokenChar(v.value.text[i]) {
      }
    }
  }

  /** A time in seconds that can be represented. */
  predicate IsTime(v: Option<Value>, seconds: real) {
    && v.Some?
    && (v.value == Number(seconds) || (v.value.Natural? && v.value.n as real == seconds))
    && -9_223_372_036_854_775_808.0 <= seconds < 9_223_372_036_854_775_808.0
  }

  /** A time that upstream gives is kept, and otherwise it is now. */
  lemma LastSeenKept(v: Option<Value>, now: Time)
    ensures forall seconds: real :: IsTime(v, seconds) ==> LastSeen(v, now) == seconds
    ensures LastSeen(v, now) == now || IsTime(v, LastSeen(v, now))
  {
  }

  /* ---- which requests are accepted ---- */

  /** The table has a row for the key, or fewer than ten thousand rows. */
  predicate HasRoom<T>(table: map<string, T>, key: string) {
    key in table || |table| < 10_000
  }

  function TextAt(body: Value, key: string): string {
    if body.Get(key).Some? && body.Get(key).value.Text? then body.Get(key).value.text else ""
  }

  lemma AnnounceAccepted(s: State, body: Value, addr: Option<string>, now: Time)
    ensures Handle(s, Announce(body, addr, now)).1.Accepted? <==>
            && Plain(body.Get("peer_id"), 256) && IsPort(body.Get("port")) && addr.Some?
            && HashesAllowed(body.Get("packages"))
            && HasRoom(s.localPeers, TextAt(body, "peer_id"))
            && (NamedHashes(body, "packages") == {} || HasRoom(s.localPackages, TextAt(body, "peer_id")))
  {
    hide Plain, HashesAllowed, OptionalHashes, Token, NamedHashes;
    TokenRead(body.Get("peer_id"));
    OptionalHashesRead(body, "packages");
  }

  lemma BatchAccepted(s: State, body: Value)
    ensures Handle(s, Batch(body)).1.Accepted? <==>
            && Plain(body.Get("peer_id"), 256) && HashesAllowed(body.Get("hashes"))
            && HasRoom(s.localPackages, TextAt(body, "peer_id"))
  {
    hide Plain, HashesAllowed, OptionalHashes, Token;
    TokenRead(body.Get("peer_id"));
    OptionalHashesRead(body, "hashes");
  }

  lemma DeltaAccepted(s: State, body: Value)
    ensures Handle(s, Delta(body)).1.Accepted? <==>
            && Plain(body.Get("peer_id"), 256)
            && HashesAllowed(body.Get("added")) && HashesAllowed(body.Get("removed"))
            && HasRoom(s.localPackages, TextAt(body, "peer_id"))
  {
    hide Plain, HashesAllowed, OptionalHashes, Token;
    TokenRead(body.Get("peer_id"));
    OptionalHashesRead(body, "added");
    OptionalHashesRead(body, "removed");
  }

  /* ---- nodes ---- */

  predicate RelayAllowed(v: Option<Value>) {
    v.None? || v.value == Null || v.value == Text("") || Plain(v, 512)
  }

  predicate AddrsAllowed(v: Option<Value>) {
    || v.None? || v.value == Null
    || (v.value.Array? && |v.value.items| <= 32
        && forall i :: 0 <= i < |v.value.items| ==> Plain(Some(v.value.items[i]), 256))
  }

  /** The texts of a list of texts. */
  function Texts(v: Option<Value>): seq<string> {
    if v.Some? && v.value.Array?
    then seq(|v.value.items|, i requires 0 <= i < |v.value.items| =>
           if v.value.items[i].Text? then v.value.items[i].text else "")
    else []
  }

  lemma TextsHead(items: seq<Value>)
    requires items != [] && items[0].Text?
    ensures Texts(Some(Array(items))) == [items[0].text] + Texts(Some(Array(items[1..])))
  {
  }

  lemma {:induction false} AddrsRead(items: seq<Value>)
    ensures Addrs(items).Good? <==> forall i :: 0 <= i < |items| ==> Plain(Some(items[i]), 256)
    ensures Addrs(items).Good? ==> Addrs(items).value == Texts(Some(Array(items)))
    decreases |items|
  {
    hide Plain, ValidToken, Texts;
    if items == [] {
      NoTexts();
    } else {
      AddrsRead(items[1..]);
      TokenRead(Some(items[0]));
      assert forall i :: 0 < i < |items| ==> items[i] == items[1..][i - 1];
      if items[0].Text? { TextsHead(items); }
    }
  }

  lemma NoTexts()
    ensures Texts(Some(Array([]))) == []
  {
  }

  lemma DirectAddrsRead(v: Option<Value>)
    ensures DirectAddrs(v).Good? <==> AddrsAllowed(v)
    ensures DirectAddrs(v).Good? ==> DirectAddrs(v).value == Texts(v)
  {
    hide Plain, Addrs;
    if v.Some? && v.value.Array? { AddrsRead(v.value.items); }
  }

  lemma RelayRead(v: Option<Value>)
    ensures Relay(v).Good? <==> RelayAllowed(v)
    ensures Plain(v, 512) ==> v.Some? && v.value.Text?
    ensures Relay(v).Good? ==> Relay(v).value == if Plain(v, 512) then Some(v.value.text) else None
  {
    if v.Some? && v.value.Text? {
      assert ValidToken(v.value.text, 512) <==> Plain(v, 512) by {
        if Plain(v, 512) { forall i | 0 <= i < |v.value.text| ensures TokenChar(v.value.text[i]) {} }
      }
    }
  }

  /** An announced node is taken with the relay and the addresses of its body. */
  lemma NodeAccepted(s: State, body: Value, addr: Option<string>, now: Time)
    ensures var (s', reply) := Handle(s, AnnounceIroh(body, addr, now));
            var node := TextAt(body, "node_id");
            && (reply.Accepted? <==>
                  && Plain(body.Get("node_id"), 256) && Plain(body.Get("peer_id"), 256) && addr.Some?
                  && RelayAllowed(body.Get("relay_url")) && AddrsAllowed(body.Get("direct_addrs"))
                  && HasRoom(s.localIroh, node))
            && (reply.Accepted? ==> s' == s.(localIroh := s.localIroh[node := NodeRow(body, addr.value, now)]))
  {
    hide Plain, RelayAllowed, AddrsAllowed, Relay, DirectAddrs, Token, Texts;
    TokenRead(body.Get("node_id"));
    TokenRead(body.Get("peer_id"));
    RelayRead(body.Get("relay_url"));
    DirectAddrsRead(body.Get("direct_addrs"));
  }

  function NodeRow(body: Value, addr: string, now: Time): IrohRow {
    IrohRow(
      TextAt(body, "peer_id"),
      if Plain(body.Get("relay_url"), 512) then Some(TextAt(body, "relay_url")) else None,
      Texts(body.Get("direct_addrs")), addr, now)
  }

  /* ---- upstream items ---- */

  function TextIfPlain(v: Value, key: string): Option<string> {
    if Plain(v.Get(key), 256) then Some(TextAt(v, key)) else None
  }

  /** Which upstream peers are learned, and as what. */
  lemma PeerLearned(v: Value, now: Time)
    ensures LearnedPeer(v, now).Some? <==>
            Plain(v.Get("peer_id"), 256) && Plain(v.Get("addr"), 256) && IsPort(v.Get("port"))
    ensures LearnedPeer(v, now).Some? ==>
              var p := LearnedPeer(v, now).value;
              && p.peerId == TextAt(v, "peer_id") && p.row.addr == TextAt(v, "addr")
              && p.row.port == v.Get("port").value.n && p.row.lastSeen == LastSeen(v.Get("last_seen"), now)
              && p.row.libp2p == TextIfPlain(v, "libp2p_peer_id")
  {
    hide Plain, Token, LastSeen;
    TokenRead(v.Get("peer_id"));
    TokenRead(v.Get("addr"));
    TokenRead(v.Get("libp2p_peer_id"));
  }

  /** The readable addresses of a list, in order. */
  function PlainTexts(items: seq<Value>): seq<string> {
    if items == [] then []
    else
      var front := PlainTexts(items[..|items| - 1]);
      if Plain(Some(items[|items| - 1]), 256) then front + [items[|items| - 1].text] else front
  }

  lemma {:induction false} PlainTextsHead(items: seq<Value>)
    requires items != []
    ensures PlainTexts(items)
         == (if Plain(Some(items[0]), 256) then [items[0].text] else []) + PlainTexts(items[1..])
    decreases |items|
  {
    hide Plain;
    if |items| == 1 {
      assert items[..0] == [] && items[1..] == [];
    } else {
      var front := items[..|items| - 1];
      PlainTextsHead(front);
      assert front[1..] == items[1..][..|items[1..]| - 1];
    }
  }

  lemma NoPlainTexts()
    ensures PlainTexts([]) == []
  {
  }

  /** Of an upstream node's addresses the first readable ones are kept. */
  lemma {:induction false} AddrsLearned(items: seq<Value>, room: nat)
    ensures LearnedAddrs(items, room)
         == if |PlainTexts(items)| <= room then PlainTexts(items) else PlainTexts(items)[..room]
    decreases |items|
  {
    hide Plain, PlainTexts, ValidToken;
    if items == [] {
      NoPlainTexts();
    } else if room != 0 {
      TokenRead(Some(items[0]));
      PlainTextsHead(items);
      if Plain(Some(items[0]), 256) { AddrsLearned(items[1..], room - 1); } else { AddrsLearned(items[1..], room); }
    }
  }

  /** Which upstream nodes are learned, and as what. */
  lemma NodeLearned(v: Value, now: Time)
    ensures LearnedIroh(v, now).Some? <==>
            Plain(v.Get("node_id"), 256) && Plain(v.Get("peer_id"), 256) && Plain(v.Get("addr"), 256)
    ensures LearnedIroh(v, now).Some? ==>
              var (node, row) := LearnedIroh(v, now).value;
              && node == TextAt(v, "node_id") && row.peerId == TextAt(v, "peer_id") && row.addr == TextAt(v, "addr")
              && row.lastSeen == LastSeen(v.Get("last_seen"), now) && row.relay == TextIfPlain(v, "relay_url")
              && row.directAddrs == FirstAddrs(v.Get("direct_addrs"))
  {
    hide Plain, Token, LastSeen, LearnedAddrs, PlainTexts;
    TokenRead(v.Get("node_id"));
    TokenRead(v.Get("peer_id"));
    TokenRead(v.Get("addr"));
    TokenRead(v.Get("relay_url"));
    var addrs := v.Get("direct_addrs");
    if addrs.Some? && addrs.value.Array? { AddrsLearned(addrs.value.items, 32); }
  }

  function FirstAddrs(v: Option<Value>): seq<string> {
    if v.None? || !v.value.Array? then []
    else
      var all := PlainTexts(v.value.items);
      if |all| <= 32 then all else all[..32]
  }

  /** A reply is readable exactly when it has a list of at most ten thousand rows under its key. */
  lemma ReplyReadable(reply: Value, key: string)
    ensures Listed(reply, key).Some? <==>
            reply.Get(key).Some? && reply.Get(key).value.Array? && |reply.Get(key).value.items| <= 10_000
    ensures Listed(reply, key).Some? ==> Listed(reply, key).value == reply.Get(key).value.items
  {
  }

  /** A search is accepted exactly for a store hash, and stores the providers of a readable reply while there is
      room. */
  lemma FindAccepted(s: State, hash: string, found: Option<Value>, now: Time)
    ensures var (s', reply) := Handle(s, Find(hash, found, now));
            && (reply.Accepted? <==> ValidHash(hash))
            && s' == if ValidHash(hash) && found.Some? && Listed(found.value, "providers").Some?
                        && HasRoom(s.learnedProviders, hash)
                     then s.(learnedProviders :=
                               s.learnedProviders[hash := ProviderList(Listed(found.value, "providers").value, now)])
                     else s
  {
    hide ValidHash, Listed, ProviderList;
  }
}
