/** The loops that write WireGuard configuration scripts. Map iteration order is whatever the
    runtime picks, so each writer also returns the order it happened to use. */
module WireGuardWriters {
  import opened Net
  import opened WireGuardConfig
  import opened WireGuardDevice
  import opened WireGuardScript
  import opened WireGuardDiff

  /** The allowed IPs of a peer, each once. */
  method WgAllowedIPs(peer: Peer, selected: bool, fam: Families) returns (result: seq<Prefix>)
    ensures Lists(result, AllowedSet(peer, selected, fam))
    ensures forall i, j :: 0 <= i < j < |result| ==> result[i] != result[j]
  {
    var all := peer.routes;
    for i := 0 to |peer.addresses|
      invariant forall x :: x in all <==> x in peer.routes || exists a :: a in peer.addresses[..i] && HostPrefix(a) == x
    {
      all := all + [HostPrefix(peer.addresses[i])];
      assert peer.addresses[..i + 1] == peer.addresses[..i] + [peer.addresses[i]];
    }
    assert peer.addresses[..|peer.addresses|] == peer.addresses;
    if selected {
      if fam.v4 {
        all := all + [DefaultRoute(false)];
      }
      if fam.v6 {
        all := all + [DefaultRoute(true)];
      }
    }
    result := [];
    for i := 0 to |all|
      invariant forall x :: x in result <==> x in all[..i]
      invariant forall j, k :: 0 <= j < k < |result| ==> result[j] != result[k]
    {
      assert all[..i + 1] == all[..i] + [all[i]];
      if all[i] !in result {
        result := result + [all[i]];
      }
    }
    assert all[..|all|] == all;
  }

  /** Appends the lines of one peer. */
  method WriteWGPeer(b: seq<Op>, peer: Peer, psk: Key, selected: bool, fam: Families)
    returns (out: seq<Op>, list: seq<Prefix>)
    ensures Lists(list, AllowedSet(peer, selected, fam))
    ensures out == b + Block(peer.publicKey, PeerState(psk, peer.endpoint, peer.keepalive / SECOND), list)
  {
    var p := PeerState(psk, peer.endpoint, peer.keepalive / SECOND);
    out := b + [PublicKey(peer.publicKey), PresharedKey(psk)];
    if peer.endpoint != "" {
      out := out + [Endpoint(peer.endpoint)];
    }
    out := out + [Keepalive(peer.keepalive / SECOND), ReplaceAllowedIPs];
    assert out == b + BlockHead(peer.publicKey, p);
    list := WgAllowedIPs(peer, selected, fam);
    for i := 0 to |list|
      invariant out == b + BlockHead(peer.publicKey, p) + AllowedIPs(list[..i])
    {
      AllowedIPsSnoc(list[..i], list[i]);
      assert list[..i + 1] == list[..i] + [list[i]];
      out := out + [AllowedIP(list[i])];
    }
    assert list[..|list|] == list;
  }

  lemma {:induction false} AllowedIPsSnoc(list: seq<Prefix>, x: Prefix)
    ensures AllowedIPs(list + [x]) == AllowedIPs(list) + [AllowedIP(x)]
  {
    if list == [] {
      assert [x][1..] == [];
    } else {
      assert (list + [x])[1..] == list[1..] + [x];
      AllowedIPsSnoc(list[1..], x);
    }
  }

  lemma {:induction false} BlocksSnoc(keys: seq<Key>, k: Key, w: Plan, lists: map<Key, seq<Prefix>>)
    requires forall l :: l in keys + [k] ==> l in w && l in lists
    ensures forall l :: l in keys ==> l in w && l in lists
    ensures Blocks(keys + [k], w, lists) == Blocks(keys, w, lists) + Block(k, w[k].state, lists[k])
  {
    assert k in keys + [k];
    if keys == [] {
      assert [k][1..] == [];
      assert Blocks([k], w, lists) == Block(k, w[k].state, lists[k]) + Blocks([], w, lists);
    } else {
      assert (keys + [k])[1..] == keys[1..] + [k];
      BlocksSnoc(keys[1..], k, w, lists);
    }
  }

  lemma {:induction false} BlocksIgnore(keys: seq<Key>, w: Plan, lists: map<Key, seq<Prefix>>, more: map<Key, seq<Prefix>>)
    requires forall l :: l in keys ==> l in w && l in lists && l in more && lists[l] == more[l]
    ensures Blocks(keys, w, lists) == Blocks(keys, w, more)
  {
    if keys != [] {
      BlocksIgnore(keys[1..], w, lists, more);
    }
  }

  /** Allowed IPs have been listed for exactly the peers written so far. */
  ghost predicate ListedFor(keys: seq<Key>, lists: map<Key, seq<Prefix>>, w: Plan) {
    && (forall k :: k in keys <==> k in lists)
    && (forall k :: k in lists ==> k in w && Lists(lists[k], w[k].ips))
  }

  lemma BlocksExtend(keys: seq<Key>, k: Key, w: Plan, lists: map<Key, seq<Prefix>>, list: seq<Prefix>)
    requires ListedFor(keys, lists, w) && k in w && k !in keys && Lists(list, w[k].ips)
    ensures ListedFor(keys + [k], lists[k := list], w)
    ensures Blocks(keys + [k], w, lists[k := list]) == Blocks(keys, w, lists) + Block(k, w[k].state, list)
  {
    BlocksIgnore(keys, w, lists, lists[k := list]);
    BlocksSnoc(keys, k, w, lists[k := list]);
  }

  lemma {:induction false} RemoveOpsSnoc(keys: seq<Key>, k: Key)
    ensures RemoveOps(keys + [k]) == RemoveOps(keys) + [PublicKey(k), Remove]
  {
    if keys == [] {
      assert [k][1..] == [];
    } else {
      assert (keys + [k])[1..] == keys[1..] + [k];
      RemoveOpsSnoc(keys[1..], k);
    }
  }

  /** The lines about the device itself. */
  method FullHeader(r: Running, bypassMark: bool) returns (b: seq<Op>)
    ensures b == FullPreamble(r, bypassMark)
  {
    b := [];
    if r.secrets.privateKey.Some? {
      b := b + [PrivateKey(r.secrets.privateKey.value)];
    }
    if bypassMark {
      b := b + [Fwmark(LINUX_BYPASS_MARK)];
    }
    b := b + [ListenPort(r.cfg.listenPort), ReplacePeers];
  }

  method FullWGConfig(r: Running, bypassMark: bool) returns (b: seq<Op>)
    requires DistinctKeys(r.cfg.peers)
    ensures FullOf(b, r, bypassMark)
  {
    hide FullPreamble, KeysInOrder, PlanOf, Lists, Block, AllowedSet, StateOf, WantedFor, AddressFamilies,
      PeerHasAddress;
    b := FullHeader(r, bypassMark);
    var fam := AddressFamilies(r.cfg);
    var peers := r.cfg.peers;
    ghost var keys, plan, head := KeysInOrder(peers), PlanOf(r), b;
    ghost var lists: map<Key, seq<Prefix>> := map[];
    NoneListed(r);
    for i := 0 to |peers|
      invariant ListedFor(keys[..i], lists, plan)
      invariant b == head + Blocks(keys[..i], plan, lists)
    {
      var peer := peers[i];
      PeerTarget(r, i);
      var list;
      b, list := WriteWGPeer(b, peer, Psk(r.secrets, peer.name), PeerHasAddress(peer, r.exit), fam);
      TakeSnoc(keys, i);
      BlocksExtend(keys[..i], keys[i], plan, lists, list);
      lists := lists[peer.publicKey := list];
    }
    assert keys[..|peers|] == keys;
    FullListed(r, lists);
    assert b == FullScript(r, bypassMark, lists);
  }

  lemma NoneListed(r: Running)
    ensures |KeysInOrder(r.cfg.peers)| == |r.cfg.peers|
    ensures KeysInOrder(r.cfg.peers)[..0] == []
    ensures ListedFor([], map[], PlanOf(r))
  {
  }

  lemma PeerTarget(r: Running, i: nat)
    requires DistinctKeys(r.cfg.peers) && i < |r.cfg.peers|
    ensures var keys, p := KeysInOrder(r.cfg.peers), r.cfg.peers[i];
            && p.publicKey == keys[i] && keys[i] !in keys[..i]
            && keys[i] in PlanOf(r)
            && PlanOf(r)[keys[i]].state == PeerState(Psk(r.secrets, p.name), p.endpoint, p.keepalive / SECOND)
            && PlanOf(r)[keys[i]].ips == AllowedSet(p, PeerHasAddress(p, r.exit), AddressFamilies(r.cfg))
  {
    ByKeyFinds(r.cfg.peers, r.cfg.peers[i]);
  }

  lemma FullListed(r: Running, lists: map<Key, seq<Prefix>>)
    requires DistinctKeys(r.cfg.peers) && ListedFor(KeysInOrder(r.cfg.peers), lists, PlanOf(r))
    ensures ListsPlan(lists, PlanOf(r))
  {
    KeysListPlan(r);
  }

  lemma EnumeratesSnoc(order: seq<Key>, keys: set<Key>, todo: set<Key>, key: Key)
    requires Enumerates(order, keys - todo) && key in todo && key in keys
    ensures key !in order
    ensures Enumerates(order + [key], keys - (todo - {key}))
  {
  }

  lemma EnumeratesSkip(order: seq<Key>, keys: set<Key>, todo: set<Key>, key: Key)
    requires Enumerates(order, keys - todo) && key in todo && key !in keys
    ensures Enumerates(order, keys - (todo - {key}))
  {
    assert keys - (todo - {key}) == keys - todo;
  }

  lemma TakeSnoc<T>(s: seq<T>, i: nat)
    requires i < |s|
    ensures s[..i + 1] == s[..i] + [s[i]]
  {
  }

  /** Removal of the peers that need it, in the order the map yields them. */
  method Removals(keys: set<Key>) returns (b: seq<Op>, order: seq<Key>)
    ensures Enumerates(order, keys) && b == RemoveOps(order)
  {
    b, order := [], [];
    var todo := keys;
    while todo != {}
      invariant todo <= keys && Enumerates(order, keys - todo) && b == RemoveOps(order)
      decreases todo
    {
      var key :| key in todo;
      RemoveOpsSnoc(order, key);
      b := b + [PublicKey(key), Remove];
      order := order + [key];
      todo := todo - {key};
    }
  }

  method DiffWGConfig(prev: Running, next: Running) returns (b: seq<Op>)
    requires DistinctKeys(next.cfg.peers)
    ensures ForwardOf(b, prev, next)
  {
    ghost var c := DiffChange(prev, next);
    b := [];
    if prev.secrets.privateKey.Some? && next.secrets.privateKey.Some?
       && prev.secrets.privateKey != next.secrets.privateKey {
      b := b + [PrivateKey(next.secrets.privateKey.value)];
    }
    if prev.cfg.listenPort != next.cfg.listenPort {
      b := b + [ListenPort(next.cfg.listenPort)];
    }
    assert b == Preamble(c);
    var removeFirst, removeLast := Departures(prev, next);
    var first, firstOrder := Removals(removeFirst);
    var blocks, order, lists := Rewrites(prev, next);
    var last, lastOrder := Removals(removeLast);
    b := b + first + blocks + last;
    ghost var o := Order(firstOrder, order, lastOrder, lists);
    assert OrderOf(o, c) && b == Script(c, o);
  }

  /** The peers to remove before the others are written, and those to remove after. */
  method Departures(prev: Running, next: Running) returns (removeFirst: set<Key>, removeLast: set<Key>)
    ensures removeFirst == DiffChange(prev, next).removeFirst
    ensures removeLast == DiffChange(prev, next).removeLast
  {
    var prevByKey, nextByKey := ByKey(prev.cfg.peers), ByKey(next.cfg.peers);
    assert forall k :: Replaced(prev, next, k) <==>
      k in prevByKey && k in nextByKey && prevByKey[k].endpoint != "" && nextByKey[k].endpoint == "";
    hide ByKey, Replaced;
    removeFirst, removeLast := {}, {};
    var todo := prevByKey.Keys;
    while todo != {}
      invariant todo <= prevByKey.Keys
      invariant forall k :: k in removeFirst <==> k in prevByKey && k !in todo && Replaced(prev, next, k)
      invariant forall k :: k in removeLast <==> k in prevByKey && k !in todo && k !in nextByKey
      decreases todo
    {
      var key :| key in todo;
      if prevByKey[key].endpoint != "" && key in nextByKey && nextByKey[key].endpoint == "" {
        removeFirst := removeFirst + {key};
      } else if key !in nextByKey {
        removeLast := removeLast + {key};
      }
      todo := todo - {key};
    }
  }

  lemma WrittenTarget(prev: Running, next: Running, k: Key)
    requires k in ByKey(next.cfg.peers) && NeedsWrite(prev, next, k)
    ensures var c, p := DiffChange(prev, next), ByKey(next.cfg.peers)[k];
            && k in c.to && p.publicKey == k
            && c.to[k].state == PeerState(Psk(next.secrets, p.name), p.endpoint, p.keepalive / SECOND)
            && c.to[k].ips == AllowedSet(p, PeerHasAddress(p, next.exit), AddressFamilies(next.cfg))
  {
  }

  /** The peers that are new or changed, in the order the map yields them. */
  method Rewrites(prev: Running, next: Running)
    returns (b: seq<Op>, ghost order: seq<Key>, ghost lists: map<Key, seq<Prefix>>)
    ensures var c := DiffChange(prev, next);
            && Enumerates(order, c.write)
            && ListedFor(order, lists, c.to)
            && b == Blocks(order, c.to, lists)
  {
    ghost var c := DiffChange(prev, next);
    var nextByKey, fam := ByKey(next.cfg.peers), AddressFamilies(next.cfg);
    b, order, lists := [], [], map[];
    assert Enumerates(order, c.write - nextByKey.Keys);
    hide Lists, Block, NeedsWrite, Enumerates, AllowedSet, StateOf, WantedFor, AddressFamilies, PeerHasAddress;
    var todo := nextByKey.Keys;
    while todo != {}
      invariant todo <= nextByKey.Keys
      invariant Enumerates(order, c.write - todo)
      invariant ListedFor(order, lists, c.to)
      invariant b == Blocks(order, c.to, lists)
      decreases todo
    {
      var key :| key in todo;
      var peer := nextByKey[key];
      if NeedsWrite(prev, next, key) {
        var list;
        WrittenTarget(prev, next, key);
        b, list := WriteWGPeer(b, peer, Psk(next.secrets, peer.name), PeerHasAddress(peer, next.exit), fam);
        EnumeratesSnoc(order, c.write, todo, key);
        BlocksExtend(order, key, c.to, lists, list);
        lists := lists[key := list];
        order := order + [key];
      } else {
        EnumeratesSkip(order, c.write, todo, key);
      }
      todo := todo - {key};
    }
    assert c.write - todo == c.write;
  }
}
