/** Which peer owns a source address: prefix subtraction as the packet filter computes it,
    and longest match as the device does it. */
module Ownership {
  import opened Net
  import opened WireGuardConfig
  import opened WireGuardDevice
  import opened WireGuardScript
  import opened WireGuardDiff

  /** A set of addresses, by its membership test. */
  type IPSet = Addr -> bool

  function EmptySet(): IPSet {
    (a: Addr) => false
  }

  function AddPrefix(s: IPSet, p: Prefix): IPSet {
    (a: Addr) => s(a) || Contains(p, a)
  }

  function RemovePrefix(s: IPSet, p: Prefix): IPSet {
    (a: Addr) => s(a) && !Contains(p, a)
  }

  function AddSet(s: IPSet, t: IPSet): IPSet {
    (a: Addr) => s(a) || t(a)
  }

  function Intersect(s: IPSet, t: IPSet): IPSet {
    (a: Addr) => s(a) && t(a)
  }

  datatype Kind = Direct | Routed | Default

  datatype Item = Item(peer: string, kind: Kind, value: Prefix)

  datatype Owned = Owned(
    all: IPSet,
    peers: map<string, IPSet>,
    routes: map<string, IPSet>,
    allPeers: IPSet,
    allRoutes: IPSet)

  // What a configuration declares

  ghost predicate Declares(cfg: Config, exit: Option<Addr>, d: Item) {
    match d.kind
    case Direct => exists p, a :: p in cfg.peers && p.name == d.peer && a in p.addresses && d.value == HostPrefix(a)
    case Routed => exists p :: p in cfg.peers && p.name == d.peer && d.value in p.routes && d.value.bits != 0
    case Default => && Selected(cfg.peers, exit) == d.peer && d.peer != ""
                    && d.value == DefaultRoute(d.value.v6) && AddressFamilies(cfg).Has(d.value.v6)
  }

  /** The name of the exit peer that `exit` selects, empty if it selects none. */
  function Selected(peers: seq<Peer>, exit: Option<Addr>): string {
    if peers == [] then ""
    else
      var last := peers[|peers| - 1];
      if last.exitNode && PeerHasAddress(last, exit) then last.name else Selected(peers[..|peers| - 1], exit)
  }

  lemma SelectedIn(peers: seq<Peer>, exit: Option<Addr>)
    ensures Selected(peers, exit) != "" ==>
      exists p :: p in peers && p.name == Selected(peers, exit) && p.exitNode && PeerHasAddress(p, exit)
  {
    if peers != [] {
      var n := |peers| - 1;
      assert peers == peers[..n] + [peers[n]];
      if !(peers[n].exitNode && PeerHasAddress(peers[n], exit)) {
        SelectedIn(peers[..n], exit);
      }
    }
  }

  /** The longest declared prefix that contains `a`. */
  ghost predicate Longest(cfg: Config, exit: Option<Addr>, a: Addr, d: Item) {
    && Declares(cfg, exit, d)
    && Contains(d.value, a)
    && forall e :: Declares(cfg, exit, e) && Contains(e.value, a) ==> e.value.bits <= d.value.bits
  }

  /** Longest match over everything declared gives `a` to the peer. */
  ghost predicate LongestOwner(cfg: Config, exit: Option<Addr>, a: Addr, peer: string) {
    exists d: Item :: d.peer == peer && Longest(cfg, exit, a, d)
  }

  ghost predicate IsDirect(cfg: Config, a: Addr) {
    exists p :: p in cfg.peers && a in p.addresses
  }

  // Prefix subtraction

  /** `other` is cut out of `item`: it belongs to another peer, is longer and lies inside. */
  predicate CutsInto(other: Item, item: Item) {
    && other.peer != item.peer
    && other.value.v6 == item.value.v6
    && other.value.bits > item.value.bits
    && Contains(item.value, NetworkAddr(other.value))
  }

  ghost predicate InEffective(declared: seq<Item>, item: Item, a: Addr) {
    && Contains(item.value, a)
    && (forall o :: o in declared && CutsInto(o, item) ==> !Contains(o.value, a))
    && (item.kind == Routed ==> forall d :: d in declared && d.kind == Direct ==> !Contains(d.value, a))
  }

  method EffectiveSet(declared: seq<Item>, item: Item) returns (s: IPSet)
    ensures forall a: Addr :: s(a) <==> InEffective(declared, item, a)
  {
    s := AddPrefix(EmptySet(), item.value);
    for i := 0 to |declared|
      invariant forall a: Addr :: s(a) <==>
        Contains(item.value, a) && forall o :: o in declared[..i] && CutsInto(o, item) ==> !Contains(o.value, a)
    {
      assert declared[..i + 1] == declared[..i] + [declared[i]];
      if CutsInto(declared[i], item) {
        s := RemovePrefix(s, declared[i].value);
      }
    }
    assert declared[..|declared|] == declared;
    if item.kind == Routed {
      ghost var before := s;
      for i := 0 to |declared|
        invariant forall a: Addr :: s(a) <==>
          before(a) && forall d :: d in declared[..i] && d.kind == Direct ==> !Contains(d.value, a)
      {
        assert declared[..i + 1] == declared[..i] + [declared[i]];
        if declared[i].kind == Direct {
          s := RemovePrefix(s, declared[i].value);
        }
      }
      assert declared[..|declared|] == declared;
    }
  }

  /** Everything the configuration declares, in the order of its peers. */
  method Declarations(cfg: Config, exit: Option<Addr>) returns (declared: seq<Item>)
    ensures forall d :: d in declared <==> Declares(cfg, exit, d)
  {
    declared := [];
    var selected := "";
    var peers := cfg.peers;
    for i := 0 to |peers|
      invariant forall d :: d in declared <==> d.kind != Default && Declares(cfg.(peers := peers[..i]), exit, d)
      invariant selected == Selected(peers[..i], exit)
    {
      var items := PeerItems(peers[i]);
      assert peers[..i + 1] == peers[..i] + [peers[i]];
      assert peers[..i + 1][..i] == peers[..i];
      MoreDeclared(cfg, exit, peers, i);
      declared := declared + items;
      if exit.Some? && peers[i].exitNode && exit.value in peers[i].addresses {
        selected := peers[i].name;
      }
    }
    assert peers[..|peers|] == peers;
    if selected != "" {
      var families := AddressFamilies(cfg);
      if families.v4 {
        declared := declared + [Item(selected, Default, DefaultRoute(false))];
      }
      if families.v6 {
        declared := declared + [Item(selected, Default, DefaultRoute(true))];
      }
    }
  }

  ghost predicate DeclaredBy(p: Peer, d: Item) {
    && d.peer == p.name
    && match d.kind
       case Direct => exists a :: a in p.addresses && d.value == HostPrefix(a)
       case Routed => d.value in p.routes && d.value.bits != 0
       case Default => false
  }

  lemma MoreDeclared(cfg: Config, exit: Option<Addr>, peers: seq<Peer>, i: nat)
    requires i < |peers|
    ensures forall d: Item :: d.kind != Default ==>
      (Declares(cfg.(peers := peers[..i + 1]), exit, d)
       <==> Declares(cfg.(peers := peers[..i]), exit, d) || DeclaredBy(peers[i], d))
  {
    assert peers[..i + 1] == peers[..i] + [peers[i]];
  }

  method PeerItems(p: Peer) returns (items: seq<Item>)
    ensures forall d :: d in items <==> DeclaredBy(p, d)
  {
    items := [];
    for j := 0 to |p.addresses|
      invariant forall d :: d in items <==>
        d.peer == p.name && d.kind == Direct && exists a :: a in p.addresses[..j] && d.value == HostPrefix(a)
    {
      assert p.addresses[..j + 1] == p.addresses[..j] + [p.addresses[j]];
      items := items + [Item(p.name, Direct, HostPrefix(p.addresses[j]))];
    }
    assert p.addresses[..|p.addresses|] == p.addresses;
    for j := 0 to |p.routes|
      invariant forall d :: d in items <==>
        (d.kind == Direct && DeclaredBy(p, d))
        || (d.peer == p.name && d.kind == Routed && d.value in p.routes[..j] && d.value.bits != 0)
    {
      assert p.routes[..j + 1] == p.routes[..j] + [p.routes[j]];
      if p.routes[j].bits != 0 {
        items := items + [Item(p.name, Routed, p.routes[j])];
      }
    }
    assert p.routes[..|p.routes|] == p.routes;
  }

  ghost predicate Owns(declared: seq<Item>, peer: string, a: Addr) {
    exists d: Item :: d in declared && d.peer == peer && InEffective(declared, d, a)
  }

  ghost predicate OwnsAs(declared: seq<Item>, peer: string, kind: Kind, a: Addr) {
    exists d: Item :: d in declared && d.peer == peer && d.kind == kind && InEffective(declared, d, a)
  }

  method PeerSets(declared: seq<Item>, peer: string) returns (owned: IPSet, direct: IPSet, routes: IPSet)
    ensures forall a: Addr :: owned(a) <==> Owns(declared, peer, a)
    ensures forall a: Addr :: direct(a) <==> OwnsAs(declared, peer, Direct, a)
    ensures forall a: Addr :: routes(a) <==> OwnsAs(declared, peer, Routed, a)
  {
    hide InEffective;
    owned, direct, routes := EmptySet(), EmptySet(), EmptySet();
    for i := 0 to |declared|
      invariant forall a: Addr :: owned(a) <==>
        exists d: Item :: d in declared[..i] && d.peer == peer && InEffective(declared, d, a)
      invariant forall a: Addr :: direct(a) <==>
        exists d: Item :: d in declared[..i] && d.peer == peer && d.kind == Direct && InEffective(declared, d, a)
      invariant forall a: Addr :: routes(a) <==>
        exists d: Item :: d in declared[..i] && d.peer == peer && d.kind == Routed && InEffective(declared, d, a)
    {
      assert declared[..i + 1] == declared[..i] + [declared[i]];
      if declared[i].peer == peer {
        var effective := EffectiveSet(declared, declared[i]);
        owned := AddSet(owned, effective);
        if declared[i].kind == Direct {
          direct := AddSet(direct, effective);
        } else if declared[i].kind == Routed {
          routes := AddSet(routes, effective);
        }
      }
    }
    assert declared[..|declared|] == declared;
  }

  /** Source ownership of a configuration with the given exit selection. */
  method BuildOwnership(cfg: Config, exit: Option<Addr>) returns (result: Owned, owned: map<string, IPSet>)
    ensures result.peers.Keys == result.routes.Keys == owned.Keys == set p | p in cfg.peers :: p.name
    ensures WellFormedPeers(cfg.peers) ==> OwnershipHolds(cfg, exit, result, owned)
  {
    var declared := Declarations(cfg, exit);
    result := Owned(EmptySet(), map[], map[], EmptySet(), EmptySet());
    owned := map[];
    var peers := cfg.peers;
    for i := 0 to |peers|
      invariant result.peers.Keys == result.routes.Keys == owned.Keys == set p | p in peers[..i] :: p.name
      invariant Collected(declared, peers[..i], result, owned)
    {
      assert peers[..i + 1] == peers[..i] + [peers[i]];
      var name := peers[i].name;
      var mine, direct, routes := PeerSets(declared, name);
      ghost var before, beforeOwned := result, owned;
      result := Owned(
        AddSet(result.all, mine),
        result.peers[name := direct],
        result.routes[name := routes],
        AddSet(result.allPeers, direct),
        AddSet(result.allRoutes, routes));
      owned := owned[name := mine];
      CollectOne(declared, peers[..i], peers[i], before, beforeOwned, result, owned);
    }
    assert peers[..|peers|] == peers;
    if WellFormedPeers(cfg.peers) {
      CollectedHolds(cfg, exit, declared, result, owned);
    }
  }

  /** The sets collected for the peers handled so far. */
  ghost predicate Collected(declared: seq<Item>, peers: seq<Peer>, r: Owned, owned: map<string, IPSet>) {
    && (forall n, a: Addr :: n in owned ==> (owned[n](a) <==> Owns(declared, n, a)))
    && (forall n, a: Addr :: n in r.peers ==> (r.peers[n](a) <==> OwnsAs(declared, n, Direct, a)))
    && (forall n, a: Addr :: n in r.routes ==> (r.routes[n](a) <==> OwnsAs(declared, n, Routed, a)))
    && (forall a: Addr :: r.all(a) <==> exists p :: p in peers && Owns(declared, p.name, a))
    && (forall a: Addr :: r.allPeers(a) <==> exists p :: p in peers && OwnsAs(declared, p.name, Direct, a))
    && (forall a: Addr :: r.allRoutes(a) <==> exists p :: p in peers && OwnsAs(declared, p.name, Routed, a))
  }

  lemma CollectOne(declared: seq<Item>, peers: seq<Peer>, p: Peer, r: Owned, owned: map<string, IPSet>,
                   s: Owned, sOwned: map<string, IPSet>)
    requires Collected(declared, peers, r, owned)
    requires p.name in sOwned && p.name in s.peers && p.name in s.routes
    requires forall a: Addr :: sOwned[p.name](a) <==> Owns(declared, p.name, a)
    requires forall a: Addr :: s.peers[p.name](a) <==> OwnsAs(declared, p.name, Direct, a)
    requires forall a: Addr :: s.routes[p.name](a) <==> OwnsAs(declared, p.name, Routed, a)
    requires sOwned == owned[p.name := sOwned[p.name]]
    requires s.peers == r.peers[p.name := s.peers[p.name]] && s.routes == r.routes[p.name := s.routes[p.name]]
    requires forall a: Addr :: s.all(a) <==> r.all(a) || sOwned[p.name](a)
    requires forall a: Addr :: s.allPeers(a) <==> r.allPeers(a) || s.peers[p.name](a)
    requires forall a: Addr :: s.allRoutes(a) <==> r.allRoutes(a) || s.routes[p.name](a)
    ensures Collected(declared, peers + [p], s, sOwned)
  {
    hide Owns, OwnsAs;
  }

  // What the collected sets are

  /** Longest match gives `a` to a route of the peer, and `a` is nobody's own address. */
  ghost predicate RoutedOwner(cfg: Config, exit: Option<Addr>, a: Addr, peer: string) {
    !IsDirect(cfg, a) && exists d: Item :: d.peer == peer && d.kind == Routed && Longest(cfg, exit, a, d)
  }

  ghost predicate OwnershipHolds(cfg: Config, exit: Option<Addr>, r: Owned, owned: map<string, IPSet>) {
    && (forall p :: p in cfg.peers ==> p.name in owned && p.name in r.peers && p.name in r.routes)
    // a peer owns an address exactly when longest match over all that is declared says so
    && (forall p, a: Addr :: p in cfg.peers ==> (owned[p.name](a) <==> LongestOwner(cfg, exit, a, p.name)))
    && (forall p, a: Addr :: p in cfg.peers ==> (r.peers[p.name](a) <==> a in p.addresses))
    && (forall p, a: Addr :: p in cfg.peers ==> (r.routes[p.name](a) <==> RoutedOwner(cfg, exit, a, p.name)))
    // together the peers own all declared space
    && (forall a: Addr :: r.all(a) <==> exists d: Item :: Declares(cfg, exit, d) && Contains(d.value, a))
    && (forall a: Addr :: r.allPeers(a) <==> IsDirect(cfg, a))
    && (forall a: Addr :: r.allRoutes(a) <==> exists p :: p in cfg.peers && RoutedOwner(cfg, exit, a, p.name))
  }

  ghost predicate Declaring(declared: seq<Item>, cfg: Config, exit: Option<Addr>) {
    forall d :: d in declared <==> Declares(cfg, exit, d)
  }

  /** One prefix is declared by one peer only. */
  lemma SamePrefixSamePeer(cfg: Config, exit: Option<Addr>, d: Item, e: Item)
    requires WellFormedPeers(cfg.peers) && Declares(cfg, exit, d) && Declares(cfg, exit, e) && d.value == e.value
    ensures d.peer == e.peer
  {
    assert d.kind == Default <==> d.value.bits == 0;
    assert e.kind == Default <==> e.value.bits == 0;
    if d.kind != Default {
      var p := Declarer(cfg, exit, d);
      var q := Declarer(cfg, exit, e);
      var i :| 0 <= i < |cfg.peers| && cfg.peers[i] == p;
      var j :| 0 <= j < |cfg.peers| && cfg.peers[j] == q;
      assert d.value in DeclaredPrefixes(cfg.peers[i]) * DeclaredPrefixes(cfg.peers[j]);
    }
  }

  lemma Declarer(cfg: Config, exit: Option<Addr>, d: Item) returns (p: Peer)
    requires Declares(cfg, exit, d) && d.kind != Default
    ensures p in cfg.peers && p.name == d.peer && d.value in DeclaredPrefixes(p)
    ensures d.kind == Direct ==> exists a :: a in p.addresses && d.value == HostPrefix(a)
  {
    if d.kind == Direct {
      var q, a :| q in cfg.peers && q.name == d.peer && a in q.addresses && d.value == HostPrefix(a);
      p := q;
    } else {
      p :| p in cfg.peers && p.name == d.peer && d.value in p.routes && d.value.bits != 0;
    }
  }

  /** Some declared prefix of `a` is longest, if any contains it. */
  lemma {:induction false} LongestExists(declared: seq<Item>, a: Addr, n: nat) returns (m: Item)
    requires n <= |declared| && exists d :: d in declared[..n] && Contains(d.value, a)
    ensures m in declared[..n] && Contains(m.value, a)
    ensures forall d :: d in declared[..n] && Contains(d.value, a) ==> d.value.bits <= m.value.bits
  {
    assert declared[..n] == declared[..n - 1] + [declared[n - 1]];
    var last := declared[n - 1];
    if exists d :: d in declared[..n - 1] && Contains(d.value, a) {
      m := LongestExists(declared, a, n - 1);
      if Contains(last.value, a) && last.value.bits > m.value.bits {
        m := last;
      }
    } else {
      m := last;
    }
  }

  /** The owner by subtraction of anything that contains `a` is the owner by longest match. */
  lemma EffectiveOwner(cfg: Config, exit: Option<Addr>, declared: seq<Item>, d: Item, a: Addr) returns (m: Item)
    requires WellFormedPeers(cfg.peers) && Declaring(declared, cfg, exit)
    requires d in declared && InEffective(declared, d, a)
    ensures Longest(cfg, exit, a, m) && m.peer == d.peer && m.value.bits >= d.value.bits
  {
    assert declared[..|declared|] == declared;
    m := LongestExists(declared, a, |declared|);
    Nested(d.value, m.value, a);
    if m.peer != d.peer {
      if m.value.bits > d.value.bits {
        ContainsNetworkAddr(d.value, m.value);
      } else {
        SamePrefixSamePeer(cfg, exit, m, d);
      }
    }
  }

  lemma DirectIsHost(cfg: Config, exit: Option<Addr>, d: Item, a: Addr)
    requires Declares(cfg, exit, d) && d.kind == Direct && Contains(d.value, a)
    ensures d.value == HostPrefix(a) && IsDirect(cfg, a)
  {
    var p := Declarer(cfg, exit, d);
    var b :| b in p.addresses && d.value == HostPrefix(b);
    HostPrefixContains(b, a);
  }

  /** Nothing cuts into the longest prefix, unless it is a route over a peer's own address. */
  lemma LongestIsEffective(cfg: Config, exit: Option<Addr>, declared: seq<Item>, d: Item, a: Addr)
    requires Declaring(declared, cfg, exit) && Longest(cfg, exit, a, d)
    requires d.kind == Routed ==> !IsDirect(cfg, a)
    ensures d in declared && InEffective(declared, d, a)
  {
    forall e | e in declared && e.kind == Direct && d.kind == Routed
      ensures !Contains(e.value, a)
    {
      if Contains(e.value, a) {
        DirectIsHost(cfg, exit, e, a);
      }
    }
  }

  lemma DirectItem(cfg: Config, exit: Option<Addr>, a: Addr) returns (d: Item)
    requires IsDirect(cfg, a)
    ensures d.kind == Direct && d.value == HostPrefix(a) && Longest(cfg, exit, a, d)
    ensures exists p :: p in cfg.peers && a in p.addresses && p.name == d.peer
  {
    var p :| p in cfg.peers && a in p.addresses;
    d := Item(p.name, Direct, HostPrefix(a));
    assert Declares(cfg, exit, d);
    HostPrefixContains(a, a);
  }

  lemma OwnsIsLongest(cfg: Config, exit: Option<Addr>, declared: seq<Item>, peer: string, a: Addr)
    requires WellFormedPeers(cfg.peers) && Declaring(declared, cfg, exit)
    ensures Owns(declared, peer, a) <==> LongestOwner(cfg, exit, a, peer)
  {
    if Owns(declared, peer, a) {
      var d :| d in declared && d.peer == peer && InEffective(declared, d, a);
      var m := EffectiveOwner(cfg, exit, declared, d, a);
    }
    if LongestOwner(cfg, exit, a, peer) {
      var d: Item :| d.peer == peer && Longest(cfg, exit, a, d);
      if d.kind == Routed && IsDirect(cfg, a) {
        var e := DirectItem(cfg, exit, a);
        Nested(d.value, e.value, a);
        Nested(e.value, d.value, a);
        SamePrefixSamePeer(cfg, exit, d, e);
        LongestIsEffective(cfg, exit, declared, e, a);
      } else {
        LongestIsEffective(cfg, exit, declared, d, a);
      }
    }
  }

  lemma OwnsDirect(cfg: Config, exit: Option<Addr>, declared: seq<Item>, p: Peer, a: Addr)
    requires WellFormedPeers(cfg.peers) && Declaring(declared, cfg, exit) && p in cfg.peers
    ensures OwnsAs(declared, p.name, Direct, a) <==> a in p.addresses
  {
    if OwnsAs(declared, p.name, Direct, a) {
      var d :| d in declared && d.peer == p.name && d.kind == Direct && InEffective(declared, d, a);
      DirectIsHost(cfg, exit, d, a);
      var q, b :| q in cfg.peers && q.name == d.peer && b in q.addresses && d.value == HostPrefix(b);
      SameNameSamePeer(cfg.peers, p, q);
    }
    if a in p.addresses {
      var d := Item(p.name, Direct, HostPrefix(a));
      assert Declares(cfg, exit, d);
      HostPrefixContains(a, a);
      LongestIsEffective(cfg, exit, declared, d, a);
    }
  }

  lemma SameNameSamePeer(peers: seq<Peer>, p: Peer, q: Peer)
    requires DistinctNames(peers) && p in peers && q in peers && p.name == q.name
    ensures p == q
  {
    var i :| 0 <= i < |peers| && peers[i] == p;
    var j :| 0 <= j < |peers| && peers[j] == q;
  }

  lemma OwnsRouted(cfg: Config, exit: Option<Addr>, declared: seq<Item>, peer: string, a: Addr)
    requires WellFormedPeers(cfg.peers) && Declaring(declared, cfg, exit)
    ensures OwnsAs(declared, peer, Routed, a) <==> RoutedOwner(cfg, exit, a, peer)
  {
    if OwnsAs(declared, peer, Routed, a) {
      var d :| d in declared && d.peer == peer && d.kind == Routed && InEffective(declared, d, a);
      var m := EffectiveOwner(cfg, exit, declared, d, a);
      if IsDirect(cfg, a) {
        var e := DirectItem(cfg, exit, a);
        assert false;
      }
      if m.kind == Direct {
        DirectIsHost(cfg, exit, m, a);
      }
    }
    if RoutedOwner(cfg, exit, a, peer) {
      var d: Item :| d.peer == peer && d.kind == Routed && Longest(cfg, exit, a, d);
      LongestIsEffective(cfg, exit, declared, d, a);
    }
  }

  lemma SomeoneOwns(cfg: Config, exit: Option<Addr>, declared: seq<Item>, a: Addr)
    requires WellFormedPeers(cfg.peers) && Declaring(declared, cfg, exit)
    ensures (exists p :: p in cfg.peers && Owns(declared, p.name, a))
        <==> exists d: Item :: Declares(cfg, exit, d) && Contains(d.value, a)
  {
    if p :| p in cfg.peers && Owns(declared, p.name, a) {
      var d :| d in declared && d.peer == p.name && InEffective(declared, d, a);
    }
    if e: Item :| Declares(cfg, exit, e) && Contains(e.value, a) {
      assert declared[..|declared|] == declared;
      var m := LongestExists(declared, a, |declared|);
      assert Longest(cfg, exit, a, m);
      OwnsIsLongest(cfg, exit, declared, m.peer, a);
      if m.kind == Default {
        SelectedIn(cfg.peers, exit);
      } else {
        var q := Declarer(cfg, exit, m);
      }
    }
  }

  lemma CollectedHolds(cfg: Config, exit: Option<Addr>, declared: seq<Item>, r: Owned, owned: map<string, IPSet>)
    requires WellFormedPeers(cfg.peers) && Declaring(declared, cfg, exit)
    requires Collected(declared, cfg.peers, r, owned)
    requires forall p :: p in cfg.peers ==> p.name in owned && p.name in r.peers && p.name in r.routes
    ensures OwnershipHolds(cfg, exit, r, owned)
  {
    forall p, a: Addr | p in cfg.peers
      ensures owned[p.name](a) <==> LongestOwner(cfg, exit, a, p.name)
      ensures r.peers[p.name](a) <==> a in p.addresses
      ensures r.routes[p.name](a) <==> RoutedOwner(cfg, exit, a, p.name)
      ensures OwnsAs(declared, p.name, Direct, a) <==> a in p.addresses
      ensures OwnsAs(declared, p.name, Routed, a) <==> RoutedOwner(cfg, exit, a, p.name)
    {
      OwnsIsLongest(cfg, exit, declared, p.name, a);
      OwnsDirect(cfg, exit, declared, p, a);
      OwnsRouted(cfg, exit, declared, p.name, a);
    }
    forall a: Addr
      ensures r.all(a) <==> exists d: Item :: Declares(cfg, exit, d) && Contains(d.value, a)
    {
      SomeoneOwns(cfg, exit, declared, a);
    }
  }

  /** No address has two owners. */
  lemma OwnersDisjoint(cfg: Config, exit: Option<Addr>, a: Addr, peer: string, other: string)
    requires WellFormedPeers(cfg.peers)
    requires LongestOwner(cfg, exit, a, peer) && LongestOwner(cfg, exit, a, other)
    ensures peer == other
  {
    var d: Item :| d.peer == peer && Longest(cfg, exit, a, d);
    var e: Item :| e.peer == other && Longest(cfg, exit, a, e);
    SamePrefixSamePeer(cfg, exit, d, e);
  }

  // Agreement with the device

  /** The exit peer of the filter is the exit peer of the device. */
  lemma SelectedAgrees(peers: seq<Peer>, exit: Option<Addr>, p: Peer, cfg: Config)
    requires WellFormedPeers(peers) && p in peers && cfg.peers == peers
    requires exit == ValidExitSelection(cfg, exit)
    ensures PeerHasAddress(p, exit) <==> Selected(peers, exit) == p.name
  {
    SelectedIn(peers, exit);
    if PeerHasAddress(p, exit) {
      var q :| q in peers && q.exitNode && PeerHasAddress(q, exit);
      SameAddressSamePeer(peers, p, q, exit.value);
      SelectedSome(peers, exit, q);
      var r :| r in peers && r.name == Selected(peers, exit) && r.exitNode && PeerHasAddress(r, exit);
      SameAddressSamePeer(peers, p, r, exit.value);
    }
    if Selected(peers, exit) == p.name {
      var r :| r in peers && r.name == Selected(peers, exit) && r.exitNode && PeerHasAddress(r, exit);
      SameNameSamePeer(peers, p, r);
    }
  }

  lemma SameAddressSamePeer(peers: seq<Peer>, p: Peer, q: Peer, a: Addr)
    requires WellFormedPeers(peers) && p in peers && q in peers && a in p.addresses && a in q.addresses
    ensures p == q
  {
    var i :| 0 <= i < |peers| && peers[i] == p;
    var j :| 0 <= j < |peers| && peers[j] == q;
    assert HostPrefix(a) in DeclaredPrefixes(peers[i]) && HostPrefix(a) in DeclaredPrefixes(peers[j]);
  }

  lemma {:induction false} SelectedSome(peers: seq<Peer>, exit: Option<Addr>, q: Peer)
    requires q in peers && q.exitNode && PeerHasAddress(q, exit)
    requires forall p :: p in peers ==> p.name != ""
    ensures Selected(peers, exit) != ""
  {
    var n := |peers| - 1;
    assert peers == peers[..n] + [peers[n]];
    if !(peers[n].exitNode && PeerHasAddress(peers[n], exit)) {
      SelectedSome(peers[..n], exit, q);
    }
  }

  /** A peer's allowed IPs on the device are exactly what the filter has it declare. */
  lemma AllowedAreDeclared(r: Running, p: Peer, x: Prefix)
    requires WellFormedPeers(r.cfg.peers) && p in r.cfg.peers && r.exit == ValidExitSelection(r.cfg, r.exit)
    ensures x in AllowedSet(p, PeerHasAddress(p, r.exit), AddressFamilies(r.cfg))
        <==> exists d: Item :: d.peer == p.name && d.value == x && Declares(r.cfg, r.exit, d)
  {
    SelectedAgrees(r.cfg.peers, r.exit, p, r.cfg);
    if x in p.routes {
      assert Declares(r.cfg, r.exit, Item(p.name, Routed, x));
    } else if a :| a in p.addresses && x == HostPrefix(a) {
      assert Declares(r.cfg, r.exit, Item(p.name, Direct, x));
    } else if PeerHasAddress(p, r.exit) && x in Defaults(AddressFamilies(r.cfg)) {
      assert Declares(r.cfg, r.exit, Item(p.name, Default, x));
    }
    if d: Item :| d.peer == p.name && d.value == x && Declares(r.cfg, r.exit, d) {
      if d.kind != Default {
        var q := Declarer(r.cfg, r.exit, d);
        SameNameSamePeer(r.cfg.peers, p, q);
      }
    }
  }

  /** The peer a device accepts an address from is the peer the packet filter takes it to belong to. */
  lemma OwnerIsCryptokeyRoute(d: Device, r: Running, p: Peer, a: Addr)
    requires WellFormedPeers(r.cfg.peers) && r.exit == ValidExitSelection(r.cfg, r.exit)
    requires HoldsRunning(d, r) && p in r.cfg.peers
    ensures CryptokeyRoute(d, a) == Some(p.publicKey) <==> LongestOwner(r.cfg, r.exit, a, p.name)
  {
    LookupIsLongest(d.allowed, a);
    var found := LookupPrefix(d.allowed, a);
    if found.Some? {
      var q, e := RouteItem(d, r, found.value);
      assert Longest(r.cfg, r.exit, a, e) by {
        forall f | Declares(r.cfg, r.exit, f) && Contains(f.value, a)
          ensures f.value.bits <= e.value.bits
        {
          ItemAllowed(d, r, f);
        }
      }
      ByKeyFinds(r.cfg.peers, p);
      if LongestOwner(r.cfg, r.exit, a, p.name) {
        OwnersDisjoint(r.cfg, r.exit, a, p.name, q.name);
        SameNameSamePeer(r.cfg.peers, p, q);
      }
      if q.publicKey == p.publicKey {
        ByKeyFinds(r.cfg.peers, q);
      }
    } else if LongestOwner(r.cfg, r.exit, a, p.name) {
      var e: Item :| e.peer == p.name && Longest(r.cfg, r.exit, a, e);
      ItemAllowed(d, r, e);
    }
  }

  lemma RouteItem(d: Device, r: Running, x: Prefix) returns (p: Peer, e: Item)
    requires WellFormedPeers(r.cfg.peers) && r.exit == ValidExitSelection(r.cfg, r.exit)
    requires HoldsRunning(d, r) && x in d.allowed
    ensures p in r.cfg.peers && p.publicKey == d.allowed[x]
    ensures e.peer == p.name && e.value == x && Declares(r.cfg, r.exit, e)
  {
    var k := d.allowed[x];
    assert OwnsExactly(d, k, PlanOf(r)[k]);
    p := ByKey(r.cfg.peers)[k];
    AllowedAreDeclared(r, p, x);
    e :| e.peer == p.name && e.value == x && Declares(r.cfg, r.exit, e);
  }

  lemma ItemAllowed(d: Device, r: Running, e: Item)
    requires WellFormedPeers(r.cfg.peers) && r.exit == ValidExitSelection(r.cfg, r.exit)
    requires HoldsRunning(d, r) && Declares(r.cfg, r.exit, e)
    ensures e.value in d.allowed
  {
    var p: Peer;
    if e.kind == Default {
      SelectedIn(r.cfg.peers, r.exit);
      p :| p in r.cfg.peers && p.name == e.peer;
    } else {
      p := Declarer(r.cfg, r.exit, e);
    }
    AllowedAreDeclared(r, p, e.value);
    ByKeyFinds(r.cfg.peers, p);
    assert OwnsExactly(d, p.publicKey, PlanOf(r)[p.publicKey]);
  }
}
