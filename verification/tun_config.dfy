/** How the packet tables are filled from profile statuses, leases and the routing policy. */
module TunConfig {
  import opened Net
  import opened EffectiveIP
  import opened AddressPlan
  import opened RoutePolicy
  import opened PacketMap

  function HostOf(env: Env, v6: bool): Option<Addr> {
    if v6 then env.nat6 else env.nat4
  }

  /** The host addresses that are set, by family. */
  function Hosts(env: Env): map<bool, Addr> {
    map v6: bool | HostOf(env, v6).Some? :: HostOf(env, v6).value
  }

  predicate HostFamilies(env: Env) {
    && (env.nat4.Some? ==> !env.nat4.value.v6)
    && (env.nat6.Some? ==> env.nat6.value.v6)
  }

  function EmptyTable(): Table {
    Table(map[], map[], map[], map[], map[], map[])
  }

  // Leases by key

  method LeasesByKey(leases: seq<Lease>) returns (r: Option<map<NodeKey, Addr>>)
    ensures r.Some? ==> forall k, e :: k in r.value && r.value[k] == e <==> Lease(k, e) in leases
    ensures r.None? ==> exists l, m :: l in leases && m in leases && l.key == m.key && l.effective != m.effective
  {
    var byKey: map<NodeKey, Addr> := map[];
    for i := 0 to |leases|
      invariant forall k, e :: k in byKey && byKey[k] == e <==> Lease(k, e) in leases[..i]
    {
      assert leases[..i + 1] == leases[..i] + [leases[i]];
      var l := leases[i];
      if l.key in byKey && byKey[l.key] != l.effective {
        assert Lease(l.key, byKey[l.key]) in leases && l in leases;
        return None;
      }
      byKey := byKey[l.key := l.effective];
    }
    assert leases[..|leases|] == leases;
    r := Some(byKey);
  }

  // Self addresses

  method AddSelfAddress(env: Env, sources: map<SourceKey, Source>, id: string, c: Addr) returns (r: Option<map<SourceKey, Source>>)
    requires HostFamilies(env) && SourcesOk(sources, Hosts(env))
    ensures r.Some? ==> SourcesOk(r.value, Hosts(env))
    ensures r.Some? ==> r.value.Keys == sources.Keys + {SourceKey(id, c.v6)} && r.value[SourceKey(id, c.v6)].canonical == c
    ensures r.Some? ==> forall k :: k in sources ==> r.value[k] == sources[k]
    ensures r.None? <==>
      HostOf(env, c.v6).None? || (SourceKey(id, c.v6) in sources && sources[SourceKey(id, c.v6)].canonical != c)
  {
    var key := SourceKey(id, c.v6);
    if key in sources && sources[key].canonical != c {
      return None;
    }
    var host := HostOf(env, c.v6);
    if host.None? {
      return None;
    }
    r := Some(sources[key := Source(host.value, c)]);
  }

  /** The address is one of the status's own, and the source of that key. */
  predicate OwnSource(s: Status, k: SourceKey, c: Addr) {
    k.profile == s.id && k.v6 == c.v6 && c in s.selfIPs
  }

  /** Another address of the family is already the source, or is listed too. */
  predicate OtherSource(sources: map<SourceKey, Source>, s: Status, c: Addr, d: Addr) {
    var k := SourceKey(s.id, c.v6);
    d != c && ((k in sources && sources[k].canonical == d) || OwnSource(s, k, d))
  }

  method AddSelf(env: Env, t: Table, s: Status) returns (r: Option<Table>)
    requires HostFamilies(env) && Consistent(t, Hosts(env))
    ensures r.Some? ==> Consistent(r.value, Hosts(env)) && r.value == t.(sources := r.value.sources)
    ensures r.Some? ==> forall k :: k in t.sources ==> k in r.value.sources && r.value.sources[k] == t.sources[k]
    ensures r.Some? ==> forall c :: c in s.selfIPs ==>
      SourceKey(s.id, c.v6) in r.value.sources && r.value.sources[SourceKey(s.id, c.v6)].canonical == c
    ensures r.Some? ==> forall k :: k in r.value.sources ==> k in t.sources || OwnSource(s, k, r.value.sources[k].canonical)
    ensures r.None? ==> exists c :: c in s.selfIPs && (HostOf(env, c.v6).None? || exists d :: OtherSource(t.sources, s, c, d))
  {
    hide PeersOk, SourcesOk;
    var sources := t.sources;
    for i := 0 to |s.selfIPs|
      invariant forall k :: k in t.sources ==> k in sources && sources[k] == t.sources[k]
      invariant forall k :: k in sources ==> k in t.sources || OwnSource(s, k, sources[k].canonical)
      invariant forall c :: c in s.selfIPs[..i] ==> SourceKey(s.id, c.v6) in sources && sources[SourceKey(s.id, c.v6)].canonical == c
      invariant SourcesOk(sources, Hosts(env))
    {
      assert s.selfIPs[..i + 1] == s.selfIPs[..i] + [s.selfIPs[i]];
      var c := s.selfIPs[i];
      var next := AddSelfAddress(env, sources, s.id, c);
      if next.None? {
        assert c in s.selfIPs && (HostOf(env, c.v6).None? || OtherSource(t.sources, s, c, sources[SourceKey(s.id, c.v6)].canonical));
        return None;
      }
      assert OwnSource(s, SourceKey(s.id, c.v6), c);
      sources := next.value;
    }
    assert s.selfIPs[..|s.selfIPs|] == s.selfIPs;
    r := Some(t.(sources := sources));
  }

  // Targets

  /** One canonical address of a target gets its pair of entries. */
  method AddTarget(env: Env, t: Table, profile: string, c: Addr, e: Addr) returns (r: Option<Table>)
    requires Consistent(t, Hosts(env))
    ensures r.Some? ==> Consistent(r.value, Hosts(env))
    ensures r.Some? ==> r.value == t.(destinations := r.value.destinations, inbound := r.value.inbound)
    ensures r.Some? ==> r.value.destinations == t.destinations[HostPrefix(e) := Destination(profile, c)]
    ensures r.Some? ==> forall x :: x in t.destinations ==> r.value.destinations[x] == t.destinations[x]
    ensures r.None? <==>
      || (HostPrefix(e) in t.destinations && t.destinations[HostPrefix(e)] != Destination(profile, c))
      || (HostPrefix(c) in PeersOf(t.inbound, profile) && t.inbound[profile][HostPrefix(c)] != e)
      || SourceKey(profile, c.v6) !in t.sources
  {
    hide PeersOk;
    var d := Destination(profile, c);
    if HostPrefix(e) in t.destinations && t.destinations[HostPrefix(e)] != d {
      return None;
    }
    var peers: map<Prefix, Addr> := PeersOf(t.inbound, profile);
    if HostPrefix(c) in peers && peers[HostPrefix(c)] != e {
      return None;
    }
    if SourceKey(profile, c.v6) !in t.sources {
      return None;
    }
    var u := t.(destinations := t.destinations[HostPrefix(e) := d],
                inbound := t.inbound[profile := peers[HostPrefix(c) := e]]);
    PairAdded(t.destinations, t.inbound, d, e);
    r := Some(u);
  }

  function PeersOf(inbound: map<string, map<Prefix, Addr>>, profile: string): map<Prefix, Addr> {
    if profile in inbound then inbound[profile] else map[]
  }

  lemma PairAdded(destinations: map<Prefix, Destination>, inbound: map<string, map<Prefix, Addr>>, d: Destination, e: Addr)
    requires PeersOk(destinations, inbound)
    requires HostPrefix(e) in destinations ==> destinations[HostPrefix(e)] == d
    requires HostPrefix(d.canonical) in PeersOf(inbound, d.profile) ==> inbound[d.profile][HostPrefix(d.canonical)] == e
    ensures PeersOk(destinations[HostPrefix(e) := d], inbound[d.profile := PeersOf(inbound, d.profile)[HostPrefix(d.canonical) := e]])
  {
    var dests, peers := destinations[HostPrefix(e) := d], PeersOf(inbound, d.profile)[HostPrefix(d.canonical) := e];
    var all := inbound[d.profile := peers];
    assert HostKeys(dests) && HostKeys(peers);
    forall f: Addr, g: Destination | Paired(destinations, inbound, f, g)
      ensures Paired(dests, all, f, g)
    {
      PairKept(destinations, inbound, d, e, f, g);
    }
    hide HostKeys, HostPrefix;
    forall f: Addr | HostPrefix(f) in dests
      ensures Paired(dests, all, f, dests[HostPrefix(f)])
    {
      SameHost(f, e);
      assert HostPrefix(f) in destinations ==> Paired(destinations, inbound, f, destinations[HostPrefix(f)]);
    }
    forall p, c: Addr | p in all && HostPrefix(c) in all[p]
      ensures Paired(dests, all, all[p][HostPrefix(c)], Destination(p, c))
    {
      SameHost(c, d.canonical);
      assert p in inbound && HostPrefix(c) in inbound[p] ==>
        Paired(destinations, inbound, inbound[p][HostPrefix(c)], Destination(p, c));
    }
  }

  lemma SameHost(a: Addr, b: Addr)
    ensures HostPrefix(a) == HostPrefix(b) <==> a == b
  {
  }

  lemma PairKept(destinations: map<Prefix, Destination>, inbound: map<string, map<Prefix, Addr>>, d: Destination, e: Addr,
                 f: Addr, g: Destination)
    requires Paired(destinations, inbound, f, g)
    requires HostPrefix(e) in destinations ==> destinations[HostPrefix(e)] == d
    requires HostPrefix(d.canonical) in PeersOf(inbound, d.profile) ==> inbound[d.profile][HostPrefix(d.canonical)] == e
    ensures Paired(destinations[HostPrefix(e) := d],
              inbound[d.profile := PeersOf(inbound, d.profile)[HostPrefix(d.canonical) := e]], f, g)
  {
    hide HostPrefix;
    SameHost(f, e);
    SameHost(g.canonical, d.canonical);
  }

  // A profile's part of the table

  /** Every address of every target of the status leads to it from its leased address. */
  ghost predicate Serves(t: Table, byKey: map<NodeKey, Addr>, s: Status) {
    forall target, c: Addr :: target in s.targets && c in target.ips ==> ServesOne(t, byKey, s.id, target.id, c)
  }

  ghost predicate ServesOne(t: Table, byKey: map<NodeKey, Addr>, profile: string, node: string, c: Addr) {
    var k := NodeKey(profile, node, c);
    && k in byKey && HostPrefix(byKey[k]) in t.destinations
    && t.destinations[HostPrefix(byKey[k])] == Destination(profile, c)
    && SourceKey(profile, c.v6) in t.sources
  }

  /** The key is that of an address of a target in some status. */
  ghost predicate Names(statuses: seq<Status>, k: NodeKey) {
    exists s, target :: s in statuses && s.id == k.profile && target in s.targets && target.id == k.node && k.canonical in target.ips
  }

  /** Every destination stems from the lease of a target. */
  ghost predicate FromLeases(t: Table, byKey: map<NodeKey, Addr>, statuses: seq<Status>) {
    forall e: Addr :: HostPrefix(e) in t.destinations ==>
      exists k :: LeadsTo(byKey, statuses, k, e) && t.destinations[HostPrefix(e)] == Destination(k.profile, k.canonical)
  }

  ghost predicate LeadsTo(byKey: map<NodeKey, Addr>, statuses: seq<Status>, k: NodeKey, e: Addr) {
    k in byKey && byKey[k] == e && Names(statuses, k)
  }

  ghost predicate Grows(t: Table, u: Table) {
    && (forall x :: x in t.destinations ==> x in u.destinations && u.destinations[x] == t.destinations[x])
    && (forall k :: k in t.sources ==> k in u.sources && u.sources[k] == t.sources[k])
    && u.exact == t.exact && u.imported == t.imported && u.exit == t.exit
  }

  /** Two targets share an effective address, or one canonical address has two. */
  ghost predicate Clash(byKey: map<NodeKey, Addr>, statuses: seq<Status>, k: NodeKey, l: NodeKey) {
    && k in byKey && l in byKey && Names(statuses, l)
    && (byKey[k] == byKey[l]) != (k.profile == l.profile && k.canonical == l.canonical)
  }

  /** The address of a target cannot be entered: it has no lease, clashes, or its profile has no address
      of the family. */
  ghost predicate Unplaced(sources: map<SourceKey, Source>, byKey: map<NodeKey, Addr>, statuses: seq<Status>, k: NodeKey) {
    k !in byKey || SourceKey(k.profile, k.canonical.v6) !in sources || exists l :: Clash(byKey, statuses, k, l)
  }

  lemma WhyUnplaced(env: Env, t: Table, byKey: map<NodeKey, Addr>, statuses: seq<Status>, k: NodeKey)
    requires Consistent(t, Hosts(env)) && FromLeases(t, byKey, statuses) && k in byKey
    requires
      || (HostPrefix(byKey[k]) in t.destinations && t.destinations[HostPrefix(byKey[k])] != Destination(k.profile, k.canonical))
      || (HostPrefix(k.canonical) in PeersOf(t.inbound, k.profile) && t.inbound[k.profile][HostPrefix(k.canonical)] != byKey[k])
      || SourceKey(k.profile, k.canonical.v6) !in t.sources
    ensures Unplaced(t.sources, byKey, statuses, k)
  {
    hide HostPrefix, SourcesOk, Hosts, HostKeys;
    if HostPrefix(byKey[k]) in t.destinations && t.destinations[HostPrefix(byKey[k])] != Destination(k.profile, k.canonical) {
      var l :| LeadsTo(byKey, statuses, l, byKey[k]) && t.destinations[HostPrefix(byKey[k])] == Destination(l.profile, l.canonical);
      assert Clash(byKey, statuses, k, l);
    } else if HostPrefix(k.canonical) in PeersOf(t.inbound, k.profile) && t.inbound[k.profile][HostPrefix(k.canonical)] != byKey[k] {
      var e := t.inbound[k.profile][HostPrefix(k.canonical)];
      assert Paired(t.destinations, t.inbound, e, Destination(k.profile, k.canonical));
      var l :| LeadsTo(byKey, statuses, l, e) && t.destinations[HostPrefix(e)] == Destination(l.profile, l.canonical);
      assert Clash(byKey, statuses, k, l);
    }
  }

  method AddTargetAddresses(env: Env, t: Table, byKey: map<NodeKey, Addr>, profile: string, target: Target, ghost statuses: seq<Status>)
    returns (r: Option<Table>)
    requires forall c: Addr :: c in target.ips ==> Names(statuses, NodeKey(profile, target.id, c))
    requires Consistent(t, Hosts(env)) && FromLeases(t, byKey, statuses)
    ensures r.Some? ==> Consistent(r.value, Hosts(env)) && FromLeases(r.value, byKey, statuses) && Grows(t, r.value)
    ensures r.Some? ==> forall c: Addr :: c in target.ips ==> ServesOne(r.value, byKey, profile, target.id, c)
    ensures r.Some? ==> r.value.sources == t.sources
    ensures r.None? ==> exists c: Addr :: c in target.ips && Unplaced(t.sources, byKey, statuses, NodeKey(profile, target.id, c))
  {
    hide Consistent, HostPrefix;
    var u := t;
    for i := 0 to |target.ips|
      invariant Consistent(u, Hosts(env)) && FromLeases(u, byKey, statuses) && Grows(t, u) && u.sources == t.sources
      invariant forall c: Addr :: c in target.ips[..i] ==> ServesOne(u, byKey, profile, target.id, c)
    {
      assert target.ips[..i + 1] == target.ips[..i] + [target.ips[i]];
      var c := target.ips[i];
      var key := NodeKey(profile, target.id, c);
      if key !in byKey {
        assert c in target.ips && Unplaced(t.sources, byKey, statuses, key);
        return None;
      }
      var next := AddTarget(env, u, profile, c, byKey[key]);
      if next.None? {
        WhyUnplaced(env, u, byKey, statuses, key);
        assert c in target.ips && Unplaced(t.sources, byKey, statuses, key);
        return None;
      }
      LeaseAdded(u, next.value, byKey, key, statuses);
      u := next.value;
    }
    assert target.ips[..|target.ips|] == target.ips;
    r := Some(u);
  }

  lemma LeaseAdded(t: Table, u: Table, byKey: map<NodeKey, Addr>, k: NodeKey, statuses: seq<Status>)
    requires FromLeases(t, byKey, statuses) && k in byKey && Names(statuses, k)
    requires u.destinations == t.destinations[HostPrefix(byKey[k]) := Destination(k.profile, k.canonical)]
    ensures FromLeases(u, byKey, statuses)
  {
    forall e: Addr | HostPrefix(e) in u.destinations
      ensures exists l :: LeadsTo(byKey, statuses, l, e) && u.destinations[HostPrefix(e)] == Destination(l.profile, l.canonical)
    {
      SameHost(e, byKey[k]);
      if e != byKey[k] {
        assert HostPrefix(e) in t.destinations;
      } else {
        assert LeadsTo(byKey, statuses, k, e);
      }
    }
  }

  ghost predicate Selves(t: Table, s: Status) {
    forall c :: c in s.selfIPs ==> SourceKey(s.id, c.v6) in t.sources && t.sources[SourceKey(s.id, c.v6)].canonical == c
  }

  lemma GrowsKeeps(t: Table, u: Table, v: Table, byKey: map<NodeKey, Addr>, s: Status)
    requires Grows(t, u) && Grows(u, v)
    ensures Grows(t, v)
    ensures Serves(u, byKey, s) ==> Serves(v, byKey, s)
    ensures Selves(u, s) ==> Selves(v, s)
  {
    hide HostPrefix;
    if Serves(u, byKey, s) {
      forall target, c: Addr | target in s.targets && c in target.ips
        ensures ServesOne(v, byKey, s.id, target.id, c)
      {
        assert ServesOne(u, byKey, s.id, target.id, c);
      }
    }
  }

  lemma ServesSnoc(t: Table, byKey: map<NodeKey, Addr>, s: Status, i: nat)
    requires i < |s.targets| && Serves(t, byKey, s.(targets := s.targets[..i]))
    requires forall c: Addr :: c in s.targets[i].ips ==> ServesOne(t, byKey, s.id, s.targets[i].id, c)
    ensures Serves(t, byKey, s.(targets := s.targets[..i + 1]))
  {
    hide ServesOne;
    assert s.targets[..i + 1] == s.targets[..i] + [s.targets[i]];
  }

  /** Why the entries of a status cannot be made. */
  ghost predicate StatusProblem(env: Env, sources: map<SourceKey, Source>, byKey: map<NodeKey, Addr>, statuses: seq<Status>, s: Status) {
    || (exists c :: c in s.selfIPs && (HostOf(env, c.v6).None? || exists d :: OtherSource(sources, s, c, d)))
    || (exists target, c: Addr :: target in s.targets && c in target.ips && TargetLacks(sources, byKey, statuses, s, NodeKey(s.id, target.id, c)))
  }

  /** The key has no lease, clashes with another, or neither the table nor the status has an address of
      its family. */
  ghost predicate TargetLacks(sources: map<SourceKey, Source>, byKey: map<NodeKey, Addr>, statuses: seq<Status>, s: Status, k: NodeKey) {
    || k !in byKey
    || (exists l :: Clash(byKey, statuses, k, l))
    || (SourceKey(s.id, k.canonical.v6) !in sources && forall d :: d in s.selfIPs ==> d.v6 != k.canonical.v6)
  }

  lemma TargetProblem(env: Env, before: map<SourceKey, Source>, after: map<SourceKey, Source>, byKey: map<NodeKey, Addr>,
                      statuses: seq<Status>, s: Status, target: Target)
    requires target in s.targets && exists c: Addr :: c in target.ips && Unplaced(after, byKey, statuses, NodeKey(s.id, target.id, c))
    requires forall k :: k in before ==> k in after
    requires forall d :: d in s.selfIPs ==> SourceKey(s.id, d.v6) in after
    ensures StatusProblem(env, before, byKey, statuses, s)
  {
    hide Clash;
    var c: Addr :| c in target.ips && Unplaced(after, byKey, statuses, NodeKey(s.id, target.id, c));
    assert TargetLacks(before, byKey, statuses, s, NodeKey(s.id, target.id, c));
  }

  method AddStatus(env: Env, t: Table, byKey: map<NodeKey, Addr>, s: Status, ghost statuses: seq<Status>) returns (r: Option<Table>)
    requires s in statuses && HostFamilies(env) && Consistent(t, Hosts(env)) && FromLeases(t, byKey, statuses)
    ensures r.Some? ==> Consistent(r.value, Hosts(env)) && FromLeases(r.value, byKey, statuses) && Grows(t, r.value)
    ensures r.Some? ==> Serves(r.value, byKey, s) && Selves(r.value, s)
    ensures r.Some? ==> forall k :: k in r.value.sources ==> k in t.sources || OwnSource(s, k, r.value.sources[k].canonical)
    ensures r.None? ==> StatusProblem(env, t.sources, byKey, statuses, s)
  {
    var start := AddSelf(env, t, s);
    if start.None? {
      return None;
    }
    var u := start.value;
    assert FromLeases(u, byKey, statuses) && Selves(u, s) && Grows(t, u);
    hide Consistent, Grows, FromLeases, Serves, Selves, Hosts, StatusProblem, OwnSource, HostFamilies;
    r := AddTargets(env, u, byKey, s, statuses);
    if r.None? {
      ghost var target :| target in s.targets && exists c: Addr :: c in target.ips && Unplaced(u.sources, byKey, statuses, NodeKey(s.id, target.id, c));
      TargetProblem(env, t.sources, u.sources, byKey, statuses, s, target);
    } else {
      GrowsKeeps(t, u, r.value, byKey, s);
    }
  }

  method AddTargets(env: Env, t: Table, byKey: map<NodeKey, Addr>, s: Status, ghost statuses: seq<Status>) returns (r: Option<Table>)
    requires s in statuses && Consistent(t, Hosts(env)) && FromLeases(t, byKey, statuses)
    ensures r.Some? ==> Consistent(r.value, Hosts(env)) && FromLeases(r.value, byKey, statuses) && Grows(t, r.value)
    ensures r.Some? ==> Serves(r.value, byKey, s) && r.value.sources == t.sources
    ensures r.None? ==> exists target ::
      target in s.targets && exists c: Addr :: c in target.ips && Unplaced(t.sources, byKey, statuses, NodeKey(s.id, target.id, c))
  {
    var u := t;
    assert Grows(t, u) && Serves(u, byKey, s.(targets := s.targets[..0]));
    hide Consistent, Grows, FromLeases, ServesOne, Serves, Hosts, Unplaced;
    for i := 0 to |s.targets|
      invariant Consistent(u, Hosts(env)) && FromLeases(u, byKey, statuses) && Grows(t, u) && u.sources == t.sources
      invariant Serves(u, byKey, s.(targets := s.targets[..i]))
    {
      TargetIsNamed(statuses, s, s.targets[i]);
      var next := AddTargetAddresses(env, u, byKey, s.id, s.targets[i], statuses);
      if next.None? {
        assert s.targets[i] in s.targets;
        return None;
      }
      GrowsKeeps(t, u, next.value, byKey, s.(targets := s.targets[..i]));
      ServesSnoc(next.value, byKey, s, i);
      u := next.value;
    }
    assert s.targets[..|s.targets|] == s.targets;
    r := Some(u);
  }

  lemma TargetIsNamed(statuses: seq<Status>, s: Status, target: Target)
    requires s in statuses && target in s.targets
    ensures forall c: Addr :: c in target.ips ==> Names(statuses, NodeKey(s.id, target.id, c))
  {
  }

  // Routes

  function PoolFor(env: Env, v6: bool): Prefix {
    if v6 then env.pool6 else env.pool4
  }

  predicate Pooled(env: Env, e: Addr) {
    Contains(PoolFor(env, e.v6), e)
  }

  const REFUSED := SubnetRoute("", false)

  /** Leases without an active target are pinned to nothing. */
  method AddRetained(env: Env, t: Table, all: seq<Lease>) returns (exact: map<Prefix, SubnetRoute>)
    ensures forall l :: l in all && Pooled(env, l.effective) && HostPrefix(l.effective) !in t.destinations ==>
      HostPrefix(l.effective) in exact
    ensures RetainedOnly(env, exact)
  {
    exact := map[];
    for i := 0 to |all|
      invariant forall l :: l in all[..i] && Pooled(env, l.effective) && HostPrefix(l.effective) !in t.destinations ==>
        HostPrefix(l.effective) in exact
      invariant RetainedOnly(env, exact)
    {
      assert all[..i + 1] == all[..i] + [all[i]];
      var ip := all[i].effective;
      if HostPrefix(ip) in t.destinations || !Pooled(env, ip) {
        continue;
      }
      exact := exact[HostPrefix(ip) := REFUSED];
    }
    assert all[..|all|] == all;
  }

  ghost predicate RetainedOnly(env: Env, exact: map<Prefix, SubnetRoute>) {
    forall x :: x in exact ==> exact[x] == REFUSED && exists e: Addr :: x == HostPrefix(e) && Pooled(env, e)
  }

  lemma PooledIsReserved(env: Env, e: Addr)
    requires Pooled(env, e) && ValidPrefix(env.pool4) && ValidPrefix(env.pool6) && !env.pool4.v6 && env.pool6.v6
    ensures ReservedForTable(env, HostPrefix(e))
  {
    assert NetworkAddr(HostPrefix(e)) == e;
    assert Overlap(HostPrefix(e), PoolFor(env, e.v6));
  }

  ghost predicate FromEntry(entries: seq<IPEntry>, x: Prefix, r: SubnetRoute) {
    exists e :: e in entries && e.prefix == x && r == SubnetRoute(e.profile, e.active)
  }

  ghost predicate ExactOk(env: Env, retained: map<Prefix, SubnetRoute>, entries: seq<IPEntry>, exact: map<Prefix, SubnetRoute>) {
    && (forall x :: x in retained ==> x in exact && exact[x] == REFUSED)
    && (forall e :: e in entries ==> e.prefix in exact)
    && forall x :: x in exact && x !in retained ==> !ReservedForTable(env, x) && FromEntry(entries, x, exact[x])
  }

  method AddExact(env: Env, sources: map<SourceKey, Source>, retained: map<Prefix, SubnetRoute>, entries: seq<IPEntry>)
    returns (r: Option<map<Prefix, SubnetRoute>>)
    requires PoolsOk(StateOf(env)) && RetainedOnly(env, retained)
    ensures r.Some? ==> ExactOk(env, retained, entries, r.value)
    ensures r.Some? ==> forall e :: e in entries && e.active ==> SourceKey(e.profile, e.prefix.v6) in sources
    ensures r.None? ==> exists e ::
      e in entries && (ReservedForTable(env, e.prefix) || (e.active && SourceKey(e.profile, e.prefix.v6) !in sources))
  {
    hide ReservedForTable;
    var exact := retained;
    for i := 0 to |entries|
      invariant ExactOk(env, retained, entries[..i], exact)
      invariant forall e :: e in entries[..i] && e.active ==> SourceKey(e.profile, e.prefix.v6) in sources
    {
      assert entries[..i + 1] == entries[..i] + [entries[i]];
      var e := entries[i];
      if ReservedForTable(env, e.prefix) {
        return None;
      }
      assert e.prefix !in retained by {
        if e.prefix in retained {
          var a: Addr :| e.prefix == HostPrefix(a) && Pooled(env, a);
          PooledIsReserved(env, a);
        }
      }
      exact := exact[e.prefix := SubnetRoute(e.profile, e.active)];
      if e.active && SourceKey(e.profile, e.prefix.v6) !in sources {
        return None;
      }
    }
    assert entries[..|entries|] == entries;
    r := Some(exact);
  }

  function StateOf(env: Env): State {
    State(env.pool4, env.pool6, env.nat4, env.nat6, env.dns, [])
  }

  ghost predicate ImportsOk(env: Env, entries: seq<IPEntry>, imported: map<Prefix, SubnetRoute>) {
    && (forall e :: e in entries ==>
          e.prefix in imported && imported[e.prefix] == SubnetRoute(e.profile, e.active && !ReservedForTable(env, e.prefix)))
    && forall x :: x in imported ==> exists e :: e in entries && e.prefix == x
  }

  /** An import that would be active, of a profile without an address of the family. */
  predicate Sourceless(env: Env, sources: map<SourceKey, Source>, e: IPEntry) {
    e.active && !ReservedForTable(env, e.prefix) && SourceKey(e.profile, e.prefix.v6) !in sources
  }

  method AddImported(env: Env, sources: map<SourceKey, Source>, entries: seq<IPEntry>) returns (r: Option<map<Prefix, SubnetRoute>>)
    requires DistinctPrefixes(entries)
    ensures r.Some? ==> ImportsOk(env, entries, r.value)
    ensures r.Some? ==> forall x :: x in r.value && r.value[x].active ==> SourceKey(r.value[x].profile, x.v6) in sources
    ensures r.None? <==> exists e :: e in entries && Sourceless(env, sources, e)
  {
    hide ReservedForTable;
    var imported: map<Prefix, SubnetRoute> := map[];
    for i := 0 to |entries|
      invariant ImportsOk(env, entries[..i], imported)
      invariant forall e :: e in entries[..i] ==> !Sourceless(env, sources, e)
      invariant forall x :: x in imported && imported[x].active ==> SourceKey(imported[x].profile, x.v6) in sources
    {
      assert entries[..i + 1] == entries[..i] + [entries[i]];
      var e := entries[i];
      var active := e.active && !ReservedForTable(env, e.prefix);
      if active && SourceKey(e.profile, e.prefix.v6) !in sources {
        assert e in entries && Sourceless(env, sources, e);
        return None;
      }
      forall d | d in entries[..i]
        ensures d.prefix != e.prefix
      {
        var j :| 0 <= j < i && entries[j] == d;
      }
      imported := imported[e.prefix := SubnetRoute(e.profile, active)];
    }
    assert entries[..|entries|] == entries;
    r := Some(imported);
  }

  ghost predicate ExitOk(sources: map<SourceKey, Source>, profile: string, exit: map<Prefix, SubnetRoute>) {
    && (forall v6: bool :: DefaultRoute(v6) in exit <==> profile != "" && SourceKey(profile, v6) in sources)
    && forall x :: x in exit ==> x == DefaultRoute(x.v6) && exit[x] == SubnetRoute(profile, true)
  }

  method AddExit(sources: map<SourceKey, Source>, profile: string) returns (exit: map<Prefix, SubnetRoute>)
    ensures ExitOk(sources, profile, exit)
  {
    exit := map[];
    if profile != "" {
      if SourceKey(profile, false) in sources {
        exit := exit[DefaultRoute(false) := SubnetRoute(profile, true)];
      }
      if SourceKey(profile, true) in sources {
        exit := exit[DefaultRoute(true) := SubnetRoute(profile, true)];
      }
    }
  }

  // The whole table

  /** The peers of a table are exactly the leased targets of the statuses. */
  ghost predicate PeersFrom(t: Table, byKey: map<NodeKey, Addr>, statuses: seq<Status>, leases: seq<Lease>) {
    && FromLeases(t, byKey, statuses)
    && (forall k, e :: k in byKey && byKey[k] == e <==> Lease(k, e) in leases)
    && (forall s :: s in statuses ==> Serves(t, byKey, s) && Selves(t, s))
  }

  /** What a finished table is, in terms of what it was built from. */
  ghost predicate TableOk(env: Env, statuses: seq<Status>, leases: seq<Lease>, all: seq<Lease>, exact: seq<IPEntry>,
                          imported: seq<IPEntry>, exitProfile: string, t: Table) {
    && Consistent(t, Hosts(env))
    && (exists byKey :: PeersFrom(t, byKey, statuses, leases))
    && (exists retained :: RetainedOnly(env, retained) && ExactOk(env, retained, exact, t.exact)
          && forall l :: l in all && Pooled(env, l.effective) && HostPrefix(l.effective) !in t.destinations ==>
               HostPrefix(l.effective) in retained)
    && ImportsOk(env, imported, t.imported)
    && ExitOk(t.sources, exitProfile, t.exit)
  }

  /** Every source is an address of some status of its profile. */
  ghost predicate OwnSources(sources: map<SourceKey, Source>, statuses: seq<Status>) {
    forall k :: k in sources ==> exists s :: s in statuses && OwnSource(s, k, sources[k].canonical)
  }

  lemma SourcesStayOwn(before: map<SourceKey, Source>, after: map<SourceKey, Source>, statuses: seq<Status>, s: Status)
    requires OwnSources(before, statuses) && s in statuses
    requires forall k :: k in before ==> k in after && after[k] == before[k]
    requires forall k :: k in after ==> k in before || OwnSource(s, k, after[k].canonical)
    ensures OwnSources(after, statuses)
  {
    hide OwnSource;
  }

  /** Why a status makes the whole table fail: an address of its own without a host address or beside
      another of the same profile and family, or a target that has no lease, clashes with another or is
      of a family the status has no address in. */
  ghost predicate InputProblem(env: Env, byKey: map<NodeKey, Addr>, statuses: seq<Status>, s: Status) {
    || (exists c :: c in s.selfIPs && HostOf(env, c.v6).None?)
    || (exists c, d, other :: c in s.selfIPs && other in statuses && other.id == s.id && d in other.selfIPs && d != c && d.v6 == c.v6)
    || (exists target, c: Addr :: target in s.targets && c in target.ips
          && TargetLacks(map[], byKey, statuses, s, NodeKey(s.id, target.id, c)))
  }

  lemma ProblemOfInput(env: Env, sources: map<SourceKey, Source>, byKey: map<NodeKey, Addr>, statuses: seq<Status>, s: Status)
    requires s in statuses && OwnSources(sources, statuses) && StatusProblem(env, sources, byKey, statuses, s)
    ensures InputProblem(env, byKey, statuses, s)
  {
    hide Clash;
    if c :| c in s.selfIPs && (HostOf(env, c.v6).None? || exists d :: OtherSource(sources, s, c, d)) {
      if HostOf(env, c.v6).Some? {
        var d :| OtherSource(sources, s, c, d);
        var k := SourceKey(s.id, c.v6);
        if !OwnSource(s, k, d) {
          var other :| other in statuses && OwnSource(other, k, d);
        }
      }
    } else {
      var target, c: Addr :| target in s.targets && c in target.ips && TargetLacks(sources, byKey, statuses, s, NodeKey(s.id, target.id, c));
      assert TargetLacks(map[], byKey, statuses, s, NodeKey(s.id, target.id, c));
    }
  }

  method AddStatuses(env: Env, byKey: map<NodeKey, Addr>, statuses: seq<Status>) returns (r: Option<Table>)
    requires HostFamilies(env)
    ensures r.Some? ==> Consistent(r.value, Hosts(env)) && FromLeases(r.value, byKey, statuses) && Grows(EmptyTable(), r.value)
    ensures r.Some? ==> forall s :: s in statuses ==> Serves(r.value, byKey, s) && Selves(r.value, s)
    ensures r.None? ==> exists s :: s in statuses && InputProblem(env, byKey, statuses, s)
  {
    var t := EmptyTable();
    assert Consistent(t, Hosts(env)) && FromLeases(t, byKey, statuses) && Grows(t, t) && OwnSources(t.sources, statuses);
    hide Consistent, Grows, FromLeases, Serves, Selves, Hosts, StatusProblem, InputProblem;
    for i := 0 to |statuses|
      invariant OwnSources(t.sources, statuses)
      invariant Consistent(t, Hosts(env)) && FromLeases(t, byKey, statuses) && Grows(EmptyTable(), t)
      invariant forall s :: s in statuses[..i] ==> Serves(t, byKey, s) && Selves(t, s)
    {
      assert statuses[..i + 1] == statuses[..i] + [statuses[i]];
      var next := AddStatus(env, t, byKey, statuses[i], statuses);
      if next.None? {
        ProblemOfInput(env, t.sources, byKey, statuses, statuses[i]);
        return None;
      }
      SourcesStayOwn(t.sources, next.value.sources, statuses, statuses[i]);
      GrowsKeeps(EmptyTable(), t, next.value, byKey, statuses[i]);
      forall s | s in statuses[..i]
        ensures Serves(next.value, byKey, s) && Selves(next.value, s)
      {
        GrowsKeeps(EmptyTable(), t, next.value, byKey, s);
      }
      t := next.value;
    }
    assert statuses[..|statuses|] == statuses;
    r := Some(t);
  }

  /** Neither a host address nor an effective address is an address of the DNS service. */
  method ServiceConflict(t: Table, service: Address) returns (conflict: bool)
    ensures conflict <==> Lookup(t.destinations, service).Some? || exists k :: k in t.sources && t.sources[k].host == service
  {
    conflict := Lookup(t.destinations, service).Some? || exists k :: k in t.sources && t.sources[k].host == service;
  }

  /** Everything that can make a table fail. */
  ghost predicate TableProblem(env: Env, statuses: seq<Status>, leases: seq<Lease>, exact: seq<IPEntry>, imported: seq<IPEntry>) {
    || (exists l, m :: l in leases && m in leases && l.key == m.key && l.effective != m.effective)
    || (exists byKey, s :: LeaseMap(byKey, leases) && s in statuses && InputProblem(env, byKey, statuses, s))
    || (exists e :: e in exact && (ReservedForTable(env, e.prefix) || (e.active && NoSource(statuses, e))))
    || (exists e :: e in imported && e.active && NoSource(statuses, e))
    || env.dns.None? || env.nat4.None?
    || ServiceProblem(env, leases, SERVICE) || ServiceProblem(env, leases, env.dns.value)
  }

  ghost predicate LeaseMap(byKey: map<NodeKey, Addr>, leases: seq<Lease>) {
    forall k, e :: k in byKey && byKey[k] == e <==> Lease(k, e) in leases
  }

  /** No status of the profile has an address of the family of the prefix. */
  ghost predicate NoSource(statuses: seq<Status>, e: IPEntry) {
    forall s, c :: s in statuses && s.id == e.profile && c in s.selfIPs ==> c.v6 != e.prefix.v6
  }

  /** An address of the DNS service is leased or is a host address. */
  ghost predicate ServiceProblem(env: Env, leases: seq<Lease>, service: Address) {
    (exists l :: l in leases && l.effective == service) || exists v6: bool :: HostOf(env, v6).Some? && HostOf(env, v6).value == service
  }

  method TunConfigWithPolicy(env: Env, statuses: seq<Status>, leases: seq<Lease>, all: seq<Lease>, exact: seq<IPEntry>,
                             imported: seq<IPEntry>, exitProfile: string) returns (r: Option<Table>)
    requires PoolsOk(StateOf(env)) && HostFamilies(env) && DistinctPrefixes(imported)
    ensures r.Some? ==> TableOk(env, statuses, leases, all, exact, imported, exitProfile, r.value)
    ensures r.Some? ==> forall k :: k in r.value.sources ==>
      Some(r.value.sources[k].host) != env.dns && r.value.sources[k].host != SERVICE
    ensures r.None? ==> TableProblem(env, statuses, leases, exact, imported)
  {
    hide Consistent, Grows, FromLeases, Serves, Selves, Hosts, RetainedOnly, ExactOk, ImportsOk, ExitOk, InputProblem,
      ReservedForTable, SourcesOk, HostOf, NoSource, Sourceless, PoolsOk;
    var byKey := LeasesByKey(leases);
    if byKey.None? {
      return None;
    }
    assert LeaseMap(byKey.value, leases);
    var base := AddStatuses(env, byKey.value, statuses);
    if base.None? {
      return None;
    }
    var retained := AddRetained(env, base.value, all);
    var bound := AddExact(env, base.value.sources, retained, exact);
    if bound.None? {
      ghost var e :| e in exact
        && (ReservedForTable(env, e.prefix) || (e.active && SourceKey(e.profile, e.prefix.v6) !in base.value.sources));
      LacksSource(base.value, statuses, e);
      return None;
    }
    var imports := AddImported(env, base.value.sources, imported);
    if imports.None? {
      ghost var e :| e in imported && Sourceless(env, base.value.sources, e);
      SourcelessImport(env, base.value, statuses, e);
      return None;
    }
    var exit := AddExit(base.value.sources, exitProfile);
    var t := base.value.(exact := bound.value, imported := imports.value, exit := exit);
    RoutesAside(base.value, t, env, byKey.value, statuses);
    assert PeersFrom(t, byKey.value, statuses, leases);
    if env.dns.None? || env.nat4.None? {
      return None;
    }
    var dns := ServiceConflict(t, env.dns.value);
    if dns {
      ConflictOfInput(env, statuses, leases, byKey.value, t, env.dns.value);
      return None;
    }
    var service := ServiceConflict(t, SERVICE);
    if service {
      ConflictOfInput(env, statuses, leases, byKey.value, t, SERVICE);
      return None;
    }
    r := Some(t);
  }

  lemma LacksSource(t: Table, statuses: seq<Status>, e: IPEntry)
    requires forall s :: s in statuses ==> Selves(t, s)
    ensures SourceKey(e.profile, e.prefix.v6) !in t.sources ==> NoSource(statuses, e)
  {
    if SourceKey(e.profile, e.prefix.v6) !in t.sources {
      forall s, c | s in statuses && s.id == e.profile && c in s.selfIPs
        ensures c.v6 != e.prefix.v6
      {
        assert Selves(t, s);
      }
    }
  }

  lemma SourcelessImport(env: Env, t: Table, statuses: seq<Status>, e: IPEntry)
    requires (forall s :: s in statuses ==> Selves(t, s)) && Sourceless(env, t.sources, e)
    ensures e.active && NoSource(statuses, e)
  {
    hide Selves, NoSource;
    LacksSource(t, statuses, e);
  }

  lemma ConflictOfInput(env: Env, statuses: seq<Status>, leases: seq<Lease>, byKey: map<NodeKey, Addr>, t: Table, service: Address)
    requires Consistent(t, Hosts(env)) && PeersFrom(t, byKey, statuses, leases)
    requires Lookup(t.destinations, service).Some? || exists k :: k in t.sources && t.sources[k].host == service
    ensures ServiceProblem(env, leases, service)
  {
    if Lookup(t.destinations, service).Some? {
      LookupIsLongest(t.destinations, service);
      var x :| x in t.destinations && Contains(x, service);
      var e: Addr :| x == HostPrefix(e);
      HostPrefixContains(e, service);
      DestinationIsLeased(t, byKey, statuses, leases, e);
    } else {
      var k :| k in t.sources && t.sources[k].host == service;
      assert HostOf(env, k.v6).Some?;
    }
  }

  lemma RoutesAside(t: Table, u: Table, env: Env, byKey: map<NodeKey, Addr>, statuses: seq<Status>)
    requires u == t.(exact := u.exact, imported := u.imported, exit := u.exit)
    requires Consistent(t, Hosts(env)) && FromLeases(t, byKey, statuses)
    requires forall s :: s in statuses ==> Serves(t, byKey, s) && Selves(t, s)
    ensures Consistent(u, Hosts(env)) && FromLeases(u, byKey, statuses)
    ensures forall s :: s in statuses ==> Serves(u, byKey, s) && Selves(u, s)
  {
    forall s, target, c: Addr | s in statuses && target in s.targets && c in target.ips
      ensures ServesOne(u, byKey, s.id, target.id, c)
    {
      assert Serves(t, byKey, s);
      assert ServesOne(t, byKey, s.id, target.id, c);
    }
  }

  // Main results about finished tables

  /** A packet to the address of a lease that is kept but has no active target is always refused. */
  lemma RetainedLeaseRefused(env: Env, statuses: seq<Status>, leases: seq<Lease>, all: seq<Lease>, exact: seq<IPEntry>,
                             imported: seq<IPEntry>, exitProfile: string, t: Table, l: Lease, p: Pair)
    requires TableOk(env, statuses, leases, all, exact, imported, exitProfile, t)
    requires l in all && forall m :: m in leases ==> m.effective != l.effective
    requires Contains(if l.effective.v6 then env.pool6 else env.pool4, l.effective)
    requires p.dst == l.effective
    ensures MapOutbound(t, p).None?
  {
    var byKey :| PeersFrom(t, byKey, statuses, leases);
    if HostPrefix(l.effective) in t.destinations {
      DestinationIsLeased(t, byKey, statuses, leases, l.effective);
      assert false;
    }
    InactiveRefused(t, p);
  }

  lemma DestinationIsLeased(t: Table, byKey: map<NodeKey, Addr>, statuses: seq<Status>, leases: seq<Lease>, e: Addr)
    requires PeersFrom(t, byKey, statuses, leases)
    requires HostPrefix(e) in t.destinations
    ensures exists m :: m in leases && m.effective == e
  {
    var k :| LeadsTo(byKey, statuses, k, e) && t.destinations[HostPrefix(e)] == Destination(k.profile, k.canonical);
    assert Lease(k, e) in leases;
  }

  /** Every lease of a reachable target carries traffic to that target from the host address, and the
      answer comes back. */
  lemma ServedTargetRoundTrip(env: Env, statuses: seq<Status>, leases: seq<Lease>, all: seq<Lease>, exact: seq<IPEntry>,
                              imported: seq<IPEntry>, exitProfile: string, t: Table, s: Status, target: Target, c: Addr, e: Addr)
    requires TableOk(env, statuses, leases, all, exact, imported, exitProfile, t)
    requires s in statuses && target in s.targets && c in target.ips && Lease(NodeKey(s.id, target.id, c), e) in leases
    requires e.v6 == c.v6
    ensures SourceKey(s.id, c.v6) in t.sources
    ensures var self := t.sources[SourceKey(s.id, c.v6)];
      && MapOutbound(t, Pair(self.host, e)) == Some((Pair(self.canonical, c), Route(s.id, c, false)))
      && MapInbound(t, s.id, Pair(c, self.canonical)) == Some(Pair(e, self.host))
  {
    var byKey :| PeersFrom(t, byKey, statuses, leases);
    assert Serves(t, byKey, s);
    assert ServesOne(t, byKey, s.id, target.id, c);
    assert byKey[NodeKey(s.id, target.id, c)] == e;
    hide *;
    ServedRoundTrip(t, env, byKey, s.id, target.id, c);
  }

  lemma ServedRoundTrip(t: Table, env: Env, byKey: map<NodeKey, Addr>, profile: string, node: string, c: Addr)
    requires Consistent(t, Hosts(env)) && ServesOne(t, byKey, profile, node, c)
    requires byKey[NodeKey(profile, node, c)].v6 == c.v6
    ensures SourceKey(profile, c.v6) in t.sources
    ensures var self, e := t.sources[SourceKey(profile, c.v6)], byKey[NodeKey(profile, node, c)];
      && MapOutbound(t, Pair(self.host, e)) == Some((Pair(self.canonical, c), Route(profile, c, false)))
      && MapInbound(t, profile, Pair(c, self.canonical)) == Some(Pair(e, self.host))
  {
    var self, e := t.sources[SourceKey(profile, c.v6)], byKey[NodeKey(profile, node, c)];
    HostLookup(t.destinations, e);
    var p := Pair(self.host, e);
    assert MapOutbound(t, p) == Some((Pair(self.canonical, c), Route(profile, c, false)));
    EffectiveRoundTrip(t, Hosts(env), p);
  }

  /** The address is a canonical address of a target of the profile. */
  ghost predicate CanonicalOf(statuses: seq<Status>, profile: string, c: Addr) {
    exists s, target :: s in statuses && s.id == profile && target in s.targets && c in target.ips
  }

  lemma InboundIsCanonical(env: Env, statuses: seq<Status>, leases: seq<Lease>, byKey: map<NodeKey, Addr>, t: Table, profile: string, c: Addr)
    requires Consistent(t, Hosts(env)) && PeersFrom(t, byKey, statuses, leases)
    ensures InboundPeer(t, profile, c).Some? <==> CanonicalOf(statuses, profile, c)
  {
    if profile in t.inbound {
      HostLookup(t.inbound[profile], c);
      if HostPrefix(c) in t.inbound[profile] {
        var e := t.inbound[profile][HostPrefix(c)];
        assert Paired(t.destinations, t.inbound, e, Destination(profile, c));
        var k :| LeadsTo(byKey, statuses, k, e) && t.destinations[HostPrefix(e)] == Destination(k.profile, k.canonical);
      }
    }
    if s, target :| s in statuses && s.id == profile && target in s.targets && c in target.ips {
      assert Serves(t, byKey, s);
      assert ServesOne(t, byKey, profile, target.id, c);
      var e := byKey[NodeKey(profile, target.id, c)];
      assert Paired(t.destinations, t.inbound, e, Destination(profile, c));
    }
  }

  /** For every finished table, a packet from the host address to a subnet or exit destination comes back
      unchanged if and only if the destination is no canonical address of a target of the profile that
      carries it. */
  lemma PreservedDestinationRoundTrip(env: Env, statuses: seq<Status>, leases: seq<Lease>, all: seq<Lease>, exact: seq<IPEntry>,
                                      imported: seq<IPEntry>, exitProfile: string, t: Table, p: Pair)
    requires TableOk(env, statuses, leases, all, exact, imported, exitProfile, t)
    requires HostOf(env, p.src.v6) == Some(p.src) && MapOutbound(t, p).Some? && MapOutbound(t, p).value.1.preserve
    ensures var out := MapOutbound(t, p).value;
      (MapInbound(t, out.1.profile, out.0.Reversed()) == Some(p.Reversed())) <==> !CanonicalOf(statuses, out.1.profile, p.dst)
  {
    var byKey :| PeersFrom(t, byKey, statuses, leases);
    PreservedRoundTrip(t, Hosts(env), p);
    InboundIsCanonical(env, statuses, leases, byKey, t, MapOutbound(t, p).value.1.profile, p.dst);
  }

  // Where the packets of a finished table go

  /** The exit carries an address exactly when its profile has a source of the address's family. */
  lemma ExitLeads(t: Table, exitProfile: string, ip: Addr, profile: string)
    requires ExitOk(t.sources, exitProfile, t.exit)
    ensures Leads(t.exit, ip, profile) <==> profile == exitProfile != "" && SourceKey(exitProfile, ip.v6) in t.sources
  {
    DefaultRouteContains(ip.v6, ip);
    if Leads(t.exit, ip, profile) {
      var x :| x in t.exit && Contains(x, ip) && t.exit[x] == SubnetRoute(profile, true);
      assert x == DefaultRoute(ip.v6);
    }
    if profile == exitProfile != "" && SourceKey(exitProfile, ip.v6) in t.sources {
      var x := DefaultRoute(ip.v6);
      assert x in t.exit && t.exit[x] == SubnetRoute(profile, true);
      assert forall y :: y in t.exit && Contains(y, ip) ==> y.bits <= x.bits;
    }
  }

  /** The profile that carries an address by the routes of a finished table: the one the longest bound
      prefix around it is active for; without one, the one the longest import is active for; without
      either, the exit profile if it has a source of the family. */
  ghost predicate Routed(t: Table, exitProfile: string, ip: Addr, profile: string) {
    && profile != ""
    && (|| Leads(t.exact, ip, profile)
        || (Silent(t.exact, ip) && Leads(t.imported, ip, profile))
        || (Silent(t.exact, ip) && Silent(t.imported, ip) && profile == exitProfile && SourceKey(exitProfile, ip.v6) in t.sources))
  }

  lemma RoutedCarries(t: Table, exitProfile: string, ip: Addr, profile: string)
    requires ExitOk(t.sources, exitProfile, t.exit)
    ensures Carries(t, ip, profile) <==> Routed(t, exitProfile, ip, profile)
  {
    ExitLeads(t, exitProfile, ip, profile);
    hide Leads, Silent, ExitOk;
  }

  /** A packet to an address without an effective target leaves with its destination preserved, from the
      profile's own address, by exactly the profile that carries the address and has a source of the
      packet's family. Where there is none it is refused. */
  lemma PacketLeaves(env: Env, statuses: seq<Status>, leases: seq<Lease>, all: seq<Lease>, exact: seq<IPEntry>,
                     imported: seq<IPEntry>, exitProfile: string, t: Table, p: Pair, profile: string)
    requires TableOk(env, statuses, leases, all, exact, imported, exitProfile, t)
    requires HostPrefix(p.dst) !in t.destinations
    ensures Routed(t, exitProfile, p.dst, profile) && SourceKey(profile, p.src.v6) in t.sources ==>
      MapOutbound(t, p) == Some((Pair(t.sources[SourceKey(profile, p.src.v6)].canonical, p.dst), Route(profile, p.dst, true)))
    ensures MapOutbound(t, p).None? <==>
      forall q :: !(Routed(t, exitProfile, p.dst, q) && SourceKey(q, p.src.v6) in t.sources)
  {
    forall q
      ensures Carries(t, p.dst, q) <==> Routed(t, exitProfile, p.dst, q)
      ensures (MapOutbound(t, p).Some? && MapOutbound(t, p).value.1.profile == q) <==>
        Carries(t, p.dst, q) && SourceKey(q, p.src.v6) in t.sources
    {
      RoutedCarries(t, exitProfile, p.dst, q);
      OutboundByRoute(t, Hosts(env), p, q);
    }
    OutboundByRoute(t, Hosts(env), p, profile);
    hide Carries, Routed, MapOutbound, TableOk, Consistent;
  }

  /** A packet from an address that is no canonical peer of the profile comes in unchanged, to the host
      address, exactly when the profile has a source of the family and carries that address. */
  lemma PacketArrives(env: Env, statuses: seq<Status>, leases: seq<Lease>, all: seq<Lease>, exact: seq<IPEntry>,
                      imported: seq<IPEntry>, exitProfile: string, t: Table, profile: string, p: Pair)
    requires TableOk(env, statuses, leases, all, exact, imported, exitProfile, t)
    requires !CanonicalOf(statuses, profile, p.src)
    ensures var key := SourceKey(profile, p.dst.v6);
      && (MapInbound(t, profile, p).Some? <==> key in t.sources && Routed(t, exitProfile, p.src, profile))
      && (MapInbound(t, profile, p).Some? ==>
            HostOf(env, p.dst.v6).Some? && MapInbound(t, profile, p) == Some(Pair(p.src, HostOf(env, p.dst.v6).value)))
  {
    var byKey :| PeersFrom(t, byKey, statuses, leases);
    InboundIsCanonical(env, statuses, leases, byKey, t, profile, p.src);
    if profile in t.inbound {
      HostLookup(t.inbound[profile], p.src);
    }
    RoutedCarries(t, exitProfile, p.src, profile);
    InboundExactly(t, Hosts(env), profile, p);
    hide Carries, Routed, MapInbound, CanonicalOf, PeersFrom, PeersOk, Lookup, RetainedOnly, ExactOk, ImportsOk, ExitOk;
  }

  // A canonical address that is reached through the exit comes back as another

  /** One profile with one target, which is also the exit profile. */
  function ExitTable(nat4: Addr, self: Addr, c: Addr, e: Addr): Table {
    Table(map[HostPrefix(e) := Destination("home", c)], map[], map[], map[DefaultRoute(false) := SubnetRoute("home", true)],
      map[SourceKey("home", false) := Source(nat4, self)], map["home" := map[HostPrefix(c) := e]])
  }

  function HomeStatus(self: Addr, c: Addr): Status {
    Status("home", true, [self], [Target("node", [c])], [])
  }

  function HomeLease(c: Addr, e: Addr): Lease {
    Lease(NodeKey("home", "node", c), e)
  }

  lemma ExitTablePaired(nat4: Addr, self: Addr, c: Addr, e: Addr)
    ensures var t := ExitTable(nat4, self, c, e); PeersOk(t.destinations, t.inbound)
  {
    var t := ExitTable(nat4, self, c, e);
    assert HostKeys(t.destinations) && HostKeys(t.inbound["home"]);
    assert Paired(t.destinations, t.inbound, e, Destination("home", c));
    hide HostPrefix;
    forall f: Addr | HostPrefix(f) in t.destinations
      ensures Paired(t.destinations, t.inbound, f, t.destinations[HostPrefix(f)])
    {
      SameHost(f, e);
    }
    forall p, d: Addr | p in t.inbound && HostPrefix(d) in t.inbound[p]
      ensures Paired(t.destinations, t.inbound, t.inbound[p][HostPrefix(d)], Destination(p, d))
    {
      SameHost(d, c);
    }
  }

  lemma ExitTablePeers(nat4: Addr, self: Addr, c: Addr, e: Addr)
    requires !self.v6 && !c.v6
    ensures PeersFrom(ExitTable(nat4, self, c, e), map[NodeKey("home", "node", c) := e], [HomeStatus(self, c)], [HomeLease(c, e)])
  {
    var t, key, status := ExitTable(nat4, self, c, e), NodeKey("home", "node", c), HomeStatus(self, c);
    var byKey := map[key := e];
    assert status in [status] && status.targets[0] in status.targets;
    assert Names([status], key);
    assert LeadsTo(byKey, [status], key, e);
    assert ServesOne(t, byKey, "home", "node", c);
    hide HostPrefix, Names;
    forall f: Addr | HostPrefix(f) in t.destinations
      ensures f == e
    {
      SameHost(f, e);
    }
  }

  lemma ExitTableOk(env: Env, nat4: Addr, self: Addr, c: Addr, e: Addr)
    requires env.nat4 == Some(nat4) && !nat4.v6 && !self.v6 && !c.v6
    ensures TableOk(env, [HomeStatus(self, c)], [HomeLease(c, e)], [HomeLease(c, e)], [], [], "home", ExitTable(nat4, self, c, e))
  {
    var t := ExitTable(nat4, self, c, e);
    ExitTablePaired(nat4, self, c, e);
    ExitTablePeers(nat4, self, c, e);
    ExitTableRoutes(env, nat4, self, c, e);
    hide PeersOk, PeersFrom, SourcesOk, RetainedOnly, ExactOk, ImportsOk, ExitOk, ExitTable, Pooled, Hosts, HostPrefix;
  }

  lemma ExitTableRoutes(env: Env, nat4: Addr, self: Addr, c: Addr, e: Addr)
    requires env.nat4 == Some(nat4) && !nat4.v6 && !self.v6 && !c.v6
    ensures var t := ExitTable(nat4, self, c, e);
      && SourcesOk(t.sources, Hosts(env)) && ImportsOk(env, [], t.imported) && ExitOk(t.sources, "home", t.exit)
      && RetainedOnly(env, map[]) && ExactOk(env, map[], [], t.exact) && HostPrefix(e) in t.destinations
  {
    hide HostPrefix;
  }

  lemma ExitLookups(nat4: Addr, self: Addr, c: Addr, e: Addr)
    requires !c.v6 && c != e
    ensures var t := ExitTable(nat4, self, c, e);
      && Lookup(t.destinations, c) == None && SubnetTier(t, c) == Some(SubnetRoute("home", true))
      && InboundPeer(t, "home", c) == Some(e)
  {
    var t := ExitTable(nat4, self, c, e);
    ExitTablePaired(nat4, self, c, e);
    HostLookup(t.destinations, c);
    HostLookup(t.inbound["home"], c);
    SameHost(c, e);
    DefaultRouteContains(false, c);
    LookupIsLongest(t.exact, c);
    LookupIsLongest(t.imported, c);
    hide HostKeys, Contains, HostPrefix;
    LongestIsUnique(t.exit, c, DefaultRoute(false));
  }

  lemma OutAndBack(t: Table, nat4: Addr, self: Addr, c: Addr, e: Addr)
    requires Lookup(t.destinations, c) == None && SubnetTier(t, c) == Some(SubnetRoute("home", true))
    requires InboundPeer(t, "home", c) == Some(e) && !nat4.v6 && !self.v6 && !c.v6 && !e.v6
    requires SourceKey("home", false) in t.sources && t.sources[SourceKey("home", false)] == Source(nat4, self)
    ensures MapOutbound(t, Pair(nat4, c)) == Some((Pair(self, c), Route("home", c, true)))
    ensures MapInbound(t, "home", Pair(c, self)) == Some(Pair(e, nat4))
  {
    hide Lookup, SubnetTier, InboundPeer;
  }

  /** A packet from the host to the canonical address of a target leaves through the exit with its
      destination preserved, and the answer comes back from the target's effective address. */
  lemma CanonicalPeerComesBackRewritten(env: Env, nat4: Addr, self: Addr, c: Addr, e: Addr)
    requires env.nat4 == Some(nat4) && !nat4.v6 && !self.v6 && !c.v6 && !e.v6 && c != e
    ensures var t := ExitTable(nat4, self, c, e);
      && TableOk(env, [HomeStatus(self, c)], [HomeLease(c, e)], [HomeLease(c, e)], [], [], "home", t)
      && MapOutbound(t, Pair(nat4, c)) == Some((Pair(self, c), Route("home", c, true)))
      && MapInbound(t, "home", Pair(c, self)) == Some(Pair(e, nat4))
  {
    ExitTableOk(env, nat4, self, c, e);
    ExitLookups(nat4, self, c, e);
    hide TableOk, Lookup, SubnetTier, InboundPeer, MapOutbound, MapInbound, HostPrefix;
    OutAndBack(ExitTable(nat4, self, c, e), nat4, self, c, e);
  }
}
