/** Packet address translation: the tables, the two directions, and that they undo each other. */
module PacketMap {
  import opened Net

  datatype Destination = Destination(profile: string, canonical: Addr)

  datatype SubnetRoute = SubnetRoute(profile: string, active: bool)

  datatype Source = Source(host: Addr, canonical: Addr)

  datatype SourceKey = SourceKey(profile: string, v6: bool)

  datatype Table = Table(
    destinations: map<Prefix, Destination>,
    exact: map<Prefix, SubnetRoute>,
    imported: map<Prefix, SubnetRoute>,
    exit: map<Prefix, SubnetRoute>,
    sources: map<SourceKey, Source>,
    inbound: map<string, map<Prefix, Addr>>)

  datatype Route = Route(profile: string, canonical: Addr, preserve: bool)

  // The lookups

  predicate Unavailable(r: SubnetRoute) {
    !r.active || r.profile == ""
  }

  /** The subnet tiers in order: the first that has the address decides. */
  function SubnetTier(t: Table, ip: Addr): Option<SubnetRoute> {
    var exact := Lookup(t.exact, ip);
    var imported := Lookup(t.imported, ip);
    if exact.Some? then exact else if imported.Some? then imported else Lookup(t.exit, ip)
  }

  function SubnetRouteFor(t: Table, ip: Addr): Option<SubnetRoute> {
    var r := SubnetTier(t, ip);
    if r.None? || Unavailable(r.value) then None else r
  }

  function OutboundDestination(t: Table, ip: Addr): Option<Route> {
    var d := Lookup(t.destinations, ip);
    if d.Some? then Some(Route(d.value.profile, d.value.canonical, false))
    else
      var r := SubnetRouteFor(t, ip);
      if r.None? then None else Some(Route(r.value.profile, ip, true))
  }

  /** The addresses of a packet. */
  datatype Pair = Pair(src: Addr, dst: Addr) {
    function Reversed(): Pair {
      Pair(dst, src)
    }
  }

  function MapOutbound(t: Table, p: Pair): Option<(Pair, Route)> {
    var r := OutboundDestination(t, p.dst);
    if r.None? then None
    else
      var key := SourceKey(r.value.profile, p.src.v6);
      if key !in t.sources then None
      else
        var s := t.sources[key];
        if s.host.v6 != p.src.v6 || s.canonical.v6 != p.src.v6 || r.value.canonical.v6 != p.dst.v6 then None
        else Some((Pair(s.canonical, if r.value.preserve then p.dst else r.value.canonical), r.value))
  }

  function InboundPeer(t: Table, profile: string, ip: Addr): Option<Addr> {
    if profile in t.inbound then Lookup(t.inbound[profile], ip) else None
  }

  function MapInbound(t: Table, profile: string, p: Pair): Option<Pair> {
    var key := SourceKey(profile, p.dst.v6);
    if key !in t.sources then None
    else
      var s := t.sources[key];
      var peer := InboundPeer(t, profile, p.src);
      if peer.Some? then
        if peer.value.v6 != p.src.v6 || s.host.v6 != p.dst.v6 then None else Some(Pair(peer.value, s.host))
      else
        var r := SubnetRouteFor(t, p.src);
        if r.None? || r.value.profile != profile then None else Some(Pair(p.src, s.host))
  }

  // The packet rewritten in place

  class Packet {
    var supported: bool
    var src: Addr
    var dst: Addr

    constructor (decodes: bool, from: Addr, to: Addr)
      ensures supported == decodes && src == from && dst == to
    {
      supported, src, dst := decodes, from, to;
    }

    function Addresses(): Pair
      reads this
    {
      Pair(src, dst)
    }
  }

  method Outbound(t: Table, pkt: Packet) returns (route: Option<Route>)
    modifies pkt`src, pkt`dst
    ensures route.Some? <==> pkt.supported && MapOutbound(t, old(pkt.Addresses())).Some?
    ensures route.Some? ==> MapOutbound(t, old(pkt.Addresses())) == Some((pkt.Addresses(), route.value))
    ensures route.None? ==> pkt.Addresses() == old(pkt.Addresses())
  {
    if !pkt.supported {
      return None;
    }
    var found := OutboundDestination(t, pkt.dst);
    if found.None? {
      return None;
    }
    var key := SourceKey(found.value.profile, pkt.src.v6);
    if key !in t.sources {
      return None;
    }
    var s := t.sources[key];
    if s.host.v6 != pkt.src.v6 || s.canonical.v6 != pkt.src.v6 || found.value.canonical.v6 != pkt.dst.v6 {
      return None;
    }
    pkt.src := s.canonical;
    if !found.value.preserve {
      pkt.dst := found.value.canonical;
    }
    route := found;
  }

  method Inbound(t: Table, profile: string, pkt: Packet) returns (ok: bool)
    modifies pkt`src, pkt`dst
    ensures ok <==> pkt.supported && MapInbound(t, profile, old(pkt.Addresses())).Some?
    ensures ok ==> MapInbound(t, profile, old(pkt.Addresses())) == Some(pkt.Addresses())
    ensures !ok ==> pkt.Addresses() == old(pkt.Addresses())
  {
    if !pkt.supported {
      return false;
    }
    var key := SourceKey(profile, pkt.dst.v6);
    if key !in t.sources {
      return false;
    }
    var s := t.sources[key];
    var peer := InboundPeer(t, profile, pkt.src);
    if peer.Some? {
      if peer.value.v6 != pkt.src.v6 || s.host.v6 != pkt.dst.v6 {
        return false;
      }
      pkt.src, pkt.dst := peer.value, s.host;
      return true;
    }
    var r := SubnetRouteFor(t, pkt.src);
    if r.None? || r.value.profile != profile {
      return false;
    }
    pkt.dst := s.host;
    ok := true;
  }

  // Tables of single addresses

  /** Every key is one address. */
  ghost predicate HostKeys<V>(m: map<Prefix, V>) {
    forall x :: x in m ==> exists a: Addr :: x == HostPrefix(a)
  }

  lemma HostLookup<V>(m: map<Prefix, V>, a: Addr)
    requires HostKeys(m)
    ensures Lookup(m, a) == if HostPrefix(a) in m then Some(m[HostPrefix(a)]) else None
  {
    LookupIsLongest(m, a);
    HostPrefixContains(a, a);
    forall x | x in m && Contains(x, a)
      ensures x == HostPrefix(a)
    {
      var b: Addr :| x == HostPrefix(b);
      HostPrefixContains(b, a);
    }
    if HostPrefix(a) in m {
      LongestIsUnique(m, a, HostPrefix(a));
    }
  }

  ghost predicate Paired(destinations: map<Prefix, Destination>, inbound: map<string, map<Prefix, Addr>>, e: Addr, d: Destination) {
    && HostPrefix(e) in destinations && destinations[HostPrefix(e)] == d
    && d.profile in inbound && HostPrefix(d.canonical) in inbound[d.profile]
    && inbound[d.profile][HostPrefix(d.canonical)] == e
  }

  /** Effective addresses and canonical peers are tied one to one. */
  ghost predicate PeersOk(destinations: map<Prefix, Destination>, inbound: map<string, map<Prefix, Addr>>) {
    && HostKeys(destinations)
    && (forall p :: p in inbound ==> HostKeys(inbound[p]))
    && (forall e: Addr :: HostPrefix(e) in destinations ==> Paired(destinations, inbound, e, destinations[HostPrefix(e)]))
    && (forall p, c: Addr :: p in inbound && HostPrefix(c) in inbound[p] ==>
          Paired(destinations, inbound, inbound[p][HostPrefix(c)], Destination(p, c)))
  }

  /** The sources are the host addresses. */
  ghost predicate SourcesOk(sources: map<SourceKey, Source>, hosts: map<bool, Addr>) {
    forall k :: k in sources ==>
      k.v6 in hosts && sources[k].host == hosts[k.v6] && sources[k].host.v6 == sources[k].canonical.v6 == k.v6
  }

  ghost predicate Consistent(t: Table, hosts: map<bool, Addr>) {
    PeersOk(t.destinations, t.inbound) && SourcesOk(t.sources, hosts)
  }

  // Where a packet goes, over the entries of the tiers

  /** No entry has the address. */
  ghost predicate Silent(m: map<Prefix, SubnetRoute>, ip: Addr) {
    forall x :: x in m ==> !Contains(x, ip)
  }

  /** The longest entry around the address is active for the profile. */
  ghost predicate Leads(m: map<Prefix, SubnetRoute>, ip: Addr, profile: string) {
    exists x :: x in m && Contains(x, ip) && m[x] == SubnetRoute(profile, true)
                && forall y :: y in m && Contains(y, ip) ==> y.bits <= x.bits
  }

  /** A bound route carries the address; where there is none an import, and where there is neither
      the exit. An inactive entry is not passed over for a shorter one or for a later tier. */
  ghost predicate Carries(t: Table, ip: Addr, profile: string) {
    && profile != ""
    && (|| Leads(t.exact, ip, profile)
        || (Silent(t.exact, ip) && Leads(t.imported, ip, profile))
        || (Silent(t.exact, ip) && Silent(t.imported, ip) && Leads(t.exit, ip, profile)))
  }

  lemma LookupLeads(m: map<Prefix, SubnetRoute>, ip: Addr, profile: string)
    ensures Lookup(m, ip).None? <==> Silent(m, ip)
    ensures Lookup(m, ip) == Some(SubnetRoute(profile, true)) <==> Leads(m, ip, profile)
  {
    hide Contains;
    LookupIsLongest(m, ip);
    if Leads(m, ip, profile) {
      var x :| x in m && Contains(x, ip) && m[x] == SubnetRoute(profile, true)
        && forall y :: y in m && Contains(y, ip) ==> y.bits <= x.bits;
      LongestIsUnique(m, ip, x);
    }
  }

  lemma SubnetRouteCarries(t: Table, ip: Addr, profile: string)
    ensures SubnetRouteFor(t, ip) == Some(SubnetRoute(profile, true)) <==> Carries(t, ip, profile)
    ensures SubnetRouteFor(t, ip).Some? ==> SubnetRouteFor(t, ip).value.active
  {
    LookupLeads(t.exact, ip, profile);
    LookupLeads(t.imported, ip, profile);
    LookupLeads(t.exit, ip, profile);
    hide Lookup, Leads, Silent;
  }

  /** An address without an effective target leaves unchanged by exactly the profile whose route
      carries it, if that profile has a source of the packet's family. */
  lemma OutboundByRoute(t: Table, hosts: map<bool, Addr>, p: Pair, profile: string)
    requires Consistent(t, hosts) && HostPrefix(p.dst) !in t.destinations
    ensures MapOutbound(t, p).Some? ==> Carries(t, p.dst, MapOutbound(t, p).value.1.profile)
    ensures (MapOutbound(t, p).Some? && MapOutbound(t, p).value.1.profile == profile) <==>
      Carries(t, p.dst, profile) && SourceKey(profile, p.src.v6) in t.sources
    ensures Carries(t, p.dst, profile) && SourceKey(profile, p.src.v6) in t.sources ==>
      MapOutbound(t, p) == Some((Pair(t.sources[SourceKey(profile, p.src.v6)].canonical, p.dst), Route(profile, p.dst, true)))
  {
    HostLookup(t.destinations, p.dst);
    SubnetRouteCarries(t, p.dst, profile);
    if MapOutbound(t, p).Some? {
      SubnetRouteCarries(t, p.dst, MapOutbound(t, p).value.1.profile);
    }
    hide Carries, SubnetRouteFor, Lookup, PeersOk;
  }

  /** An address with an effective target goes to that target and nowhere else. */
  lemma OutboundToTarget(t: Table, hosts: map<bool, Addr>, p: Pair)
    requires Consistent(t, hosts) && HostPrefix(p.dst) in t.destinations
    ensures var d := t.destinations[HostPrefix(p.dst)];
      var key := SourceKey(d.profile, p.src.v6);
      MapOutbound(t, p) ==
        if key in t.sources && d.canonical.v6 == p.dst.v6
        then Some((Pair(t.sources[key].canonical, d.canonical), Route(d.profile, d.canonical, false))) else None
  {
    HostLookup(t.destinations, p.dst);
    hide Lookup, PeersOk;
  }

  /** From a profile a packet comes in when its source is a canonical peer of it, and then from the
      effective address of that peer, or when a route of the profile carries its source, and then
      unchanged. It is delivered to the host address of its family. */
  lemma InboundExactly(t: Table, hosts: map<bool, Addr>, profile: string, p: Pair)
    requires Consistent(t, hosts)
    ensures var key := SourceKey(profile, p.dst.v6);
      var peer := profile in t.inbound && HostPrefix(p.src) in t.inbound[profile];
      MapInbound(t, profile, p) ==
        if key !in t.sources then None
        else if peer then
          var e := t.inbound[profile][HostPrefix(p.src)];
          if e.v6 == p.src.v6 then Some(Pair(e, hosts[p.dst.v6])) else None
        else if Carries(t, p.src, profile) then Some(Pair(p.src, hosts[p.dst.v6]))
        else None
  {
    if profile in t.inbound {
      HostLookup(t.inbound[profile], p.src);
    }
    SubnetRouteCarries(t, p.src, profile);
    hide Carries, SubnetRouteFor, Lookup;
  }

  // Main results

  /** A packet from the host address to an effective address, mapped out, answered and mapped in
      again, comes back with the original addresses reversed. */
  lemma EffectiveRoundTrip(t: Table, hosts: map<bool, Addr>, p: Pair)
    requires Consistent(t, hosts) && p.src.v6 in hosts && p.src == hosts[p.src.v6]
    requires MapOutbound(t, p).Some? && !MapOutbound(t, p).value.1.preserve
    ensures var out := MapOutbound(t, p).value;
      MapInbound(t, out.1.profile, out.0.Reversed()) == Some(p.Reversed())
  {
    HostLookup(t.destinations, p.dst);
    var d := t.destinations[HostPrefix(p.dst)];
    assert Paired(t.destinations, t.inbound, p.dst, d);
    HostLookup(t.inbound[d.profile], d.canonical);
  }

  /** The other way round: an answer to what came in from a canonical peer goes back to that peer. */
  lemma PeerRoundTrip(t: Table, hosts: map<bool, Addr>, profile: string, p: Pair)
    requires Consistent(t, hosts)
    requires InboundPeer(t, profile, p.src).Some? && MapInbound(t, profile, p).Some?
    requires SourceKey(profile, p.dst.v6) in t.sources && t.sources[SourceKey(profile, p.dst.v6)].canonical == p.dst
    ensures MapOutbound(t, MapInbound(t, profile, p).value.Reversed())
         == Some((p.Reversed(), Route(profile, p.src, false)))
  {
    HostLookup(t.inbound[profile], p.src);
    var e := t.inbound[profile][HostPrefix(p.src)];
    assert Paired(t.destinations, t.inbound, e, Destination(profile, p.src));
    HostLookup(t.destinations, e);
  }

  /** A destination that is preserved comes back unchanged exactly when it is not itself a canonical
      peer address of the profile that carries it. */
  lemma PreservedRoundTrip(t: Table, hosts: map<bool, Addr>, p: Pair)
    requires Consistent(t, hosts) && p.src.v6 in hosts && p.src == hosts[p.src.v6]
    requires MapOutbound(t, p).Some? && MapOutbound(t, p).value.1.preserve
    ensures var out := MapOutbound(t, p).value;
      (MapInbound(t, out.1.profile, out.0.Reversed()) == Some(p.Reversed())) <==> InboundPeer(t, out.1.profile, p.dst).None?
  {
    var profile := MapOutbound(t, p).value.1.profile;
    HostLookup(t.destinations, p.dst);
    if profile in t.inbound {
      HostLookup(t.inbound[profile], p.dst);
      if HostPrefix(p.dst) in t.inbound[profile] {
        assert Paired(t.destinations, t.inbound, t.inbound[profile][HostPrefix(p.dst)], Destination(profile, p.dst));
      }
    }
  }

  /** What a host address to nothing active is: refused. */
  lemma InactiveRefused(t: Table, p: Pair)
    requires HostKeys(t.destinations) && HostPrefix(p.dst) !in t.destinations
    requires HostPrefix(p.dst) in t.exact && Unavailable(t.exact[HostPrefix(p.dst)])
    ensures MapOutbound(t, p).None?
  {
    HostLookup(t.destinations, p.dst);
    HostPrefixContains(p.dst, p.dst);
    LongestIsUnique(t.exact, p.dst, HostPrefix(p.dst));
  }

  /** Whether the imports inside an exact route are marked inactive makes no difference to any
      packet, in either direction. */
  lemma OverrideMarkIsInert(t: Table, imported: map<Prefix, SubnetRoute>, p: Pair, profile: string)
    requires imported.Keys == t.imported.Keys
    requires forall x :: x in imported && imported[x] != t.imported[x] ==> exists e :: e in t.exact && Within(x, e)
    ensures MapOutbound(t.(imported := imported), p) == MapOutbound(t, p)
    ensures MapInbound(t.(imported := imported), profile, p) == MapInbound(t, profile, p)
  {
    TierUnmoved(t, imported, p.dst);
    TierUnmoved(t, imported, p.src);
  }

  lemma TierUnmoved(t: Table, imported: map<Prefix, SubnetRoute>, ip: Addr)
    requires imported.Keys == t.imported.Keys
    requires forall x :: x in imported && imported[x] != t.imported[x] ==> exists e :: e in t.exact && Within(x, e)
    ensures SubnetTier(t.(imported := imported), ip) == SubnetTier(t, ip)
  {
    LookupIsLongest(t.exact, ip);
    LookupIsLongest(t.imported, ip);
    LookupIsLongest(imported, ip);
    var longest := LookupPrefix(t.imported, ip);
    if longest.Some? {
      var x := longest.value;
      assert IsLongest(imported, ip, x);
      LongestIsUnique(imported, ip, x);
      LongestIsUnique(t.imported, ip, x);
      if imported[x] != t.imported[x] {
        var e :| e in t.exact && Within(x, e);
        WithinContains(x, e, ip);
      }
    }
  }
}
