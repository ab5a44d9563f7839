/** Validation of a normalized WireGuard configuration. */
module WireGuardValidate {
  import opened Net
  import opened WireGuardConfig
  import opened PacketFilter
  import opened PacketFilterMeaning
  import Text

  const VERSION := 1

  predicate Alphanumeric(c: char) {
    'a' <= c <= 'z' || '0' <= c <= '9'
  }

  predicate DnsLabel(s: string) {
    && 1 <= |s| <= 63
    && Alphanumeric(s[0]) && Alphanumeric(s[|s| - 1])
    && forall i :: 0 <= i < |s| ==> Alphanumeric(s[i]) || s[i] == '-'
  }

  predicate DnsLabels(s: string)
    decreases |s|
  {
    var parts := Text.Cut(s, '.');
    if !parts.found then DnsLabel(s)
    else if |parts.after| < |s| then DnsLabel(parts.before) && DnsLabels(parts.after)
    else false
  }

  /** A suffix without its trailing dot, as normalization leaves it. */
  predicate DnsSuffix(s: string) {
    0 < |s| <= 253 && DnsLabels(s)
  }

  predicate ValidAddress(a: Addr) {
    && !Is4In6(a)
    && a.value != 0
    && ShiftRight(a.value, if a.v6 then 120 else 28) != (if a.v6 then 0xff else 0xe)
  }

  predicate NoRepeats<T(==)>(s: seq<T>) {
    forall i, j :: 0 <= i < j < |s| ==> s[i] != s[j]
  }

  ghost predicate DeclaredEarlier(earlier: seq<Peer>, x: Prefix) {
    exists p :: p in earlier && x in DeclaredPrefixes(p)
  }

  ghost predicate AddressFits(c: Config, earlier: seq<Peer>, a: Addr) {
    && ValidAddress(a)
    && (exists own :: own in c.addresses && own.v6 == a.v6)
    && a !in c.addresses
    && !DeclaredEarlier(earlier, HostPrefix(a))
  }

  ghost predicate RouteFits(c: Config, earlier: seq<Peer>, r: Prefix) {
    && ValidPrefix(r) && r.bits != 0
    && (exists own :: own in c.addresses && own.v6 == r.v6)
    && !DeclaredEarlier(earlier, r)
  }

  /** What a peer has to satisfy after the peers before it. */
  ghost predicate PeerFits(c: Config, earlier: seq<Peer>, p: Peer) {
    && DnsLabel(p.name)
    && (forall q :: q in earlier ==> q.name != p.name && q.publicKey != p.publicKey)
    && p.publicKey != ZERO_KEY
    && p.keepalive % SECOND == 0 && p.keepalive <= 65535 * SECOND
    && NoRepeats(p.addresses) && NoRepeats(p.routes)
    && (forall a :: a in p.addresses ==> AddressFits(c, earlier, a))
    && (forall r :: r in p.routes ==> RouteFits(c, earlier, r))
  }

  ghost predicate ValidPeers(c: Config) {
    forall i :: 0 <= i < |c.peers| ==> PeerFits(c, c.peers[..i], c.peers[i])
  }

  /** At least one address, and at most one of each family. */
  predicate ValidAddresses(own: seq<Addr>) {
    && own != []
    && (forall a :: a in own ==> ValidAddress(a))
    && (forall i, j :: 0 <= i < j < |own| ==> own[i].v6 != own[j].v6)
  }

  ghost predicate ValidHead(c: Config) {
    && c.version == VERSION
    && DnsLabel(c.name)
    && DnsSuffix(c.dnsSuffix)
    && ValidAddresses(c.addresses)
  }

  ghost predicate ValidConfig(c: Config, render: Render) {
    && ValidHead(c)
    && ValidPeers(c)
    && NormalizePacketFilter(c.grants, c.peers, render) == Some(c.grants)
  }

  /** What an accepted configuration gives the engine and the filter. */
  lemma ValidIsWellFormed(c: Config)
    requires ValidPeers(c)
    ensures WellFormedPeers(c.peers)
  {
    forall i, j | 0 <= i < j < |c.peers|
      ensures c.peers[i].name != c.peers[j].name && c.peers[i].publicKey != c.peers[j].publicKey
      ensures DeclaredPrefixes(c.peers[i]) !! DeclaredPrefixes(c.peers[j])
    {
      var earlier, p, q := c.peers[..j], c.peers[i], c.peers[j];
      assert PeerFits(c, earlier, q);
      assert p == earlier[i];
      assert p in earlier;
      forall x | x in DeclaredPrefixes(p)
        ensures x !in DeclaredPrefixes(q)
      {
        assert DeclaredEarlier(earlier, x);
      }
    }
    forall p | p in c.peers
      ensures p.name != "" && ProperRoutes(p)
    {
      var i :| 0 <= i < |c.peers| && c.peers[i] == p;
      assert PeerFits(c, c.peers[..i], p);
    }
  }

  /** The maps that validation fills as it goes through the peers. */
  datatype Seen = Seen(
    names: set<string>,
    keys: set<Key>,
    addresses: set<Addr>,
    routes: set<Prefix>,
    allowed: map<Prefix, string>)

  ghost predicate SeenOf(s: Seen, c: Config, earlier: seq<Peer>) {
    && s.names == (set p | p in earlier :: p.name)
    && s.keys == (set p | p in earlier :: p.publicKey)
    && (forall a :: a in s.addresses <==> a in c.addresses || exists p :: p in earlier && a in p.addresses)
    && (forall r :: r in s.routes <==> exists p :: p in earlier && r in p.routes)
    && (forall x :: x in s.allowed <==> DeclaredEarlier(earlier, x))
    && (forall x :: x in s.allowed ==> s.allowed[x] in s.names)
  }

  method ValidateAddresses(c: Config) returns (ok: bool, families: Families)
    ensures ok <==> ValidAddresses(c.addresses)
    ensures ok ==> forall v6: bool :: families.Has(v6) <==> exists own :: own in c.addresses && own.v6 == v6
  {
    families := Families(false, false);
    var as_ := c.addresses;
    for i := 0 to |as_|
      invariant forall a :: a in as_[..i] ==> ValidAddress(a)
      invariant forall j, k :: 0 <= j < k < i ==> as_[j].v6 != as_[k].v6
      invariant forall v6: bool :: families.Has(v6) <==> exists k :: 0 <= k < i && as_[k].v6 == v6
    {
      assert as_[..i + 1] == as_[..i] + [as_[i]];
      if !ValidAddress(as_[i]) {
        return false, families;
      }
      if families.Has(as_[i].v6) {
        return false, families;
      }
      ghost var before := families;
      families := if as_[i].v6 then families.(v6 := true) else families.(v4 := true);
      forall v6: bool
        ensures families.Has(v6) <==> exists k :: 0 <= k < i + 1 && as_[k].v6 == v6
      {
        assert families.Has(v6) <==> before.Has(v6) || as_[i].v6 == v6;
        if families.Has(v6) && as_[i].v6 != v6 {
          var k :| 0 <= k < i && as_[k].v6 == v6;
        }
      }
    }
    assert as_[..|as_|] == as_;
    ok := as_ != [];
  }

  method ValidatePeerAddresses(c: Config, families: Families, earlier: seq<Peer>, p: Peer, s: Seen)
    returns (ok: bool, t: Seen)
    requires SeenOf(s, c, earlier) && p.name !in s.names
    requires forall v6: bool :: families.Has(v6) <==> exists own :: own in c.addresses && own.v6 == v6
    ensures ok <==> NoRepeats(p.addresses) && forall a :: a in p.addresses ==> AddressFits(c, earlier, a)
    ensures ok ==> t.names == s.names && t.keys == s.keys && t.routes == s.routes
    ensures ok ==> forall a :: a in t.addresses <==> a in s.addresses || a in p.addresses
    ensures ok ==> forall x :: x in t.allowed <==> x in s.allowed || exists a :: a in p.addresses && HostPrefix(a) == x
    ensures ok ==> forall x :: x in t.allowed ==> t.allowed[x] == if x in s.allowed then s.allowed[x] else p.name
  {
    t := s;
    var as_ := p.addresses;
    for j := 0 to |as_|
      invariant t.names == s.names && t.keys == s.keys && t.routes == s.routes
      invariant NoRepeats(as_[..j]) && forall a :: a in as_[..j] ==> AddressFits(c, earlier, a)
      invariant forall a :: a in t.addresses <==> a in s.addresses || a in as_[..j]
      invariant forall x :: x in t.allowed <==> x in s.allowed || exists a :: a in as_[..j] && HostPrefix(a) == x
      invariant forall x :: x in t.allowed ==> t.allowed[x] == if x in s.allowed then s.allowed[x] else p.name
    {
      var a := as_[j];
      assert as_[..j + 1] == as_[..j] + [a];
      var prefix := HostPrefix(a);
      AddressSeen(c, earlier, s, a);
      if !ValidAddress(a) || !families.Has(a.v6) {
        assert a in p.addresses && !AddressFits(c, earlier, a);
        return false, t;
      }
      if a in t.addresses {
        if a in as_[..j] {
          var k :| 0 <= k < j && as_[k] == a;
          assert as_[k] == as_[j];
          assert !NoRepeats(p.addresses);
        } else {
          assert a in p.addresses && !AddressFits(c, earlier, a);
        }
        return false, t;
      }
      if prefix in t.allowed && t.allowed[prefix] != p.name {
        assert a in p.addresses && !AddressFits(c, earlier, a);
        return false, t;
      }
      t := t.(addresses := t.addresses + {a}, allowed := t.allowed[prefix := p.name]);
    }
    assert as_[..|as_|] == as_;
    ok := true;
  }

  lemma AddressSeen(c: Config, earlier: seq<Peer>, s: Seen, a: Addr)
    requires SeenOf(s, c, earlier)
    ensures HostPrefix(a) in s.allowed <==> DeclaredEarlier(earlier, HostPrefix(a))
    ensures a in s.addresses ==> a in c.addresses || DeclaredEarlier(earlier, HostPrefix(a))
  {
    if a in s.addresses && a !in c.addresses {
      var p :| p in earlier && a in p.addresses;
      assert HostPrefix(a) in DeclaredPrefixes(p);
    }
  }

  lemma RouteSeen(c: Config, earlier: seq<Peer>, s: Seen, r: Prefix)
    requires SeenOf(s, c, earlier)
    ensures r in s.allowed <==> DeclaredEarlier(earlier, r)
    ensures r in s.routes ==> DeclaredEarlier(earlier, r)
  {
    if r in s.routes {
      var p :| p in earlier && r in p.routes;
      assert r in DeclaredPrefixes(p);
    }
  }

  method ValidatePeerRoutes(c: Config, families: Families, earlier: seq<Peer>, p: Peer, s: Seen, own: Seen)
    returns (ok: bool, t: Seen)
    requires SeenOf(s, c, earlier) && p.name !in s.names
    requires forall v6: bool :: families.Has(v6) <==> exists own :: own in c.addresses && own.v6 == v6
    requires own.routes == s.routes
    requires forall x :: x in own.allowed <==> x in s.allowed || exists a :: a in p.addresses && HostPrefix(a) == x
    requires forall x :: x in own.allowed ==> own.allowed[x] == if x in s.allowed then s.allowed[x] else p.name
    ensures ok <==> NoRepeats(p.routes) && forall r :: r in p.routes ==> RouteFits(c, earlier, r)
    ensures ok ==> t.names == own.names && t.keys == own.keys && t.addresses == own.addresses
    ensures ok ==> forall r :: r in t.routes <==> r in s.routes || r in p.routes
    ensures ok ==> forall x :: x in t.allowed <==> x in own.allowed || x in p.routes
    ensures ok ==> forall x :: x in t.allowed ==> t.allowed[x] == if x in s.allowed then s.allowed[x] else p.name
  {
    t := own;
    var rs := p.routes;
    for j := 0 to |rs|
      invariant t.names == own.names && t.keys == own.keys && t.addresses == own.addresses
      invariant NoRepeats(rs[..j]) && forall r :: r in rs[..j] ==> RouteFits(c, earlier, r)
      invariant forall r :: r in t.routes <==> r in s.routes || r in rs[..j]
      invariant forall x :: x in t.allowed <==> x in own.allowed || x in rs[..j]
      invariant forall x :: x in t.allowed ==> t.allowed[x] == if x in s.allowed then s.allowed[x] else p.name
    {
      var r := rs[j];
      assert rs[..j + 1] == rs[..j] + [r];
      RouteSeen(c, earlier, s, r);
      if !ValidPrefix(r) || r.bits == 0 || !families.Has(r.v6) {
        assert r in p.routes && !RouteFits(c, earlier, r);
        return false, t;
      }
      if r in t.routes {
        if r in rs[..j] {
          var k :| 0 <= k < j && rs[k] == r;
          assert rs[k] == rs[j];
          assert !NoRepeats(p.routes);
        } else {
          assert r in p.routes && !RouteFits(c, earlier, r);
        }
        return false, t;
      }
      if r in t.allowed && t.allowed[r] != p.name {
        assert r in p.routes && !RouteFits(c, earlier, r);
        return false, t;
      }
      t := t.(routes := t.routes + {r}, allowed := t.allowed[r := p.name]);
    }
    assert rs[..|rs|] == rs;
    ok := true;
  }

  lemma SeenExtends(s: Seen, t: Seen, c: Config, earlier: seq<Peer>, p: Peer)
    requires SeenOf(s, c, earlier)
    requires t.names == s.names + {p.name} && t.keys == s.keys + {p.publicKey}
    requires forall a :: a in t.addresses <==> a in s.addresses || a in p.addresses
    requires forall r :: r in t.routes <==> r in s.routes || r in p.routes
    requires forall x :: x in t.allowed <==> x in s.allowed || x in DeclaredPrefixes(p)
    requires forall x :: x in t.allowed ==> t.allowed[x] == if x in s.allowed then s.allowed[x] else p.name
    ensures SeenOf(t, c, earlier + [p])
  {
    var longer := earlier + [p];
    assert forall q :: q in longer <==> q in earlier || q == p;
    forall x
      ensures DeclaredEarlier(longer, x) <==> DeclaredEarlier(earlier, x) || x in DeclaredPrefixes(p)
    {
      if DeclaredEarlier(earlier, x) {
        var q :| q in earlier && x in DeclaredPrefixes(q);
        assert q in longer;
      }
      if x in DeclaredPrefixes(p) {
        assert p in longer;
      }
    }
  }

  method ValidatePeer(c: Config, families: Families, earlier: seq<Peer>, p: Peer, s: Seen) returns (ok: bool, t: Seen)
    requires SeenOf(s, c, earlier)
    requires forall v6: bool :: families.Has(v6) <==> exists own :: own in c.addresses && own.v6 == v6
    ensures ok <==> PeerFits(c, earlier, p)
    ensures ok ==> SeenOf(t, c, earlier + [p])
  {
    hide DnsLabel, AddressFits, RouteFits, NoRepeats, DeclaredEarlier;
    if !DnsLabel(p.name) || p.name in s.names {
      return false, s;
    }
    if p.publicKey in s.keys || p.publicKey == ZERO_KEY {
      return false, s;
    }
    if p.keepalive % SECOND != 0 || p.keepalive > 65535 * SECOND {
      return false, s;
    }
    var fits, own := ValidatePeerAddresses(c, families, earlier, p, s);
    if !fits {
      return false, s;
    }
    var routed, all := ValidatePeerRoutes(c, families, earlier, p, s, own);
    if !routed {
      return false, s;
    }
    t := all.(names := s.names + {p.name}, keys := s.keys + {p.publicKey});
    SeenExtends(s, t, c, earlier, p);
    ok := true;
  }

  /** Validation accepts exactly the configurations ValidConfig describes. */
  method Validate(c: Config, render: Render) returns (ok: bool)
    ensures ok <==> ValidConfig(c, render)
  {
    if c.version != VERSION || !DnsLabel(c.name) || !DnsSuffix(c.dnsSuffix) {
      return false;
    }
    var addressed, families := ValidateAddresses(c);
    if !addressed {
      return false;
    }
    var seen := Seen({}, {}, set a | a in c.addresses, {}, map[]);
    for i := 0 to |c.peers|
      invariant SeenOf(seen, c, c.peers[..i])
      invariant forall j :: 0 <= j < i ==> PeerFits(c, c.peers[..j], c.peers[j])
    {
      assert c.peers[..i + 1] == c.peers[..i] + [c.peers[i]];
      var fits, next := ValidatePeer(c, families, c.peers[..i], c.peers[i], seen);
      if !fits {
        return false;
      }
      seen := next;
    }
    return NormalizePacketFilter(c.grants, c.peers, render) == Some(c.grants);
  }

  // The checks on single texts and addresses, spelled out

  /** Native, not unspecified, not multicast. */
  lemma AddressSpelled(a: Addr)
    ensures ValidAddress(a) <==>
      && a.value != 0 && !Mapped(a)
      && (if a.v6 then a.value < 0xff00_0000_0000_0000_0000_0000_0000_0000 else !(0xe000_0000 <= a.value < 0xf000_0000))
  {
    MappedExactly(a);
    ShiftRightDivides(a.value, 28, 0xe);
    ShiftRightDivides(a.value, 120, 0xff);
    ShiftRightDivides(a.value, 128, 0);
    WidePowers();
  }

  lemma WidePowers()
    ensures Power(28) == 0x1000_0000
    ensures Power(120) == 0x100_0000_0000_0000_0000_0000_0000_0000 && Power(128) == 0x1_0000_0000_0000_0000_0000_0000_0000_0000
  {
    assert Power(4) == 0x10 by {
      assert Power(2) == 2 * Power(1) == 4;
      PowerProduct(2, 2, 4, 4);
    }
    hide Power;
    PowerProduct(4, 4, 0x10, 0x10);
    PowerProduct(8, 4, 0x100, 0x10);
    PowerProduct(12, 12, 0x1000, 0x1000);
    PowerProduct(24, 4, 0x100_0000, 0x10);
    PowerProduct(24, 24, 0x100_0000, 0x100_0000);
    PowerProduct(48, 12, 0x1_0000_0000_0000, 0x1000);
    PowerProduct(60, 60, 0x1000_0000_0000_0000, 0x1000_0000_0000_0000);
    PowerProduct(120, 8, 0x100_0000_0000_0000_0000_0000_0000_0000, 0x100);
  }

  lemma LabelSpelled(s: string)
    ensures DnsLabel(s) <==>
      && 1 <= |s| <= 63 && s[0] != '-' && s[|s| - 1] != '-'
      && forall i :: 0 <= i < |s| ==> 'a' <= s[i] <= 'z' || '0' <= s[i] <= '9' || s[i] == '-'
  {
  }

  /** The text is these labels with dots between them. */
  ghost predicate Dotted(labels: seq<string>, s: string) {
    labels != [] && Text.Join(labels, '.') == s && forall l :: l in labels ==> DnsLabel(l)
  }

  /** A suffix is labels with dots between them, at most 253 characters long. */
  lemma SuffixSpelled(s: string)
    ensures DnsSuffix(s) <==> |s| <= 253 && exists labels :: Dotted(labels, s)
  {
    if DnsLabels(s) {
      var labels := LabelsOf(s);
      DottedLabels(labels, s);
    }
    if labels :| Dotted(labels, s) {
      DottedLabels(labels, s);
    }
  }

  lemma {:induction false} LabelsOf(s: string) returns (labels: seq<string>)
    requires DnsLabels(s)
    ensures Dotted(labels, s)
    decreases |s|
  {
    var parts := Text.Cut(s, '.');
    Text.CutParts(s, '.');
    hide DnsLabel;
    if parts.found {
      var rest := LabelsOf(parts.after);
      labels := [parts.before] + rest;
      assert labels[1..] == rest;
    } else {
      labels := [s];
    }
  }

  lemma {:induction false} DottedLabels(labels: seq<string>, s: string)
    requires Dotted(labels, s)
    ensures DnsLabels(s) && s != []
    decreases |labels|
  {
    var head := labels[0];
    assert '.' !in head && head != [] by {
      assert DnsLabel(head);
    }
    hide DnsLabel;
    if |labels| == 1 {
      Text.CutNone(s, '.');
    } else {
      var rest := Text.Join(labels[1..], '.');
      assert Dotted(labels[1..], rest);
      Text.CutJoined(head, '.', rest);
      DottedLabels(labels[1..], rest);
    }
  }
}
