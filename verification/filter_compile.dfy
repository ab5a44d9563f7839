/** Compilation of the grants of a configuration to the match list that the packet filter runs. */
module FilterCompile {
  import opened Net
  import opened Text
  import opened Permissions
  import opened WireGuardConfig
  import opened PacketFilter
  import opened PacketFilterMeaning
  import opened Ownership

  datatype Match = Match(protocols: seq<nat>, srcs: IPSet, dsts: IPSet, ports: PortRange)

  /** The header fields a match looks at. */
  datatype Flow = Flow(src: Addr, dst: Addr, proto: nat, port: nat)

  predicate MatchAdmits(m: Match, f: Flow) {
    f.proto in m.protocols && m.srcs(f.src) && m.dsts(f.dst) && m.ports.first <= f.port <= m.ports.last
  }

  /** Some match of the list lets the flow in. */
  predicate Admits(matches: seq<Match>, f: Flow) {
    exists i :: 0 <= i < |matches| && MatchAdmits(matches[i], f)
  }

  // What a grant permits, by the longest-match meaning of its selectors

  ghost predicate InDeclaredSpace(cfg: Config, exit: Option<Addr>, a: Addr) {
    exists d: Item :: Declares(cfg, exit, d) && Contains(d.value, a)
  }

  ghost predicate SourceAdmits(cfg: Config, exit: Option<Addr>, s: Selector, a: Addr) {
    match s
    case All => InDeclaredSpace(cfg, exit, a)
    case PeerAll => IsDirect(cfg, a)
    case OfPeer(n) => exists p :: p in cfg.peers && p.name == n && a in p.addresses
    case RoutesAll => exists p :: p in cfg.peers && RoutedOwner(cfg, exit, a, p.name)
    case OfRoutes(n) => (exists p :: p in cfg.peers && p.name == n) && RoutedOwner(cfg, exit, a, n)
    case InPrefix(q) => Contains(q, a) && InDeclaredSpace(cfg, exit, a)
    case _ => false
  }

  /** Only the profile's own addresses are delivered to. */
  predicate DestinationAdmits(cfg: Config, s: Selector, a: Addr) {
    match s
    case Self => a in cfg.addresses
    case All => a in cfg.addresses
    case InPrefix(q) => Contains(q, a) && a in cfg.addresses
    case _ => false
  }

  ghost predicate GrantAdmits(cfg: Config, exit: Option<Addr>, g: GrantMeaning, f: Flow) {
    && (exists s :: s in g.src && SourceAdmits(cfg, exit, s, f.src))
    && (exists s :: s in g.dst && DestinationAdmits(cfg, s, f.dst))
    && (exists p :: p in g.permissions && Permits(p, f.proto, f.port))
  }

  // The same read off the texts of the grant

  /** What a source text admits: `*` the declared space, `peer:*` the addresses of the peers,
      `routes:*` the routed space, `peer:n` and `routes:n` those of one peer, an address or a
      prefix the declared space inside it. */
  ghost predicate SourceTextAdmits(cfg: Config, exit: Option<Addr>, t: SelectorText, a: Addr) {
    match t
    case AddrText(x, _) => a == x && InDeclaredSpace(cfg, exit, a)
    case PrefixText(x, bits, _) => InsideText(x, bits, a) && InDeclaredSpace(cfg, exit, a)
    case Word(w) =>
      || (w == "*" && InDeclaredSpace(cfg, exit, a))
      || (w == "peer:*" && exists p :: p in cfg.peers && a in p.addresses)
      || (w == "routes:*" && exists p :: p in cfg.peers && RoutedOwner(cfg, exit, a, p.name))
      || (w != "peer:*" && exists p :: p in cfg.peers && w == "peer:" + p.name && a in p.addresses)
      || (w != "routes:*" && exists p :: p in cfg.peers && w == "routes:" + p.name && RoutedOwner(cfg, exit, a, p.name))
  }

  /** The leading bits of the two addresses agree. */
  predicate InsideText(x: Addr, bits: nat, a: Addr) {
    && a.v6 == x.v6 && bits <= BitLen(x.v6)
    && ShiftRight(a.value, BitLen(x.v6) - bits) == ShiftRight(x.value, BitLen(x.v6) - bits)
  }

  /** What a destination text admits: of the profile's own addresses, `self` and `*` all of them, an
      address or a prefix those inside it, and every text about peers, routes or the internet none. */
  predicate DestinationTextAdmits(cfg: Config, t: SelectorText, a: Addr) {
    a in cfg.addresses &&
    match t
    case AddrText(x, _) => a == x
    case PrefixText(x, bits, _) => InsideText(x, bits, a)
    case Word(w) => w == "self" || w == "*"
  }

  /** The texts of the grant permit the flow. */
  ghost predicate GrantPermits(cfg: Config, exit: Option<Addr>, g: Grant, f: Flow) {
    && (exists t :: t in g.src && SourceTextAdmits(cfg, exit, t, f.src))
    && (exists t :: t in g.dst && DestinationTextAdmits(cfg, t, f.dst))
    && (exists t :: t in g.ip && PermissionTextAdmits(t, f.proto, f.port))
  }

  /** A source text admits what the selector it parses to admits, and a text that does not parse nothing. */
  lemma SourceTextMeans(cfg: Config, exit: Option<Addr>, t: SelectorText, a: Addr)
    ensures SourceTextAdmits(cfg, exit, t, a) <==>
      ParseSelector(t, true).Some? && SourceAdmits(cfg, exit, ParseSelector(t, true).value, a)
  {
    if ParseSelector(t, true).Some? {
      ParsesAsDenoted(t, true, ParseSelector(t, true).value);
      SourceTextHas(cfg, exit, t, ParseSelector(t, true).value, a);
    } else if SourceTextAdmits(cfg, exit, t, a) {
      hide InDeclaredSpace, RoutedOwner;
      var s := DenotedSource(cfg, exit, t, a);
      ParsesAsDenoted(t, true, s);
      assert false;
    }
  }

  lemma DenotedSource(cfg: Config, exit: Option<Addr>, t: SelectorText, a: Addr) returns (s: Selector)
    requires SourceTextAdmits(cfg, exit, t, a)
    ensures Denotes(t, true, s)
  {
    hide InDeclaredSpace, RoutedOwner;
    match t
    case AddrText(x, _) => s := InPrefix(HostPrefix(x));
    case PrefixText(x, bits, _) => s := InPrefix(PrefixOf(x, bits));
    case Word(w) =>
      if w == "*" {
        s := All;
      } else if w == "peer:*" {
        s := PeerAll;
      } else if w == "routes:*" {
        s := RoutesAll;
      } else {
        s := DenotedName(cfg, w);
      }
  }

  lemma DenotedName(cfg: Config, w: string) returns (s: Selector)
    requires w != "peer:*" && w != "routes:*"
    requires exists p :: p in cfg.peers && (w == "peer:" + p.name || w == "routes:" + p.name)
    ensures Denotes(Word(w), true, s)
  {
    var p :| p in cfg.peers && (w == "peer:" + p.name || w == "routes:" + p.name);
    assert "peer:" + "*" == "peer:*" && "routes:" + "*" == "routes:*";
    s := if w == "peer:" + p.name then OfPeer(p.name) else OfRoutes(p.name);
  }

  lemma SourceTextHas(cfg: Config, exit: Option<Addr>, t: SelectorText, s: Selector, a: Addr)
    requires Denotes(t, true, s)
    ensures SourceTextAdmits(cfg, exit, t, a) <==> SourceAdmits(cfg, exit, s, a)
  {
    hide InDeclaredSpace, RoutedOwner;
    match t
    case AddrText(x, _) => HostPrefixContains(x, a);
    case PrefixText(_, _, _) =>
    case Word(w) =>
      forall p | p in cfg.peers
        ensures w == "peer:" + p.name <==> (s == OfPeer(p.name) || (s == PeerAll && p.name == "*"))
        ensures w == "routes:" + p.name <==> (s == OfRoutes(p.name) || (s == RoutesAll && p.name == "*"))
      {
        NameOfWord(w, s, p.name);
      }
      FixedWords(w, s);
      hide Denotes;
  }

  lemma FixedWords(w: string, s: Selector)
    requires Denotes(Word(w), true, s)
    ensures (w == "*" <==> s == All) && (w == "peer:*" <==> s == PeerAll) && (w == "routes:*" <==> s == RoutesAll)
    ensures !s.InPrefix? && !s.Self? && !s.Internet?
  {
    if s.OfPeer? {
      NameOfWord(w, s, s.peer);
      assert w[0] == 'p';
      assert w[5..] == s.peer && "peer:*"[5..] == "*";
    } else if s.OfRoutes? {
      NameOfWord(w, s, s.peer);
      assert w[0] == 'r';
      assert w[7..] == s.peer && "routes:*"[7..] == "*";
    }
  }

  lemma NameOfWord(w: string, s: Selector, n: string)
    requires Denotes(Word(w), true, s)
    ensures w == "peer:" + n <==> (s == OfPeer(n) || (s == PeerAll && n == "*"))
    ensures w == "routes:" + n <==> (s == OfRoutes(n) || (s == RoutesAll && n == "*"))
  {
    assert "peer:" + "*" == "peer:*" && "routes:" + "*" == "routes:*";
    assert s.OfPeer? ==> ("peer:" + s.peer)[0] == 'p';
    assert s.OfRoutes? ==> ("routes:" + s.peer)[0] == 'r';
    if w == "peer:" + n {
      assert w[0] == 'p' && |w| >= 5 && w[5..] == n;
      assert s.OfPeer? ==> w[5..] == s.peer;
    }
    if w == "routes:" + n {
      assert w[0] == 'r' && |w| >= 7 && w[7..] == n;
      assert s.OfRoutes? ==> w[7..] == s.peer;
    }
  }

  lemma DestinationTextMeans(cfg: Config, t: SelectorText, a: Addr)
    ensures DestinationTextAdmits(cfg, t, a) <==>
      ParseSelector(t, false).Some? && DestinationAdmits(cfg, ParseSelector(t, false).value, a)
  {
    if ParseSelector(t, false).Some? {
      ParsesAsDenoted(t, false, ParseSelector(t, false).value);
    }
    ParsesAsDenoted(t, false, Self);
    ParsesAsDenoted(t, false, All);
    hide ParseSelector;
    match t
    case AddrText(x, _) =>
      HostPrefixContains(x, a);
      ParsesAsDenoted(t, false, InPrefix(HostPrefix(x)));
    case PrefixText(x, bits, _) =>
      if bits <= BitLen(x.v6) {
        ParsesAsDenoted(t, false, InPrefix(PrefixOf(x, bits)));
      }
    case Word(_) =>
  }

  /** A permission that parses is permitted what its text stands for. */
  lemma PermissionTextMeans(t: string, proto: nat, port: nat)
    requires ParsePermission(t).Some?
    ensures Permits(ParsePermission(t).value, proto, port) <==> PermissionTextAdmits(t, proto, port)
  {
    var p := ParsePermission(t).value;
    if t != "*" {
      ProtocolRoundTrip(Cut(t, ':').before);
      hide NormalizeProtocol, ReadProtocol, NamedProtocol, ParseUint, Cut;
    }
    if ReadPermission(t).Some? {
      assert ReadPermission(t).value == [p];
      assert p in ReadPermission(t).value;
    }
  }

  /** Its texts permit what the grant as parsed admits, when its permissions parse or it reaches nothing. */
  lemma GrantTextsMean(cfg: Config, exit: Option<Addr>, g: Grant, f: Flow)
    requires (forall t :: t in g.ip ==> ParsePermission(t).Some?) || Unreached(cfg, g)
    ensures GrantAdmits(cfg, exit, Parsed(g), f) <==> GrantPermits(cfg, exit, g, f)
  {
    SelectorTextsMean(cfg, exit, g, f);
    forall t | t in g.ip && ParsePermission(t).Some?
      ensures Permits(ParsePermission(t).value, f.proto, f.port) <==> PermissionTextAdmits(t, f.proto, f.port)
    {
      PermissionTextMeans(t, f.proto, f.port);
    }
    hide ParseSelector, ParsePermission, Permits, PermissionTextAdmits, SourceAdmits, DestinationAdmits, SourceTextAdmits,
      DestinationTextAdmits;
    var m := Parsed(g);
    assert (exists p :: p in m.permissions && Permits(p, f.proto, f.port)) <==>
      exists t :: t in g.ip && ParsePermission(t).Some? && Permits(ParsePermission(t).value, f.proto, f.port);
  }

  /** No destination of the grant is an address of the profile. */
  ghost predicate Unreached(cfg: Config, g: Grant) {
    forall s, a: Addr :: s in SelectorsOf(g.dst, false) ==> !DestinationAdmits(cfg, s, a)
  }

  lemma SelectorTextsMean(cfg: Config, exit: Option<Addr>, g: Grant, f: Flow)
    ensures (exists s :: s in SelectorsOf(g.src, true) && SourceAdmits(cfg, exit, s, f.src))
        <==> exists t :: t in g.src && SourceTextAdmits(cfg, exit, t, f.src)
    ensures (exists s :: s in SelectorsOf(g.dst, false) && DestinationAdmits(cfg, s, f.dst))
        <==> exists t :: t in g.dst && DestinationTextAdmits(cfg, t, f.dst)
  {
    forall t
      ensures SourceTextAdmits(cfg, exit, t, f.src) <==>
        ParseSelector(t, true).Some? && SourceAdmits(cfg, exit, ParseSelector(t, true).value, f.src)
      ensures DestinationTextAdmits(cfg, t, f.dst) <==>
        ParseSelector(t, false).Some? && DestinationAdmits(cfg, ParseSelector(t, false).value, f.dst)
    {
      SourceTextMeans(cfg, exit, t, f.src);
      DestinationTextMeans(cfg, t, f.dst);
    }
    hide ParseSelector, SourceAdmits, DestinationAdmits, SourceTextAdmits, DestinationTextAdmits;
    if t :| t in g.src && SourceTextAdmits(cfg, exit, t, f.src) {
      assert ParseSelector(t, true).value in SelectorsOf(g.src, true);
    }
    if t :| t in g.dst && DestinationTextAdmits(cfg, t, f.dst) {
      assert ParseSelector(t, false).value in SelectorsOf(g.dst, false);
    }
  }

  /** What raw texts permit is what the grant as written is taken to mean. */
  lemma WrittenTextsMean(cfg: Config, exit: Option<Addr>, g: Grant, f: Flow)
    ensures GrantAdmits(cfg, exit, Meant(g), f) <==> GrantPermits(cfg, exit, g, f)
  {
    SelectorTextsMean(cfg, exit, g, f);
    hide ParseSelector, ReadPermission, Permits, SourceAdmits, DestinationAdmits, SourceTextAdmits, DestinationTextAdmits;
    var m := Meant(g);
    assert (exists p :: p in m.permissions && Permits(p, f.proto, f.port)) <==>
      exists t :: t in g.ip && PermissionTextAdmits(t, f.proto, f.port) by {
      if t :| t in g.ip && PermissionTextAdmits(t, f.proto, f.port) {
        var p :| p in ReadPermission(t).value && Permits(p, f.proto, f.port);
        assert p in PermissionsMeant(g.ip);
      }
    }
  }

  /** Every text of the grant can be read back, as after normalization. */
  predicate Readable(g: Grant) {
    && (forall t :: t in g.src ==> ParseSelector(t, true).Some?)
    && (forall t :: t in g.dst ==> ParseSelector(t, false).Some?)
    && (forall p :: p in g.ip ==> ParsePermission(p).Some?)
  }

  function NamedSet(sets: map<string, IPSet>, name: string): IPSet {
    if name in sets then sets[name] else EmptySet()
  }

  function SourceSet(s: Selector, owned: Owned): Option<IPSet> {
    match s
    case All => Some(owned.all)
    case PeerAll => Some(owned.allPeers)
    case OfPeer(n) => Some(NamedSet(owned.peers, n))
    case RoutesAll => Some(owned.allRoutes)
    case OfRoutes(n) => Some(NamedSet(owned.routes, n))
    case InPrefix(p) => Some(Intersect(AddPrefix(EmptySet(), p), owned.all))
    case _ => None
  }

  lemma SourceSetMeans(cfg: Config, exit: Option<Addr>, owned: Owned, perPeer: map<string, IPSet>, s: Selector, a: Addr)
    requires WellFormedPeers(cfg.peers) && OwnershipHolds(cfg, exit, owned, perPeer)
    requires owned.peers.Keys == owned.routes.Keys == set p | p in cfg.peers :: p.name
    requires SourceSet(s, owned).Some?
    ensures SourceSet(s, owned).value(a) <==> SourceAdmits(cfg, exit, s, a)
  {
    match s
    case OfPeer(n) =>
      if p :| p in cfg.peers && p.name == n {
        forall q | q in cfg.peers && q.name == n
          ensures q == p
        {
          SameNameSamePeer(cfg.peers, p, q);
        }
      }
    case _ =>
  }

  method ResolveSources(texts: seq<SelectorText>, owned: Owned) returns (r: Option<IPSet>)
    ensures r.Some? ==> forall a: Addr :: r.value(a) <==>
      exists t :: t in texts && ParseSelector(t, true).Some? && SourceSet(ParseSelector(t, true).value, owned).Some?
                  && SourceSet(ParseSelector(t, true).value, owned).value(a)
    ensures (forall t :: t in texts ==> ParseSelector(t, true).Some?) ==> r.Some?
  {
    var b := EmptySet();
    for i := 0 to |texts|
      invariant forall a: Addr :: b(a) <==>
        exists t :: t in texts[..i] && ParseSelector(t, true).Some? && SourceSet(ParseSelector(t, true).value, owned).Some?
                    && SourceSet(ParseSelector(t, true).value, owned).value(a)
    {
      assert texts[..i + 1] == texts[..i] + [texts[i]];
      var selector := ParseSelector(texts[i], true);
      if selector.None? {
        return None;
      }
      SourceSelectorsSupported(texts[i], owned);
      var resolved := SourceSet(selector.value, owned);
      if resolved.None? {
        return None;
      }
      hide ParseSelector, SourceSet;
      b := AddSet(b, resolved.value);
    }
    assert texts[..|texts|] == texts;
    return Some(b);
  }

  lemma SourceSelectorsSupported(t: SelectorText, owned: Owned)
    ensures ParseSelector(t, true).Some? ==> SourceSet(ParseSelector(t, true).value, owned).Some?
  {
  }

  method ResolveDestinations(texts: seq<SelectorText>, cfg: Config, local: IPSet) returns (r: Option<IPSet>)
    requires forall a: Addr :: local(a) <==> a in cfg.addresses
    ensures r.Some? ==> forall a: Addr :: r.value(a) <==>
      exists t :: t in texts && ParseSelector(t, false).Some? && DestinationAdmits(cfg, ParseSelector(t, false).value, a)
    ensures (forall t :: t in texts ==> ParseSelector(t, false).Some?) ==> r.Some?
  {
    hide ParseSelector;
    var b := EmptySet();
    for i := 0 to |texts|
      invariant forall a: Addr :: b(a) <==>
        exists t :: t in texts[..i] && ParseSelector(t, false).Some? && DestinationAdmits(cfg, ParseSelector(t, false).value, a)
    {
      assert texts[..i + 1] == texts[..i] + [texts[i]];
      var selector := ParseSelector(texts[i], false);
      if selector.None? {
        return None;
      }
      match selector.value {
        case Self => b := AddSet(b, local);
        case All => b := AddSet(b, local);
        case InPrefix(p) => b := AddSet(b, Intersect(AddPrefix(EmptySet(), p), local));
        case _ =>
      }
    }
    assert texts[..|texts|] == texts;
    return Some(b);
  }

  /** The protocols of a permission. */
  method PermissionProtocols(p: Permission) returns (protocols: seq<nat>)
    ensures forall n :: n in protocols <==> if p.AnyProtocol? then 1 <= n < 255 && n != TSMP else n == p.number
  {
    if p.AnyProtocol? {
      protocols := [];
      for value := 1 to 255
        invariant forall n :: n in protocols <==> 1 <= n < value && n != TSMP
      {
        if value != TSMP {
          protocols := protocols + [value];
        }
      }
    } else {
      protocols := [p.number];
    }
  }

  method SelfSet(cfg: Config) returns (s: IPSet)
    ensures forall a: Addr :: s(a) <==> a in cfg.addresses
  {
    s := EmptySet();
    for i := 0 to |cfg.addresses|
      invariant forall a: Addr :: s(a) <==> a in cfg.addresses[..i]
    {
      assert cfg.addresses[..i + 1] == cfg.addresses[..i] + [cfg.addresses[i]];
      forall a: Addr
        ensures Contains(HostPrefix(cfg.addresses[i]), a) <==> cfg.addresses[i] == a
      {
        HostPrefixContains(cfg.addresses[i], a);
      }
      hide Contains;
      s := AddPrefix(s, HostPrefix(cfg.addresses[i]));
    }
    assert cfg.addresses[..|cfg.addresses|] == cfg.addresses;
  }

  lemma AdmitsSnoc(matches: seq<Match>, m: Match)
    ensures forall f :: Admits(matches + [m], f) <==> Admits(matches, f) || MatchAdmits(m, f)
  {
    forall f
      ensures Admits(matches + [m], f) <==> Admits(matches, f) || MatchAdmits(m, f)
    {
      AdmitsAppend(matches, [m], f);
      assert MatchAdmits(m, f) ==> MatchAdmits([m][0], f);
    }
  }

  lemma AdmitsAppend(a: seq<Match>, b: seq<Match>, f: Flow)
    ensures Admits(a + b, f) <==> Admits(a, f) || Admits(b, f)
  {
    hide MatchAdmits;
    if i :| 0 <= i < |a + b| && MatchAdmits((a + b)[i], f) {
      if i >= |a| {
        assert MatchAdmits(b[i - |a|], f);
      }
    }
    if i :| 0 <= i < |a| && MatchAdmits(a[i], f) {
      assert MatchAdmits((a + b)[i], f);
    }
    if i :| 0 <= i < |b| && MatchAdmits(b[i], f) {
      assert MatchAdmits((a + b)[i + |a|], f);
    }
  }

  /** The match of one permission between resolved sets. */
  method PermissionMatch(p: Permission, srcs: IPSet, dsts: IPSet) returns (m: Match)
    ensures forall f :: MatchAdmits(m, f) <==> srcs(f.src) && dsts(f.dst) && Permits(p, f.proto, f.port)
  {
    var protocols := PermissionProtocols(p);
    var ports := PortRange(0, 65535);
    if p.Protocol? && p.ports.Some? {
      ports := p.ports.value;
    }
    m := Match(protocols, srcs, dsts, ports);
  }

  /** The matches of one grant: one for each permission, none when nothing is delivered to. */
  method GrantMatches(g: Grant, cfg: Config, owned: Owned, local: IPSet) returns (r: Option<seq<Match>>)
    requires forall a: Addr :: local(a) <==> a in cfg.addresses
    ensures Readable(g) ==> r.Some?
    ensures r.Some? ==> (forall t :: t in g.ip ==> ParsePermission(t).Some?) || Unreached(cfg, g)
    ensures r.Some? ==> forall f :: Admits(r.value, f) <==>
      && (exists t :: t in g.src && ParseSelector(t, true).Some? && SourceSet(ParseSelector(t, true).value, owned).Some?
                      && SourceSet(ParseSelector(t, true).value, owned).value(f.src))
      && (exists t :: t in g.dst && ParseSelector(t, false).Some?
                      && DestinationAdmits(cfg, ParseSelector(t, false).value, f.dst))
      && (exists t :: t in g.ip && ParsePermission(t).Some? && Permits(ParsePermission(t).value, f.proto, f.port))
  {
    hide ParseSelector, ParsePermission, SourceSet, MatchAdmits, Permits;
    var sources := ResolveSources(g.src, owned);
    if sources.None? {
      return None;
    }
    var destinations := ResolveDestinations(g.dst, cfg, local);
    if destinations.None? {
      return None;
    }
    var matches: seq<Match> := [];
    if !exists a :: a in cfg.addresses && destinations.value(a) {
      assert forall a: Addr :: !destinations.value(a) by {
        forall a: Addr
          ensures !destinations.value(a)
        {
        }
      }
      return Some(matches);
    }
    for i := 0 to |g.ip|
      invariant forall t :: t in g.ip[..i] ==> ParsePermission(t).Some?
      invariant forall f :: Admits(matches, f) <==>
        && sources.value(f.src) && destinations.value(f.dst)
        && exists t :: t in g.ip[..i] && ParsePermission(t).Some? && Permits(ParsePermission(t).value, f.proto, f.port)
    {
      assert g.ip[..i + 1] == g.ip[..i] + [g.ip[i]];
      var permission := ParsePermission(g.ip[i]);
      if permission.None? {
        return None;
      }
      var m := PermissionMatch(permission.value, sources.value, destinations.value);
      AdmitsSnoc(matches, m);
      matches := matches + [m];
    }
    assert g.ip[..|g.ip|] == g.ip;
    return Some(matches);
  }

  /** A selector of the grant admits the source, one admits the destination, one permission the rest. */
  lemma GrantSetsMean(cfg: Config, exit: Option<Addr>, owned: Owned, perPeer: map<string, IPSet>, g: Grant, f: Flow)
    requires WellFormedPeers(cfg.peers) && OwnershipHolds(cfg, exit, owned, perPeer)
    requires owned.peers.Keys == owned.routes.Keys == set p | p in cfg.peers :: p.name
    ensures GrantAdmits(cfg, exit, Parsed(g), f) <==>
      && (exists t :: t in g.src && ParseSelector(t, true).Some? && SourceSet(ParseSelector(t, true).value, owned).Some?
                      && SourceSet(ParseSelector(t, true).value, owned).value(f.src))
      && (exists t :: t in g.dst && ParseSelector(t, false).Some?
                      && DestinationAdmits(cfg, ParseSelector(t, false).value, f.dst))
      && (exists t :: t in g.ip && ParsePermission(t).Some? && Permits(ParsePermission(t).value, f.proto, f.port))
  {
    forall t | t in g.src && ParseSelector(t, true).Some?
      ensures SourceSet(ParseSelector(t, true).value, owned).Some?
      ensures SourceSet(ParseSelector(t, true).value, owned).value(f.src)
          <==> SourceAdmits(cfg, exit, ParseSelector(t, true).value, f.src)
    {
      SourceSelectorsSupported(t, owned);
      SourceSetMeans(cfg, exit, owned, perPeer, ParseSelector(t, true).value, f.src);
    }
    hide ParseSelector, ParsePermission, SourceSet, Permits, SourceAdmits, DestinationAdmits, OwnershipHolds, WellFormedPeers;
    var m := Parsed(g);
    assert (exists s :: s in m.src && SourceAdmits(cfg, exit, s, f.src)) <==>
      exists t :: t in g.src && ParseSelector(t, true).Some? && SourceAdmits(cfg, exit, ParseSelector(t, true).value, f.src);
    assert (exists s :: s in m.dst && DestinationAdmits(cfg, s, f.dst)) <==>
      exists t :: t in g.dst && ParseSelector(t, false).Some? && DestinationAdmits(cfg, ParseSelector(t, false).value, f.dst);
    assert (exists p :: p in m.permissions && Permits(p, f.proto, f.port)) <==>
      exists t :: t in g.ip && ParsePermission(t).Some? && Permits(ParsePermission(t).value, f.proto, f.port);
  }

  /** The grants of a configuration, compiled: a flow is admitted exactly when the texts of some grant
      permit it, and a restrictive policy admits nothing. */
  method Compile(cfg: Config, exit: Option<Addr>, restrictive: bool) returns (r: Option<seq<Match>>)
    requires WellFormedPeers(cfg.peers)
    ensures (forall g :: g in cfg.grants ==> Readable(g)) || restrictive ==> r.Some?
    ensures r.Some? ==> forall f :: Admits(r.value, f) <==>
      !restrictive && exists g :: g in cfg.grants && GrantPermits(cfg, exit, g, f)
  {
    hide GrantAdmits, GrantPermits, Parsed, MatchAdmits, Unreached;
    var owned, perPeer := BuildOwnership(cfg, exit);
    var local := SelfSet(cfg);
    if restrictive {
      return Some([]);
    }
    var matches: seq<Match> := [];
    for i := 0 to |cfg.grants|
      invariant forall f :: Admits(matches, f) <==>
        exists g :: g in cfg.grants[..i] && GrantPermits(cfg, exit, g, f)
    {
      assert cfg.grants[..i + 1] == cfg.grants[..i] + [cfg.grants[i]];
      var more := GrantMatches(cfg.grants[i], cfg, owned, local);
      if more.None? {
        return None;
      }
      forall f
        ensures Admits(matches + more.value, f) <==>
                Admits(matches, f) || GrantPermits(cfg, exit, cfg.grants[i], f)
      {
        AdmitsAppend(matches, more.value, f);
        GrantSetsMean(cfg, exit, owned, perPeer, cfg.grants[i], f);
        GrantTextsMean(cfg, exit, cfg.grants[i], f);
      }
      matches := matches + more.value;
    }
    assert cfg.grants[..|cfg.grants|] == cfg.grants;
    return Some(matches);
  }

  /** What the texts of a normalized filter permit is what the texts as written permit. */
  lemma CompiledMeansWritten(cfg: Config, exit: Option<Addr>, raw: seq<Grant>, peers: seq<Peer>, render: Render, f: Flow)
    requires FaithfulRender(render) && CleanNames(peers)
    requires NormalizePacketFilter(raw, peers, render) == Some(cfg.grants)
    ensures (exists g :: g in cfg.grants && GrantPermits(cfg, exit, g, f))
        <==> exists g :: g in raw && GrantPermits(cfg, exit, g, f)
  {
    FilterMeaningKept(raw, peers, render);
    NormalizedIsReadable(raw, peers, render);
    hide GrantAdmits, GrantPermits, Parsed, Meant, NormalizePacketFilter, Unreached;
    var a, b := set g | g in cfg.grants :: Parsed(g), set g | g in raw :: Meant(g);
    assert a == b;
    if g :| g in cfg.grants && GrantPermits(cfg, exit, g, f) {
      assert Readable(g);
      GrantTextsMean(cfg, exit, g, f);
      assert Parsed(g) in a;
      var h :| h in raw && Meant(h) == Parsed(g);
      WrittenTextsMean(cfg, exit, h, f);
    }
    if g :| g in raw && GrantPermits(cfg, exit, g, f) {
      WrittenTextsMean(cfg, exit, g, f);
      assert Meant(g) in b;
      var h :| h in cfg.grants && Parsed(h) == Meant(g);
      assert Readable(h);
      GrantTextsMean(cfg, exit, h, f);
    }
  }

  /** Every grant of a normalized filter can be read back, so compiling it cannot fail. */
  lemma NormalizedIsReadable(raw: seq<Grant>, peers: seq<Peer>, render: Render)
    requires NormalizePacketFilter(raw, peers, render).Some?
    ensures forall g :: g in NormalizePacketFilter(raw, peers, render).value ==> Readable(g)
  {
    FilterStable(raw, peers, render);
    forall g | g in NormalizePacketFilter(raw, peers, render).value
      ensures Readable(g)
    {
      SelectorsStable(g.src, true, peers, render);
      SelectorsStable(g.dst, false, peers, render);
      PermissionsStable(g.ip);
      forall t | t in g.src
        ensures ParseSelector(t, true).Some?
      {
        SelectorRoundTrip(t, true, peers);
      }
      forall t | t in g.dst
        ensures ParseSelector(t, false).Some?
      {
        SelectorRoundTrip(t, false, peers);
      }
      forall p | p in g.ip
        ensures ParsePermission(p).Some?
      {
        PermissionRoundTrip(p);
        assert NormalizePermission(p).value[0] == p;
      }
    }
  }

  // Which source prefixes normalization accepts

  /** The prefix has an address in the declared space under some exit. */
  ghost predicate Declarable(cfg: Config, prefix: Prefix) {
    exists exit: Option<Addr>, a: Addr :: Contains(prefix, a) && InDeclaredSpace(cfg, exit, a)
  }

  /** A peer that can be selected as the exit. */
  ghost predicate HasExitPeer(cfg: Config) {
    exists p :: p in cfg.peers && p.exitNode && p.addresses != []
  }

  /** An exit peer has an address of the family. */
  ghost predicate HasExitOf(cfg: Config, v6: bool) {
    exists p, b :: p in cfg.peers && b in p.addresses && p.exitNode && b.v6 == v6
  }

  /** A peer may own some of a prefix exactly when the prefix has an address declared without an exit, or
      when an exit peer has an address of its family. Under some exit the prefix has a declared address
      exactly when a peer may own some of it, or there is an exit peer and the profile has an address of
      the family: a prefix that only the latter makes reachable is refused as a source. */
  lemma PossibleOwnerExactly(cfg: Config, prefix: Prefix)
    requires WellFormedPeers(cfg.peers) && ValidPrefix(prefix)
    requires forall p, b :: p in cfg.peers && b in p.addresses ==> AddressFamilies(cfg).Has(b.v6)
    ensures SourcePrefixHasPossibleOwner(prefix, cfg.peers) <==>
      (exists a: Addr :: Contains(prefix, a) && InDeclaredSpace(cfg, None, a)) || HasExitOf(cfg, prefix.v6)
    ensures Declarable(cfg, prefix) <==>
      SourcePrefixHasPossibleOwner(prefix, cfg.peers) || (HasExitPeer(cfg) && AddressFamilies(cfg).Has(prefix.v6))
  {
    if exit: Option<Addr>, a: Addr :| Contains(prefix, a) && InDeclaredSpace(cfg, exit, a) {
      OwnerOfReachable(cfg, prefix, exit, a);
    }
    if a: Addr :| Contains(prefix, a) && InDeclaredSpace(cfg, None, a) {
      OwnerOfDeclared(cfg, prefix, a);
    }
    if p, b :| p in cfg.peers && b in p.addresses && p.exitNode && b.v6 == prefix.v6 {
      assert PossibleOwner(p, prefix);
    }
    if p :| p in cfg.peers && PossibleOwner(p, prefix) {
      OwnerReaches(cfg, prefix, p);
    }
    if HasExitPeer(cfg) && AddressFamilies(cfg).Has(prefix.v6) {
      var p :| p in cfg.peers && p.exitNode && p.addresses != [];
      ExitReaches(cfg, prefix, p, p.addresses[0]);
    }
  }

  lemma OwnerOfDeclared(cfg: Config, prefix: Prefix, a: Addr)
    requires WellFormedPeers(cfg.peers) && ValidPrefix(prefix) && Contains(prefix, a) && InDeclaredSpace(cfg, None, a)
    ensures SourcePrefixHasPossibleOwner(prefix, cfg.peers)
  {
    var d: Item :| Declares(cfg, None, d) && Contains(d.value, a);
    if d.kind == Default {
      SelectedIn(cfg.peers, None);
      assert false;
    } else if d.kind == Direct {
      var p, b :| p in cfg.peers && p.name == d.peer && b in p.addresses && d.value == HostPrefix(b);
      HostPrefixContains(b, a);
      assert PossibleOwner(p, prefix);
    } else {
      var p :| p in cfg.peers && p.name == d.peer && d.value in p.routes && d.value.bits != 0;
      OverlapShares(prefix, d.value);
      assert PossibleOwner(p, prefix);
    }
  }

  lemma OwnerOfReachable(cfg: Config, prefix: Prefix, exit: Option<Addr>, a: Addr)
    requires WellFormedPeers(cfg.peers) && ValidPrefix(prefix) && Contains(prefix, a) && InDeclaredSpace(cfg, exit, a)
    ensures SourcePrefixHasPossibleOwner(prefix, cfg.peers) || (HasExitPeer(cfg) && AddressFamilies(cfg).Has(prefix.v6))
  {
    var d: Item :| Declares(cfg, exit, d) && Contains(d.value, a);
    if d.kind == Default {
      SelectedIn(cfg.peers, exit);
    } else {
      assert Declares(cfg, None, d);
      OwnerOfDeclared(cfg, prefix, a);
    }
  }

  lemma OwnerReaches(cfg: Config, prefix: Prefix, p: Peer)
    requires WellFormedPeers(cfg.peers) && ValidPrefix(prefix) && p in cfg.peers && PossibleOwner(p, prefix)
    requires forall b :: b in p.addresses ==> AddressFamilies(cfg).Has(b.v6)
    ensures Declarable(cfg, prefix)
    ensures (exists a: Addr :: Contains(prefix, a) && InDeclaredSpace(cfg, None, a)) || HasExitOf(cfg, prefix.v6)
  {
    if a :| a in p.addresses && Contains(prefix, a) {
      HostPrefixContains(a, a);
      assert Declares(cfg, None, Item(p.name, Direct, HostPrefix(a)));
      assert InDeclaredSpace(cfg, None, a);
    } else if b :| b in p.addresses && p.exitNode && b.v6 == prefix.v6 {
      ExitReaches(cfg, prefix, p, b);
    } else {
      var r :| r in p.routes && Overlap(prefix, r);
      OverlapShares(prefix, r);
      var a: Addr :| Contains(prefix, a) && Contains(r, a);
      assert Declares(cfg, None, Item(p.name, Routed, r));
      assert InDeclaredSpace(cfg, None, a);
    }
  }

  lemma ExitReaches(cfg: Config, prefix: Prefix, p: Peer, b: Addr)
    requires WellFormedPeers(cfg.peers) && ValidPrefix(prefix)
    requires p in cfg.peers && p.exitNode && b in p.addresses && AddressFamilies(cfg).Has(prefix.v6)
    ensures Declarable(cfg, prefix)
  {
    NetworkAddrInside(prefix);
    NetworkAddrValid(prefix);
    var a: Addr := NetworkAddr(prefix);
    SelectedSome(cfg.peers, Some(b), p);
    DefaultRouteContains(prefix.v6, a);
    assert Declares(cfg, Some(b), Item(Selected(cfg.peers, Some(b)), Default, DefaultRoute(prefix.v6)));
    assert InDeclaredSpace(cfg, Some(b), a);
  }
}
