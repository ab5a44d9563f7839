/** What a list of grants permits, and that normalization keeps it. */
module PacketFilterMeaning {
  import opened Net
  import opened Text
  import opened Permissions
  import opened WireGuardConfig
  import opened PacketFilter

  datatype GrantMeaning = GrantMeaning(src: set<Selector>, dst: set<Selector>, permissions: set<Permission>)

  ghost function SelectorsOf(ts: seq<SelectorText>, source: bool): set<Selector> {
    set t | t in ts && ParseSelector(t, source).Some? :: ParseSelector(t, source).value
  }

  /** The permissions raw texts stand for. */
  ghost function PermissionsMeant(raw: seq<string>): set<Permission> {
    set r, p | r in raw && ReadPermission(r).Some? && p in ReadPermission(r).value :: p
  }

  /** The permissions normalized texts parse to. */
  ghost function PermissionsParsed(texts: seq<string>): set<Permission> {
    set t | t in texts && ParsePermission(t).Some? :: ParsePermission(t).value
  }

  ghost function Meant(g: Grant): GrantMeaning {
    GrantMeaning(SelectorsOf(g.src, true), SelectorsOf(g.dst, false), PermissionsMeant(g.ip))
  }

  ghost function Parsed(g: Grant): GrantMeaning {
    GrantMeaning(SelectorsOf(g.src, true), SelectorsOf(g.dst, false), PermissionsParsed(g.ip))
  }

  predicate PrintedAddress(s: string) {
    s != "" && forall i :: 0 <= i < |s| ==> AddressChar(s[i])
  }

  /** What printing does: canonical addresses and prefixes are told apart and use the characters of
      addresses only, and a word is printed as it is. */
  ghost predicate FaithfulRender(render: Render) {
    && (forall t, u :: Canonical(t) && Canonical(u) && !t.Word? && !u.Word? && render(t) == render(u) ==> t == u)
    && (forall t :: Canonical(t) && !t.Word? ==> PrintedAddress(render(t)))
    && (forall w :: render(Word(w)) == w)
  }

  /** All canonical texts are then told apart, words included. */
  lemma PrintedApart(render: Render, t: SelectorText, u: SelectorText)
    requires FaithfulRender(render) && Canonical(t) && Canonical(u) && render(t) == render(u)
    ensures t == u
  {
    if t.Word? && !u.Word? {
      WordIsNoAddress(render, t, u);
      assert false;
    } else if u.Word? && !t.Word? {
      WordIsNoAddress(render, u, t);
      assert false;
    }
  }

  lemma WordIsNoAddress(render: Render, word: SelectorText, other: SelectorText)
    requires FaithfulRender(render) && Canonical(word) && Canonical(other) && word.Word? && !other.Word?
    ensures render(word) != render(other)
  {
    assert render(Word(word.text)) == word.text && PrintedAddress(render(other));
  }

  // Such a printer exists

  /** The decimal value of an address, marked by its family, and the length of a prefix. */
  function DecimalRender(t: SelectorText): string {
    match t
    case Word(w) => w
    case AddrText(a, _) => (if a.v6 then ":" else "") + FormatUint(a.value)
    case PrefixText(a, bits, _) => (if a.v6 then ":" else "") + FormatUint(a.value) + "/" + FormatUint(bits)
  }

  lemma FormatIsPrinted(n: nat)
    ensures PrintedAddress(FormatUint(n)) && ':' !in FormatUint(n) && '/' !in FormatUint(n)
  {
    FormatDigits(n);
    hide FormatUint;
  }

  lemma FormatInjective(m: nat, n: nat)
    requires FormatUint(m) == FormatUint(n)
    ensures m == n
  {
    FormatDigits(m);
    FormatDigits(n);
  }

  lemma DecimalMarked(a: Addr, b: Addr)
    requires (if a.v6 then ":" else "") + FormatUint(a.value) == (if b.v6 then ":" else "") + FormatUint(b.value)
    ensures a == b
  {
    FormatIsPrinted(a.value);
    FormatIsPrinted(b.value);
    var s := (if a.v6 then ":" else "") + FormatUint(a.value);
    assert a.v6 <==> s[0] == ':';
    assert b.v6 <==> s[0] == ':';
    var start := if a.v6 then 1 else 0;
    assert s[start..] == FormatUint(a.value) == FormatUint(b.value);
    FormatInjective(a.value, b.value);
  }

  lemma DecimalParts(t: SelectorText)
    requires Canonical(t) && !t.Word?
    ensures var head := (if t.addr.v6 then ":" else "") + FormatUint(t.addr.value);
      && '/' !in head && PrintedAddress(head)
      && Cut(DecimalRender(t), '/') == (if t.AddrText? then Parts(head, [], false) else Parts(head, FormatUint(t.bits), true))
      && PrintedAddress(DecimalRender(t))
  {
    var head := (if t.addr.v6 then ":" else "") + FormatUint(t.addr.value);
    FormatIsPrinted(t.addr.value);
    if t.AddrText? {
      CutNone(head, '/');
    } else {
      FormatIsPrinted(t.bits);
      assert DecimalRender(t) == head + ['/'] + FormatUint(t.bits);
      CutJoined(head, '/', FormatUint(t.bits));
    }
  }

  lemma FaithfulRenderExists()
    ensures FaithfulRender(DecimalRender)
  {
    forall t, u | Canonical(t) && Canonical(u) && !t.Word? && !u.Word? && DecimalRender(t) == DecimalRender(u)
      ensures t == u
    {
      DecimalParts(t);
      DecimalParts(u);
      hide DecimalRender, Cut;
      DecimalMarked(t.addr, u.addr);
      if t.PrefixText? {
        FormatInjective(t.bits, u.bits);
      }
    }
    forall t | Canonical(t) && !t.Word?
      ensures PrintedAddress(DecimalRender(t))
    {
      DecimalParts(t);
    }
  }

  ghost predicate CleanNames(peers: seq<Peer>) {
    forall p :: p in peers ==> Clean(p.name)
  }

  lemma CanonicalMembers(all: seq<SelectorText>, render: Render)
    requires FaithfulRender(render) && forall t :: t in all ==> Canonical(t)
    ensures forall t :: t in SortCompact(all, render) <==> t in all
  {
    hide FaithfulRender, Canonical, SortCompact;
    forall t, u | t in all && u in all && render(t) == render(u)
      ensures t == u
    {
      PrintedApart(render, t, u);
    }
    forall t
      ensures t in SortCompact(all, render) <==> t in all
    {
      SortCompactMembers(all, render, t);
    }
  }

  lemma SelectorsKept(raw: seq<SelectorText>, source: bool, peers: seq<Peer>, render: Render)
    requires FaithfulRender(render) && NormalizeTexts(raw, source, peers).Some?
    ensures SelectorsOf(SortCompact(NormalizeTexts(raw, source, peers).value, render), source) == SelectorsOf(raw, source)
  {
    var all := NormalizeTexts(raw, source, peers).value;
    TextsRoundTrip(raw, source, peers);
    forall i | 0 <= i < |raw|
      ensures Canonical(all[i]) && ParseSelector(raw[i], source).Some?
      ensures ParseSelector(all[i], source) == ParseSelector(raw[i], source)
    {
      SelectorRoundTrip(raw[i], source, peers);
    }
    var out := SortCompact(all, render);
    CanonicalMembers(all, render);
    hide NormalizeText, NormalizeTexts, ParseSelector, Canonical;
    forall s | s in SelectorsOf(raw, source)
      ensures s in SelectorsOf(out, source)
    {
      var i :| 0 <= i < |raw| && ParseSelector(raw[i], source) == Some(s);
      assert all[i] in all;
    }
    forall s | s in SelectorsOf(out, source)
      ensures s in SelectorsOf(raw, source)
    {
      var t :| t in out && ParseSelector(t, source) == Some(s);
      var i :| 0 <= i < |all| && all[i] == t;
      assert raw[i] in raw;
    }
  }

  lemma PermissionsKept(raw: seq<string>)
    requires ExpandPermissions(raw).Some?
    ensures PermissionsParsed(SortCompact(ExpandPermissions(raw).value, Identity)) == PermissionsMeant(raw)
  {
    var out := SortCompact(ExpandPermissions(raw).value, Identity);
    hide ParsePermission, ReadPermission, NormalizePermission, PermissionText, ExpandPermissions, SortCompact;
    forall p | p in PermissionsMeant(raw)
      ensures p in PermissionsParsed(out)
    {
      PermissionSurvives(raw, p);
    }
    forall p | p in PermissionsParsed(out)
      ensures p in PermissionsMeant(raw)
    {
      PermissionOrigin(raw, p);
    }
  }

  lemma PermissionSurvives(raw: seq<string>, p: Permission)
    requires ExpandPermissions(raw).Some? && p in PermissionsMeant(raw)
    ensures p in PermissionsParsed(SortCompact(ExpandPermissions(raw).value, Identity))
  {
    hide ParsePermission, ReadPermission, NormalizePermission, PermissionText, SortCompact;
    var r :| r in raw && ReadPermission(r).Some? && p in ReadPermission(r).value;
    PermissionRoundTrip(r);
    var i :| 0 <= i < |ReadPermission(r).value| && ReadPermission(r).value[i] == p;
    var t := NormalizePermission(r).value[i];
    ExpandedFrom(raw, t);
    SortCompactMembers(ExpandPermissions(raw).value, Identity, t);
    assert ParsePermission(t) == Some(p);
  }

  lemma PermissionOrigin(raw: seq<string>, p: Permission)
    requires ExpandPermissions(raw).Some?
    requires p in PermissionsParsed(SortCompact(ExpandPermissions(raw).value, Identity))
    ensures p in PermissionsMeant(raw)
  {
    hide ParsePermission, ReadPermission, NormalizePermission, PermissionText, SortCompact;
    var all := ExpandPermissions(raw).value;
    var t :| t in SortCompact(all, Identity) && ParsePermission(t) == Some(p);
    SortCompactMembers(all, Identity, t);
    ExpandedFrom(raw, t);
    var r :| r in raw && NormalizePermission(r).Some? && t in NormalizePermission(r).value;
    PermissionRoundTrip(r);
    var i :| 0 <= i < |NormalizePermission(r).value| && NormalizePermission(r).value[i] == t;
    assert ReadPermission(r).value[i] == p;
    assert r in raw && ReadPermission(r).Some? && p in ReadPermission(r).value;
  }

  /** Normalizing a grant keeps its selectors and permissions. */
  lemma GrantMeaningKept(g: Grant, peers: seq<Peer>, render: Render)
    requires FaithfulRender(render) && NormalizeGrant(g, peers, render).Some?
    ensures Parsed(NormalizeGrant(g, peers, render).value) == Meant(g)
    ensures forall s :: s in Meant(g).src <==> exists t :: t in g.src && Denotes(t, true, s)
    ensures forall s :: s in Meant(g).dst <==> exists t :: t in g.dst && Denotes(t, false, s)
  {
    SelectorsDenoted(g.src, true);
    SelectorsDenoted(g.dst, false);
    hide Denotes, NormalizeGrant;
    KeptMeaning(g, peers, render);
  }

  lemma SelectorsDenoted(ts: seq<SelectorText>, source: bool)
    ensures forall s :: s in SelectorsOf(ts, source) <==> exists t :: t in ts && Denotes(t, source, s)
  {
    hide ParseSelector, Denotes;
    forall t, s
      ensures ParseSelector(t, source) == Some(s) <==> Denotes(t, source, s)
    {
      ParsesAsDenoted(t, source, s);
    }
  }

  lemma KeptMeaning(g: Grant, peers: seq<Peer>, render: Render)
    requires FaithfulRender(render) && NormalizeGrant(g, peers, render).Some?
    ensures Parsed(NormalizeGrant(g, peers, render).value) == Meant(g)
  {
    SelectorsKept(g.src, true, peers, render);
    SelectorsKept(g.dst, false, peers, render);
    PermissionsKept(g.ip);
  }

  // Grants that print alike are the same grant

  lemma PeerNamedIn(peers: seq<Peer>, name: string)
    ensures PeerNamed(peers, name).Some? ==> PeerNamed(peers, name).value in peers && PeerNamed(peers, name).value.name == name
  {
  }

  lemma NormalTextIsClean(t: SelectorText, source: bool, peers: seq<Peer>, render: Render)
    requires FaithfulRender(render) && CleanNames(peers)
    requires Canonical(t) && NormalizeText(t, source, peers) == Some(t)
    ensures Clean(render(t))
  {
    if t.Word? {
      NormalWordIsClean(t.text, source, peers);
    }
  }

  lemma FixedWordsAreClean()
    ensures Clean("*") && Clean("peer:*") && Clean("routes:*") && Clean("self") && Clean("internet")
    ensures Clean("peer") && Clean("routes")
  {
  }

  lemma JoinedIsClean(a: string, b: string)
    requires Clean(a) && Clean(b)
    ensures Clean(a + ":" + b)
  {
  }

  lemma NormalWordIsClean(w: string, source: bool, peers: seq<Peer>)
    requires CleanNames(peers) && NormalizeSelector(Word(w), source, peers).Some?
    ensures Clean(w)
  {
    FixedWordsAreClean();
    if w != "*" && w != "peer:*" && w != "routes:*" && w != "self" && w != "internet" {
      var parts := Cut(w, ':');
      CutParts(w, ':');
      PeerNamedIn(peers, parts.after);
      hide Clean, Cut, PeerNamed;
      assert Clean(parts.after);
      JoinedIsClean(parts.before, parts.after);
    }
  }

  lemma PermissionTextIsClean(p: string)
    requires PermissionText(p)
    ensures Clean(p)
  {
  }

  /** The texts of a normalized grant, as the grant key joins them. */
  ghost predicate KeyedTexts(ts: seq<SelectorText>, render: Render) {
    ts != [] && forall t :: t in ts ==> Canonical(t) && Clean(render(t))
  }

  lemma RenderedInjective(ts: seq<SelectorText>, us: seq<SelectorText>, render: Render)
    requires FaithfulRender(render) && KeyedTexts(ts, render) && KeyedTexts(us, render)
    requires Rendered(ts, render) == Rendered(us, render)
    ensures ts == us
  {
    forall i | 0 <= i < |ts|
      ensures ts[i] == us[i]
    {
      assert Rendered(ts, render)[i] == Rendered(us, render)[i];
      assert ts[i] in ts && us[i] in us;
      PrintedApart(render, ts[i], us[i]);
    }
  }

  lemma RenderedClean(ts: seq<SelectorText>, render: Render)
    requires KeyedTexts(ts, render)
    ensures Rendered(ts, render) != [] && forall p :: p in Rendered(ts, render) ==> Clean(p)
  {
    forall p | p in Rendered(ts, render)
      ensures Clean(p)
    {
      var i :| 0 <= i < |ts| && Rendered(ts, render)[i] == p;
      assert ts[i] in ts;
    }
  }

  ghost predicate Keyed(g: Grant, render: Render) {
    && KeyedTexts(g.src, render)
    && KeyedTexts(g.dst, render)
    && g.ip != []
    && forall p :: p in g.ip ==> Clean(p)
  }

  lemma GrantKeyInjective(g: Grant, h: Grant, render: Render)
    requires FaithfulRender(render) && Keyed(g, render) && Keyed(h, render)
    requires GrantKey(render)(g) == GrantKey(render)(h)
    ensures g == h
  {
    RenderedClean(g.src, render);
    RenderedClean(g.dst, render);
    RenderedClean(h.src, render);
    RenderedClean(h.dst, render);
    hide FaithfulRender, Keyed, KeyedTexts;
    KeyParts(Rendered(g.src, render), Rendered(g.dst, render), g.ip, Rendered(h.src, render), Rendered(h.dst, render), h.ip)
      by { assert Keyed(g, render) && Keyed(h, render); }
    RenderedInjective(g.src, h.src, render);
    RenderedInjective(g.dst, h.dst, render);
  }

  function KeyOf(a: seq<string>, b: seq<string>, c: seq<string>): string {
    Join(a, '\0') + "\U{1}" + Join(b, '\0') + "\U{1}" + Join(c, '\0')
  }

  lemma KeyParts(a: seq<string>, b: seq<string>, c: seq<string>, d: seq<string>, e: seq<string>, f: seq<string>)
    requires KeyOf(a, b, c) == KeyOf(d, e, f)
    requires a != [] && b != [] && c != [] && d != [] && e != [] && f != []
    requires forall p :: p in a + b + c + d + e + f ==> Clean(p)
    ensures a == d && b == e && c == f
  {
    var sep := '\U{1}';
    forall l | l in {a, b, c, d, e, f}
      ensures sep !in Join(l, '\0') && (forall p :: p in l ==> '\0' !in p)
    {
      assert forall p :: p in l ==> Clean(p);
      JoinLacks(l, '\0', sep);
    }
    var ab := Join(b, '\0') + [sep] + Join(c, '\0');
    var de := Join(e, '\0') + [sep] + Join(f, '\0');
    assert KeyOf(a, b, c) == Join(a, '\0') + [sep] + ab;
    assert KeyOf(d, e, f) == Join(d, '\0') + [sep] + de;
    CutJoined(Join(a, '\0'), sep, ab);
    CutJoined(Join(d, '\0'), sep, de);
    CutJoined(Join(b, '\0'), sep, Join(c, '\0'));
    CutJoined(Join(e, '\0'), sep, Join(f, '\0'));
    JoinInjective(a, d, '\0');
    JoinInjective(b, e, '\0');
    JoinInjective(c, f, '\0');
  }

  lemma NormalGrantKeyed(g: Grant, peers: seq<Peer>, render: Render)
    requires FaithfulRender(render) && CleanNames(peers) && NormalizeGrant(g, peers, render).Some?
    ensures Keyed(NormalizeGrant(g, peers, render).value, render)
  {
    SelectorsStable(g.src, true, peers, render);
    SelectorsStable(g.dst, false, peers, render);
    PermissionsStable(g.ip);
    ExpandNonEmpty(g.ip);
    SortCompactSorted(ExpandPermissions(g.ip).value, Identity);
    var n := NormalizeGrant(g, peers, render).value;
    forall t | t in n.src
      ensures Clean(render(t))
    {
      NormalTextIsClean(t, true, peers, render);
    }
    forall t | t in n.dst
      ensures Clean(render(t))
    {
      NormalTextIsClean(t, false, peers, render);
    }
    forall p | p in n.ip
      ensures Clean(p)
    {
      PermissionTextIsClean(p);
    }
  }

  /** Normalization keeps exactly the grants that were written, each with its meaning: nothing a
      raw filter permits is lost and nothing is added. */
  lemma FilterMeaningKept(gs: seq<Grant>, peers: seq<Peer>, render: Render)
    requires FaithfulRender(render) && CleanNames(peers) && NormalizePacketFilter(gs, peers, render).Some?
    ensures var n := NormalizePacketFilter(gs, peers, render).value;
            (set g | g in n :: Parsed(g)) == (set g | g in gs :: Meant(g))
  {
    var all := NormalizeGrants(gs, peers, render).value;
    var n := SortCompact(all, GrantKey(render));
    GrantsFrom(gs, peers, render);
    forall i | 0 <= i < |gs|
      ensures Parsed(all[i]) == Meant(gs[i])
    {
      GrantMeaningKept(gs[i], peers, render);
    }
    NormalGrantsApart(gs, peers, render);
    hide NormalizeGrant, NormalizeGrants, Parsed, Meant, Keyed;
    SameImages(n, all, gs);
  }

  lemma SameImages(n: seq<Grant>, all: seq<Grant>, gs: seq<Grant>)
    requires forall g :: g in n <==> g in all
    requires |all| == |gs| && forall i :: 0 <= i < |gs| ==> Parsed(all[i]) == Meant(gs[i])
    ensures (set g | g in n :: Parsed(g)) == (set g | g in gs :: Meant(g))
  {
    hide Parsed, Meant;
    var a, b := set g | g in n :: Parsed(g), set g | g in gs :: Meant(g);
    forall m | m in a
      ensures m in b
    {
      var g :| g in n && Parsed(g) == m;
      var i :| 0 <= i < |all| && all[i] == g;
      assert gs[i] in gs;
    }
    forall m | m in b
      ensures m in a
    {
      var g :| g in gs && Meant(g) == m;
      var i :| 0 <= i < |gs| && gs[i] == g;
      assert all[i] in all;
    }
  }

  // Sorting the configuration afterwards does not disturb the filter

  ghost predicate Alike(p: Peer, q: Peer) {
    && p.name == q.name
    && p.exitNode == q.exitNode
    && (forall a :: a in p.addresses <==> a in q.addresses)
    && (forall r :: r in p.routes <==> r in q.routes)
  }

  /** The same peers in another order, with their lists in another order. */
  ghost predicate Rearranged(peers: seq<Peer>, sorted: seq<Peer>) {
    && (forall p :: p in peers ==> exists q :: q in sorted && Alike(p, q))
    && (forall q :: q in sorted ==> exists p :: p in peers && Alike(p, q))
  }

  lemma {:induction false} PeerNamedUnique(peers: seq<Peer>, p: Peer)
    requires DistinctNames(peers) && p in peers
    ensures PeerNamed(peers, p.name) == Some(p)
  {
    var n := |peers| - 1;
    if peers[n] != p {
      assert p in peers[..n];
      var i :| 0 <= i < n && peers[i] == p;
      PeerNamedUnique(peers[..n], p);
    }
  }

  lemma RearrangedLookup(peers: seq<Peer>, sorted: seq<Peer>, name: string)
    requires DistinctNames(peers) && DistinctNames(sorted) && Rearranged(peers, sorted)
    ensures PeerNamed(peers, name).Some? <==> PeerNamed(sorted, name).Some?
    ensures PeerNamed(peers, name).Some? ==> Alike(PeerNamed(peers, name).value, PeerNamed(sorted, name).value)
  {
    PeerNamedIn(peers, name);
    PeerNamedIn(sorted, name);
    if PeerNamed(peers, name).Some? {
      var p := PeerNamed(peers, name).value;
      var q :| q in sorted && Alike(p, q);
      PeerNamedUnique(sorted, q);
    }
    if PeerNamed(sorted, name).Some? {
      var q := PeerNamed(sorted, name).value;
      var p :| p in peers && Alike(p, q);
      PeerNamedUnique(peers, p);
    }
  }

  lemma RearrangedOwner(peers: seq<Peer>, sorted: seq<Peer>, prefix: Prefix)
    requires Rearranged(peers, sorted)
    ensures SourcePrefixHasPossibleOwner(prefix, peers) ==> SourcePrefixHasPossibleOwner(prefix, sorted)
  {
    hide PossibleOwner, Alike;
    if SourcePrefixHasPossibleOwner(prefix, peers) {
      var p :| p in peers && PossibleOwner(p, prefix);
      var q :| q in sorted && Alike(p, q);
      AlikeOwner(p, q, prefix);
    }
  }

  lemma AlikeOwner(p: Peer, q: Peer, prefix: Prefix)
    requires Alike(p, q) && PossibleOwner(p, prefix)
    ensures PossibleOwner(q, prefix)
  {
    hide Contains, Overlap;
    if a :| a in p.addresses && (Contains(prefix, a) || (p.exitNode && a.v6 == prefix.v6)) {
      assert a in q.addresses;
    } else {
      var r :| r in p.routes && Overlap(prefix, r);
      assert r in q.routes;
    }
  }

  lemma RearrangedText(t: SelectorText, source: bool, peers: seq<Peer>, sorted: seq<Peer>)
    requires DistinctNames(peers) && DistinctNames(sorted) && Rearranged(peers, sorted)
    requires NormalizeText(t, source, peers) == Some(t)
    ensures NormalizeText(t, source, sorted) == Some(t)
  {
    assert NormalizeSelector(t, source, peers) == Some(t);
    if t.Word? {
      var name := Cut(t.text, ':').after;
      RearrangedLookup(peers, sorted, name);
      assert PeerNamed(peers, name).Some? && PeerNamed(peers, name).value.routes != []
        ==> PeerNamed(peers, name).value.routes[0] in PeerNamed(sorted, name).value.routes;
    }
    assert NormalizeSelector(t, source, sorted) == Some(t);
    if source && ParseSelector(t, true).Some? && ParseSelector(t, true).value.InPrefix? {
      RearrangedOwner(peers, sorted, ParseSelector(t, true).value.prefix);
    }
  }

  lemma RearrangedGrant(g: Grant, peers: seq<Peer>, sorted: seq<Peer>, render: Render)
    requires DistinctNames(peers) && DistinctNames(sorted) && Rearranged(peers, sorted)
    requires NormalizeGrant(g, peers, render) == Some(g)
    ensures NormalizeGrant(g, sorted, render) == Some(g)
  {
    SelectorsStable(g.src, true, peers, render);
    SelectorsStable(g.dst, false, peers, render);
    forall t | t in g.src
      ensures NormalizeText(t, true, sorted) == Some(t)
    {
      RearrangedText(t, true, peers, sorted);
    }
    forall t | t in g.dst
      ensures NormalizeText(t, false, sorted) == Some(t)
    {
      RearrangedText(t, false, peers, sorted);
    }
    TextsFixed(g.src, true, sorted);
    TextsFixed(g.dst, false, sorted);
  }

  /** After a filter is normalized and the configuration is then sorted, the filter still is its
      own normal form, so the last check of validation cannot reject it. */
  lemma NormalizedFilterValidates(gs: seq<Grant>, peers: seq<Peer>, sorted: seq<Peer>, render: Render)
    requires DistinctNames(peers) && DistinctNames(sorted) && Rearranged(peers, sorted)
    requires NormalizePacketFilter(gs, peers, render).Some?
    ensures var n := NormalizePacketFilter(gs, peers, render).value;
            NormalizePacketFilter(n, sorted, render) == Some(n)
  {
    FilterStable(gs, peers, render);
    var n := NormalizePacketFilter(gs, peers, render).value;
    forall g | g in n
      ensures NormalizeGrant(g, sorted, render) == Some(g)
    {
      RearrangedGrant(g, peers, sorted, render);
    }
    GrantsFixed(n, sorted, render);
    var all := NormalizeGrants(gs, peers, render).value;
    SortCompactSorted(all, GrantKey(render));
    SortCompactFixed(n, GrantKey(render));
  }

  // The order in which texts and grants are written does not matter

  ghost predicate SameMembers<T(!new)>(s: seq<T>, t: seq<T>) {
    forall x :: x in s <==> x in t
  }

  /** Two grants with the same selectors and permissions, in any order and repeated at will. */
  ghost predicate SameTexts(g: Grant, h: Grant) {
    SameMembers(g.src, h.src) && SameMembers(g.dst, h.dst) && SameMembers(g.ip, h.ip)
  }

  /** Every grant of one filter is, up to order and repetition, one of the other. */
  ghost predicate Matched(gs: seq<Grant>, hs: seq<Grant>) {
    forall g :: g in gs ==> exists h :: h in hs && SameTexts(g, h)
  }

  lemma {:induction false} TextsNormalizedFrom(raw: seq<SelectorText>, source: bool, peers: seq<Peer>)
    ensures NormalizeTexts(raw, source, peers).Some? <==> forall r :: r in raw ==> NormalizeText(r, source, peers).Some?
    ensures NormalizeTexts(raw, source, peers).Some? ==> forall t ::
      t in NormalizeTexts(raw, source, peers).value <==> exists r :: r in raw && NormalizeText(r, source, peers) == Some(t)
  {
    hide NormalizeText;
    if raw != [] {
      var n := |raw| - 1;
      TextsNormalizedFrom(raw[..n], source, peers);
      assert raw == raw[..n] + [raw[n]];
    }
  }

  lemma SelectorOrder(raw: seq<SelectorText>, other: seq<SelectorText>, source: bool, peers: seq<Peer>, render: Render)
    requires FaithfulRender(render) && SameMembers(raw, other)
    ensures var a, b := NormalizeTexts(raw, source, peers), NormalizeTexts(other, source, peers);
      && (a.Some? <==> b.Some?)
      && (a.Some? ==> SortCompact(a.value, render) == SortCompact(b.value, render))
  {
    hide NormalizeText, FaithfulRender;
    TextsNormalizedFrom(raw, source, peers);
    TextsNormalizedFrom(other, source, peers);
    var a, b := NormalizeTexts(raw, source, peers), NormalizeTexts(other, source, peers);
    if a.Some? {
      forall t | t in a.value || t in b.value
        ensures Canonical(t)
      {
        var r :| r in raw && NormalizeText(r, source, peers) == Some(t);
        SelectorRoundTrip(r, source, peers);
      }
      hide Canonical, NormalizeTexts, SortCompact;
      CanonicalMembers(a.value, render);
      CanonicalMembers(b.value, render);
      SortCompactSorted(a.value, render);
      SortCompactSorted(b.value, render);
      StrictlySortedUnique(SortCompact(a.value, render), SortCompact(b.value, render), render);
    }
  }

  lemma {:induction false} AllExpand(raw: seq<string>)
    requires forall r :: r in raw ==> NormalizePermission(r).Some?
    ensures ExpandPermissions(raw).Some?
  {
    hide NormalizePermission;
    if raw != [] {
      AllExpand(raw[..|raw| - 1]);
    }
  }

  lemma PermissionOrder(raw: seq<string>, other: seq<string>)
    requires SameMembers(raw, other) && ExpandPermissions(raw).Some?
    ensures ExpandPermissions(other).Some?
    ensures SortCompact(ExpandPermissions(raw).value, Identity) == SortCompact(ExpandPermissions(other).value, Identity)
  {
    hide NormalizePermission, ExpandPermissions, SortCompact;
    ExpandedFrom(raw, "");
    AllExpand(other);
    var a, b := ExpandPermissions(raw).value, ExpandPermissions(other).value;
    forall p
      ensures p in a <==> p in b
      ensures p in SortCompact(a, Identity) <==> p in a
      ensures p in SortCompact(b, Identity) <==> p in b
    {
      ExpandedFrom(raw, p);
      ExpandedFrom(other, p);
      SortCompactMembers(a, Identity, p);
      SortCompactMembers(b, Identity, p);
    }
    SortCompactSorted(a, Identity);
    SortCompactSorted(b, Identity);
    StrictlySortedUnique(SortCompact(a, Identity), SortCompact(b, Identity), Identity);
  }

  /** A grant normalizes to the same form however its texts are ordered or repeated. */
  lemma GrantOrderIrrelevant(g: Grant, h: Grant, peers: seq<Peer>, render: Render)
    requires FaithfulRender(render) && SameTexts(g, h)
    ensures NormalizeGrant(g, peers, render) == NormalizeGrant(h, peers, render)
  {
    assert g.src == [] <==> h.src == [] by { SameEmpty(g.src, h.src); }
    assert g.dst == [] <==> h.dst == [] by { SameEmpty(g.dst, h.dst); }
    assert g.ip == [] <==> h.ip == [] by { SameEmpty(g.ip, h.ip); }
    SelectorOrder(g.src, h.src, true, peers, render);
    SelectorOrder(g.dst, h.dst, false, peers, render);
    if ExpandPermissions(g.ip).Some? {
      PermissionOrder(g.ip, h.ip);
    } else if ExpandPermissions(h.ip).Some? {
      PermissionOrder(h.ip, g.ip);
    }
  }

  lemma SameEmpty<T(!new)>(s: seq<T>, t: seq<T>)
    requires SameMembers(s, t)
    ensures s == [] <==> t == []
  {
    assert s != [] ==> s[0] in t;
    assert t != [] ==> t[0] in s;
  }

  /** A filter normalizes to the same form however its grants and their texts are ordered or repeated. */
  lemma FilterOrderIrrelevant(gs: seq<Grant>, hs: seq<Grant>, peers: seq<Peer>, render: Render)
    requires FaithfulRender(render) && CleanNames(peers) && NormalizePacketFilter(gs, peers, render).Some?
    requires Matched(gs, hs) && Matched(hs, gs)
    ensures NormalizePacketFilter(hs, peers, render) == NormalizePacketFilter(gs, peers, render)
  {
    SameNormalGrants(gs, hs, peers, render);
    NormalGrantsApart(gs, peers, render);
    NormalGrantsApart(hs, peers, render);
    hide *;
    var a, b := NormalizeGrants(gs, peers, render).value, NormalizeGrants(hs, peers, render).value;
    SortCompactSorted(a, GrantKey(render));
    SortCompactSorted(b, GrantKey(render));
    StrictlySortedUnique(SortCompact(a, GrantKey(render)), SortCompact(b, GrantKey(render)), GrantKey(render));
    SortedFilter(gs, peers, render);
    SortedFilter(hs, peers, render);
  }

  lemma SortedFilter(gs: seq<Grant>, peers: seq<Peer>, render: Render)
    requires NormalizeGrants(gs, peers, render).Some?
    ensures NormalizePacketFilter(gs, peers, render) == Some(SortCompact(NormalizeGrants(gs, peers, render).value, GrantKey(render)))
  {
    hide NormalizeGrants, SortCompact, GrantKey;
  }

  lemma SameNormalGrants(gs: seq<Grant>, hs: seq<Grant>, peers: seq<Peer>, render: Render)
    requires FaithfulRender(render) && NormalizePacketFilter(gs, peers, render).Some?
    requires Matched(gs, hs) && Matched(hs, gs)
    ensures NormalizeGrants(gs, peers, render).Some? && NormalizeGrants(hs, peers, render).Some?
    ensures forall n :: n in NormalizeGrants(gs, peers, render).value <==> n in NormalizeGrants(hs, peers, render).value
  {
    hide Matched, NormalizeGrants, FaithfulRender;
    MatchedNormal(hs, gs, peers, render);
    MatchedNormal(gs, hs, peers, render);
  }

  lemma MatchedNormal(gs: seq<Grant>, hs: seq<Grant>, peers: seq<Peer>, render: Render)
    requires FaithfulRender(render) && NormalizeGrants(hs, peers, render).Some? && Matched(gs, hs)
    ensures NormalizeGrants(gs, peers, render).Some?
    ensures forall n :: n in NormalizeGrants(gs, peers, render).value ==> n in NormalizeGrants(hs, peers, render).value
  {
    hide NormalizeGrant, FaithfulRender, SameTexts;
    GrantsNormalizedFrom(gs, peers, render);
    GrantsNormalizedFrom(hs, peers, render);
    hide NormalizeGrants;
    forall g | g in gs
      ensures exists h :: h in hs && NormalizeGrant(h, peers, render) == NormalizeGrant(g, peers, render)
    {
      var h :| h in hs && SameTexts(g, h);
      GrantOrderIrrelevant(g, h, peers, render);
    }
  }

  lemma {:induction false} GrantsNormalizedFrom(gs: seq<Grant>, peers: seq<Peer>, render: Render)
    ensures NormalizeGrants(gs, peers, render).Some? <==> forall g :: g in gs ==> NormalizeGrant(g, peers, render).Some?
    ensures NormalizeGrants(gs, peers, render).Some? ==> forall n ::
      n in NormalizeGrants(gs, peers, render).value <==> exists g :: g in gs && NormalizeGrant(g, peers, render) == Some(n)
  {
    hide NormalizeGrant;
    if gs != [] {
      var n := |gs| - 1;
      GrantsNormalizedFrom(gs[..n], peers, render);
      assert gs == gs[..n] + [gs[n]];
    }
  }

  /** Compaction drops repeated grants only. */
  lemma NormalGrantsApart(gs: seq<Grant>, peers: seq<Peer>, render: Render)
    requires FaithfulRender(render) && CleanNames(peers) && NormalizeGrants(gs, peers, render).Some?
    ensures var all := NormalizeGrants(gs, peers, render).value;
      forall n :: n in SortCompact(all, GrantKey(render)) <==> n in all
  {
    hide NormalizeGrant, FaithfulRender, CleanNames, SortCompact, Keyed;
    var all := NormalizeGrants(gs, peers, render).value;
    GrantsNormalizedFrom(gs, peers, render);
    forall g, h | g in all && h in all && GrantKey(render)(g) == GrantKey(render)(h)
      ensures g == h
    {
      var r :| r in gs && NormalizeGrant(r, peers, render) == Some(g);
      var s :| s in gs && NormalizeGrant(s, peers, render) == Some(h);
      NormalGrantKeyed(r, peers, render);
      NormalGrantKeyed(s, peers, render);
      GrantKeyInjective(g, h, render);
    }
    forall n
      ensures n in SortCompact(all, GrantKey(render)) <==> n in all
    {
      SortCompactMembers(all, GrantKey(render), n);
    }
  }

  // What is accepted, spelled out

  /** ::ffff:0:0/96 */
  predicate Mapped(a: Addr) {
    a.v6 && 0xffff_0000_0000 <= a.value < 0x1_0000_0000_0000
  }

  /** A word without capitals that does not end in white space. */
  predicate PlainWord(w: string) {
    && (forall i :: 0 <= i < |w| ==> !('A' <= w[i] <= 'Z'))
    && (w != [] ==> w[|w| - 1] !in {' ', '\t', '\n', '\r'})
  }

  /** The last peer of its name. */
  predicate LastNamed(peers: seq<Peer>, i: nat) {
    i < |peers| && forall j :: i < j < |peers| ==> peers[j].name != peers[i].name
  }

  ghost predicate NamesPeer(w: string, peers: seq<Peer>, i: nat) {
    && LastNamed(peers, i) && peers[i].name != "" && peers[i].name != "*"
    && (w == "peer:" + peers[i].name || (w == "routes:" + peers[i].name && peers[i].routes != []))
  }

  /** The texts that can stand in a grant over these peers. */
  ghost predicate AcceptedText(raw: SelectorText, source: bool, peers: seq<Peer>) {
    match raw
    case AddrText(a, _) => !Mapped(a)
    case PrefixText(a, bits, _) => !Mapped(a) && 1 <= bits <= BitLen(a.v6)
    case Word(w) =>
      || w in {"*", "peer:*", "routes:*"}
      || (w in {"self", "internet"} && !source)
      || (PlainWord(w) && exists i: nat :: NamesPeer(w, peers, i))
  }

  /** The last peer of a name is the one found. */
  lemma {:induction false} PeerNamedLast(peers: seq<Peer>, name: string)
    ensures PeerNamed(peers, name).Some? <==> exists i: nat :: LastNamed(peers, i) && peers[i].name == name
    ensures forall i: nat :: LastNamed(peers, i) && peers[i].name == name ==> PeerNamed(peers, name) == Some(peers[i])
  {
    if peers != [] {
      var n := |peers| - 1;
      PeerNamedLast(peers[..n], name);
      assert LastNamed(peers, n);
      if peers[n].name != name {
        forall i: nat | i < n && peers[i].name == name
          ensures LastNamed(peers, i) <==> LastNamed(peers[..n], i)
        {
        }
      }
    }
  }

  lemma MappedExactly(a: Addr)
    ensures Is4In6(a) <==> Mapped(a)
  {
    ShiftRightDivides(a.value, 32, 0xffff);
    assert Power(32) == 0x1_0000_0000 by {
      assert Power(2) == 2 * Power(1) == 4;
      PowerSum(2, 2);
      PowerSum(4, 4);
      PowerSum(8, 8);
      PowerSum(16, 16);
    }
  }

  predicate Times(x: nat, k: nat, unit: nat) {
    x == k * unit
  }

  ghost predicate MultipleOf(x: nat, unit: nat) {
    exists k: nat :: Times(x, k, unit)
  }

  /** Normalization accepts exactly these texts. It leaves a word alone, prints an address and a prefix
      anew, and clears the bits of a prefix below its length. */
  lemma AcceptedExactly(raw: SelectorText, source: bool, peers: seq<Peer>)
    ensures NormalizeSelector(raw, source, peers).Some? <==> AcceptedText(raw, source, peers)
    ensures NormalizeSelector(raw, source, peers).Some? ==>
      match raw
      case Word(_) => NormalizeSelector(raw, source, peers) == Some(raw)
      case AddrText(a, _) => NormalizeSelector(raw, source, peers) == Some(AddrText(a, 0))
      case PrefixText(a, bits, _) => exists b: Addr ::
        && NormalizeSelector(raw, source, peers) == Some(PrefixText(b, bits, 0))
        && b.v6 == a.v6 && b.value <= a.value < b.value + Power(BitLen(a.v6) - bits) 
        && MultipleOf(b.value, Power(BitLen(a.v6) - bits))
  {
    match raw
    case AddrText(a, _) => MappedExactly(a);
    case PrefixText(a, bits, _) =>
      MappedExactly(a);
      if bits <= BitLen(a.v6) {
        BaseClears(a, bits);
      }
    case Word(w) =>
      AcceptedWord(w, source, peers);
      if NormalizeSelector(raw, source, peers).Some? {
        WordRoundTrip(w, source, peers);
      }
  }

  /** As a source, an address or a prefix also needs a peer that may own some of it. */
  lemma SourceAcceptedExactly(raw: SelectorText, peers: seq<Peer>)
    ensures NormalizeText(raw, true, peers).Some? <==>
      && AcceptedText(raw, true, peers)
      && match raw
         case Word(_) => true
         case AddrText(a, _) => SourcePrefixHasPossibleOwner(HostPrefix(a), peers)
         case PrefixText(a, bits, _) => SourcePrefixHasPossibleOwner(PrefixOf(a, bits), peers)
    ensures NormalizeText(raw, false, peers).Some? <==> AcceptedText(raw, false, peers)
    ensures forall source :: NormalizeText(raw, source, peers).Some? ==>
      NormalizeText(raw, source, peers) == NormalizeSelector(raw, source, peers)
  {
    AcceptedExactly(raw, true, peers);
    AcceptedExactly(raw, false, peers);
    if NormalizeSelector(raw, true, peers).Some? {
      match raw {
        case Word(w) =>
          WordRoundTrip(w, true, peers);
          WordIsNoPrefix(w);
        case AddrText(a, _) =>
        case PrefixText(a, bits, _) => BaseIdempotent(a, bits);
      }
    }
  }

  lemma WordIsNoPrefix(w: string)
    ensures ParseSelector(Word(w), true).Some? ==> !ParseSelector(Word(w), true).value.InPrefix?
  {
  }

  lemma BaseClears(a: Addr, bits: nat)
    requires bits <= BitLen(a.v6)
    ensures var b, unit := Base(a, bits), Power(BitLen(a.v6) - bits);
      b.v6 == a.v6 && b.value <= a.value < b.value + unit && MultipleOf(b.value, unit)
  {
    var b := Base(a, bits);
    var n := BitLen(a.v6) - bits;
    var top := ShiftRight(a.value, n);
    ShiftRightDivides(a.value, n, top);
    ShiftLeftMultiplies(top, n);
    assert Times(b.value, top, Power(n));
  }

  lemma AcceptedWord(w: string, source: bool, peers: seq<Peer>)
    ensures NormalizeSelector(Word(w), source, peers).Some? <==> AcceptedText(Word(w), source, peers)
  {
    if w !in {"*", "peer:*", "routes:*", "self", "internet"} {
      if NormalizeSelector(Word(w), source, peers).Some? {
        NamedAccepted(w, source, peers);
      }
      if i: nat :| PlainWord(w) && NamesPeer(w, peers, i) {
        NamedNormalizes(w, source, peers, i);
      }
    } else {
      FixedAccepted(w, source, peers);
    }
  }

  lemma FixedAccepted(w: string, source: bool, peers: seq<Peer>)
    requires w in {"*", "peer:*", "routes:*", "self", "internet"}
    ensures NormalizeSelector(Word(w), source, peers).Some? <==> w in {"*", "peer:*", "routes:*"} || !source
    ensures forall i: nat :: w in {"self", "internet"} ==> !NamesPeer(w, peers, i)
  {
    forall i: nat
      ensures w in {"self", "internet"} ==> !NamesPeer(w, peers, i)
    {
      if NamesPeer(w, peers, i) {
        NamedHead(w, peers, i);
      }
    }
  }

  lemma NamedHead(w: string, peers: seq<Peer>, i: nat)
    requires NamesPeer(w, peers, i)
    ensures w != [] && (w[0] == 'p' || w[0] == 'r')
  {
  }

  lemma NamedAccepted(w: string, source: bool, peers: seq<Peer>)
    requires w !in {"*", "peer:*", "routes:*", "self", "internet"} && NormalizeSelector(Word(w), source, peers).Some?
    ensures PlainWord(w) && exists i: nat :: NamesPeer(w, peers, i)
  {
    CutParts(w, ':');
    hide Cut, PeerNamed;
    var parts := Cut(w, ':');
    assert w == parts.before + ":" + parts.after;
    PeerNamedLast(peers, parts.after);
    var i: nat :| LastNamed(peers, i) && peers[i].name == parts.after;
    assert NamesPeer(w, peers, i);
  }

  lemma NamedNormalizes(w: string, source: bool, peers: seq<Peer>, i: nat)
    requires w !in {"*", "peer:*", "routes:*", "self", "internet"} && PlainWord(w) && NamesPeer(w, peers, i)
    ensures NormalizeSelector(Word(w), source, peers).Some?
  {
    var name := peers[i].name;
    PeerNamedLast(peers, name);
    hide Cut, PeerNamed;
    if w == "peer:" + name {
      assert w == "peer" + [':'] + name;
      CutJoined("peer", ':', name);
      assert w[0] == 'p';
    } else {
      assert w == "routes" + [':'] + name;
      CutJoined("routes", ':', name);
      assert w[0] == 'r';
    }
  }
}
