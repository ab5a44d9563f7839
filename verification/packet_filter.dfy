/** Packet grants: selectors, and the canonical form of a grant list. */
module PacketFilter {
  import opened Net
  import opened Text
  import opened Permissions
  import opened WireGuardConfig

  datatype Selector =
    | All
    | Self
    | PeerAll
    | OfPeer(peer: string)
    | RoutesAll
    | OfRoutes(peer: string)
    | Internet
    | InPrefix(prefix: Prefix)

  /** Prints a selector. Address printing is a parameter; it is the identity on words. */
  type Render = SelectorText -> string

  predicate Clean(s: string) {
    '\0' !in s && '\U{1}' !in s
  }

  predicate Is4In6(a: Addr) {
    a.v6 && ShiftRight(a.value, 32) == 0xffff
  }

  /** The network address of the prefix that a text denotes. */
  function Base(a: Addr, bits: nat): Addr
    requires bits <= BitLen(a.v6)
  {
    BaseValid(a, bits);
    NetworkAddr(PrefixOf(a, bits))
  }

  lemma BaseValid(a: Addr, bits: nat)
    requires bits <= BitLen(a.v6)
    ensures ShiftRight(NetworkAddr(PrefixOf(a, bits)).value, BitLen(a.v6)) == 0
  {
    ShiftRightShiftRight(a.value, BitLen(a.v6) - bits, bits);
    NetworkAddrValid(PrefixOf(a, bits));
  }

  lemma BaseIdempotent(a: Addr, bits: nat)
    requires bits <= BitLen(a.v6)
    ensures PrefixOf(Base(a, bits), bits) == PrefixOf(a, bits) && Base(Base(a, bits), bits) == Base(a, bits)
  {
    NetworkAddrInside(PrefixOf(a, bits));
  }

  function PeerNamed(peers: seq<Peer>, name: string): Option<Peer> {
    if peers == [] then None
    else if peers[|peers| - 1].name == name then Some(peers[|peers| - 1])
    else PeerNamed(peers[..|peers| - 1], name)
  }

  function NormalizeSelector(raw: SelectorText, source: bool, peers: seq<Peer>): Option<SelectorText> {
    match raw
    case AddrText(a, _) => if Is4In6(a) then None else Some(AddrText(a, 0))
    case PrefixText(a, bits, _) =>
      if Is4In6(a) || bits > BitLen(a.v6) || bits == 0 then None else Some(PrefixText(Base(a, bits), bits, 0))
    case Word(w) =>
      if w == "" || !Trimmed(w) || !LowerCase(w) then None
      else if w == "*" || w == "peer:*" || w == "routes:*" then Some(raw)
      else if w == "self" || w == "internet" then if source then None else Some(raw)
      else
        var parts := Cut(w, ':');
        if parts.found && (parts.before == "peer" || parts.before == "routes") then
          var peer := PeerNamed(peers, parts.after);
          if parts.after == "" || parts.after == "*" || peer.None? then None
          else if parts.before == "routes" && peer.value.routes == [] then None
          else Some(Word(parts.before + ":" + parts.after))
        else None
  }

  function ParseSelector(value: SelectorText, source: bool): Option<Selector> {
    match value
    case Word("*") => Some(All)
    case Word("self") => if source then None else Some(Self)
    case Word("peer:*") => Some(PeerAll)
    case Word("routes:*") => Some(RoutesAll)
    case Word("internet") => if source then None else Some(Internet)
    case Word(w) =>
      var parts := Cut(w, ':');
      if parts.found && parts.before == "peer" then Some(OfPeer(parts.after))
      else if parts.found && parts.before == "routes" then Some(OfRoutes(parts.after))
      else None
    case AddrText(a, _) => Some(InPrefix(HostPrefix(a)))
    case PrefixText(a, bits, _) => if bits > BitLen(a.v6) then None else Some(InPrefix(PrefixOf(a, bits)))
  }

  /** What a selector text stands for, read off the text as a whole: a source text names neither the
      profile itself nor the internet, and the peer called `*` cannot be named. */
  ghost predicate Denotes(t: SelectorText, source: bool, s: Selector) {
    match s
    case All => t == Word("*")
    case Self => t == Word("self") && !source
    case PeerAll => t == Word("peer:*")
    case OfPeer(n) => t == Word("peer:" + n) && n != "*"
    case RoutesAll => t == Word("routes:*")
    case OfRoutes(n) => t == Word("routes:" + n) && n != "*"
    case Internet => t == Word("internet") && !source
    case InPrefix(q) =>
      match t
      case Word(_) => false
      case AddrText(a, _) => q == Prefix(a.v6, BitLen(a.v6), a.value)
      case PrefixText(a, bits, _) => bits <= BitLen(a.v6) && q == Prefix(a.v6, bits, ShiftRight(a.value, BitLen(a.v6) - bits))
  }

  /** Parsing gives the selector a text stands for, and fails where there is none. */
  lemma ParsesAsDenoted(t: SelectorText, source: bool, s: Selector)
    ensures ParseSelector(t, source) == Some(s) <==> Denotes(t, source, s)
  {
    match t
    case Word(w) =>
      if ParseSelector(t, source) == Some(s) {
        ParsedWord(w, source, s);
      }
      if Denotes(t, source, s) {
        DenotedWord(w, source, s);
      }
    case _ =>
  }

  lemma ParsedWord(w: string, source: bool, s: Selector)
    requires ParseSelector(Word(w), source) == Some(s)
    ensures Denotes(Word(w), source, s)
  {
    CutParts(w, ':');
    hide Cut;
    if s.OfPeer? {
      assert w == "peer" + [':'] + s.peer == "peer:" + s.peer;
      assert s.peer == "*" ==> w == "peer:*";
    } else if s.OfRoutes? {
      assert w == "routes" + [':'] + s.peer == "routes:" + s.peer;
      assert s.peer == "*" ==> w == "routes:*";
    }
  }

  lemma DenotedWord(w: string, source: bool, s: Selector)
    requires Denotes(Word(w), source, s)
    ensures ParseSelector(Word(w), source) == Some(s)
  {
    hide Cut;
    if s.OfPeer? {
      assert w == "peer" + [':'] + s.peer;
      CutJoined("peer", ':', s.peer);
      assert w[5..] == s.peer;
      assert w[0] == 'p';
      assert "peer:*"[5..] == "*";
    } else if s.OfRoutes? {
      assert w == "routes" + [':'] + s.peer;
      CutJoined("routes", ':', s.peer);
      assert w[7..] == s.peer;
      assert w[0] == 'r';
      assert "routes:*"[7..] == "*";
    }
  }

  predicate PossibleOwner(p: Peer, prefix: Prefix) {
    || (exists a :: a in p.addresses && (Contains(prefix, a) || (p.exitNode && a.v6 == prefix.v6)))
    || (exists r :: r in p.routes && Overlap(prefix, r))
  }

  predicate SourcePrefixHasPossibleOwner(prefix: Prefix, peers: seq<Peer>) {
    exists p :: p in peers && PossibleOwner(p, prefix)
  }

  /** One source or destination selector of a grant. */
  function NormalizeText(raw: SelectorText, source: bool, peers: seq<Peer>): Option<SelectorText> {
    var t := NormalizeSelector(raw, source, peers);
    if t.None? || !source then t
    else
      var parsed := ParseSelector(t.value, true);
      if parsed.None? then None
      else if parsed.value.InPrefix? && !SourcePrefixHasPossibleOwner(parsed.value.prefix, peers) then None
      else t
  }

  function NormalizeTexts(raw: seq<SelectorText>, source: bool, peers: seq<Peer>): Option<seq<SelectorText>> {
    if raw == [] then Some([])
    else
      var rest := NormalizeTexts(raw[..|raw| - 1], source, peers);
      var last := NormalizeText(raw[|raw| - 1], source, peers);
      if rest.None? || last.None? then None else Some(rest.value + [last.value])
  }

  function ExpandPermissions(raw: seq<string>): Option<seq<string>> {
    if raw == [] then Some([])
    else
      var rest, last := ExpandPermissions(raw[..|raw| - 1]), NormalizePermission(raw[|raw| - 1]);
      if rest.None? || last.None? then None else Some(rest.value + last.value)
  }

  function Identity(s: string): string {
    s
  }

  function NormalizeGrant(g: Grant, peers: seq<Peer>, render: Render): Option<Grant> {
    if g.src == [] || g.dst == [] || g.ip == [] then None
    else
      var src, dst := NormalizeTexts(g.src, true, peers), NormalizeTexts(g.dst, false, peers);
      var ip := ExpandPermissions(g.ip);
      if src.None? || dst.None? || ip.None? then None
      else Some(Grant(SortCompact(src.value, render), SortCompact(dst.value, render), SortCompact(ip.value, Identity)))
  }

  function NormalizeGrants(gs: seq<Grant>, peers: seq<Peer>, render: Render): Option<seq<Grant>> {
    if gs == [] then Some([])
    else
      var rest := NormalizeGrants(gs[..|gs| - 1], peers, render);
      var last := NormalizeGrant(gs[|gs| - 1], peers, render);
      if rest.None? || last.None? then None else Some(rest.value + [last.value])
  }

  function Rendered(ts: seq<SelectorText>, render: Render): seq<string> {
    seq(|ts|, i requires 0 <= i < |ts| => render(ts[i]))
  }

  function GrantKey(render: Render): Grant -> string {
    (g: Grant) => Join(Rendered(g.src, render), '\0') + "\U{1}" + Join(Rendered(g.dst, render), '\0') + "\U{1}" + Join(g.ip, '\0')
  }

  function NormalizePacketFilter(gs: seq<Grant>, peers: seq<Peer>, render: Render): Option<seq<Grant>> {
    var grants := NormalizeGrants(gs, peers, render);
    if grants.None? then None else Some(SortCompact(grants.value, GrantKey(render)))
  }

  // The loops that compute these

  method NormalizePermissionList(raw: seq<string>) returns (r: Option<seq<string>>)
    ensures r == if ExpandPermissions(raw).None? then None else Some(SortCompact(ExpandPermissions(raw).value, Identity))
  {
    var result := [];
    for i := 0 to |raw|
      invariant ExpandPermissions(raw[..i]) == Some(result)
    {
      assert raw[..i + 1][..i] == raw[..i];
      var permissions := NormalizePermission(raw[i]);
      if permissions.None? {
        ExpandFails(raw, i + 1);
        return None;
      }
      result := result + permissions.value;
    }
    assert raw[..|raw|] == raw;
    return Some(SortCompact(result, Identity));
  }

  lemma {:induction false} ExpandFails(raw: seq<string>, i: nat)
    requires i <= |raw| && ExpandPermissions(raw[..i]).None?
    ensures ExpandPermissions(raw).None?
    decreases |raw| - i
  {
    if i == |raw| {
      assert raw[..i] == raw;
    } else {
      assert raw[..i + 1][..i] == raw[..i];
      ExpandFails(raw, i + 1);
    }
  }

  method NormalizeGrantList(gs: seq<Grant>, peers: seq<Peer>, render: Render) returns (r: Option<seq<Grant>>)
    ensures r == NormalizePacketFilter(gs, peers, render)
  {
    var grants := [];
    for i := 0 to |gs|
      invariant NormalizeGrants(gs[..i], peers, render) == Some(grants)
    {
      assert gs[..i + 1][..i] == gs[..i];
      var grant := NormalizeOneGrant(gs[i], peers, render);
      if grant.None? {
        GrantsFail(gs, peers, render, i + 1);
        return None;
      }
      grants := grants + [grant.value];
    }
    assert gs[..|gs|] == gs;
    return Some(SortCompact(grants, GrantKey(render)));
  }

  lemma {:induction false} GrantsFail(gs: seq<Grant>, peers: seq<Peer>, render: Render, i: nat)
    requires i <= |gs| && NormalizeGrants(gs[..i], peers, render).None?
    ensures NormalizeGrants(gs, peers, render).None?
    decreases |gs| - i
  {
    if i == |gs| {
      assert gs[..i] == gs;
    } else {
      assert gs[..i + 1][..i] == gs[..i];
      GrantsFail(gs, peers, render, i + 1);
    }
  }

  method NormalizeOneGrant(g: Grant, peers: seq<Peer>, render: Render) returns (r: Option<Grant>)
    ensures r == NormalizeGrant(g, peers, render)
  {
    if g.src == [] || g.dst == [] || g.ip == [] {
      return None;
    }
    var src := NormalizeSelectorList(g.src, true, peers);
    if src.None? {
      return None;
    }
    var dst := NormalizeSelectorList(g.dst, false, peers);
    if dst.None? {
      return None;
    }
    var permissions := NormalizePermissionList(g.ip);
    if permissions.None? {
      return None;
    }
    return Some(Grant(SortCompact(src.value, render), SortCompact(dst.value, render), permissions.value));
  }

  method NormalizeSelectorList(raw: seq<SelectorText>, source: bool, peers: seq<Peer>)
    returns (r: Option<seq<SelectorText>>)
    ensures r == NormalizeTexts(raw, source, peers)
  {
    var out: seq<SelectorText> := [];
    for i := 0 to |raw|
      invariant NormalizeTexts(raw[..i], source, peers) == Some(out)
    {
      assert raw[..i + 1][..i] == raw[..i];
      var t := NormalizeText(raw[i], source, peers);
      if t.None? {
        TextsFail(raw, source, peers, i + 1);
        return None;
      }
      out := out + [t.value];
    }
    assert raw[..|raw|] == raw;
    return Some(out);
  }

  lemma {:induction false} TextsFail(raw: seq<SelectorText>, source: bool, peers: seq<Peer>, i: nat)
    requires i <= |raw| && NormalizeTexts(raw[..i], source, peers).None?
    ensures NormalizeTexts(raw, source, peers).None?
    decreases |raw| - i
  {
    if i == |raw| {
      assert raw[..i] == raw;
    } else {
      assert raw[..i + 1][..i] == raw[..i];
      TextsFail(raw, source, peers, i + 1);
    }
  }

  // Selectors keep their meaning, and a normal form is left alone

  lemma {:induction false} ShiftLeftRight(x: nat, n: nat, m: nat)
    requires m <= n
    ensures ShiftRight(ShiftLeft(x, n), m) == ShiftLeft(x, n - m)
    decreases n
  {
    ShiftLeftThenRight(ShiftLeft(x, n - m), m, 0);
    ShiftLeftShiftLeft(x, n - m, m);
  }

  lemma {:induction false} ShiftLeftShiftLeft(x: nat, m: nat, n: nat)
    ensures ShiftLeft(ShiftLeft(x, m), n) == ShiftLeft(x, m + n)
    decreases m
  {
    if m > 0 {
      ShiftLeftShiftLeft(2 * x, m - 1, n);
    }
  }

  lemma {:induction false} ShiftLeftEven(x: nat, n: nat)
    requires n > 0
    ensures ShiftLeft(x, n) % 2 == 0
    decreases n
  {
    if n > 1 {
      ShiftLeftEven(2 * x, n - 1);
    }
  }

  /** Masking a native address never gives an IPv4-mapped one. */
  lemma BaseStaysNative(a: Addr, bits: nat)
    requires bits <= BitLen(a.v6) && !Is4In6(a)
    ensures !Is4In6(Base(a, bits))
  {
    if a.v6 {
      var n := 128 - bits;
      var top := ShiftRight(a.value, n);
      if n <= 32 {
        ShiftLeftThenRight(top, n, 32 - n);
        ShiftRightShiftRight(a.value, n, 32 - n);
      } else {
        ShiftLeftRight(top, n, 32);
        ShiftLeftEven(top, n - 32);
      }
    }
  }

  /** The characters that addresses and prefixes are printed with. */
  predicate AddressChar(c: char) {
    '0' <= c <= '9' || 'a' <= c <= 'f' || c == ':' || c == '.' || c == '/'
  }

  /** A text as printing gives it. A word is one that no address can be taken for. */
  predicate Canonical(t: SelectorText) {
    match t
    case Word(w) => w != "" && !AddressChar(w[0])
    case AddrText(_, spelling) => spelling == 0
    case PrefixText(a, bits, spelling) => spelling == 0 && bits <= BitLen(a.v6) && Base(a, bits) == a
  }

  lemma SelectorRoundTrip(raw: SelectorText, source: bool, peers: seq<Peer>)
    requires NormalizeText(raw, source, peers).Some?
    ensures var t := NormalizeText(raw, source, peers).value;
            && Canonical(t)
            && NormalizeText(t, source, peers) == Some(t)
            && ParseSelector(raw, source).Some?
            && ParseSelector(t, source) == ParseSelector(raw, source)
  {
    match raw
    case AddrText(_, _) =>
    case PrefixText(a, bits, _) =>
      BaseIdempotent(a, bits);
      BaseStaysNative(a, bits);
    case Word(w) =>
      WordRoundTrip(w, source, peers);
  }

  /** An accepted word is its own normal form, parses, and starts with no address character. */
  lemma WordRoundTrip(w: string, source: bool, peers: seq<Peer>)
    requires NormalizeSelector(Word(w), source, peers).Some?
    ensures NormalizeSelector(Word(w), source, peers) == Some(Word(w))
    ensures ParseSelector(Word(w), source).Some? && Canonical(Word(w))
  {
    CutParts(w, ':');
    hide Cut, Trimmed, LowerCase, PeerNamed;
    var parts := Cut(w, ':');
    if w != "*" && w != "peer:*" && w != "routes:*" && w != "self" && w != "internet" {
      assert parts.found && (parts.before == "peer" || parts.before == "routes");
      assert w == parts.before + ":" + parts.after;
      assert w[0] == parts.before[0];
    }
  }

  lemma {:induction false} TextsRoundTrip(raw: seq<SelectorText>, source: bool, peers: seq<Peer>)
    requires NormalizeTexts(raw, source, peers).Some?
    ensures var out := NormalizeTexts(raw, source, peers).value;
            && |out| == |raw|
            && (forall i :: 0 <= i < |raw| ==> NormalizeText(raw[i], source, peers) == Some(out[i]))
  {
    if raw != [] {
      TextsRoundTrip(raw[..|raw| - 1], source, peers);
    }
  }

  lemma {:induction false} TextsFixed(ts: seq<SelectorText>, source: bool, peers: seq<Peer>)
    requires forall t :: t in ts ==> NormalizeText(t, source, peers) == Some(t)
    ensures NormalizeTexts(ts, source, peers) == Some(ts)
  {
    if ts != [] {
      TextsFixed(ts[..|ts| - 1], source, peers);
      assert ts == ts[..|ts| - 1] + [ts[|ts| - 1]];
    }
  }

  lemma {:induction false} PermissionsFixed(ps: seq<string>)
    requires forall p :: p in ps ==> NormalizePermission(p) == Some([p])
    ensures ExpandPermissions(ps) == Some(ps)
  {
    if ps != [] {
      PermissionsFixed(ps[..|ps| - 1]);
      assert ps == ps[..|ps| - 1] + [ps[|ps| - 1]];
    }
  }

  /** A text is in the expansion exactly when some raw permission normalizes to it among others. */
  lemma {:induction false} ExpandedFrom(raw: seq<string>, p: string)
    requires ExpandPermissions(raw).Some?
    ensures p in ExpandPermissions(raw).value <==>
            exists r :: r in raw && NormalizePermission(r).Some? && p in NormalizePermission(r).value
    ensures forall r :: r in raw ==> NormalizePermission(r).Some?
  {
    hide NormalizePermission;
    if raw != [] {
      var n := |raw| - 1;
      ExpandedFrom(raw[..n], p);
      assert raw == raw[..n] + [raw[n]];
    }
  }

  // The canonical form is stable

  lemma SelectorsStable(raw: seq<SelectorText>, source: bool, peers: seq<Peer>, render: Render)
    requires NormalizeTexts(raw, source, peers).Some?
    ensures var out := SortCompact(NormalizeTexts(raw, source, peers).value, render);
            && (raw != [] ==> out != [])
            && NormalizeTexts(out, source, peers) == Some(out)
            && SortCompact(out, render) == out
            && forall t :: t in out ==> Canonical(t) && NormalizeText(t, source, peers) == Some(t)
  {
    var all := NormalizeTexts(raw, source, peers).value;
    TextsRoundTrip(raw, source, peers);
    SortCompactSorted(all, render);
    var out := SortCompact(all, render);
    forall t | t in out
      ensures Canonical(t) && NormalizeText(t, source, peers) == Some(t)
    {
      var i :| 0 <= i < |all| && all[i] == t;
      SelectorRoundTrip(raw[i], source, peers);
    }
    TextsFixed(out, source, peers);
    SortCompactFixed(out, render);
  }

  lemma PermissionsStable(raw: seq<string>)
    requires ExpandPermissions(raw).Some?
    ensures var out := SortCompact(ExpandPermissions(raw).value, Identity);
            && ExpandPermissions(out) == Some(out)
            && SortCompact(out, Identity) == out
            && forall p :: p in out ==> PermissionText(p) && NormalizePermission(p) == Some([p])
  {
    var all := ExpandPermissions(raw).value;
    SortCompactSorted(all, Identity);
    var out := SortCompact(all, Identity);
    forall p | p in out
      ensures PermissionText(p) && NormalizePermission(p) == Some([p])
    {
      ExpandedFrom(raw, p);
      var r :| r in raw && NormalizePermission(r).Some? && p in NormalizePermission(r).value;
      PermissionRoundTrip(r);
    }
    PermissionsFixed(out);
    SortCompactFixed(out, Identity);
  }

  lemma {:induction false} ExpandNonEmpty(raw: seq<string>)
    requires raw != [] && ExpandPermissions(raw).Some?
    ensures ExpandPermissions(raw).value != []
  {
    var last := raw[|raw| - 1];
    PermissionRoundTrip(last);
  }

  /** A normalized grant normalizes to itself. */
  lemma GrantStable(g: Grant, peers: seq<Peer>, render: Render)
    requires NormalizeGrant(g, peers, render).Some?
    ensures var n := NormalizeGrant(g, peers, render).value;
            NormalizeGrant(n, peers, render) == Some(n)
  {
    hide NormalizeTexts, NormalizeText, ExpandPermissions, NormalizePermission, SortCompact, Canonical, PermissionText;
    SelectorsStable(g.src, true, peers, render);
    SelectorsStable(g.dst, false, peers, render);
    PermissionsStable(g.ip);
    ExpandNonEmpty(g.ip);
    SortCompactSorted(ExpandPermissions(g.ip).value, Identity);
  }

  lemma {:induction false} GrantsFrom(gs: seq<Grant>, peers: seq<Peer>, render: Render)
    requires NormalizeGrants(gs, peers, render).Some?
    ensures var out := NormalizeGrants(gs, peers, render).value;
            && |out| == |gs|
            && forall i :: 0 <= i < |gs| ==> NormalizeGrant(gs[i], peers, render) == Some(out[i])
  {
    hide NormalizeGrant;
    if gs != [] {
      GrantsFrom(gs[..|gs| - 1], peers, render);
    }
  }

  lemma {:induction false} GrantsFixed(gs: seq<Grant>, peers: seq<Peer>, render: Render)
    requires forall g :: g in gs ==> NormalizeGrant(g, peers, render) == Some(g)
    ensures NormalizeGrants(gs, peers, render) == Some(gs)
  {
    hide NormalizeGrant;
    if gs != [] {
      GrantsFixed(gs[..|gs| - 1], peers, render);
      assert gs == gs[..|gs| - 1] + [gs[|gs| - 1]];
    }
  }

  /** Normalizing a normalized packet filter changes nothing. */
  lemma FilterStable(gs: seq<Grant>, peers: seq<Peer>, render: Render)
    requires NormalizePacketFilter(gs, peers, render).Some?
    ensures var n := NormalizePacketFilter(gs, peers, render).value;
            && NormalizePacketFilter(n, peers, render) == Some(n)
            && forall g :: g in n ==> NormalizeGrant(g, peers, render) == Some(g)
  {
    var all := NormalizeGrants(gs, peers, render).value;
    GrantsFrom(gs, peers, render);
    var n := SortCompact(all, GrantKey(render));
    SortCompactSorted(all, GrantKey(render));
    forall g | g in n
      ensures NormalizeGrant(g, peers, render) == Some(g)
    {
      var i :| 0 <= i < |all| && all[i] == g;
      GrantStable(gs[i], peers, render);
    }
    GrantsFixed(n, peers, render);
    SortCompactFixed(n, GrantKey(render));
  }
}
