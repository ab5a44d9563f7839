/** The full and the incremental writer of the WireGuard engine, and when they agree. */
module WireGuardDiff {
  import opened Net
  import opened WireGuardConfig
  import opened WireGuardDevice
  import opened WireGuardScript

  const LINUX_BYPASS_MARK: nat := 0x80000

  /** What an engine runs: a configuration with resolved endpoints, its keys and the exit peer. */
  datatype Running = Running(cfg: Config, secrets: Secrets, exit: Option<Addr>)

  function ByKey(peers: seq<Peer>): (m: map<Key, Peer>)
    ensures forall k :: k in m ==> m[k] in peers && m[k].publicKey == k
    ensures forall p :: p in peers ==> p.publicKey in m
  {
    if peers == [] then map[]
    else
      var n := |peers| - 1;
      assert peers == peers[..n] + [peers[n]];
      ByKey(peers[..n])[peers[n].publicKey := peers[n]]
  }

  lemma ByKeyFinds(peers: seq<Peer>, p: Peer)
    requires DistinctKeys(peers) && p in peers
    ensures ByKey(peers)[p.publicKey] == p
  {
    var q := ByKey(peers)[p.publicKey];
    var i :| 0 <= i < |peers| && peers[i] == p;
    var j :| 0 <= j < |peers| && peers[j] == q;
  }

  function Psk(secrets: Secrets, name: string): Key {
    if name in secrets.preshared then secrets.preshared[name] else ZERO_KEY
  }

  function Defaults(fam: Families): set<Prefix> {
    (if fam.v4 then {DefaultRoute(false)} else {}) + (if fam.v6 then {DefaultRoute(true)} else {})
  }

  function AllowedSet(peer: Peer, selected: bool, fam: Families): set<Prefix> {
    DeclaredPrefixes(peer) + if selected then Defaults(fam) else {}
  }

  function StateOf(peer: Peer, secrets: Secrets): PeerState {
    PeerState(Psk(secrets, peer.name), peer.endpoint, peer.keepalive / SECOND)
  }

  function WantedFor(r: Running, peer: Peer): Wanted {
    Wanted(StateOf(peer, r.secrets), AllowedSet(peer, PeerHasAddress(peer, r.exit), AddressFamilies(r.cfg)))
  }

  function PlanOf(r: Running): Plan {
    var peers := ByKey(r.cfg.peers);
    map k | k in peers :: WantedFor(r, peers[k])
  }

  predicate SamePeer(a: Peer, b: Peer) {
    && a.name == b.name
    && a.publicKey == b.publicKey
    && a.hasPresharedKey == b.hasPresharedKey
    && a.endpoint == b.endpoint
    && a.keepalive == b.keepalive
    && a.exitNode == b.exitNode
    && a.addresses == b.addresses
    && a.routes == b.routes
  }

  /** The endpoint of an existing peer has to be cleared. */
  predicate Replaced(prev: Running, next: Running, k: Key) {
    var o, n := ByKey(prev.cfg.peers), ByKey(next.cfg.peers);
    k in o && k in n && o[k].endpoint != "" && n[k].endpoint == ""
  }

  predicate NeedsWrite(prev: Running, next: Running, k: Key)
    requires k in ByKey(next.cfg.peers)
  {
    var o, n := ByKey(prev.cfg.peers), ByKey(next.cfg.peers);
    || k !in o
    || Replaced(prev, next, k)
    || !SamePeer(o[k], n[k])
    || Psk(prev.secrets, o[k].name) != Psk(next.secrets, n[k].name)
    || PeerHasAddress(o[k], prev.exit) != PeerHasAddress(n[k], next.exit)
  }

  /** What the incremental script does to a device that holds `prev`. */
  function DiffChange(prev: Running, next: Running): Change {
    var o, n := ByKey(prev.cfg.peers), ByKey(next.cfg.peers);
    Change(
      if prev.secrets.privateKey.Some? && next.secrets.privateKey.Some?
         && prev.secrets.privateKey != next.secrets.privateKey then next.secrets.privateKey else None,
      if prev.cfg.listenPort != next.cfg.listenPort then Some(next.cfg.listenPort) else None,
      set k | k in o && Replaced(prev, next, k),
      set k | k in n && NeedsWrite(prev, next, k),
      set k | k in o && k !in n,
      map k | k in n :: if NeedsWrite(prev, next, k) then WantedFor(next, n[k]) else WantedFor(prev, o[k]))
  }

  /** An unchanged peer stays selected while the address families of the profile change. */
  ghost predicate StaleExit(prev: Running, next: Running) {
    && AddressFamilies(prev.cfg) != AddressFamilies(next.cfg)
    && exists k :: k in ByKey(next.cfg.peers) && !NeedsWrite(prev, next, k)
                   && PeerHasAddress(ByKey(next.cfg.peers)[k], next.exit)
  }

  ghost predicate HoldsRunning(d: Device, r: Running) {
    && Holds(d, PlanOf(r))
    && d.privateKey == r.secrets.privateKey
    && d.listenPort == r.cfg.listenPort
  }

  // The change is one the script lemmas cover

  lemma DeclaredDisjoint(peers: seq<Peer>, p: Peer, q: Peer)
    requires WellFormedPeers(peers) && p in peers && q in peers && p.publicKey != q.publicKey
    ensures DeclaredPrefixes(p) !! DeclaredPrefixes(q)
  {
    var i :| 0 <= i < |peers| && peers[i] == p;
    var j :| 0 <= j < |peers| && peers[j] == q;
    if i < j {
      assert DeclaredPrefixes(peers[i]) !! DeclaredPrefixes(peers[j]);
    } else {
      assert DeclaredPrefixes(peers[j]) !! DeclaredPrefixes(peers[i]);
    }
  }

  lemma NoDeclaredDefault(p: Peer, v6: bool)
    requires ProperRoutes(p)
    ensures DefaultRoute(v6) !in DeclaredPrefixes(p)
  {
  }

  /** At most one peer has a given address, so at most one is selected. */
  lemma AllowedDisjoint(peers: seq<Peer>, p: Peer, q: Peer, exit: Option<Addr>, f: Families, g: Families)
    requires WellFormedPeers(peers) && p in peers && q in peers && p.publicKey != q.publicKey
    ensures AllowedSet(p, PeerHasAddress(p, exit), f) !! AllowedSet(q, PeerHasAddress(q, exit), g)
  {
    DeclaredDisjoint(peers, p, q);
    forall v6: bool
      ensures DefaultRoute(v6) !in DeclaredPrefixes(p) && DefaultRoute(v6) !in DeclaredPrefixes(q)
    {
      NoDeclaredDefault(p, v6);
      NoDeclaredDefault(q, v6);
    }
    assert PeerHasAddress(p, exit) ==> HostPrefix(exit.value) in DeclaredPrefixes(p);
    assert PeerHasAddress(q, exit) ==> HostPrefix(exit.value) in DeclaredPrefixes(q);
  }

  lemma DiffChangeValid(prev: Running, next: Running)
    requires WellFormedPeers(next.cfg.peers)
    ensures ValidChange(DiffChange(prev, next))
  {
    var c, n := DiffChange(prev, next), ByKey(next.cfg.peers);
    forall k | k in c.to
      ensures c.to[k].ips == AllowedSet(n[k], PeerHasAddress(n[k], next.exit),
                               AddressFamilies(if NeedsWrite(prev, next, k) then next.cfg else prev.cfg))
    {
    }
    forall k, l | k in c.to && l in c.to && k != l
      ensures c.to[k].ips !! c.to[l].ips
    {
      AllowedDisjoint(next.cfg.peers, n[k], n[l], next.exit,
        AddressFamilies(if NeedsWrite(prev, next, k) then next.cfg else prev.cfg),
        AddressFamilies(if NeedsWrite(prev, next, l) then next.cfg else prev.cfg));
    }
  }

  lemma DiffRecoverable(d: Device, prev: Running, next: Running)
    requires HoldsRunning(d, prev)
    requires prev.secrets.privateKey.Some? && next.secrets.privateKey.Some?
    ensures Recoverable(d, DiffChange(prev, next))
    ensures Global(d, DiffChange(prev, next), next.secrets.privateKey, next.cfg.listenPort, d.fwmark)
  {
    var c := DiffChange(prev, next);
    forall k | k in c.to && k !in c.write
      ensures OwnsWithin(d, k, c.to[k], WrittenIps(c, c.write))
    {
      KeptPeerPlan(prev, next, k);
      ExactIsWithin(d, k, c.to[k], WrittenIps(c, c.write));
    }
    forall k | k in c.write && k in c.to && k !in c.removeFirst && c.to[k].state.endpoint == "" && k in d.peers
      ensures d.peers[k].endpoint == ""
    {
      assert OwnsExactly(d, k, PlanOf(prev)[k]);
    }
    hide WrittenIps;
  }

  lemma ExactIsWithin(d: Device, k: Key, w: Wanted, extra: set<Prefix>)
    requires OwnsExactly(d, k, w)
    ensures OwnsWithin(d, k, w, extra)
  {
  }

  /** The script ends with what the new configuration wants, unless it leaves a stale exit peer. */
  lemma DiffTarget(prev: Running, next: Running)
    requires WellFormedPeers(next.cfg.peers)
    ensures DiffChange(prev, next).to == PlanOf(next) <==> !StaleExit(prev, next)
  {
    var c, o, n := DiffChange(prev, next), ByKey(prev.cfg.peers), ByKey(next.cfg.peers);
    var plan := PlanOf(next);
    var f, g := AddressFamilies(prev.cfg), AddressFamilies(next.cfg);
    hide NeedsWrite, WantedFor;
    forall k | k in n && !NeedsWrite(prev, next, k)
      ensures c.to[k] == plan[k] <==> !PeerHasAddress(n[k], next.exit) || f == g
    {
      KeptPeerTarget(prev, next, k);
    }
  }

  lemma KeptPeerTarget(prev: Running, next: Running, k: Key)
    requires WellFormedPeers(next.cfg.peers)
    requires k in ByKey(next.cfg.peers) && !NeedsWrite(prev, next, k)
    ensures DiffChange(prev, next).to[k] == PlanOf(next)[k]
        <==> !PeerHasAddress(ByKey(next.cfg.peers)[k], next.exit)
             || AddressFamilies(prev.cfg) == AddressFamilies(next.cfg)
  {
    var p := ByKey(next.cfg.peers)[k];
    var q := ByKey(prev.cfg.peers)[k];
    var f, g := AddressFamilies(prev.cfg), AddressFamilies(next.cfg);
    assert q == p;
    DefaultsTell(p, f);
    DefaultsTell(p, g);
    assert DiffChange(prev, next).to[k] == WantedFor(prev, q);
    assert PlanOf(next)[k] == WantedFor(next, p);
  }

  lemma KeptPeerPlan(prev: Running, next: Running, k: Key)
    requires k in ByKey(next.cfg.peers) && !NeedsWrite(prev, next, k)
    ensures k in PlanOf(prev) && DiffChange(prev, next).to[k] == PlanOf(prev)[k]
  {
  }

  lemma DefaultsTell(p: Peer, f: Families)
    requires ProperRoutes(p)
    ensures forall v6: bool :: DefaultRoute(v6) in AllowedSet(p, true, f) <==> f.Has(v6)
  {
    NoDeclaredDefault(p, false);
    NoDeclaredDefault(p, true);
  }

  // The full script

  function KeysInOrder(peers: seq<Peer>): seq<Key> {
    seq(|peers|, i requires 0 <= i < |peers| => peers[i].publicKey)
  }

  function FullPreamble(r: Running, bypassMark: bool): seq<Op> {
    (if r.secrets.privateKey.Some? then [PrivateKey(r.secrets.privateKey.value)] else [])
    + (if bypassMark then [Fwmark(LINUX_BYPASS_MARK)] else [])
    + [ListenPort(r.cfg.listenPort), ReplacePeers]
  }

  ghost predicate ListsPlan(lists: map<Key, seq<Prefix>>, w: Plan) {
    forall k :: k in w ==> k in lists && Lists(lists[k], w[k].ips)
  }

  ghost function FullScript(r: Running, bypassMark: bool, lists: map<Key, seq<Prefix>>): seq<Op>
    requires ListsPlan(lists, PlanOf(r))
  {
    FullPreamble(r, bypassMark) + Blocks(KeysInOrder(r.cfg.peers), PlanOf(r), lists)
  }

  /** The operations are a full script of the running configuration. */
  ghost predicate FullOf(script: seq<Op>, r: Running, bypassMark: bool) {
    exists lists :: ListsPlan(lists, PlanOf(r)) && script == FullScript(r, bypassMark, lists)
  }

  /** The operations are an incremental script from `prev` to `next`, in some order. */
  ghost predicate ForwardOf(forward: seq<Op>, prev: Running, next: Running) {
    exists o :: OrderOf(o, DiffChange(prev, next)) && forward == Script(DiffChange(prev, next), o)
  }

  /** The full configuration as a change that writes every peer. */
  function FullChange(r: Running): Change {
    Change(r.secrets.privateKey, Some(r.cfg.listenPort), {}, PlanOf(r).Keys, {}, PlanOf(r))
  }

  lemma FullPreambleRun(d: Device, r: Running, bypassMark: bool)
    requires r.secrets.privateKey.Some?
    ensures Run(FullPreamble(r, bypassMark), Session(d, None))
         == Session(Device(r.secrets.privateKey, if bypassMark then LINUX_BYPASS_MARK else d.fwmark,
                           r.cfg.listenPort, map[], map[]), None)
  {
    var key := [PrivateKey(r.secrets.privateKey.value)];
    var mark := if bypassMark then [Fwmark(LINUX_BYPASS_MARK)] else [];
    var rest := [ListenPort(r.cfg.listenPort), ReplacePeers];
    var s := Session(d, None);
    assert FullPreamble(r, bypassMark) == key + mark + rest;
    assert key[1..] == [];
    var t := Exec(key[0], s);
    assert Run(key, s) == t;
    RunAppend(key + mark, rest, s);
    RunAppend(key, mark, s);
    if bypassMark {
      assert mark[1..] == [];
      assert Run(mark, t) == Exec(mark[0], t);
    }
    RunTwo(rest[0], rest[1], Run(mark, t));
  }

  /** A full configuration request leaves exactly the wanted device, whatever was there. */
  lemma FullReaches(d: Device, r: Running, bypassMark: bool, lists: map<Key, seq<Prefix>>)
    requires WellFormedPeers(r.cfg.peers) && r.secrets.privateKey.Some? && ListsPlan(lists, PlanOf(r))
    ensures HoldsRunning(IpcSet(FullScript(r, bypassMark, lists), d), r)
    ensures IpcSet(FullScript(r, bypassMark, lists), d).fwmark
         == if bypassMark then LINUX_BYPASS_MARK else d.fwmark
  {
    assert DistinctKeys(r.cfg.peers);
    hide PlanOf, KeysInOrder, FullPreamble, WellFormedPeers, Run, Lists, Holds, Blocks;
    var s, head := Session(d, None), FullPreamble(r, bypassMark);
    KeysListPlan(r);
    FullPreambleRun(d, r, bypassMark);
    FullBlocks(Run(head, s), r, lists);
    RunAppend(head, Blocks(KeysInOrder(r.cfg.peers), PlanOf(r), lists), s);
  }

  lemma FullBlocks(s: Session, r: Running, lists: map<Key, seq<Prefix>>)
    requires WellFormedPeers(r.cfg.peers) && ListsPlan(lists, PlanOf(r))
    requires s.dev.peers == map[] && s.dev.allowed == map[]
    ensures var t := Run(Blocks(KeysInOrder(r.cfg.peers), PlanOf(r), lists), s).dev;
      && Holds(t, PlanOf(r))
      && t.privateKey == s.dev.privateKey && t.listenPort == s.dev.listenPort && t.fwmark == s.dev.fwmark
  {
    var c, keys := FullChange(r), KeysInOrder(r.cfg.peers);
    FullChangeValid(r);
    KeysListPlan(r);
    assert Pending(keys, lists, c, {});
    assert (set k | k in keys) == c.write;
    hide PlanOf, Progress, ValidChange, Pending, Blocks, Holds, Run;
    EmptyProgress(s.dev, c);
    AllWritten(keys, lists, s, c);
  }

  /** A device without peers has everything still to be written. */
  lemma EmptyProgress(d: Device, c: Change)
    requires d.peers == map[] && d.allowed == map[] && c.write == c.to.Keys
    ensures Progress(d, c, {})
  {
  }

  lemma AllWritten(keys: seq<Key>, lists: map<Key, seq<Prefix>>, s: Session, c: Change)
    requires ValidChange(c) && Progress(s.dev, c, {}) && Pending(keys, lists, c, {})
    requires c.write == c.to.Keys == (set k | k in keys) && c.removeLast == {}
    ensures var t := Run(Blocks(keys, c.to, lists), s).dev;
            && Holds(t, c.to)
            && t.privateKey == s.dev.privateKey && t.listenPort == s.dev.listenPort && t.fwmark == s.dev.fwmark
  {
    BlocksProgress(keys, lists, s, c, {});
  }

  lemma KeysListPlan(r: Running)
    requires DistinctKeys(r.cfg.peers)
    ensures Enumerates(KeysInOrder(r.cfg.peers), PlanOf(r).Keys)
  {
    var keys := KeysInOrder(r.cfg.peers);
    forall k | k in PlanOf(r)
      ensures k in keys
    {
      var i :| 0 <= i < |r.cfg.peers| && r.cfg.peers[i] == ByKey(r.cfg.peers)[k];
      assert keys[i] == k;
    }
    forall k | k in keys
      ensures k in PlanOf(r)
    {
      var i :| 0 <= i < |keys| && keys[i] == k;
      assert r.cfg.peers[i] in r.cfg.peers;
    }
  }

  lemma FullChangeValid(r: Running)
    requires WellFormedPeers(r.cfg.peers)
    ensures ValidChange(FullChange(r))
  {
    var c, n, f := FullChange(r), ByKey(r.cfg.peers), AddressFamilies(r.cfg);
    forall k, l | k in c.to && l in c.to && k != l
      ensures c.to[k].ips !! c.to[l].ips
    {
      AllowedDisjoint(r.cfg.peers, n[k], n[l], r.exit, f, f);
    }
  }

  // Main results

  /** On a device configured in full with `prev`, the incremental script gives exactly the device
      that the full script of `next` gives, in every order, if and only if it leaves no stale exit
      peer. */
  lemma DiffReachesFull(d: Device, prev: Running, next: Running, bypassMark: bool, o: Order,
                        prevLists: map<Key, seq<Prefix>>, nextLists: map<Key, seq<Prefix>>)
    requires WellFormedPeers(prev.cfg.peers) && WellFormedPeers(next.cfg.peers)
    requires prev.secrets.privateKey.Some? && next.secrets.privateKey.Some?
    requires ListsPlan(prevLists, PlanOf(prev)) && ListsPlan(nextLists, PlanOf(next))
    requires OrderOf(o, DiffChange(prev, next))
    ensures IpcSet(Script(DiffChange(prev, next), o), IpcSet(FullScript(prev, bypassMark, prevLists), d))
         == IpcSet(FullScript(next, bypassMark, nextLists), d)
        <==> !StaleExit(prev, next)
  {
    var c := DiffChange(prev, next);
    FullReaches(d, prev, bypassMark, prevLists);
    FullReaches(d, next, bypassMark, nextLists);
    var running := IpcSet(FullScript(prev, bypassMark, prevLists), d);
    DiffChangeValid(prev, next);
    DiffRecoverable(running, prev, next);
    ScriptReaches(running, c, o, next.secrets.privateKey, next.cfg.listenPort, running.fwmark);
    DiffTarget(prev, next);
    var e, f := IpcSet(Script(c, o), running), IpcSet(FullScript(next, bypassMark, nextLists), d);
    if !StaleExit(prev, next) {
      HoldsIsUnique(e, f, PlanOf(next));
    } else if e == f {
      PlanIsUnique(e, c.to, PlanOf(next));
    }
  }

  lemma PlanIsUnique(d: Device, v: Plan, w: Plan)
    requires Holds(d, v) && Holds(d, w)
    ensures v == w
  {
    forall k | k in v
      ensures v[k] == w[k]
    {
      assert OwnsExactly(d, k, v[k]) && OwnsExactly(d, k, w[k]);
      assert v[k].ips == w[k].ips;
    }
  }

  /** The incremental script takes a device that holds `prev` to one that holds `next`. */
  lemma DiffHolds(d: Device, prev: Running, next: Running, forward: seq<Op>)
    requires WellFormedPeers(next.cfg.peers)
    requires prev.secrets.privateKey.Some? && next.secrets.privateKey.Some?
    requires HoldsRunning(d, prev) && ForwardOf(forward, prev, next)
    ensures HoldsRunning(IpcSet(forward, d), next) <==> !StaleExit(prev, next)
  {
    hide StaleExit, DiffChange, PlanOf, Recoverable, Script;
    var c := DiffChange(prev, next);
    var o :| OrderOf(o, c) && forward == Script(c, o);
    DiffChangeValid(prev, next);
    DiffRecoverable(d, prev, next);
    ScriptReaches(d, c, o, next.secrets.privateKey, next.cfg.listenPort, d.fwmark);
    DiffTarget(prev, next);
    if StaleExit(prev, next) && Holds(IpcSet(forward, d), PlanOf(next)) {
      PlanIsUnique(IpcSet(forward, d), c.to, PlanOf(next));
    }
  }

  // What the device then holds, spelled out

  /** A device that holds the running configuration has, for every peer, the pre-shared key of its name or
      none, its endpoint and its keepalive in seconds, and gives it exactly its routes, its addresses and,
      if it is the selected exit, one default route per address family of the profile. */
  lemma HeldPeer(d: Device, r: Running, p: Peer)
    requires HoldsRunning(d, r) && DistinctKeys(r.cfg.peers) && p in r.cfg.peers
    ensures d.privateKey == r.secrets.privateKey && d.listenPort == r.cfg.listenPort
    ensures p.publicKey in d.peers
    ensures d.peers[p.publicKey] == PeerState(
      if p.name in r.secrets.preshared then r.secrets.preshared[p.name] else ZERO_KEY, p.endpoint, p.keepalive / 1_000_000_000)
    ensures forall x :: x in d.allowed && d.allowed[x] == p.publicKey <==>
      || x in p.routes
      || (exists a :: a in p.addresses && x == HostPrefix(a))
      || (r.exit.Some? && r.exit.value in p.addresses && x.bits == 0 && x.top == 0 && exists own :: own in r.cfg.addresses && own.v6 == x.v6)
  {
    ByKeyFinds(r.cfg.peers, p);
    assert OwnsExactly(d, p.publicKey, PlanOf(r)[p.publicKey]);
    hide ByKey;
    forall x
      ensures x in d.allowed && d.allowed[x] == p.publicKey <==>
        || x in p.routes
        || (exists a :: a in p.addresses && x == HostPrefix(a))
        || (r.exit.Some? && r.exit.value in p.addresses && x.bits == 0 && x.top == 0 && exists own :: own in r.cfg.addresses && own.v6 == x.v6)
    {
      DefaultsSpelled(r.cfg, x);
      assert x in d.allowed && d.allowed[x] == p.publicKey <==> x in WantedFor(r, p).ips;
    }
  }

  lemma DefaultsSpelled(cfg: Config, x: Prefix)
    ensures x in Defaults(AddressFamilies(cfg)) <==>
      x.bits == 0 && x.top == 0 && exists own :: own in cfg.addresses && own.v6 == x.v6
  {
  }

  /** Nothing else is on the device. */
  lemma HeldOnly(d: Device, r: Running)
    requires HoldsRunning(d, r)
    ensures forall k :: k in d.peers ==> exists p :: p in r.cfg.peers && p.publicKey == k
    ensures forall x :: x in d.allowed ==> d.allowed[x] in d.peers
  {
    forall k | k in d.peers
      ensures exists p :: p in r.cfg.peers && p.publicKey == k
    {
      assert ByKey(r.cfg.peers)[k] in r.cfg.peers;
    }
  }

  /** The full script writes every peer so, and the globals of the profile. The mark is left alone unless
      the profile's own traffic is to bypass the tunnel. */
  lemma FullWritesPeer(d: Device, r: Running, bypassMark: bool, lists: map<Key, seq<Prefix>>, p: Peer)
    requires WellFormedPeers(r.cfg.peers) && r.secrets.privateKey.Some? && ListsPlan(lists, PlanOf(r)) && p in r.cfg.peers
    ensures var e := IpcSet(FullScript(r, bypassMark, lists), d);
      && e.privateKey == r.secrets.privateKey && e.listenPort == r.cfg.listenPort
      && e.fwmark == (if bypassMark then 0x80000 else d.fwmark)
      && p.publicKey in e.peers
      && e.peers[p.publicKey] == PeerState(
           if p.name in r.secrets.preshared then r.secrets.preshared[p.name] else ZERO_KEY, p.endpoint, p.keepalive / 1_000_000_000)
  {
    FullReaches(d, r, bypassMark, lists);
    var e := IpcSet(FullScript(r, bypassMark, lists), d);
    hide FullScript, HoldsRunning, ListsPlan, Run;
    HeldPeer(e, r, p);
  }

  /** So does the incremental one, on a device that holds the old state. */
  lemma DiffWritesPeer(d: Device, prev: Running, next: Running, forward: seq<Op>, p: Peer)
    requires WellFormedPeers(next.cfg.peers) && prev.secrets.privateKey.Some? && next.secrets.privateKey.Some?
    requires HoldsRunning(d, prev) && ForwardOf(forward, prev, next) && !StaleExit(prev, next) && p in next.cfg.peers
    ensures var e := IpcSet(forward, d);
      && p.publicKey in e.peers
      && e.peers[p.publicKey] == PeerState(
           if p.name in next.secrets.preshared then next.secrets.preshared[p.name] else ZERO_KEY, p.endpoint, p.keepalive / 1_000_000_000)
  {
    DiffHolds(d, prev, next, forward);
    hide HoldsRunning, ForwardOf, StaleExit, Run;
    HeldPeer(IpcSet(forward, d), next, p);
  }

  /** A change of nothing but one peer's pre-shared key is written: the script is not empty, and the
      device has the new key. */
  lemma RotatedKeyIsWritten(d: Device, prev: Running, forward: seq<Op>, p: Peer, key: Key)
    requires WellFormedPeers(prev.cfg.peers) && prev.secrets.privateKey.Some? && HoldsRunning(d, prev) && p in prev.cfg.peers
    requires p.name in prev.secrets.preshared && prev.secrets.preshared[p.name] != key
    requires ForwardOf(forward, prev, prev.(secrets := prev.secrets.(preshared := prev.secrets.preshared[p.name := key])))
    ensures forward != []
    ensures var e := IpcSet(forward, d); p.publicKey in e.peers && e.peers[p.publicKey].psk == key
  {
    var next := prev.(secrets := prev.secrets.(preshared := prev.secrets.preshared[p.name := key]));
    assert !StaleExit(prev, next);
    HeldPeer(d, prev, p);
    DiffWritesPeer(d, prev, next, forward, p);
    assert IpcSet([], d) == d;
  }

  /** A diff that stops after any of its operations and is then run again, in any order, leaves the
      device that an undisturbed diff leaves. */
  lemma DiffCanBeRetried(d: Device, prev: Running, next: Running, o: Order, i: nat, retry: Order)
    requires WellFormedPeers(next.cfg.peers)
    requires prev.secrets.privateKey.Some? && next.secrets.privateKey.Some?
    requires HoldsRunning(d, prev)
    requires OrderOf(o, DiffChange(prev, next)) && OrderOf(retry, DiffChange(prev, next))
    requires i <= |Script(DiffChange(prev, next), o)|
    ensures var c := DiffChange(prev, next);
            IpcSet(Script(c, retry), IpcSet(Script(c, o)[..i], d)) == IpcSet(Script(c, o), d)
  {
    var c := DiffChange(prev, next);
    DiffChangeValid(prev, next);
    DiffRecoverable(d, prev, next);
    ScriptReaches(d, c, o, next.secrets.privateKey, next.cfg.listenPort, d.fwmark);
    RestartReaches(d, c, o, i, retry, next.secrets.privateKey, next.cfg.listenPort, d.fwmark);
    HoldsIsUnique(IpcSet(Script(c, retry), IpcSet(Script(c, o)[..i], d)), IpcSet(Script(c, o), d), c.to);
  }

  /** A prefix that moves from a peer the new configuration drops to one it has is owned by some
      peer after every operation of the diff. */
  lemma MovingPrefixNeverUnowned(d: Device, prev: Running, next: Running, o: Order, x: Prefix, k: Key, to: Key, i: nat)
    requires WellFormedPeers(prev.cfg.peers) && WellFormedPeers(next.cfg.peers) && !StaleExit(prev, next)
    requires prev.secrets.privateKey.Some? && next.secrets.privateKey.Some?
    requires HoldsRunning(d, prev)
    requires OrderOf(o, DiffChange(prev, next)) && i <= |Script(DiffChange(prev, next), o)|
    requires k in PlanOf(prev) && x in PlanOf(prev)[k].ips && k !in PlanOf(next)
    requires to in PlanOf(next) && x in PlanOf(next)[to].ips
    ensures x in IpcSet(Script(DiffChange(prev, next), o)[..i], d).allowed
  {
    var c := DiffChange(prev, next);
    DiffChangeValid(prev, next);
    DiffRecoverable(d, prev, next);
    DiffTarget(prev, next);
    FullChangeValid(prev);
    assert OwnsExactly(d, k, PlanOf(prev)[k]);
    assert to in PlanOf(prev) ==> PlanOf(prev)[to].ips !! PlanOf(prev)[k].ips;
    if to !in c.write {
      KeptPeerPlan(prev, next, to);
      assert false;
    }
    NeverUnowned(d, c, o, x, k, to, i);
  }
}
