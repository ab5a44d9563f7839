/** The reconciliation results for the configurations that validation accepts. */
module AcceptedConfigs {
  import opened Net
  import opened Text
  import opened WireGuardConfig
  import opened WireGuardDevice
  import opened WireGuardScript
  import opened WireGuardDiff
  import opened PacketFilter
  import opened PacketFilterMeaning
  import opened WireGuardValidate
  import opened FilterCompile
  import opened WireGuardEngine
  import opened WireGuardPolicies
  import opened Permissions
  import opened Ownership
  import WireGuardEngineRuns

  /** Endpoint resolution replaces the endpoints of the peers and nothing else. */
  predicate ResolvedFrom(c: Config, r: Config) {
    && r == c.(peers := r.peers) && |r.peers| == |c.peers|
    && forall i :: 0 <= i < |c.peers| ==> r.peers[i] == c.peers[i].(endpoint := r.peers[i].endpoint)
  }

  lemma ResolvedIsWellFormed(c: Config, r: Config)
    requires WellFormedPeers(c.peers) && ResolvedFrom(c, r)
    ensures WellFormedPeers(r.peers) && AddressFamilies(r) == AddressFamilies(c)
  {
    forall i | 0 <= i < |r.peers|
      ensures DeclaredPrefixes(r.peers[i]) == DeclaredPrefixes(c.peers[i])
    {
    }
    forall p | p in r.peers
      ensures p.name != "" && ProperRoutes(p)
    {
      var i :| 0 <= i < |r.peers| && r.peers[i] == p;
      assert c.peers[i] in c.peers;
    }
  }

  lemma ValidNamesAreClean(c: Config)
    requires ValidPeers(c)
    ensures CleanNames(c.peers)
  {
    forall p | p in c.peers
      ensures Clean(p.name)
    {
      var i :| 0 <= i < |c.peers| && c.peers[i] == p;
      assert PeerFits(c, c.peers[..i], p);
    }
  }

  /** For every two accepted configurations with the same address families, or with no exit selected in
      the new one, the incremental script reaches exactly the device of the full script, in every order. */
  lemma AcceptedDiffReachesFull(d: Device, from: Config, to: Config, render: Render, prev: Running, next: Running,
                                bypassMark: bool, o: Order, prevLists: map<Key, seq<Prefix>>, nextLists: map<Key, seq<Prefix>>)
    requires ValidConfig(from, render) && ValidConfig(to, render)
    requires ResolvedFrom(from, prev.cfg) && ResolvedFrom(to, next.cfg)
    requires AddressFamilies(from) == AddressFamilies(to) || next.exit == None
    requires prev.secrets.privateKey.Some? && next.secrets.privateKey.Some?
    requires ListsPlan(prevLists, PlanOf(prev)) && ListsPlan(nextLists, PlanOf(next))
    requires OrderOf(o, DiffChange(prev, next))
    ensures IpcSet(Script(DiffChange(prev, next), o), IpcSet(FullScript(prev, bypassMark, prevLists), d))
         == IpcSet(FullScript(next, bypassMark, nextLists), d)
  {
    AcceptedIsWellFormed(from, render, prev.cfg);
    AcceptedIsWellFormed(to, render, next.cfg);
    assert !StaleExit(prev, next);
    hide *;
    DiffReachesFull(d, prev, next, bypassMark, o, prevLists, nextLists);
  }

  lemma AcceptedIsWellFormed(c: Config, render: Render, r: Config)
    requires ValidConfig(c, render) && ResolvedFrom(c, r)
    ensures WellFormedPeers(r.peers) && AddressFamilies(r) == AddressFamilies(c)
  {
    ValidIsWellFormed(c);
    ResolvedIsWellFormed(c, r);
  }

  lemma RearrangedIsClean(written: seq<Peer>, sorted: seq<Peer>)
    requires CleanNames(sorted) && Rearranged(written, sorted)
    ensures CleanNames(written)
  {
    hide Rearranged;
    forall p | p in written
      ensures Clean(p.name)
    {
      var q := AlikePeer(written, sorted, p);
    }
  }

  lemma AlikePeer(written: seq<Peer>, sorted: seq<Peer>, p: Peer) returns (q: Peer)
    requires Rearranged(written, sorted) && p in written
    ensures q in sorted && q.name == p.name
  {
    hide Alike;
    q :| q in sorted && Alike(p, q);
    AlikeName(p, q);
  }

  lemma AlikeName(p: Peer, q: Peer)
    requires Alike(p, q)
    ensures q.name == p.name
  {
  }

  /** For every accepted configuration whose filter was normalized from `raw`, over its peers as they
      were written, compilation succeeds and admits exactly the flows the grants of `raw` permit. */
  method CompileAccepted(c: Config, exit: Option<Addr>, ghost raw: seq<Grant>, ghost written: seq<Peer>, ghost render: Render)
    returns (matches: seq<Match>)
    requires FaithfulRender(render) && ValidConfig(c, render) && Rearranged(written, c.peers)
    requires NormalizePacketFilter(raw, written, render) == Some(c.grants)
    ensures forall f :: Admits(matches, f) <==> exists g :: g in raw && GrantPermits(c, exit, g, f)
  {
    ValidIsWellFormed(c);
    ValidNamesAreClean(c);
    RearrangedIsClean(written, c.peers);
    NormalizedIsReadable(c.grants, c.peers, render);
    hide FaithfulRender, CleanNames, Rearranged, NormalizePacketFilter, GrantPermits, Admits, Readable, WellFormedPeers;
    var r := Compile(c, exit, false);
    matches := r.value;
    forall f
      ensures Admits(matches, f) <==> exists g :: g in raw && GrantPermits(c, exit, g, f)
    {
      CompiledMeansWritten(c, exit, raw, written, render, f);
    }
  }

  // The hypothesis is needed

  lemma {:induction false} SmallValueFits(value: nat, width: nat)
    requires value <= width
    ensures ShiftRight(value, width) == 0
    decreases width
  {
    if value == 0 {
      ShiftRightZero(width);
    } else {
      SmallValueFits(value / 2, width - 1);
    }
  }

  function ExitPeer(a: Addr): Peer {
    Peer("exit", Key(7), false, "", 0, [a], [], true)
  }

  function Profile(own: seq<Addr>, peer: Addr): Config {
    Config(VERSION, "home", "example", own, 0, [], [ExitPeer(peer)])
  }

  lemma ProfileIsValid(own: seq<Addr>, peer: Addr, render: Render)
    requires ValidAddresses(own) && ValidAddress(peer) && peer !in own && exists a :: a in own && a.v6 == peer.v6
    ensures ValidConfig(Profile(own, peer), render)
  {
    var c := Profile(own, peer);
    LabelsFit();
    OnlyPeerFits(c, peer);
    EmptyFilter(c.peers, render);
    hide DnsLabel, DnsSuffix, ValidAddress, PeerFits, NormalizePacketFilter;
    assert c.peers[..0] == [];
  }

  lemma LabelsFit()
    ensures DnsLabel("example") && DnsLabel("home") && DnsLabel("exit") && DnsSuffix("example")
  {
    NamesFit();
    hide DnsLabel;
    CutNone("example", '.');
    hide Cut;
    assert |"example"| == 7;
  }

  lemma NamesFit()
    ensures DnsLabel("example") && DnsLabel("home") && DnsLabel("exit") && DnsLabel("p") && DnsLabel("solo")
  {
  }

  lemma OnlyPeerFits(c: Config, a: Addr)
    requires ValidAddress(a) && a !in c.addresses && exists own :: own in c.addresses && own.v6 == a.v6
    ensures PeerFits(c, [], ExitPeer(a))
  {
    LabelsFit();
    hide DnsLabel, ValidAddress;
    assert AddressFits(c, [], a);
  }

  lemma EmptyFilter(peers: seq<Peer>, render: Render)
    ensures NormalizePacketFilter([], peers, render) == Some([])
  {
    assert NormalizeGrants([], peers, render) == Some([]);
  }

  lemma SmallAddressIsValid(a: Addr)
    requires 0 < a.value <= 28
    ensures ValidAddress(a)
  {
    SmallValueFits(a.value, 28);
    SmallValueFits(a.value, 32);
    SmallValueFits(a.value, 120);
  }

  /** A profile at 0.0.0.1 whose exit peer 0.0.0.2 stays selected is given the IPv6 address ::1 as well.
      Both configurations are accepted, and whatever the orders, the incremental script leaves a device
      that is not the one the full script leaves. */
  lemma FamilyChangeLeavesStaleExit(render: Render) returns (prev: Running, next: Running)
    ensures ValidConfig(prev.cfg, render) && ValidConfig(next.cfg, render)
    ensures prev.exit.Some? && prev.exit == next.exit == ValidExitSelection(prev.cfg, prev.exit) == ValidExitSelection(next.cfg, next.exit)
    ensures prev.secrets == next.secrets && prev.secrets.privateKey.Some?
    ensures forall d, bypassMark, o, prevLists, nextLists ::
      ListsPlan(prevLists, PlanOf(prev)) && ListsPlan(nextLists, PlanOf(next)) && OrderOf(o, DiffChange(prev, next)) ==>
        IpcSet(Script(DiffChange(prev, next), o), IpcSet(FullScript(prev, bypassMark, prevLists), d))
          != IpcSet(FullScript(next, bypassMark, nextLists), d)
  {
    SmallValueFits(1, 32);
    SmallValueFits(2, 32);
    SmallValueFits(1, 128);
    var four: Addr, six: Addr, peer: Addr := Address(false, 1), Address(true, 1), Address(false, 2);
    SmallAddressIsValid(four);
    SmallAddressIsValid(six);
    SmallAddressIsValid(peer);
    assert four in [four] && four in [four, six];
    ProfileIsValid([four], peer, render);
    ProfileIsValid([four, six], peer, render);
    var secrets := Secrets(Some(Key(9)), map[]);
    prev, next := Running(Profile([four], peer), secrets, Some(peer)), Running(Profile([four, six], peer), secrets, Some(peer));
    ValidIsWellFormed(prev.cfg);
    ValidIsWellFormed(next.cfg);
    StaysStale(prev, next, four, six, peer);
    forall d, bypassMark, o, prevLists, nextLists |
      ListsPlan(prevLists, PlanOf(prev)) && ListsPlan(nextLists, PlanOf(next)) && OrderOf(o, DiffChange(prev, next))
      ensures IpcSet(Script(DiffChange(prev, next), o), IpcSet(FullScript(prev, bypassMark, prevLists), d))
        != IpcSet(FullScript(next, bypassMark, nextLists), d)
    {
      hide *;
      DiffReachesFull(d, prev, next, bypassMark, o, prevLists, nextLists);
    }
  }

  lemma StaysStale(prev: Running, next: Running, four: Addr, six: Addr, peer: Addr)
    requires !four.v6 && six.v6 && prev.secrets == next.secrets && prev.exit == next.exit == Some(peer)
    requires prev.cfg == Profile([four], peer) && next.cfg == Profile([four, six], peer)
    ensures StaleExit(prev, next)
    ensures ValidExitSelection(prev.cfg, prev.exit) == ValidExitSelection(next.cfg, next.exit) == Some(peer)
  {
    var p := ExitPeer(peer);
    ByKeyFinds([p], p);
    assert p in prev.cfg.peers && p in next.cfg.peers && PeerHasAddress(p, Some(peer));
    assert six in next.cfg.addresses;
    assert AddressFamilies(next.cfg).v6 && !AddressFamilies(prev.cfg).v6;
    assert !NeedsWrite(prev, next, Key(7));
  }

  // A restricted start that is committed after an exit was selected

  /** Anyone may reach the profile. */
  function Everyone(): Grant {
    Grant([Word("*")], [Word("self")], ["*"])
  }

  lemma EveryoneIsNormal(peers: seq<Peer>, render: Render)
    ensures NormalizePacketFilter([Everyone()], peers, render) == Some([Everyone()])
  {
    var g := Everyone();
    assert NormalizeSelector(Word("*"), true, peers) == Some(Word("*"));
    assert NormalizeSelector(Word("self"), false, peers) == Some(Word("self"));
    StarPermission();
    hide NormalizeSelector, NormalizePermission;
    assert NormalizeText(Word("*"), true, peers) == Some(Word("*"));
    assert NormalizeText(Word("self"), false, peers) == Some(Word("self"));
    TextsFixed(g.src, true, peers);
    TextsFixed(g.dst, false, peers);
    PermissionsFixed(g.ip);
    SortCompactFixed(g.src, render);
    SortCompactFixed(g.dst, render);
    SortCompactFixed(g.ip, Identity);
    SortCompactFixed([g], GrantKey(render));
    hide NormalizeTexts, ExpandPermissions, NormalizeText, SortCompact, GrantKey;
    assert NormalizeGrant(g, peers, render) == Some(g);
    GrantsFixed([g], peers, render);
  }

  /** A profile at 0.0.0.1 lets everyone in and starts restricted. Its exit peer 0.0.0.2 is selected and
      then the start is committed: TCP from 0.0.0.3, which the configuration grants, is not admitted. */
  lemma StartPolicyRefusesGranted(render: Render, secrets: Secrets, device: Device, written: Device)
    returns (s: EngineState, ip: Option<Addr>, f: Flow)
    ensures ValidConfig(s.config, render) && s.startRestricted && !s.shieldsUp
    ensures var run := Running(s.config, secrets, None);
      && ExitChanges(AfterStart(s, run, device), ip)
      && var e := AfterStartPolicy(AfterSetExit(AfterStart(s, run, device), ip, false, false, written));
         e.installed.Some? && Granted(e.config, e.run.exit, f) && !PolicyAdmits(e.installed.value, f)
  {
    SmallValueFits(1, 32);
    SmallValueFits(2, 32);
    SmallValueFits(3, 32);
    var own: Addr, peer: Addr, far: Addr := Address(false, 1), Address(false, 2), Address(false, 3);
    hide *;
    var cfg := Open(own, peer);
    OpenIsValid(own, peer, render);
    f := Flow(far, own, 6, 22);
    ip := Some(peer);
    s := Restricted(cfg, secrets, device);
    ExitOnlyGrant(cfg, own, peer, f);
    KeptBackPolicy(s, secrets, device, ip, written, f);
  }

  function Restricted(cfg: Config, secrets: Secrets, device: Device): (s: EngineState)
    ensures s.config == cfg && s.startRestricted && !s.shieldsUp
  {
    NewEngine(cfg, secrets, false, true, device)
  }

  lemma KeptBackPolicy(s: EngineState, secrets: Secrets, device: Device, ip: Option<Addr>, written: Device, f: Flow)
    requires s.startRestricted && !s.shieldsUp && ip.Some? && ValidExitSelection(s.config, ip) == ip
    requires !Granted(s.config, None, f)
    ensures var run := Running(s.config, secrets, None);
      && ExitChanges(AfterStart(s, run, device), ip)
      && var e := AfterStartPolicy(AfterSetExit(AfterStart(s, run, device), ip, false, false, written));
         e.installed.Some? && e.config == s.config && e.run.exit == ip && !PolicyAdmits(e.installed.value, f)
  {
    hide Granted, ValidExitSelection;
  }

  function Open(own: Addr, peer: Addr): Config {
    Profile([own], peer).(grants := [Everyone()])
  }

  lemma OpenIsValid(own: Addr, peer: Addr, render: Render)
    requires own.v6 == peer.v6 && own != peer && 0 < own.value <= 28 && 0 < peer.value <= 28
    ensures ValidConfig(Open(own, peer), render)
  {
    SmallAddressIsValid(own);
    SmallAddressIsValid(peer);
    assert own in [own];
    hide ValidAddress;
    ProfileIsValid([own], peer, render);
    EveryoneIsNormal(Profile([own], peer).peers, render);
    WithGrants(Profile([own], peer), [Everyone()], render);
  }

  lemma WithGrants(c: Config, grants: seq<Grant>, render: Render)
    requires ValidConfig(c, render) && NormalizePacketFilter(grants, c.peers, render) == Some(grants)
    ensures ValidConfig(c.(grants := grants), render)
  {
    hide DnsLabel, DnsSuffix, ValidAddress, NormalizePacketFilter;
    var d := c.(grants := grants);
    forall i | 0 <= i < |d.peers|
      ensures PeerFits(d, d.peers[..i], d.peers[i])
    {
      assert PeerFits(c, c.peers[..i], c.peers[i]);
    }
  }

  lemma ExitOnlyGrant(cfg: Config, own: Addr, peer: Addr, f: Flow)
    requires cfg == Open(own, peer) && !own.v6 && !f.src.v6 && f.src != peer
    requires f.dst == own && f.proto == 6 && f.port == 22
    ensures Granted(cfg, Some(peer), f) && !Granted(cfg, None, f)
    ensures ValidExitSelection(cfg, Some(peer)) == Some(peer)
  {
    var p, g := ExitPeer(peer), Everyone();
    assert p in cfg.peers && own in cfg.addresses && PeerHasAddress(p, Some(peer));
    assert Selected(cfg.peers, Some(peer)) == "exit";
    assert OpenTo(cfg, g, f) by {
      assert Word("*") in g.src && Word("self") in g.dst && "*" in g.ip;
      StarPermission();
      assert PermissionTextAdmits("*", f.proto, f.port) by {
        assert AnyProtocol in ReadPermission("*").value;
      }
    }
    ExitAdds(cfg, Some(peer), f);
    assert !InDeclaredSpace(cfg, None, f.src) by {
      NoneSelected(cfg.peers);
      HostPrefixContains(peer, f.src);
    }
  }

  /** The configurations of WireGuardEngineRuns.RevertAfterFailureKeepsPeer are accepted ones. */
  lemma RevertConfigsAccepted(own: Addr, render: Render)
    requires ValidAddress(own)
    ensures ValidConfig(WireGuardEngineRuns.Bare(own, []).cfg, render)
    ensures ValidConfig(WireGuardEngineRuns.Bare(own, [WireGuardEngineRuns.Solo()]).cfg, render)
  {
    var none, one := WireGuardEngineRuns.Bare(own, []).cfg, WireGuardEngineRuns.Bare(own, [WireGuardEngineRuns.Solo()]).cfg;
    LabelsFit();
    NamesFit();
    EmptyFilter(none.peers, render);
    EmptyFilter(one.peers, render);
    hide DnsLabel, DnsSuffix, ValidAddress, NormalizePacketFilter;
    assert one.peers[..0] == [];
    assert PeerFits(one, [], WireGuardEngineRuns.Solo());
  }
}
