/** What the installed packet filter admits after each engine call that installs one. */
module WireGuardPolicies {
  import opened Net
  import opened WireGuardConfig
  import opened WireGuardDevice
  import opened WireGuardDiff
  import opened Permissions
  import opened Ownership
  import opened FilterCompile
  import opened WireGuardEngine

  /** The installed filter admits exactly what the engine's configuration grants under the exit, and
      nothing while shields are up. */
  ghost predicate AdmitsExactly(e: EngineState, exit: Option<Addr>) {
    e.installed.Some? && forall f :: PolicyAdmits(e.installed.value, f) <==> !e.shieldsUp && Granted(e.config, exit, f)
  }

  ghost predicate AdmitsNothing(e: EngineState) {
    e.installed.Some? && forall f :: !PolicyAdmits(e.installed.value, f)
  }

  /** A start admits nothing until it is committed, when it is restricted, and then exactly what the
      configuration grants without an exit. */
  lemma StartAdmits(s: EngineState, run: Running, device: Device)
    ensures var e := AfterStart(s, run, device);
      && (if s.startRestricted then AdmitsNothing(e) else AdmitsExactly(e, None))
      && (s.startRestricted ==> AdmitsExactly(AfterStartPolicy(e), None) && !AfterStartPolicy(e).degraded)
      && (e.degraded <==> s.startRestricted || s.degraded)
      && AfterStartPolicy(AfterStartPolicy(e)) == AfterStartPolicy(e)
  {
    hide Granted;
  }

  /** Replacing the flag installs a filter that admits what the configuration grants under the running
      exit when shields go down, and nothing when they go up. What was staged before a save that fails
      leaves the filter as it was. */
  lemma ShieldsAdmit(e: EngineState, enabled: bool)
    requires Ready(e) && e.shieldsUp != enabled
    ensures var u := StageShields(e, enabled);
      var mid := BeforeSave(e, u);
      var v := u.(applied := InstallsBeforeSave(e, u));
      var done := AfterShields(mid, v);
      && ShieldsCommits(mid, v)
      && done.shieldsUp == enabled && done.config == e.config && done.run == e.run && AdmitsExactly(done, e.run.exit)
      && AfterRollback(mid, v).policy == e.policy
      && (e.installed == e.policy ==> AfterRollback(mid, v).installed == e.installed)
  {
    hide Granted;
  }

  /** A selection admits nothing while the device is written. When it succeeds the filter admits exactly
      what the configuration grants under the new exit; when the old selection is written back the
      filter is the old one; when that fails too nothing is admitted. */
  lemma ExitAdmits(s: EngineState, ip: Option<Addr>, restoreFails: bool, device: Device)
    requires ExitChanges(s, ip)
    ensures AdmitsNothing(ExitTransition(s, ip))
    ensures var done := AfterSetExit(s, ip, false, restoreFails, device);
      done.run.exit == ip && done.config == s.config && done.shieldsUp == s.shieldsUp && AdmitsExactly(done, ip)
    ensures var undone := AfterSetExit(s, ip, true, restoreFails, device);
      && undone.run == s.run && undone.config == s.config
      && (if restoreFails then AdmitsNothing(undone) else undone.installed == undone.policy == s.policy)
  {
    hide Granted;
  }

  /** A committed apply that went through a transition admits exactly what its configuration grants. It is
      no longer degraded, and a start policy kept back is not published any more. */
  lemma CommitAdmits(e: EngineState, a: Staged)
    requires Commits(e, a) && a.filterTransition
    requires a.final.cfg == e.config && a.final.exit == e.run.exit && a.final.restrictive == e.shieldsUp
    ensures AdmitsExactly(AfterCommit(e, a), e.run.exit)
    ensures !AfterCommit(e, a).degraded && AfterStartPolicy(AfterCommit(e, a)) == AfterCommit(e, a)
  {
    hide Granted;
  }

  /** A closed engine has no filter left, and nothing installs one: no start policy, apply, commit,
      shields-up update or exit selection. */
  lemma ClosedForGood(s: EngineState, a: Staged, u: ShieldsUpdate, stop: Option<nat>, ip: Option<Addr>, fails: bool, device: Device)
    requires !s.closed
    ensures var e := AfterClose(s);
      && e.installed.None? && e.policy.None? && !e.started
      && AfterStartPolicy(e) == e && AfterApply(e, a, stop) == e && (a.filterTransition ==> AfterCommit(e, a) == e)
      && BeforeSave(e, u) == e && AfterRollback(e, u) == e && AfterShields(e, u) == e
      && AfterSetExit(e, ip, fails, fails, device) == e && AfterClose(e) == e
  {
  }

  // What is staged, and what a failure leaves

  /** The pre-shared key of a name, if it has one. */
  function SharedKey(secrets: Secrets, name: string): Key {
    if name in secrets.preshared then secrets.preshared[name] else ZERO_KEY
  }

  /** The two peers are the same to the filter, and have the same pre-shared key. */
  predicate SameIdentity(a: Peer, as_: Secrets, b: Peer, bs: Secrets) {
    && a.name == b.name && a.publicKey == b.publicKey && a.exitNode == b.exitNode
    && a.addresses == b.addresses && a.routes == b.routes && SharedKey(as_, a.name) == SharedKey(bs, b.name)
  }

  /** The selected exit is kept exactly when an exit peer of the new configuration has it. An apply goes
      without a transition exactly when the device needs nothing, no earlier apply has failed, and nothing
      that the filter looks at changes. */
  lemma StagedExactly(s: EngineState, cfg: Config, runtime: Config, secrets: Secrets, forward: seq<Op>)
    requires Ready(s)
    ensures var a := Stage(s, cfg, runtime, secrets, forward);
      && (if s.run.exit.Some? && exists p :: p in cfg.peers && p.exitNode && s.run.exit.value in p.addresses
          then a.next.exit == s.run.exit else a.next.exit == None)
      && (!a.filterTransition <==>
            && forward == [] && !s.degraded && s.config.grants == cfg.grants && s.config.addresses == cfg.addresses
            && s.run.exit == a.next.exit && s.run.secrets.privateKey == secrets.privateKey && |s.config.peers| == |cfg.peers|
            && forall i :: 0 <= i < |cfg.peers| ==> SameIdentity(s.config.peers[i], s.run.secrets, cfg.peers[i], secrets))
  {
  }

  /** A script that fails after `stop` operations has had those carried out and no others; the engine goes
      on with its old configuration under a filter that admits nothing. */
  lemma FailedApplyLeaves(s: EngineState, a: Staged, stop: nat)
    requires CanApply(s, a) && stop < |a.forward| && a.filterTransition && a.transition.restrictive
    ensures var e := AfterApply(s, a, Some(stop));
      e.device == IpcSet(a.forward[..stop], s.device) && e.config == s.config && e.run == s.run && e.degraded && AdmitsNothing(e)
  {
    hide IpcSet;
  }

  /** An address can be selected exactly when an exit peer has it. */
  lemma SelectableExactly(cfg: Config, ip: Option<Addr>)
    ensures ExitEligible(cfg, ip) <==> ip.None? || exists p :: p in cfg.peers && p.exitNode && ip.value in p.addresses
  {
  }

  // What a selected exit adds to the grants

  lemma {:induction false} NoneSelected(peers: seq<Peer>)
    ensures Selected(peers, None) == ""
  {
    if peers != [] {
      NoneSelected(peers[..|peers| - 1]);
    }
  }

  /** The exit's default routes add the families of the profile to the declared space. */
  lemma DeclaredUnderExit(cfg: Config, exit: Option<Addr>, a: Addr)
    ensures InDeclaredSpace(cfg, exit, a) <==>
      InDeclaredSpace(cfg, None, a) || (Selected(cfg.peers, exit) != "" && AddressFamilies(cfg).Has(a.v6))
  {
    NoneSelected(cfg.peers);
    DefaultRouteContains(a.v6, a);
    if d: Item :| Declares(cfg, exit, d) && Contains(d.value, a) {
      assert d.kind != Default ==> Declares(cfg, None, d);
    }
    if d: Item :| Declares(cfg, None, d) && Contains(d.value, a) {
      assert Declares(cfg, exit, d);
    }
    if Selected(cfg.peers, exit) != "" && AddressFamilies(cfg).Has(a.v6) {
      assert Declares(cfg, exit, Item(Selected(cfg.peers, exit), Default, DefaultRoute(a.v6)));
    }
  }

  /** No route is longer or shorter for it. */
  lemma RoutedUnderExit(cfg: Config, exit: Option<Addr>, a: Addr, n: string)
    ensures RoutedOwner(cfg, exit, a, n) <==> RoutedOwner(cfg, None, a, n)
  {
    NoneSelected(cfg.peers);
    if d: Item :| d.peer == n && d.kind == Routed && Longest(cfg, exit, a, d) {
      assert Longest(cfg, None, a, d) by {
        forall e | Declares(cfg, None, e) && Contains(e.value, a)
          ensures e.value.bits <= d.value.bits
        {
          assert Declares(cfg, exit, e);
        }
      }
    }
    if d: Item :| d.peer == n && d.kind == Routed && Longest(cfg, None, a, d) {
      assert Longest(cfg, exit, a, d) by {
        forall e | Declares(cfg, exit, e) && Contains(e.value, a)
          ensures e.value.bits <= d.value.bits
        {
          assert e.kind != Default ==> Declares(cfg, None, e);
        }
      }
    }
  }

  /** A text that names addresses whoever has them. */
  predicate OpenText(t: SelectorText, a: Addr) {
    match t
    case Word(w) => w == "*"
    case AddrText(x, _) => a == x
    case PrefixText(x, bits, _) => InsideText(x, bits, a)
  }

  /** The grant permits the flow if its source belongs to anyone. */
  ghost predicate OpenTo(cfg: Config, g: Grant, f: Flow) {
    && (exists t :: t in g.src && OpenText(t, f.src))
    && (exists t :: t in g.dst && DestinationTextAdmits(cfg, t, f.dst))
    && (exists t :: t in g.ip && PermissionTextAdmits(t, f.proto, f.port))
  }

  lemma SourceUnderExit(cfg: Config, exit: Option<Addr>, t: SelectorText, a: Addr)
    ensures SourceTextAdmits(cfg, exit, t, a) <==>
      SourceTextAdmits(cfg, None, t, a) || (OpenText(t, a) && Selected(cfg.peers, exit) != "" && AddressFamilies(cfg).Has(a.v6))
  {
    DeclaredUnderExit(cfg, exit, a);
    forall n
      ensures RoutedOwner(cfg, exit, a, n) <==> RoutedOwner(cfg, None, a, n)
    {
      RoutedUnderExit(cfg, exit, a, n);
    }
    hide InDeclaredSpace, RoutedOwner, Selected, InsideText;
  }

  /** Under an exit a flow is granted exactly when it is without one, or when the exit is a peer's, the
      profile has an address of the source's family and a grant names the source whoever has it. */
  lemma ExitAdds(cfg: Config, exit: Option<Addr>, f: Flow)
    ensures Granted(cfg, exit, f) <==>
      || Granted(cfg, None, f)
      || (Selected(cfg.peers, exit) != "" && AddressFamilies(cfg).Has(f.src.v6) && exists g :: g in cfg.grants && OpenTo(cfg, g, f))
  {
    forall t
      ensures SourceTextAdmits(cfg, exit, t, f.src) <==>
        SourceTextAdmits(cfg, None, t, f.src)
        || (OpenText(t, f.src) && Selected(cfg.peers, exit) != "" && AddressFamilies(cfg).Has(f.src.v6))
    {
      SourceUnderExit(cfg, exit, t, f.src);
    }
    hide SourceTextAdmits, DestinationTextAdmits, PermissionTextAdmits, OpenText, Selected, AddressFamilies;
    forall g
      ensures GrantPermits(cfg, exit, g, f) <==>
        GrantPermits(cfg, None, g, f) || (Selected(cfg.peers, exit) != "" && AddressFamilies(cfg).Has(f.src.v6) && OpenTo(cfg, g, f))
    {
    }
  }

  // A start that is committed after an exit was selected

  /** The policy a restricted start keeps back was compiled without an exit. An exit that is selected
      before it is committed leaves the filter without the flows that the exit adds, and only these. */
  lemma StartPolicyMissesExit(s: EngineState, run: Running, device: Device, ip: Option<Addr>, written: Device, f: Flow)
    requires s.startRestricted && ip.Some? && ExitChanges(AfterStart(s, run, device), ip)
    ensures var e := AfterStartPolicy(AfterSetExit(AfterStart(s, run, device), ip, false, false, written));
      && e.run.exit == ip && e.config == s.config && e.installed.Some?
      && (PolicyAdmits(e.installed.value, f) ==> Granted(e.config, ip, f))
      && ((PolicyAdmits(e.installed.value, f) <==> !e.shieldsUp && Granted(e.config, ip, f)) <==>
            || e.shieldsUp || Granted(e.config, None, f) || Selected(e.config.peers, ip) == ""
            || !AddressFamilies(e.config).Has(f.src.v6) || forall g :: g in e.config.grants ==> !OpenTo(e.config, g, f))
  {
    ExitAdds(s.config, ip, f);
    hide Granted, Selected, AddressFamilies, OpenTo, ValidExitSelection;
  }
}
