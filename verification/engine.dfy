/** One WireGuard engine: its fields, and what each of its calls does to them. */
module WireGuardEngine {
  import opened Net
  import opened WireGuardConfig
  import opened WireGuardDevice
  import opened WireGuardScript
  import opened WireGuardDiff
  import opened WireGuardWriters
  import opened PacketFilterMeaning
  import opened FilterCompile

  /** A compiled packet filter. Each compilation makes a new one: `id` is its identity. */
  datatype Policy = Policy(id: nat, cfg: Config, exit: Option<Addr>, restrictive: bool)

  ghost predicate Granted(cfg: Config, exit: Option<Addr>, f: Flow) {
    exists g :: g in cfg.grants && GrantPermits(cfg, exit, g, f)
  }

  /** What the match list compiled for the policy admits. */
  ghost predicate PolicyAdmits(p: Policy, f: Flow) {
    !p.restrictive && Granted(p.cfg, p.exit, f)
  }

  /** Compilation gives a policy this meaning. */
  method CompileFilter(p: Policy) returns (r: Option<seq<Match>>)
    requires WellFormedPeers(p.cfg.peers)
    ensures (forall g :: g in p.cfg.grants ==> Readable(g)) || p.restrictive ==> r.Some?
    ensures r.Some? ==> forall f :: Admits(r.value, f) <==> PolicyAdmits(p, f)
  {
    hide GrantPermits, Admits;
    r := Compile(p.cfg, p.exit, p.restrictive);
    if r.Some? {
      forall f
        ensures Admits(r.value, f) <==> PolicyAdmits(p, f)
      {
      }
    }
  }

  datatype EngineState = EngineState(
    started: bool,
    closed: bool,
    /** the policy the engine refers to, and the one its filtering device runs */
    policy: Option<Policy>,
    installed: Option<Policy>,
    config: Config,
    run: Running,
    shieldsUp: bool,
    startRestricted: bool,
    pendingStart: Option<Policy>,
    degraded: bool,
    device: Device,
    /** how many policies have been compiled */
    compiled: nat)

  predicate Ready(s: EngineState) {
    s.started && s.policy.Some?
  }

  function Install(s: EngineState, p: Policy): EngineState {
    s.(policy := Some(p), installed := Some(p))
  }

  function NewEngine(cfg: Config, secrets: Secrets, shieldsUp: bool, startRestricted: bool, device: Device): EngineState {
    EngineState(false, false, None, None, cfg, Running(cfg, secrets, None), shieldsUp, startRestricted, None, false, device, 0)
  }

  /** The engine once the device runs `run`: the outbound-only policy, replaced at once by the
      configured one unless the start is restricted. */
  function AfterStart(s: EngineState, run: Running, device: Device): EngineState {
    var transition := Policy(s.compiled, s.config, None, true);
    var policy := Policy(s.compiled + 1, s.config, None, s.shieldsUp);
    var up := s.(started := true, run := run, device := device, compiled := s.compiled + 2);
    if s.startRestricted then Install(up, transition).(pendingStart := Some(policy), degraded := true)
    else Install(up, policy)
  }

  function AfterStartPolicy(s: EngineState): EngineState {
    if s.pendingStart.None? || !Ready(s) then s
    else Install(s, s.pendingStart.value).(pendingStart := None, degraded := false)
  }

  function AfterClose(s: EngineState): EngineState {
    if s.closed then s else
    s.(closed := true, started := false, policy := None, installed := None, pendingStart := None, degraded := false)
  }

  // Staged applies

  datatype Staged = Staged(
    oldPolicy: Policy,
    base: Running,
    config: Config,
    next: Running,
    forward: seq<Op>,
    transition: Policy,
    final: Policy,
    filterTransition: bool,
    applied: bool)

  predicate SameFilterPeer(a: Peer, b: Peer) {
    && a.name == b.name && a.publicKey == b.publicKey && a.exitNode == b.exitNode
    && a.addresses == b.addresses && a.routes == b.routes
  }

  predicate SameFilterIdentity(a: Config, as_: Secrets, ax: Option<Addr>, b: Config, bs: Secrets, bx: Option<Addr>) {
    && a.addresses == b.addresses && ax == bx && as_.privateKey == bs.privateKey && |a.peers| == |b.peers|
    && forall i :: 0 <= i < |a.peers| ==>
         && SameFilterPeer(a.peers[i], b.peers[i])
         && Psk(as_, a.peers[i].name) == Psk(bs, b.peers[i].name)
  }

  /** What preparing an apply of `cfg` stages. `runtime` is `cfg` with its endpoints resolved. */
  function Stage(s: EngineState, cfg: Config, runtime: Config, secrets: Secrets, forward: seq<Op>): Staged
    requires Ready(s)
  {
    var exit := ValidExitSelection(cfg, s.run.exit);
    var same := SameFilterIdentity(s.config, s.run.secrets, s.run.exit, cfg, secrets, exit)
                && s.config.grants == cfg.grants;
    Staged(s.policy.value, s.run, cfg, Running(runtime, secrets, exit), forward,
      Policy(s.compiled, cfg, exit, true),
      Policy(s.compiled + 1, cfg, exit, s.shieldsUp),
      forward != [] || !same || s.degraded,
      false)
  }

  function Upto(script: seq<Op>, stop: nat): seq<Op> {
    if stop < |script| then script[..stop] else script
  }

  predicate CanApply(s: EngineState, a: Staged) {
    !a.applied && s.started && s.policy == Some(a.oldPolicy)
  }

  /** The outbound-only policy of the apply is installed before the device is touched. */
  function Transit(s: EngineState, a: Staged): EngineState {
    if a.filterTransition then Install(s, a.transition).(degraded := true) else s
  }

  /** The device accepted the script, or failed it after `stop` of its operations. */
  function AfterApply(s: EngineState, a: Staged, stop: Option<nat>): EngineState {
    if !CanApply(s, a) then s
    else
      var t := Transit(s, a);
      if a.forward != [] && stop.Some? then
        t.(device := IpcSet(Upto(a.forward, stop.value), s.device))
      else t.(device := IpcSet(a.forward, s.device), config := a.config, run := a.next)
  }

  predicate Applies(s: EngineState, a: Staged, stop: Option<nat>) {
    CanApply(s, a) && (a.forward == [] || stop.None?)
  }

  predicate Commits(s: EngineState, a: Staged) {
    a.applied && (!a.filterTransition || s.policy == Some(a.transition))
  }

  function AfterCommit(s: EngineState, a: Staged): EngineState {
    if Commits(s, a) && a.filterTransition then
      Install(s, a.final).(pendingStart := None, degraded := false)
    else s
  }

  // Shields-up updates

  datatype ShieldsUpdate = ShieldsUpdate(oldPolicy: Policy, target: Policy, enabled: bool, applied: bool, noop: bool)

  function StageShields(s: EngineState, enabled: bool): ShieldsUpdate
    requires Ready(s)
  {
    ShieldsUpdate(s.policy.value, Policy(s.compiled, s.config, s.run.exit, enabled), enabled, false, s.shieldsUp == enabled)
  }

  predicate InstallsBeforeSave(s: EngineState, u: ShieldsUpdate) {
    !u.noop && u.enabled && s.policy == Some(u.oldPolicy)
  }

  function BeforeSave(s: EngineState, u: ShieldsUpdate): EngineState {
    if InstallsBeforeSave(s, u) then Install(s, u.target) else s
  }

  predicate ShieldsCommits(s: EngineState, u: ShieldsUpdate) {
    u.noop || if u.enabled then u.applied && s.policy == Some(u.target) else s.policy == Some(u.oldPolicy)
  }

  function AfterShields(s: EngineState, u: ShieldsUpdate): EngineState {
    if u.noop || !ShieldsCommits(s, u) then s else Install(s, u.target).(shieldsUp := u.enabled)
  }

  function AfterRollback(s: EngineState, u: ShieldsUpdate): EngineState {
    if !u.noop && u.applied && s.policy == Some(u.target) then Install(s, u.oldPolicy) else s
  }

  // Exit selection

  predicate ExitEligible(cfg: Config, ip: Option<Addr>) {
    ip.None? || ValidExitSelection(cfg, ip).Some?
  }

  predicate ExitChanges(s: EngineState, ip: Option<Addr>) {
    Ready(s) && ExitEligible(s.config, ip) && ip != s.run.exit
  }

  function ExitTransition(s: EngineState, ip: Option<Addr>): EngineState {
    Install(s, Policy(s.compiled, s.config, ip, true)).(compiled := s.compiled + 2)
  }

  function ExitDone(s: EngineState, mid: EngineState, ip: Option<Addr>, device: Device): EngineState {
    Install(mid, Policy(s.compiled + 1, s.config, ip, s.shieldsUp)).(run := s.run.(exit := ip), device := device)
  }

  /** The old selection could be written back to the device, or not. */
  function ExitUndone(s: EngineState, mid: EngineState, device: Device, restored: bool): EngineState
    requires s.policy.Some?
  {
    (if restored then Install(mid, s.policy.value) else mid).(device := device)
  }

  /** The outcome of a selection, `device` being what the writes left. */
  function AfterSetExit(s: EngineState, ip: Option<Addr>, fails: bool, restoreFails: bool, device: Device): EngineState {
    if !ExitChanges(s, ip) then s
    else
      var mid := ExitTransition(s, ip);
      if fails then ExitUndone(s, mid, device, !restoreFails) else ExitDone(s, mid, ip, device)
  }

  // Writing to the device

  method ConfigureDevice(d: Device, run: Running, bypassMark: bool) returns (e: Device)
    requires WellFormedPeers(run.cfg.peers) && run.secrets.privateKey.Some?
    ensures HoldsRunning(e, run)
  {
    hide HoldsRunning, FullScript, ListsPlan, Run;
    var script := FullWGConfig(run, bypassMark);
    ghost var lists :| ListsPlan(lists, PlanOf(run)) && script == FullScript(run, bypassMark, lists);
    FullReaches(d, run, bypassMark, lists);
    e := IpcSet(script, d);
  }

  method FailedConfigure(d: Device, run: Running, bypassMark: bool, stop: nat) returns (e: Device)
    requires DistinctKeys(run.cfg.peers)
    ensures exists script :: FullOf(script, run, bypassMark) && e == IpcSet(Upto(script, stop), d)
  {
    hide FullOf, Run;
    var script := FullWGConfig(run, bypassMark);
    e := IpcSet(Upto(script, stop), d);
  }

  /** Select an exit peer on the device; a failure writes the whole running configuration back. */
  method WriteExit(d: Device, run: Running, ip: Option<Addr>, bypassMark: bool, stop: Option<nat>, restoreFails: Option<nat>)
    returns (e: Device)
    requires WellFormedPeers(run.cfg.peers) && run.secrets.privateKey.Some?
    ensures stop.Some? && restoreFails.None? ==> HoldsRunning(e, run)
    ensures stop.None? && HoldsRunning(d, run) ==> HoldsRunning(e, run.(exit := ip))
  {
    var next := run.(exit := ip);
    var script := DiffWGConfig(run, next);
    if stop.None? {
      e := IpcSet(script, d);
      if HoldsRunning(d, run) {
        DiffHolds(d, run, next, script);
        assert !StaleExit(run, next);
      }
      return;
    }
    var torn := IpcSet(Upto(script, stop.value), d);
    if restoreFails.None? {
      e := ConfigureDevice(torn, run, bypassMark);
    } else {
      e := FailedConfigure(torn, run, bypassMark, restoreFails.value);
    }
  }

  // The same as updates of an object's fields

  class Engine {
    var started: bool
    var closed: bool
    var policy: Option<Policy>
    var installed: Option<Policy>
    var config: Config
    var run: Running
    var shieldsUp: bool
    var startRestricted: bool
    var pendingStart: Option<Policy>
    var degraded: bool
    var device: Device
    var compiled: nat

    function State(): EngineState
      reads this
    {
      EngineState(started, closed, policy, installed, config, run, shieldsUp, startRestricted, pendingStart,
        degraded, device, compiled)
    }

    constructor (cfg: Config, secrets: Secrets, shields: bool, restricted: bool, dev: Device)
      ensures State() == NewEngine(cfg, secrets, shields, restricted, dev)
    {
      started, closed, policy, installed, config := false, false, None, None, cfg;
      run, shieldsUp, startRestricted := Running(cfg, secrets, None), shields, restricted;
      pendingStart, degraded, device, compiled := None, false, dev, 0;
    }

    method Start(runtime: Config, secrets: Secrets, bypassMark: bool, deviceFails: bool) returns (ok: bool)
      requires WellFormedPeers(config.peers) && WellFormedPeers(runtime.peers)
      modifies this
      ensures ok <==> !old(closed) && (old(started) || (!deviceFails && secrets.privateKey.Some?))
      ensures !ok || old(started) ==> State() == old(State())
      ensures ok && !old(started) ==>
        && State() == AfterStart(old(State()), Running(runtime, secrets, None), device)
        && HoldsRunning(device, run)
    {
      if closed {
        return false;
      }
      if started {
        return true;
      }
      if secrets.privateKey.None? || deviceFails {
        return false;
      }
      var transition := Policy(compiled, config, None, true);
      var final := Policy(compiled + 1, config, None, shieldsUp);
      compiled := compiled + 2;
      run := Running(runtime, secrets, None);
      device := ConfigureDevice(device, run, bypassMark);
      started := true;
      installed, policy := Some(transition), Some(transition);
      if startRestricted {
        pendingStart := Some(final);
        degraded := true;
      } else {
        installed, policy := Some(final), Some(final);
      }
      ok := true;
    }

    method CommitStartPolicy() returns (ok: bool)
      modifies this
      ensures ok <==> old(pendingStart).None? || Ready(old(State()))
      ensures State() == AfterStartPolicy(old(State()))
    {
      if pendingStart.None? {
        return true;
      }
      if !started || policy.None? {
        return false;
      }
      installed, policy := Some(pendingStart.value), Some(pendingStart.value);
      pendingStart := None;
      degraded := false;
      ok := true;
    }

    method Close()
      modifies this
      ensures State() == AfterClose(old(State()))
    {
      if closed {
        return;
      }
      closed, started := true, false;
      policy, installed, pendingStart, degraded := None, None, None, false;
    }

    method PrepareApply(cfg: Config, runtime: Config, secrets: Secrets) returns (r: Option<Staged>)
      requires DistinctKeys(runtime.peers)
      modifies this`compiled
      ensures r.Some? <==> Ready(old(State())) && secrets.privateKey.Some?
      ensures r.Some? ==>
        && r.value == Stage(old(State()), cfg, runtime, secrets, r.value.forward)
        && ForwardOf(r.value.forward, r.value.base, r.value.next)
      ensures State() == old(State()).(compiled := old(compiled) + if r.Some? && r.value.filterTransition then 2 else 0)
      ensures r.Some? && r.value.filterTransition ==> compiled > r.value.final.id > r.value.transition.id >= old(compiled)
    {
      hide ForwardOf, SameFilterIdentity, ValidExitSelection, DistinctKeys;
      if !started || policy.None? || secrets.privateKey.None? {
        return None;
      }
      var exit := ValidExitSelection(cfg, run.exit);
      var next := Running(runtime, secrets, exit);
      var forward := DiffWGConfig(run, next);
      r := Some(Stage(State(), cfg, runtime, secrets, forward));
      if r.value.filterTransition {
        compiled := compiled + 2;
      }
    }

    method Apply(a: Staged, stop: Option<nat>) returns (ok: bool, b: Staged)
      modifies this
      ensures State() == AfterApply(old(State()), a, stop)
      ensures ok <==> a.applied || Applies(old(State()), a, stop)
      ensures b == a.(applied := ok)
    {
      if a.applied {
        return true, a;
      }
      if !started || policy != Some(a.oldPolicy) {
        return false, a;
      }
      if a.filterTransition {
        installed, policy := Some(a.transition), Some(a.transition);
        degraded := true;
      }
      if a.forward != [] && stop.Some? {
        device := IpcSet(Upto(a.forward, stop.value), device);
        return false, a;
      }
      device := IpcSet(a.forward, device);
      config, run := a.config, a.next;
      return true, a.(applied := true);
    }

    method Commit(a: Staged) returns (ok: bool)
      modifies this
      ensures ok <==> Commits(old(State()), a)
      ensures State() == AfterCommit(old(State()), a)
    {
      if !a.applied {
        return false;
      }
      if !a.filterTransition {
        return true;
      }
      if policy != Some(a.transition) {
        return false;
      }
      installed, policy := Some(a.final), Some(a.final);
      pendingStart, degraded := None, false;
      ok := true;
    }

    method PrepareShieldsUp(enabled: bool) returns (r: Option<ShieldsUpdate>)
      modifies this`compiled
      ensures r.Some? <==> Ready(old(State()))
      ensures r.Some? ==> r.value == StageShields(old(State()), enabled)
      ensures compiled >= old(compiled) && (r.Some? && !r.value.noop ==> compiled > r.value.target.id)
    {
      if !started || policy.None? {
        return None;
      }
      var u := ShieldsUpdate(policy.value, Policy(compiled, config, run.exit, enabled), enabled, false, shieldsUp == enabled);
      if !u.noop {
        compiled := compiled + 1;
      }
      r := Some(u);
    }

    method ApplyBeforeSave(u: ShieldsUpdate) returns (ok: bool, v: ShieldsUpdate)
      modifies this
      ensures State() == BeforeSave(old(State()), u)
      ensures ok <==> u.noop || !u.enabled || old(policy) == Some(u.oldPolicy)
      ensures v == u.(applied := u.applied || InstallsBeforeSave(old(State()), u))
    {
      if u.noop || !u.enabled {
        return true, u;
      }
      if policy != Some(u.oldPolicy) {
        return false, u;
      }
      installed, policy := Some(u.target), Some(u.target);
      return true, u.(applied := true);
    }

    method CommitShields(u: ShieldsUpdate) returns (ok: bool)
      modifies this
      ensures ok <==> ShieldsCommits(old(State()), u)
      ensures old(installed) == old(policy) ==> State() == AfterShields(old(State()), u)
    {
      if u.noop {
        return true;
      }
      if u.enabled {
        if !u.applied || policy != Some(u.target) {
          return false;
        }
      } else {
        if policy != Some(u.oldPolicy) {
          return false;
        }
        installed, policy := Some(u.target), Some(u.target);
      }
      shieldsUp := u.enabled;
      ok := true;
    }

    method RollbackShields(u: ShieldsUpdate) returns (ok: bool)
      modifies this
      ensures State() == AfterRollback(old(State()), u)
      ensures ok <==> u.noop || !u.applied || old(policy) == Some(u.target)
    {
      if u.noop || !u.applied {
        return true;
      }
      if policy != Some(u.target) {
        return false;
      }
      installed, policy := Some(u.oldPolicy), Some(u.oldPolicy);
      ok := true;
    }

    method SetExitNodeIP(ip: Option<Addr>, bypassMark: bool, stop: Option<nat>, restoreFails: Option<nat>)
      returns (ok: bool)
      requires Ready(State()) ==> WellFormedPeers(run.cfg.peers) && run.secrets.privateKey.Some?
      modifies this
      ensures State() == AfterSetExit(old(State()), ip, stop.Some?, restoreFails.Some?, device)
      ensures ok <==> Ready(old(State())) && ExitEligible(old(config), ip) && (ip == old(run.exit) || stop.None?)
    {
      hide WellFormedPeers, HoldsRunning, ExitEligible;
      if !started || policy.None? || !ExitEligible(config, ip) {
        return false;
      }
      if ip == run.exit {
        return true;
      }
      var prev := policy.value;
      var transition := Policy(compiled, config, ip, true);
      var final := Policy(compiled + 1, config, ip, shieldsUp);
      compiled := compiled + 2;
      installed, policy := Some(transition), Some(transition);
      device := WriteExit(device, run, ip, bypassMark, stop, restoreFails);
      if stop.Some? {
        if restoreFails.None? {
          installed, policy := Some(prev), Some(prev);
        }
        return false;
      }
      run := run.(exit := ip);
      installed, policy := Some(final), Some(final);
      ok := true;
    }
  }
}
