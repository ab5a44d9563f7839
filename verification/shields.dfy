/** The supervisor operations that touch a WireGuard engine or the saved shields-up flag. State saves
    and device writes fail at any point. `trace` records what is saved and what is running after
    every single change of either. */
module WireGuardShields {
  import opened Net
  import opened WireGuardConfig
  import opened WireGuardDevice
  import opened WireGuardDiff
  import opened FilterCompile
  import opened WireGuardEngine
  import opened WireGuardPolicies
  import opened WireGuardEngineRuns

  type Id = string

  datatype Profile = Profile(shieldsUp: bool, disabled: bool, removed: bool, config: Config)

  datatype Snapshot = Snapshot(saved: map<Id, Profile>, engines: map<Id, EngineState>)

  /** A saved shields-up flag of a running profile means that its filter has no grants. */
  ghost predicate Shielded(s: Snapshot) {
    forall id :: id in s.saved && s.saved[id].shieldsUp && id in s.engines ==>
      s.engines[id].installed.Some? && s.engines[id].installed.value.restrictive
  }

  lemma ShieldedAdmitsNothing(s: Snapshot, id: Id, f: Flow)
    requires Shielded(s) && id in s.saved && s.saved[id].shieldsUp && id in s.engines
    ensures !PolicyAdmits(s.engines[id].installed.value, f)
  {
  }

  /** The installed filter admits no flow that the running configuration does not grant. */
  ghost predicate Confined(e: EngineState) {
    e.installed.Some? && forall f :: PolicyAdmits(e.installed.value, f) ==> Granted(e.config, e.run.exit, f)
  }

  /** So it is for every engine. */
  ghost predicate AllConfined(s: Snapshot) {
    forall id :: id in s.engines ==> Confined(s.engines[id])
  }

  ghost predicate EngineGood(e: EngineState) {
    Ready(e) && e.installed == e.policy && (e.shieldsUp ==> e.policy.value.restrictive) && Confined(e)
  }

  /** What is staged belongs to the engine: its policies are those of the new configuration, and without
      a transition that is the running configuration as far as the filter goes. */
  ghost predicate StagedFor(e: EngineState, a: Staged) {
    && a.transition.restrictive && a.final.restrictive == e.shieldsUp
    && a.transition.exit == a.final.exit == a.next.exit && a.final.cfg == a.config
    && (!a.filterTransition ==> SameFilter(e.config, e.run.exit, a.config, a.next.exit))
  }

  lemma StageIsFor(e: EngineState, cfg: Config, runtime: Config, secrets: Secrets, forward: seq<Op>)
    requires Ready(e)
    ensures StagedFor(e, Stage(e, cfg, runtime, secrets, forward))
  {
    hide Psk, ValidExitSelection;
  }

  lemma CompilingIsGood(e: EngineState, a: Staged, compiled: nat)
    requires EngineGood(e) && CanApply(e, a) && StagedFor(e, a)
    ensures var later := e.(compiled := compiled); EngineGood(later) && CanApply(later, a) && StagedFor(later, a)
  {
    hide PolicyAdmits, Granted, SameFilter;
  }

  lemma ApplyIsGood(e: EngineState, a: Staged, stop: Option<nat>)
    requires EngineGood(e) && CanApply(e, a) && StagedFor(e, a)
    ensures EngineGood(Transit(e, a)) && Transit(e, a).shieldsUp == e.shieldsUp
    ensures EngineGood(AfterApply(e, a, stop)) && AfterApply(e, a, stop).shieldsUp == e.shieldsUp
    ensures Applies(e, a, stop) ==> AfterApply(e, a, stop).config == a.config && AfterApply(e, a, stop).run == a.next
    ensures Applies(e, a, stop) && a.filterTransition ==> AfterApply(e, a, stop).policy == Some(a.transition)
  {
    hide IpcSet;
    if !a.filterTransition {
      forall f
        ensures Granted(e.config, e.run.exit, f) <==> Granted(a.config, a.next.exit, f)
      {
        SameFilterMeans(e.config, e.run.exit, a.config, a.next.exit, f);
      }
    }
    hide Granted, SameFilter;
  }

  /** The final policy is committed over the transition only, and the exit has not changed since. */
  lemma CommitIsGood(e: EngineState, a: Staged)
    requires EngineGood(e) && a.final.restrictive == e.shieldsUp && a.final.cfg == e.config
    requires Commits(e, a) && a.filterTransition ==> a.final.exit == e.run.exit
    ensures EngineGood(AfterCommit(e, a)) && AfterCommit(e, a).shieldsUp == e.shieldsUp
    ensures AfterCommit(e, a).config == e.config && AfterCommit(e, a).run == e.run
    ensures Commits(e, a) && a.filterTransition ==> AdmitsExactly(AfterCommit(e, a), e.run.exit)
  {
    if Commits(e, a) && a.filterTransition {
      CommitAdmits(e, a);
    }
    hide Granted;
  }

  /** The installed policy has no grants whenever the flag may be saved. */
  lemma ShieldsAreGood(e: EngineState, enabled: bool)
    requires EngineGood(e)
    ensures var u := StageShields(e, enabled);
      var staged := e.(compiled := e.compiled + 1);
      var mid := BeforeSave(staged, u);
      var v := u.(applied := InstallsBeforeSave(staged, u));
      && EngineGood(mid) && mid.shieldsUp == e.shieldsUp
      && mid.installed.Some? && (enabled ==> mid.installed.value.restrictive)
      && (EngineGood(AfterRollback(mid, v)) && AfterRollback(mid, v).installed == e.installed
          && AfterRollback(mid, v).shieldsUp == e.shieldsUp)
      && ShieldsCommits(mid, v)
      && EngineGood(AfterShields(mid, v)) && AfterShields(mid, v).shieldsUp == enabled
      && AfterShields(mid, v).installed.Some? && (enabled ==> AfterShields(mid, v).installed.value.restrictive)
      && AfterShields(mid, v).config == e.config && AfterShields(mid, v).run == e.run
      && (e.shieldsUp != enabled ==> AdmitsExactly(AfterShields(mid, v), e.run.exit))
  {
    hide Granted;
    var staged := e.(compiled := e.compiled + 1);
    if e.shieldsUp != enabled {
      ShieldsAdmit(e, enabled);
    }
  }

  /** The engine runs what it ran, under a filter that admits exactly what its configuration grants under
      its exit, or nothing with shields up. */
  ghost predicate Refiltered(e: EngineState, before: EngineState) {
    e.config == before.config && e.run == before.run && AdmitsExactly(e, before.run.exit)
  }

  /** The engine keeps back the policy of its configuration without an exit. */
  predicate PendingFor(e: EngineState) {
    && e.pendingStart.Some? && e.pendingStart.value.cfg == e.config && e.pendingStart.value.exit == None
    && e.pendingStart.value.restrictive == e.shieldsUp
  }

  lemma StartIsGood(cfg: Config, secrets: Secrets, shieldsUp: bool, restricted: bool, device: Device)
    ensures var unstarted := NewEngine(cfg, secrets, shieldsUp, restricted, device);
      var e := AfterStart(unstarted, unstarted.run, device);
      && EngineGood(e) && e.config == cfg && e.shieldsUp == shieldsUp && e.run.exit == None
      && (if restricted then AdmitsNothing(e) && PendingFor(e) else AdmitsExactly(e, None))
  {
    hide Granted;
  }

  /** The policy kept back grants less than the configuration does under any exit selected since. */
  lemma StartPolicyIsGood(e: EngineState)
    requires EngineGood(e) && PendingFor(e)
    ensures EngineGood(AfterStartPolicy(e)) && AfterStartPolicy(e).shieldsUp == e.shieldsUp
    ensures AdmitsExactly(AfterStartPolicy(e), None)
  {
    forall f
      ensures Granted(e.config, None, f) ==> Granted(e.config, e.run.exit, f)
    {
      ExitAdds(e.config, e.run.exit, f);
    }
    hide Granted;
  }

  lemma ExitIsGood(e: EngineState, ip: Option<Addr>, device: Device, restored: bool)
    requires EngineGood(e) && ExitChanges(e, ip)
    ensures var mid := ExitTransition(e, ip);
      && EngineGood(mid) && ExitKeeps(mid, e)
      && EngineGood(ExitDone(e, mid, ip, device)) && ExitKeeps(ExitDone(e, mid, ip, device), e)
      && AdmitsExactly(ExitDone(e, mid, ip, device), ip)
      && EngineGood(ExitUndone(e, mid, device, restored)) && ExitKeeps(ExitUndone(e, mid, device, restored), e)
  {
    hide Granted, ExitEligible;
    ExitAdmits(e, ip, !restored, device);
  }

  /** What the exit selection leaves alone; a new selection is that of the policy. */
  predicate ExitKeeps(a: EngineState, b: EngineState) {
    && a.shieldsUp == b.shieldsUp && a.pendingStart == b.pendingStart && a.config == b.config
    && (a.run.exit == b.run.exit || (a.policy.Some? && a.policy.value.exit == a.run.exit))
  }

  lemma KeepsItself(e: EngineState)
    ensures ExitKeeps(e, e)
  {
  }

  lemma ExitDoneSelects(e: EngineState, mid: EngineState, ip: Option<Addr>, device: Device)
    ensures ExitDone(e, mid, ip, device).run.exit == ip
  {
  }

  datatype Command =
    | SetShields(id: Id, enabled: bool)
    | ApplyConfig(id: Id, config: Config, runtime: Config, secrets: Secrets)
    | SetEnabled(id: Id, enabled: bool)
    | Restart(id: Id)
    | Remove(id: Id, purge: bool)
    | Restore(id: Id, disable: bool)
    | SelectExit(selected: Option<Id>, peer: Addr)
    | Patch(id: Id, renamed: Option<Config>, hostname: bool)
    | SetUp(up: bool)
    | Reconcile
    | Boot

  class Supervisor {
    var st: map<Id, Profile>
    var exitNode: Option<Id>
    var exitPeer: Addr
    var down: bool
    var saved: map<Id, Profile>
    var savedDown: bool
    var runtimes: map<Id, EngineState>
    var trace: seq<Snapshot>

    function Now(): Snapshot
      reads this
    {
      Snapshot(saved, runtimes)
    }

    /** The flag that is saved is also in memory, and the running engine has it. */
    ghost predicate Agree()
      reads this
    {
      && (forall id :: id in saved && saved[id].shieldsUp ==> id in st && st[id].shieldsUp)
      && (forall id :: id in runtimes ==> EngineGood(runtimes[id]))
      && (forall id :: id in runtimes && id in st && st[id].shieldsUp ==> runtimes[id].shieldsUp)
    }

    /** At every step so far the saved flags were honoured. */
    ghost predicate AlwaysShielded()
      reads this
    {
      && trace != [] && trace[|trace| - 1] == Now()
      && forall i :: 0 <= i < |trace| ==> Shielded(trace[i]) && AllConfined(trace[i])
    }

    ghost predicate Valid()
      reads this
    {
      Agree() && AlwaysShielded()
    }

    constructor (initial: map<Id, Profile>, peer: Addr)
      ensures Valid() && saved == initial && runtimes == map[] && trace == [Now()]
    {
      st, saved, exitNode, exitPeer, runtimes := initial, initial, None, peer, map[];
      down, savedDown := false, false;
      trace := [Snapshot(initial, map[])];
    }

    // Single changes

    method Save(next: map<Id, Profile>) returns (ok: bool)
      requires AlwaysShielded() && Shielded(Snapshot(next, runtimes))
      modifies this`saved, this`savedDown, this`trace
      ensures saved == if ok then next else old(saved)
      ensures AlwaysShielded() && old(trace) <= trace
    {
      ok := *;
      if ok {
        saved, savedDown := next, down;
        trace := trace + [Now()];
      }
    }

    method SetEngine(id: Id, e: EngineState)
      requires AlwaysShielded() && Confined(e)
      requires id in saved && saved[id].shieldsUp ==> e.installed.Some? && e.installed.value.restrictive
      modifies this`runtimes, this`trace
      ensures runtimes == old(runtimes)[id := e]
      ensures AlwaysShielded() && old(trace) <= trace
    {
      hide Confined;
      assert Shielded(Now()) && AllConfined(Now());
      runtimes := runtimes[id := e];
      assert Shielded(Now()) && AllConfined(Now());
      trace := trace + [Now()];
    }

    /** A change that keeps the engine's own flag and is good for it. */
    method ReplaceEngine(id: Id, e: EngineState)
      requires Valid() && id in runtimes && EngineGood(e) && e.shieldsUp == runtimes[id].shieldsUp
      modifies this`runtimes, this`trace
      ensures runtimes == old(runtimes)[id := e]
      ensures Valid() && old(trace) <= trace
    {
      SetEngine(id, e);
    }

    method Start(id: Id, restricted: bool) returns (ok: bool)
      requires Valid() && id in st
      modifies this`runtimes, this`trace
      ensures Valid() && old(trace) <= trace
      ensures forall other :: other in old(runtimes) ==> other in runtimes && runtimes[other] == old(runtimes)[other]
      ensures ok ==> id in runtimes
      ensures ok && id !in old(runtimes) ==>
        && runtimes[id].config == st[id].config && runtimes[id].run.exit == None && runtimes[id].shieldsUp == st[id].shieldsUp
        && (if restricted then AdmitsNothing(runtimes[id]) && PendingFor(runtimes[id]) else AdmitsExactly(runtimes[id], None))
    {
      if id in runtimes {
        return true;
      }
      ok := *;
      if ok {
        var device: Device, secrets: Secrets := *, *;
        var engine := NewEngine(st[id].config, secrets, st[id].shieldsUp, restricted, device);
        StartIsGood(st[id].config, secrets, st[id].shieldsUp, restricted, device);
        assert Confined(AfterStart(engine, engine.run, device));
        hide EngineGood, AfterStart, AdmitsExactly, AdmitsNothing, PendingFor;
        SetEngine(id, AfterStart(engine, engine.run, device));
      }
    }

    method Stop(id: Id)
      requires Valid()
      modifies this`runtimes, this`trace
      ensures Valid() && old(trace) <= trace && runtimes == old(runtimes) - {id}
    {
      hide Confined;
      runtimes := runtimes - {id};
      trace := trace + [Now()];
    }

    method SetExitNodeIP(id: Id, ip: Option<Addr>) returns (ok: bool)
      requires Valid() && id in runtimes
      modifies this`runtimes, this`trace
      ensures Valid() && old(trace) <= trace && runtimes.Keys == old(runtimes).Keys
      ensures forall other :: other in runtimes && other != id ==> runtimes[other] == old(runtimes)[other]
      ensures ExitKeeps(runtimes[id], old(runtimes)[id])
      ensures ok ==> runtimes[id].run.exit == ip && (ip != old(runtimes)[id].run.exit ==> AdmitsExactly(runtimes[id], ip))
    {
      hide EngineGood, Confined, AdmitsExactly, ExitTransition, ExitDone, ExitUndone;
      var e := runtimes[id];
      var canceled: bool := *;
      if canceled || !ExitChanges(e, ip) {
        ok := !canceled && Ready(e) && ExitEligible(e.config, ip);
        return;
      }
      var device: Device, restored: bool := *, *;
      ok := *;
      ExitIsGood(e, ip, device, restored);
      var mid := ExitTransition(e, ip);
      ReplaceEngine(id, mid);
      if ok {
        assert ExitDone(e, mid, ip, device).run.exit == ip by {
          ExitDoneSelects(e, mid, ip, device);
        }
        ReplaceEngine(id, ExitDone(e, mid, ip, device));
      } else {
        ReplaceEngine(id, ExitUndone(e, mid, device, restored));
      }
    }

    // Operations

    /** Exit preferences of every engine, then two saves of derived state that keeps the flags. */
    method ReconcileAll() returns (ok: bool)
      requires Valid()
      modifies this`runtimes, this`saved, this`savedDown, this`trace
      ensures Valid() && old(trace) <= trace && runtimes.Keys == old(runtimes).Keys
      ensures forall other :: other in runtimes ==> ExitKeeps(runtimes[other], old(runtimes)[other])
    {
      hide Confined, AllConfined, AdmitsExactly, ExitKeeps;
      var left := runtimes.Keys;
      forall other | other in runtimes
        ensures ExitKeeps(runtimes[other], runtimes[other])
      {
        KeepsItself(runtimes[other]);
      }
      while left != {}
        invariant Valid() && old(trace) <= trace && left <= runtimes.Keys == old(runtimes).Keys
        invariant forall other :: other in runtimes ==> ExitKeeps(runtimes[other], old(runtimes)[other])
        invariant forall other :: other in left ==> runtimes[other] == old(runtimes)[other]
      {
        var id :| id in left;
        left := left - {id};
        var differs: bool := *;
        if differs {
          var done := SetExitNodeIP(id, if exitNode == Some(id) then Some(exitPeer) else None);
          if !done {
            return false;
          }
        }
      }
      ok := SaveState();
      if ok {
        ok := SaveState();
      }
    }

    /** The state is saved as it is in memory. */
    method SaveState() returns (ok: bool)
      requires Valid()
      modifies this`saved, this`savedDown, this`trace
      ensures Valid() && old(trace) <= trace && saved == if ok then st else old(saved)
    {
      hide Confined, AllConfined;
      ok := Save(st);
    }

    method SetShieldsUp(id: Id, enabled: bool) returns (ok: bool)
      requires Valid()
      modifies this
      ensures Valid() && old(trace) <= trace
      ensures ok ==> id in st && st[id].shieldsUp == enabled
      ensures ok && old(id in st && st[id].shieldsUp) != enabled ==>
        && id in saved && saved[id].shieldsUp == enabled
        && (id in runtimes ==> runtimes[id].shieldsUp == enabled)
      ensures ok && old(id in st && st[id].shieldsUp) != enabled && id in old(runtimes) && old(runtimes)[id].shieldsUp != enabled ==>
        id in runtimes && Refiltered(runtimes[id], old(runtimes)[id])
      ensures !ok ==> saved == old(saved) && st == old(st)
      ensures !ok ==> runtimes.Keys == old(runtimes).Keys
      ensures !ok ==> forall other :: other in runtimes ==>
        runtimes[other].installed == old(runtimes)[other].installed && runtimes[other].shieldsUp == old(runtimes)[other].shieldsUp
    {
      if id !in st || st[id].removed {
        return false;
      }
      if st[id].shieldsUp == enabled {
        return true;
      }
      var compiles: bool := *;
      if !compiles {
        return false;
      }
      if id in runtimes {
        ok := SetShieldsRunning(id, enabled);
      } else {
        ok := SaveFlag(id, enabled);
      }
    }

    method SaveFlag(id: Id, enabled: bool) returns (ok: bool)
      requires Valid() && id in st
      requires enabled && id in runtimes ==> runtimes[id].installed.Some? && runtimes[id].installed.value.restrictive
      modifies this`st, this`saved, this`savedDown, this`trace
      ensures ok ==> st == old(st)[id := old(st)[id].(shieldsUp := enabled)] == saved
      ensures !ok ==> st == old(st) && saved == old(saved)
      ensures AlwaysShielded() && old(trace) <= trace
    {
      var next := st[id := st[id].(shieldsUp := enabled)];
      ok := Save(next);
      if ok {
        st := next;
      }
    }

    /** Raising installs before the save, lowering after it. */
    method SetShieldsRunning(id: Id, enabled: bool) returns (ok: bool)
      requires Valid() && id in st && id in runtimes && st[id].shieldsUp != enabled
      modifies this`st, this`saved, this`savedDown, this`runtimes, this`trace
      ensures Valid() && old(trace) <= trace
      ensures runtimes.Keys == old(runtimes).Keys
      ensures forall other :: other in runtimes && other != id ==> runtimes[other] == old(runtimes)[other]
      ensures ok ==> st == old(st)[id := old(st)[id].(shieldsUp := enabled)] == saved && runtimes[id].shieldsUp == enabled
      ensures ok && old(runtimes)[id].shieldsUp != enabled ==> Refiltered(runtimes[id], old(runtimes)[id])
      ensures !ok ==> saved == old(saved) && st == old(st)
      ensures !ok ==> runtimes[id].installed == old(runtimes)[id].installed && runtimes[id].shieldsUp == old(runtimes)[id].shieldsUp
    {
      hide Confined, AdmitsExactly, StageShields, BeforeSave, InstallsBeforeSave, AfterShields, AfterRollback, ShieldsCommits;
      var u := StageShields(runtimes[id], enabled);
      ShieldsAreGood(runtimes[id], enabled);
      var e := runtimes[id].(compiled := runtimes[id].compiled + 1);
      var mid := BeforeSave(e, u);
      u := u.(applied := InstallsBeforeSave(e, u));
      ok := InstallAndSave(id, mid, enabled);
      if ok {
        PublishShields(id, AfterShields(mid, u));
      } else {
        ReplaceEngine(id, AfterRollback(mid, u));
      }
    }

    method InstallAndSave(id: Id, mid: EngineState, enabled: bool) returns (ok: bool)
      requires Valid() && id in st && id in runtimes && EngineGood(mid) && mid.shieldsUp == runtimes[id].shieldsUp
      requires enabled ==> mid.installed.Some? && mid.installed.value.restrictive
      modifies this`st, this`saved, this`savedDown, this`runtimes, this`trace
      ensures AlwaysShielded() && old(trace) <= trace && runtimes == old(runtimes)[id := mid]
      ensures ok ==> st == old(st)[id := old(st)[id].(shieldsUp := enabled)] == saved
      ensures !ok ==> st == old(st) && saved == old(saved) && Valid()
    {
      hide EngineGood;
      ReplaceEngine(id, mid);
      ok := SaveFlag(id, enabled);
    }

    /** The engine takes over the flag that was just saved. */
    method PublishShields(id: Id, e: EngineState)
      requires AlwaysShielded() && saved == st && id in st && EngineGood(e) && e.shieldsUp == st[id].shieldsUp
      requires forall other :: other in runtimes ==> EngineGood(runtimes[other])
      requires forall other :: other in runtimes && other != id && other in st && st[other].shieldsUp ==> runtimes[other].shieldsUp
      modifies this`runtimes, this`trace
      ensures Valid() && old(trace) <= trace && runtimes == old(runtimes)[id := e]
    {
      SetEngine(id, e);
    }

    method ApplyWireGuard(id: Id, config: Config, runtime: Config, secrets: Secrets) returns (ok: bool)
      requires Valid()
      modifies this
      ensures Valid() && old(trace) <= trace
      ensures ok ==> id in st && st[id].config == config
    {
      hide AfterApply, Run, IpcSet, Confined, AllConfined, StagedFor, AdmitsExactly;
      if down {
        return false;
      }
      var prior := if id in st then st[id] else Profile(false, false, false, config);
      var profile := prior.(config := config, removed := false, disabled := !prior.removed && prior.disabled);
      var next := st[id := profile];
      var wasRunning := id in runtimes;
      var forward: seq<Op>, stop: Option<nat> := *, *;
      ok := Save(next);
      if !ok {
        return;
      }
      st := next;
      if wasRunning {
        StageIsFor(runtimes[id], config, runtime, secrets, forward);
        ok := ApplyRunning(id, Stage(runtimes[id], config, runtime, secrets, forward), stop);
      } else if !profile.disabled {
        ok := ApplyStart(id);
      }
    }

    /** Apply, reconcile and commit on a running engine, after the desired state is saved. */
    method ApplyRunning(id: Id, a: Staged, stop: Option<nat>) returns (ok: bool)
      requires Valid() && id in runtimes && id in st
      requires CanApply(runtimes[id], a) && StagedFor(runtimes[id], a)
      modifies this`runtimes, this`saved, this`savedDown, this`trace
      ensures Valid() && old(trace) <= trace
      ensures ok ==> id in runtimes && runtimes[id].config == a.config
      ensures ok && a.filterTransition ==> AdmitsExactly(runtimes[id], a.next.exit)
    {
      hide EngineGood, Confined, AdmitsExactly, AfterCommit, CanApply, SameFilter;
      ok := ApplyStaged(id, a, stop);
      ghost var applied := runtimes[id];
      KeepsItself(applied);
      if ok && !st[id].disabled {
        ok := ReconcileAll();
      }
      if ok {
        var done := a.(applied := true);
        assert ExitKeeps(runtimes[id], applied);
        CommitIsGood(runtimes[id], done);
        ok := Commits(runtimes[id], done);
        ReplaceEngine(id, AfterCommit(runtimes[id], done));
      }
    }

    method ApplyStaged(id: Id, a: Staged, stop: Option<nat>) returns (ok: bool)
      requires Valid() && id in runtimes && id in st
      requires CanApply(runtimes[id], a) && StagedFor(runtimes[id], a)
      modifies this`runtimes, this`trace
      ensures Valid() && old(trace) <= trace && runtimes.Keys == old(runtimes).Keys
      ensures runtimes[id].shieldsUp == old(runtimes)[id].shieldsUp
      ensures ok ==> runtimes[id].config == a.config && runtimes[id].run == a.next
    {
      hide EngineGood, Transit, AfterApply, Confined, AllConfined, StagedFor, CanApply, IpcSet;
      var e := runtimes[id].(compiled := runtimes[id].compiled + if a.filterTransition then 2 else 0);
      CompilingIsGood(runtimes[id], a, e.compiled);
      ApplyIsGood(e, a, stop);
      ReplaceEngine(id, Transit(e, a));
      ReplaceEngine(id, AfterApply(e, a, stop));
      ok := Applies(e, a, stop);
    }

    method ApplyStart(id: Id) returns (ok: bool)
      requires Valid() && id in st && id !in runtimes
      modifies this`runtimes, this`saved, this`savedDown, this`trace
      ensures Valid() && old(trace) <= trace
      ensures ok ==> id in runtimes && runtimes[id].config == st[id].config && AdmitsExactly(runtimes[id], None)
    {
      ok := Start(id, true);
      if !ok {
        return;
      }
      ghost var started := runtimes[id];
      ok := ReconcileAll();
      if ok {
        assert ExitKeeps(runtimes[id], started);
        StartPolicyIsGood(runtimes[id]);
        hide EngineGood, Confined, AdmitsExactly, AdmitsNothing, AfterStartPolicy;
        ReplaceEngine(id, AfterStartPolicy(runtimes[id]));
      }
    }

    method SetProfileEnabled(id: Id, enabled: bool) returns (ok: bool)
      requires Valid()
      modifies this
      ensures Valid() && old(trace) <= trace
    {
      hide Confined, AllConfined, ExitKeeps, AdmitsExactly, AdmitsNothing;
      if down || id !in st || st[id].removed {
        return false;
      }
      if st[id].disabled == !enabled {
        return true;
      }
      var before := st;
      st := st[id := st[id].(disabled := !enabled)];
      ok := Save(st);
      if !ok {
        st := before;
        return;
      }
      if enabled {
        var _ := Start(id, false);
      } else {
        ok := ReconcileAll();
        if !ok {
          return;
        }
        Stop(id);
      }
      ok := ReconcileAll();
    }

    method RestartProfile(id: Id) returns (ok: bool)
      requires Valid()
      modifies this
      ensures Valid() && old(trace) <= trace
    {
      hide Confined, AllConfined, ExitKeeps, AdmitsExactly, AdmitsNothing;
      if down || id !in st || st[id].removed || st[id].disabled {
        return false;
      }
      Stop(id);
      ok := ReconcileAll();
      if !ok {
        return;
      }
      var _ := Start(id, false);
      ok := ReconcileAll();
    }

    /** Removal lowers the flag before it stops the engine. */
    method RemoveProfile(id: Id, purge: bool) returns (ok: bool)
      requires Valid()
      modifies this
      ensures Valid() && old(trace) <= trace
      ensures ok ==> id !in runtimes
    {
      hide Confined, AllConfined, ExitKeeps, EngineGood;
      if down || id !in st {
        return false;
      }
      ok := SaveRemoved(id);
      if !ok {
        return;
      }
      ok := ReconcileAll();
      if ok {
        Stop(id);
        if purge {
          ok := Purge(id);
        }
      }
    }

    method SaveRemoved(id: Id) returns (ok: bool)
      requires Valid() && id in st
      modifies this`st, this`exitNode, this`saved, this`savedDown, this`trace
      ensures Valid() && old(trace) <= trace
      ensures ok ==> st == saved == old(st)[id := old(st)[id].(removed := true, disabled := true, shieldsUp := false)]
      ensures exitNode == if ok && old(exitNode) == Some(id) then None else old(exitNode)
      ensures !ok ==> st == old(st) && saved == old(saved)
    {
      hide Confined, AllConfined;
      var before, exitBefore := st, exitNode;
      st := st[id := st[id].(removed := true, disabled := true, shieldsUp := false)];
      if exitNode == Some(id) {
        exitNode := None;
      }
      ok := Save(st);
      if !ok {
        st, exitNode := before, exitBefore;
      }
    }

    method Purge(id: Id) returns (ok: bool)
      requires Valid() && id in st && !st[id].shieldsUp && id !in runtimes
      modifies this`st, this`saved, this`savedDown, this`trace
      ensures Valid() && old(trace) <= trace && st == old(st) - {id}
    {
      st := st - {id};
      ok := Save(st);
    }

    method RestoreProfile(id: Id, disable: bool) returns (ok: bool)
      requires Valid()
      modifies this
      ensures Valid() && old(trace) <= trace
    {
      hide Confined, AllConfined, ExitKeeps, AdmitsExactly, AdmitsNothing;
      if down || id !in st || !st[id].removed {
        return false;
      }
      var before := st;
      st := st[id := st[id].(removed := false, disabled := disable)];
      ok := Save(st);
      if !ok {
        st := before;
        return;
      }
      if !disable {
        var _ := Start(id, false);
      }
      ok := ReconcileAll();
    }

    method SelectExitNode(id: Option<Id>, peer: Addr) returns (ok: bool)
      requires Valid()
      modifies this
      ensures Valid() && old(trace) <= trace
    {
      exitNode, exitPeer := id, peer;
      ok := ReconcileAll();
    }

    /** A new name is stored in the configuration without touching the engine. A host name, which only
        other kinds of profile have, is refused after the new name is already in memory. */
    method PatchProfile(id: Id, renamed: Option<Config>, hostname: bool) returns (ok: bool)
      requires Valid()
      modifies this
      ensures Valid() && old(trace) <= trace
      ensures forall other :: other in old(st) ==> other in st && st[other].shieldsUp == old(st)[other].shieldsUp
    {
      hide Confined, AllConfined, ExitKeeps;
      if down || id !in st {
        return false;
      }
      var before := st;
      if renamed.Some? {
        st := st[id := st[id].(config := renamed.value)];
      }
      if hostname {
        return false;
      }
      ok := Save(st);
      if !ok {
        st := before;
        return;
      }
      ok := ReconcileAll();
    }

    /** Every enabled profile that does not run is started. */
    method StartEnabled()
      requires Valid()
      modifies this`runtimes, this`trace
      ensures Valid() && old(trace) <= trace
    {
      hide Confined, AllConfined, AdmitsExactly, AdmitsNothing;
      var left := set id | id in st && !st[id].disabled && !st[id].removed;
      while left != {}
        invariant Valid() && old(trace) <= trace && left <= st.Keys
      {
        var id :| id in left;
        left := left - {id};
        var _ := Start(id, false);
      }
    }

    /** Every engine of the set is stopped. */
    method StopAll(ids: set<Id>)
      requires Valid()
      modifies this`runtimes, this`trace
      ensures Valid() && old(trace) <= trace && runtimes == old(runtimes) - ids
    {
      hide Confined, AllConfined;
      var left := ids;
      while left != {}
        invariant Valid() && old(trace) <= trace && left <= ids && runtimes == old(runtimes) - (ids - left)
      {
        var id :| id in left;
        left := left - {id};
        Stop(id);
      }
    }

    /** Taking the daemon down stops every engine; taking it up stops those that should not run and
        starts the others. */
    method SetDaemonUp(up: bool) returns (ok: bool)
      requires Valid()
      modifies this
      ensures Valid() && old(trace) <= trace && st == old(st)
      ensures ok ==> down == !up
      ensures !up && down ==> runtimes == map[] || (!ok && runtimes == old(runtimes))
    {
      hide Confined, AllConfined, ExitKeeps, EngineGood;
      if down != !up {
        var before := down;
        down := !up;
        ok := SaveState();
        if !ok {
          down := before;
          return;
        }
      }
      if up {
        StopAll(set id | id in runtimes && (id !in st || st[id].disabled || st[id].removed));
        StartEnabled();
      } else {
        StopAll(runtimes.Keys);
        assert runtimes == map[];
      }
      ok := ReconcileAll();
    }

    /** The process ends and a new one starts from what is saved. */
    method BootFromSaved() returns (ok: bool)
      requires Valid()
      modifies this
      ensures Valid() && old(trace) <= trace
    {
      hide Confined, ExitKeeps;
      st, down := saved, savedDown;
      runtimes := map[];
      trace := trace + [Now()];
      if !down {
        StartEnabled();
      }
      ok := ReconcileAll();
    }

    method Execute(c: Command) returns (ok: bool)
      requires Valid()
      modifies this
      ensures Valid() && old(trace) <= trace
    {
      match c
      case SetShields(id, enabled) => ok := SetShieldsUp(id, enabled);
      case ApplyConfig(id, config, runtime, secrets) => ok := ApplyWireGuard(id, config, runtime, secrets);
      case SetEnabled(id, enabled) => ok := SetProfileEnabled(id, enabled);
      case Restart(id) => ok := RestartProfile(id);
      case Remove(id, purge) => ok := RemoveProfile(id, purge);
      case Restore(id, disable) => ok := RestoreProfile(id, disable);
      case SelectExit(id, peer) => ok := SelectExitNode(id, peer);
      case Patch(id, renamed, hostname) => ok := PatchProfile(id, renamed, hostname);
      case SetUp(up) => ok := SetDaemonUp(up);
      case Reconcile => ok := ReconcileAll();
      case Boot => ok := BootFromSaved();
    }
  }

  /** Every run of operations, whatever fails: at each recorded step a saved flag on a running
      profile means a filter that lets nothing in, and no filter lets in what the configuration that
      its engine runs does not grant. */
  method Drive(initial: map<Id, Profile>, peer: Addr, commands: seq<Command>) returns (trace: seq<Snapshot>, last: Snapshot)
    ensures trace != [] && trace[|trace| - 1] == last
    ensures forall i, id, f :: 0 <= i < |trace| && id in trace[i].saved && trace[i].saved[id].shieldsUp && id in trace[i].engines ==>
      trace[i].engines[id].installed.Some? && !PolicyAdmits(trace[i].engines[id].installed.value, f)
    ensures forall i, id :: 0 <= i < |trace| && id in trace[i].engines ==> Confined(trace[i].engines[id])
  {
    var s := new Supervisor(initial, peer);
    for i := 0 to |commands|
      invariant s.Valid() && fresh(s)
    {
      var _ := s.Execute(commands[i]);
    }
    trace, last := s.trace, s.Now();
    forall i, id, f | 0 <= i < |trace| && id in trace[i].saved && trace[i].saved[id].shieldsUp && id in trace[i].engines
      ensures trace[i].engines[id].installed.Some? && !PolicyAdmits(trace[i].engines[id].installed.value, f)
    {
      assert Shielded(trace[i]);
      ShieldedAdmitsNothing(trace[i], id, f);
    }
  }
}
