/** Sequences of calls on an engine object are runs of the engine machine, so what holds of all runs
    holds of the object. */
module WireGuardEngineDriver {
  import opened Net
  import opened WireGuardConfig
  import opened WireGuardDevice
  import opened WireGuardDiff
  import opened FilterCompile
  import opened WireGuardEngine
  import opened WireGuardEngineRuns

  datatype Call =
    | PrepareCall(cfg: Config, runtime: Config, secrets: Secrets)
    | ApplyCall(index: nat, stop: Option<nat>)
    | CommitCall(index: nat)
    | CloseCall

  ghost predicate ProperCall(c: Call) {
    c.PrepareCall? ==> WellFormedPeers(c.runtime.peers)
  }

  /** One call, and the event it is. A call that is refused outright is none. */
  method Perform(e: Engine, staged: seq<Staged>, c: Call, ghost w: World) returns (after: seq<Staged>, ghost v: World, ghost events: seq<Event>)
    requires ProperCall(c) && w.e == e.State() && w.staged == staged
    modifies e
    ensures v.e == e.State() && v.staged == after
    ensures Runs(w, events, v)
  {
    hide ForwardOf, WellFormedPeers, DistinctKeys, IpcSet, StaleExit, SyncAfter, Stage;
    after, v, events := staged, w, [];
    match c
    case PrepareCall(cfg, runtime, secrets) =>
      KeysAreDistinct(runtime);
      var r := e.PrepareApply(cfg, runtime, secrets);
      if r.Some? {
        after := staged + [r.value];
        ghost var ev := Prepare(cfg, runtime, secrets, r.value.forward);
        StagedRunning(w.e, cfg, runtime, secrets, r.value.forward);
        v, events := Step(w, ev), [ev];
        OneStep(w, ev);
      }
    case ApplyCall(i, stop) =>
      if i < |staged| {
        var ok, b := e.Apply(staged[i], stop);
        after := staged[i := b];
        v, events := Step(w, Apply(i, stop)), [Apply(i, stop)];
        OneStep(w, Apply(i, stop));
      }
    case CommitCall(i) =>
      if i < |staged| {
        var ok := e.Commit(staged[i]);
        v, events := Step(w, Commit(i)), [Commit(i)];
        OneStep(w, Commit(i));
      }
    case CloseCall =>
      e.Close();
      v, events := Step(w, Close), [Close];
      OneStep(w, Close);
  }

  lemma KeysAreDistinct(c: Config)
    ensures WellFormedPeers(c.peers) ==> DistinctKeys(c.peers)
  {
  }

  lemma StagedRunning(s: EngineState, cfg: Config, runtime: Config, secrets: Secrets, forward: seq<Op>)
    requires Ready(s)
    ensures var a := Stage(s, cfg, runtime, secrets, forward);
      a.base == s.run && a.next == Running(runtime, secrets, ValidExitSelection(cfg, s.run.exit)) && a.forward == forward
  {
  }

  lemma OneStep(w: World, ev: Event)
    requires Allowed(w, ev)
    ensures Runs(w, [ev], Step(w, ev))
  {
    hide Step, Allowed;
    assert [ev][1..] == [];
    assert Runs(Step(w, ev), [], Step(w, ev));
  }

  lemma {:induction false} RunsAppend(w: World, a: seq<Event>, v: World, b: seq<Event>, u: World)
    requires Runs(w, a, v) && Runs(v, b, u)
    ensures Runs(w, a + b, u)
    decreases |a|
  {
    hide Step, Allowed;
    if a == [] {
      assert a + b == b;
    } else {
      assert (a + b)[1..] == a[1..] + b;
      RunsAppend(Step(w, a[0]), a[1..], v, b, u);
    }
  }

  /** A new engine is started and called at will: it is always in a state that a run of the machine
      reaches. So a degraded engine lets nothing in, and a settled one exactly what its configuration
      grants. */
  method DriveEngine(cfg: Config, runtime: Config, secrets: Secrets, shields: bool, device: Device, bypassMark: bool, calls: seq<Call>)
    returns (e: Engine, started: bool, staged: seq<Staged>)
    requires WellFormedPeers(cfg.peers) && WellFormedPeers(runtime.peers)
    requires forall c :: c in calls ==> ProperCall(c)
    ensures fresh(e) && (started <==> secrets.privateKey.Some?)
    ensures started ==> exists w :: Reachable(w) && w.e == e.State() && w.staged == staged
    ensures started && e.degraded ==> e.installed.Some? && forall f :: !PolicyAdmits(e.installed.value, f)
    ensures started && e.started && !e.degraded ==> e.installed.Some?
    ensures started && e.started && !e.degraded ==> forall f ::
      PolicyAdmits(e.installed.value, f) <==> !e.shieldsUp && Granted(e.config, e.run.exit, f)
  {
    e := new Engine(cfg, secrets, shields, false, device);
    staged := [];
    started := e.Start(runtime, secrets, bypassMark, false);
    if !started {
      return;
    }
    ghost var w := World(e.State(), [], InStep);
    StartedIsInitial(w, cfg, secrets, shields, device, Running(runtime, secrets, None));
    ghost var start, events := w, [];
    hide Initial, Runs, ProperCall, PolicyAdmits, Granted, WellFormedPeers, HoldsRunning;
    RunsNothing(w);
    for i := 0 to |calls|
      invariant fresh(e) && w.e == e.State() && w.staged == staged && Runs(start, events, w)
    {
      ghost var v, more;
      staged, v, more := Perform(e, staged, calls[i], w);
      RunsAppend(start, events, w, more, v);
      w, events := v, events + more;
    }
    assert Reachable(w);
    Settle(w);
  }

  lemma RunsNothing(w: World)
    ensures Runs(w, [], w)
  {
  }

  lemma StartedIsInitial(w: World, cfg: Config, secrets: Secrets, shields: bool, device: Device, run: Running)
    requires w.staged == [] && w.sync == InStep && run.secrets.privateKey.Some? && run.exit == None
    requires w.e == AfterStart(NewEngine(cfg, secrets, shields, false, device), run, w.e.device) && HoldsRunning(w.e.device, run)
    ensures Initial(w)
  {
    hide HoldsRunning;
    var d := w.e.device;
    assert w.e == AfterStart(NewEngine(cfg, secrets, shields, false, d), run, d);
  }

  lemma Settle(w: World)
    requires Reachable(w)
    ensures w.e.degraded ==> w.e.installed.Some? && forall f :: !PolicyAdmits(w.e.installed.value, f)
    ensures w.e.started && !w.e.degraded ==> w.e.installed.Some? && forall f ::
      PolicyAdmits(w.e.installed.value, f) <==> !w.e.shieldsUp && Granted(w.e.config, w.e.run.exit, f)
  {
    hide Reachable, PolicyAdmits, Granted;
    var any: Flow :| true;
    if w.e.degraded {
      DegradedAdmitsNothing(w, any);
      forall f
        ensures !PolicyAdmits(w.e.installed.value, f)
      {
        DegradedAdmitsNothing(w, f);
      }
    }
    if w.e.started && !w.e.degraded {
      SettledAdmitsConfigured(w, any);
      forall f
        ensures PolicyAdmits(w.e.installed.value, f) <==> !w.e.shieldsUp && Granted(w.e.config, w.e.run.exit, f)
      {
        SettledAdmitsConfigured(w, f);
      }
    }
  }
}
