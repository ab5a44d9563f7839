/** Whole runs of staged applies on one engine: prepare, apply and commit in any interleaving, the
    device failing a script after any of its operations. */
module WireGuardEngineRuns {
  import opened Net
  import opened WireGuardConfig
  import opened WireGuardDevice
  import opened WireGuardScript
  import opened WireGuardDiff
  import opened WireGuardRepair
  import opened PacketFilter
  import opened PacketFilterMeaning
  import opened Ownership
  import opened FilterCompile
  import opened WireGuardEngine

  /** How the device relates to what the engine believes it runs: it holds exactly that, or attempts at
      some changes have failed on it, or an apply succeeded that could not put right what had failed. */
  datatype Sync =
    | InStep
    | Torn(changes: seq<Change>)
    | Lost

  datatype World = World(e: EngineState, staged: seq<Staged>, sync: Sync)

  datatype Event =
    | Prepare(cfg: Config, runtime: Config, secrets: Secrets, forward: seq<Op>)
    | Apply(index: nat, stop: Option<nat>)
    | Commit(index: nat)
    | Close

  /** What can happen next. A preparation that is refused changes nothing and is not an event. */
  ghost predicate Allowed(w: World, ev: Event) {
    match ev
    case Prepare(cfg, runtime, secrets, forward) =>
      && Ready(w.e) && secrets.privateKey.Some?
      && WellFormedPeers(runtime.peers)
      && ForwardOf(forward, w.e.run, Running(runtime, secrets, ValidExitSelection(cfg, w.e.run.exit)))
    case Apply(i, _) => i < |w.staged|
    case Commit(i) => i < |w.staged|
    case Close => true
  }

  /** A whole script of the change puts right whatever the failed attempts have left. */
  ghost predicate PutsRight(sync: Sync, a: Staged) {
    && !sync.Lost? && !StaleExit(a.base, a.next)
    && (sync.Torn? ==> forall c :: c in sync.changes ==> Harmless(c, DiffChange(a.base, a.next)))
  }

  ghost function SyncAfter(w: World, a: Staged, stop: Option<nat>): Sync {
    if !CanApply(w.e, a) || w.sync.Lost? then w.sync
    else if Applies(w.e, a, stop) then if PutsRight(w.sync, a) then InStep else Lost
    else Torn((if w.sync.Torn? then w.sync.changes else []) + [DiffChange(a.base, a.next)])
  }

  ghost function Step(w: World, ev: Event): World
    requires Allowed(w, ev)
  {
    match ev
    case Prepare(cfg, runtime, secrets, forward) =>
      var a := Stage(w.e, cfg, runtime, secrets, forward);
      w.(e := w.e.(compiled := w.e.compiled + if a.filterTransition then 2 else 0), staged := w.staged + [a])
    case Apply(i, stop) =>
      var a := w.staged[i];
      World(AfterApply(w.e, a, stop),
        w.staged[i := a.(applied := a.applied || Applies(w.e, a, stop))],
        SyncAfter(w, a, stop))
    case Commit(i) => w.(e := AfterCommit(w.e, w.staged[i]))
    case Close => w.(e := AfterClose(w.e))
  }

  /** `events` can happen one after the other from `w`, ending in `v`. */
  ghost predicate Runs(w: World, events: seq<Event>, v: World)
    decreases |events|
  {
    if events == [] then v == w
    else Allowed(w, events[0]) && Runs(Step(w, events[0]), events[1..], v)
  }

  /** An engine right after an ordinary start on a device that took its configuration. */
  ghost predicate Initial(w: World) {
    && w.staged == [] && w.sync == InStep
    && exists cfg, secrets, shields, run: Running, device: Device ::
         && w.e == AfterStart(NewEngine(cfg, secrets, shields, false, device), run, device)
         && HoldsRunning(device, run) && run.secrets.privateKey.Some? && run.exit == None
  }

  // Identities: the installed policy only ever moves to one compiled later

  predicate EngineOk(e: EngineState) {
    && e.started == e.policy.Some?
    && e.installed == e.policy
    && (e.policy.Some? ==> e.policy.value.id < e.compiled)
    && (e.degraded ==> e.policy.Some? && e.policy.value.restrictive)
  }

  predicate StagedOk(e: EngineState, a: Staged) {
    && a.oldPolicy.id < e.compiled
    && (e.started ==> e.policy.Some? && a.oldPolicy.id <= e.policy.value.id)
    && (a.filterTransition ==>
          && a.oldPolicy.id < a.transition.id < a.final.id < e.compiled
          && a.transition == Policy(a.transition.id, a.config, a.next.exit, true)
          && a.final == Policy(a.final.id, a.config, a.next.exit, e.shieldsUp))
    && (a.filterTransition && a.applied && e.started ==> a.oldPolicy.id < e.policy.value.id)
    && (!a.filterTransition && e.policy.Some? && e.policy.value.id == a.oldPolicy.id ==> !e.degraded)
  }

  /** An applied change whose outbound-only policy is still installed is what the engine runs. */
  predicate StagedCurrent(e: EngineState, a: Staged) {
    a.filterTransition && e.policy.Some? && e.policy.value.id == a.transition.id ==>
      && e.degraded
      && (a.applied ==> e.config == a.config && e.run == a.next)
  }

  predicate Apart(a: Staged, b: Staged) {
    && (a.filterTransition && b.filterTransition ==> a.final.id < b.transition.id)
    && (a.filterTransition && b.filterTransition && a.applied && b.applied ==> a.oldPolicy.id != b.oldPolicy.id)
    && (a.filterTransition && !b.filterTransition ==> a.transition.id != b.oldPolicy.id)
    && (!a.filterTransition && b.filterTransition ==> a.oldPolicy.id < b.transition.id)
  }

  predicate Ids(w: World) {
    && EngineOk(w.e)
    && (forall i :: 0 <= i < |w.staged| ==> StagedOk(w.e, w.staged[i]) && StagedCurrent(w.e, w.staged[i]))
    && (forall i, j :: 0 <= i < j < |w.staged| ==> Apart(w.staged[i], w.staged[j]))
  }

  lemma PrepareKeepsIds(w: World, ev: Event)
    requires Ids(w) && Allowed(w, ev) && ev.Prepare?
    ensures Ids(Step(w, ev))
  {
    var v := Step(w, ev);
    var n := |w.staged|;
    var a := v.staged[n];
    forall i | 0 <= i < n
      ensures StagedOk(v.e, v.staged[i]) && StagedCurrent(v.e, v.staged[i]) && Apart(v.staged[i], a)
    {
      assert v.staged[i] == w.staged[i];
      assert StagedOk(w.e, w.staged[i]) && StagedCurrent(w.e, w.staged[i]);
    }
    forall i, j | 0 <= i < j < |v.staged|
      ensures Apart(v.staged[i], v.staged[j])
    {
      if j < n {
        assert Apart(w.staged[i], w.staged[j]);
      }
    }
  }

  lemma ApplyKeepsIds(w: World, i: nat, stop: Option<nat>)
    requires Ids(w) && i < |w.staged|
    ensures Ids(Step(w, Apply(i, stop)))
  {
    hide IpcSet;
    var v := Step(w, Apply(i, stop));
    var a := w.staged[i];
    assert StagedOk(w.e, a);
    if !CanApply(w.e, a) {
      assert v.e == w.e && v.staged == w.staged;
      return;
    }
    forall j | 0 <= j < |v.staged|
      ensures StagedOk(v.e, v.staged[j]) && StagedCurrent(v.e, v.staged[j])
    {
      ApplyOther(w, i, stop, j);
    }
    forall j, k | 0 <= j < k < |v.staged|
      ensures Apart(v.staged[j], v.staged[k])
    {
      assert Apart(w.staged[j], w.staged[k]);
      assert StagedOk(w.e, w.staged[j]) && StagedOk(w.e, w.staged[k]);
    }
  }

  lemma ApplyOther(w: World, i: nat, stop: Option<nat>, j: nat)
    requires Ids(w) && i < |w.staged| && j < |w.staged| && CanApply(w.e, w.staged[i])
    ensures var v := Step(w, Apply(i, stop));
            StagedOk(v.e, v.staged[j]) && StagedCurrent(v.e, v.staged[j])
  {
    hide IpcSet;
    var a, b := w.staged[i], w.staged[j];
    assert StagedOk(w.e, a) && StagedOk(w.e, b) && StagedCurrent(w.e, b);
    if i < j {
      assert Apart(a, b);
    } else if j < i {
      assert Apart(b, a);
    }
  }

  lemma CommitKeepsIds(w: World, i: nat)
    requires Ids(w) && i < |w.staged|
    ensures Ids(Step(w, Commit(i)))
  {
    var v := Step(w, Commit(i));
    var a := w.staged[i];
    assert StagedOk(w.e, a);
    forall j | 0 <= j < |v.staged|
      ensures StagedOk(v.e, v.staged[j]) && StagedCurrent(v.e, v.staged[j])
    {
      assert StagedOk(w.e, w.staged[j]) && StagedCurrent(w.e, w.staged[j]);
      if i < j {
        assert Apart(a, w.staged[j]);
      } else if j < i {
        assert Apart(w.staged[j], a);
      }
    }
  }

  lemma CloseKeepsIds(w: World)
    requires Ids(w)
    ensures Ids(Step(w, Close))
  {
    var v := Step(w, Close);
    forall i | 0 <= i < |v.staged|
      ensures StagedOk(v.e, v.staged[i]) && StagedCurrent(v.e, v.staged[i])
    {
      assert StagedOk(w.e, w.staged[i]);
    }
  }

  // Meaning: a settled engine filters by the configuration it runs

  predicate SameFilter(a: Config, ax: Option<Addr>, b: Config, bx: Option<Addr>) {
    && a.addresses == b.addresses && ax == bx && a.grants == b.grants && |a.peers| == |b.peers|
    && forall i :: 0 <= i < |a.peers| ==> SameFilterPeer(a.peers[i], b.peers[i])
  }

  predicate Filters(w: World) {
    && (w.e.started && !w.e.degraded && w.e.policy.Some? ==>
          && w.e.policy.value.restrictive == w.e.shieldsUp
          && SameFilter(w.e.policy.value.cfg, w.e.policy.value.exit, w.e.config, w.e.run.exit))
    && forall i :: 0 <= i < |w.staged| && !w.staged[i].filterTransition ==>
         var a := w.staged[i];
         && a.forward == [] && SameFilter(a.oldPolicy.cfg, a.oldPolicy.exit, a.config, a.next.exit)
  }

  lemma StepKeepsFilters(w: World, ev: Event)
    requires Ids(w) && Filters(w) && Allowed(w, ev)
    ensures Filters(Step(w, ev))
  {
    hide IpcSet, ForwardOf, WellFormedPeers;
    var v := Step(w, ev);
    match ev
    case Prepare(_, _, _, _) =>
      forall i | 0 <= i < |v.staged| && !v.staged[i].filterTransition
        ensures v.staged[i].forward == []
        ensures SameFilter(v.staged[i].oldPolicy.cfg, v.staged[i].oldPolicy.exit, v.staged[i].config, v.staged[i].next.exit)
      {
        assert i < |w.staged| ==> v.staged[i] == w.staged[i];
      }
    case Apply(i, stop) =>
      var a := w.staged[i];
      assert StagedOk(w.e, a) && StagedCurrent(w.e, a);
    case Commit(i) =>
      assert StagedOk(w.e, w.staged[i]) && StagedCurrent(w.e, w.staged[i]);
    case Close =>
  }

  lemma SameFilterSymmetric(a: Config, ax: Option<Addr>, b: Config, bx: Option<Addr>)
    requires SameFilter(a, ax, b, bx)
    ensures SameFilter(b, bx, a, ax)
  {
    forall i | 0 <= i < |b.peers|
      ensures SameFilterPeer(b.peers[i], a.peers[i])
    {
      assert SameFilterPeer(a.peers[i], b.peers[i]);
    }
  }

  lemma PeerCarries(a: Config, ax: Option<Addr>, b: Config, bx: Option<Addr>, p: Peer) returns (q: Peer)
    requires SameFilter(a, ax, b, bx) && p in a.peers
    ensures q in b.peers && SameFilterPeer(p, q)
  {
    var i :| 0 <= i < |a.peers| && a.peers[i] == p;
    q := b.peers[i];
  }

  lemma {:induction false} SelectedSame(a: seq<Peer>, b: seq<Peer>, exit: Option<Addr>)
    requires |a| == |b| && forall i :: 0 <= i < |a| ==> SameFilterPeer(a[i], b[i])
    ensures Selected(a, exit) == Selected(b, exit)
  {
    if a != [] {
      var n := |a| - 1;
      assert SameFilterPeer(a[n], b[n]);
      SelectedSame(a[..n], b[..n], exit);
    }
  }

  lemma DeclaresCarries(a: Config, ax: Option<Addr>, b: Config, bx: Option<Addr>, d: Item)
    requires SameFilter(a, ax, b, bx) && Declares(a, ax, d)
    ensures Declares(b, bx, d)
  {
    match d.kind
    case Direct =>
      var p, x :| p in a.peers && p.name == d.peer && x in p.addresses && d.value == HostPrefix(x);
      var q := PeerCarries(a, ax, b, bx, p);
      assert q in b.peers && q.name == d.peer && x in q.addresses && d.value == HostPrefix(x);
    case Routed =>
      var p :| p in a.peers && p.name == d.peer && d.value in p.routes && d.value.bits != 0;
      var q := PeerCarries(a, ax, b, bx, p);
    case Default =>
      SelectedSame(a.peers, b.peers, ax);
  }

  lemma LongestCarries(a: Config, ax: Option<Addr>, b: Config, bx: Option<Addr>, x: Addr, d: Item)
    requires SameFilter(a, ax, b, bx) && Longest(a, ax, x, d)
    ensures Longest(b, bx, x, d)
  {
    DeclaresCarries(a, ax, b, bx, d);
    SameFilterSymmetric(a, ax, b, bx);
    forall e | Declares(b, bx, e) && Contains(e.value, x)
      ensures e.value.bits <= d.value.bits
    {
      DeclaresCarries(b, bx, a, ax, e);
    }
  }

  lemma RoutedCarries(a: Config, ax: Option<Addr>, b: Config, bx: Option<Addr>, x: Addr, n: string)
    requires SameFilter(a, ax, b, bx) && RoutedOwner(a, ax, x, n)
    ensures RoutedOwner(b, bx, x, n)
  {
    SameFilterSymmetric(a, ax, b, bx);
    if IsDirect(b, x) {
      var p :| p in b.peers && x in p.addresses;
      var q := PeerCarries(b, bx, a, ax, p);
      assert IsDirect(a, x);
    }
    var d: Item :| d.peer == n && d.kind == Routed && Longest(a, ax, x, d);
    LongestCarries(a, ax, b, bx, x, d);
  }

  lemma SourceCarries(a: Config, ax: Option<Addr>, b: Config, bx: Option<Addr>, s: Selector, x: Addr)
    requires SameFilter(a, ax, b, bx) && SourceAdmits(a, ax, s, x)
    ensures SourceAdmits(b, bx, s, x)
  {
    if InDeclaredSpace(a, ax, x) {
      var d: Item :| Declares(a, ax, d) && Contains(d.value, x);
      DeclaresCarries(a, ax, b, bx, d);
      assert InDeclaredSpace(b, bx, x);
    }
    match s
    case PeerAll =>
      var p :| p in a.peers && x in p.addresses;
      var q := PeerCarries(a, ax, b, bx, p);
    case OfPeer(n) =>
      var p :| p in a.peers && p.name == n && x in p.addresses;
      var q := PeerCarries(a, ax, b, bx, p);
    case RoutesAll =>
      var p :| p in a.peers && RoutedOwner(a, ax, x, p.name);
      var q := PeerCarries(a, ax, b, bx, p);
      RoutedCarries(a, ax, b, bx, x, p.name);
    case OfRoutes(n) =>
      var p :| p in a.peers && p.name == n;
      var q := PeerCarries(a, ax, b, bx, p);
      RoutedCarries(a, ax, b, bx, x, n);
    case _ =>
  }

  lemma GrantedCarries(a: Config, ax: Option<Addr>, b: Config, bx: Option<Addr>, f: Flow)
    requires SameFilter(a, ax, b, bx) && Granted(a, ax, f)
    ensures Granted(b, bx, f)
  {
    var g :| g in a.grants && GrantPermits(a, ax, g, f);
    var t :| t in g.src && SourceTextAdmits(a, ax, t, f.src);
    SourceTextMeans(a, ax, t, f.src);
    SourceCarries(a, ax, b, bx, ParseSelector(t, true).value, f.src);
    SourceTextMeans(b, bx, t, f.src);
    hide SourceTextAdmits;
    var u :| u in g.dst && DestinationTextAdmits(a, u, f.dst);
    assert DestinationTextAdmits(b, u, f.dst);
    assert GrantPermits(b, bx, g, f);
  }

  /** What the filter looks at does not include the fields that may differ without a transition. */
  lemma SameFilterMeans(a: Config, ax: Option<Addr>, b: Config, bx: Option<Addr>, f: Flow)
    requires SameFilter(a, ax, b, bx)
    ensures Granted(a, ax, f) <==> Granted(b, bx, f)
  {
    SameFilterSymmetric(a, ax, b, bx);
    if Granted(a, ax, f) {
      GrantedCarries(a, ax, b, bx, f);
    }
    if Granted(b, bx, f) {
      GrantedCarries(b, bx, a, ax, f);
    }
  }

  // The device: in step, or torn by failed scripts

  ghost predicate StagedScript(a: Staged) {
    && ForwardOf(a.forward, a.base, a.next)
    && WellFormedPeers(a.next.cfg.peers)
    && a.base.secrets.privateKey.Some? && a.next.secrets.privateKey.Some?
  }

  /** Attempts at the changes, each stopped somewhere, one after the other. */
  ghost predicate AttemptsOf(attempts: seq<Attempt>, changes: seq<Change>) {
    && |attempts| == |changes|
    && forall j :: 0 <= j < |changes| ==> ValidAttempt(attempts[j]) && attempts[j].change == changes[j]
  }

  /** The change shares its base with every change from `run`. */
  ghost predicate FromRunning(c: Change, run: Running) {
    forall next :: SameBase(c, DiffChange(run, next))
  }

  /** What attempts at the changes left of a device that held `run`. */
  ghost predicate TornFrom(d: Device, run: Running, changes: seq<Change>) {
    && (forall c :: c in changes ==> FromRunning(c, run))
    && exists start, attempts ::
         HoldsRunning(start, run) && AttemptsOf(attempts, changes) && d == AfterAttempts(start, attempts)
  }

  ghost predicate DeviceOk(w: World) {
    && (w.e.started ==> w.e.run.secrets.privateKey.Some?)
    && (forall i :: 0 <= i < |w.staged| ==> StagedScript(w.staged[i]))
    && (w.e.started ==>
          && (w.sync.InStep? ==> HoldsRunning(w.e.device, w.e.run))
          && (w.sync.Torn? ==> w.e.degraded && TornFrom(w.e.device, w.e.run, w.sync.changes)))
    && (w.sync.Torn? ==> forall i :: 0 <= i < |w.staged| && w.staged[i].applied && w.staged[i].filterTransition ==>
          w.e.policy.None? || w.e.policy.value.id != w.staged[i].transition.id)
    && (forall i :: 0 <= i < |w.staged| && w.e.started && w.e.policy == Some(w.staged[i].oldPolicy) ==> Based(w, w.staged[i]))
  }

  /** What an apply staged on the current policy starts from. */
  ghost predicate Based(w: World, a: Staged) {
    && (w.sync.InStep? ==> HoldsRunning(w.e.device, a.base))
    && (w.sync.Torn? ==> a.base == w.e.run)
  }

  lemma PlansShareBase(prev: Running, other: Running, failed: Running, next: Running)
    requires PlanOf(prev) == PlanOf(other)
    ensures SameBase(DiffChange(prev, failed), DiffChange(other, next))
  {
    var c, t := DiffChange(prev, failed), DiffChange(other, next);
    forall l | l in t.to && l !in t.write && l !in c.write + c.removeLast
      ensures l in c.to && c.to[l] == t.to[l]
    {
      KeptPeerPlan(other, next, l);
      assert l in PlanOf(prev);
      KeptPeerPlan(prev, failed, l);
    }
  }

  /** Two configurations that one device holds are one base. */
  lemma HeldShareBase(d: Device, prev: Running, run: Running, failed: Running)
    requires HoldsRunning(d, prev) && HoldsRunning(d, run)
    ensures FromRunning(DiffChange(prev, failed), run)
  {
    PlanIsUnique(d, PlanOf(prev), PlanOf(run));
    hide DiffChange, PlanOf, SameBase;
    forall next
      ensures SameBase(DiffChange(prev, failed), DiffChange(run, next))
    {
      PlansShareBase(prev, run, failed, next);
    }
  }

  lemma {:induction false} AttemptsAppend(d: Device, attempts: seq<Attempt>, a: Attempt)
    requires ValidAttempt(a) && forall b :: b in attempts ==> ValidAttempt(b)
    ensures AfterAttempts(d, attempts + [a]) == AfterAttempt(AfterAttempts(d, attempts), a)
    decreases |attempts|
  {
    hide ValidAttempt, AfterAttempt;
    if attempts == [] {
      assert [a][1..] == [];
    } else {
      assert (attempts + [a])[1..] == attempts[1..] + [a];
      AttemptsAppend(AfterAttempt(d, attempts[0]), attempts[1..], a);
    }
  }

  lemma StoppedScript(a: Staged, d: Device, stop: nat) returns (x: Attempt)
    requires StagedScript(a)
    ensures ValidAttempt(x) && x.change == DiffChange(a.base, a.next) && AfterAttempt(d, x) == IpcSet(Upto(a.forward, stop), d)
  {
    hide DiffChange, Script, OrderOf, ValidChange;
    var c := DiffChange(a.base, a.next);
    var o :| OrderOf(o, c) && a.forward == Script(c, o);
    DiffChangeValid(a.base, a.next);
    var i := if stop < |a.forward| then stop else |a.forward|;
    assert Upto(a.forward, stop) == a.forward[..i];
    x := Attempt(c, o, i);
  }

  lemma FirstFailure(w: World, a: Staged, stop: nat)
    requires StagedScript(a) && HoldsRunning(w.e.device, w.e.run) && HoldsRunning(w.e.device, a.base)
    ensures TornFrom(IpcSet(Upto(a.forward, stop), w.e.device), w.e.run, [DiffChange(a.base, a.next)])
  {
    hide HoldsRunning, DiffChange, StagedScript, ValidAttempt, FromRunning, AfterAttempt;
    var x := StoppedScript(a, w.e.device, stop);
    HeldShareBase(w.e.device, a.base, w.e.run, a.next);
    var attempts := [x];
    assert attempts[1..] == [];
    assert AfterAttempts(w.e.device, attempts) == AfterAttempt(w.e.device, x);
    assert AttemptsOf(attempts, [DiffChange(a.base, a.next)]);
  }

  lemma FurtherFailure(d: Device, run: Running, changes: seq<Change>, a: Staged, stop: nat)
    requires StagedScript(a) && TornFrom(d, run, changes) && a.base == run
    ensures TornFrom(IpcSet(Upto(a.forward, stop), d), run, changes + [DiffChange(a.base, a.next)])
  {
    hide HoldsRunning, DiffChange, StagedScript, ValidAttempt, AfterAttempt, SameBase, FromRunning;
    var start, attempts :| HoldsRunning(start, run) && AttemptsOf(attempts, changes) && d == AfterAttempts(start, attempts);
    HeldShareBase(start, run, run, a.next);
    var x := StoppedScript(a, d, stop);
    AttemptsAppend(start, attempts, x);
    assert AttemptsOf(attempts + [x], changes + [DiffChange(a.base, a.next)]);
  }

  /** A whole script that puts the failures right. */
  lemma ScriptPutsRight(d: Device, run: Running, changes: seq<Change>, a: Staged)
    requires StagedScript(a) && TornFrom(d, run, changes) && a.base == run && !StaleExit(a.base, a.next)
    requires forall c :: c in changes ==> Harmless(c, DiffChange(a.base, a.next))
    ensures HoldsRunning(IpcSet(a.forward, d), a.next)
  {
    var start, attempts :| HoldsRunning(start, run) && AttemptsOf(attempts, changes) && d == AfterAttempts(start, attempts);
    var t := DiffChange(a.base, a.next);
    var o :| OrderOf(o, t) && a.forward == Script(t, o);
    DiffChangeValid(a.base, a.next);
    DiffRecoverable(start, a.base, a.next);
    DiffTarget(a.base, a.next);
    hide DiffChange, PlanOf, Recoverable, StaleExit, Harmless, SameBase, ValidAttempt, Script, OrderOf, ValidChange;
    forall x | x in attempts
      ensures ValidAttempt(x) && SameBase(x.change, t) && Harmless(x.change, t)
    {
      var j :| 0 <= j < |attempts| && attempts[j] == x;
      assert changes[j] in changes;
    }
    var key, port, mark := a.next.secrets.privateKey, a.next.cfg.listenPort, start.fwmark;
    AttemptsRecoverable(start, attempts, t, key, port, mark);
    ScriptReaches(d, t, o, key, port, mark);
  }

  lemma ApplyDevice(w: World, i: nat, stop: Option<nat>)
    requires DeviceOk(w) && i < |w.staged| && CanApply(w.e, w.staged[i])
    ensures var v, a := Step(w, Apply(i, stop)), w.staged[i];
      && (v.sync.InStep? ==> HoldsRunning(v.e.device, a.next) && v.e.run == a.next)
      && (v.sync.Torn? ==> v.e.run == w.e.run && TornFrom(v.e.device, v.e.run, v.sync.changes))
  {
    hide HoldsRunning, TornFrom, IpcSet, StaleExit, StagedScript, Harmless, DiffChange;
    var a := w.staged[i];
    assert StagedScript(a) && Based(w, a);
    if w.sync.Lost? {
      return;
    }
    if !Applies(w.e, a, stop) {
      if w.sync.InStep? {
        FirstFailure(w, a, stop.value);
        assert [] + [DiffChange(a.base, a.next)] == [DiffChange(a.base, a.next)];
      } else {
        FurtherFailure(w.e.device, w.e.run, w.sync.changes, a, stop.value);
      }
    } else if PutsRight(w.sync, a) {
      if w.sync.InStep? {
        StagedKeys(a);
        DiffHolds(w.e.device, a.base, a.next, a.forward);
      } else {
        ScriptPutsRight(w.e.device, w.e.run, w.sync.changes, a);
      }
    }
  }

  lemma ApplyKeepsDevice(w: World, i: nat, stop: Option<nat>)
    requires Ids(w) && Filters(w) && DeviceOk(w) && i < |w.staged|
    ensures DeviceOk(Step(w, Apply(i, stop)))
  {
    hide HoldsRunning, TornFrom, StaleExit, StagedScript, Harmless, DiffChange, PutsRight, IpcSet, SameFilter, Based;
    var v, a := Step(w, Apply(i, stop)), w.staged[i];
    assert StagedOk(w.e, a) && StagedScript(a);
    assert StagedScript(a.(applied := true)) by { ScriptKept(a); }
    if !CanApply(w.e, a) {
      assert v.e == w.e && v.staged == w.staged && v.sync == w.sync;
      assert v == w;
      return;
    }
    ApplyDevice(w, i, stop);
    StagedKeys(a);
    forall j | 0 <= j < |v.staged| && v.e.started && v.e.policy == Some(v.staged[j].oldPolicy)
      ensures Based(v, v.staged[j])
    {
      ApplyBased(w, i, stop, j);
    }
  }

  /** What was staged on the policy that is still installed is staged on what the engine runs. */
  lemma ApplyBased(w: World, i: nat, stop: Option<nat>, j: nat)
    requires Ids(w) && Filters(w) && DeviceOk(w) && i < |w.staged| && CanApply(w.e, w.staged[i]) && j < |w.staged|
    requires var v := Step(w, Apply(i, stop)); v.e.started && v.e.policy == Some(v.staged[j].oldPolicy)
    ensures var v := Step(w, Apply(i, stop)); Based(v, v.staged[j])
  {
    hide HoldsRunning, TornFrom, StaleExit, StagedScript, Harmless, DiffChange, PutsRight, IpcSet, SameFilter, Apart;
    var a := w.staged[i];
    assert StagedScript(a) && StagedOk(w.e, a) && StagedOk(w.e, w.staged[j]);
    StagedKeys(a);
    assert !a.filterTransition && !w.sync.Torn?;
    NothingScripted(w.e.device);
  }

  lemma NothingScripted(d: Device)
    ensures IpcSet([], d) == d
  {
  }

  lemma ScriptKept(a: Staged)
    requires StagedScript(a)
    ensures StagedScript(a.(applied := true))
  {
  }

  lemma StagedKeys(a: Staged)
    requires StagedScript(a)
    ensures a.base.secrets.privateKey.Some? && a.next.secrets.privateKey.Some?
    ensures ForwardOf(a.forward, a.base, a.next) && WellFormedPeers(a.next.cfg.peers)
  {
  }

  lemma StepKeepsDevice(w: World, ev: Event)
    requires Ids(w) && Filters(w) && DeviceOk(w) && Allowed(w, ev)
    ensures DeviceOk(Step(w, ev))
  {
    hide HoldsRunning, TornFrom, StaleExit, ForwardOf, WellFormedPeers;
    var v := Step(w, ev);
    match ev
    case Prepare(_, _, _, _) =>
      forall i | 0 <= i < |v.staged|
        ensures StagedScript(v.staged[i])
        ensures v.e.started && v.e.policy == Some(v.staged[i].oldPolicy) ==> Based(v, v.staged[i])
      {
        assert i < |w.staged| ==> v.staged[i] == w.staged[i] && (w.e.policy == Some(w.staged[i].oldPolicy) ==> Based(w, w.staged[i]));
      }
    case Apply(i, stop) => ApplyKeepsDevice(w, i, stop);
    case Commit(i) =>
      assert StagedOk(w.e, w.staged[i]);
      forall j | 0 <= j < |v.staged|
        ensures StagedScript(v.staged[j])
        ensures v.e.started && v.e.policy == Some(v.staged[j].oldPolicy) ==> Based(v, v.staged[j])
      {
        assert StagedOk(w.e, w.staged[j]);
        assert w.e.started && w.e.policy == Some(w.staged[j].oldPolicy) ==> Based(w, w.staged[j]);
      }
    case Close =>
  }

  // Runs

  ghost predicate Inv(w: World) {
    Ids(w) && Filters(w) && DeviceOk(w)
  }

  lemma StepKeepsInv(w: World, ev: Event)
    requires Inv(w) && Allowed(w, ev)
    ensures Inv(Step(w, ev))
  {
    hide Ids, Filters, DeviceOk, Step, ForwardOf, WellFormedPeers;
    match ev {
      case Prepare(_, _, _, _) => PrepareKeepsIds(w, ev);
      case Apply(i, stop) => ApplyKeepsIds(w, i, stop);
      case Commit(i) => CommitKeepsIds(w, i);
      case Close => CloseKeepsIds(w);
    }
    StepKeepsFilters(w, ev);
    StepKeepsDevice(w, ev);
  }

  lemma {:induction false} RunKeepsInv(w: World, events: seq<Event>, v: World)
    requires Inv(w) && Runs(w, events, v)
    ensures Inv(v)
    decreases |events|
  {
    hide Inv, Allowed, Step;
    if events != [] {
      StepKeepsInv(w, events[0]);
      RunKeepsInv(Step(w, events[0]), events[1..], v);
    }
  }

  lemma InitialInv(w: World)
    requires Initial(w)
    ensures Inv(w)
  {
  }

  ghost predicate Reachable(w: World) {
    exists start, events :: Initial(start) && Runs(start, events, w)
  }

  lemma ReachableInv(w: World)
    requires Reachable(w)
    ensures Inv(w)
  {
    hide Inv, Runs, Initial;
    var start, events :| Initial(start) && Runs(start, events, w);
    InitialInv(start);
    RunKeepsInv(start, events, w);
  }

  // Main results

  /** Of the transition-carrying applies staged on one policy at most one applies. */
  lemma AtMostOneApplies(w: World, i: nat, j: nat)
    requires Reachable(w) && i < |w.staged| && j < |w.staged|
    requires w.staged[i].filterTransition && w.staged[j].filterTransition
    requires w.staged[i].applied && w.staged[j].applied && i != j
    ensures w.staged[i].oldPolicy.id != w.staged[j].oldPolicy.id
  {
    hide Reachable;
    ReachableInv(w);
    if i < j {
      assert Apart(w.staged[i], w.staged[j]);
    } else {
      assert Apart(w.staged[j], w.staged[i]);
    }
  }

  /** A degraded engine lets nothing in. */
  lemma DegradedAdmitsNothing(w: World, f: Flow)
    requires Reachable(w) && w.e.degraded
    ensures w.e.installed.Some? && w.e.installed == w.e.policy && !PolicyAdmits(w.e.installed.value, f)
  {
    hide Reachable;
    ReachableInv(w);
  }

  /** A commit that carries a transition and succeeds leaves the policy of the running
      configuration and exit peer. */
  lemma CommitPublishesCurrent(w: World, i: nat)
    requires Reachable(w) && i < |w.staged| && w.staged[i].filterTransition && Commits(w.e, w.staged[i])
    ensures var e := AfterCommit(w.e, w.staged[i]);
      && e.installed == e.policy == Some(Policy(w.staged[i].final.id, e.config, e.run.exit, e.shieldsUp))
      && !e.degraded
  {
    hide Reachable;
    ReachableInv(w);
    assert StagedOk(w.e, w.staged[i]) && StagedCurrent(w.e, w.staged[i]);
  }

  /** An engine that runs and is not degraded lets in exactly what the configuration it runs
      grants, also after applies that installed no new policy. */
  lemma SettledAdmitsConfigured(w: World, f: Flow)
    requires Reachable(w) && w.e.started && !w.e.degraded
    ensures w.e.installed.Some?
    ensures PolicyAdmits(w.e.installed.value, f) <==> !w.e.shieldsUp && Granted(w.e.config, w.e.run.exit, f)
  {
    hide Reachable, Granted, SameFilter;
    ReachableInv(w);
    var p := w.e.policy.value;
    SameFilterMeans(p.cfg, p.exit, w.e.config, w.e.run.exit, f);
  }

  /** In step, the device holds exactly what the engine believes it runs. */
  lemma DeviceInStep(w: World)
    requires Reachable(w) && w.e.started && w.sync.InStep?
    ensures HoldsRunning(w.e.device, w.e.run)
  {
    hide Reachable;
    ReachableInv(w);
  }

  /** After any number of failed applies, an apply that succeeds leaves the device holding exactly what
      the engine then runs, provided its change puts right whatever the failed ones touched. By
      WireGuardRepair.RepairsExactly the provision is needed: without it the device depends on where the
      failed scripts stopped. */
  lemma LaterApplyRepairs(w: World, i: nat)
    requires Reachable(w) && i < |w.staged| && CanApply(w.e, w.staged[i]) && PutsRight(w.sync, w.staged[i])
    ensures var a, v := w.staged[i], Step(w, Apply(i, None));
      && v.sync.InStep? && v.e.config == a.config && v.e.run == a.next && HoldsRunning(v.e.device, a.next)
      && Commits(v.e, v.staged[i])
  {
    hide Reachable, HoldsRunning, StaleExit, ForwardOf, TornFrom, DiffChange, IpcSet;
    ReachableInv(w);
    ApplyDevice(w, i, None);
  }

  /** Staging the change that failed again is always such an apply. */
  lemma SameChangePutsRight(w: World, a: Staged)
    requires w.sync.Torn? && WellFormedPeers(a.next.cfg.peers) && !StaleExit(a.base, a.next)
    requires forall c :: c in w.sync.changes ==> c == DiffChange(a.base, a.next)
    ensures PutsRight(w.sync, a)
  {
    DiffChangeValid(a.base, a.next);
    HarmlessToItself(DiffChange(a.base, a.next));
  }

  // Reverting instead of retrying does not repair the device

  function Solo(): Peer {
    Peer("solo", Key(7), false, "", 0, [], [], false)
  }

  function Bare(own: Addr, peers: seq<Peer>): Running {
    Running(Config(1, "p", "example", [own], 0, [], peers), Secrets(Some(Key(9)), map[]), None)
  }

  lemma AddingSolo(own: Addr) returns (forward: seq<Op>)
    ensures ForwardOf(forward, Bare(own, []), Bare(own, [Solo()]))
    ensures forward != [] && forward[0] == PublicKey(Key(7))
  {
    var prev, next := Bare(own, []), Bare(own, [Solo()]);
    var c := DiffChange(prev, next);
    ByKeyFinds([Solo()], Solo());
    assert ByKey(prev.cfg.peers) == map[];
    assert ByKey(next.cfg.peers) == map[Key(7) := Solo()];
    assert c.write == {Key(7)} && c.removeFirst == {} && c.removeLast == {};
    var o := Order([], [Key(7)], [], map[Key(7) := []]);
    assert c.to[Key(7)].ips == {};
    assert OrderOf(o, c);
    forward := Script(c, o);
    assert Preamble(c) == [] && RemoveOps([]) == [];
    assert Blocks(o.write, c.to, o.lists) == Block(Key(7), c.to[Key(7)].state, []) + Blocks(o.write[1..], c.to, o.lists);
    assert forward == Blocks(o.write, c.to, o.lists);
  }

  lemma KeepingNone(own: Addr)
    ensures ForwardOf([], Bare(own, []), Bare(own, []))
  {
    var c := DiffChange(Bare(own, []), Bare(own, []));
    assert ByKey([]) == map[];
    var o := Order([], [], [], map[]);
    assert c.write == {} && c.removeFirst == {} && c.removeLast == {};
    assert OrderOf(o, c);
    assert Script(c, o) == [];
  }

  lemma {:induction false} RunsSnoc(w: World, events: seq<Event>, v: World, ev: Event)
    requires Runs(w, events, v) && Allowed(v, ev)
    ensures Runs(w, events + [ev], Step(v, ev))
    decreases |events|
  {
    hide Allowed, Step;
    if events == [] {
      assert Runs(Step(w, ev), [], Step(v, ev));
    } else {
      assert (events + [ev])[1..] == events[1..] + [ev];
      RunsSnoc(Step(w, events[0]), events[1..], v, ev);
    }
  }

  lemma ReachableStep(w: World, ev: Event)
    requires Reachable(w) && Allowed(w, ev)
    ensures Reachable(Step(w, ev))
  {
    hide Runs, Initial, Step, Allowed;
    var start, events :| Initial(start) && Runs(start, events, w);
    RunsSnoc(start, events, w, ev);
  }

  lemma EmptyStart(own: Addr) returns (w: World)
    ensures Reachable(w) && Ready(w.e) && !w.e.degraded && w.staged == []
    ensures w.e.run == Bare(own, [])
  {
    var none := Bare(own, []);
    var device := Device(Some(Key(9)), 0, 0, map[], map[]);
    w := World(AfterStart(NewEngine(none.cfg, none.secrets, false, false, device), none, device), [], InStep);
    assert ByKey([]) == map[];
    assert PlanOf(none) == map[];
    assert HoldsRunning(device, none);
    assert Initial(w);
    assert Runs(w, [], w);
  }

  lemma FailedAddition(own: Addr) returns (w: World)
    ensures Reachable(w) && Ready(w.e) && w.e.degraded && |w.staged| == 1
    ensures w.e.run == Bare(own, []) && Key(7) in w.e.device.peers
  {
    hide Reachable, Run, Exec, ForwardOf;
    var start := EmptyStart(own);
    var one := Bare(own, [Solo()]);
    var forward := AddingSolo(own);
    var add, fail := Prepare(one.cfg, one.cfg, one.secrets, forward), Apply(0, Some(1));
    assert WellFormedPeers(one.cfg.peers);
    assert Allowed(start, add);
    ReachableStep(start, add);
    var staged := Step(start, add);
    ReachableStep(staged, fail);
    w := Step(staged, fail);
    FailsAfterFirst(forward, start.e.device);
  }

  /** An apply that adds a peer fails on the device, and the previous configuration is applied
      again: the engine commits and reports no degradation, yet the device keeps the peer. */
  lemma RevertAfterFailureKeepsPeer(own: Addr) returns (w: World)
    ensures Reachable(w) && w.e.started && !w.e.degraded
    ensures w.e.run == Bare(own, []) && Key(7) in w.e.device.peers
    ensures !HoldsRunning(w.e.device, w.e.run)
  {
    hide Reachable, Run, Exec, ForwardOf;
    var torn := FailedAddition(own);
    var none := Bare(own, []);
    KeepingNone(own);
    var back, again, publish := Prepare(none.cfg, none.cfg, none.secrets, []), Apply(1, None), Commit(1);
    assert Allowed(torn, back);
    ReachableStep(torn, back);
    var staged := Step(torn, back);
    ReachableStep(staged, again);
    var applied := Step(staged, again);
    assert IpcSet([], torn.e.device) == torn.e.device by { RunNothing(torn.e.device); }
    ReachableStep(applied, publish);
    w := Step(applied, publish);
    assert PlanOf(none) == map[] by { assert ByKey([]) == map[]; }
  }

  lemma RunNothing(d: Device)
    ensures IpcSet([], d) == d
  {
  }

  lemma FailsAfterFirst(forward: seq<Op>, d: Device)
    requires forward != [] && forward[0] == PublicKey(Key(7))
    ensures IpcSet(Upto(forward, 1), d).peers.Keys == d.peers.Keys + {Key(7)}
  {
    assert Upto(forward, 1) == [PublicKey(Key(7))];
    var s := Session(d, None);
    assert Run([PublicKey(Key(7))], s) == Exec(PublicKey(Key(7)), s);
  }
}
