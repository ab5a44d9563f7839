/** The Darwin route reconciler over an abstract kernel. Any command may fail, which leaves the kernel as
    it was. `trace` records the kernel after every command. */
module DarwinRoutes {
  import opened Net

  datatype Route = Route(destination: Prefix, source: Addr, exit: bool, optional: bool)

  /** A default route bound to one interface of the host. */
  datatype Scoped = Scoped(v6: bool, interface: string, gateway: Option<Addr>)

  datatype Kernel = Kernel(addrs: set<Addr>, routes: map<Prefix, Addr>, scoped: set<Scoped>)

  datatype Want = Want(source: Addr, exit: bool, optional: bool)

  datatype Goal = Goal(addrs: set<Addr>, routes: map<Prefix, Want>, scoped: set<Scoped>)

  // Normalizing a configuration

  datatype Config = Config(localAddrs: seq<Prefix>, routes: seq<Route>)

  predicate IsHost(p: Prefix) {
    ValidPrefix(p) && p.bits == BitLen(p.v6)
  }

  predicate GoodRoute(r: Route, addrs: set<Addr>) {
    ValidPrefix(r.destination) && r.source.v6 == r.destination.v6 && r.source in addrs
  }

  ghost predicate Conflict(routes: seq<Route>) {
    exists r, s :: r in routes && s in routes && r.destination == s.destination && r != s
  }

  function WantOf(r: Route): Want {
    Want(r.source, r.exit, r.optional)
  }

  /** The addresses and routes of a configuration, or nothing if it is inconsistent. */
  method NormalizeConfig(cfg: Config) returns (r: Option<(set<Addr>, map<Prefix, Want>)>)
    ensures r.Some? ==>
      && (forall a: Addr :: a in r.value.0 <==> HostPrefix(a) in cfg.localAddrs)
      && (forall route :: route in cfg.routes ==>
            && ValidPrefix(route.destination) && route.source.v6 == route.destination.v6 && route.source in r.value.0
            && route.destination in r.value.1
            && var want := r.value.1[route.destination];
               want.source == route.source && (want.exit <==> route.exit) && (want.optional <==> route.optional))
      && (forall d :: d in r.value.1 ==> exists route :: route in cfg.routes && route.destination == d)
      && (forall d :: d in r.value.1 ==> r.value.1[d].source in r.value.0)
    ensures r.None? ==>
      || (exists p :: p in cfg.localAddrs && !IsHost(p))
      || (exists route :: route in cfg.routes && (!ValidPrefix(route.destination) || route.source.v6 != route.destination.v6
            || HostPrefix(route.source) !in cfg.localAddrs))
      || Conflict(cfg.routes)
  {
    var addrs: set<Addr> := {};
    for i := 0 to |cfg.localAddrs|
      invariant forall a: Addr :: a in addrs <==> HostPrefix(a) in cfg.localAddrs[..i]
    {
      assert cfg.localAddrs[..i + 1] == cfg.localAddrs[..i] + [cfg.localAddrs[i]];
      var p := cfg.localAddrs[i];
      if !IsHost(p) {
        assert p in cfg.localAddrs;
        return None;
      }
      var a: Addr := Address(p.v6, p.top);
      assert HostPrefix(a) == p;
      addrs := addrs + {a};
    }
    assert cfg.localAddrs[..|cfg.localAddrs|] == cfg.localAddrs;
    var routes: map<Prefix, Want> := map[];
    for i := 0 to |cfg.routes|
      invariant forall route :: route in cfg.routes[..i] ==>
        GoodRoute(route, addrs) && route.destination in routes && routes[route.destination] == WantOf(route)
      invariant forall d :: d in routes ==> exists route :: route in cfg.routes[..i] && route.destination == d
      invariant forall d :: d in routes ==> routes[d].source in addrs
    {
      assert cfg.routes[..i + 1] == cfg.routes[..i] + [cfg.routes[i]];
      var route := cfg.routes[i];
      assert route in cfg.routes;
      if !GoodRoute(route, addrs) {
        return None;
      }
      if route.destination in routes && routes[route.destination] != WantOf(route) {
        ghost var other :| other in cfg.routes[..i] && other.destination == route.destination;
        assert other in cfg.routes && other != route;
        return None;
      }
      routes := routes[route.destination := WantOf(route)];
    }
    assert cfg.routes[..|cfg.routes|] == cfg.routes;
    r := Some((addrs, routes));
  }

  /** The physical default route of a family, as the host has it. */
  datatype Underlay = Underlay(interface: string, gateway: Option<Addr>)

  ghost predicate WantsExit(routes: map<Prefix, Want>) {
    exists d :: d in routes && routes[d].exit
  }

  /** One scoped default per family that has a physical one, if any exit route is wanted at all. It
      fails when exit routes are wanted and no family has one. */
  method DesiredScopedDefaults(routes: map<Prefix, Want>, underlay: bool -> Option<Underlay>) returns (r: Option<set<Scoped>>)
    ensures r.None? <==> WantsExit(routes) && underlay(false).None? && underlay(true).None?
    ensures r.Some? ==> forall s :: s in r.value <==> WantsExit(routes) && underlay(s.v6) == Some(Underlay(s.interface, s.gateway))
  {
    var exit := exists d :: d in routes && routes[d].exit;
    if !exit {
      return Some({});
    }
    var defaults: set<Scoped> := {};
    var four, six := underlay(false), underlay(true);
    if four.Some? {
      defaults := defaults + {Scoped(false, four.value.interface, four.value.gateway)};
    }
    if six.Some? {
      defaults := defaults + {Scoped(true, six.value.interface, six.value.gateway)};
    }
    r := if defaults == {} then None else Some(defaults);
  }

  // What is safe at every step

  predicate Optional(goal: Goal, d: Prefix) {
    d in goal.routes && goal.routes[d].optional
  }

  /** Every route that is not optional has its source address. */
  ghost predicate Sourced(k: Kernel, goal: Goal) {
    forall d :: d in k.routes && !Optional(goal, d) ==> k.routes[d] in k.addrs
  }

  /** No route carries exit traffic: by the new configuration if that has it, else by the old one. */
  ghost predicate NoExit(k: Kernel, goal: Goal, oldExit: set<Prefix>) {
    forall d :: d in k.routes ==> if d in goal.routes then !goal.routes[d].exit else d !in oldExit
  }

  /** Exit routes stand only on the untouched old or the complete new scoped defaults. */
  ghost predicate Safe(k: Kernel, goal: Goal, oldScoped: set<Scoped>, oldExit: set<Prefix>) {
    Sourced(k, goal) && (NoExit(k, goal, oldExit) || k.scoped == oldScoped || k.scoped == goal.scoped)
  }

  predicate GoalOk(goal: Goal) {
    && (forall d :: d in goal.routes ==> goal.routes[d].source in goal.addrs)
    && (forall d :: d in goal.routes && goal.routes[d].exit ==> !goal.routes[d].optional)
  }

  function Sources(routes: map<Prefix, Want>): map<Prefix, Addr> {
    map d | d in routes :: routes[d].source
  }

  predicate Converged(k: Kernel, goal: Goal) {
    k == Kernel(goal.addrs, Sources(goal.routes), goal.scoped)
  }

  /** What the final check accepts. */
  ghost predicate Verified(k: Kernel, goal: Goal) {
    && k.addrs == goal.addrs && k.scoped == goal.scoped
    && (forall d :: d in k.routes ==> d in goal.routes && (goal.routes[d].optional || k.routes[d] == goal.routes[d].source))
    && (forall d :: d in goal.routes && !goal.routes[d].optional ==> d in k.routes)
  }

  /** The installed route is already what is wanted. */
  predicate Right(k: Kernel, goal: Goal, d: Prefix) {
    d in k.routes && d in goal.routes && k.routes[d] == goal.routes[d].source
  }

  class Host {
    var kernel: Kernel
    ghost var failed: bool
    ghost var trace: seq<Kernel>

    ghost predicate Watched(goal: Goal, oldScoped: set<Scoped>, oldExit: set<Prefix>)
      reads this
    {
      Safe(kernel, goal, oldScoped, oldExit) && forall i :: 0 <= i < |trace| ==> Safe(trace[i], goal, oldScoped, oldExit)
    }

    constructor (k: Kernel)
      ensures kernel == k && trace == [] && !failed
    {
      kernel, trace, failed := k, [], false;
    }

    /** One command: it takes the kernel to `next` or fails. */
    method Command(next: Kernel) returns (ok: bool)
      modifies this
      ensures kernel == if ok then next else old(kernel)
      ensures trace == old(trace) + [kernel] && failed == (old(failed) || !ok)
    {
      ok := *;
      if ok {
        kernel := next;
      } else {
        failed := true;
      }
      trace := trace + [kernel];
    }

    /** Routes that are not wanted, or stand on scoped defaults that will change, go first. */
    method RemoveRoutes(goal: Goal, changed: bool, ghost oldExit: set<Prefix>) returns (ok: bool)
      requires GoalOk(goal) && Watched(goal, kernel.scoped, oldExit)
      modifies this
      ensures Watched(goal, old(kernel).scoped, oldExit) && Only(old(kernel), kernel.(addrs := old(kernel).addrs, scoped := old(kernel).scoped))
      ensures kernel.addrs == old(kernel).addrs && kernel.scoped == old(kernel).scoped
      ensures ok ==> forall d :: d in kernel.routes ==> Keep(kernel, goal, changed, d) || Optional(goal, d)
      ensures (!ok ==> failed) && (old(failed) ==> failed)
      ensures !failed ==> forall d :: d in kernel.routes <==> Keep(old(kernel), goal, changed, d)
      ensures (forall d :: d in old(kernel).routes ==> Keep(old(kernel), goal, changed, d)) ==> ok && trace == old(trace) && kernel == old(kernel)
    {
      var left := kernel.routes.Keys;
      while left != {}
        invariant Watched(goal, old(kernel).scoped, oldExit)
        invariant kernel.addrs == old(kernel).addrs && kernel.scoped == old(kernel).scoped && Only(old(kernel), kernel)
        invariant left <= kernel.routes.Keys
        invariant forall d :: d in kernel.routes && d !in left ==> Keep(kernel, goal, changed, d) || Optional(goal, d)
        invariant old(failed) ==> failed
        invariant !failed ==> forall d :: d in kernel.routes && d !in left ==> Keep(kernel, goal, changed, d)
        invariant forall d :: Keep(old(kernel), goal, changed, d) ==> d in kernel.routes
        invariant (forall d :: d in old(kernel).routes ==> Keep(old(kernel), goal, changed, d)) ==> trace == old(trace) && kernel == old(kernel)
      {
        var d :| d in left;
        left := left - {d};
        if Keep(kernel, goal, changed, d) {
          continue;
        }
        var done := Command(kernel.(routes := kernel.routes - {d}));
        if !done && !Optional(goal, d) {
          return false;
        }
      }
      ok := true;
    }

    /** Scoped defaults that are not wanted go, with no exit route left that they carry. */
    method RemoveScoped(goal: Goal, ghost oldScoped: set<Scoped>, ghost oldExit: set<Prefix>) returns (ok: bool)
      requires Watched(goal, oldScoped, oldExit) && (NoExit(kernel, goal, oldExit) || kernel.scoped == goal.scoped)
      modifies this
      ensures Watched(goal, oldScoped, oldExit) && kernel == old(kernel).(scoped := kernel.scoped)
      ensures ok ==> kernel.scoped == old(kernel).scoped * goal.scoped
      ensures (!ok ==> failed) && (old(failed) ==> failed)
      ensures old(kernel).scoped <= goal.scoped ==> ok && trace == old(trace)
    {
      var left := kernel.scoped - goal.scoped;
      while left != {}
        invariant Watched(goal, oldScoped, oldExit) && kernel == old(kernel).(scoped := kernel.scoped)
        invariant kernel.scoped == (old(kernel).scoped * goal.scoped) + left && left !! goal.scoped
        invariant old(failed) ==> failed
        invariant old(kernel).scoped <= goal.scoped ==> trace == old(trace)
      {
        var s :| s in left;
        assert NoExit(kernel, goal, oldExit);
        var done := Command(kernel.(scoped := kernel.scoped - {s}));
        if !done {
          return false;
        }
        left := left - {s};
      }
      ok := true;
    }

    /** Addresses that are not wanted go, with no route left that needs them. */
    method RemoveAddrs(goal: Goal, ghost oldScoped: set<Scoped>, ghost oldExit: set<Prefix>) returns (ok: bool)
      requires Watched(goal, oldScoped, oldExit)
      requires forall d :: d in kernel.routes && !Optional(goal, d) ==> kernel.routes[d] in goal.addrs
      modifies this
      ensures Watched(goal, oldScoped, oldExit) && kernel == old(kernel).(addrs := kernel.addrs)
      ensures ok ==> kernel.addrs == old(kernel).addrs * goal.addrs
      ensures (!ok ==> failed) && (old(failed) ==> failed)
      ensures old(kernel).addrs <= goal.addrs ==> ok && trace == old(trace)
    {
      var left := kernel.addrs - goal.addrs;
      while left != {}
        invariant Watched(goal, oldScoped, oldExit) && kernel == old(kernel).(addrs := kernel.addrs)
        invariant kernel.addrs == (old(kernel).addrs * goal.addrs) + left && left !! goal.addrs
        invariant old(failed) ==> failed
        invariant old(kernel).addrs <= goal.addrs ==> trace == old(trace)
      {
        var a :| a in left;
        var done := Command(kernel.(addrs := kernel.addrs - {a}));
        if !done {
          return false;
        }
        left := left - {a};
      }
      ok := true;
    }

    method AddAddrs(goal: Goal, ghost oldScoped: set<Scoped>, ghost oldExit: set<Prefix>) returns (ok: bool)
      requires Watched(goal, oldScoped, oldExit)
      modifies this
      ensures Watched(goal, oldScoped, oldExit) && kernel == old(kernel).(addrs := kernel.addrs)
      ensures ok ==> kernel.addrs == old(kernel).addrs + goal.addrs
      ensures (!ok ==> failed) && (old(failed) ==> failed)
      ensures goal.addrs <= old(kernel).addrs ==> ok && trace == old(trace)
    {
      var left := goal.addrs - kernel.addrs;
      while left != {}
        invariant Watched(goal, oldScoped, oldExit) && kernel == old(kernel).(addrs := kernel.addrs)
        invariant kernel.addrs + left == old(kernel).addrs + goal.addrs
        invariant old(failed) ==> failed
        invariant goal.addrs <= old(kernel).addrs ==> trace == old(trace) && left == {}
      {
        var a :| a in left;
        var done := Command(kernel.(addrs := kernel.addrs + {a}));
        if !done {
          return false;
        }
        left := left - {a};
      }
      ok := true;
    }

    method AddScoped(goal: Goal, ghost oldScoped: set<Scoped>, ghost oldExit: set<Prefix>) returns (ok: bool)
      requires Watched(goal, oldScoped, oldExit) && (NoExit(kernel, goal, oldExit) || kernel.scoped == goal.scoped)
      modifies this
      ensures Watched(goal, oldScoped, oldExit) && kernel == old(kernel).(scoped := kernel.scoped)
      ensures ok ==> kernel.scoped == old(kernel).scoped + goal.scoped
      ensures (!ok ==> failed) && (old(failed) ==> failed)
      ensures goal.scoped <= old(kernel).scoped ==> ok && trace == old(trace)
    {
      var left := goal.scoped - kernel.scoped;
      while left != {}
        invariant Watched(goal, oldScoped, oldExit) && kernel == old(kernel).(scoped := kernel.scoped)
        invariant kernel.scoped + left == old(kernel).scoped + goal.scoped
        invariant left != {} ==> NoExit(kernel, goal, oldExit)
        invariant old(failed) ==> failed
        invariant goal.scoped <= old(kernel).scoped ==> trace == old(trace) && left == {}
      {
        var s :| s in left;
        var done := Command(kernel.(scoped := kernel.scoped + {s}));
        if !done {
          return false;
        }
        left := left - {s};
      }
      ok := true;
    }

    /** Wanted routes come last, when their sources and the new scoped defaults are all there. */
    method AddRoutes(goal: Goal, ghost oldScoped: set<Scoped>, ghost oldExit: set<Prefix>) returns (ok: bool)
      requires GoalOk(goal) && Watched(goal, oldScoped, oldExit) && kernel.addrs == goal.addrs && kernel.scoped == goal.scoped
      requires forall d :: d in kernel.routes ==> Right(kernel, goal, d) || Optional(goal, d)
      modifies this
      ensures Watched(goal, oldScoped, oldExit) && kernel == old(kernel).(routes := kernel.routes)
      ensures forall d :: d in kernel.routes ==> Right(kernel, goal, d) || Optional(goal, d)
      ensures ok ==> forall d :: d in goal.routes && !goal.routes[d].optional ==> d in kernel.routes
      ensures (!ok ==> failed) && (old(failed) ==> failed)
      ensures !failed ==> forall d :: d in goal.routes ==> Right(kernel, goal, d)
      ensures (forall d :: d in goal.routes ==> Right(old(kernel), goal, d)) ==> ok && trace == old(trace) && kernel == old(kernel)
    {
      var left := goal.routes.Keys;
      while left != {}
        invariant left <= goal.routes.Keys
        invariant Watched(goal, oldScoped, oldExit) && kernel == old(kernel).(routes := kernel.routes)
        invariant forall d :: d in kernel.routes ==> Right(kernel, goal, d) || Optional(goal, d)
        invariant forall d :: d in goal.routes && d !in left && !goal.routes[d].optional ==> d in kernel.routes
        invariant old(failed) ==> failed
        invariant !failed ==> forall d :: d in goal.routes && d !in left ==> Right(kernel, goal, d)
        invariant (forall d :: d in goal.routes ==> Right(old(kernel), goal, d)) ==> trace == old(trace) && kernel == old(kernel)
      {
        var d :| d in left;
        left := left - {d};
        if Right(kernel, goal, d) {
          continue;
        }
        var done := Command(kernel.(routes := kernel.routes[d := goal.routes[d].source]));
        if !done && !goal.routes[d].optional {
          return false;
        }
      }
      ok := true;
    }

    /** A reconciliation. At every step, failures included, routes have their sources and exit routes
        their scoped defaults. Without a failure it converges, and then a further call issues no
        command. */
    method Configure(goal: Goal, ghost oldExit: set<Prefix>) returns (ok: bool)
      requires GoalOk(goal) && Sourced(kernel, goal)
      modifies this
      ensures forall i :: 0 <= i < |trace| ==> Safe(trace[i], goal, old(kernel).scoped, oldExit)
      ensures Safe(kernel, goal, old(kernel).scoped, oldExit)
      ensures ok ==> Verified(kernel, goal)
      ensures !failed ==> ok && Converged(kernel, goal)
      ensures Converged(old(kernel), goal) ==> ok && kernel == old(kernel) && trace == []
    {
      trace, failed := [], false;
      ghost var start := kernel;
      var changed := kernel.scoped != goal.scoped;
      ok := RemoveRoutes(goal, changed, oldExit);
      if ok {
        RoutesRemain(start, kernel, goal, changed, oldExit);
        ok := Replace(goal, changed, start.scoped, oldExit);
      }
    }

    method Replace(goal: Goal, changed: bool, ghost oldScoped: set<Scoped>, ghost oldExit: set<Prefix>) returns (ok: bool)
      requires GoalOk(goal) && Watched(goal, oldScoped, oldExit) && (NoExit(kernel, goal, oldExit) || kernel.scoped == goal.scoped)
      requires forall d :: d in kernel.routes ==> Right(kernel, goal, d) || Optional(goal, d)
      modifies this
      ensures Watched(goal, oldScoped, oldExit)
      ensures ok ==> Verified(kernel, goal)
      ensures (!ok ==> failed) && (old(failed) ==> failed)
      ensures !failed ==> Converged(kernel, goal)
      ensures Converged(old(kernel), goal) ==> ok && trace == old(trace) && kernel == old(kernel)
    {
      ok := RemoveScoped(goal, oldScoped, oldExit);
      if !ok {
        return;
      }
      ok := RemoveAddrs(goal, oldScoped, oldExit);
      if !ok {
        return;
      }
      ok := AddAddrs(goal, oldScoped, oldExit);
      if !ok {
        return;
      }
      ok := AddScoped(goal, oldScoped, oldExit);
      if !ok {
        return;
      }
      ok := AddRoutes(goal, oldScoped, oldExit);
    }
  }

  predicate Keep(k: Kernel, goal: Goal, changed: bool, d: Prefix) {
    Right(k, goal, d) && !(goal.routes[d].exit && changed)
  }

  /** `l` has some of the routes of `k`. */
  predicate Only(k: Kernel, l: Kernel) {
    forall d :: d in l.routes ==> d in k.routes && l.routes[d] == k.routes[d]
  }

  lemma RoutesRemain(start: Kernel, k: Kernel, goal: Goal, changed: bool, oldExit: set<Prefix>)
    requires GoalOk(goal) && changed == (start.scoped != goal.scoped) && k.scoped == start.scoped
    requires forall d :: d in k.routes ==> Keep(k, goal, changed, d) || Optional(goal, d)
    ensures NoExit(k, goal, oldExit) || k.scoped == goal.scoped
    ensures forall d :: d in k.routes ==> Right(k, goal, d) || Optional(goal, d)
  {
  }
}
