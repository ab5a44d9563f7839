/** The routing policy for subnets: bound routes, accept-all imports and how they override. */
module RoutePolicy {
  import opened Net
  import opened AddressPlan
  import Text

  datatype RouteStatus = RouteStatus(prefix: Prefix, router: string)

  datatype Target = Target(id: string, ips: seq<Addr>)

  datatype Status = Status(id: string, running: bool, selfIPs: seq<Addr>, targets: seq<Target>, routes: seq<RouteStatus>)

  datatype Profile = Profile(id: string, removed: bool, disabled: bool, acceptAll: bool)

  datatype Binding = Binding(prefix: Prefix, profile: string)

  datatype Reason = NoReason | Unavailable | NotAdvertised | HostConflict | Ambiguous | ExplicitOverride | PartialOverride

  datatype IPEntry = IPEntry(prefix: Prefix, profile: string, active: bool, reason: Reason, router: string)

  /** What the state reserves for tailmix itself. */
  datatype Env = Env(pool4: Prefix, pool6: Prefix, nat4: Option<Addr>, nat6: Option<Addr>, dns: Option<Addr>)

  /** 100.64.0.0/10 */
  const CGNAT := Prefix(false, 10, 401)

  /** fd7a:115c:a1e0::/48 */
  const ULA := Prefix(true, 48, 0xfd7a_115c_a1e0)

  predicate Holds(p: Prefix, a: Option<Addr>) {
    a.Some? && Contains(p, a.value)
  }

  /** The test of the policy. */
  predicate Reserved(env: Env, p: Prefix) {
    || Overlap(p, CGNAT) || Overlap(p, ULA)
    || Overlap(p, env.pool4) || Overlap(p, env.pool6)
    || Holds(p, env.nat4) || Holds(p, env.nat6)
  }

  /** The test of the table builder, which also looks at the DNS addresses. */
  predicate ReservedForTable(env: Env, p: Prefix) {
    Reserved(env, p) || Holds(p, env.dns) || Contains(p, SERVICE)
  }

  // Which profile offers what

  function StatusOf(statuses: seq<Status>, id: string): Option<Status> {
    if statuses == [] then None
    else
      var last := statuses[|statuses| - 1];
      if last.id == id then Some(last) else StatusOf(statuses[..|statuses| - 1], id)
  }

  function ProfileOf(profiles: seq<Profile>, id: string): Option<Profile> {
    if profiles == [] then None
    else
      var last := profiles[|profiles| - 1];
      if last.id == id then Some(last) else ProfileOf(profiles[..|profiles| - 1], id)
  }

  predicate Available(statuses: seq<Status>, p: Profile) {
    !p.removed && !p.disabled && StatusOf(statuses, p.id).Some? && StatusOf(statuses, p.id).value.running
  }

  predicate Usable(p: Prefix) {
    ValidPrefix(p) && p.bits != 0
  }

  predicate Offers(s: Status, x: Prefix) {
    Usable(x) && InRoutes(s.routes, x)
  }

  /** An available accept-all profile advertises the prefix. */
  ghost predicate Advertises(profiles: seq<Profile>, statuses: seq<Status>, id: string, x: Prefix) {
    exists p :: p in profiles && p.id == id && p.acceptAll && Available(statuses, p) && Offers(StatusOf(statuses, id).value, x)
  }

  ghost predicate Sole(profiles: seq<Profile>, statuses: seq<Status>, id: string, x: Prefix) {
    Advertises(profiles, statuses, id, x) && forall other :: Advertises(profiles, statuses, other, x) ==> other == id
  }

  ghost predicate Advertised(profiles: seq<Profile>, statuses: seq<Status>, x: Prefix) {
    exists id :: Advertises(profiles, statuses, id, x)
  }

  // The same over the lists as they are

  /** The last status of the profile, which is running. */
  predicate RunningAt(statuses: seq<Status>, i: nat, id: string) {
    && i < |statuses| && statuses[i].id == id && statuses[i].running
    && forall j :: i < j < |statuses| ==> statuses[j].id != id
  }

  lemma {:induction false} StatusIsLast(statuses: seq<Status>, id: string)
    ensures StatusOf(statuses, id).Some? && StatusOf(statuses, id).value.running <==> exists i: nat :: RunningAt(statuses, i, id)
    ensures forall i: nat :: RunningAt(statuses, i, id) ==> StatusOf(statuses, id) == Some(statuses[i])
  {
    if statuses != [] {
      var n := |statuses| - 1;
      StatusIsLast(statuses[..n], id);
      if statuses[n].id == id {
        assert statuses[n].running ==> RunningAt(statuses, n, id);
      } else {
        forall i: nat
          ensures RunningAt(statuses, i, id) <==> RunningAt(statuses[..n], i, id)
        {
        }
      }
    }
  }

  /** A profile that accepts all and is neither removed nor disabled advertises what the routes of its
      running status list, except for default routes. */
  lemma AdvertisesExactly(profiles: seq<Profile>, statuses: seq<Status>, id: string, x: Prefix)
    ensures Advertises(profiles, statuses, id, x) <==>
      && ValidPrefix(x) && x.bits > 0
      && (exists p :: p in profiles && p.id == id && p.acceptAll && !p.removed && !p.disabled)
      && exists i: nat :: RunningAt(statuses, i, id) && exists r :: r in statuses[i].routes && r.prefix == x
  {
    StatusIsLast(statuses, id);
    hide StatusOf;
    if Advertises(profiles, statuses, id, x) {
      var i: nat :| RunningAt(statuses, i, id);
      var j :| 0 <= j < |statuses[i].routes| && statuses[i].routes[j].prefix == x;
      assert statuses[i].routes[j] in statuses[i].routes;
    }
    if i: nat :| RunningAt(statuses, i, id) && exists r :: r in statuses[i].routes && r.prefix == x {
      var r :| r in statuses[i].routes && r.prefix == x;
      assert InRoutes(statuses[i].routes, x);
    }
  }

  // Bound routes

  /** The longest usable route that covers the prefix. */
  method CoveringIPRoute(prefix: Prefix, routes: seq<RouteStatus>) returns (best: Option<RouteStatus>)
    requires ValidPrefix(prefix)
    ensures best.Some? ==> best.value in routes && Usable(best.value.prefix) && Within(prefix, best.value.prefix)
    ensures forall r :: r in routes && Usable(r.prefix) && Within(prefix, r.prefix) ==>
      best.Some? && r.prefix.bits <= best.value.prefix.bits
  {
    best := None;
    for i := 0 to |routes|
      invariant best.Some? ==> best.value in routes && Usable(best.value.prefix) && Within(prefix, best.value.prefix)
      invariant forall r :: r in routes[..i] && Usable(r.prefix) && Within(prefix, r.prefix) ==>
        best.Some? && r.prefix.bits <= best.value.prefix.bits
    {
      assert routes[..i + 1] == routes[..i] + [routes[i]];
      var candidate := routes[i].prefix;
      if candidate.bits <= prefix.bits {
        ContainsNetworkAddr(candidate, prefix);
      }
      if !Usable(candidate) || candidate.v6 != prefix.v6 || !Contains(candidate, NetworkAddr(prefix)) || candidate.bits > prefix.bits {
        continue;
      }
      if best.None? || candidate.bits > best.value.prefix.bits {
        best := Some(routes[i]);
      }
    }
    assert routes[..|routes|] == routes;
  }

  ghost predicate Covered(routes: seq<RouteStatus>, x: Prefix) {
    exists r :: r in routes && Usable(r.prefix) && Within(x, r.prefix)
  }

  /** A bound route is in force: its profile is there and advertises it, and nothing reserves it. */
  ghost predicate BindingActive(env: Env, profiles: seq<Profile>, statuses: seq<Status>, b: Binding) {
    var p := ProfileOf(profiles, b.profile);
    && p.Some? && Available(statuses, p.value.(id := b.profile))
    && Covered(StatusOf(statuses, b.profile).value.routes, b.prefix)
    && !Reserved(env, b.prefix)
  }

  /** The last profile of the identifier, neither removed nor disabled. */
  predicate EnabledAt(profiles: seq<Profile>, i: nat, id: string) {
    && i < |profiles| && profiles[i].id == id && !profiles[i].removed && !profiles[i].disabled
    && forall j :: i < j < |profiles| ==> profiles[j].id != id
  }

  lemma {:induction false} ProfileIsLast(profiles: seq<Profile>, id: string)
    ensures ProfileOf(profiles, id).Some? && !ProfileOf(profiles, id).value.removed && !ProfileOf(profiles, id).value.disabled
        <==> exists i: nat :: EnabledAt(profiles, i, id)
  {
    if profiles != [] {
      var n := |profiles| - 1;
      ProfileIsLast(profiles[..n], id);
      if profiles[n].id == id {
        assert !profiles[n].removed && !profiles[n].disabled ==> EnabledAt(profiles, n, id);
      } else {
        forall i: nat
          ensures EnabledAt(profiles, i, id) <==> EnabledAt(profiles[..n], i, id)
        {
        }
      }
    }
  }

  /** A bound route is in force exactly when its profile is enabled and runs, some route of the status that
      is no default route contains the prefix, and nothing reserves it. */
  lemma BindingExactly(env: Env, profiles: seq<Profile>, statuses: seq<Status>, b: Binding)
    requires ValidPrefix(b.prefix)
    ensures BindingActive(env, profiles, statuses, b) <==>
      && (exists i: nat :: EnabledAt(profiles, i, b.profile))
      && (exists i: nat :: RunningAt(statuses, i, b.profile) && exists r ::
            r in statuses[i].routes && ValidPrefix(r.prefix) && 0 < r.prefix.bits <= b.prefix.bits && Contains(r.prefix, NetworkAddr(b.prefix)))
      && !Reserved(env, b.prefix)
  {
    ProfileIsLast(profiles, b.profile);
    StatusIsLast(statuses, b.profile);
    hide StatusOf, ProfileOf, Reserved;
    forall r: RouteStatus | r.prefix.bits <= b.prefix.bits
      ensures Contains(r.prefix, NetworkAddr(b.prefix)) <==> Within(b.prefix, r.prefix)
    {
      ContainsNetworkAddr(r.prefix, b.prefix);
    }
    hide Contains, ValidPrefix, NetworkAddr;
  }

  method BindEntry(env: Env, profiles: seq<Profile>, statuses: seq<Status>, b: Binding) returns (e: IPEntry)
    requires ValidPrefix(b.prefix)
    ensures e.prefix == b.prefix && e.profile == b.profile
    ensures e.active <==> BindingActive(env, profiles, statuses, b)
    ensures e.active <==> e.reason == NoReason
  {
    e := IPEntry(b.prefix, b.profile, false, NoReason, "");
    var p := ProfileOf(profiles, b.profile);
    var status := StatusOf(statuses, b.profile);
    if p.None? || p.value.removed || p.value.disabled || status.None? || !status.value.running {
      e := e.(reason := Unavailable);
    } else {
      var cover := CoveringIPRoute(b.prefix, status.value.routes);
      if cover.None? {
        e := e.(reason := NotAdvertised);
      } else {
        e := e.(active := true, router := cover.value.router);
      }
    }
    if Reserved(env, b.prefix) {
      e := e.(active := false, reason := HostConflict);
    }
  }

  // Accept-all imports

  predicate Distinct(candidates: seq<IPEntry>) {
    forall i, j :: 0 <= i < j < |candidates| ==> candidates[i].profile != candidates[j].profile
  }

  /** The entries of one prefix, one per profile. */
  ghost predicate Candidates(env: Env, x: Prefix, candidates: seq<IPEntry>) {
    && Distinct(candidates) && candidates != []
    && forall c :: c in candidates ==> c.prefix == x && c.active == !Reserved(env, x) && c.reason == if c.active then NoReason else HostConflict
  }

  ghost predicate HasProfile(candidates: seq<IPEntry>, id: string) {
    exists i :: 0 <= i < |candidates| && candidates[i].profile == id
  }

  /** A named router replaces none, and an earlier name a later one. */
  predicate Prefers(entry: IPEntry, candidate: IPEntry) {
    candidate.router == "" || (entry.router != "" && Text.Less(entry.router, candidate.router))
  }

  method AddIPCandidate(env: Env, candidates: seq<IPEntry>, entry: IPEntry) returns (r: seq<IPEntry>)
    requires candidates == [] || Candidates(env, entry.prefix, candidates)
    requires entry.active == !Reserved(env, entry.prefix) && entry.reason == if entry.active then NoReason else HostConflict
    ensures Candidates(env, entry.prefix, r)
    ensures forall id :: HasProfile(r, id) <==> HasProfile(candidates, id) || id == entry.profile
    ensures forall i :: 0 <= i < |candidates| && candidates[i].profile == entry.profile ==>
      r == candidates[i := if Prefers(entry, candidates[i]) then entry else candidates[i]]
    ensures !HasProfile(candidates, entry.profile) ==> r == candidates + [entry]
  {
    for i := 0 to |candidates|
      invariant forall j :: 0 <= j < i ==> candidates[j].profile != entry.profile
    {
      if candidates[i].profile != entry.profile {
        continue;
      }
      r := candidates;
      if Prefers(entry, candidates[i]) {
        r := candidates[i := entry];
      }
      assert forall j :: 0 <= j < |candidates| && candidates[j].profile == entry.profile ==> j == i;
      assert r[i].profile == entry.profile;
      forall id
        ensures HasProfile(r, id) <==> HasProfile(candidates, id) || id == entry.profile
      {
        if HasProfile(candidates, id) {
          var j :| 0 <= j < |candidates| && candidates[j].profile == id;
          assert r[j].profile == id;
        }
      }
      return;
    }
    r := candidates + [entry];
    forall id
      ensures HasProfile(r, id) <==> HasProfile(candidates, id) || id == entry.profile
    {
      if HasProfile(candidates, id) {
        var j :| 0 <= j < |candidates| && candidates[j].profile == id;
        assert r[j].profile == id;
      }
      assert r[|candidates|].profile == entry.profile;
    }
  }

  type CandidateMap = map<Prefix, seq<IPEntry>>

  ghost predicate Collected(env: Env, m: CandidateMap) {
    forall x :: x in m ==> Candidates(env, x, m[x])
  }

  ghost predicate Has(m: CandidateMap, id: string, x: Prefix) {
    x in m && HasProfile(m[x], id)
  }

  predicate InRoutes(routes: seq<RouteStatus>, x: Prefix) {
    exists i :: 0 <= i < |routes| && routes[i].prefix == x
  }

  /** The least of the named routers that advertise the prefix, if any of them has a name. */
  ghost predicate BestRouter(routes: seq<RouteStatus>, x: Prefix, router: string) {
    && (exists j :: 0 <= j < |routes| && routes[j].prefix == x && routes[j].router == router)
    && forall j :: 0 <= j < |routes| && routes[j].prefix == x && routes[j].router != "" ==>
         router != "" && !Text.Less(routes[j].router, router)
  }

  /** The candidate of the profile names that router. */
  ghost predicate NamesBest(candidates: seq<IPEntry>, id: string, routes: seq<RouteStatus>, x: Prefix) {
    exists i :: 0 <= i < |candidates| && candidates[i].profile == id && BestRouter(routes, x, candidates[i].router)
  }

  lemma BestGrows(routes: seq<RouteStatus>, n: nat, x: Prefix, router: string)
    requires n < |routes| && BestRouter(routes[..n], x, router)
    ensures routes[n].prefix != x ==> BestRouter(routes[..n + 1], x, router)
    ensures routes[n].prefix == x ==> BestRouter(routes[..n + 1], x,
      if router == "" || (routes[n].router != "" && Text.Less(routes[n].router, router)) then routes[n].router else router)
  {
    var longer, added := routes[..n + 1], routes[n].router;
    assert forall j :: 0 <= j < n ==> longer[j] == routes[..n][j];
    assert longer[n] == routes[n];
    var k :| 0 <= k < n && routes[..n][k].prefix == x && routes[..n][k].router == router;
    assert longer[k].prefix == x && longer[k].router == router;
    Text.LessIrreflexive(added);
    if routes[n].prefix == x && added != "" && Text.Less(added, router) {
      forall j | 0 <= j < n && longer[j].prefix == x
        ensures Text.Less(longer[j].router, added) ==> Text.Less(longer[j].router, router)
      {
        if Text.Less(longer[j].router, added) {
          Text.LessTransitive(longer[j].router, added, router);
        }
      }
    }
  }

  lemma FirstIsBest(routes: seq<RouteStatus>, n: nat, x: Prefix)
    requires n < |routes| && routes[n].prefix == x && !InRoutes(routes[..n], x)
    ensures BestRouter(routes[..n + 1], x, routes[n].router)
  {
    var longer := routes[..n + 1];
    assert longer[n] == routes[n];
    assert forall j :: 0 <= j < n ==> longer[j] == routes[..n][j];
    Text.LessIrreflexive(routes[n].router);
  }

  /** The candidate of the profile stays the best when one more route is added to it. */
  lemma BestAdded(env: Env, candidates: seq<IPEntry>, r: seq<IPEntry>, entry: IPEntry, routes: seq<RouteStatus>, n: nat)
    requires n < |routes| && entry.prefix == routes[n].prefix && entry.router == routes[n].router && Distinct(candidates)
    requires forall i :: 0 <= i < |candidates| && candidates[i].profile == entry.profile ==>
      r == candidates[i := if Prefers(entry, candidates[i]) then entry else candidates[i]]
    requires !HasProfile(candidates, entry.profile) ==> r == candidates + [entry] && !InRoutes(routes[..n], entry.prefix)
    requires HasProfile(candidates, entry.profile) ==> NamesBest(candidates, entry.profile, routes[..n], entry.prefix)
    ensures NamesBest(r, entry.profile, routes[..n + 1], entry.prefix)
  {
    if HasProfile(candidates, entry.profile) {
      var i :| 0 <= i < |candidates| && candidates[i].profile == entry.profile
        && BestRouter(routes[..n], entry.prefix, candidates[i].router);
      BestGrows(routes, n, entry.prefix, candidates[i].router);
      hide BestRouter;
      assert r[i].profile == entry.profile && BestRouter(routes[..n + 1], entry.prefix, r[i].router);
    } else {
      FirstIsBest(routes, n, entry.prefix);
      assert r[|candidates|] == entry;
    }
  }

  lemma BestUnmoved(candidates: seq<IPEntry>, id: string, routes: seq<RouteStatus>, n: nat, x: Prefix)
    requires n < |routes| && routes[n].prefix != x && NamesBest(candidates, id, routes[..n], x)
    ensures NamesBest(candidates, id, routes[..n + 1], x)
  {
    var i :| 0 <= i < |candidates| && candidates[i].profile == id && BestRouter(routes[..n], x, candidates[i].router);
    BestGrows(routes, n, x, candidates[i].router);
  }

  method ImportRoutes(env: Env, m: CandidateMap, id: string, routes: seq<RouteStatus>) returns (r: CandidateMap)
    requires Collected(env, m)
    ensures Collected(env, r)
    ensures forall other, x :: Has(r, other, x) <==> Has(m, other, x) || (other == id && Usable(x) && InRoutes(routes, x))
    ensures forall x :: Has(r, id, x) && !Has(m, id, x) ==> NamesBest(r[x], id, routes, x)
  {
    hide Candidates, NamesBest, Prefers;
    r := m;
    for i := 0 to |routes|
      invariant Collected(env, r)
      invariant forall other, x :: Has(r, other, x) <==> Has(m, other, x) || (other == id && Usable(x) && InRoutes(routes[..i], x))
      invariant forall x :: Has(r, id, x) && !Has(m, id, x) ==> NamesBest(r[x], id, routes[..i], x)
    {
      forall x | Has(r, id, x) && !Has(m, id, x) && x != routes[i].prefix
        ensures NamesBest(r[x], id, routes[..i + 1], x)
      {
        BestUnmoved(r[x], id, routes, i, x);
      }
      assert routes[..i + 1] == routes[..i] + [routes[i]];
      var prefix := routes[i].prefix;
      forall x
        ensures InRoutes(routes[..i + 1], x) <==> InRoutes(routes[..i], x) || x == prefix
      {
        InRoutesSnoc(routes, i, x);
      }
      if !Usable(prefix) {
        continue;
      }
      var conflict := Reserved(env, prefix);
      var entry := IPEntry(prefix, id, !conflict, if conflict then HostConflict else NoReason, routes[i].router);
      var candidates := AddIPCandidate(env, if prefix in r then r[prefix] else [], entry);
      ghost var before := r;
      if !Has(m, id, prefix) {
        CandidatesDistinct(env, if prefix in r then r[prefix] else []);
        BestAdded(env, if prefix in r then r[prefix] else [], candidates, entry, routes, i);
      }
      r := r[prefix := candidates];
      forall other, x
        ensures Has(r, other, x) <==> Has(before, other, x) || (other == id && x == prefix)
      {
        assert x != prefix ==> (x in r <==> x in before) && (x in r ==> r[x] == before[x]);
      }
    }
    assert routes[..|routes|] == routes;
  }

  lemma CandidatesDistinct(env: Env, candidates: seq<IPEntry>)
    requires candidates == [] || exists x :: Candidates(env, x, candidates)
    ensures Distinct(candidates)
  {
  }

  lemma InRoutesSnoc(routes: seq<RouteStatus>, i: nat, x: Prefix)
    requires i < |routes|
    ensures InRoutes(routes[..i + 1], x) <==> InRoutes(routes[..i], x) || x == routes[i].prefix
  {
    var longer, shorter := routes[..i + 1], routes[..i];
    if InRoutes(shorter, x) {
      var j :| 0 <= j < |shorter| && shorter[j].prefix == x;
      assert longer[j].prefix == x;
    }
    assert longer[i].prefix == routes[i].prefix;
  }

  /** What one profile adds. */
  ghost predicate Imports(p: Profile, statuses: seq<Status>, id: string, x: Prefix) {
    p.id == id && p.acceptAll && Available(statuses, p) && Offers(StatusOf(statuses, p.id).value, x)
  }

  lemma AdvertisesSnoc(profiles: seq<Profile>, n: nat, statuses: seq<Status>, id: string, x: Prefix)
    requires n < |profiles|
    ensures Advertises(profiles[..n + 1], statuses, id, x) <==>
      Advertises(profiles[..n], statuses, id, x) || Imports(profiles[n], statuses, id, x)
  {
    assert profiles[..n + 1] == profiles[..n] + [profiles[n]];
  }

  method ImportProfile(env: Env, m: CandidateMap, p: Profile, statuses: seq<Status>) returns (r: CandidateMap)
    requires Collected(env, m)
    ensures Collected(env, r)
    ensures forall id, x :: Has(r, id, x) <==> Has(m, id, x) || Imports(p, statuses, id, x)
  {
    hide Has, Collected;
    r := m;
    if p.acceptAll && Available(statuses, p) {
      r := ImportRoutes(env, m, p.id, StatusOf(statuses, p.id).value.routes);
    }
  }

  method CollectImports(env: Env, profiles: seq<Profile>, statuses: seq<Status>) returns (m: CandidateMap)
    ensures Collected(env, m)
    ensures forall id, x :: Has(m, id, x) <==> Advertises(profiles, statuses, id, x)
  {
    hide Has, Collected, Advertises, Imports;
    m := map[];
    NothingCollected(env, statuses);
    for n := 0 to |profiles|
      invariant Collected(env, m)
      invariant forall id, x :: Has(m, id, x) <==> Advertises(profiles[..n], statuses, id, x)
    {
      ghost var before := m;
      m := ImportProfile(env, m, profiles[n], statuses);
      forall id, x
        ensures Has(m, id, x) <==> Advertises(profiles[..n + 1], statuses, id, x)
      {
        AdvertisesSnoc(profiles, n, statuses, id, x);
        assert Has(before, id, x) <==> Advertises(profiles[..n], statuses, id, x);
      }
    }
    assert profiles[..|profiles|] == profiles;
  }

  lemma NothingCollected(env: Env, statuses: seq<Status>)
    ensures Collected(env, map[])
    ensures forall id, x :: Has(map[], id, x) <==> Advertises([], statuses, id, x)
  {
  }

  // Overrides

  /** An exact entry contains the whole prefix. */
  ghost predicate Overridden(exact: seq<IPEntry>, x: Prefix) {
    exists e :: e in exact && Within(x, e.prefix)
  }

  ghost predicate PartlyOverridden(exact: seq<IPEntry>, x: Prefix) {
    exists e :: e in exact && StrictlyWithin(e.prefix, x)
  }

  predicate StrictlyWithin(p: Prefix, x: Prefix) {
    p.bits > x.bits && Within(p, x)
  }

  /** The longest exact prefix around the import, and the shortest strictly inside it. */
  method IPOverride(imported: Prefix, exact: seq<IPEntry>) returns (full: Option<Prefix>, partial: Option<Prefix>)
    requires ValidPrefix(imported) && forall e :: e in exact ==> ValidPrefix(e.prefix)
    ensures full.Some? <==> Overridden(exact, imported)
    ensures full.Some? ==> Within(imported, full.value)
    ensures full.Some? ==> forall e :: e in exact && Within(imported, e.prefix) ==> e.prefix.bits <= full.value.bits
    ensures partial.Some? <==> PartlyOverridden(exact, imported)
    ensures partial.Some? ==> StrictlyWithin(partial.value, imported)
    ensures partial.Some? ==> forall e :: e in exact && StrictlyWithin(e.prefix, imported) ==> partial.value.bits <= e.prefix.bits
  {
    full, partial := None, None;
    for i := 0 to |exact|
      invariant full.Some? <==> Overridden(exact[..i], imported)
      invariant full.Some? ==> Within(imported, full.value)
      invariant full.Some? ==> forall e :: e in exact[..i] && Within(imported, e.prefix) ==> e.prefix.bits <= full.value.bits
      invariant partial.Some? <==> PartlyOverridden(exact[..i], imported)
      invariant partial.Some? ==> StrictlyWithin(partial.value, imported)
      invariant partial.Some? ==> forall e :: e in exact[..i] && StrictlyWithin(e.prefix, imported) ==> partial.value.bits <= e.prefix.bits
    {
      assert exact[..i + 1] == exact[..i] + [exact[i]];
      var c := exact[i].prefix;
      assert ValidPrefix(c);
      if c.bits <= imported.bits {
        ContainsNetworkAddr(c, imported);
      } else {
        ContainsNetworkAddr(imported, c);
      }
      if c.v6 != imported.v6 {
        continue;
      }
      if Contains(c, NetworkAddr(imported)) && c.bits <= imported.bits {
        if full.None? || c.bits > full.value.bits {
          full := Some(c);
        }
        continue;
      }
      if Contains(imported, NetworkAddr(c)) && c.bits > imported.bits {
        if partial.None? || c.bits < partial.value.bits {
          partial := Some(c);
        }
      }
    }
    assert exact[..|exact|] == exact;
  }

  // The plan

  /** The entry of an imported prefix: in force exactly when one profile alone advertises it, nothing
      reserves it and no exact entry contains it. */
  ghost predicate ImportedOk(env: Env, profiles: seq<Profile>, statuses: seq<Status>, exact: seq<IPEntry>, e: IPEntry) {
    && Usable(e.prefix)
    && Advertised(profiles, statuses, e.prefix)
    && (forall id :: Sole(profiles, statuses, id, e.prefix) ==> e.profile == id)
    && (e.active <==> Sole(profiles, statuses, e.profile, e.prefix) && !Reserved(env, e.prefix) && !Overridden(exact, e.prefix))
  }

  ghost predicate DistinctPrefixes(entries: seq<IPEntry>) {
    forall i, j :: 0 <= i < j < |entries| ==> entries[i].prefix != entries[j].prefix
  }

  ghost predicate HasPrefix(entries: seq<IPEntry>, x: Prefix) {
    exists i :: 0 <= i < |entries| && entries[i].prefix == x
  }

  ghost predicate PlanOk(env: Env, profiles: seq<Profile>, statuses: seq<Status>, bindings: seq<Binding>,
                         exact: seq<IPEntry>, imported: seq<IPEntry>) {
    && |exact| == |bindings|
    && (forall i :: 0 <= i < |bindings| ==>
          && exact[i].prefix == bindings[i].prefix && exact[i].profile == bindings[i].profile
          && (exact[i].active <==> BindingActive(env, profiles, statuses, bindings[i])))
    && DistinctPrefixes(imported)
    && (forall x :: HasPrefix(imported, x) <==> Advertised(profiles, statuses, x))
    && forall e :: e in imported ==> ImportedOk(env, profiles, statuses, exact, e)
  }

  method ImportEntry(env: Env, profiles: seq<Profile>, statuses: seq<Status>, exact: seq<IPEntry>, x: Prefix, candidates: seq<IPEntry>)
    returns (e: IPEntry)
    requires Candidates(env, x, candidates) && forall e :: e in exact ==> ValidPrefix(e.prefix)
    requires forall id :: HasProfile(candidates, id) <==> Advertises(profiles, statuses, id, x)
    requires Usable(x)
    ensures e.prefix == x && ImportedOk(env, profiles, statuses, exact, e)
  {
    assert HasProfile(candidates, candidates[0].profile);
    if |candidates| == 1 {
      e := candidates[0];
      assert candidates[0] in candidates;
    } else {
      e := IPEntry(x, "", false, Ambiguous, "");
      assert candidates[0].profile != candidates[1].profile;
      assert HasProfile(candidates, candidates[1].profile);
    }
    var full, partial := IPOverride(x, exact);
    if full.Some? {
      e := e.(active := false, reason := ExplicitOverride);
    } else if partial.Some? && e.reason == NoReason {
      e := e.(reason := PartialOverride);
    }
  }

  method BuildIP(env: Env, profiles: seq<Profile>, bindings: seq<Binding>, statuses: seq<Status>)
    returns (exact: seq<IPEntry>, imported: seq<IPEntry>)
    requires forall b :: b in bindings ==> ValidPrefix(b.prefix)
    ensures PlanOk(env, profiles, statuses, bindings, exact, imported)
  {
    hide BindingActive, ImportedOk, Advertises, Candidates;
    exact := [];
    for i := 0 to |bindings|
      invariant |exact| == i
      invariant forall j :: 0 <= j < i ==>
        && exact[j].prefix == bindings[j].prefix && exact[j].profile == bindings[j].profile
        && (exact[j].active <==> BindingActive(env, profiles, statuses, bindings[j]))
    {
      assert bindings[i] in bindings;
      var e := BindEntry(env, profiles, statuses, bindings[i]);
      exact := exact + [e];
    }
    forall e | e in exact
      ensures ValidPrefix(e.prefix)
    {
      var i :| 0 <= i < |exact| && exact[i] == e;
      assert bindings[i] in bindings;
    }
    var m := CollectImports(env, profiles, statuses);
    imported := ListImports(env, profiles, statuses, exact, m);
  }

  /** The candidate map in some order. */
  method ListImports(env: Env, profiles: seq<Profile>, statuses: seq<Status>, exact: seq<IPEntry>, m: CandidateMap)
    returns (imported: seq<IPEntry>)
    requires Collected(env, m) && forall e :: e in exact ==> ValidPrefix(e.prefix)
    requires forall id, x :: Has(m, id, x) <==> Advertises(profiles, statuses, id, x)
    ensures DistinctPrefixes(imported)
    ensures forall x :: HasPrefix(imported, x) <==> Advertised(profiles, statuses, x)
    ensures forall e :: e in imported ==> ImportedOk(env, profiles, statuses, exact, e)
  {
    hide ImportedOk;
    imported := [];
    var left := m.Keys;
    while left != {}
      invariant left <= m.Keys && DistinctPrefixes(imported)
      invariant forall x :: HasPrefix(imported, x) <==> x in m && x !in left
      invariant forall e :: e in imported ==> ImportedOk(env, profiles, statuses, exact, e)
    {
      var x :| x in left;
      left := left - {x};
      CollectedUsable(env, profiles, statuses, m, x);
      var e := ImportEntry(env, profiles, statuses, exact, x, m[x]);
      ghost var before := imported;
      assert !HasPrefix(before, x);
      imported := imported + [e];
      forall y
        ensures HasPrefix(imported, y) <==> HasPrefix(before, y) || y == x
      {
        HasPrefixSnoc(before, e, y);
      }
    }
    forall x
      ensures x in m <==> Advertised(profiles, statuses, x)
    {
      if Advertised(profiles, statuses, x) {
        var id :| Advertises(profiles, statuses, id, x);
        assert Has(m, id, x);
      } else if x in m {
        CollectedUsable(env, profiles, statuses, m, x);
        assert false;
      }
    }
  }

  lemma HasPrefixSnoc(entries: seq<IPEntry>, e: IPEntry, y: Prefix)
    ensures HasPrefix(entries + [e], y) <==> HasPrefix(entries, y) || y == e.prefix
  {
    var longer := entries + [e];
    if HasPrefix(entries, y) {
      var i :| 0 <= i < |entries| && entries[i].prefix == y;
      assert longer[i].prefix == y;
    }
    assert longer[|entries|].prefix == e.prefix;
  }

  lemma CollectedUsable(env: Env, profiles: seq<Profile>, statuses: seq<Status>, m: CandidateMap, x: Prefix)
    requires Collected(env, m) && x in m
    requires forall id, y :: Has(m, id, y) <==> Advertises(profiles, statuses, id, y)
    ensures Candidates(env, x, m[x]) && Usable(x) && Advertised(profiles, statuses, x)
    ensures forall id :: HasProfile(m[x], id) <==> Advertises(profiles, statuses, id, x)
  {
    var id := m[x][0].profile;
    assert HasProfile(m[x], id);
    assert Has(m, id, x);
    forall id
      ensures HasProfile(m[x], id) <==> Advertises(profiles, statuses, id, x)
    {
      assert Has(m, id, x) <==> HasProfile(m[x], id);
    }
  }
}
