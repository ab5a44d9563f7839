/** DNS policy: resolving a name over the policy tiers, publishing suffix routes, and when both agree. */
module DnsPolicy {
  import opened Net

  /** A normalized name, as its labels from left to right. The root has none. */
  type Domain = d: seq<string> | forall i :: 0 <= i < |d| ==> d[i] != "" witness []

  /** The length of the text form, "." for the root. */
  function TextLength(d: Domain): nat {
    if d == [] then 1 else if |d| == 1 then |d[0]| else |d[0]| + 1 + TextLength(d[1..])
  }

  /** The suffix test on whole labels. */
  predicate Covers(suffix: Domain, name: Domain) {
    |suffix| <= |name| && name[|name| - |suffix|..] == suffix
  }

  datatype Entry = Entry(domain: Domain, profile: string, active: bool)

  datatype Plan = Plan(exact: seq<Entry>, imported: seq<Entry>, automatic: seq<Entry>) {
    /** The entries in the order of their tiers. */
    function All(): seq<Entry> {
      exact + imported + automatic
    }
  }

  // Resolving

  /** The first of the matching entries with the longest text. */
  ghost predicate FirstLongest(entries: seq<Entry>, name: Domain, i: nat) {
    && i < |entries| && Covers(entries[i].domain, name)
    && forall j :: 0 <= j < |entries| && Covers(entries[j].domain, name) ==>
         && TextLength(entries[j].domain) <= TextLength(entries[i].domain)
         && (j < i ==> TextLength(entries[j].domain) < TextLength(entries[i].domain))
  }

  ghost predicate NoMatch(entries: seq<Entry>, name: Domain) {
    forall j :: 0 <= j < |entries| ==> !Covers(entries[j].domain, name)
  }

  ghost predicate Resolves(entries: seq<Entry>, name: Domain, r: Option<Entry>) {
    match r
    case None => NoMatch(entries, name)
    case Some(e) => exists i: nat :: FirstLongest(entries, name, i) && entries[i] == e
  }

  method LongestDNSMatch(name: Domain, entries: seq<Entry>) returns (r: Option<Entry>)
    ensures Resolves(entries, name, r)
  {
    r := None;
    ghost var best: nat := 0;
    for k := 0 to |entries|
      invariant r.None? ==> NoMatch(entries[..k], name)
      invariant r.Some? ==> FirstLongest(entries[..k], name, best) && entries[best] == r.value
    {
      assert forall j :: 0 <= j < k ==> entries[..k + 1][j] == entries[..k][j];
      if !Covers(entries[k].domain, name) || (r.Some? && TextLength(entries[k].domain) <= TextLength(r.value.domain)) {
        continue;
      }
      r, best := Some(entries[k]), k;
    }
    assert entries[..|entries|] == entries;
  }

  /** A further tier only wins with a longer match. */
  lemma ResolvesAppend(a: seq<Entry>, b: seq<Entry>, name: Domain, r: Option<Entry>, s: Option<Entry>)
    requires Resolves(a, name, r) && Resolves(b, name, s)
    ensures Resolves(a + b, name,
      if s.None? || (r.Some? && TextLength(s.value.domain) <= TextLength(r.value.domain)) then r else s)
  {
    if s.None? || (r.Some? && TextLength(s.value.domain) <= TextLength(r.value.domain)) {
      if r.Some? {
        var i: nat :| FirstLongest(a, name, i) && a[i] == r.value;
        assert FirstLongest(a + b, name, i);
      }
    } else {
      var i: nat :| FirstLongest(b, name, i) && b[i] == s.value;
      assert FirstLongest(a + b, name, |a| + i);
    }
  }

  method Resolve(plan: Plan, name: Domain) returns (r: Option<Entry>)
    ensures Resolves(plan.All(), name, r)
  {
    hide Resolves;
    var tiers := [plan.exact, plan.imported, plan.automatic];
    var done: seq<Entry> := [];
    r := None;
    assert Resolves([], name, None) by { NothingResolves(name); }
    for k := 0 to 3
      invariant Resolves(done, name, r)
      invariant done == if k == 0 then [] else if k == 1 then plan.exact else if k == 2 then plan.exact + plan.imported else plan.All()
    {
      var s := LongestDNSMatch(name, tiers[k]);
      ResolvesAppend(done, tiers[k], name, r, s);
      if !(s.None? || (r.Some? && TextLength(s.value.domain) <= TextLength(r.value.domain))) {
        r := s;
      }
      done := done + tiers[k];
    }
  }

  lemma NothingResolves(name: Domain)
    ensures Resolves([], name, None)
  {
  }

  lemma ResolvesUnique(entries: seq<Entry>, name: Domain, r: Option<Entry>, s: Option<Entry>)
    requires Resolves(entries, name, r) && Resolves(entries, name, s)
    ensures r == s
  {
    if r.Some? && s.Some? {
      var i: nat :| FirstLongest(entries, name, i) && entries[i] == r.value;
      var j: nat :| FirstLongest(entries, name, j) && entries[j] == s.value;
      assert i == j;
    }
  }

  // Publishing

  datatype Route = Policy(entry: Entry) | Shared

  ghost predicate HasDomain(entries: seq<Entry>, d: Domain) {
    exists i :: 0 <= i < |entries| && entries[i].domain == d
  }

  /** The first entry of the domain, tier by tier. */
  ghost predicate FirstOf(entries: seq<Entry>, d: Domain, e: Entry) {
    exists i :: 0 <= i < |entries| && entries[i] == e && e.domain == d && forall j :: 0 <= j < i ==> entries[j].domain != d
  }

  predicate DistinctDomains(entries: seq<Entry>) {
    forall i, j :: 0 <= i < j < |entries| ==> entries[i].domain != entries[j].domain
  }

  method HasDNSPolicyDomain(d: Domain, entries: seq<Entry>) returns (found: bool)
    ensures found <==> HasDomain(entries, d)
  {
    for i := 0 to |entries|
      invariant forall j :: 0 <= j < i ==> entries[j].domain != d
    {
      if entries[i].domain == d {
        return true;
      }
    }
    found := false;
  }

  /** Adds the entries of a tier whose domains no stronger tier has. */
  method AddTier(routes: map<Domain, Route>, tier: seq<Entry>, stronger: seq<Entry>, others: seq<Entry>) returns (r: map<Domain, Route>)
    requires DistinctDomains(tier)
    ensures forall d :: d in r <==> d in routes || (HasDomain(tier, d) && !HasDomain(stronger, d) && !HasDomain(others, d))
    ensures forall d :: d in r && (!HasDomain(tier, d) || HasDomain(stronger, d) || HasDomain(others, d)) ==> r[d] == routes[d]
    ensures forall e :: e in tier && !HasDomain(stronger, e.domain) && !HasDomain(others, e.domain) ==>
      e.domain in r && r[e.domain] == Policy(e)
  {
    r := routes;
    for i := 0 to |tier|
      invariant forall d :: d in r <==> d in routes || (HasDomain(tier[..i], d) && !HasDomain(stronger, d) && !HasDomain(others, d))
      invariant forall d :: d in r && (!HasDomain(tier[..i], d) || HasDomain(stronger, d) || HasDomain(others, d)) ==> r[d] == routes[d]
      invariant forall e :: e in tier[..i] && !HasDomain(stronger, e.domain) && !HasDomain(others, e.domain) ==>
        e.domain in r && r[e.domain] == Policy(e)
    {
      var e := tier[i];
      forall d
        ensures HasDomain(tier[..i + 1], d) <==> HasDomain(tier[..i], d) || d == e.domain
      {
        HasDomainSnoc(tier, i, d);
      }
      assert tier[..i + 1] == tier[..i] + [e];
      assert forall f :: f in tier[..i] ==> f.domain != e.domain;
      var inStronger := HasDNSPolicyDomain(e.domain, stronger);
      var inOthers := HasDNSPolicyDomain(e.domain, others);
      if inStronger || inOthers {
        continue;
      }
      r := r[e.domain := Policy(e)];
    }
    assert tier[..|tier|] == tier;
  }

  lemma HasDomainSnoc(entries: seq<Entry>, i: nat, d: Domain)
    requires i < |entries|
    ensures HasDomain(entries[..i + 1], d) <==> HasDomain(entries[..i], d) || d == entries[i].domain
  {
    var longer, shorter := entries[..i + 1], entries[..i];
    if HasDomain(shorter, d) {
      var j :| 0 <= j < |shorter| && shorter[j].domain == d;
      assert longer[j].domain == d;
    }
    assert longer[i] == entries[i];
  }

  ghost predicate DistinctTiers(plan: Plan) {
    DistinctDomains(plan.exact) && DistinctDomains(plan.imported) && DistinctDomains(plan.automatic)
  }

  /** One route per domain of the plan, for its first entry, and one per shared name. */
  ghost predicate Published(plan: Plan, shared: set<Domain>, routes: map<Domain, Route>) {
    && (forall d :: d in routes <==> HasDomain(plan.All(), d) || d in shared)
    && (forall d :: d in shared ==> d in routes && routes[d] == Shared)
    && forall e :: e in plan.All() && FirstOf(plan.All(), e.domain, e) && e.domain !in shared ==> routes[e.domain] == Policy(e)
  }

  method Publish(plan: Plan, shared: set<Domain>) returns (routes: map<Domain, Route>)
    requires DistinctTiers(plan)
    ensures Published(plan, shared, routes)
  {
    hide HasDomain, FirstOf;
    var weak := AddTier(map[], plan.automatic, plan.exact, plan.imported);
    var middle := AddTier(weak, plan.imported, plan.exact, []);
    assert forall d :: !HasDomain([], d) by { NoDomains(); }
    routes := AddTier(middle, plan.exact, [], []);
    ghost var policy := routes;
    forall d
      ensures HasDomain(plan.All(), d) <==> HasDomain(plan.exact, d) || HasDomain(plan.imported, d) || HasDomain(plan.automatic, d)
    {
      HasDomainTiers(plan, d);
    }
    forall e | e in plan.All() && FirstOf(plan.All(), e.domain, e)
      ensures e.domain in policy && policy[e.domain] == Policy(e)
    {
      FirstOfTiers(plan, e);
    }
    var left := shared;
    while left != {}
      invariant left <= shared
      invariant forall d :: d in routes <==> d in policy || (d in shared && d !in left)
      invariant forall d :: d in shared && d !in left ==> routes[d] == Shared
      invariant forall d :: d in policy && !(d in shared && d !in left) ==> routes[d] == policy[d]
    {
      var d :| d in left;
      left := left - {d};
      routes := routes[d := Shared];
    }
  }

  lemma NoDomains()
    ensures forall d :: !HasDomain([], d)
  {
  }

  lemma HasDomainTiers(plan: Plan, d: Domain)
    ensures HasDomain(plan.All(), d) <==> HasDomain(plan.exact, d) || HasDomain(plan.imported, d) || HasDomain(plan.automatic, d)
  {
    HasDomainAppend(plan.exact, plan.imported, d);
    HasDomainAppend(plan.exact + plan.imported, plan.automatic, d);
  }

  lemma HasDomainAppend(a: seq<Entry>, b: seq<Entry>, d: Domain)
    ensures HasDomain(a + b, d) <==> HasDomain(a, d) || HasDomain(b, d)
  {
    if HasDomain(a, d) {
      var i :| 0 <= i < |a| && a[i].domain == d;
      assert (a + b)[i].domain == d;
    }
    if HasDomain(b, d) {
      var i :| 0 <= i < |b| && b[i].domain == d;
      assert (a + b)[|a| + i].domain == d;
    }
  }

  /** The first entry of a domain is the one of its strongest tier. */
  lemma FirstOfTiers(plan: Plan, e: Entry)
    requires FirstOf(plan.All(), e.domain, e)
    ensures || e in plan.exact
            || (e in plan.imported && !HasDomain(plan.exact, e.domain))
            || (e in plan.automatic && !HasDomain(plan.exact, e.domain) && !HasDomain(plan.imported, e.domain))
  {
    var all, d := plan.All(), e.domain;
    var i :| 0 <= i < |all| && all[i] == e && forall j :: 0 <= j < i ==> all[j].domain != d;
    assert forall j :: 0 <= j < |plan.exact| ==> all[j] == plan.exact[j];
    assert forall j :: 0 <= j < |plan.imported| ==> all[|plan.exact| + j] == plan.imported[j];
  }

  /** Shared names: names of records that no policy entry matches and that one owner alone claims. */
  datatype Record = Record(name: Domain, owner: string)

  ghost predicate Unmatched(plan: Plan, name: Domain) {
    NoMatch(plan.All(), name)
  }

  lemma MatchedOrNot(plan: Plan, name: Domain, r: Option<Entry>)
    requires Resolves(plan.All(), name, r)
    ensures r.None? <==> Unmatched(plan, name)
  {
  }

  method SharedNames(plan: Plan, records: seq<Record>) returns (shared: set<Domain>)
    ensures forall n :: n in shared <==>
      && Unmatched(plan, n) && (exists r :: r in records && r.name == n)
      && forall r, s :: r in records && s in records && r.name == s.name == n ==> r.owner == s.owner
  {
    hide Unmatched, Resolves;
    var owners: map<Domain, set<string>> := map[];
    for i := 0 to |records|
      invariant forall n :: n in owners <==> Unmatched(plan, n) && exists r :: r in records[..i] && r.name == n
      invariant forall n, o :: n in owners ==> (o in owners[n] <==> Record(n, o) in records[..i])
    {
      assert records[..i + 1] == records[..i] + [records[i]];
      var r := records[i];
      var matched := Resolve(plan, r.name);
      MatchedOrNot(plan, r.name, matched);
      if matched.Some? {
        continue;
      }
      owners := owners[r.name := (if r.name in owners then owners[r.name] else {}) + {r.owner}];
    }
    assert records[..|records|] == records;
    shared := set n | n in owners && |owners[n]| == 1;
    forall n
      ensures n in shared <==>
        && Unmatched(plan, n) && (exists r :: r in records && r.name == n)
        && forall r, s :: r in records && s in records && r.name == s.name == n ==> r.owner == s.owner
    {
      if n in owners {
        var r :| r in records && r.name == n;
        OneOwner(owners[n], r.owner);
        forall o
          ensures o in owners[n] <==> Record(n, o) in records
        {
        }
      }
    }
  }

  lemma OneOwner(owners: set<string>, o: string)
    requires o in owners
    ensures |owners| == 1 <==> forall p :: p in owners ==> p == o
  {
    assert owners == (owners - {o}) + {o};
    if forall p :: p in owners ==> p == o {
      assert owners - {o} == {};
    }
    if |owners| == 1 {
      assert |owners - {o}| == 0;
    }
  }

  // Longest-suffix match over what is published

  function LongestRoute(routes: map<Domain, Route>, name: Domain): Option<Route> {
    if name in routes then Some(routes[name])
    else if name == [] then None
    else LongestRoute(routes, name[1..])
  }

  /** Its meaning: the route of the suffix with the most labels. */
  lemma {:induction false} LongestRouteMeans(routes: map<Domain, Route>, name: Domain, d: Domain)
    requires d in routes && Covers(d, name)
    requires forall other :: other in routes && Covers(other, name) ==> |other| <= |d|
    ensures LongestRoute(routes, name) == Some(routes[d])
    decreases |name|
  {
    if name in routes {
      assert Covers(name, name);
    } else {
      assert |d| < |name|;
      assert name[1..][|name| - 1 - |d|..] == d;
      forall other | other in routes && Covers(other, name[1..])
        ensures |other| <= |d|
      {
        CoversLonger(other, name);
      }
      LongestRouteMeans(routes, name[1..], d);
    }
  }

  lemma CoversLonger(d: Domain, name: Domain)
    requires name != [] && Covers(d, name[1..])
    ensures Covers(d, name)
  {
    assert name[1..][|name| - 1 - |d|..] == name[|name| - |d|..];
  }

  // More labels make a longer text, except for one character over the root

  lemma {:induction false} TextAtLeast(d: Domain)
    ensures TextLength(d) >= 1
    ensures |d| > 1 ==> TextLength(d) >= TextLength(d[1..]) + 2
  {
    if |d| == 1 {
      assert d[0] != "";
    } else if |d| > 1 {
      TextAtLeast(d[1..]);
      assert d[0] != "";
    }
  }

  lemma {:induction false} LongerText(d: Domain, e: Domain, name: Domain)
    requires Covers(d, name) && Covers(e, name) && |d| < |e|
    ensures TextLength(d) < TextLength(e) || (d == [] && |e| == 1 && |e[0]| == 1)
    decreases |e|
  {
    TextAtLeast(e);
    if |e| > 1 {
      assert name[|name| - |e|..][1..] == name[|name| - |e| + 1..];
      assert Covers(e[1..], name);
      if |d| == |e| - 1 {
        assert d == e[1..];
      } else {
        LongerText(d, e[1..], name);
      }
      if d == [] && |e| > 1 {
        TextAtLeast(e[1..]);
      }
    } else {
      assert e[0] != "";
    }
  }

  lemma SameLabels(d: Domain, e: Domain, name: Domain)
    requires Covers(d, name) && Covers(e, name) && |d| == |e|
    ensures d == e
  {
  }

  predicate OneCharacter(d: Domain) {
    |d| == 1 && |d[0]| == 1
  }

  /** In tier order, the root comes first before no one-character domain. */
  ghost predicate RootLate(entries: seq<Entry>) {
    forall i, j :: 0 <= i < j < |entries| && entries[i].domain == [] && OneCharacter(entries[j].domain) ==>
      exists k :: 0 <= k < i && entries[k].domain == entries[j].domain
  }

  /** What a policy match and the published routes say about one name. */
  ghost predicate Agrees(plan: Plan, routes: map<Domain, Route>, name: Domain) {
    forall e :: Resolves(plan.All(), name, Some(e)) ==> LongestRoute(routes, name) == Some(Policy(e))
  }

  lemma SharedIsShorter(plan: Plan, n: Domain, d: Domain, name: Domain)
    requires Unmatched(plan, n) && HasDomain(plan.All(), d) && Covers(n, name) && Covers(d, name)
    ensures |n| < |d|
  {
    if |n| >= |d| {
      CoversNested(d, n, name);
      assert false;
    }
  }

  lemma CoversNested(d: Domain, n: Domain, name: Domain)
    requires Covers(n, name) && Covers(d, name) && |d| <= |n|
    ensures Covers(d, n)
  {
    assert name[|name| - |n|..][|n| - |d|..] == name[|name| - |d|..];
  }

  /** No matching domain of the plan has more labels than the one that wins. */
  lemma WinnerHasMostLabels(entries: seq<Entry>, name: Domain, i: nat, j: nat)
    requires RootLate(entries) && FirstLongest(entries, name, i) && j < |entries| && Covers(entries[j].domain, name)
    ensures |entries[j].domain| <= |entries[i].domain|
  {
    var d, e := entries[i].domain, entries[j].domain;
    if |d| < |e| {
      LongerText(d, e, name);
      assert false;
    }
  }

  lemma RootLateAgrees(plan: Plan, shared: set<Domain>, routes: map<Domain, Route>, name: Domain)
    requires Published(plan, shared, routes) && forall n :: n in shared ==> Unmatched(plan, n)
    requires RootLate(plan.All())
    ensures Agrees(plan, routes, name)
  {
    var all := plan.All();
    forall e | Resolves(all, name, Some(e))
      ensures LongestRoute(routes, name) == Some(Policy(e))
    {
      var i: nat :| FirstLongest(all, name, i) && all[i] == e;
      assert HasDomain(all, e.domain);
      forall other | other in routes && Covers(other, name)
        ensures |other| <= |e.domain|
      {
        if other in shared {
          SharedIsShorter(plan, other, e.domain, name);
        } else {
          var j :| 0 <= j < |all| && all[j].domain == other;
          WinnerHasMostLabels(all, name, i, j);
        }
      }
      LongestRouteMeans(routes, name, e.domain);
      assert FirstOf(all, e.domain, e);
      if e.domain in shared {
        SharedIsShorter(plan, e.domain, e.domain, name);
        assert false;
      }
    }
  }

  lemma {:induction false} FirstIndex(entries: seq<Entry>, d: Domain, i: nat) returns (first: nat)
    requires i < |entries| && entries[i].domain == d
    ensures first <= i && entries[first].domain == d && forall j :: 0 <= j < first ==> entries[j].domain != d
  {
    if j :| 0 <= j < i && entries[j].domain == d {
      first := FirstIndex(entries, d, j);
    } else {
      first := i;
    }
  }

  /** The root before a one-character domain wins the name of that domain, which is published apart. */
  lemma EarlyRootDisagrees(plan: Plan, shared: set<Domain>, routes: map<Domain, Route>, i: nat, j: nat)
    requires Published(plan, shared, routes) && forall n :: n in shared ==> Unmatched(plan, n)
    requires i < j < |plan.All()| && plan.All()[i].domain == [] && OneCharacter(plan.All()[j].domain)
    requires forall k :: 0 <= k < i ==> plan.All()[k].domain != plan.All()[j].domain
    ensures !Agrees(plan, routes, plan.All()[j].domain)
  {
    var all, t := plan.All(), plan.All()[j].domain;
    var root := FirstIndex(all, [], i);
    forall k | 0 <= k < |all| && Covers(all[k].domain, t)
      ensures all[k].domain == [] || all[k].domain == t
    {
      if |all[k].domain| == 1 {
        SameLabels(all[k].domain, t, t);
      }
    }
    assert FirstLongest(all, t, root);
    assert Resolves(all, t, Some(all[root]));
    assert HasDomain(all, t);
    var first := FirstIndex(all, t, j);
    assert FirstOf(all, t, all[first]);
    if t in shared {
      SharedIsShorter(plan, t, t, t);
      assert false;
    }
    assert LongestRoute(routes, t) == Some(Policy(all[first]));
  }

  /** Every match of the policy is what longest-suffix match over the published routes gives, shared
      names included, if and only if the root stands before no one-character domain in tier order. */
  lemma PublishedAgreesExactly(plan: Plan, shared: set<Domain>, routes: map<Domain, Route>)
    requires Published(plan, shared, routes) && forall n :: n in shared ==> Unmatched(plan, n)
    ensures (forall name: Domain :: Agrees(plan, routes, name)) <==> RootLate(plan.All())
  {
    if RootLate(plan.All()) {
      forall name: Domain
        ensures Agrees(plan, routes, name)
      {
        RootLateAgrees(plan, shared, routes, name);
      }
    } else {
      var all := plan.All();
      var i, j :| 0 <= i < j < |all| && all[i].domain == [] && OneCharacter(all[j].domain)
        && !exists k :: 0 <= k < i && all[k].domain == all[j].domain;
      EarlyRootDisagrees(plan, shared, routes, i, j);
    }
  }

  /** In particular they agree when no suffix is one character long. */
  lemma LongSuffixesAgree(plan: Plan, shared: set<Domain>, routes: map<Domain, Route>, name: Domain)
    requires Published(plan, shared, routes) && forall n :: n in shared ==> Unmatched(plan, n)
    requires forall e :: e in plan.All() ==> !OneCharacter(e.domain)
    ensures Agrees(plan, routes, name)
  {
    assert forall j :: 0 <= j < |plan.All()| ==> plan.All()[j] in plan.All();
    RootLateAgrees(plan, shared, routes, name);
  }

  /** The condition is needed: a bound root route takes the names under "x" from an imported "x". */
  lemma RootTakesOneCharacterSuffix() returns (plan: Plan, routes: map<Domain, Route>, name: Domain)
    ensures DistinctTiers(plan) && Published(plan, {}, routes) && !Agrees(plan, routes, name)
  {
    var root, x := Entry([], "work", true), Entry(["x"], "home", true);
    plan := Plan([root], [x], []);
    routes := map[[] := Policy(root), ["x"] := Policy(x)];
    name := ["x"];
    var all := plan.All();
    assert all == [root, x];
    assert all[0].domain == [] && all[1].domain == ["x"];
    assert forall d :: HasDomain(all, d) <==> d == [] || d == ["x"];
    EarlyRootDisagrees(plan, {}, routes, 0, 1);
  }
}
