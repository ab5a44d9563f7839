/** The effective-address plan: host addresses, leases and what every run of expiry, planning and
    pool changes keeps. */
module AddressPlan {
  import opened Net
  import opened EffectiveIP

  /** 100.100.100.100 */
  const SERVICE := Address(false, 0x64646464)

  const DNS_OFFSET: nat := 53

  datatype State = State(
    pool4: Prefix,
    pool6: Prefix,
    nat4: Option<Addr>,
    nat6: Option<Addr>,
    dns: Option<Addr>,
    leases: seq<Lease>)

  function Effective(leases: seq<Lease>): set<Addr> {
    set l | l in leases :: l.effective
  }

  // Host addresses

  predicate ValidReserved(ip: Option<Addr>, pool: Prefix, used: set<Addr>) {
    ip.Some? && ip.value != NetworkAddr(pool) && Contains(pool, ip.value) && ip.value !in used
  }

  /** An address a host may take: inside the pool, above its network address, and free. */
  predicate Free(pool: Prefix, used: set<Addr>, a: Addr) {
    Contains(pool, a) && a != NetworkAddr(pool) && a !in used && a != SERVICE
  }

  ghost predicate LowestFree(pool: Prefix, used: set<Addr>, a: Addr) {
    Free(pool, used, a) && forall b: Addr :: Free(pool, used, b) ==> a.value <= b.value
  }

  ghost predicate NoneFree(pool: Prefix, used: set<Addr>) {
    forall a: Addr :: !Free(pool, used, a)
  }

  method FirstFreePoolIP(pool: Prefix, used: set<Addr>) returns (r: Option<Addr>)
    requires ValidPrefix(pool)
    ensures r.Some? ==> LowestFree(pool, used, r.value)
    ensures r.None? ==> NoneFree(pool, used)
  {
    var ip := Next(NetworkAddr(pool));
    FirstBeforeBeyond(pool);
    forall a: Addr | Free(pool, used, a)
      ensures ip.value <= a.value < Beyond(pool)
    {
      PoolIsInterval(pool, a);
    }
    while Contains(pool, ip)
      invariant ip.v6 == pool.v6 && First(pool) < ip.value <= Beyond(pool)
      invariant forall a: Addr :: Free(pool, used, a) ==> ip.value <= a.value < Beyond(pool)
      decreases Beyond(pool) - ip.value
    {
      PoolIsInterval(pool, ip);
      PoolFits(pool, ip);
      if ip !in used && ip != SERVICE {
        return Some(ip);
      }
      ip := Next(ip);
    }
    PoolIsInterval(pool, ip);
    r := None;
  }

  method PoolIPAtOffset(pool: Prefix, offset: nat) returns (r: Option<Addr>)
    requires ValidPrefix(pool)
    ensures r.Some? <==> Contains(pool, Address(pool.v6, First(pool) + offset))
    ensures r.Some? ==> r.value == Address(pool.v6, First(pool) + offset)
  {
    var ip := NetworkAddr(pool);
    PoolIsInterval(pool, Address(pool.v6, First(pool) + offset));
    for i := 0 to offset
      invariant ip == Address(pool.v6, First(pool) + i)
    {
      ip := Next(ip);
      if ShiftRight(ip.value, BitLen(ip.v6)) != 0 {
        if Contains(pool, ip) {
          PoolFits(pool, ip);
        }
        PoolIsInterval(pool, ip);
        return None;
      }
    }
    if !Contains(pool, ip) {
      return None;
    }
    PoolFits(pool, ip);
    r := Some(ip);
  }

  /** The current address if it is still usable, else the lowest free one. */
  ghost predicate Chosen(before: Option<Addr>, pool: Prefix, used: set<Addr>, after: Option<Addr>) {
    after.Some? && if ValidReserved(before, pool, used) then after == before else LowestFree(pool, used, after.value)
  }

  function Preferred(pool: Prefix): Address
    requires ValidPrefix(pool)
  {
    Address(pool.v6, First(pool) + DNS_OFFSET)
  }

  ghost predicate ChosenDns(before: Option<Addr>, pool: Prefix, used: set<Addr>, after: Option<Addr>)
    requires ValidPrefix(pool)
  {
    && after.Some?
    && if ValidReserved(before, pool, used) then after == before
       else if Contains(pool, Preferred(pool)) && Preferred(pool) !in used then after.value == Preferred(pool)
       else LowestFree(pool, used, after.value)
  }

  method ChooseNat(current: Option<Addr>, pool: Prefix, used: set<Addr>) returns (r: Option<Addr>)
    requires ValidPrefix(pool)
    ensures r.Some? ==> Chosen(current, pool, used, r)
    ensures r.None? ==> NoneFree(pool, used)
  {
    if ValidReserved(current, pool, used) {
      return current;
    }
    r := FirstFreePoolIP(pool, used);
  }

  method ChooseDns(current: Option<Addr>, pool: Prefix, used: set<Addr>) returns (r: Option<Addr>)
    requires ValidPrefix(pool)
    ensures r.Some? ==> ChosenDns(current, pool, used, r)
    ensures r.None? ==> NoneFree(pool, used)
  {
    if ValidReserved(current, pool, used) {
      return current;
    }
    var preferred := PoolIPAtOffset(pool, DNS_OFFSET);
    if preferred.Some? && preferred.value !in used {
      return preferred;
    }
    r := FirstFreePoolIP(pool, used);
  }

  ghost predicate HostChosen(s: State, t: State)
    requires ValidPrefix(s.pool4) && ValidPrefix(s.pool6)
  {
    var used := Effective(s.leases);
    && t == s.(nat4 := t.nat4, nat6 := t.nat6, dns := t.dns)
    && Chosen(s.nat4, s.pool4, used, t.nat4)
    && Chosen(s.nat6, s.pool6, used + {t.nat4.value}, t.nat6)
    && ChosenDns(s.dns, s.pool4, used + {t.nat4.value, t.nat6.value}, t.dns)
  }

  /** Of the addresses above the network address of the pool, not in use and not 100.100.100.100, the lowest. */
  ghost predicate Lowest(pool: Prefix, used: set<Addr>, a: Addr) {
    && Contains(pool, a) && a.value > NetworkAddr(pool).value && a !in used && a != Address(false, 0x64646464)
    && forall b: Addr :: Contains(pool, b) && b.value > NetworkAddr(pool).value && b !in used && b != Address(false, 0x64646464) ==>
         a.value <= b.value
  }

  /** An address a host may keep: above the network address of the pool and not in use. */
  predicate Keeps(before: Option<Addr>, pool: Prefix, used: set<Addr>) {
    before.Some? && Contains(pool, before.value) && before.value.value > NetworkAddr(pool).value && before.value !in used
  }

  lemma LowestIsFree(pool: Prefix, used: set<Addr>, a: Addr)
    requires ValidPrefix(pool) && LowestFree(pool, used, a)
    ensures Lowest(pool, used, a)
  {
    PoolIsInterval(pool, a);
    forall b: Addr | Contains(pool, b) && b.value > NetworkAddr(pool).value && b !in used && b != Address(false, 0x64646464)
      ensures a.value <= b.value
    {
      assert Free(pool, used, b);
    }
  }

  lemma KeepsReserved(before: Option<Addr>, pool: Prefix, used: set<Addr>)
    requires ValidPrefix(pool)
    ensures Keeps(before, pool, used) <==> ValidReserved(before, pool, used)
  {
    if before.Some? {
      PoolIsInterval(pool, before.value);
    }
  }

  /** The host addresses in terms of the pools: each is kept if it can be; a new DNS address is the one
      53 above the network address if that is free, and any other new address the lowest that is. */
  lemma HostsSpelled(s: State, t: State)
    requires PoolsOk(s) && HostChosen(s, t)
    ensures t.nat4.Some? && t.nat6.Some? && t.dns.Some? && t.leases == s.leases
    ensures var used := set l | l in s.leases :: l.effective;
      && (if Keeps(s.nat4, s.pool4, used) then t.nat4 == s.nat4 else Lowest(s.pool4, used, t.nat4.value))
      && (if Keeps(s.nat6, s.pool6, used + {t.nat4.value}) then t.nat6 == s.nat6
          else Lowest(s.pool6, used + {t.nat4.value}, t.nat6.value))
    ensures var used := (set l | l in s.leases :: l.effective) + {t.nat4.value, t.nat6.value};
      var preferred := Address(false, NetworkAddr(s.pool4).value + 53);
      if Keeps(s.dns, s.pool4, used) then t.dns == s.dns
      else if Contains(s.pool4, preferred) && preferred !in used then t.dns.value == preferred
      else Lowest(s.pool4, used, t.dns.value)
  {
    var used := Effective(s.leases);
    var all := used + {t.nat4.value, t.nat6.value};
    KeepsReserved(s.nat4, s.pool4, used);
    KeepsReserved(s.nat6, s.pool6, used + {t.nat4.value});
    KeepsReserved(s.dns, s.pool4, all);
    hide Contains, Keeps, ValidReserved, Lowest, LowestFree;
    if LowestFree(s.pool4, used, t.nat4.value) {
      LowestIsFree(s.pool4, used, t.nat4.value);
    }
    if LowestFree(s.pool6, used + {t.nat4.value}, t.nat6.value) {
      LowestIsFree(s.pool6, used + {t.nat4.value}, t.nat6.value);
    }
    if LowestFree(s.pool4, all, t.dns.value) {
      LowestIsFree(s.pool4, all, t.dns.value);
    }
  }

  // Assignment

  function OfFamily(leases: seq<Lease>, v6: bool): (r: seq<Lease>)
    ensures forall l :: l in r <==> l in leases && l.key.canonical.v6 == v6
  {
    if leases == [] then []
    else if leases[0].key.canonical.v6 == v6 then [leases[0]] + OfFamily(leases[1..], v6)
    else OfFamily(leases[1..], v6)
  }

  lemma {:induction false} OfFamilyOneToOne(leases: seq<Lease>, v6: bool)
    requires OneToOne(leases)
    ensures OneToOne(OfFamily(leases, v6))
  {
    if leases != [] {
      OfFamilyOneToOne(leases[1..], v6);
      var rest := OfFamily(leases[1..], v6);
      forall j | 0 <= j < |rest|
        ensures rest[j].key != leases[0].key && rest[j].effective != leases[0].effective
      {
        assert rest[j] in leases[1..];
      }
    }
  }

  /** What one pool does for the nodes of its family: active leases for exactly the nodes, a lease
      that lies in the free pool kept, any other address new to the pool. */
  ghost predicate Assigned(pool: Prefix, reserved: set<Addr>, before: seq<Lease>, nodes: set<NodeKey>, active: seq<Lease>) {
    && (forall n :: n in nodes <==> exists l :: l in active && l.key == n)
    && (forall l, m :: l in active && m in active ==> (l.key == m.key <==> l.effective == m.effective))
    && (forall l :: l in active ==> Contains(pool, l.effective) && l.effective !in reserved)
    && (forall l, m :: l in active && m in before && Adopts(pool, reserved, m) ==> (l.key == m.key <==> l.effective == m.effective))
  }

  function InPool(pool: Prefix, hosts: seq<Addr>): set<Addr> {
    set h | h in hosts && Contains(pool, h)
  }

  function NodesOf(nodes: seq<NodeKey>, v6: bool): set<NodeKey> {
    set n | n in nodes && n.canonical.v6 == v6
  }

  method AssignFamily(pool: Prefix, reserved: seq<Addr>, existing: seq<Lease>, nodes: seq<NodeKey>, v6: bool)
    returns (r: Option<seq<Lease>>)
    requires ValidPrefix(pool) && pool.v6 == v6 && OneToOne(existing)
    ensures r.Some? ==>
      Assigned(pool, InPool(pool, reserved), OfFamily(existing, v6), NodesOf(nodes, v6), r.value)
    ensures r.None? ==> Size(pool) < |existing| + |reserved| + |NodesOf(nodes, v6)|
  {
    var familyNodes: seq<NodeKey> := [];
    for i := 0 to |nodes|
      invariant forall n :: n in familyNodes <==> n in nodes[..i] && n.canonical.v6 == v6
    {
      assert nodes[..i + 1] == nodes[..i] + [nodes[i]];
      if nodes[i].canonical.v6 == v6 {
        familyNodes := familyNodes + [nodes[i]];
      }
    }
    assert nodes[..|nodes|] == nodes;
    var kept := OfFamily(existing, v6);
    OfFamilyOneToOne(existing, v6);
    var allocator := new Allocator(pool, kept, reserved);
    assert allocator.reserved == InPool(pool, reserved);
    ghost var adopted, used := allocator.leases, allocator.used;
    r := allocator.Assign(familyNodes);
    ghost var inPool := InPool(pool, reserved);
    if r.Some? {
      AssignedByLeases(pool, inPool, kept, familyNodes, adopted, allocator.leases, r.value);
      assert (set n | n in familyNodes) == NodesOf(nodes, v6);
    } else {
      CountAdopted(pool, inPool, kept, used.Keys, adopted, existing, v6);
      ListCount(reserved, inPool);
      ghost var wanted := set n | n in familyNodes && n !in adopted;
      SubsetCount(wanted, NodesOf(nodes, v6));
    }
  }

  lemma AssignedByLeases(pool: Prefix, reserved: set<Addr>, kept: seq<Lease>, nodes: seq<NodeKey>,
                         adopted: map<NodeKey, Addr>, leases: map<NodeKey, Addr>, active: seq<Lease>)
    requires OneToOne(kept) && adopted == Adopted(pool, reserved, kept)
    requires Injective(leases)
    requires forall k :: k in leases ==> Contains(pool, leases[k]) && leases[k] !in reserved
    requires forall k :: k in adopted ==> k in leases && leases[k] == adopted[k]
    requires forall n :: n in nodes ==> n in leases
    requires forall l :: l in active <==> l.key in nodes && l.key in leases && leases[l.key] == l.effective
    ensures Assigned(pool, reserved, kept, (set n | n in nodes), active)
  {
    forall n | n in nodes
      ensures exists l :: l in active && l.key == n
    {
      assert Lease(n, leases[n]) in active;
    }
    forall l, m | l in active && m in kept && Adopts(pool, reserved, m)
      ensures l.key == m.key <==> l.effective == m.effective
    {
      AdoptedAll(pool, reserved, kept, m);
    }
  }

  lemma {:induction false} ListCount<T>(list: seq<T>, elements: set<T>)
    requires forall x :: x in elements ==> x in list
    ensures |elements| <= |list|
  {
    if list != [] {
      var x := list[0];
      ListCount(list[1..], elements - {x});
      if x in elements {
        assert elements == (elements - {x}) + {x};
      } else {
        assert elements == elements - {x};
      }
    } else {
      assert elements == {};
    }
  }

  lemma CountAdopted(pool: Prefix, reserved: set<Addr>, kept: seq<Lease>, used: set<Addr>, adopted: map<NodeKey, Addr>,
                     existing: seq<Lease>, v6: bool)
    requires adopted == Adopted(pool, reserved, kept) && kept == OfFamily(existing, v6)
    requires forall ip :: ip in used ==> exists k :: k in adopted && adopted[k] == ip
    ensures |used| <= |existing|
  {
    var effective := Effective(existing);
    forall ip | ip in used
      ensures ip in effective
    {
      var k :| k in adopted && adopted[k] == ip;
      AdoptedHas(pool, reserved, kept, k);
      assert Lease(k, ip) in existing;
    }
    SubsetCount(used, effective);
    EffectiveCount(existing);
  }

  lemma {:induction false} EffectiveCount(leases: seq<Lease>)
    ensures |Effective(leases)| <= |leases|
  {
    if leases != [] {
      EffectiveCount(leases[1..]);
      assert Effective(leases) == Effective(leases[1..]) + {leases[0].effective};
      UnionCount(Effective(leases[1..]), {leases[0].effective});
    }
  }

  // Merging

  /** The active leases and the others that were there before, one per key. */
  ghost predicate Merged(before: seq<Lease>, active: seq<Lease>, after: seq<Lease>) {
    && (forall i, j :: 0 <= i < j < |after| ==> after[i].key != after[j].key)
    && forall l :: l in after <==> l in active || (l in before && forall m :: m in active ==> m.key != l.key)
  }

  ghost predicate DistinctKeys(leases: seq<Lease>) {
    forall l, m :: l in leases && m in leases && l.key == m.key ==> l == m
  }

  method MergeLeases(before: seq<Lease>, active: seq<Lease>) returns (after: seq<Lease>)
    requires DistinctKeys(before) && DistinctKeys(active)
    ensures Merged(before, active, after)
  {
    var byKey: map<NodeKey, Lease> := map[];
    for i := 0 to |before|
      invariant forall k :: k in byKey ==> byKey[k].key == k && byKey[k] in before
      invariant forall l :: l in before[..i] ==> l.key in byKey && byKey[l.key] == l
    {
      assert before[..i + 1] == before[..i] + [before[i]];
      byKey := byKey[before[i].key := before[i]];
    }
    assert before[..|before|] == before;
    for i := 0 to |active|
      invariant forall k :: k in byKey ==> byKey[k].key == k && (byKey[k] in before || byKey[k] in active)
      invariant forall l :: l in active[..i] ==> l.key in byKey && byKey[l.key] == l
      invariant forall l :: l in before && (forall m :: m in active[..i] ==> m.key != l.key) ==> l.key in byKey && byKey[l.key] == l
      invariant forall k :: k in byKey && byKey[k] !in active[..i] ==> byKey[k] in before
    {
      assert active[..i + 1] == active[..i] + [active[i]];
      byKey := byKey[active[i].key := active[i]];
    }
    assert active[..|active|] == active;
    after := Listing(byKey);
    forall l
      ensures l in after <==> l in active || (l in before && forall m :: m in active ==> m.key != l.key)
    {
      if l in after && l !in active {
        assert byKey[l.key] == l;
      }
    }
  }

  method Listing(byKey: map<NodeKey, Lease>) returns (after: seq<Lease>)
    requires forall k :: k in byKey ==> byKey[k].key == k
    ensures forall i, j :: 0 <= i < j < |after| ==> after[i].key != after[j].key
    ensures forall l :: l in after <==> l.key in byKey && byKey[l.key] == l
  {
    after := [];
    var left := byKey.Keys;
    while left != {}
      invariant left <= byKey.Keys
      invariant forall i, j :: 0 <= i < j < |after| ==> after[i].key != after[j].key
      invariant forall l :: l in after <==> l.key in byKey && l.key !in left && byKey[l.key] == l
    {
      var k :| k in left;
      after := after + [byKey[k]];
      left := left - {k};
    }
  }

  // One planning step

  predicate PoolsOk(s: State) {
    && ValidPrefix(s.pool4) && !s.pool4.v6 && !Contains(s.pool4, SERVICE)
    && ValidPrefix(s.pool6) && s.pool6.v6
  }

  /** Host addresses chosen, the nodes of both families served, other leases left alone. */
  ghost predicate Planned(s: State, nodes: seq<NodeKey>, t: State, active: seq<Lease>)
    requires PoolsOk(s)
  {
    exists h: State, four, six ::
      && HostChosen(s, h)
      && Assigned(s.pool4, InPool(s.pool4, [h.nat4.value, h.dns.value]), OfFamily(s.leases, false), NodesOf(nodes, false), four)
      && Assigned(s.pool6, InPool(s.pool6, [h.nat6.value]), OfFamily(s.leases, true), NodesOf(nodes, true), six)
      && active == four + six
      && t == h.(leases := t.leases)
      && Merged(s.leases, active, t.leases)
  }

  ghost predicate Expired(s: State, t: State) {
    t == s.(leases := t.leases) && OneToOne(t.leases) && forall l :: l in t.leases ==> l in s.leases
  }

  /** A pool is replaced: its leases and host addresses are given up. */
  ghost predicate Repooled(s: State, v6: bool, pool: Prefix, t: State) {
    && (if v6 then t == s.(pool6 := pool, nat6 := None, leases := t.leases)
        else t == s.(pool4 := pool, nat4 := None, dns := None, leases := t.leases))
    && OneToOne(t.leases) && PoolsOk(t)
    && forall l :: l in t.leases <==> l in s.leases && l.effective.v6 != v6
  }

  datatype Event =
    | ChooseHosts
    | Expire
    | Plan(nodes: seq<NodeKey>)
    | Repool(v6: bool, pool: Prefix)

  ghost predicate Step(s: State, e: Event, t: State)
    requires PoolsOk(s)
  {
    match e
    case ChooseHosts => HostChosen(s, t)
    case Expire => Expired(s, t)
    case Plan(nodes) => t == s || exists active :: Planned(s, nodes, t, active)
    case Repool(v6, pool) => Repooled(s, v6, pool, t)
  }

  // The invariant of all runs

  ghost predicate HostOk(ip: Option<Addr>, pool: Prefix, leases: seq<Lease>) {
    ip.Some? ==> ValidReserved(ip, pool, Effective(leases))
  }

  function PoolOf(s: State, v6: bool): Prefix {
    if v6 then s.pool6 else s.pool4
  }

  ghost predicate Inv(s: State) {
    && PoolsOk(s)
    && OneToOne(s.leases)
    && (forall l :: l in s.leases ==> l.key.canonical.v6 == l.effective.v6 && Contains(PoolOf(s, l.effective.v6), l.effective))
    && HostOk(s.nat4, s.pool4, s.leases) && HostOk(s.nat6, s.pool6, s.leases) && HostOk(s.dns, s.pool4, s.leases)
    && s.nat4.Some? == s.dns.Some? && (s.nat4.Some? ==> s.nat4 != s.dns)
  }

  /** Planning from a good state does not move a host address that is set. */
  lemma HostStays(s: State, h: State)
    requires Inv(s) && HostChosen(s, h)
    ensures s.nat4.Some? ==> h.nat4 == s.nat4
    ensures s.nat6.Some? ==> h.nat6 == s.nat6
    ensures s.dns.Some? ==> h.dns == s.dns
    ensures HostOk(h.nat4, h.pool4, s.leases) && HostOk(h.nat6, h.pool6, s.leases) && HostOk(h.dns, h.pool4, s.leases)
    ensures h.nat4 != h.dns
  {
    if s.nat4.Some? && s.nat6.Some? && s.dns.Some? {
      assert s.nat6.value.v6 && !s.dns.value.v6;
    }
    PreferredAbove(s.pool4);
  }

  lemma PreferredAbove(pool: Prefix)
    requires ValidPrefix(pool)
    ensures Preferred(pool) != NetworkAddr(pool)
  {
  }

  /** Active leases of a family next to all leases there were. */
  lemma ActiveApart(s: State, v6: bool, reserved: set<Addr>, nodes: set<NodeKey>, active: seq<Lease>, l: Lease, m: Lease)
    requires Inv(s) && Assigned(PoolOf(s, v6), reserved, OfFamily(s.leases, v6), nodes, active)
    requires forall n :: n in nodes ==> n.canonical.v6 == v6
    requires Effective(s.leases) !! reserved
    requires l in active && m in s.leases
    ensures l.key.canonical.v6 == l.effective.v6 == v6
    ensures l.key == m.key <==> l.effective == m.effective
  {
    assert l.key in nodes;
    if m.effective.v6 == v6 {
      assert m.effective in Effective(s.leases);
      assert Adopts(PoolOf(s, v6), reserved, m);
    }
  }

  lemma ActivePair(s: State, h: State, nodes: seq<NodeKey>, four: seq<Lease>, six: seq<Lease>, l: Lease)
    requires Inv(s) && HostChosen(s, h)
    requires Assigned(s.pool4, InPool(s.pool4, [h.nat4.value, h.dns.value]), OfFamily(s.leases, false), NodesOf(nodes, false), four)
    requires Assigned(s.pool6, InPool(s.pool6, [h.nat6.value]), OfFamily(s.leases, true), NodesOf(nodes, true), six)
    requires l in four + six
    ensures l.key.canonical.v6 == l.effective.v6 && Contains(PoolOf(s, l.effective.v6), l.effective)
    ensures Some(l.effective) != h.nat4 && Some(l.effective) != h.nat6 && Some(l.effective) != h.dns
    ensures forall m :: m in s.leases || m in four + six ==> (l.key == m.key <==> l.effective == m.effective)
    ensures l.key in nodes
  {
    HostStays(s, h);
    var r4, r6 := InPool(s.pool4, [h.nat4.value, h.dns.value]), InPool(s.pool6, [h.nat6.value]);
    assert Effective(s.leases) !! r4 && Effective(s.leases) !! r6;
    if l in four {
      assert l.key in NodesOf(nodes, false);
    } else {
      assert l.key in NodesOf(nodes, true);
    }
    assert h.nat4.value in r4 && h.dns.value in r4 && h.nat6.value in r6;
    forall m | m in s.leases
      ensures l.key == m.key <==> l.effective == m.effective
    {
      if l in four {
        ActiveApart(s, false, r4, NodesOf(nodes, false), four, l, m);
      } else {
        ActiveApart(s, true, r6, NodesOf(nodes, true), six, l, m);
      }
    }
    forall m | m in four + six
      ensures l.key == m.key <==> l.effective == m.effective
    {
      assert m in four ==> m.key in NodesOf(nodes, false);
      assert m in six ==> m.key in NodesOf(nodes, true);
    }
  }

  /** A planning step keeps the invariant, every lease and every host address, and serves exactly
      the nodes. */
  lemma PlanKeeps(s: State, nodes: seq<NodeKey>, t: State, active: seq<Lease>)
    requires Inv(s) && Planned(s, nodes, t, active)
    ensures Inv(t)
    ensures forall l :: l in s.leases ==> l in t.leases
    ensures forall l :: l in active ==> l in t.leases
    ensures forall n :: n in nodes <==> exists l :: l in active && l.key == n
    ensures t.nat4.Some? && t.nat6.Some? && t.dns.Some?
    ensures (s.nat4.Some? ==> t.nat4 == s.nat4) && (s.nat6.Some? ==> t.nat6 == s.nat6) && (s.dns.Some? ==> t.dns == s.dns)
  {
    var h: State, four, six :|
      && HostChosen(s, h)
      && Assigned(s.pool4, InPool(s.pool4, [h.nat4.value, h.dns.value]), OfFamily(s.leases, false), NodesOf(nodes, false), four)
      && Assigned(s.pool6, InPool(s.pool6, [h.nat6.value]), OfFamily(s.leases, true), NodesOf(nodes, true), six)
      && active == four + six
      && t == h.(leases := t.leases)
      && Merged(s.leases, active, t.leases);
    HostStays(s, h);
    ActiveAll(s, h, nodes, four, six);
    NodesServed(nodes, four, six, s, h);
    hide Assigned, HostChosen, ValidReserved, Contains;
    LeasesKept(s.leases, active, t.leases);
    HostOkAfter(h.nat4, s.pool4, s.leases, active, t.leases);
    HostOkAfter(h.nat6, s.pool6, s.leases, active, t.leases);
    HostOkAfter(h.dns, s.pool4, s.leases, active, t.leases);
  }

  lemma HostOkAfter(ip: Option<Addr>, pool: Prefix, before: seq<Lease>, active: seq<Lease>, after: seq<Lease>)
    requires HostOk(ip, pool, before) && Merged(before, active, after)
    requires forall l :: l in active ==> Some(l.effective) != ip
    ensures HostOk(ip, pool, after)
  {
    forall l | l in after
      ensures Some(l.effective) != ip
    {
      assert l in before ==> l.effective in Effective(before);
    }
  }

  lemma ActiveAll(s: State, h: State, nodes: seq<NodeKey>, four: seq<Lease>, six: seq<Lease>)
    requires Inv(s) && HostChosen(s, h)
    requires Assigned(s.pool4, InPool(s.pool4, [h.nat4.value, h.dns.value]), OfFamily(s.leases, false), NodesOf(nodes, false), four)
    requires Assigned(s.pool6, InPool(s.pool6, [h.nat6.value]), OfFamily(s.leases, true), NodesOf(nodes, true), six)
    ensures forall l :: l in four + six ==>
      && l.key.canonical.v6 == l.effective.v6 && Contains(PoolOf(s, l.effective.v6), l.effective)
      && Some(l.effective) != h.nat4 && Some(l.effective) != h.nat6 && Some(l.effective) != h.dns
      && l.key in nodes
    ensures forall l, m :: l in four + six && (m in s.leases || m in four + six) ==> (l.key == m.key <==> l.effective == m.effective)
  {
    forall l | l in four + six
      ensures l.key.canonical.v6 == l.effective.v6 && Contains(PoolOf(s, l.effective.v6), l.effective)
      ensures Some(l.effective) != h.nat4 && Some(l.effective) != h.nat6 && Some(l.effective) != h.dns
      ensures forall m :: m in s.leases || m in four + six ==> (l.key == m.key <==> l.effective == m.effective)
      ensures l.key in nodes
    {
      hide Assigned, HostChosen, Inv;
      ActivePair(s, h, nodes, four, six, l);
    }
  }

  lemma NodesServed(nodes: seq<NodeKey>, four: seq<Lease>, six: seq<Lease>, s: State, h: State)
    requires Inv(s) && HostChosen(s, h)
    requires Assigned(s.pool4, InPool(s.pool4, [h.nat4.value, h.dns.value]), OfFamily(s.leases, false), NodesOf(nodes, false), four)
    requires Assigned(s.pool6, InPool(s.pool6, [h.nat6.value]), OfFamily(s.leases, true), NodesOf(nodes, true), six)
    ensures forall n :: n in nodes ==> exists l :: l in four + six && l.key == n
  {
    forall n | n in nodes
      ensures exists l :: l in four + six && l.key == n
    {
      assert n in NodesOf(nodes, n.canonical.v6);
      if n.canonical.v6 {
        var l :| l in six && l.key == n;
        assert l in four + six;
      } else {
        var l :| l in four && l.key == n;
        assert l in four + six;
      }
    }
  }

  lemma LeasesKept(before: seq<Lease>, active: seq<Lease>, after: seq<Lease>)
    requires OneToOne(before) && Merged(before, active, after)
    requires forall l, m :: l in active && (m in before || m in active) ==> (l.key == m.key <==> l.effective == m.effective)
    ensures OneToOne(after)
    ensures forall l :: l in before ==> l in after
  {
    forall l | l in before
      ensures l in after
    {
      if m :| m in active && m.key == l.key {
        assert m == l;
      }
    }
    forall i, j | 0 <= i < j < |after|
      ensures after[i].effective != after[j].effective
    {
      assert after[i] in after && after[j] in after;
      if after[i].effective == after[j].effective {
        OneLeasePerAddress(before, after[i], after[j]);
      }
    }
  }

  lemma OneLeasePerAddress(leases: seq<Lease>, l: Lease, m: Lease)
    requires OneToOne(leases) && l.effective == m.effective
    ensures l in leases && m in leases ==> l == m
  {
  }

  lemma StepKeeps(s: State, e: Event, t: State)
    requires Inv(s) && Step(s, e, t)
    ensures Inv(t)
    ensures !e.Repool? ==> (s.nat4.Some? ==> t.nat4 == s.nat4) && (s.nat6.Some? ==> t.nat6 == s.nat6) && (s.dns.Some? ==> t.dns == s.dns)
    ensures !e.Repool? && !e.Expire? ==> forall l :: l in s.leases ==> l in t.leases
    ensures e.Repool? ==> forall l :: l in s.leases && l.effective.v6 != e.v6 ==> l in t.leases
  {
    match e
    case ChooseHosts => HostStays(s, t);
    case Expire =>
      assert Effective(t.leases) <= Effective(s.leases);
    case Plan(nodes) =>
      if t != s {
        var active :| Planned(s, nodes, t, active);
        PlanKeeps(s, nodes, t, active);
      }
    case Repool(v6, pool) =>
      assert Effective(t.leases) <= Effective(s.leases);
  }

  // Runs

  /** States one after the other, each reached by its event. */
  ghost predicate Run(states: seq<State>, events: seq<Event>) {
    && |states| == |events| + 1
    && (forall i :: 0 <= i < |states| ==> PoolsOk(states[i]))
    && forall i :: 0 <= i < |events| ==> Step(states[i], events[i], states[i + 1])
  }

  ghost predicate Empty(s: State) {
    PoolsOk(s) && s.leases == [] && s.nat4 == s.nat6 == s.dns == None
  }

  lemma {:induction false} RunKeepsInv(states: seq<State>, events: seq<Event>, i: nat)
    requires Run(states, events) && Empty(states[0]) && i < |states|
    ensures Inv(states[i])
  {
    if i > 0 {
      RunKeepsInv(states, events, i - 1);
      StepKeeps(states[i - 1], events[i - 1], states[i]);
    }
  }

  /** In every state of every run from the empty one: keys and addresses are one-to-one, and no
      lease has an address of the host. */
  lemma LeasesStayOneToOne(states: seq<State>, events: seq<Event>, i: nat)
    requires Run(states, events) && Empty(states[0]) && i < |states|
    ensures OneToOne(states[i].leases)
    ensures forall l :: l in states[i].leases ==>
      && Some(l.effective) != states[i].nat4 && Some(l.effective) != states[i].nat6 && Some(l.effective) != states[i].dns
      && Contains(PoolOf(states[i], l.effective.v6), l.effective)
    ensures states[i].nat4.Some? ==> states[i].nat4 != states[i].dns
  {
    RunKeepsInv(states, events, i);
    var s := states[i];
    forall l | l in s.leases
      ensures Some(l.effective) != s.nat4 && Some(l.effective) != s.nat6 && Some(l.effective) != s.dns
    {
      assert l.effective in Effective(s.leases);
    }
  }

  /** Host addresses never move while the pools stay. */
  lemma {:induction false} HostsNeverMove(states: seq<State>, events: seq<Event>, i: nat, j: nat)
    requires Run(states, events) && Empty(states[0]) && i <= j < |states|
    requires forall k :: i <= k < j ==> !events[k].Repool?
    ensures states[i].nat4.Some? ==> states[j].nat4 == states[i].nat4
    ensures states[i].nat6.Some? ==> states[j].nat6 == states[i].nat6
    ensures states[i].dns.Some? ==> states[j].dns == states[i].dns
    decreases j - i
  {
    hide Inv, Step;
    if i < j {
      RunKeepsInv(states, events, i);
      StepKeeps(states[i], events[i], states[i + 1]);
      HostsNeverMove(states, events, i + 1, j);
    }
  }

  /** A lease stays exactly as it is until it expires or its pool is replaced, and while its key
      has it no other address is ever given to the key. */
  lemma {:induction false} LeaseKeepsItsAddress(states: seq<State>, events: seq<Event>, i: nat, j: nat, l: Lease)
    requires Run(states, events) && Empty(states[0]) && i <= j < |states|
    requires l in states[i].leases
    requires forall k :: i <= k < j && events[k].Expire? ==> l in states[k].leases ==> l in states[k + 1].leases
    requires forall k :: i <= k < j && events[k].Repool? ==> events[k].v6 != l.effective.v6
    ensures l in states[j].leases
    ensures forall m :: m in states[j].leases && m.key == l.key ==> m == l
    decreases j - i
  {
    if i < j {
      RunKeepsInv(states, events, i);
      StepKeeps(states[i], events[i], states[i + 1]);
      LeaseKeepsItsAddress(states, events, i + 1, j, l);
    } else {
      RunKeepsInv(states, events, j);
    }
  }

  // The daemon's state, updated in place

  class Plans {
    var pool4: Prefix
    var pool6: Prefix
    var nat4: Option<Addr>
    var nat6: Option<Addr>
    var dns: Option<Addr>
    var leases: seq<Lease>

    function Value(): State
      reads this
    {
      State(pool4, pool6, nat4, nat6, dns, leases)
    }

    constructor (s: State)
      ensures Value() == s
    {
      pool4, pool6, nat4, nat6, dns, leases := s.pool4, s.pool6, s.nat4, s.nat6, s.dns, s.leases;
    }

    method EnsureHostIPs() returns (ok: bool)
      requires PoolsOk(Value())
      modifies this`nat4, this`nat6, this`dns
      ensures ok ==> HostChosen(old(Value()), Value())
      ensures !ok ==>
        || NoneFree(pool4, Effective(leases)) || (exists taken :: NoneFree(pool6, Effective(leases) + {taken}))
        || exists a, b :: NoneFree(pool4, Effective(leases) + {a, b})
    {
      var used: set<Addr> := {};
      for i := 0 to |leases|
        invariant used == Effective(leases[..i])
      {
        assert leases[..i + 1] == leases[..i] + [leases[i]];
        used := used + {leases[i].effective};
      }
      assert leases[..|leases|] == leases;
      hide Chosen, ChosenDns, NoneFree, Effective;
      nat4 := ChooseNat(nat4, pool4, used);
      if nat4.None? {
        return false;
      }
      used := used + {nat4.value};
      nat6 := ChooseNat(nat6, pool6, used);
      if nat6.None? {
        return false;
      }
      used := used + {nat6.value};
      assert used == Effective(leases) + {nat4.value, nat6.value};
      dns := ChooseDns(dns, pool4, used);
      ok := dns.Some?;
    }

    /** Both families assigned against the host addresses, then merged with what was there. */
    method AssignEffectiveIPs(nodes: seq<NodeKey>) returns (r: Option<(seq<Lease>, seq<Lease>, seq<Lease>)>)
      requires Inv(Value()) && nat4.Some? && nat6.Some? && dns.Some?
      ensures r.Some? ==>
        && Assigned(pool4, InPool(pool4, [nat4.value, dns.value]), OfFamily(leases, false), NodesOf(nodes, false), r.value.0)
        && Assigned(pool6, InPool(pool6, [nat6.value]), OfFamily(leases, true), NodesOf(nodes, true), r.value.1)
        && Merged(leases, r.value.0 + r.value.1, r.value.2)
      ensures r.None? ==>
        || Size(pool4) < |leases| + 2 + |NodesOf(nodes, false)|
        || Size(pool6) < |leases| + 1 + |NodesOf(nodes, true)|
    {
      var four := AssignFamily(pool4, [nat4.value, dns.value], leases, nodes, false);
      if four.None? {
        return None;
      }
      var six := AssignFamily(pool6, [nat6.value], leases, nodes, true);
      if six.None? {
        return None;
      }
      var active := four.value + six.value;
      assert DistinctKeys(active) by {
        ActiveKeysDistinct(pool4, pool6, InPool(pool4, [nat4.value, dns.value]), InPool(pool6, [nat6.value]), leases, nodes,
          four.value, six.value);
      }
      var all := MergeLeases(leases, active);
      r := Some((four.value, six.value, all));
    }

    /** One reconciliation: a failure leaves the state as it was. */
    method BuildPlan(nodes: seq<NodeKey>) returns (active: Option<seq<Lease>>)
      requires Inv(Value())
      modifies this
      ensures active.Some? ==> Planned(old(Value()), nodes, Value(), active.value)
      ensures active.None? ==> Value() == old(Value())
      ensures Inv(Value())
    {
      ghost var s := Value();
      var copy := new Plans(Value());
      var ok := copy.EnsureHostIPs();
      if !ok {
        return None;
      }
      ghost var h := copy.Value();
      HostStays(s, h);
      var r := copy.AssignEffectiveIPs(nodes);
      if r.None? {
        return None;
      }
      nat4, nat6, dns, leases := copy.nat4, copy.nat6, copy.dns, r.value.2;
      active := Some(r.value.0 + r.value.1);
      PlanKeeps(s, nodes, Value(), active.value);
    }
  }

  lemma ActiveKeysDistinct(pool4: Prefix, pool6: Prefix, r4: set<Addr>, r6: set<Addr>, leases: seq<Lease>, nodes: seq<NodeKey>,
                           four: seq<Lease>, six: seq<Lease>)
    requires Assigned(pool4, r4, OfFamily(leases, false), NodesOf(nodes, false), four)
    requires Assigned(pool6, r6, OfFamily(leases, true), NodesOf(nodes, true), six)
    ensures DistinctKeys(four + six)
  {
    forall l, m | l in four + six && m in four + six && l.key == m.key
      ensures l == m
    {
      assert l in four ==> l.key in NodesOf(nodes, false);
      assert m in four ==> m.key in NodesOf(nodes, false);
      assert l in six ==> l.key in NodesOf(nodes, true);
      assert m in six ==> m.key in NodesOf(nodes, true);
    }
  }
}
