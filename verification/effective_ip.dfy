/** Effective addresses: the allocator that gives every node one address of a pool. */
module EffectiveIP {
  import opened Net

  datatype NodeKey = NodeKey(profile: string, node: string, canonical: Addr)

  datatype Lease = Lease(key: NodeKey, effective: Addr)

  // A pool is a run of consecutive addresses

  function Next(a: Address): Address {
    a.(value := a.value + 1)
  }

  /** The value after the last address of the pool. */
  function Beyond(pool: Prefix): nat
    requires ValidPrefix(pool)
  {
    ShiftLeft(pool.top + 1, BitLen(pool.v6) - pool.bits)
  }

  function First(pool: Prefix): nat
    requires ValidPrefix(pool)
  {
    NetworkAddr(pool).value
  }

  lemma {:induction false} ShiftLeftDouble(x: nat, n: nat)
    ensures ShiftLeft(2 * x, n) == 2 * ShiftLeft(x, n)
    decreases n
  {
    if n > 0 {
      ShiftLeftDouble(2 * x, n - 1);
    }
  }

  lemma {:induction false} ShiftedBetween(v: nat, n: nat, t: nat)
    ensures ShiftRight(v, n) == t <==> ShiftLeft(t, n) <= v < ShiftLeft(t + 1, n)
    decreases n
  {
    if n > 0 {
      ShiftedBetween(v / 2, n - 1, t);
      ShiftLeftDouble(t, n - 1);
      ShiftLeftDouble(t + 1, n - 1);
      assert 2 * t + 2 == 2 * (t + 1);
    }
  }

  lemma PoolIsInterval(pool: Prefix, a: Address)
    requires ValidPrefix(pool)
    ensures Contains(pool, a) <==> a.v6 == pool.v6 && First(pool) <= a.value < Beyond(pool)
  {
    if a.v6 == pool.v6 {
      ShiftedBetween(a.value, BitLen(pool.v6) - pool.bits, pool.top);
    }
  }

  /** An address of a pool fits its family. */
  lemma PoolFits(pool: Prefix, a: Address)
    requires ValidPrefix(pool) && Contains(pool, a)
    ensures ShiftRight(a.value, BitLen(a.v6)) == 0
  {
    ShiftRightShiftRight(a.value, BitLen(a.v6) - pool.bits, pool.bits);
  }

  // Counting a pool

  ghost function PoolUpto(pool: Prefix, end: nat): set<Address>
    requires ValidPrefix(pool) && First(pool) <= end
    decreases end
  {
    if end == First(pool) then {} else PoolUpto(pool, end - 1) + {Address(pool.v6, end - 1)}
  }

  lemma {:induction false} PoolUptoCount(pool: Prefix, end: nat)
    requires ValidPrefix(pool) && First(pool) <= end
    ensures |PoolUpto(pool, end)| == end - First(pool)
    ensures forall a :: a in PoolUpto(pool, end) <==> a.v6 == pool.v6 && First(pool) <= a.value < end
    decreases end
  {
    hide First, ValidPrefix;
    if end > First(pool) {
      PoolUptoCount(pool, end - 1);
      assert Address(pool.v6, end - 1) !in PoolUpto(pool, end - 1);
    }
  }

  lemma FirstBeforeBeyond(pool: Prefix)
    requires ValidPrefix(pool)
    ensures First(pool) < Beyond(pool)
  {
    NetworkAddrInside(pool);
    PoolIsInterval(pool, NetworkAddr(pool));
  }

  function Size(pool: Prefix): (n: nat)
    requires ValidPrefix(pool)
    ensures n > 0
  {
    FirstBeforeBeyond(pool);
    Beyond(pool) - First(pool)
  }

  lemma SubsetCount<T>(a: set<T>, b: set<T>)
    requires a <= b
    ensures |a| <= |b|
  {
    assert b == a + (b - a);
    assert |b| == |a| + |b - a|;
  }

  lemma UnionCount<T>(a: set<T>, b: set<T>)
    ensures |a + b| <= |a| + |b|
  {
    assert a + b == a + (b - a);
    SubsetCount(b - a, b);
  }

  /** A pool whose addresses are all taken is no larger than what takes them. */
  lemma FullPoolCount(pool: Prefix, reserved: set<Addr>, used: set<Addr>)
    requires ValidPrefix(pool)
    requires forall a: Addr :: Contains(pool, a) ==> a in reserved || a in used
    ensures Size(pool) <= |reserved| + |used|
  {
    FirstBeforeBeyond(pool);
    PoolUptoCount(pool, Beyond(pool));
    var all := PoolUpto(pool, Beyond(pool));
    var taken: set<Address> := reserved + used;
    forall a | a in all
      ensures a in taken
    {
      PoolIsInterval(pool, a);
      PoolFits(pool, a);
      var valid: Addr := a;
      assert valid in reserved + used;
    }
    SubsetCount(all, taken);
    UnionCount(reserved, used);
  }

  // Choosing an address

  /** Nothing but `key` itself keeps `ip` from being given to `key`. */
  predicate Available(reserved: set<Addr>, used: map<Addr, NodeKey>, key: NodeKey, ip: Addr) {
    ip !in reserved && (ip !in used || used[ip] == key)
  }

  /** Adopted leases in list order: a later lease of a key replaces an earlier one. */
  function Adopts(pool: Prefix, reserved: set<Addr>, l: Lease): bool {
    l.key.canonical.v6 == l.effective.v6 && Contains(pool, l.effective) && l.effective !in reserved
  }

  function Adopted(pool: Prefix, reserved: set<Addr>, existing: seq<Lease>): map<NodeKey, Addr> {
    if existing == [] then map[]
    else
      var n := |existing| - 1;
      var m := Adopted(pool, reserved, existing[..n]);
      if Adopts(pool, reserved, existing[n]) then m[existing[n].key := existing[n].effective] else m
  }

  /** One key, one address, both ways. */
  ghost predicate OneToOne(leases: seq<Lease>) {
    forall i, j :: 0 <= i < j < |leases| ==> leases[i].key != leases[j].key && leases[i].effective != leases[j].effective
  }

  lemma {:induction false} AdoptedHas(pool: Prefix, reserved: set<Addr>, existing: seq<Lease>, k: NodeKey)
    ensures k in Adopted(pool, reserved, existing) ==>
      var l := Lease(k, Adopted(pool, reserved, existing)[k]);
      l in existing && Adopts(pool, reserved, l)
    ensures (exists l :: l in existing && l.key == k && Adopts(pool, reserved, l)) ==> k in Adopted(pool, reserved, existing)
  {
    if existing != [] {
      var n := |existing| - 1;
      assert existing == existing[..n] + [existing[n]];
      AdoptedHas(pool, reserved, existing[..n], k);
    }
  }

  /** In a one-to-one list every lease that can be adopted is. */
  lemma AdoptedAll(pool: Prefix, reserved: set<Addr>, existing: seq<Lease>, l: Lease)
    requires OneToOne(existing) && l in existing && Adopts(pool, reserved, l)
    ensures l.key in Adopted(pool, reserved, existing) && Adopted(pool, reserved, existing)[l.key] == l.effective
  {
    AdoptedHas(pool, reserved, existing, l.key);
    var other := Lease(l.key, Adopted(pool, reserved, existing)[l.key]);
    var i :| 0 <= i < |existing| && existing[i] == l;
    var j :| 0 <= j < |existing| && existing[j] == other;
    assert i == j;
  }

  /** Of a one-to-one list, exactly the leases are adopted whose address is of the target's family, in the
      pool and not reserved. */
  lemma AdoptedExactly(pool: Prefix, reserved: set<Addr>, existing: seq<Lease>, l: Lease)
    requires OneToOne(existing)
    ensures l.key in Adopted(pool, reserved, existing) && Adopted(pool, reserved, existing)[l.key] == l.effective <==>
      l in existing && l.key.canonical.v6 == l.effective.v6 && Contains(pool, l.effective) && l.effective !in reserved
  {
    AdoptedHas(pool, reserved, existing, l.key);
    if l in existing && Adopts(pool, reserved, l) {
      AdoptedAll(pool, reserved, existing, l);
    }
  }

  ghost predicate Injective(m: map<NodeKey, Addr>) {
    forall k, l :: k in m && l in m && k != l ==> m[k] != m[l]
  }

  ghost predicate Inverse(leases: map<NodeKey, Addr>, used: map<Addr, NodeKey>) {
    && (forall k :: k in leases ==> leases[k] in used && used[leases[k]] == k)
    && (forall ip :: ip in used ==> used[ip] in leases && leases[used[ip]] == ip)
  }

  class Allocator {
    const pool: Prefix
    var leases: map<NodeKey, Addr>
    var used: map<Addr, NodeKey>
    var reserved: set<Addr>

    /** Leases and users of addresses are inverse to each other, and lie in the free pool. */
    ghost predicate Valid()
      reads this
    {
      && ValidPrefix(pool)
      && Inverse(leases, used)
      && forall k :: k in leases ==> Contains(pool, leases[k]) && leases[k] !in reserved
    }

    constructor (p: Prefix, existing: seq<Lease>, hosts: seq<Addr>)
      requires ValidPrefix(p)
      ensures pool == p
      ensures reserved == set h | h in hosts && Contains(p, h)
      ensures leases == Adopted(p, reserved, existing)
      ensures OneToOne(existing) ==> Valid()
    {
      pool := p;
      leases, used, reserved := map[], map[], {};
      new;
      for i := 0 to |hosts|
        invariant leases == map[] && used == map[]
        invariant reserved == set h | h in hosts[..i] && Contains(p, h)
      {
        assert hosts[..i + 1] == hosts[..i] + [hosts[i]];
        if Contains(p, hosts[i]) {
          reserved := reserved + {hosts[i]};
        }
      }
      assert hosts[..|hosts|] == hosts;
      for i := 0 to |existing|
        invariant reserved == set h | h in hosts && Contains(p, h)
        invariant leases == Adopted(p, reserved, existing[..i])
        invariant OneToOne(existing) ==> Valid()
      {
        assert existing[..i + 1][..i] == existing[..i];
        var l := existing[i];
        AdoptedBefore(p, reserved, existing, i, l);
        if Adopts(p, reserved, l) {
          leases := leases[l.key := l.effective];
          used := used[l.effective := l.key];
        }
      }
      assert existing[..|existing|] == existing;
    }

    /** The lowest address of the pool that is neither reserved nor held by another key. */
    method NextSynthetic(key: NodeKey) returns (r: Option<Addr>)
      requires ValidPrefix(pool)
      ensures r.Some? ==>
        && Contains(pool, r.value) && Available(reserved, used, key, r.value)
        && forall a: Addr :: Contains(pool, a) && Available(reserved, used, key, a) ==> r.value.value <= a.value
      ensures r.None? <==> forall a: Addr :: Contains(pool, a) ==> !Available(reserved, used, key, a)
    {
      var ip := NetworkAddr(pool);
      NetworkAddrInside(pool);
      forall a: Addr | Contains(pool, a)
        ensures ip.value <= a.value <= Beyond(pool)
      {
        PoolIsInterval(pool, a);
      }
      FirstBeforeBeyond(pool);
      while Contains(pool, ip)
        invariant ip.v6 == pool.v6 && First(pool) <= ip.value <= Beyond(pool)
        invariant forall a: Addr :: Contains(pool, a) && Available(reserved, used, key, a) ==> ip.value <= a.value
        decreases Beyond(pool) - ip.value
      {
        PoolIsInterval(pool, ip);
        PoolFits(pool, ip);
        if Available(reserved, used, key, ip) {
          return Some(ip);
        }
        ip := Next(ip);
      }
      PoolIsInterval(pool, ip);
      forall a: Addr | Contains(pool, a)
        ensures !Available(reserved, used, key, a)
      {
        PoolIsInterval(pool, a);
      }
      r := None;
    }

    method AssignOne(key: NodeKey) returns (r: Option<Addr>)
      requires Valid() && key !in leases
      modifies this`leases, this`used
      ensures Valid()
      ensures r.Some? ==>
        && Available(reserved, old(used), key, r.value)
        && leases == old(leases)[key := r.value] && |used| == |old(used)| + 1
      ensures r.None? ==> leases == old(leases) && used == old(used) && Size(pool) <= |reserved| + |used|
    {
      r := NextSynthetic(key);
      if r.None? {
        TakenByOthers(pool, leases, used, reserved, key);
        FullPoolCount(pool, reserved, used.Keys);
        assert |used.Keys| == |used|;
      } else {
        assert r.value !in used;
        leases := leases[key := r.value];
        used := used[r.value := key];
      }
    }

    /** One address per node, the ones held kept. It fails only on a node of the other family or
        when used and reserved addresses and the distinct new keys do not fit in the pool. */
    method Assign(nodes: seq<NodeKey>) returns (plan: Option<seq<Lease>>)
      requires Valid()
      modifies this`leases, this`used
      ensures Valid()
      ensures forall k :: k in old(leases) ==> k in leases && leases[k] == old(leases)[k]
      ensures forall k :: k in leases ==> k in old(leases) || k in nodes
      ensures plan.Some? ==> forall l :: l in plan.value <==> l.key in nodes && l.key in leases && leases[l.key] == l.effective
      ensures plan.Some? ==> forall n :: n in nodes ==> n in leases
      ensures plan.None? ==>
        || (exists n :: n in nodes && n.canonical.v6 != pool.v6)
        || Size(pool) < |old(used)| + |reserved| + |set n | n in nodes && n !in old(leases)|
    {
      hide ValidPrefix, Contains, Inverse, Available;
      for i := 0 to |nodes|
        invariant forall n :: n in nodes[..i] ==> n.canonical.v6 == pool.v6
      {
        assert nodes[..i + 1] == nodes[..i] + [nodes[i]];
        if nodes[i].canonical.v6 != pool.v6 {
          return None;
        }
      }
      var out: seq<Lease> := [];
      ghost var newly: set<NodeKey> := {};
      ghost var wanted := set n | n in nodes && n !in old(leases);
      for i := 0 to |nodes|
        invariant Valid()
        invariant forall k :: k in old(leases) ==> k in leases && leases[k] == old(leases)[k]
        invariant newly <= wanted && forall k :: k in leases <==> k in old(leases) || k in newly
        invariant |used| == |old(used)| + |newly|
        invariant forall n :: n in nodes[..i] ==> n in leases
        invariant forall l :: l in out <==> l.key in nodes[..i] && leases[l.key] == l.effective
      {
        var key := nodes[i];
        assert nodes[..i + 1] == nodes[..i] + [key];
        if key in leases {
          out := out + [Lease(key, leases[key])];
        } else {
          assert key in wanted && key !in newly;
          var effective := AssignOne(key);
          if effective.None? {
            SubsetCount(newly + {key}, wanted);
            return None;
          }
          newly := newly + {key};
          out := out + [Lease(key, effective.value)];
        }
      }
      assert nodes[..|nodes|] == nodes;
      plan := Some(out);
    }
  }

  lemma TakenByOthers(pool: Prefix, leases: map<NodeKey, Addr>, used: map<Addr, NodeKey>, reserved: set<Addr>, key: NodeKey)
    requires Inverse(leases, used) && key !in leases
    requires forall a: Addr :: Contains(pool, a) ==> !Available(reserved, used, key, a)
    ensures forall a: Addr :: Contains(pool, a) ==> a in reserved || a in used.Keys
  {
  }

  /** In a one-to-one list the next lease meets no earlier one. */
  lemma AdoptedBefore(pool: Prefix, reserved: set<Addr>, existing: seq<Lease>, i: nat, l: Lease)
    requires i < |existing| && existing[i] == l
    ensures OneToOne(existing) ==>
      var m := Adopted(pool, reserved, existing[..i]);
      l.key !in m && forall k :: k in m ==> m[k] != l.effective
  {
    if OneToOne(existing) {
      var m := Adopted(pool, reserved, existing[..i]);
      forall k | k in m
        ensures k != l.key && m[k] != l.effective
      {
        AdoptedHas(pool, reserved, existing[..i], k);
        var j :| 0 <= j < i && existing[..i][j] == Lease(k, m[k]);
        assert existing[j] == Lease(k, m[k]);
      }
    }
  }
}
