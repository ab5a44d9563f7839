/** Addresses, masked prefixes and longest-prefix lookup: the part of netip and of the
    routing-table library that the rest of the model relies on. */
module Net {
  datatype Option<+T> = None | Some(value: T)

  datatype Address = Address(v6: bool, value: nat)

  /** The width of an address of the family. */
  function BitLen(v6: bool): nat {
    if v6 then 128 else 32
  }

  /** value >> drop */
  function ShiftRight(value: nat, drop: nat): nat {
    if drop == 0 then value else ShiftRight(value / 2, drop - 1)
  }

  /** value << n */
  function ShiftLeft(value: nat, n: nat): nat
    decreases n
  {
    if n == 0 then value else ShiftLeft(2 * value, n - 1)
  }

  /** An address whose value fits the width of its family. */
  type Addr = a: Address | ShiftRight(a.value, BitLen(a.v6)) == 0
    witness (ShiftRightZero(32); Address(false, 0))

  /** A masked prefix: the leading `bits` bits of its addresses, as the number `top`. */
  datatype Prefix = Prefix(v6: bool, bits: nat, top: nat)

  /** The prefix of length `bits` that contains `a`. */
  function PrefixOf(a: Address, bits: nat): Prefix
    requires bits <= BitLen(a.v6)
  {
    Prefix(a.v6, bits, ShiftRight(a.value, BitLen(a.v6) - bits))
  }

  predicate Contains(p: Prefix, a: Address) {
    p.bits <= BitLen(a.v6) && PrefixOf(a, p.bits) == p
  }

  function HostPrefix(a: Address): Prefix {
    Prefix(a.v6, BitLen(a.v6), a.value)
  }

  function DefaultRoute(v6: bool): Prefix {
    Prefix(v6, 0, 0)
  }

  predicate ValidPrefix(p: Prefix) {
    p.bits <= BitLen(p.v6) && ShiftRight(p.top, p.bits) == 0
  }

  /** The lowest address of the prefix, the address netip keeps for it. */
  function NetworkAddr(p: Prefix): Address {
    Address(p.v6, if p.bits <= BitLen(p.v6) then ShiftLeft(p.top, BitLen(p.v6) - p.bits) else 0)
  }

  /** Every address of `q` is one of `p`. */
  predicate Within(q: Prefix, p: Prefix) {
    q.v6 == p.v6 && p.bits <= q.bits && ShiftRight(q.top, q.bits - p.bits) == p.top
  }

  // Shifts

  lemma ShiftRightZero(n: nat)
    ensures ShiftRight(0, n) == 0
  {
  }

  lemma {:induction false} ShiftRightShiftRight(x: nat, m: nat, n: nat)
    ensures ShiftRight(ShiftRight(x, m), n) == ShiftRight(x, m + n)
    decreases m
  {
    if m > 0 {
      ShiftRightShiftRight(x / 2, m - 1, n);
    }
  }

  lemma {:induction false} ShiftLeftThenRight(x: nat, n: nat, m: nat)
    ensures ShiftRight(ShiftLeft(x, n), n + m) == ShiftRight(x, m)
    decreases n
  {
    if n > 0 {
      ShiftLeftThenRight(2 * x, n - 1, m + 1);
    }
  }

  function Power(n: nat): nat {
    if n == 0 then 1 else 2 * Power(n - 1)
  }

  /** Shifting by `n` is dividing by the power of two. */
  lemma {:induction false} ShiftRightDivides(v: nat, n: nat, t: nat)
    ensures ShiftRight(v, n) == t <==> t * Power(n) <= v < (t + 1) * Power(n)
    decreases n
  {
    if n > 0 {
      ShiftRightDivides(v / 2, n - 1, t);
      var k, l := t * Power(n - 1), (t + 1) * Power(n - 1);
      assert t * Power(n) == 2 * k && (t + 1) * Power(n) == 2 * l;
    }
  }

  lemma {:induction false} ShiftLeftMultiplies(x: nat, n: nat)
    ensures ShiftLeft(x, n) == x * Power(n)
    decreases n
  {
    if n > 0 {
      ShiftLeftMultiplies(2 * x, n - 1);
    }
  }

  lemma {:induction false} PowerSum(m: nat, n: nat)
    ensures Power(m + n) == Power(m) * Power(n)
  {
    if m > 0 {
      PowerSum(m - 1, n);
    }
  }

  lemma PowerProduct(m: nat, n: nat, x: nat, y: nat)
    requires Power(m) == x && Power(n) == y
    ensures Power(m + n) == x * y
  {
    PowerSum(m, n);
  }

  // Prefixes

  lemma HostPrefixContains(a: Address, b: Address)
    ensures Contains(HostPrefix(a), b) <==> a == b
  {
  }

  lemma DefaultRouteContains(v6: bool, a: Addr)
    ensures Contains(DefaultRoute(v6), a) <==> a.v6 == v6
  {
  }

  /** Two prefixes of one address are nested, the longer inside the shorter. */
  lemma Nested(p: Prefix, q: Prefix, a: Address)
    requires Contains(p, a) && Contains(q, a) && p.bits <= q.bits
    ensures Within(q, p)
  {
    ShiftRightShiftRight(a.value, BitLen(a.v6) - q.bits, q.bits - p.bits);
  }

  lemma WithinContains(q: Prefix, p: Prefix, a: Address)
    requires Within(q, p) && Contains(q, a)
    ensures Contains(p, a)
  {
    ShiftRightShiftRight(a.value, BitLen(a.v6) - q.bits, q.bits - p.bits);
  }

  /** netip's test of a nested prefix: not shorter, and its own address inside. */
  lemma ContainsNetworkAddr(p: Prefix, q: Prefix)
    requires p.bits <= q.bits <= BitLen(q.v6)
    ensures Contains(p, NetworkAddr(q)) <==> Within(q, p)
  {
    ShiftLeftThenRight(q.top, BitLen(q.v6) - q.bits, q.bits - p.bits);
  }

  lemma NetworkAddrInside(p: Prefix)
    requires p.bits <= BitLen(p.v6)
    ensures Contains(p, NetworkAddr(p))
  {
    ContainsNetworkAddr(p, p);
  }

  /** The network address of a valid prefix is a valid address. */
  lemma NetworkAddrValid(p: Prefix)
    requires ValidPrefix(p)
    ensures ShiftRight(NetworkAddr(p).value, BitLen(p.v6)) == 0
  {
    ShiftLeftThenRight(p.top, BitLen(p.v6) - p.bits, p.bits);
  }

  /** The overlap test of the code, on masked prefixes. */
  predicate Overlap(p: Prefix, q: Prefix) {
    p.v6 == q.v6 && (Contains(p, NetworkAddr(q)) || Contains(q, NetworkAddr(p)))
  }

  /** Prefixes overlap exactly when they share an address. */
  lemma OverlapShares(p: Prefix, q: Prefix)
    requires ValidPrefix(p) && ValidPrefix(q)
    ensures Overlap(p, q) <==> exists a: Addr :: Contains(p, a) && Contains(q, a)
  {
    NetworkAddrInside(p);
    NetworkAddrInside(q);
    NetworkAddrValid(p);
    NetworkAddrValid(q);
    var np: Addr, nq: Addr := NetworkAddr(p), NetworkAddr(q);
    if a: Addr :| Contains(p, a) && Contains(q, a) {
      if p.bits <= q.bits {
        Nested(p, q, a);
        ContainsNetworkAddr(p, q);
      } else {
        Nested(q, p, a);
        ContainsNetworkAddr(q, p);
      }
    }
  }

  // Longest-prefix lookup

  /** The entry of the longest prefix of `a` that is no longer than `bits`. */
  function LookupFrom<V>(table: map<Prefix, V>, a: Address, bits: nat): Option<Prefix>
    requires bits <= BitLen(a.v6)
  {
    if PrefixOf(a, bits) in table then Some(PrefixOf(a, bits))
    else if bits == 0 then None
    else LookupFrom(table, a, bits - 1)
  }

  function LookupPrefix<V>(table: map<Prefix, V>, a: Address): Option<Prefix> {
    LookupFrom(table, a, BitLen(a.v6))
  }

  function Lookup<V>(table: map<Prefix, V>, a: Address): Option<V> {
    var p := LookupPrefix(table, a);
    LookupInTable(table, a, BitLen(a.v6));
    if p.Some? then Some(table[p.value]) else None
  }

  lemma {:induction false} LookupInTable<V>(table: map<Prefix, V>, a: Address, bits: nat)
    requires bits <= BitLen(a.v6)
    ensures LookupFrom(table, a, bits).Some? ==> LookupFrom(table, a, bits).value in table
  {
    if PrefixOf(a, bits) !in table && bits > 0 {
      LookupInTable(table, a, bits - 1);
    }
  }

  /** `p` is the longest prefix of the table that contains `a`. */
  ghost predicate IsLongest<V>(table: map<Prefix, V>, a: Address, p: Prefix) {
    && p in table
    && Contains(p, a)
    && forall q :: q in table && Contains(q, a) ==> q.bits <= p.bits
  }

  lemma {:induction false} LookupFromIsLongest<V>(table: map<Prefix, V>, a: Address, bits: nat)
    requires bits <= BitLen(a.v6)
    requires forall q :: q in table && Contains(q, a) ==> q.bits <= bits
    ensures LookupFrom(table, a, bits).Some? ==> IsLongest(table, a, LookupFrom(table, a, bits).value)
    ensures LookupFrom(table, a, bits).None? ==> forall q :: q in table ==> !Contains(q, a)
  {
    if PrefixOf(a, bits) !in table && bits > 0 {
      LookupFromIsLongest(table, a, bits - 1);
    }
  }

  /** Lookup finds the longest matching entry, and finds one whenever one matches. */
  lemma LookupIsLongest<V>(table: map<Prefix, V>, a: Address)
    ensures LookupPrefix(table, a).Some? ==> IsLongest(table, a, LookupPrefix(table, a).value)
    ensures LookupPrefix(table, a).None? <==> forall q :: q in table ==> !Contains(q, a)
  {
    LookupFromIsLongest(table, a, BitLen(a.v6));
  }

  lemma LongestIsUnique<V>(table: map<Prefix, V>, a: Address, p: Prefix)
    requires IsLongest(table, a, p)
    ensures LookupPrefix(table, a) == Some(p)
    ensures Lookup(table, a) == Some(table[p])
  {
    LookupIsLongest(table, a);
  }
}
