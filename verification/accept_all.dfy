/** Which packets the accept-all imports carry, from the policy to the packet tables. */
module AcceptAll {
  import opened Net
  import opened EffectiveIP
  import opened AddressPlan
  import opened RoutePolicy
  import opened PacketMap
  import opened TunConfig

  /** The table sends the address to the profile through the imported tier. */
  predicate CarriedByImport(t: Table, ip: Addr, profile: string) {
    && Lookup(t.destinations, ip).None? && Lookup(t.exact, ip).None?
    && Lookup(t.imported, ip) == Some(SubnetRoute(profile, true)) && profile != ""
  }

  /** The longest prefix around the address that any available accept-all profile advertises. */
  ghost predicate LongestAdvertised(profiles: seq<Profile>, statuses: seq<Status>, ip: Addr, x: Prefix) {
    && Advertised(profiles, statuses, x) && Contains(x, ip)
    && forall y :: Advertised(profiles, statuses, y) && Contains(y, ip) ==> y.bits <= x.bits
  }

  ghost predicate InExact(t: Table, ip: Addr) {
    exists x :: x in t.exact && Contains(x, ip)
  }

  lemma ImportedKeys(env: Env, profiles: seq<Profile>, statuses: seq<Status>, bindings: seq<Binding>, exact: seq<IPEntry>,
                     imported: seq<IPEntry>, t: Table, x: Prefix)
    requires PlanOk(env, profiles, statuses, bindings, exact, imported) && ImportsOk(env, imported, t.imported)
    ensures x in t.imported <==> Advertised(profiles, statuses, x)
    ensures x in t.imported ==> exists e ::
      && e in imported && e.prefix == x && ImportedOk(env, profiles, statuses, exact, e)
      && t.imported[x] == SubnetRoute(e.profile, e.active && !ReservedForTable(env, x))
  {
    hide ImportedOk, ReservedForTable, Advertised;
    if x in t.imported {
      var e :| e in imported && e.prefix == x;
      var i :| 0 <= i < |imported| && imported[i] == e;
      assert HasPrefix(imported, x);
    }
    if HasPrefix(imported, x) {
      var i :| 0 <= i < |imported| && imported[i].prefix == x;
      assert imported[i] in imported;
    }
  }

  /** An address goes to a profile through accept-all exactly when it has no effective target, no exact
      entry contains it, and the longest accept-all prefix around it is advertised by that profile
      alone and is not reserved. */
  lemma CarriedExactly(env: Env, profiles: seq<Profile>, statuses: seq<Status>, bindings: seq<Binding>, exact: seq<IPEntry>,
                       imported: seq<IPEntry>, retained: map<Prefix, SubnetRoute>, t: Table, ip: Addr, profile: string)
    requires PlanOk(env, profiles, statuses, bindings, exact, imported)
    requires ImportsOk(env, imported, t.imported) && ExactOk(env, retained, exact, t.exact)
    ensures CarriedByImport(t, ip, profile) <==>
      && Lookup(t.destinations, ip).None? && !InExact(t, ip) && profile != ""
      && exists x :: LongestAdvertised(profiles, statuses, ip, x) && Sole(profiles, statuses, profile, x) && !ReservedForTable(env, x)
    ensures CarriedByImport(t, ip, profile) ==> OutboundDestination(t, ip) == Some(Route(profile, ip, true))
  {
    hide ReservedForTable, Advertises, BindingActive;
    LookupIsLongest(t.exact, ip);
    LookupIsLongest(t.imported, ip);
    forall x
      ensures x in t.imported <==> Advertised(profiles, statuses, x)
    {
      ImportedKeys(env, profiles, statuses, bindings, exact, imported, t, x);
    }
    forall x
      ensures IsLongest(t.imported, ip, x) <==> LongestAdvertised(profiles, statuses, ip, x)
    {
    }
    if !InExact(t, ip) && LookupPrefix(t.imported, ip).Some? {
      var x := LookupPrefix(t.imported, ip).value;
      ImportDecision(env, profiles, statuses, bindings, exact, imported, retained, t, ip, profile, x);
    }
    if Lookup(t.imported, ip).None? {
      assert forall x :: !LongestAdvertised(profiles, statuses, ip, x);
    }
  }

  lemma ImportDecision(env: Env, profiles: seq<Profile>, statuses: seq<Status>, bindings: seq<Binding>, exact: seq<IPEntry>,
                       imported: seq<IPEntry>, retained: map<Prefix, SubnetRoute>, t: Table, ip: Addr, profile: string, x: Prefix)
    requires PlanOk(env, profiles, statuses, bindings, exact, imported)
    requires ImportsOk(env, imported, t.imported) && ExactOk(env, retained, exact, t.exact)
    requires !InExact(t, ip) && IsLongest(t.imported, ip, x)
    ensures Lookup(t.imported, ip) == Some(SubnetRoute(profile, true)) <==>
      Sole(profiles, statuses, profile, x) && !ReservedForTable(env, x)
    ensures forall y :: IsLongest(t.imported, ip, y) ==> y == x
  {
    hide Advertises, BindingActive;
    LongestIsUnique(t.imported, ip, x);
    ImportedKeys(env, profiles, statuses, bindings, exact, imported, t, x);
    var e :| e in imported && e.prefix == x && ImportedOk(env, profiles, statuses, exact, e)
      && t.imported[x] == SubnetRoute(e.profile, e.active && !ReservedForTable(env, x));
    if Overridden(exact, x) {
      var o :| o in exact && Within(x, o.prefix);
      WithinContains(x, o.prefix, ip);
      assert false;
    }
    forall y | IsLongest(t.imported, ip, y)
      ensures y == x
    {
      LongestIsUnique(t.imported, ip, y);
    }
  }

  /** The policy marks an import that an exact entry contains as overridden. Undoing any such mark
      changes no packet's route, in either direction. */
  lemma MarkingNeverMatters(env: Env, exact: seq<IPEntry>, retained: map<Prefix, SubnetRoute>, t: Table,
                            unmarked: map<Prefix, SubnetRoute>, p: Pair, profile: string)
    requires ExactOk(env, retained, exact, t.exact) && unmarked.Keys == t.imported.Keys
    requires forall x :: x in unmarked && unmarked[x] != t.imported[x] ==> Overridden(exact, x)
    ensures MapOutbound(t.(imported := unmarked), p) == MapOutbound(t, p)
    ensures MapInbound(t.(imported := unmarked), profile, p) == MapInbound(t, profile, p)
  {
    forall x | x in unmarked && unmarked[x] != t.imported[x]
      ensures exists e :: e in t.exact && Within(x, e)
    {
      var o :| o in exact && Within(x, o.prefix);
      assert o.prefix in t.exact;
    }
    OverrideMarkIsInert(t, unmarked, p, profile);
  }

  /** The two reservation tests agree while the DNS address lies in its pool. */
  lemma ReservationsAgree(env: Env, p: Prefix)
    requires ValidPrefix(p) && PoolsOk(TunConfig.StateOf(env)) && (env.dns.Some? ==> Contains(env.pool4, env.dns.value))
    ensures ReservedForTable(env, p) <==> Reserved(env, p)
  {
    if Holds(p, env.dns) {
      OverlapShares(p, env.pool4);
    }
    if Contains(p, SERVICE) {
      ServiceInside();
      var s: Addr := SERVICE;
      OverlapShares(p, CGNAT);
    }
  }

  lemma ServiceInside()
    ensures ValidPrefix(CGNAT) && Contains(CGNAT, SERVICE) && ShiftRight(SERVICE.value, 32) == 0
  {
    assert ShiftRight(0x64646464, 22) == 401 by {
      Halve(0x64646464, 22, [0x32323232, 0x19191919, 0xC8C8C8C, 0x6464646, 0x3232323, 0x1919191, 0xC8C8C8, 0x646464, 0x323232,
        0x191919, 0xC8C8C, 0x64646, 0x32323, 0x19191, 0xC8C8, 0x6464, 0x3232, 0x1919, 0xC8C, 0x646, 0x323, 0x191]);
    }
    ShiftRightShiftRight(0x64646464, 22, 10);
    assert ShiftRight(401, 10) == 0 by {
      Halve(401, 10, [200, 100, 50, 25, 12, 6, 3, 1, 0, 0]);
    }
  }

  /** Shifting one bit at a time. */
  lemma {:induction false} Halve(v: nat, n: nat, steps: seq<nat>)
    requires |steps| == n && n > 0 && steps[0] == v / 2 && forall i :: 0 < i < n ==> steps[i] == steps[i - 1] / 2
    ensures ShiftRight(v, n) == steps[n - 1]
    decreases n
  {
    if n > 1 {
      Halve(v / 2, n - 1, steps[1..]);
    } else {
      assert ShiftRight(v, 1) == ShiftRight(v / 2, 0);
    }
  }

  // Reserved space

  /** An address that no profile may take over: 100.64.0.0 to 100.127.255.255, fd7a:115c:a1e0::/48, the
      pools, the host addresses, the DNS address and 100.100.100.100. */
  ghost predicate ReservedAddress(env: Env, a: Addr) {
    || (!a.v6 && 0x6440_0000 <= a.value < 0x6480_0000)
    || (a.v6 && 0xfd7a_115c_a1e0 * 0x1_0000_0000_0000_0000_0000 <= a.value < 0xfd7a_115c_a1e1 * 0x1_0000_0000_0000_0000_0000)
    || Contains(env.pool4, a) || Contains(env.pool6, a)
    || env.nat4 == Some(a) || env.nat6 == Some(a) || env.dns == Some(a) || a == Address(false, 0x64646464)
  }

  lemma Powers()
    ensures Power(22) == 0x40_0000 && Power(80) == 0x1_0000_0000_0000_0000_0000
  {
    assert Power(10) == 1024 by {
      assert Power(2) == 2 * Power(1) == 4;
      assert Power(4) == 4 * Power(2) == 16;
      assert Power(6) == 4 * Power(4) && Power(8) == 4 * Power(6) && Power(10) == 4 * Power(8);
    }
    PowerSum(10, 10);
    PowerSum(20, 20);
    PowerSum(40, 40);
    assert Power(22) == 2 * Power(21) == 4 * Power(20);
  }

  lemma ReservedRanges(a: Addr)
    ensures Contains(CGNAT, a) <==> !a.v6 && 0x6440_0000 <= a.value < 0x6480_0000
    ensures Contains(ULA, a) <==>
      a.v6 && 0xfd7a_115c_a1e0 * 0x1_0000_0000_0000_0000_0000 <= a.value < 0xfd7a_115c_a1e1 * 0x1_0000_0000_0000_0000_0000
  {
    Powers();
    ShiftRightDivides(a.value, 22, 401);
    ShiftRightDivides(a.value, 80, 0xfd7a_115c_a1e0);
  }

  /** A prefix is reserved for the table exactly when it shares an address with the reserved space. */
  lemma ReservedExactly(env: Env, p: Prefix)
    requires ValidPrefix(p) && PoolsOk(TunConfig.StateOf(env))
    ensures ReservedForTable(env, p) <==> exists a: Addr :: Contains(p, a) && ReservedAddress(env, a)
  {
    ReservedPrefixesValid();
    OverlapShares(p, CGNAT);
    OverlapShares(p, ULA);
    OverlapShares(p, env.pool4);
    OverlapShares(p, env.pool6);
    ServiceInside();
    forall a: Addr
      ensures ReservedAddress(env, a) <==>
        || Contains(CGNAT, a) || Contains(ULA, a) || Contains(env.pool4, a) || Contains(env.pool6, a)
        || env.nat4 == Some(a) || env.nat6 == Some(a) || env.dns == Some(a) || a == SERVICE
    {
      ReservedRanges(a);
    }
    hide Contains, Overlap, ReservedAddress, PoolsOk;
    var service: Addr := SERVICE;
    assert ReservedForTable(env, p) ==> exists a: Addr :: Contains(p, a) && ReservedAddress(env, a);
  }

  lemma ReservedPrefixesValid()
    ensures ValidPrefix(CGNAT) && ValidPrefix(ULA)
  {
    ServiceInside();
    ShiftRightDivides(0xfd7a_115c_a1e0, 48, 0);
    assert Power(48) == 0x1_0000_0000_0000 by {
      Powers();
      PowerSum(22, 22);
      PowerSum(44, 2);
      PowerSum(46, 2);
      assert Power(2) == 2 * Power(1) == 4;
    }
  }

  /** No active bound or imported prefix of a finished table has a reserved address. */
  lemma ReservedNeverRouted(env: Env, statuses: seq<Status>, leases: seq<Lease>, all: seq<Lease>, exact: seq<IPEntry>,
                            imported: seq<IPEntry>, exitProfile: string, t: Table, x: Prefix, a: Addr)
    requires TableOk(env, statuses, leases, all, exact, imported, exitProfile, t) && PoolsOk(TunConfig.StateOf(env))
    requires ValidPrefix(x) && Contains(x, a)
    requires (x in t.exact && t.exact[x].active) || (x in t.imported && t.imported[x].active)
    ensures !ReservedAddress(env, a)
  {
    ReservedExactly(env, x);
    hide ReservedAddress, Contains, ReservedForTable, Consistent, PeersFrom, PoolsOk;
  }
}
