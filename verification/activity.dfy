/** The tracker that decides when dormant leases may be reclaimed. */
module LeaseActivity {
  import opened Net
  import opened EffectiveIP

  /** One hour, in nanoseconds. */
  const LEASE_RETENTION: nat := 3_600_000_000_000

  datatype Entry = Entry(key: NodeKey, lastSeen: int, present: bool)

  type Entries = map<Addr, Entry>

  // What the calls do to the records

  predicate Known(entries: Entries, l: Lease) {
    l.effective in entries && entries[l.effective].key == l.key
  }

  function TrackedEntry(entries: Entries, l: Lease, now: int): Entry {
    if Known(entries, l) then entries[l.effective] else Entry(l.key, now, true)
  }

  function AfterSetLeases(entries: Entries, leases: seq<Lease>, now: int): Entries {
    if leases == [] then map[]
    else
      var l := leases[|leases| - 1];
      var m := AfterSetLeases(entries, leases[..|leases| - 1], now);
      if l.effective in m then m else m[l.effective := TrackedEntry(entries, l, now)]
  }

  function AfterObserve(entries: Entries, effective: Addr, now: int): Entries {
    if effective !in entries || entries[effective].present || now <= entries[effective].lastSeen then entries
    else entries[effective := entries[effective].(lastSeen := now)]
  }

  /** What one observation saw: the targets in a netmap, and the profiles it covers. */
  datatype View = View(present: set<NodeKey>, observable: set<string>, now: int)

  predicate Absent(v: View, l: Lease) {
    l.key !in v.present && l.key.profile in v.observable
  }

  /** An absence that was already recorded has lasted the retention time. */
  predicate Expires(entries: Entries, v: View, l: Lease) {
    && Absent(v, l) && Known(entries, l) && !entries[l.effective].present
    && v.now - entries[l.effective].lastSeen >= LEASE_RETENTION
  }

  function RetainedEntry(entries: Entries, v: View, l: Lease): Entry {
    if !Absent(v, l) then Entry(l.key, v.now, true)
    else if !Known(entries, l) || entries[l.effective].present then Entry(l.key, v.now, false)
    else entries[l.effective]
  }

  datatype Retained = Retained(entries: Entries, leases: seq<Lease>)

  function AfterRetain(entries: Entries, v: View, leases: seq<Lease>): Retained {
    if leases == [] then Retained(map[], [])
    else
      var l := leases[|leases| - 1];
      var r := AfterRetain(entries, v, leases[..|leases| - 1]);
      if l.effective in r.entries || Expires(entries, v, l) then r
      else Retained(r.entries[l.effective := RetainedEntry(entries, v, l)], r.leases + [l])
  }

  class ActivityTracker {
    var entries: Entries

    constructor ()
      ensures entries == map[]
    {
      entries := map[];
    }

    method SetLeases(leases: seq<Lease>, now: int)
      modifies this
      ensures entries == AfterSetLeases(old(entries), leases, now)
    {
      var next: Entries := map[];
      for i := 0 to |leases|
        invariant entries == old(entries)
        invariant next == AfterSetLeases(entries, leases[..i], now)
      {
        assert leases[..i + 1][..i] == leases[..i];
        var l := leases[i];
        if l.effective !in next {
          var entry := Entry(l.key, now, true);
          if l.effective in entries && entries[l.effective].key == l.key {
            entry := entries[l.effective];
          }
          next := next[l.effective := entry];
        }
      }
      assert leases[..|leases|] == leases;
      entries := next;
    }

    method ObserveOutbound(effective: Addr, now: int)
      modifies this
      ensures entries == AfterObserve(old(entries), effective, now)
    {
      if effective !in entries || entries[effective].present {
        return;
      }
      if now > entries[effective].lastSeen {
        entries := entries[effective := entries[effective].(lastSeen := now)];
      }
    }

    method Retain(leases: seq<Lease>, v: View) returns (out: seq<Lease>)
      modifies this
      ensures Retained(entries, out) == AfterRetain(old(entries), v, leases)
    {
      var next: Entries := map[];
      out := [];
      for i := 0 to |leases|
        invariant entries == old(entries)
        invariant Retained(next, out) == AfterRetain(entries, v, leases[..i])
      {
        assert leases[..i + 1][..i] == leases[..i];
        var l := leases[i];
        if l.effective in next {
          continue;
        }
        var known := l.effective in entries && entries[l.effective].key == l.key;
        var entry;
        if l.key in v.present || l.key.profile !in v.observable {
          entry := Entry(l.key, v.now, true);
        } else if !known || entries[l.effective].present {
          entry := Entry(l.key, v.now, false);
        } else if v.now - entries[l.effective].lastSeen >= LEASE_RETENTION {
          continue;
        } else {
          entry := entries[l.effective];
        }
        next := next[l.effective := entry];
        out := out + [l];
      }
      assert leases[..|leases|] == leases;
      entries := next;
    }
  }

  // Lists with distinct addresses

  ghost predicate DistinctAddresses(leases: seq<Lease>) {
    forall i, j :: 0 <= i < j < |leases| ==> leases[i].effective != leases[j].effective
  }

  lemma {:induction false} SetLeasesRecords(entries: Entries, leases: seq<Lease>, now: int, l: Lease)
    requires DistinctAddresses(leases)
    ensures var m := AfterSetLeases(entries, leases, now);
      && (forall a :: a in m ==> exists i :: 0 <= i < |leases| && leases[i].effective == a)
      && (l in leases ==> Known(m, l) && m[l.effective] == TrackedEntry(entries, l, now))
      && (Known(m, l) ==> l in leases)
  {
    if leases != [] {
      var n := |leases| - 1;
      var last := leases[n];
      assert leases == leases[..n] + [last];
      SetLeasesRecords(entries, leases[..n], now, l);
      var before, m := AfterSetLeases(entries, leases[..n], now), AfterSetLeases(entries, leases, now);
      assert last.effective !in before;
      forall a | a in m
        ensures exists i :: 0 <= i < |leases| && leases[i].effective == a
      {
        if a in before {
          var i :| 0 <= i < n && leases[..n][i].effective == a;
          assert leases[i].effective == a;
        } else {
          assert leases[n].effective == a;
        }
      }
    }
  }

  lemma {:induction false} RetainDomain(entries: Entries, v: View, leases: seq<Lease>, a: Addr)
    requires forall i :: 0 <= i < |leases| ==> leases[i].effective != a
    ensures a !in AfterRetain(entries, v, leases).entries
  {
    if leases != [] {
      RetainDomain(entries, v, leases[..|leases| - 1], a);
    }
  }

  lemma {:induction false} RetainRecords(entries: Entries, v: View, leases: seq<Lease>, l: Lease)
    requires DistinctAddresses(leases)
    ensures var r := AfterRetain(entries, v, leases);
      && (l in r.leases <==> l in leases && !Expires(entries, v, l))
      && (l in r.leases ==> Known(r.entries, l) && r.entries[l.effective] == RetainedEntry(entries, v, l))
      && (Known(r.entries, l) ==> l in r.leases)
  {
    if leases != [] {
      var n := |leases| - 1;
      var last := leases[n];
      assert leases == leases[..n] + [last];
      RetainRecords(entries, v, leases[..n], l);
      RetainDomain(entries, v, leases[..n], last.effective);
      var before, r := AfterRetain(entries, v, leases[..n]), AfterRetain(entries, v, leases);
      assert RetainedEntry(entries, v, last).key == last.key;
      hide RetainedEntry, Expires;
      assert l.effective != last.effective ==> (Known(r.entries, l) <==> Known(before.entries, l));
      assert l in leases[..n] ==> l.effective != last.effective;
    }
  }

  // Histories

  datatype Event =
    | SetLeases(leases: seq<Lease>, now: int)
    | Outbound(effective: Addr, now: int)
    | Retain(leases: seq<Lease>, view: View)

  function After(h: seq<Event>): Entries {
    if h == [] then map[]
    else
      var before := After(h[..|h| - 1]);
      match h[|h| - 1]
      case SetLeases(leases, now) => AfterSetLeases(before, leases, now)
      case Outbound(effective, now) => AfterObserve(before, effective, now)
      case Retain(leases, v) => AfterRetain(before, v, leases).entries
  }

  ghost predicate Proper(h: seq<Event>) {
    forall i :: 0 <= i < |h| && !h[i].Outbound? ==> DistinctAddresses(h[i].leases)
  }

  // The reference: when a history makes a lease expire, without the tracker's records

  /** The retention call `i` observes the profile of the lease, misses its target and lets the lease live. */
  ghost predicate MissedAt(h: seq<Event>, i: nat, l: Lease)
    requires i < |h|
    decreases i, 3
  {
    && h[i].Retain? && l in h[i].leases
    && l.key !in h[i].view.present && l.key.profile in h[i].view.observable
    && !Dropped(h, i, l)
  }

  /** The target has been absent without a break since the retention call `i`, up to `n`. */
  ghost predicate AbsentSince(h: seq<Event>, i: nat, n: nat, l: Lease)
    requires i < n <= |h|
    decreases n, 0
  {
    && MissedAt(h, i, l)
    && forall j :: i < j < n ==> MissedAt(h, j, l) || (h[j].SetLeases? && l in h[j].leases) || h[j].Outbound?
  }

  /** The call `i` began the unbroken absence that lasts up to `n`. */
  ghost predicate Began(h: seq<Event>, i: nat, n: nat, l: Lease)
    requires i < n <= |h|
    decreases n, 1
  {
    AbsentSince(h, i, n, l) && forall k :: 0 <= k < i ==> !AbsentSince(h, k, n, l)
  }

  /** Neither the begin of the absence nor an outbound packet since is later than `x`. */
  ghost predicate QuietSince(h: seq<Event>, i: nat, n: nat, l: Lease, x: int)
    requires i < n <= |h|
  {
    && h[i].Retain? && h[i].view.now <= x
    && forall j :: i < j < n && h[j].Outbound? && h[j].effective == l.effective ==> h[j].now <= x
  }

  /** The lease is dropped by the call `n`. */
  ghost predicate Dropped(h: seq<Event>, n: nat, l: Lease)
    requires n < |h|
    decreases n, 2
  {
    && h[n].Retain? && l in h[n].leases
    && l.key !in h[n].view.present && l.key.profile in h[n].view.observable
    && exists i :: 0 <= i < n && Began(h, i, n, l) && QuietSince(h, i, n, l, h[n].view.now - 3_600_000_000_000)
  }

  // The records agree with the reference

  ghost predicate Dormant(entries: Entries, l: Lease) {
    Known(entries, l) && !entries[l.effective].present
  }

  /** A dormant record stands for an unbroken absence, and its time for the last sign of life. */
  ghost predicate Faithful(h: seq<Event>, l: Lease) {
    var m := After(h);
    && (Dormant(m, l) <==> exists i :: 0 <= i < |h| && Began(h, i, |h|, l))
    && (Dormant(m, l) ==> forall i, x: int :: 0 <= i < |h| && Began(h, i, |h|, l) ==>
          (QuietSince(h, i, |h|, l, x) <==> m[l.effective].lastSeen <= x))
  }

  /** Whatever is decided up to `n` does not depend on what follows. */
  lemma {:induction false} DroppedPrefix(h: seq<Event>, k: nat, n: nat, l: Lease)
    requires n < k <= |h|
    ensures Dropped(h[..k], n, l) <==> Dropped(h, n, l)
    decreases n
  {
    forall i | 0 <= i < n
      ensures Began(h[..k], i, n, l) <==> Began(h, i, n, l)
    {
      BeganPrefix(h, k, i, n, l);
    }
    forall i, x: int | 0 <= i < n
      ensures QuietSince(h[..k], i, n, l, x) <==> QuietSince(h, i, n, l, x)
    {
      QuietPrefix(h, k, i, n, l, x);
    }
  }

  lemma AbsentPrefix(h: seq<Event>, k: nat, i: nat, n: nat, l: Lease)
    requires i < n <= k <= |h|
    ensures AbsentSince(h[..k], i, n, l) <==> AbsentSince(h, i, n, l)
    decreases n, 0
  {
    forall j | i <= j < n
      ensures MissedAt(h[..k], j, l) <==> MissedAt(h, j, l)
    {
      DroppedPrefix(h, k, j, l);
    }
  }

  lemma BeganPrefix(h: seq<Event>, k: nat, i: nat, n: nat, l: Lease)
    requires i < n <= k <= |h|
    ensures Began(h[..k], i, n, l) <==> Began(h, i, n, l)
    decreases n, 1
  {
    AbsentPrefix(h, k, i, n, l);
    forall j | 0 <= j < i
      ensures AbsentSince(h[..k], j, n, l) <==> AbsentSince(h, j, n, l)
    {
      AbsentPrefix(h, k, j, n, l);
    }
  }

  lemma QuietPrefix(h: seq<Event>, k: nat, i: nat, n: nat, l: Lease, x: int)
    requires i < n <= k <= |h|
    ensures QuietSince(h[..k], i, n, l, x) <==> QuietSince(h, i, n, l, x)
  {
    assert forall j :: 0 <= j < k ==> h[..k][j] == h[j];
  }

  /** The last event does not break an absence of the lease. */
  ghost predicate Continues(h: seq<Event>, l: Lease)
    requires h != []
  {
    var e := h[|h| - 1];
    MissedAt(h, |h| - 1, l) || (e.SetLeases? && l in e.leases) || e.Outbound?
  }

  lemma AbsentExtends(h: seq<Event>, n: nat, i: nat, l: Lease)
    requires |h| == n + 1 && i < n
    ensures AbsentSince(h, i, |h|, l) <==> AbsentSince(h, i, n, l) && Continues(h, l)
  {
    hide Dropped;
  }

  lemma BeganExtends(h: seq<Event>, n: nat, i: nat, l: Lease)
    requires |h| == n + 1 && i < n
    ensures Began(h, i, |h|, l) <==> Began(h, i, n, l) && Continues(h, l)
  {
    hide Continues, AbsentSince;
    AbsentExtends(h, n, i, l);
    forall k | 0 <= k < i
      ensures AbsentSince(h, k, |h|, l) <==> AbsentSince(h, k, n, l) && Continues(h, l)
    {
      AbsentExtends(h, n, k, l);
    }
  }

  /** No absence of the lease is going on. */
  ghost predicate NoneBegan(h: seq<Event>, n: nat, l: Lease)
    requires n <= |h|
  {
    forall k :: 0 <= k < n ==> !Began(h, k, n, l)
  }

  /** An absence begins with the last event exactly when none was going on. */
  lemma BeganLast(h: seq<Event>, n: nat, l: Lease)
    requires |h| == n + 1
    ensures Began(h, n, |h|, l) <==> MissedAt(h, n, l) && NoneBegan(h, n, l)
  {
    forall k | 0 <= k < n
      ensures AbsentSince(h, k, |h|, l) <==> AbsentSince(h, k, n, l) && Continues(h, l)
    {
      AbsentExtends(h, n, k, l);
    }
    if k :| 0 <= k < n && AbsentSince(h, k, n, l) {
      var first := FirstAbsence(h, k, n, l);
      assert Began(h, first, n, l) && !NoneBegan(h, n, l);
      assert MissedAt(h, n, l) ==> AbsentSince(h, first, |h|, l);
    } else {
      assert NoneBegan(h, n, l);
      assert AbsentSince(h, n, |h|, l) <==> MissedAt(h, n, l);
    }
  }

  lemma {:induction false} FirstAbsence(h: seq<Event>, i: nat, n: nat, l: Lease) returns (first: nat)
    requires i < n <= |h| && AbsentSince(h, i, n, l)
    ensures first <= i && Began(h, first, n, l)
  {
    if k :| 0 <= k < i && AbsentSince(h, k, n, l) {
      first := FirstAbsence(h, k, n, l);
    } else {
      first := i;
    }
  }

  /** The tracker drops a lease exactly when the reference says so, its records being faithful. */
  lemma DropDecision(h: seq<Event>, l: Lease)
    requires h != [] && h[|h| - 1].Retain? && l in h[|h| - 1].leases
    requires Faithful(h[..|h| - 1], l)
    ensures Expires(After(h[..|h| - 1]), h[|h| - 1].view, l) <==> Dropped(h, |h| - 1, l)
  {
    var n := |h| - 1;
    var p := h[..n];
    var v := h[n].view;
    forall i | 0 <= i < n
      ensures Began(p, i, n, l) <==> Began(h, i, n, l)
      ensures QuietSince(p, i, n, l, v.now - LEASE_RETENTION) <==> QuietSince(h, i, n, l, v.now - LEASE_RETENTION)
    {
      BeganPrefix(h, n, i, n, l);
      QuietPrefix(h, n, i, n, l, v.now - LEASE_RETENTION);
    }
    hide Began, QuietSince, After;
    if Dormant(After(p), l) {
      var i :| 0 <= i < n && Began(p, i, n, l);
    }
  }

  lemma FaithfulSet(h: seq<Event>, n: nat, l: Lease)
    requires |h| == n + 1 && Proper(h) && h[n].SetLeases? && Faithful(h[..n], l)
    ensures Faithful(h, l)
  {
    SetLeasesRecords(After(h[..n]), h[n].leases, h[n].now, l);
    Carry(h, n, l);
  }

  lemma FaithfulOutbound(h: seq<Event>, n: nat, l: Lease)
    requires |h| == n + 1 && h[n].Outbound? && Faithful(h[..n], l)
    ensures Faithful(h, l)
  {
    Carry(h, n, l);
  }

  lemma FaithfulRetain(h: seq<Event>, n: nat, l: Lease)
    requires |h| == n + 1 && Proper(h) && h[n].Retain? && Faithful(h[..n], l)
    ensures Faithful(h, l)
  {
    RetainRecords(After(h[..n]), h[n].view, h[n].leases, l);
    if l in h[n].leases {
      DropDecision(h, l);
    }
    Carry(h, n, l);
  }

  /** What the absences of a history are, from those of the history without its last event. */
  lemma Carry(h: seq<Event>, n: nat, l: Lease)
    requires |h| == n + 1
    ensures forall i :: 0 <= i < n ==> (Began(h, i, |h|, l) <==> Began(h[..n], i, n, l) && Continues(h, l))
    ensures Began(h, n, |h|, l) <==> MissedAt(h, n, l) && NoneBegan(h[..n], n, l)
    ensures forall i, x: int :: 0 <= i < n ==>
      (QuietSince(h, i, |h|, l, x) <==>
        QuietSince(h[..n], i, n, l, x) && (h[n].Outbound? && h[n].effective == l.effective ==> h[n].now <= x))
  {
    forall i | 0 <= i < n
      ensures Began(h, i, |h|, l) <==> Began(h[..n], i, n, l) && Continues(h, l)
      ensures Began(h, i, n, l) <==> Began(h[..n], i, n, l)
    {
      BeganExtends(h, n, i, l);
      BeganPrefix(h, n, i, n, l);
    }
    BeganLast(h, n, l);
    forall i, x: int | 0 <= i < n
      ensures QuietSince(h, i, |h|, l, x) <==>
        QuietSince(h[..n], i, n, l, x) && (h[n].Outbound? && h[n].effective == l.effective ==> h[n].now <= x)
    {
      QuietPrefix(h, n, i, n, l, x);
    }
  }

  lemma {:induction false} RecordsFaithful(h: seq<Event>, l: Lease)
    requires Proper(h)
    ensures Faithful(h, l)
  {
    if h != [] {
      var n := |h| - 1;
      assert Proper(h[..n]);
      RecordsFaithful(h[..n], l);
      match h[n]
      case SetLeases(_, _) => FaithfulSet(h, n, l);
      case Outbound(_, _) => FaithfulOutbound(h, n, l);
      case Retain(_, _) => FaithfulRetain(h, n, l);
    }
  }

  // Main results

  /** A retention call drops a lease exactly when the target was missed by every retention call since
      the one that began the absence, the lease was known to the tracker all along, and neither that
      call nor any outbound packet since is younger than the retention time. */
  lemma DroppedExactly(h: seq<Event>, l: Lease)
    requires Proper(h) && h != [] && h[|h| - 1].Retain? && l in h[|h| - 1].leases
    ensures l !in AfterRetain(After(h[..|h| - 1]), h[|h| - 1].view, h[|h| - 1].leases).leases <==> Dropped(h, |h| - 1, l)
  {
    var n := |h| - 1;
    assert Proper(h[..n]);
    RecordsFaithful(h[..n], l);
    DropDecision(h, l);
    RetainRecords(After(h[..n]), h[n].view, h[n].leases, l);
  }

  /** A drop has an unbroken absence of the retention time behind it. */
  lemma AbsenceOf(h: seq<Event>, n: nat, l: Lease) returns (i: nat)
    requires n < |h| && Dropped(h, n, l)
    ensures i < n && AbsentSince(h, i, n, l) && MissedAt(h, i, l)
    ensures h[n].view.now - h[i].view.now >= 3_600_000_000_000
  {
    i :| 0 <= i < n && Began(h, i, n, l) && QuietSince(h, i, n, l, h[n].view.now - 3_600_000_000_000);
  }

  /** A retention call that sees the target, or does not observe its profile, keeps the lease, and
      breaks the absence: dropping the lease later takes a whole absence after that call. */
  lemma SightingKeepsLease(h: seq<Event>, j: nat, n: nat, l: Lease)
    requires Proper(h) && j <= n < |h| && h[j].Retain? && l in h[j].leases
    requires l.key in h[j].view.present || l.key.profile !in h[j].view.observable
    ensures l in AfterRetain(After(h[..j]), h[j].view, h[j].leases).leases
    ensures !Dropped(h, j, l)
    ensures forall i :: 0 <= i < j < n ==> !AbsentSince(h, i, n, l)
    ensures Dropped(h, n, l) ==>
      exists i :: j < i < n && MissedAt(h, i, l) && h[n].view.now - h[i].view.now >= 3_600_000_000_000
  {
    var p := h[..j + 1];
    assert p[..j] == h[..j] && Proper(p);
    DroppedExactly(p, l);
    DroppedPrefix(h, j + 1, j, l);
    assert !MissedAt(h, j, l);
    hide Dropped;
    if Dropped(h, n, l) {
      var i := AbsenceOf(h, n, l);
    }
  }

  /** An address that another target held at call `j` starts anew: dropping the lease takes a whole
      absence after `j`. */
  lemma ReusedAddressStartsAnew(h: seq<Event>, j: nat, n: nat, l: Lease, m: Lease)
    requires Proper(h) && j < n < |h| && Dropped(h, n, l)
    requires !h[j].Outbound? && m in h[j].leases && m.effective == l.effective && m.key != l.key
    ensures exists i :: j < i < n && MissedAt(h, i, l) && h[n].view.now - h[i].view.now >= 3_600_000_000_000
  {
    var i := AbsenceOf(h, n, l);
    assert l !in h[j].leases;
  }
}
