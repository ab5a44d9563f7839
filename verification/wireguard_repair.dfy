/** When a later script repairs a device on which earlier ones have failed: scripts of several changes
    from one running configuration, each stopped anywhere, and then a whole script of another. */
module WireGuardRepair {
  import opened Net
  import opened WireGuardConfig
  import opened WireGuardDevice
  import opened WireGuardScript
  import opened WireGuardDiff

  // When one change spoils nothing that another relies on

  /** The peer has no prefixes and keeps its state, and whatever `c` gives it `target` gives to others. */
  ghost predicate Idle(c: Change, target: Change, k: Key) {
    && k in target.to && k in c.to
    && c.to[k].state == target.to[k].state
    && target.to[k].ips == {}
    && c.to[k].ips <= WrittenIps(target, target.write)
  }

  /** The peer is written without an endpoint and without being removed first, which cannot clear one. */
  predicate ClearsNot(target: Change, k: Key) {
    k in target.write && k in target.to && k !in target.removeFirst && target.to[k].state.endpoint == ""
  }

  /** Whatever `c` touches `target` puts right: it writes or drops every peer that `c` writes or drops,
      it sets the private key and the port if `c` does, and it never has to clear an endpoint that only
      `c` has set. */
  ghost predicate Harmless(c: Change, target: Change) {
    && c.removeFirst + c.removeLast <= target.write + target.removeLast
    && (forall k :: k in c.write && k !in target.write + target.removeLast ==> Idle(c, target, k))
    && (forall k :: ClearsNot(target, k) && k in c.write && k in c.to ==> c.to[k].state.endpoint == "")
    && (c.privateKey.Some? ==> target.privateKey.Some?)
    && (c.listenPort.Some? ==> target.listenPort.Some?)
  }

  /** Both changes start from one plan: what neither touches they agree on. */
  ghost predicate SameBase(c: Change, target: Change) {
    forall l :: l in target.to && l !in target.write && l !in c.write + c.removeLast ==> l in c.to && c.to[l] == target.to[l]
  }

  lemma HarmlessToItself(c: Change)
    requires ValidChange(c)
    ensures Harmless(c, c)
  {
  }

  /** An operation of `c` on a peer that `target` leaves alone. */
  lemma ForeignKeeps(op: Op, s: Session, c: Change, target: Change, l: Key)
    requires ValidChange(c) && ValidChange(target) && SameBase(c, target) && Harmless(c, target)
    requires CursorOf(s, c) && Issued(op, s.cur, c) && l in target.to && l !in target.write
    requires OwnsWithin(s.dev, l, target.to[l], WrittenIps(target, target.write))
    ensures OwnsWithin(Exec(op, s).dev, l, target.to[l], WrittenIps(target, target.write))
  {
    hide WrittenIps;
    if op.AllowedIP? && s.cur.value != l {
      var k := s.cur.value;
      if l in c.write {
        assert Idle(c, target, l);
      } else {
        assert c.to[k].ips !! c.to[l].ips;
      }
    }
  }

  lemma ForeignPreserves(op: Op, s: Session, c: Change, target: Change)
    requires ValidChange(c) && ValidChange(target) && SameBase(c, target) && Harmless(c, target)
    requires Recoverable(s.dev, target) && CursorOf(s, c) && Issued(op, s.cur, c)
    ensures Recoverable(Exec(op, s).dev, target) && CursorOf(Exec(op, s), c)
  {
    forall l | l in target.to && l !in target.write
      ensures OwnsWithin(Exec(op, s).dev, l, target.to[l], WrittenIps(target, target.write))
    {
      ForeignKeeps(op, s, c, target, l);
    }
    hide WrittenIps, OwnsWithin, SameBase, Exclusive;
  }

  lemma {:induction false} ForeignPrefix(ops: seq<Op>, i: nat, s: Session, c: Change, target: Change,
                                         key: Option<Key>, port: nat, mark: nat)
    requires ValidChange(c) && ValidChange(target) && SameBase(c, target) && Harmless(c, target)
    requires Recoverable(s.dev, target) && CursorOf(s, c) && AllIssued(ops, s, c)
    requires Global(s.dev, target, key, port, mark) && i <= |ops|
    ensures Recoverable(Run(ops[..i], s).dev, target) && Global(Run(ops[..i], s).dev, target, key, port, mark)
  {
    hide Recoverable, SameBase, ValidChange;
    if i > 0 {
      ForeignPreserves(ops[0], s, c, target);
      assert ops[..i][1..] == ops[1..][..i - 1];
      ForeignPrefix(ops[1..], i - 1, Exec(ops[0], s), c, target, key, port, mark);
    }
  }

  // Failed attempts

  /** One attempt at a change, in some order, stopped after `stop` operations. */
  datatype Attempt = Attempt(change: Change, order: Order, stop: nat)

  ghost predicate ValidAttempt(a: Attempt) {
    ValidChange(a.change) && OrderOf(a.order, a.change) && a.stop <= |Script(a.change, a.order)|
  }

  ghost function AfterAttempt(d: Device, a: Attempt): Device
    requires ValidAttempt(a)
  {
    IpcSet(Script(a.change, a.order)[..a.stop], d)
  }

  ghost function AfterAttempts(d: Device, attempts: seq<Attempt>): Device
    requires forall a :: a in attempts ==> ValidAttempt(a)
    decreases |attempts|
  {
    if attempts == [] then d else AfterAttempts(AfterAttempt(d, attempts[0]), attempts[1..])
  }

  /** Harmless attempts, however many, leave a device from which the change is still reachable. */
  lemma {:induction false} AttemptsRecoverable(d: Device, attempts: seq<Attempt>, target: Change,
                                               key: Option<Key>, port: nat, mark: nat)
    requires forall a :: a in attempts ==> ValidAttempt(a) && SameBase(a.change, target) && Harmless(a.change, target)
    requires ValidChange(target) && Recoverable(d, target) && Global(d, target, key, port, mark)
    ensures var e := AfterAttempts(d, attempts);
      Recoverable(e, target) && Global(e, target, key, port, mark)
    decreases |attempts|
  {
    hide Recoverable, SameBase, Harmless, Script, OrderOf;
    if attempts != [] {
      var a := attempts[0];
      ScriptIssued(a.change, a.order, d);
      ForeignPrefix(Script(a.change, a.order), a.stop, Session(d, None), a.change, target, key, port, mark);
      AttemptsRecoverable(AfterAttempt(d, a), attempts[1..], target, key, port, mark);
    }
  }

  // What a script cannot put right

  /** The peer is there or not, with its state, and owns nothing new; prefixes the script gives to
      nobody stay with it. */
  ghost predicate LeftAlone(d: Device, e: Device, k: Key, target: Change) {
    && (k in e.peers <==> k in d.peers)
    && (k in d.peers && k in e.peers ==> e.peers[k] == d.peers[k])
    && (forall x :: x in e.allowed && e.allowed[x] == k ==> x in d.allowed && d.allowed[x] == k)
    && (forall x :: x in d.allowed && d.allowed[x] == k && x !in WrittenIps(target, target.write) ==> x in e.allowed && e.allowed[x] == k)
  }

  lemma OpLeavesAlone(op: Op, s: Session, target: Change, k: Key)
    requires CursorOf(s, target) && Issued(op, s.cur, target) && target.removeFirst <= target.write
    requires k !in target.write + target.removeLast
    ensures LeftAlone(s.dev, Exec(op, s).dev, k, target) && CursorOf(Exec(op, s), target)
  {
  }

  lemma {:induction false} ScriptLeavesAlone(ops: seq<Op>, s: Session, target: Change, k: Key)
    requires CursorOf(s, target) && AllIssued(ops, s, target) && target.removeFirst <= target.write
    requires k !in target.write + target.removeLast
    ensures LeftAlone(s.dev, Run(ops, s).dev, k, target)
  {
    if ops != [] {
      OpLeavesAlone(ops[0], s, target, k);
      ScriptLeavesAlone(ops[1..], Exec(ops[0], s), target, k);
      hide WrittenIps, Exec;
    }
  }

  /** An endpoint that is set stays set. */
  lemma {:induction false} EndpointStays(ops: seq<Op>, s: Session, target: Change, k: Key)
    requires ValidChange(target) && CursorOf(s, target) && AllIssued(ops, s, target) && ClearsNot(target, k)
    requires k in s.dev.peers && s.dev.peers[k].endpoint != ""
    ensures k in Run(ops, s).dev.peers && Run(ops, s).dev.peers[k].endpoint != ""
  {
    if ops != [] {
      EndpointStays(ops[1..], Exec(ops[0], s), target, k);
    }
  }

  lemma {:induction false} GlobalsStay(ops: seq<Op>, s: Session, target: Change)
    requires AllIssued(ops, s, target)
    ensures target.privateKey.None? ==> Run(ops, s).dev.privateKey == s.dev.privateKey
    ensures target.listenPort.None? ==> Run(ops, s).dev.listenPort == s.dev.listenPort
  {
    if ops != [] {
      GlobalsStay(ops[1..], Exec(ops[0], s), target);
    }
  }

  // Orders

  lemma {:induction false} Listed<T(!new)>(elements: set<T>) returns (list: seq<T>)
    ensures Enumerates(list, elements)
  {
    if elements == {} {
      list := [];
    } else {
      var x :| x in elements;
      var rest := Listed(elements - {x});
      list := [x] + rest;
    }
  }

  lemma {:induction false} ListedIps(c: Change, keys: set<Key>) returns (lists: map<Key, seq<Prefix>>)
    requires keys <= c.to.Keys
    ensures forall k :: k in keys ==> k in lists && Lists(lists[k], c.to[k].ips)
  {
    if keys == {} {
      lists := map[];
    } else {
      var k :| k in keys;
      var rest := ListedIps(c, keys - {k});
      var list := Listed(c.to[k].ips);
      lists := rest[k := list];
    }
  }

  /** Every change has an order, and one that writes a given peer first. */
  lemma OrderExists(c: Change, k: Key) returns (o: Order)
    requires ValidChange(c)
    ensures OrderOf(o, c) && (k in c.write ==> o.write != [] && o.write[0] == k)
  {
    var first := Listed(c.removeFirst);
    var last := Listed(c.removeLast);
    var lists := ListedIps(c, c.write);
    var rest := Listed(c.write - {k});
    var write := if k in c.write then [k] + rest else rest;
    assert Enumerates(write, c.write);
    o := Order(first, write, last, lists);
  }

  // Changes between configurations

  lemma DiffsShareBase(prev: Running, failed: Running, target: Running)
    ensures SameBase(DiffChange(prev, failed), DiffChange(prev, target))
  {
    hide WantedFor;
  }

  /** Attempts at the changes from `prev` to the configurations `failed`, one after the other. */
  ghost predicate AttemptsAt(prev: Running, failed: seq<Running>, attempts: seq<Attempt>) {
    && |attempts| == |failed|
    && forall j :: 0 <= j < |failed| ==> ValidAttempt(attempts[j]) && attempts[j].change == DiffChange(prev, failed[j])
  }

  ghost function Repaired(d: Device, attempts: seq<Attempt>, prev: Running, target: Running, retry: Order): Device
    requires forall a :: a in attempts ==> ValidAttempt(a)
    requires OrderOf(retry, DiffChange(prev, target))
  {
    IpcSet(Script(DiffChange(prev, target), retry), AfterAttempts(d, attempts))
  }

  /** Wherever the attempts stopped and in whatever order anything was written, a whole script to
      `target` ends with what `target` wants. */
  ghost predicate AlwaysRepairs(d: Device, prev: Running, failed: seq<Running>, target: Running) {
    forall attempts, retry :: AttemptsAt(prev, failed, attempts) && OrderOf(retry, DiffChange(prev, target)) ==>
      HoldsRunning(Repaired(d, attempts, prev, target, retry), target)
  }

  /** Any number of failed attempts, and a target they are harmless to: the target is reached. */
  lemma HarmlessAttemptsRepair(d: Device, prev: Running, failed: seq<Running>, target: Running, attempts: seq<Attempt>, retry: Order)
    requires HoldsRunning(d, prev) && WellFormedPeers(target.cfg.peers) && !StaleExit(prev, target)
    requires prev.secrets.privateKey.Some? && target.secrets.privateKey.Some?
    requires AttemptsAt(prev, failed, attempts) && OrderOf(retry, DiffChange(prev, target))
    requires forall f :: f in failed ==> Harmless(DiffChange(prev, f), DiffChange(prev, target))
    ensures HoldsRunning(Repaired(d, attempts, prev, target, retry), target)
  {
    var c := DiffChange(prev, target);
    DiffChangeValid(prev, target);
    DiffRecoverable(d, prev, target);
    DiffTarget(prev, target);
    forall a | a in attempts
      ensures ValidAttempt(a) && SameBase(a.change, c) && Harmless(a.change, c)
    {
      var j :| 0 <= j < |attempts| && attempts[j] == a;
      assert failed[j] in failed;
      DiffsShareBase(prev, failed[j], target);
    }
    hide DiffChange, PlanOf, Recoverable, StaleExit, Harmless, SameBase, ValidAttempt, Script, OrderOf;
    AttemptsRecoverable(d, attempts, c, target.secrets.privateKey, target.cfg.listenPort, d.fwmark);
    ScriptReaches(AfterAttempts(d, attempts), c, retry, target.secrets.privateKey, target.cfg.listenPort, d.fwmark);
  }

  // Without that, some attempt spoils the repair

  ghost predicate Setting(d: Device, prev: Running, failed: Running, target: Running) {
    && HoldsRunning(d, prev) && WellFormedPeers(failed.cfg.peers) && WellFormedPeers(target.cfg.peers)
    && prev.secrets.privateKey.Some? && failed.secrets.privateKey.Some? && target.secrets.privateKey.Some?
  }

  /** An attempt that ran to its end. */
  lemma WholeAttempt(d: Device, prev: Running, failed: Running) returns (a: Attempt)
    requires Setting(d, prev, failed, failed)
    ensures ValidAttempt(a) && a.change == DiffChange(prev, failed)
    ensures var e := AfterAttempt(d, a);
      Holds(e, a.change.to) && e.privateKey == failed.secrets.privateKey && e.listenPort == failed.cfg.listenPort
  {
    var c := DiffChange(prev, failed);
    DiffChangeValid(prev, failed);
    DiffRecoverable(d, prev, failed);
    hide DiffChange, PlanOf, Recoverable, Script, Holds, OrderOf, ValidChange;
    var o := OrderExists(c, ZERO_KEY);
    a := Attempt(c, o, |Script(c, o)|);
    assert Script(c, o)[..a.stop] == Script(c, o);
    ScriptReaches(d, c, o, failed.secrets.privateKey, failed.cfg.listenPort, d.fwmark);
  }

  /** An attempt that stopped when the peer had lost its prefixes. */
  lemma ClearedAttempt(d: Device, c: Change, k: Key) returns (a: Attempt)
    requires ValidChange(c) && k in c.write
    ensures ValidAttempt(a) && a.change == c
    ensures var e := AfterAttempt(d, a);
      forall x :: x in e.allowed ==> e.allowed[x] != k
  {
    var o := OrderExists(c, k);
    var before := UpToBlock(c, o, k);
    var s, head := Session(d, None), BlockHead(k, c.to[k].state);
    a := Attempt(c, o, |before + head|);
    assert Script(c, o)[..a.stop] == before + head;
    hide Script, OrderOf, ValidChange;
    RunAppend(before, head, s);
    HeadIssued(k, Run(before, s), c);
  }

  /** The script up to the prefixes of the peer written first. */
  lemma UpToBlock(c: Change, o: Order, k: Key) returns (before: seq<Op>)
    requires OrderOf(o, c) && k in c.write && o.write != [] && o.write[0] == k
    ensures before + BlockHead(k, c.to[k].state) <= Script(c, o)
  {
    var head, list := BlockHead(k, c.to[k].state), AllowedIPs(o.lists[k]);
    before := Preamble(c) + RemoveOps(o.first);
    var rest := Blocks(o.write[1..], c.to, o.lists);
    assert Blocks(o.write, c.to, o.lists) == head + list + rest;
    hide Preamble, RemoveOps, Blocks, BlockHead, AllowedIPs;
    assert Script(c, o) == before + head + (list + rest + RemoveOps(o.last));
  }

  /** What a whole script to the target does to what it does not write. */
  lemma RetryLimits(e: Device, target: Change, retry: Order, k: Key)
    requires ValidChange(target) && OrderOf(retry, target)
    ensures var r := IpcSet(Script(target, retry), e);
      && (k !in target.write + target.removeLast ==> LeftAlone(e, r, k, target))
      && (ClearsNot(target, k) && k in e.peers && e.peers[k].endpoint != "" ==> k in r.peers && r.peers[k].endpoint != "")
      && (target.privateKey.None? ==> r.privateKey == e.privateKey)
      && (target.listenPort.None? ==> r.listenPort == e.listenPort)
  {
    ScriptIssued(target, retry, e);
    var s, ops := Session(e, None), Script(target, retry);
    hide Script, OrderOf, AllIssued, Run, LeftAlone, WrittenIps, Exclusive;
    if k !in target.write + target.removeLast {
      ScriptLeavesAlone(ops, s, target, k);
    }
    if ClearsNot(target, k) && k in e.peers && e.peers[k].endpoint != "" {
      EndpointStays(ops, s, target, k);
    }
    GlobalsStay(ops, s, target);
  }

  /** A peer that the whole attempt leaves wrong and the target does not touch. */
  lemma WrongPeerStays(e: Device, c: Change, target: Change, retry: Order, k: Key)
    requires ValidChange(c) && ValidChange(target) && OrderOf(retry, target) && Holds(e, c.to)
    requires k !in target.write + target.removeLast
    requires
      || (k in c.to && k !in target.to)
      || (k !in c.to && k in target.to)
      || (k in c.to && k in target.to && c.to[k].state != target.to[k].state)
      || (k in c.to && k in target.to && target.to[k].ips == {} && !(c.to[k].ips <= WrittenIps(target, target.write)))
    ensures !Holds(IpcSet(Script(target, retry), e), target.to)
  {
    RetryLimits(e, target, retry, k);
    hide Script, OrderOf, Run, IpcSet, WrittenIps, Exclusive;
    var r := IpcSet(Script(target, retry), e);
    if k in c.to {
      assert OwnsExactly(e, k, c.to[k]);
    }
    assert k in target.to && Holds(r, target.to) ==> OwnsExactly(r, k, target.to[k]);
  }

  /** A peer that a stopped attempt leaves without its prefixes. */
  lemma BarePeerStays(e: Device, target: Change, retry: Order, k: Key)
    requires ValidChange(target) && OrderOf(retry, target) && k !in target.write + target.removeLast
    requires k in target.to && target.to[k].ips != {} && forall x :: x in e.allowed ==> e.allowed[x] != k
    ensures !Holds(IpcSet(Script(target, retry), e), target.to)
  {
    RetryLimits(e, target, retry, k);
    hide Script, OrderOf, Run, IpcSet, WrittenIps, Exclusive;
    var r := IpcSet(Script(target, retry), e);
    assert Holds(r, target.to) ==> OwnsExactly(r, k, target.to[k]);
  }

  lemma SetEndpointStays(e: Device, c: Change, target: Change, retry: Order, k: Key)
    requires ValidChange(target) && OrderOf(retry, target) && Holds(e, c.to)
    requires ClearsNot(target, k) && k in c.to && c.to[k].state.endpoint != ""
    ensures !Holds(IpcSet(Script(target, retry), e), target.to)
  {
    RetryLimits(e, target, retry, k);
    hide Script, OrderOf, Run, IpcSet, WrittenIps, Exclusive, LeftAlone;
    var r := IpcSet(Script(target, retry), e);
    assert OwnsExactly(e, k, c.to[k]);
    assert Holds(r, target.to) ==> OwnsExactly(r, k, target.to[k]);
  }

  /** If a change is not harmless to another, one attempt at it, stopped somewhere, spoils the other. */
  lemma HarmShows(d: Device, prev: Running, failed: Running, target: Running, retry: Order) returns (a: Attempt)
    requires Setting(d, prev, failed, target) && !StaleExit(prev, target)
    requires OrderOf(retry, DiffChange(prev, target))
    requires !Harmless(DiffChange(prev, failed), DiffChange(prev, target))
    ensures ValidAttempt(a) && a.change == DiffChange(prev, failed)
    ensures !HoldsRunning(IpcSet(Script(DiffChange(prev, target), retry), AfterAttempt(d, a)), target)
  {
    var c, t := DiffChange(prev, failed), DiffChange(prev, target);
    DiffChangeValid(prev, failed);
    DiffChangeValid(prev, target);
    DiffTarget(prev, target);
    GlobalsDiffer(prev, failed, target);
    a := WholeAttempt(d, prev, failed);
    if (c.privateKey.Some? && t.privateKey.None?) || (c.listenPort.Some? && t.listenPort.None?) {
      hide *;
      RetryLimits(AfterAttempt(d, a), t, retry, ZERO_KEY);
      GlobalsHeld(IpcSet(Script(t, retry), AfterAttempt(d, a)), target);
    } else {
      assert forall k :: k in c.removeFirst + c.removeLast && k !in t.write + t.removeLast ==>
        k in t.to && (k !in c.to || c.to[k].state != t.to[k].state) by {
        forall k | k in c.removeFirst + c.removeLast && k !in t.write + t.removeLast
          ensures k in t.to && (k !in c.to || c.to[k].state != t.to[k].state)
        {
          DroppedDiffers(prev, failed, target, k);
        }
      }
      hide DiffChange, PlanOf, StaleExit, Setting;
      a := PeerHarm(d, a, c, t, retry);
    }
  }

  lemma GlobalsHeld(d: Device, r: Running)
    ensures HoldsRunning(d, r) ==> d.privateKey == r.secrets.privateKey && d.listenPort == r.cfg.listenPort
  {
  }

  lemma PeerHarm(d: Device, whole: Attempt, c: Change, t: Change, retry: Order) returns (a: Attempt)
    requires ValidChange(c) && ValidChange(t) && OrderOf(retry, t)
    requires ValidAttempt(whole) && whole.change == c && Holds(AfterAttempt(d, whole), c.to)
    requires !Harmless(c, t) && (c.privateKey.Some? ==> t.privateKey.Some?) && (c.listenPort.Some? ==> t.listenPort.Some?)
    requires forall k :: k in c.removeFirst + c.removeLast && k !in t.write + t.removeLast ==>
      k in t.to && (k !in c.to || c.to[k].state != t.to[k].state)
    ensures ValidAttempt(a) && a.change == c
    ensures !Holds(IpcSet(Script(t, retry), AfterAttempt(d, a)), t.to)
  {
    var e := AfterAttempt(d, whole);
    a := whole;
    if k :| ClearsNot(t, k) && k in c.write && k in c.to && c.to[k].state.endpoint != "" {
      hide *;
      SetEndpointStays(e, c, t, retry, k);
    } else if k :| k in c.removeFirst + c.removeLast && k !in t.write + t.removeLast {
      hide *;
      WrongPeerStays(e, c, t, retry, k);
    } else {
      var k :| k in c.write && k !in t.write + t.removeLast && !Idle(c, t, k);
      assert k in c.to;
      hide Script, OrderOf, Holds, ValidAttempt, ValidChange, Harmless, IpcSet, Run, WrittenIps;
      if k in t.to && t.to[k].ips != {} {
        a := ClearedAttempt(d, c, k);
        BarePeerStays(AfterAttempt(d, a), t, retry, k);
      } else {
        WrongPeerStays(e, c, t, retry, k);
      }
    }
  }

  lemma GlobalsDiffer(prev: Running, failed: Running, target: Running)
    requires prev.secrets.privateKey.Some? && failed.secrets.privateKey.Some? && target.secrets.privateKey.Some?
    ensures var c, t := DiffChange(prev, failed), DiffChange(prev, target);
      && (c.privateKey.Some? && t.privateKey.None? ==> failed.secrets.privateKey != target.secrets.privateKey)
      && (c.listenPort.Some? && t.listenPort.None? ==> failed.cfg.listenPort != target.cfg.listenPort)
  {
  }

  lemma DroppedDiffers(prev: Running, failed: Running, target: Running, k: Key)
    requires var c, t := DiffChange(prev, failed), DiffChange(prev, target);
      k in c.removeFirst + c.removeLast && k !in t.write + t.removeLast
    ensures var c, t := DiffChange(prev, failed), DiffChange(prev, target);
      && k in t.to
      && (k !in c.to || c.to[k].state != t.to[k].state)
  {
  }

  /** No operation at all: every attempt stopped at once. */
  lemma {:induction false} IdleAttempts(d: Device, attempts: seq<Attempt>)
    requires forall a :: a in attempts ==> ValidAttempt(a) && a.stop == 0
    ensures AfterAttempts(d, attempts) == d
    decreases |attempts|
  {
    hide ValidAttempt;
    if attempts != [] {
      NoOperation(d, attempts[0]);
      IdleAttempts(d, attempts[1..]);
    }
  }

  lemma NoOperation(d: Device, a: Attempt)
    requires ValidAttempt(a) && a.stop == 0
    ensures AfterAttempt(d, a) == d
  {
    hide Script;
    assert Script(a.change, a.order)[..0] == [];
  }

  lemma {:induction false} OneAttempt(d: Device, attempts: seq<Attempt>, j: nat)
    requires j < |attempts| && forall i :: 0 <= i < |attempts| ==> ValidAttempt(attempts[i]) && (i != j ==> attempts[i].stop == 0)
    ensures AfterAttempts(d, attempts) == AfterAttempt(d, attempts[j])
    decreases |attempts|
  {
    hide ValidAttempt;
    if j == 0 {
      forall a | a in attempts[1..]
        ensures ValidAttempt(a) && a.stop == 0
      {
        var i :| 0 <= i < |attempts[1..]| && attempts[1..][i] == a;
        assert attempts[i + 1] == a;
      }
      IdleAttempts(AfterAttempt(d, attempts[0]), attempts[1..]);
    } else {
      NoOperation(d, attempts[0]);
      OneAttempt(d, attempts[1..], j - 1);
    }
  }

  lemma {:induction false} StoppedAtOnce(prev: Running, failed: seq<Running>) returns (attempts: seq<Attempt>)
    requires forall f :: f in failed ==> WellFormedPeers(f.cfg.peers)
    ensures AttemptsAt(prev, failed, attempts) && forall a :: a in attempts ==> a.stop == 0
  {
    hide *;
    attempts := [];
    NoAttempts(prev);
    if failed != [] {
      var n := |failed| - 1;
      assert failed[n] in failed;
      var rest := StoppedAtOnce(prev, failed[..n]);
      var a := StoppedFirst(prev, failed[n]);
      attempts := rest + [a];
      MoreAttempts(prev, failed, rest, a);
    }
  }

  lemma NoAttempts(prev: Running)
    ensures AttemptsAt(prev, [], [])
  {
  }

  lemma MoreAttempts(prev: Running, failed: seq<Running>, rest: seq<Attempt>, a: Attempt)
    requires failed != [] && AttemptsAt(prev, failed[..|failed| - 1], rest)
    requires ValidAttempt(a) && a.change == DiffChange(prev, failed[|failed| - 1])
    ensures AttemptsAt(prev, failed, rest + [a])
  {
    hide DiffChange, ValidAttempt;
    var n := |failed| - 1;
    forall j | 0 <= j < |failed|
      ensures ValidAttempt((rest + [a])[j]) && (rest + [a])[j].change == DiffChange(prev, failed[j])
    {
      assert j < n ==> (rest + [a])[j] == rest[j] && failed[..n][j] == failed[j];
    }
  }

  lemma StoppedFirst(prev: Running, failed: Running) returns (a: Attempt)
    requires WellFormedPeers(failed.cfg.peers)
    ensures ValidAttempt(a) && a.change == DiffChange(prev, failed) && a.stop == 0
  {
    DiffChangeValid(prev, failed);
    hide DiffChange, ValidChange, OrderOf, Script, WellFormedPeers;
    var o := OrderExists(DiffChange(prev, failed), ZERO_KEY);
    a := Attempt(DiffChange(prev, failed), o, 0);
  }

  /** A repair that always works works after no operation at all, so it leaves no stale exit. */
  lemma RepairIsFresh(d: Device, prev: Running, failed: seq<Running>, target: Running, retry: Order)
    requires HoldsRunning(d, prev) && WellFormedPeers(target.cfg.peers) && forall f :: f in failed ==> WellFormedPeers(f.cfg.peers)
    requires prev.secrets.privateKey.Some? && target.secrets.privateKey.Some?
    requires AlwaysRepairs(d, prev, failed, target) && OrderOf(retry, DiffChange(prev, target))
    ensures !StaleExit(prev, target)
  {
    hide HoldsRunning, StaleExit, DiffChange, OrderOf, Script, ValidAttempt;
    var attempts := StoppedAtOnce(prev, failed);
    IdleAttempts(d, attempts);
    assert HoldsRunning(Repaired(d, attempts, prev, target, retry), target);
    DiffHolds(d, prev, target, Script(DiffChange(prev, target), retry));
  }

  /** The attempt of HarmShows, with every other attempt stopped at once. */
  lemma HarmSpoils(d: Device, prev: Running, failed: seq<Running>, target: Running, retry: Order, j: nat)
    requires forall f :: f in failed ==> Setting(d, prev, f, target)
    requires !StaleExit(prev, target) && OrderOf(retry, DiffChange(prev, target)) && j < |failed|
    requires !Harmless(DiffChange(prev, failed[j]), DiffChange(prev, target))
    ensures !AlwaysRepairs(d, prev, failed, target)
  {
    assert forall f :: f in failed ==> WellFormedPeers(f.cfg.peers);
    hide HoldsRunning, StaleExit, DiffChange, OrderOf, Script, ValidAttempt, Setting, WellFormedPeers, Harmless;
    assert failed[j] in failed;
    var idle := StoppedAtOnce(prev, failed);
    var a := HarmShows(d, prev, failed[j], target, retry);
    PlaceAttempt(d, prev, failed, idle, j, a);
    hide AttemptsAt, AfterAttempt, AfterAttempts;
    SpoiledBy(d, prev, failed, target, retry, idle[j := a]);
  }

  lemma PlaceAttempt(d: Device, prev: Running, failed: seq<Running>, idle: seq<Attempt>, j: nat, a: Attempt)
    requires AttemptsAt(prev, failed, idle) && j < |failed| && forall i :: i in idle ==> i.stop == 0
    requires ValidAttempt(a) && a.change == DiffChange(prev, failed[j])
    ensures AttemptsAt(prev, failed, idle[j := a])
    ensures AfterAttempts(d, idle[j := a]) == AfterAttempt(d, a)
  {
    hide DiffChange, ValidAttempt;
    var attempts := idle[j := a];
    forall i | 0 <= i < |attempts|
      ensures ValidAttempt(attempts[i]) && (i != j ==> attempts[i].stop == 0)
    {
      assert i != j ==> attempts[i] == idle[i] && idle[i] in idle;
    }
    OneAttempt(d, attempts, j);
  }

  lemma SpoiledBy(d: Device, prev: Running, failed: seq<Running>, target: Running, retry: Order, attempts: seq<Attempt>)
    requires AttemptsAt(prev, failed, attempts) && OrderOf(retry, DiffChange(prev, target))
    requires !HoldsRunning(IpcSet(Script(DiffChange(prev, target), retry), AfterAttempts(d, attempts)), target)
    ensures !AlwaysRepairs(d, prev, failed, target)
  {
    hide HoldsRunning, DiffChange, OrderOf, Script, ValidAttempt, AfterAttempts;
    assert !HoldsRunning(Repaired(d, attempts, prev, target, retry), target);
  }

  // Main result

  /** On a device that holds `prev`, any number of attempts at other configurations have failed, each in
      any order and after any number of operations. A whole script from `prev` to `target` then leaves
      exactly what `target` wants, wherever they stopped and in whatever order, if and only if it leaves
      no stale exit peer and every failed change is harmless to it. */
  lemma RepairsExactly(d: Device, prev: Running, failed: seq<Running>, target: Running)
    requires HoldsRunning(d, prev) && WellFormedPeers(target.cfg.peers)
    requires prev.secrets.privateKey.Some? && target.secrets.privateKey.Some?
    requires forall f :: f in failed ==> WellFormedPeers(f.cfg.peers) && f.secrets.privateKey.Some?
    ensures AlwaysRepairs(d, prev, failed, target) <==>
      && !StaleExit(prev, target)
      && forall f :: f in failed ==> Harmless(DiffChange(prev, f), DiffChange(prev, target))
  {
    forall f | f in failed
      ensures Setting(d, prev, f, target)
    {
    }
    DiffChangeValid(prev, target);
    var retry := OrderExists(DiffChange(prev, target), ZERO_KEY);
    hide HoldsRunning, StaleExit, DiffChange, OrderOf, Script, ValidAttempt, Setting, WellFormedPeers, Harmless, ValidChange;
    if !StaleExit(prev, target) && forall f :: f in failed ==> Harmless(DiffChange(prev, f), DiffChange(prev, target)) {
      forall attempts, retry | AttemptsAt(prev, failed, attempts) && OrderOf(retry, DiffChange(prev, target))
        ensures HoldsRunning(Repaired(d, attempts, prev, target, retry), target)
      {
        hide AttemptsAt, Repaired;
        HarmlessAttemptsRepair(d, prev, failed, target, attempts, retry);
      }
    } else if StaleExit(prev, target) {
      hide AlwaysRepairs;
      if AlwaysRepairs(d, prev, failed, target) {
        RepairIsFresh(d, prev, failed, target, retry);
        assert false;
      }
    } else {
      var f :| f in failed && !Harmless(DiffChange(prev, f), DiffChange(prev, target));
      var j :| 0 <= j < |failed| && failed[j] == f;
      hide AlwaysRepairs;
      HarmSpoils(d, prev, failed, target, retry, j);
    }
  }

  /** In particular applying the change that failed, any number of times, always repairs the device. */
  lemma SameChangeRepairs(d: Device, prev: Running, failed: seq<Running>, target: Running)
    requires HoldsRunning(d, prev) && WellFormedPeers(target.cfg.peers) && !StaleExit(prev, target)
    requires prev.secrets.privateKey.Some? && target.secrets.privateKey.Some?
    requires forall f :: f in failed ==> f == target
    ensures AlwaysRepairs(d, prev, failed, target)
  {
    DiffChangeValid(prev, target);
    HarmlessToItself(DiffChange(prev, target));
    hide *;
    RepairsExactly(d, prev, failed, target);
  }
}
