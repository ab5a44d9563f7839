/** What an incremental script does to a device, independently of how it was computed: a
    script removes some peers, rewrites some, and removes others at the end, each group in any
    order. */
module WireGuardScript {
  import opened Net
  import opened WireGuardConfig
  import opened WireGuardDevice

  /** What a device should hold for one peer. */
  datatype Wanted = Wanted(state: PeerState, ips: set<Prefix>)

  type Plan = map<Key, Wanted>

  ghost predicate Exclusive(w: Plan) {
    forall k, l :: k in w && l in w && k != l ==> w[k].ips !! w[l].ips
  }

  ghost predicate OwnsExactly(d: Device, k: Key, w: Wanted) {
    && k in d.peers
    && d.peers[k] == w.state
    && (forall x :: x in w.ips ==> x in d.allowed && d.allowed[x] == k)
    && (forall x :: x in d.allowed && d.allowed[x] == k ==> x in w.ips)
  }

  /** The same, except that the peer may own prefixes of `extra` besides. */
  ghost predicate OwnsWithin(d: Device, k: Key, w: Wanted, extra: set<Prefix>) {
    && k in d.peers
    && d.peers[k] == w.state
    && (forall x :: x in w.ips ==> x in d.allowed && d.allowed[x] == k)
    && (forall x :: x in d.allowed && d.allowed[x] == k ==> x in w.ips || x in extra)
  }

  ghost predicate OwnersExist(d: Device) {
    forall x :: x in d.allowed ==> d.allowed[x] in d.peers
  }

  /** The device has exactly the wanted peers, and they own exactly the wanted prefixes. */
  ghost predicate Holds(d: Device, w: Plan) {
    && d.peers.Keys == w.Keys
    && OwnersExist(d)
    && forall k :: k in w ==> OwnsExactly(d, k, w[k])
  }

  lemma HoldsIsUnique(d: Device, e: Device, w: Plan)
    requires Holds(d, w) && Holds(e, w)
    ensures d.peers == e.peers && d.allowed == e.allowed
  {
    forall k | k in w
      ensures d.peers[k] == e.peers[k]
    {
      assert OwnsExactly(d, k, w[k]) && OwnsExactly(e, k, w[k]);
    }
    AllowedIncluded(d, e, w);
    AllowedIncluded(e, d, w);
  }

  lemma AllowedIncluded(d: Device, e: Device, w: Plan)
    requires Holds(d, w) && Holds(e, w)
    ensures forall x :: x in d.allowed ==> x in e.allowed && e.allowed[x] == d.allowed[x]
  {
    forall x | x in d.allowed
      ensures x in e.allowed && e.allowed[x] == d.allowed[x]
    {
      var k := d.allowed[x];
      assert OwnsExactly(d, k, w[k]) && OwnsExactly(e, k, w[k]);
    }
  }

  // Scripts

  function AllowedIPs(list: seq<Prefix>): seq<Op> {
    if list == [] then [] else [AllowedIP(list[0])] + AllowedIPs(list[1..])
  }

  function BlockHead(k: Key, p: PeerState): seq<Op> {
    [PublicKey(k), PresharedKey(p.psk)]
    + (if p.endpoint == "" then [] else [Endpoint(p.endpoint)])
    + [Keepalive(p.keepalive), ReplaceAllowedIPs]
  }

  /** The lines that write one peer, its allowed IPs listed as in `list`. */
  function Block(k: Key, p: PeerState, list: seq<Prefix>): seq<Op> {
    BlockHead(k, p) + AllowedIPs(list)
  }

  function RemoveOps(keys: seq<Key>): seq<Op> {
    if keys == [] then [] else [PublicKey(keys[0]), Remove] + RemoveOps(keys[1..])
  }

  function Blocks(keys: seq<Key>, w: Plan, lists: map<Key, seq<Prefix>>): seq<Op>
    requires forall k :: k in keys ==> k in w && k in lists
  {
    if keys == [] then []
    else Block(keys[0], w[keys[0]].state, lists[keys[0]]) + Blocks(keys[1..], w, lists)
  }

  /** The groups of an incremental script, as sets. `to` is the plan the script writes. */
  datatype Change = Change(
    privateKey: Option<Key>,
    listenPort: Option<nat>,
    removeFirst: set<Key>,
    write: set<Key>,
    removeLast: set<Key>,
    to: Plan)

  ghost predicate ValidChange(c: Change) {
    && c.removeFirst <= c.write <= c.to.Keys
    && c.removeLast !! c.to.Keys
    && Exclusive(c.to)
  }

  /** One order in which the maps behind a script may be iterated. */
  datatype Order = Order(first: seq<Key>, write: seq<Key>, last: seq<Key>, lists: map<Key, seq<Prefix>>)

  ghost predicate Enumerates<T(!new)>(list: seq<T>, elements: set<T>) {
    && (forall i, j :: 0 <= i < j < |list| ==> list[i] != list[j])
    && (forall x :: x in list <==> x in elements)
  }

  ghost predicate Lists(list: seq<Prefix>, ips: set<Prefix>) {
    forall x :: x in list <==> x in ips
  }

  ghost predicate OrderOf(o: Order, c: Change) {
    && c.write <= c.to.Keys
    && Enumerates(o.first, c.removeFirst)
    && Enumerates(o.write, c.write)
    && Enumerates(o.last, c.removeLast)
    && forall k :: k in c.write ==> k in o.lists && Lists(o.lists[k], c.to[k].ips)
  }

  function Preamble(c: Change): seq<Op> {
    (if c.privateKey.Some? then [PrivateKey(c.privateKey.value)] else [])
    + (if c.listenPort.Some? then [ListenPort(c.listenPort.value)] else [])
  }

  ghost function Script(c: Change, o: Order): seq<Op>
    requires OrderOf(o, c)
  {
    Preamble(c) + RemoveOps(o.first) + Blocks(o.write, c.to, o.lists) + RemoveOps(o.last)
  }

  // What no operation of such a script can spoil

  /** The prefixes the script gives to the peers `keys`. */
  ghost function WrittenIps(c: Change, keys: set<Key>): set<Prefix> {
    set k, x | k in keys && k in c.to && x in c.to[k].ips :: x
  }

  /** A state from which the whole script still reaches `c.to`: the peers it leaves alone are as they
      should be, but for prefixes it is going to give to others. */
  ghost predicate Recoverable(d: Device, c: Change) {
    && OwnersExist(d)
    && d.peers.Keys <= c.to.Keys + c.removeLast
    && (forall k :: k in c.to && k !in c.write ==> OwnsWithin(d, k, c.to[k], WrittenIps(c, c.write)))
    && (forall k :: k in c.write && k in c.to && k !in c.removeFirst && c.to[k].state.endpoint == "" && k in d.peers
          ==> d.peers[k].endpoint == "")
  }

  ghost predicate CursorOf(s: Session, c: Change) {
    s.cur.Some? ==> s.cur.value in c.write + c.removeLast
  }

  /** The operations such a script issues while the peer named last is `cur`. */
  ghost predicate Issued(op: Op, cur: Option<Key>, c: Change) {
    match op
    case PrivateKey(k) => c.privateKey == Some(k)
    case ListenPort(p) => c.listenPort == Some(p)
    case PublicKey(k) => k in c.write + c.removeLast
    case Remove => cur.Some? ==> cur.value in c.removeFirst + c.removeLast
    case PresharedKey(p) => cur.Some? && cur.value in c.write && cur.value in c.to && p == c.to[cur.value].state.psk
    case Endpoint(e) => cur.Some? && cur.value in c.write && cur.value in c.to && e == c.to[cur.value].state.endpoint
                     && e != ""
    case Keepalive(n) => cur.Some? && cur.value in c.write && cur.value in c.to && n == c.to[cur.value].state.keepalive
    case ReplaceAllowedIPs => cur.Some? && cur.value in c.write
    case AllowedIP(x) => cur.Some? && cur.value in c.write && cur.value in c.to && x in c.to[cur.value].ips
    case _ => false
  }

  lemma IssuedPreserves(op: Op, s: Session, c: Change)
    requires ValidChange(c) && Recoverable(s.dev, c) && CursorOf(s, c) && Issued(op, s.cur, c)
    ensures Recoverable(Exec(op, s).dev, c) && CursorOf(Exec(op, s), c)
  {
    var t := Exec(op, s);
    var extra := WrittenIps(c, c.write);
    hide WrittenIps;
    forall k | k in c.to && k !in c.write
      ensures OwnsWithin(t.dev, k, c.to[k], extra)
    {
      assert OwnsWithin(s.dev, k, c.to[k], extra);
    }
  }

  /** Whether a private key, a port and a mark are as wanted, or about to be written. */
  ghost predicate Global(d: Device, c: Change, key: Option<Key>, port: nat, mark: nat) {
    && (c.privateKey.None? ==> d.privateKey == key)
    && (c.privateKey.Some? ==> key == c.privateKey)
    && (c.listenPort.None? ==> d.listenPort == port)
    && (c.listenPort.Some? ==> c.listenPort == Some(port))
    && d.fwmark == mark
  }

  /** Every operation of `ops`, run from `s`, is one that such a script issues. */
  ghost predicate AllIssued(ops: seq<Op>, s: Session, c: Change)
    decreases |ops|
  {
    ops == [] || (Issued(ops[0], s.cur, c) && AllIssued(ops[1..], Exec(ops[0], s), c))
  }

  lemma {:induction false} AllIssuedAppend(a: seq<Op>, b: seq<Op>, s: Session, c: Change)
    requires AllIssued(a, s, c) && AllIssued(b, Run(a, s), c)
    ensures AllIssued(a + b, s, c)
  {
    if a == [] {
      assert a + b == b;
    } else {
      assert (a + b)[1..] == a[1..] + b;
      AllIssuedAppend(a[1..], b, Exec(a[0], s), c);
    }
  }

  /** Stopping anywhere in a script leaves a recoverable device. */
  lemma {:induction false} PrefixRecoverable(ops: seq<Op>, i: nat, s: Session, c: Change,
                                             key: Option<Key>, port: nat, mark: nat)
    requires ValidChange(c) && Recoverable(s.dev, c) && CursorOf(s, c) && AllIssued(ops, s, c)
    requires Global(s.dev, c, key, port, mark)
    requires i <= |ops|
    ensures Recoverable(Run(ops[..i], s).dev, c) && CursorOf(Run(ops[..i], s), c)
    ensures Global(Run(ops[..i], s).dev, c, key, port, mark)
  {
    if i > 0 {
      IssuedPreserves(ops[0], s, c);
      assert ops[..i][1..] == ops[1..][..i - 1];
      PrefixRecoverable(ops[1..], i - 1, Exec(ops[0], s), c, key, port, mark);
    }
  }

  lemma PreambleIssued(c: Change, s: Session)
    ensures AllIssued(Preamble(c), s, c)
  {
    var p := Preamble(c);
    if p != [] {
      var t := Exec(p[0], s);
      if |p| == 2 {
        assert p[1..] == [p[1]];
        assert p[1..][1..] == [];
        assert AllIssued(p[1..], t, c);
      } else {
        assert p[1..] == [];
      }
    }
  }

  lemma {:induction false} RemovalsIssued(keys: seq<Key>, s: Session, c: Change)
    requires c.removeFirst <= c.write && forall k :: k in keys ==> k in c.removeFirst + c.removeLast
    ensures AllIssued(RemoveOps(keys), s, c)
  {
    if keys != [] {
      var ops := RemoveOps(keys);
      var t := Exec(PublicKey(keys[0]), s);
      assert ops[1..] == [Remove] + RemoveOps(keys[1..]);
      assert ops[1..][1..] == RemoveOps(keys[1..]);
      RemovalsIssued(keys[1..], Exec(Remove, t), c);
      assert AllIssued(ops[1..], t, c);
    }
  }

  lemma {:induction false} AllowedIssued(list: seq<Prefix>, k: Key, s: Session, c: Change)
    requires s.cur == Some(k) && k in s.dev.peers && k in c.write && k in c.to
    requires forall x :: x in list ==> x in c.to[k].ips
    ensures AllIssued(AllowedIPs(list), s, c)
  {
    if list != [] {
      AllowedIssued(list[1..], k, Exec(AllowedIP(list[0]), s), c);
      assert AllowedIPs(list)[1..] == AllowedIPs(list[1..]);
    }
  }

  lemma HeadIssued(k: Key, s: Session, c: Change)
    requires k in c.write && k in c.to
    ensures AllIssued(BlockHead(k, c.to[k].state), s, c)
    ensures var t := Run(BlockHead(k, c.to[k].state), s);
      t.cur == Some(k) && k in t.dev.peers && forall x :: x in t.dev.allowed ==> t.dev.allowed[x] != k
  {
    var p := c.to[k].state;
    var a := Exec(PublicKey(k), s);
    var b := Exec(PresharedKey(p.psk), a);
    var e := if p.endpoint == "" then b else Exec(Endpoint(p.endpoint), b);
    var f := Exec(Keepalive(p.keepalive), e);
    assert a.cur == b.cur == e.cur == f.cur == Some(k) && k in f.dev.peers;
    var ops, tail := BlockHead(k, p), [Keepalive(p.keepalive), ReplaceAllowedIPs];
    var rest := ops[1..][1..];
    hide Exec;
    assert AllIssued(tail, e, c) && Run(tail, e) == Exec(ReplaceAllowedIPs, f) by {
      RunTwo(tail[0], tail[1], e);
      assert tail[1..] == [ReplaceAllowedIPs];
      assert tail[1..][1..] == [];
      assert AllIssued(tail[1..], f, c);
    }
    assert AllIssued(rest, b, c) && Run(rest, b) == Run(tail, e) by {
      if p.endpoint == "" {
        assert rest == tail;
      } else {
        assert rest == [Endpoint(p.endpoint)] + tail;
        assert rest[1..] == tail;
      }
    }
    assert ops[1..][0] == PresharedKey(p.psk);
    assert AllIssued(ops[1..], a, c) && Run(ops[1..], a) == Run(rest, b);
    Cleared(f, k);
  }

  lemma Cleared(s: Session, k: Key)
    requires s.cur == Some(k) && k in s.dev.peers
    ensures var t := Exec(ReplaceAllowedIPs, s);
      t.cur == Some(k) && k in t.dev.peers && forall x :: x in t.dev.allowed ==> t.dev.allowed[x] != k
  {
  }

  lemma BlockIssued(k: Key, list: seq<Prefix>, s: Session, c: Change)
    requires k in c.write && k in c.to && Lists(list, c.to[k].ips)
    ensures AllIssued(Block(k, c.to[k].state, list), s, c)
  {
    var head := BlockHead(k, c.to[k].state);
    HeadIssued(k, s, c);
    AllowedIssued(list, k, Run(head, s), c);
    AllIssuedAppend(head, AllowedIPs(list), s, c);
  }

  lemma {:induction false} BlocksIssued(keys: seq<Key>, lists: map<Key, seq<Prefix>>, s: Session, c: Change)
    requires forall k :: k in keys ==> k in c.write && k in c.to && k in lists && Lists(lists[k], c.to[k].ips)
    ensures AllIssued(Blocks(keys, c.to, lists), s, c)
  {
    hide Lists, Block;
    if keys != [] {
      var k := keys[0];
      var block := Block(k, c.to[k].state, lists[k]);
      BlockIssued(k, lists[k], s, c);
      BlocksIssued(keys[1..], lists, Run(block, s), c);
      AllIssuedAppend(block, Blocks(keys[1..], c.to, lists), s, c);
    }
  }

  /** On whatever device it runs, a script issues only the operations of its change. */
  lemma ScriptIssued(c: Change, o: Order, d: Device)
    requires ValidChange(c) && OrderOf(o, c)
    ensures AllIssued(Script(c, o), Session(d, None), c)
  {
    var s := Session(d, None);
    var pre, first, blocks, last := Preamble(c), RemoveOps(o.first), Blocks(o.write, c.to, o.lists), RemoveOps(o.last);
    hide AllIssued, Run, Preamble, RemoveOps, Blocks, Lists, Exclusive;
    PreambleIssued(c, s);
    RemovalsIssued(o.first, Run(pre, s), c);
    RunAppend(pre, first, s);
    AllIssuedAppend(pre, first, s, c);
    BlocksIssued(o.write, o.lists, Run(pre + first, s), c);
    RunAppend(pre + first, blocks, s);
    AllIssuedAppend(pre + first, blocks, s, c);
    RemovalsIssued(o.last, Run(pre + first + blocks, s), c);
    AllIssuedAppend(pre + first + blocks, last, s, c);
  }

  // The groups of a script

  lemma PreambleRun(c: Change, s: Session, key: Option<Key>, port: nat, mark: nat)
    requires Global(s.dev, c, key, port, mark)
    ensures Run(Preamble(c), s) == s.(dev := s.dev.(privateKey := key, listenPort := port))
  {
    var p := Preamble(c);
    if |p| == 2 {
      RunTwo(p[0], p[1], s);
    } else if |p| == 1 {
      assert p[1..] == [];
    }
  }

  function WithoutPeers(d: Device, keys: set<Key>): Device {
    d.(peers := d.peers - keys, allowed := map p | p in d.allowed && d.allowed[p] !in keys :: d.allowed[p])
  }

  lemma {:induction false} RemoveRun(keys: seq<Key>, s: Session)
    requires OwnersExist(s.dev)
    ensures Run(RemoveOps(keys), s).dev == WithoutPeers(s.dev, set k | k in keys)
    ensures keys != [] ==> Run(RemoveOps(keys), s).cur == None
    ensures OwnersExist(Run(RemoveOps(keys), s).dev)
  {
    if keys == [] {
      assert WithoutPeers(s.dev, {}) == s.dev;
    } else {
      var k := keys[0];
      var ops := RemoveOps(keys);
      var t := Exec(PublicKey(k), s);
      var u := Exec(Remove, t);
      assert ops[1..] == [Remove] + RemoveOps(keys[1..]);
      assert ops[1..][1..] == RemoveOps(keys[1..]);
      assert Run(ops, s) == Run(RemoveOps(keys[1..]), u);
      assert u.dev == WithoutPeers(s.dev, {k});
      RemoveRun(keys[1..], u);
      assert (set l | l in keys) == {k} + set l | l in keys[1..];
      assert WithoutPeers(u.dev, set l | l in keys[1..]) == WithoutPeers(s.dev, set l | l in keys);
    }
  }

  /** The device after the block of `k`: the peer is as wanted and has taken its prefixes. */
  function Rewritten(d: Device, k: Key, w: Wanted): Device {
    d.(peers := d.peers[k := w.state],
       allowed := map x | x in d.allowed.Keys + w.ips && (x in w.ips || d.allowed[x] != k)
                    :: if x in w.ips then k else d.allowed[x])
  }

  /** The operations of a head, applied one after the other. */
  function HeadEnd(k: Key, p: PeerState, s: Session): Session {
    var b := Exec(PresharedKey(p.psk), Exec(PublicKey(k), s));
    var e := if p.endpoint == "" then b else Exec(Endpoint(p.endpoint), b);
    Exec(ReplaceAllowedIPs, Exec(Keepalive(p.keepalive), e))
  }

  lemma HeadEndIs(k: Key, p: PeerState, s: Session)
    requires p.endpoint == "" && k in s.dev.peers ==> s.dev.peers[k].endpoint == ""
    ensures HeadEnd(k, p, s)
         == Session(s.dev.(peers := s.dev.peers[k := p], allowed := WithoutPeer(s.dev.allowed, k)), Some(k))
  {
    hide WithoutPeer;
    var b := Exec(PresharedKey(p.psk), Exec(PublicKey(k), s));
    assert b == Session(s.dev.(peers := s.dev.peers[k := b.dev.peers[k]]), Some(k));
  }

  lemma HeadRun(k: Key, p: PeerState, s: Session)
    requires p.endpoint == "" && k in s.dev.peers ==> s.dev.peers[k].endpoint == ""
    ensures Run(BlockHead(k, p), s)
         == Session(s.dev.(peers := s.dev.peers[k := p], allowed := WithoutPeer(s.dev.allowed, k)), Some(k))
  {
    HeadEndIs(k, p, s);
    hide Exec, WithoutPeer;
    var b := Exec(PresharedKey(p.psk), Exec(PublicKey(k), s));
    var e := if p.endpoint == "" then b else Exec(Endpoint(p.endpoint), b);
    var mid := if p.endpoint == "" then [] else [Endpoint(p.endpoint)];
    RunAppend([PublicKey(k), PresharedKey(p.psk)] + mid, [Keepalive(p.keepalive), ReplaceAllowedIPs], s);
    RunAppend([PublicKey(k), PresharedKey(p.psk)], mid, s);
    RunTwo(PublicKey(k), PresharedKey(p.psk), s);
    RunTwo(Keepalive(p.keepalive), ReplaceAllowedIPs, e);
    if p.endpoint != "" {
      assert Run(mid, b) == Run(mid[1..], Exec(mid[0], b)) == e;
    }
  }

  lemma RunTwo(a: Op, b: Op, s: Session)
    ensures Run([a, b], s) == Exec(b, Exec(a, s))
  {
    assert [a, b][1..] == [b];
    assert [b][1..] == [];
    assert Run([b], Exec(a, s)) == Exec(b, Exec(a, s));
  }

  lemma {:induction false} AllowedRun(list: seq<Prefix>, k: Key, s: Session)
    requires s.cur == Some(k) && k in s.dev.peers
    ensures Run(AllowedIPs(list), s)
         == s.(dev := s.dev.(allowed := s.dev.allowed + map x | x in list :: k))
  {
    if list == [] {
      assert s.dev.allowed + (map x | x in list :: k) == s.dev.allowed;
    } else {
      var t := Exec(AllowedIP(list[0]), s);
      AllowedRun(list[1..], k, t);
      assert AllowedIPs(list)[1..] == AllowedIPs(list[1..]);
      assert t.dev.allowed + (map x | x in list[1..] :: k) == s.dev.allowed + map x | x in list :: k;
    }
  }

  lemma BlockRun(k: Key, w: Wanted, list: seq<Prefix>, s: Session)
    requires w.state.endpoint == "" && k in s.dev.peers ==> s.dev.peers[k].endpoint == ""
    requires Lists(list, w.ips)
    ensures Run(Block(k, w.state, list), s) == Session(Rewritten(s.dev, k, w), Some(k))
  {
    RunAppend(BlockHead(k, w.state), AllowedIPs(list), s);
    HeadRun(k, w.state, s);
    AllowedRun(list, k, Run(BlockHead(k, w.state), s));
    var d := s.dev;
    assert WithoutPeer(d.allowed, k) + (map x | x in list :: k) == Rewritten(d, k, w).allowed;
  }

  // Progress through the blocks

  ghost predicate Progress(d: Device, c: Change, done: set<Key>) {
    && Recoverable(d, c)
    && (forall k :: k in c.to && k !in c.write ==> OwnsWithin(d, k, c.to[k], WrittenIps(c, c.write - done)))
    && (forall k :: k in done && k in c.to ==> OwnsExactly(d, k, c.to[k]))
    && (forall k :: k in c.removeFirst && k !in done ==> k !in d.peers)
  }

  lemma BlockProgress(k: Key, list: seq<Prefix>, s: Session, c: Change, done: set<Key>)
    requires ValidChange(c) && Progress(s.dev, c, done)
    requires k in c.write && k !in done && Lists(list, c.to[k].ips)
    ensures Run(Block(k, c.to[k].state, list), s).cur == Some(k)
    ensures Progress(Run(Block(k, c.to[k].state, list), s).dev, c, done + {k})
    ensures var t := Run(Block(k, c.to[k].state, list), s).dev;
            t.privateKey == s.dev.privateKey && t.listenPort == s.dev.listenPort && t.fwmark == s.dev.fwmark
  {
    BlockRun(k, c.to[k], list, s);
    var d, e := s.dev, Rewritten(s.dev, k, c.to[k]);
    forall l | l in c.to && l != k && OwnsExactly(d, l, c.to[l])
      ensures OwnsExactly(e, l, c.to[l])
    {
      assert c.to[l].ips !! c.to[k].ips;
    }
    assert OwnsExactly(e, k, c.to[k]);
    forall l | l in c.to && l !in c.write
      ensures OwnsWithin(e, l, c.to[l], WrittenIps(c, c.write - (done + {k})))
      ensures OwnsWithin(e, l, c.to[l], WrittenIps(c, c.write))
    {
      KeptThroughBlock(d, k, l, c, done);
    }
  }

  /** The block of `k` takes its prefixes back from a peer that is left alone. */
  lemma KeptThroughBlock(d: Device, k: Key, l: Key, c: Change, done: set<Key>)
    requires ValidChange(c) && k in c.write && k !in done && l in c.to && l !in c.write
    requires OwnsWithin(d, l, c.to[l], WrittenIps(c, c.write - done))
    ensures var e := Rewritten(d, k, c.to[k]);
      && OwnsWithin(e, l, c.to[l], WrittenIps(c, c.write - (done + {k})))
      && OwnsWithin(e, l, c.to[l], WrittenIps(c, c.write))
  {
    assert c.to[l].ips !! c.to[k].ips;
    forall x | x in WrittenIps(c, c.write - done) && x !in c.to[k].ips
      ensures x in WrittenIps(c, c.write - (done + {k})) && x in WrittenIps(c, c.write)
    {
      var m :| m in c.write - done && m in c.to && x in c.to[m].ips;
      assert m in c.write - (done + {k});
    }
  }

  /** `keys` are peers still to be written. */
  ghost predicate Pending(keys: seq<Key>, lists: map<Key, seq<Prefix>>, c: Change, done: set<Key>) {
    && (forall i, j :: 0 <= i < j < |keys| ==> keys[i] != keys[j])
    && (forall k :: k in keys ==> k in c.write && k in c.to && k !in done && k in lists && Lists(lists[k], c.to[k].ips))
  }

  lemma PendingRest(keys: seq<Key>, lists: map<Key, seq<Prefix>>, c: Change, done: set<Key>)
    requires keys != [] && Pending(keys, lists, c, done)
    ensures Pending(keys[1..], lists, c, done + {keys[0]})
  {
    hide Lists;
    forall l | l in keys[1..]
      ensures l in keys && l != keys[0]
    {
      var i :| 0 <= i < |keys[1..]| && keys[1..][i] == l;
      assert keys[i + 1] == l;
    }
  }

  lemma {:induction false} BlocksProgress(keys: seq<Key>, lists: map<Key, seq<Prefix>>, s: Session, c: Change,
                                          done: set<Key>)
    requires ValidChange(c) && Progress(s.dev, c, done)
    requires Pending(keys, lists, c, done)
    ensures Progress(Run(Blocks(keys, c.to, lists), s).dev, c, done + set k | k in keys)
    ensures var t := Run(Blocks(keys, c.to, lists), s).dev;
            t.privateKey == s.dev.privateKey && t.listenPort == s.dev.listenPort && t.fwmark == s.dev.fwmark
  {
    if keys == [] {
      assert done + (set k | k in keys) == done;
    } else {
      hide Recoverable, OwnsExactly, Progress, Lists, ValidChange, Block, Run;
      var k := keys[0];
      PendingRest(keys, lists, c, done);
      var block, rest := Block(k, c.to[k].state, lists[k]), Blocks(keys[1..], c.to, lists);
      BlockProgress(k, lists[k], s, c, done);
      BlocksProgress(keys[1..], lists, Run(block, s), c, done + {k});
      RunAppend(block, rest, s);
      assert done + (set l | l in keys) == done + {k} + set l | l in keys[1..];
    }
  }

  lemma FirstRemovals(keys: seq<Key>, d: Device, s: Session, c: Change)
    requires ValidChange(c) && Recoverable(d, c)
    requires s.dev.peers == d.peers && s.dev.allowed == d.allowed
    requires Enumerates(keys, c.removeFirst)
    ensures Run(RemoveOps(keys), s).dev == WithoutPeers(s.dev, c.removeFirst)
    ensures Progress(Run(RemoveOps(keys), s).dev, c, {})
  {
    RemoveRun(keys, s);
    assert (set k | k in keys) == c.removeFirst;
    var e := WithoutPeers(s.dev, c.removeFirst);
    assert c.write - {} == c.write;
    forall k | k in c.to && k !in c.write
      ensures OwnsWithin(e, k, c.to[k], WrittenIps(c, c.write))
    {
      assert OwnsWithin(d, k, c.to[k], WrittenIps(c, c.write));
    }
  }

  lemma LastRemovals(keys: seq<Key>, s: Session, c: Change)
    requires ValidChange(c) && Progress(s.dev, c, c.write)
    requires Enumerates(keys, c.removeLast)
    ensures Run(RemoveOps(keys), s).dev == WithoutPeers(s.dev, c.removeLast)
    ensures Holds(Run(RemoveOps(keys), s).dev, c.to)
  {
    RemoveRun(keys, s);
    assert (set k | k in keys) == c.removeLast;
    var e := WithoutPeers(s.dev, c.removeLast);
    assert WrittenIps(c, c.write - c.write) == {};
    forall k | k in c.to
      ensures OwnsExactly(e, k, c.to[k])
    {
      assert OwnsExactly(s.dev, k, c.to[k]);
    }
  }

  /** From any recoverable device a script of the change, in any order, ends with exactly what the
      change writes. */
  lemma ScriptReaches(d: Device, c: Change, o: Order, key: Option<Key>, port: nat, mark: nat)
    requires ValidChange(c) && OrderOf(o, c)
    requires Recoverable(d, c) && Global(d, c, key, port, mark)
    ensures var e := IpcSet(Script(c, o), d);
            Holds(e, c.to) && e.privateKey == key && e.listenPort == port && e.fwmark == mark
  {
    hide Recoverable, OwnsExactly, Holds;
    var s0 := Session(d, None);
    var pre, first, blocks, last := Preamble(c), RemoveOps(o.first), Blocks(o.write, c.to, o.lists), RemoveOps(o.last);
    PreambleRun(c, s0, key, port, mark);
    var s1 := Run(pre, s0);
    FirstRemovals(o.first, d, s1, c);
    var s2 := Run(first, s1);
    BlocksProgress(o.write, o.lists, s2, c, {});
    var s3 := Run(blocks, s2);
    assert {} + (set k | k in o.write) == c.write;
    LastRemovals(o.last, s3, c);
    RunAppend(pre, first, s0);
    RunAppend(pre + first, blocks, s0);
    RunAppend(pre + first + blocks, last, s0);
  }

  /** Stop a script after any operation, then run a whole script of the same change in any
      order: the device ends as if nothing had failed. */
  lemma RestartReaches(d: Device, c: Change, o: Order, i: nat, retry: Order, key: Option<Key>, port: nat, mark: nat)
    requires ValidChange(c) && OrderOf(o, c) && OrderOf(retry, c)
    requires Recoverable(d, c) && Global(d, c, key, port, mark)
    requires i <= |Script(c, o)|
    ensures var e := IpcSet(Script(c, retry), IpcSet(Script(c, o)[..i], d));
            Holds(e, c.to) && e.privateKey == key && e.listenPort == port && e.fwmark == mark
  {
    ScriptIssued(c, o, d);
    PrefixRecoverable(Script(c, o), i, Session(d, None), c, key, port, mark);
    ScriptReaches(IpcSet(Script(c, o)[..i], d), c, retry, key, port, mark);
  }

  // A prefix that moves from a removed peer to a written one is never without an owner

  ghost predicate OwnedBy(d: Device, x: Prefix, k: Key) {
    x in d.allowed && d.allowed[x] == k && k in d.peers
  }

  /** The prefix has an owner before, between and after the operations. */
  ghost predicate Throughout(ops: seq<Op>, s: Session, x: Prefix)
    decreases |ops|
  {
    x in s.dev.allowed && (ops == [] || Throughout(ops[1..], Exec(ops[0], s), x))
  }

  lemma {:induction false} ThroughoutAppend(a: seq<Op>, b: seq<Op>, s: Session, x: Prefix)
    requires Throughout(a, s, x) && Throughout(b, Run(a, s), x)
    ensures Throughout(a + b, s, x)
  {
    if a == [] {
      assert a + b == b;
    } else {
      assert (a + b)[1..] == a[1..] + b;
      ThroughoutAppend(a[1..], b, Exec(a[0], s), x);
    }
  }

  lemma {:induction false} ThroughoutPrefix(ops: seq<Op>, s: Session, x: Prefix, i: nat)
    requires Throughout(ops, s, x) && i <= |ops|
    ensures x in Run(ops[..i], s).dev.allowed
  {
    if i > 0 {
      assert ops[..i][1..] == ops[1..][..i - 1];
      ThroughoutPrefix(ops[1..], Exec(ops[0], s), x, i - 1);
    }
  }

  lemma PreambleThroughout(c: Change, s: Session, x: Prefix, k: Key)
    requires OwnedBy(s.dev, x, k)
    ensures Throughout(Preamble(c), s, x) && OwnedBy(Run(Preamble(c), s).dev, x, k)
  {
    var p := Preamble(c);
    if |p| == 2 {
      assert p[1..][1..] == [];
      assert Throughout(p[1..], Exec(p[0], s), x);
      assert Run(p[1..], Exec(p[0], s)) == Exec(p[1], Exec(p[0], s));
    } else if |p| == 1 {
      assert p[1..] == [];
    }
  }

  lemma {:induction false} RemovalsThroughout(keys: seq<Key>, s: Session, x: Prefix, k: Key)
    requires OwnedBy(s.dev, x, k) && k !in keys
    ensures Throughout(RemoveOps(keys), s, x) && OwnedBy(Run(RemoveOps(keys), s).dev, x, k)
  {
    if keys != [] {
      var ops := RemoveOps(keys);
      var t := Exec(PublicKey(keys[0]), s);
      var u := Exec(Remove, t);
      assert ops[1..] == [Remove] + RemoveOps(keys[1..]);
      assert ops[1..][1..] == RemoveOps(keys[1..]);
      RemovalsThroughout(keys[1..], u, x, k);
      assert Throughout(ops[1..], t, x);
    }
  }

  lemma HeadThroughout(l: Key, p: PeerState, s: Session, x: Prefix, k: Key)
    requires OwnedBy(s.dev, x, k) && l != k
    ensures Throughout(BlockHead(l, p), s, x) && OwnedBy(Run(BlockHead(l, p), s).dev, x, k)
  {
    var ops := BlockHead(l, p);
    var a := Exec(ops[0], s);
    var b := Exec(ops[1], a);
    var e := Exec(ops[2], b);
    var f := Exec(ops[3], e);
    assert |ops| == 4 || |ops| == 5;
    if |ops| == 4 {
      assert ops == [ops[0], ops[1], ops[2], ops[3]];
      ThroughoutFour(ops, s, x);
    } else {
      assert ops[1..] == [ops[1], ops[2], ops[3], ops[4]];
      ThroughoutFour(ops[1..], a, x);
    }
  }

  lemma ThroughoutFour(ops: seq<Op>, s: Session, x: Prefix)
    requires |ops| == 4
    ensures Run(ops, s) == Exec(ops[3], Exec(ops[2], Exec(ops[1], Exec(ops[0], s))))
    ensures Throughout(ops, s, x) <==>
            && x in s.dev.allowed
            && x in Exec(ops[0], s).dev.allowed
            && x in Exec(ops[1], Exec(ops[0], s)).dev.allowed
            && x in Exec(ops[2], Exec(ops[1], Exec(ops[0], s))).dev.allowed
            && x in Run(ops, s).dev.allowed
  {
    var a := Exec(ops[0], s);
    var b := Exec(ops[1], a);
    var e := Exec(ops[2], b);
    var r1, r2, r3 := ops[1..], ops[1..][1..], ops[1..][1..][1..];
    assert r3[1..] == [];
    assert Run(r3, e) == Exec(ops[3], e);
    assert Run(r2, b) == Run(r3, e);
    assert Run(r1, a) == Run(r2, b);
    assert Throughout(r3, e, x) <==> x in e.dev.allowed && x in Exec(ops[3], e).dev.allowed;
    assert Throughout(r2, b, x) <==> x in b.dev.allowed && Throughout(r3, e, x);
    assert Throughout(r1, a, x) <==> x in a.dev.allowed && Throughout(r2, b, x);
  }

  /** While one peer's list is added a prefix keeps its owner or passes to that peer. */
  lemma {:induction false} ListThroughout(list: seq<Prefix>, l: Key, s: Session, x: Prefix, k: Key)
    requires s.cur == Some(l) && l in s.dev.peers && OwnedBy(s.dev, x, k)
    ensures Throughout(AllowedIPs(list), s, x)
    ensures OwnedBy(Run(AllowedIPs(list), s).dev, x, if x in list then l else k)
  {
    if list != [] {
      var t := Exec(AllowedIP(list[0]), s);
      assert AllowedIPs(list)[1..] == AllowedIPs(list[1..]);
      ListThroughout(list[1..], l, t, x, if x == list[0] then l else k);
    }
  }

  lemma BlockThroughout(l: Key, w: Wanted, list: seq<Prefix>, s: Session, x: Prefix, k: Key)
    requires OwnedBy(s.dev, x, k) && l != k && Lists(list, w.ips)
    requires w.state.endpoint == "" && l in s.dev.peers ==> s.dev.peers[l].endpoint == ""
    ensures Throughout(Block(l, w.state, list), s, x)
    ensures OwnedBy(Run(Block(l, w.state, list), s).dev, x, if x in w.ips then l else k)
  {
    var head := BlockHead(l, w.state);
    HeadThroughout(l, w.state, s, x, k);
    HeadRun(l, w.state, s);
    ListThroughout(list, l, Run(head, s), x, k);
    ThroughoutAppend(head, AllowedIPs(list), s, x);
    RunAppend(head, AllowedIPs(list), s);
  }

  lemma BlockMoves(l: Key, rest: seq<Key>, lists: map<Key, seq<Prefix>>, s: Session, c: Change,
                   done: set<Key>, x: Prefix, k: Key, to: Key)
    requires ValidChange(c) && Progress(s.dev, c, done) && Pending([l] + rest, lists, c, done)
    requires k !in c.to && to in c.to && x in c.to[to].ips
    requires OwnedBy(s.dev, x, if to in [l] + rest then k else to)
    ensures var block := Block(l, c.to[l].state, lists[l]);
            && Throughout(block, s, x)
            && OwnedBy(Run(block, s).dev, x, if to in rest then k else to)
            && Progress(Run(block, s).dev, c, done + {l})
    ensures Pending(rest, lists, c, done + {l})
  {
    var keys := [l] + rest;
    assert keys[0] == l && keys[1..] == rest;
    assert l in keys;
    assert Pending(rest, lists, c, done + {l}) by {
      forall i, j | 0 <= i < j < |rest|
        ensures rest[i] != rest[j]
      {
        assert keys[i + 1] != keys[j + 1];
      }
      forall q | q in rest
        ensures q in keys && q != l
      {
        var i :| 0 <= i < |rest| && rest[i] == q;
        assert keys[i + 1] == q && keys[0] != keys[i + 1];
      }
    }
    assert c.to[l].state.endpoint == "" && l in s.dev.peers ==> s.dev.peers[l].endpoint == "";
    hide Recoverable, OwnsExactly;
    BlockProgress(l, lists[l], s, c, done);
    BlockThroughout(l, c.to[l], lists[l], s, x, if to in keys then k else to);
    assert x in c.to[l].ips <==> l == to;
  }

  lemma {:induction false} BlocksThroughout(keys: seq<Key>, lists: map<Key, seq<Prefix>>, s: Session, c: Change,
                                            done: set<Key>, x: Prefix, k: Key, to: Key)
    requires ValidChange(c) && Progress(s.dev, c, done) && Pending(keys, lists, c, done)
    requires k !in c.to && to in c.to && x in c.to[to].ips
    requires OwnedBy(s.dev, x, if to in keys then k else to)
    ensures Throughout(Blocks(keys, c.to, lists), s, x)
    ensures OwnedBy(Run(Blocks(keys, c.to, lists), s).dev, x, to)
  {
    hide Recoverable, OwnsExactly, Progress;
    if keys != [] {
      var l := keys[0];
      assert [l] + keys[1..] == keys;
      BlockMoves(l, keys[1..], lists, s, c, done, x, k, to);
      hide OwnedBy, ValidChange;
      var block, rest := Block(l, c.to[l].state, lists[l]), Blocks(keys[1..], c.to, lists);
      BlocksThroughout(keys[1..], lists, Run(block, s), c, done + {l}, x, k, to);
      ThroughoutAppend(block, rest, s, x);
      RunAppend(block, rest, s);
    }
  }

  /** A prefix that a peer about to be dropped owns, and that the script gives to another, has an
      owner after every single operation. */
  lemma NeverUnowned(d: Device, c: Change, o: Order, x: Prefix, k: Key, to: Key, i: nat)
    requires ValidChange(c) && OrderOf(o, c) && Recoverable(d, c)
    requires k in c.removeLast && OwnedBy(d, x, k)
    requires to in c.write && x in c.to[to].ips
    requires i <= |Script(c, o)|
    ensures x in IpcSet(Script(c, o)[..i], d).allowed
  {
    hide Recoverable, OwnsExactly;
    var s0 := Session(d, None);
    var pre, first, blocks, last := Preamble(c), RemoveOps(o.first), Blocks(o.write, c.to, o.lists), RemoveOps(o.last);
    var key := if c.privateKey.Some? then c.privateKey else d.privateKey;
    var port := if c.listenPort.Some? then c.listenPort.value else d.listenPort;
    PreambleRun(c, s0, key, port, d.fwmark);
    PreambleThroughout(c, s0, x, k);
    var s1 := Run(pre, s0);
    FirstRemovals(o.first, d, s1, c);
    RemovalsThroughout(o.first, s1, x, k);
    var s2 := Run(first, s1);
    BlocksThroughout(o.write, o.lists, s2, c, {}, x, k, to);
    var s3 := Run(blocks, s2);
    RemovalsThroughout(o.last, s3, x, to);
    RunAppend(pre, first, s0);
    RunAppend(pre + first, blocks, s0);
    ThroughoutAppend(pre, first, s0, x);
    ThroughoutAppend(pre + first, blocks, s0, x);
    ThroughoutAppend(pre + first + blocks, last, s0, x);
    ThroughoutPrefix(Script(c, o), s0, x, i);
  }
}
