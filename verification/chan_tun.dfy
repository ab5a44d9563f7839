/** The channel TUN as interleaved steps of its senders, readers and closer. A buffer handle is a
    value, so a thread keeps a copy of what it has sent; what a thread owns depends on where it is in
    its code. `panicked` records what the runtime or the ownership checks would abort on. */
module ChanTun {
  import opened Net

  const QUEUE_SIZE := 1024

  datatype Handle = Handle(buffer: nat, generation: nat)

  datatype Buffer = Buffer(generation: nat, inUse: bool, pooled: bool)

  datatype Chan = In | Out

  /** Sender: copies a packet, then sends it (`injectOutboundPacket`, `TryInjectOutbound`,
      `tryInjectInboundPacket`). Writer: `Write`, which stays registered over many packets.
      Receiver: `Read` and the workers that forward a profile's packets. */
  datatype Role =
    | Sender(chan: Chan, blocking: bool, releaseInside: bool)
    | Writer
    | Receiver(chan: Chan)

  datatype Pc =
    | Start
    | Copied
    | Selecting
    | Failed(sawClosed: bool)
    | Leaving(keep: bool)
    | Releasing
    | Writing

  datatype Thread = Thread(role: Role, pc: Pc, packet: Handle, batch: seq<Handle>)

  datatype Closer =
    | NotClosing
    | Waiting
    | InDown
    | Drain(chan: Chan, holding: Option<Handle>)
    | Finished

  datatype World = World(
    isClosed: bool,
    senders: int,
    inClosed: bool,
    outClosed: bool,
    inbound: seq<Handle>,
    outbound: seq<Handle>,
    closer: Closer,
    buffers: map<nat, Buffer>,
    free: set<nat>,
    threads: map<nat, Thread>,
    panicked: bool)

  function ChanOf(r: Role): Chan {
    match r
    case Sender(c, _, _) => c
    case Writer => In
    case Receiver(c) => c
  }

  predicate OwnsPacket(t: Thread) {
    t.pc.Copied? || t.pc.Selecting? || t.pc.Failed? || (t.pc.Leaving? && t.pc.keep) || t.pc.Releasing?
  }

  /** The thread is registered as a sender. */
  predicate Counted(t: Thread) {
    t.pc.Selecting? || t.pc.Failed? || t.pc.Leaving? || t.pc.Writing?
  }

  function Queue(w: World, c: Chan): seq<Handle> {
    if c.In? then w.inbound else w.outbound
  }

  function SetQueue(w: World, c: Chan, q: seq<Handle>): World {
    if c.In? then w.(inbound := q) else w.(outbound := q)
  }

  predicate ChanClosed(w: World, c: Chan) {
    if c.In? then w.inClosed else w.outClosed
  }

  function SetThread(w: World, i: nat, t: Thread): World {
    w.(threads := w.threads[i := t])
  }

  // Buffers

  predicate Validates(buffers: map<nat, Buffer>, h: Handle) {
    h.buffer in buffers && buffers[h.buffer].generation == h.generation && buffers[h.buffer].inUse
  }

  /** Taking a buffer out of the pool, or a new one. */
  function Acquired(w: World, b: nat, pooled: bool): World {
    var before := if b in w.buffers then w.buffers[b] else Buffer(0, false, pooled);
    if before.inUse then w.(panicked := true)
    else w.(buffers := w.buffers[b := before.(generation := before.generation + 1, inUse := true)], free := w.free - {b})
  }

  function Released(w: World, h: Handle): World {
    if !Validates(w.buffers, h) then w.(panicked := true)
    else
      var b := w.buffers[h.buffer];
      w.(buffers := w.buffers[h.buffer := b.(inUse := false)],
         free := if b.pooled then w.free + {h.buffer} else w.free)
  }

  // Steps

  datatype Event =
    | Copy(thread: nat, buffer: nat, pooled: bool)
    | Begin(thread: nat)
    | Push(thread: nat)
    | SeeClosed(thread: nat)
    | Default(thread: nat)
    | Drop(thread: nat)
    | Release(thread: nat, index: nat)
    | Done(thread: nat)
    | EndWrite(thread: nat)
    | Receive(thread: nat)
    | CloseStep

  predicate MayCopy(t: Thread) {
    (t.role.Sender? && t.pc.Start?) || (t.role.Writer? && t.pc.Writing?)
  }

  predicate Enabled(w: World, e: Event) {
    if e.CloseStep? then
      match w.closer
      case Waiting => w.senders == 0
      case Finished => false
      case _ => true
    else if e.thread !in w.threads then false
    else
      var t := w.threads[e.thread];
      match e
      case Copy(_, b, _) => MayCopy(t) && (b in w.free || b !in w.buffers)
      case Begin(_) => (t.role.Sender? && t.pc.Copied?) || (t.role.Writer? && t.pc.Start?)
      case Push(_) => t.pc.Selecting? && (ChanClosed(w, ChanOf(t.role)) || |Queue(w, ChanOf(t.role))| < QUEUE_SIZE)
      case SeeClosed(_) => t.pc.Selecting? && w.isClosed
      case Default(_) => t.pc.Selecting? && !(t.role.Sender? && t.role.blocking) && !w.isClosed
                         && |Queue(w, ChanOf(t.role))| >= QUEUE_SIZE
      case Drop(_) => t.role.Sender? && t.pc.Copied?
      case Release(_, i) => t.pc.Failed? || t.pc.Releasing? || (t.role.Receiver? && i < |t.batch|)
      case Done(_) => t.pc.Leaving?
      case EndWrite(_) => t.role.Writer? && t.pc.Writing?
      case Receive(_) => t.role.Receiver? && Queue(w, ChanOf(t.role)) != []
  }

  /** Where a thread goes when its send did not happen. */
  function NotSent(t: Thread, sawClosed: bool): Thread {
    if t.role.Writer? || (t.role.Sender? && t.role.releaseInside) then t.(pc := Failed(sawClosed)) else t.(pc := Leaving(true))
  }

  function AfterRelease(t: Thread): Thread {
    if t.pc.Releasing? then t.(pc := Start)
    else if t.role.Writer? && !(t.pc.Failed? && t.pc.sawClosed) then t.(pc := Writing)
    else t.(pc := Leaving(false))
  }

  function Without<T>(s: seq<T>, i: nat): seq<T>
    requires i < |s|
  {
    s[..i] + s[i + 1..]
  }

  function Next(w: World, e: Event): World
    requires Enabled(w, e)
  {
    if e.CloseStep? then NextClose(w)
    else
      var i, t := e.thread, w.threads[e.thread];
      match e
      case Copy(_, b, pooled) =>
        var v := Acquired(w, b, pooled);
        var h := Handle(b, if b in v.buffers then v.buffers[b].generation else 0);
        SetThread(v, i, t.(packet := h, pc := if t.role.Writer? then Selecting else Copied))
      case Begin(_) =>
        if w.isClosed then SetThread(w, i, t.(pc := if t.role.Writer? then Start else Releasing))
        else SetThread(w.(senders := w.senders + 1), i, t.(pc := if t.role.Writer? then Writing else Selecting))
      case Push(_) =>
        var c := ChanOf(t.role);
        if ChanClosed(w, c) then w.(panicked := true)
        else SetThread(SetQueue(w, c, Queue(w, c) + [t.packet]), i, t.(pc := if t.role.Writer? then Writing else Leaving(false)))
      case SeeClosed(_) => SetThread(w, i, NotSent(t, true))
      case Default(_) => SetThread(w, i, NotSent(t, false))
      case Drop(_) => SetThread(w, i, t.(pc := Releasing))
      case Release(_, k) =>
        if t.role.Receiver? && !t.pc.Failed? && !t.pc.Releasing? then
          SetThread(Released(w, t.batch[k]), i, t.(batch := Without(t.batch, k)))
        else SetThread(Released(w, t.packet), i, AfterRelease(t))
      case Done(_) => SetThread(w.(senders := w.senders - 1), i, t.(pc := if t.pc.keep then Releasing else Start))
      case EndWrite(_) => SetThread(w, i, t.(pc := Leaving(false)))
      case Receive(_) =>
        var c := ChanOf(t.role);
        SetThread(SetQueue(w, c, Queue(w, c)[1..]), i, t.(batch := t.batch + [Queue(w, c)[0]]))
  }

  function NextClose(w: World): World
    requires Enabled(w, CloseStep)
  {
    match w.closer
    case NotClosing => w.(isClosed := true, closer := Waiting)
    case Waiting => w.(inClosed := true, closer := InDown)
    case InDown => w.(outClosed := true, closer := Drain(In, None))
    case Drain(c, Some(h)) => Released(w, h).(closer := Drain(c, None))
    case Drain(c, None) =>
      if Queue(w, c) != [] then SetQueue(w, c, Queue(w, c)[1..]).(closer := Drain(c, Some(Queue(w, c)[0])))
      else w.(closer := if c.In? then Drain(Out, None) else Finished)
    case Finished => w
  }

  // Places

  datatype Place = InChan(chan: Chan) | Local(thread: nat) | Batch(thread: nat) | AtCloser

  /** The handles that are at a place. */
  function At(w: World, p: Place): seq<Handle> {
    match p
    case InChan(c) => Queue(w, c)
    case Local(t) => if t in w.threads && OwnsPacket(w.threads[t]) then [w.threads[t].packet] else []
    case Batch(t) => if t in w.threads then w.threads[t].batch else []
    case AtCloser => if w.closer.Drain? && w.closer.holding.Some? then [w.closer.holding.value] else []
  }

  ghost predicate NoTwice(s: seq<Handle>) {
    forall i, j :: 0 <= i < j < |s| ==> s[i].buffer != s[j].buffer
  }

  ghost predicate AllValid(w: World) {
    forall p, h :: h in At(w, p) ==> Validates(w.buffers, h)
  }

  ghost predicate OnePlace(w: World) {
    forall p, q, h, g :: h in At(w, p) && g in At(w, q) && h.buffer == g.buffer ==> p == q
  }

  ghost predicate NoneTwice(w: World) {
    forall p :: NoTwice(At(w, p))
  }

  /** Every handle anywhere is valid, and no buffer is at two places or twice at one. */
  ghost predicate Linear(w: World) {
    AllValid(w) && OnePlace(w) && NoneTwice(w)
  }

  /** Every buffer in use is somewhere, and the pool has only buffers that are not in use. */
  ghost predicate Complete(w: World) {
    && (forall b :: b in w.buffers && w.buffers[b].inUse ==> exists p, h :: h in At(w, p) && h.buffer == b)
    && (forall b :: b in w.free ==> b in w.buffers && !w.buffers[b].inUse)
  }

  ghost predicate Registered(w: World) {
    w.senders == |CountedIn(w.threads)|
  }

  ghost function CountedIn(threads: map<nat, Thread>): set<nat> {
    set t | t in threads && Counted(threads[t])
  }

  ghost predicate RolesOk(w: World) {
    forall t :: t in w.threads ==>
      var th := w.threads[t];
      && (th.role.Receiver? ==> th.pc.Start?)
      && (!th.role.Receiver? ==> th.batch == [])
      && (th.pc.Writing? ==> th.role.Writer?)
      && (th.role.Writer? ==> !th.pc.Copied? && !th.pc.Releasing? && !(th.pc.Leaving? && th.pc.keep))
  }

  ghost predicate Closing(w: World) {
    && (w.isClosed <==> !w.closer.NotClosing?)
    && (w.inClosed <==> w.closer.InDown? || w.closer.Drain? || w.closer.Finished?)
    && (w.outClosed <==> w.closer.Drain? || w.closer.Finished?)
    && (w.inClosed ==> w.senders == 0)
    && (w.closer == Drain(Out, None) || (w.closer.Drain? && w.closer.chan.Out?) || w.closer.Finished? ==> w.inbound == [])
    && (w.closer.Finished? ==> w.outbound == [])
  }

  ghost predicate Inv(w: World) {
    !w.panicked && Linear(w) && Complete(w) && Registered(w) && RolesOk(w) && Closing(w)
  }

  // One handle changes place

  ghost predicate Shift(w: World, v: World, from: Option<Place>, k: nat, to: Option<Place>, h: Handle) {
    && (from.Some? ==> k < |At(w, from.value)| && At(w, from.value)[k] == h && At(v, from.value) == Without(At(w, from.value), k))
    && (to.Some? ==> At(v, to.value) == At(w, to.value) + [h])
    && (from.Some? ==> from != to)
    && forall p :: Some(p) != from && Some(p) != to ==> At(v, p) == At(w, p)
  }

  lemma WithoutMembers(s: seq<Handle>, k: nat, g: Handle)
    requires k < |s| && NoTwice(s)
    ensures g in Without(s, k) <==> g in s && g.buffer != s[k].buffer
    ensures NoTwice(Without(s, k))
  {
    var r := Without(s, k);
    assert forall i :: 0 <= i < |r| ==> r[i] == s[if i < k then i else i + 1];
    if g in s && g.buffer != s[k].buffer {
      var i :| 0 <= i < |s| && s[i] == g;
      assert r[if i < k then i else i - 1] == g;
    }
  }

  /** What is where after the move: `h` is at `to` and nowhere else, the rest stays. */
  ghost predicate Relocated(w: World, v: World, to: Option<Place>, h: Handle) {
    forall p, g :: g in At(v, p) <==> (g in At(w, p) && g.buffer != h.buffer) || (to == Some(p) && g == h)
  }

  lemma ShiftMembers(w: World, v: World, from: Option<Place>, k: nat, to: Option<Place>, h: Handle, p: Place, g: Handle)
    requires Shift(w, v, from, k, to, h) && NoTwice(At(w, p))
    requires Some(p) != from ==> forall x :: x in At(w, p) ==> x.buffer != h.buffer
    ensures g in At(v, p) <==> (g in At(w, p) && g.buffer != h.buffer) || (Some(p) == to && g == h)
    ensures NoTwice(At(v, p))
  {
    hide At;
    if Some(p) == from {
      WithoutMembers(At(w, p), k, g);
    }
  }

  lemma SamePlace(w: World, p: Place, q: Place, h: Handle, g: Handle)
    requires OnePlace(w) && h in At(w, p) && g in At(w, q) && h.buffer == g.buffer
    ensures p == q
  {
    hide At;
  }

  lemma ShiftRelocates(w: World, v: World, from: Option<Place>, k: nat, to: Option<Place>, h: Handle)
    requires Linear(w) && Shift(w, v, from, k, to, h)
    requires from.None? ==> forall p, x :: x in At(w, p) ==> x.buffer != h.buffer
    ensures Relocated(w, v, to, h) && NoneTwice(v)
  {
    hide At, OnePlace, AllValid;
    assert from.Some? ==> h in At(w, from.value);
    hide Shift, NoTwice;
    forall p, g
      ensures g in At(v, p) <==> (g in At(w, p) && g.buffer != h.buffer) || (to == Some(p) && g == h)
      ensures NoTwice(At(v, p))
    {
      forall x | x in At(w, p) && Some(p) != from
        ensures x.buffer != h.buffer
      {
        if from.Some? && x.buffer == h.buffer {
          SamePlace(w, p, from.value, x, h);
        }
      }
      ShiftMembers(w, v, from, k, to, h, p, g);
    }
  }

  lemma RelocatedPair(w: World, v: World, to: Option<Place>, h: Handle, p: Place, q: Place, g: Handle, x: Handle)
    requires OnePlace(w) && Relocated(w, v, to, h)
    requires g in At(v, p) && x in At(v, q) && g.buffer == x.buffer
    ensures p == q
  {
    hide OnePlace, At;
    if g.buffer != h.buffer {
      SamePlace(w, p, q, g, x);
    }
  }

  lemma RelocatedOnePlace(w: World, v: World, to: Option<Place>, h: Handle)
    requires OnePlace(w) && Relocated(w, v, to, h)
    ensures OnePlace(v)
  {
    hide At, Relocated;
    forall p, q, g, x | g in At(v, p) && x in At(v, q) && g.buffer == x.buffer
      ensures p == q
    {
      RelocatedPair(w, v, to, h, p, q, g, x);
    }
  }

  lemma RelocatedValid(w: World, v: World, to: Option<Place>, h: Handle)
    requires AllValid(w) && Relocated(w, v, to, h) && (to.Some? ==> Validates(v.buffers, h))
    requires forall b :: b in w.buffers && b != h.buffer ==> b in v.buffers && v.buffers[b] == w.buffers[b]
    ensures AllValid(v)
  {
    hide At;
    forall p, g | g in At(v, p)
      ensures Validates(v.buffers, g)
    {
      assert g != h ==> Validates(w.buffers, g);
    }
  }

  lemma RelocatedComplete(w: World, v: World, to: Option<Place>, h: Handle)
    requires Complete(w) && Relocated(w, v, to, h)
    requires forall b :: b in v.buffers && b != h.buffer ==> b in w.buffers && v.buffers[b] == w.buffers[b]
    requires h.buffer in v.buffers && (v.buffers[h.buffer].inUse <==> to.Some?)
    requires forall b :: b in v.free ==> b in v.buffers && !v.buffers[b].inUse
    ensures Complete(v)
  {
    hide At;
    forall b | b in v.buffers && v.buffers[b].inUse
      ensures exists p, g :: g in At(v, p) && g.buffer == b
    {
      if b == h.buffer {
        assert h in At(v, to.value);
      } else {
        var p, g :| g in At(w, p) && g.buffer == b;
        assert g in At(v, p);
      }
    }
  }

  lemma MoveKeeps(w: World, v: World, from: Place, k: nat, to: Place, h: Handle)
    requires Linear(w) && Complete(w) && Shift(w, v, Some(from), k, Some(to), h)
    requires v.buffers == w.buffers && v.free == w.free
    ensures Linear(v) && Complete(v)
  {
    assert h in At(w, from);
    hide At, Shift, Relocated, OnePlace, NoneTwice;
    AtIsValid(w, from, h);
    ShiftRelocates(w, v, Some(from), k, Some(to), h);
    RelocatedOnePlace(w, v, Some(to), h);
    RelocatedValid(w, v, Some(to), h);
    RelocatedComplete(w, v, Some(to), h);
  }

  lemma AcquireKeeps(w: World, v: World, to: Place, h: Handle)
    requires Linear(w) && Complete(w) && Shift(w, v, None, 0, Some(to), h)
    requires h.buffer in w.buffers ==> !w.buffers[h.buffer].inUse
    requires v.free == w.free - {h.buffer} && Validates(v.buffers, h)
    requires v.buffers == w.buffers[h.buffer := v.buffers[h.buffer]]
    ensures Linear(v) && Complete(v)
  {
    hide At, Shift, Relocated, OnePlace, NoneTwice;
    forall p, g | g in At(w, p)
      ensures g.buffer != h.buffer
    {
      AtIsValid(w, p, g);
    }
    ShiftRelocates(w, v, None, 0, Some(to), h);
    RelocatedOnePlace(w, v, Some(to), h);
    RelocatedValid(w, v, Some(to), h);
    RelocatedComplete(w, v, Some(to), h);
  }

  lemma ReleaseKeeps(w: World, v: World, from: Place, k: nat, h: Handle)
    requires Linear(w) && Complete(w) && Shift(w, v, Some(from), k, None, h)
    requires v.buffers == Released(w, h).buffers && v.free == Released(w, h).free
    ensures Validates(w.buffers, h)
    ensures Linear(v) && Complete(v)
  {
    assert h in At(w, from);
    hide At, Shift, Relocated, OnePlace, NoneTwice;
    AtIsValid(w, from, h);
    ShiftRelocates(w, v, Some(from), k, None, h);
    RelocatedOnePlace(w, v, None, h);
    RelocatedValid(w, v, None, h);
    RelocatedComplete(w, v, None, h);
  }

  lemma NothingMoves(w: World, v: World)
    requires Linear(w) && Complete(w) && v.buffers == w.buffers && v.free == w.free
    requires forall p :: At(v, p) == At(w, p)
    ensures Linear(v) && Complete(v)
  {
    hide At;
    forall b | b in v.buffers && v.buffers[b].inUse
      ensures exists p, g :: g in At(v, p) && g.buffer == b
    {
      var p, g :| g in At(w, p) && g.buffer == b;
      assert g in At(v, p);
    }
  }

  // Registration

  lemma CountedSame(w: World, v: World, i: nat)
    requires i in w.threads && i in v.threads && v.threads == w.threads[i := v.threads[i]]
    requires Registered(w)
    requires v.senders == w.senders + (if Counted(v.threads[i]) then 1 else 0) - (if Counted(w.threads[i]) then 1 else 0)
    ensures Registered(v)
  {
    var before := CountedIn(w.threads);
    var after := CountedIn(v.threads);
    assert after - {i} == before - {i};
    SplitOff(before, i);
    SplitOff(after, i);
    assert i in before <==> Counted(w.threads[i]);
    assert i in after <==> Counted(v.threads[i]);
  }

  lemma SplitOff(s: set<nat>, i: nat)
    ensures |s| == |s - {i}| + if i in s then 1 else 0
  {
    if i in s {
      assert s == (s - {i}) + {i};
    } else {
      assert s == s - {i};
    }
  }

  /** A registered thread means a positive count. */
  lemma CountedPositive(w: World, i: nat)
    requires Registered(w) && i in w.threads && Counted(w.threads[i])
    ensures w.senders > 0
  {
    assert i in CountedIn(w.threads);
  }

  // Every step keeps the invariant

  lemma AtIsValid(w: World, p: Place, h: Handle)
    requires Linear(w) && h in At(w, p)
    ensures Validates(w.buffers, h)
  {
  }

  lemma FreeIsUnused(w: World, b: nat)
    requires Complete(w) && (b in w.free || b !in w.buffers)
    ensures b in w.buffers ==> !w.buffers[b].inUse
  {
  }

  lemma SameThreads(w: World, v: World)
    requires Registered(w) && v.threads == w.threads && v.senders == w.senders
    ensures Registered(v)
  {
  }

  lemma CopyKeeps(w: World, i: nat, b: nat, pooled: bool)
    requires Inv(w) && Enabled(w, Copy(i, b, pooled))
    ensures Inv(Next(w, Copy(i, b, pooled)))
  {
    hide Linear, Complete, Registered;
    var v := Next(w, Copy(i, b, pooled));
    var t := w.threads[i];
    FreeIsUnused(w, b);
    var h := v.threads[i].packet;
    assert Shift(w, v, None, 0, Some(Local(i)), h);
    AcquireKeeps(w, v, Local(i), h);
    CountedSame(w, v, i);
  }

  lemma QuietKeeps(w: World, e: Event)
    requires Inv(w) && Enabled(w, e) && (e.Begin? || e.SeeClosed? || e.Default? || e.Drop? || e.Done? || e.EndWrite?)
    ensures Inv(Next(w, e))
  {
    hide Linear, Complete, Registered;
    var v, i := Next(w, e), e.thread;
    if e.Done? {
      CountedPositive(w, i);
    }
    forall p
      ensures At(v, p) == At(w, p)
    {
    }
    NothingMoves(w, v);
    CountedSame(w, v, i);
  }

  lemma PushKeeps(w: World, i: nat)
    requires Inv(w) && Enabled(w, Push(i))
    ensures Inv(Next(w, Push(i)))
  {
    hide Linear, Complete, Registered;
    CountedPositive(w, i);
    var v, t := Next(w, Push(i)), w.threads[i];
    var c := ChanOf(t.role);
    assert !ChanClosed(w, c);
    PushIsShift(w, v, i, c);
    assert RolesOk(v) && Closing(v);
    hide At, Shift, RolesOk, Closing;
    MoveKeeps(w, v, Local(i), 0, InChan(c), t.packet);
    CountedSame(w, v, i);
  }

  lemma PushIsShift(w: World, v: World, i: nat, c: Chan)
    requires i in w.threads && i in v.threads && v.threads == w.threads[i := v.threads[i]] && v.closer == w.closer
    requires OwnsPacket(w.threads[i]) && !OwnsPacket(v.threads[i]) && v.threads[i].batch == w.threads[i].batch
    requires Queue(v, c) == Queue(w, c) + [w.threads[i].packet] && forall d :: d != c ==> Queue(v, d) == Queue(w, d)
    ensures Shift(w, v, Some(Local(i)), 0, Some(InChan(c)), w.threads[i].packet)
  {
    hide Queue, OwnsPacket;
    assert Without([w.threads[i].packet], 0) == [];
  }

  lemma ReceiveKeeps(w: World, i: nat)
    requires Inv(w) && Enabled(w, Receive(i))
    ensures Inv(Next(w, Receive(i)))
  {
    hide Linear, Complete, Registered;
    var v, t := Next(w, Receive(i)), w.threads[i];
    var c := ChanOf(t.role);
    ReceiveIsShift(w, v, i, c);
    assert RolesOk(v) && Closing(v);
    hide At, Shift, RolesOk, Closing;
    MoveKeeps(w, v, InChan(c), 0, Batch(i), Queue(w, c)[0]);
    CountedSame(w, v, i);
  }

  lemma ReceiveIsShift(w: World, v: World, i: nat, c: Chan)
    requires i in w.threads && i in v.threads && v.threads == w.threads[i := v.threads[i]] && v.closer == w.closer
    requires Queue(w, c) != [] && v.threads[i] == w.threads[i].(batch := w.threads[i].batch + [Queue(w, c)[0]])
    requires Queue(v, c) == Queue(w, c)[1..] && forall d :: d != c ==> Queue(v, d) == Queue(w, d)
    ensures Shift(w, v, Some(InChan(c)), 0, Some(Batch(i)), Queue(w, c)[0])
  {
    hide Queue;
    assert Without(Queue(w, c), 0) == Queue(w, c)[1..];
  }

  lemma BatchReleaseKeeps(w: World, i: nat, k: nat)
    requires Inv(w) && Enabled(w, Release(i, k)) && w.threads[i].role.Receiver?
    ensures Inv(Next(w, Release(i, k)))
  {
    hide Linear, Complete, Registered;
    var v, t := Next(w, Release(i, k)), w.threads[i];
    assert t.batch[k] in At(w, Batch(i));
    AtIsValid(w, Batch(i), t.batch[k]);
    assert Shift(w, v, Some(Batch(i)), k, None, t.batch[k]);
    ReleaseKeeps(w, v, Batch(i), k, t.batch[k]);
    CountedSame(w, v, i);
  }

  lemma PacketReleaseKeeps(w: World, i: nat, k: nat)
    requires Inv(w) && Enabled(w, Release(i, k)) && !w.threads[i].role.Receiver?
    ensures Inv(Next(w, Release(i, k)))
  {
    hide Linear, Complete, Registered;
    var v, t := Next(w, Release(i, k)), w.threads[i];
    assert t.packet in At(w, Local(i));
    AtIsValid(w, Local(i), t.packet);
    assert Without([t.packet], 0) == [];
    assert Shift(w, v, Some(Local(i)), 0, None, t.packet);
    ReleaseKeeps(w, v, Local(i), 0, t.packet);
    CountedSame(w, v, i);
  }

  lemma CloserReleaseKeeps(w: World)
    requires Inv(w) && w.closer.Drain? && w.closer.holding.Some?
    ensures Inv(Next(w, CloseStep))
  {
    hide Linear, Complete, Registered;
    var v, h := Next(w, CloseStep), w.closer.holding.value;
    SameThreads(w, v);
    assert h in At(w, AtCloser);
    AtIsValid(w, AtCloser, h);
    assert Without([h], 0) == [];
    assert Shift(w, v, Some(AtCloser), 0, None, h);
    ReleaseKeeps(w, v, AtCloser, 0, h);
  }

  lemma CloserTakeKeeps(w: World)
    requires Inv(w) && w.closer.Drain? && w.closer.holding.None? && Queue(w, w.closer.chan) != []
    ensures Inv(Next(w, CloseStep))
  {
    hide Linear, Complete, Registered;
    var v, c := Next(w, CloseStep), w.closer.chan;
    SameThreads(w, v);
    assert Without(Queue(w, c), 0) == Queue(w, c)[1..];
    assert RolesOk(v) && Closing(v);
    TakeIsShift(w, v, c);
    hide RolesOk, Closing, Shift, At, Next;
    MoveKeeps(w, v, InChan(c), 0, AtCloser, Queue(w, c)[0]);
  }

  lemma TakeIsShift(w: World, v: World, c: Chan)
    requires Queue(w, c) != [] && w.closer == Drain(c, None)
    requires v.threads == w.threads && v.closer == Drain(c, Some(Queue(w, c)[0]))
    requires Queue(v, c) == Queue(w, c)[1..] && forall d :: d != c ==> Queue(v, d) == Queue(w, d)
    ensures Shift(w, v, Some(InChan(c)), 0, Some(AtCloser), Queue(w, c)[0])
  {
    hide Queue;
    assert Without(Queue(w, c), 0) == Queue(w, c)[1..];
  }

  lemma CloserMarkKeeps(w: World)
    requires Inv(w) && Enabled(w, CloseStep)
    requires w.closer.Drain? ==> w.closer.holding.None? && Queue(w, w.closer.chan) == []
    ensures Inv(Next(w, CloseStep))
  {
    hide Linear, Complete, Registered;
    var v := Next(w, CloseStep);
    SameThreads(w, v);
    NothingMoves(w, v);
  }

  lemma CloseKeeps(w: World)
    requires Inv(w) && Enabled(w, CloseStep)
    ensures Inv(Next(w, CloseStep))
  {
    hide Inv, Next;
    if w.closer.Drain? && w.closer.holding.Some? {
      CloserReleaseKeeps(w);
    } else if w.closer.Drain? && Queue(w, w.closer.chan) != [] {
      CloserTakeKeeps(w);
    } else {
      CloserMarkKeeps(w);
    }
  }

  lemma StepKeeps(w: World, e: Event)
    requires Inv(w) && Enabled(w, e)
    ensures Inv(Next(w, e))
  {
    hide Inv, Next;
    match e
    case Copy(i, b, pooled) => CopyKeeps(w, i, b, pooled);
    case Push(i) => PushKeeps(w, i);
    case Receive(i) => ReceiveKeeps(w, i);
    case Release(i, k) =>
      if w.threads[i].role.Receiver? {
        BatchReleaseKeeps(w, i, k);
      } else {
        PacketReleaseKeeps(w, i, k);
      }
    case CloseStep => CloseKeeps(w);
    case _ => QuietKeeps(w, e);
  }

  // Runs

  ghost predicate Runs(w: World, events: seq<Event>, v: World)
    decreases |events|
  {
    if events == [] then v == w else Enabled(w, events[0]) && Runs(Next(w, events[0]), events[1..], v)
  }

  lemma {:induction false} RunKeeps(w: World, events: seq<Event>, v: World)
    requires Inv(w) && Runs(w, events, v)
    ensures Inv(v)
    decreases |events|
  {
    hide Inv, Next, Enabled;
    if events != [] {
      StepKeeps(w, events[0]);
      RunKeeps(Next(w, events[0]), events[1..], v);
    }
  }

  /** A new device: open, empty, no thread under way. */
  ghost predicate Initial(w: World) {
    && !w.isClosed && !w.inClosed && !w.outClosed && !w.panicked
    && w.senders == 0 && w.inbound == [] && w.outbound == [] && w.closer == NotClosing
    && w.buffers == map[] && w.free == {}
    && forall t :: t in w.threads ==> w.threads[t].pc == Start && w.threads[t].batch == []
  }

  lemma InitialInv(w: World)
    requires Initial(w)
    ensures Inv(w)
  {
    assert CountedIn(w.threads) == {};
    assert forall p :: At(w, p) == [];
    assert RolesOk(w) && Closing(w);
    hide At, RolesOk, Closing;
  }

  ghost predicate Reachable(w: World) {
    exists start, events :: Initial(start) && Runs(start, events, w)
  }

  lemma ReachableInv(w: World)
    requires Reachable(w)
    ensures Inv(w)
  {
    hide Inv, Runs, Initial;
    var start, events :| Initial(start) && Runs(start, events, w);
    InitialInv(start);
    RunKeeps(start, events, w);
  }

  // Main results

  /** In no interleaving is there a send on a closed channel, a use of a buffer that is not owned or a
      second release. */
  lemma NothingPanics(w: World, e: Event)
    requires Reachable(w) && Enabled(w, e)
    ensures !w.panicked && !Next(w, e).panicked
    ensures e.Push? ==> !ChanClosed(w, ChanOf(w.threads[e.thread].role))
  {
    hide Reachable, Linear, Complete, Registered, Next;
    ReachableInv(w);
    StepKeeps(w, e);
    if e.Push? {
      OpenForSenders(w, e.thread);
    }
  }

  lemma OpenForSenders(w: World, i: nat)
    requires Inv(w)
    ensures i in w.threads && w.threads[i].pc.Selecting? ==> !ChanClosed(w, ChanOf(w.threads[i].role))
  {
    if i in w.threads && w.threads[i].pc.Selecting? {
      CountedPositive(w, i);
    }
  }

  /** Every acquired buffer is in exactly one place, there once, under its current generation, and
      nothing else is anywhere. */
  lemma ExactlyOnePlace(w: World, b: nat)
    requires Reachable(w)
    ensures b in w.buffers && w.buffers[b].inUse <==> exists p, i :: 0 <= i < |At(w, p)| && At(w, p)[i].buffer == b
    ensures forall p, q, i, j :: 0 <= i < |At(w, p)| && 0 <= j < |At(w, q)| && At(w, p)[i].buffer == At(w, q)[j].buffer == b ==>
      p == q && i == j && b in w.buffers && At(w, p)[i].generation == w.buffers[b].generation
  {
    hide *;
    ReachableInv(w);
    InvParts(w);
    BufferPlaced(w, b);
    forall p, q, i, j | 0 <= i < |At(w, p)| && 0 <= j < |At(w, q)| && At(w, p)[i].buffer == At(w, q)[j].buffer == b
      ensures p == q && i == j && b in w.buffers && At(w, p)[i].generation == w.buffers[b].generation
    {
      OneSlot(w, p, q, i, j);
    }
  }

  lemma InvParts(w: World)
    requires Inv(w)
    ensures Linear(w) && Complete(w)
  {
  }

  lemma OneSlot(w: World, p: Place, q: Place, i: nat, j: nat)
    requires Linear(w) && i < |At(w, p)| && j < |At(w, q)| && At(w, p)[i].buffer == At(w, q)[j].buffer
    ensures p == q && i == j && Validates(w.buffers, At(w, p)[i])
    ensures At(w, p)[i].buffer in w.buffers && At(w, p)[i].generation == w.buffers[At(w, p)[i].buffer].generation
  {
    hide At, OnePlace, AllValid, Linear;
    assert OnePlace(w) && AllValid(w) && NoneTwice(w) by { LinearParts(w); }
    var h, g := At(w, p)[i], At(w, q)[j];
    assert h in At(w, p) && g in At(w, q);
    SamePlace(w, p, q, h, g);
    assert NoTwice(At(w, p));
    AtIsValid(w, p, h);
  }

  lemma LinearParts(w: World)
    requires Linear(w)
    ensures OnePlace(w) && AllValid(w) && NoneTwice(w)
  {
    hide OnePlace, AllValid, NoneTwice;
  }

  lemma BufferPlaced(w: World, b: nat)
    requires Linear(w) && Complete(w)
    ensures b in w.buffers && w.buffers[b].inUse <==> exists p, i :: 0 <= i < |At(w, p)| && At(w, p)[i].buffer == b
  {
    hide At, OnePlace, AllValid, NoneTwice;
    if b in w.buffers && w.buffers[b].inUse {
      var p, h :| h in At(w, p) && h.buffer == b;
      var i :| 0 <= i < |At(w, p)| && At(w, p)[i] == h;
      assert At(w, p)[i].buffer == b;
    }
    if p, i :| 0 <= i < |At(w, p)| && At(w, p)[i].buffer == b {
      assert At(w, p)[i] in At(w, p);
      AtIsValid(w, p, At(w, p)[i]);
    }
  }

  // After close everything can come to an end

  lemma {:induction false} RunsAppend(w: World, a: seq<Event>, v: World, b: seq<Event>, u: World)
    requires Runs(w, a, v) && Runs(v, b, u)
    ensures Runs(w, a + b, u)
    decreases |a|
  {
    hide Next, Enabled;
    if a == [] {
      assert a + b == b;
    } else {
      assert (a + b)[1..] == a[1..] + b;
      RunsAppend(Next(w, a[0]), a[1..], v, b, u);
    }
  }

  function Steps(pc: Pc): nat {
    match pc
    case Selecting => 4
    case Failed(_) => 3
    case Writing => 2
    case Leaving(_) => 1
    case _ => 0
  }

  function LeaveStep(i: nat, pc: Pc): Event {
    match pc
    case Selecting => SeeClosed(i)
    case Failed(_) => Release(i, 0)
    case Writing => EndWrite(i)
    case _ => Done(i)
  }

  /** One step of a registered thread on its own brings it closer to leaving. */
  lemma LeaveStepWorks(w: World, i: nat)
    requires Inv(w) && w.isClosed && i in w.threads && Counted(w.threads[i])
    ensures var e := LeaveStep(i, w.threads[i].pc);
      && Enabled(w, e)
      && var v := Next(w, e);
         && Inv(v) && v.isClosed && i in v.threads
         && Steps(v.threads[i].pc) < Steps(w.threads[i].pc)
         && v.senders == (if e.Done? then w.senders - 1 else w.senders)
         && (Counted(v.threads[i]) <==> !e.Done?)
         && v.closer == w.closer
  {
    hide Linear, Complete, Registered, Closing;
    var e := LeaveStep(i, w.threads[i].pc);
    StepKeeps(w, e);
  }

  /** Once the device is closed, a registered sender can always finish, by at most four steps of its
      own and without any help. */
  lemma {:induction false} BlockedSenderFinishes(w: World, i: nat) returns (events: seq<Event>, v: World)
    requires Inv(w) && w.isClosed && i in w.threads && Counted(w.threads[i])
    ensures Runs(w, events, v) && |events| <= Steps(w.threads[i].pc) && forall k :: 0 <= k < |events| ==> !events[k].CloseStep? && events[k].thread == i
    ensures Inv(v) && v.isClosed && i in v.threads && !Counted(v.threads[i]) && v.senders == w.senders - 1
    ensures v.closer == w.closer
    decreases Steps(w.threads[i].pc)
  {
    var e := LeaveStep(i, w.threads[i].pc);
    LeaveStepWorks(w, i);
    var u := Next(w, e);
    hide Inv, Next, Enabled;
    if Counted(u.threads[i]) {
      var rest, last := BlockedSenderFinishes(u, i);
      events, v := [e] + rest, last;
      assert events[1..] == rest;
    } else {
      events, v := [e], u;
      assert events[1..] == [];
    }
  }

  function CloserSteps(w: World): nat {
    match w.closer
    case NotClosing => 0
    case Waiting => 4 + 2 * |w.inbound| + 2 * |w.outbound|
    case InDown => 3 + 2 * |w.inbound| + 2 * |w.outbound|
    case Drain(c, h) => (if c.In? then 2 else 1) + 2 * |w.inbound| + 2 * |w.outbound| + if h.Some? then 1 else 0
    case Finished => 0
  }

  lemma CloserStepWorks(w: World)
    requires Inv(w) && w.isClosed && w.senders == 0 && !w.closer.Finished?
    ensures Enabled(w, CloseStep)
    ensures var v := Next(w, CloseStep);
      Inv(v) && v.isClosed && v.senders == 0 && CloserSteps(v) < CloserSteps(w)
  {
    hide Linear, Complete, Registered;
    StepKeeps(w, CloseStep);
  }

  /** From every reachable state of a closed device there is a run that ends the close with both queues
      empty, whatever the other threads hold. */
  lemma {:induction false} CloseCanFinish(w: World) returns (events: seq<Event>, v: World)
    requires Inv(w) && w.isClosed
    ensures Runs(w, events, v) && v.closer.Finished? && v.inbound == [] && v.outbound == []
    decreases if w.senders > 0 then w.senders else 0, CloserSteps(w)
  {
    if w.closer.Finished? {
      return [], w;
    }
    if w.senders == 0 {
      CloserStepWorks(w);
      var u := Next(w, CloseStep);
      var rest, last := CloseCanFinish(u);
      hide Inv, Next, Enabled;
      events, v := [CloseStep] + rest, last;
      assert events[1..] == rest;
    } else {
      var i := SomeSender(w);
      var leave, u := BlockedSenderFinishes(w, i);
      SendersNotNegative(w);
      var rest, last := CloseCanFinish(u);
      RunsAppend(w, leave, u, rest, last);
      events, v := leave + rest, last;
    }
  }

  lemma SendersNotNegative(w: World)
    requires Registered(w)
    ensures w.senders >= 0
  {
  }

  lemma SomeSender(w: World) returns (i: nat)
    requires Registered(w) && w.senders != 0
    ensures i in w.threads && Counted(w.threads[i])
  {
    i :| i in CountedIn(w.threads);
  }

  // Stale handles

  /** Generations never fall, and a released generation is never in use again. */
  ghost predicate Stale(w: World, h: Handle) {
    h.buffer in w.buffers && (h.generation < w.buffers[h.buffer].generation
      || (h.generation == w.buffers[h.buffer].generation && !w.buffers[h.buffer].inUse))
  }

  lemma BuffersKeepStale(w: World, b: nat, pooled: bool, g: Handle, h: Handle)
    requires Stale(w, h)
    ensures Stale(Acquired(w, b, pooled), h) && Stale(Released(w, g), h)
  {
  }

  lemma StepKeepsStale(w: World, e: Event, h: Handle)
    requires Enabled(w, e) && Stale(w, h)
    ensures Stale(Next(w, e), h)
  {
    hide Acquired, Released;
    match e
    case Copy(_, b, pooled) => BuffersKeepStale(w, b, pooled, h, h);
    case Release(i, k) =>
      if w.threads[i].role.Receiver? && !w.threads[i].pc.Failed? && !w.threads[i].pc.Releasing? {
        BuffersKeepStale(w, 0, false, w.threads[i].batch[k], h);
      } else {
        BuffersKeepStale(w, 0, false, w.threads[i].packet, h);
      }
    case CloseStep =>
      if w.closer.Drain? && w.closer.holding.Some? {
        BuffersKeepStale(w, 0, false, w.closer.holding.value, h);
      }
    case _ =>
  }

  lemma {:induction false} RunKeepsStale(w: World, events: seq<Event>, v: World, h: Handle)
    requires Runs(w, events, v) && Stale(w, h)
    ensures Stale(v, h)
    decreases |events|
  {
    hide Next, Enabled, Stale;
    if events != [] {
      StepKeepsStale(w, events[0], h);
      RunKeepsStale(Next(w, events[0]), events[1..], v, h);
    }
  }

  /** The handle that a step releases. */
  function ReleasedBy(w: World, e: Event): Option<Handle> {
    match e
    case Release(i, k) =>
      if i !in w.threads then None
      else
        var t := w.threads[i];
        if t.role.Receiver? && !t.pc.Failed? && !t.pc.Releasing? then if k < |t.batch| then Some(t.batch[k]) else None
        else Some(t.packet)
    case CloseStep => if w.closer.Drain? then w.closer.holding else None
    case _ => None
  }

  lemma ReleaseMakesStale(w: World, e: Event, h: Handle)
    requires Inv(w) && Enabled(w, e) && ReleasedBy(w, e) == Some(h)
    ensures Stale(Next(w, e), h)
  {
    var p := if e.CloseStep? then AtCloser else if w.threads[e.thread].role.Receiver? then Batch(e.thread) else Local(e.thread);
    assert h in At(w, p);
    AtIsValid(w, p, h);
    hide At, Linear, Complete, Registered, Closing;
  }

  /** After any release, by a sender, a writer, a reader or the closer, every copy of the handle is
      rejected forever, also when the buffer is in use again. */
  lemma ReleasedHandleRejected(w: World, e: Event, h: Handle, events: seq<Event>, v: World)
    requires Reachable(w) && Enabled(w, e) && ReleasedBy(w, e) == Some(h)
    requires Runs(Next(w, e), events, v)
    ensures !Validates(v.buffers, h)
  {
    hide Reachable, Runs, Next, Enabled, Inv, ReleasedBy;
    ReachableInv(w);
    ReleaseMakesStale(w, e, h);
    RunKeepsStale(Next(w, e), events, v, h);
  }

  // Order and capacity of the queues

  /** What a step puts into a queue, and what it takes out. */
  function PushedBy(w: World, e: Event, c: Chan): seq<Handle> {
    if e.Push? && e.thread in w.threads && ChanOf(w.threads[e.thread].role) == c && !ChanClosed(w, c)
    then [w.threads[e.thread].packet] else []
  }

  function TakenBy(w: World, e: Event, c: Chan): seq<Handle> {
    if Queue(w, c) == [] then []
    else if e.Receive? && e.thread in w.threads && ChanOf(w.threads[e.thread].role) == c then [Queue(w, c)[0]]
    else if e.CloseStep? && w.closer == Drain(c, None) then [Queue(w, c)[0]]
    else []
  }

  ghost function Pushed(w: World, events: seq<Event>, v: World, c: Chan): seq<Handle>
    requires Runs(w, events, v)
    decreases |events|
  {
    if events == [] then [] else PushedBy(w, events[0], c) + Pushed(Next(w, events[0]), events[1..], v, c)
  }

  ghost function Taken(w: World, events: seq<Event>, v: World, c: Chan): seq<Handle>
    requires Runs(w, events, v)
    decreases |events|
  {
    if events == [] then [] else TakenBy(w, events[0], c) + Taken(Next(w, events[0]), events[1..], v, c)
  }

  /** Only pushing, receiving and draining touch a queue. */
  lemma QueuesKept(w: World, e: Event)
    requires Enabled(w, e) && !e.Push? && !e.Receive? && !e.CloseStep?
    ensures Next(w, e).inbound == w.inbound && Next(w, e).outbound == w.outbound
  {
    hide NotSent, AfterRelease, Without, Queue, ChanClosed, MayCopy, Validates;
  }

  lemma ThreadStepInOrder(w: World, e: Event, c: Chan)
    requires Enabled(w, e) && (e.Push? || e.Receive?)
    ensures Queue(w, c) + PushedBy(w, e, c) == TakenBy(w, e, c) + Queue(Next(w, e), c)
  {
  }

  lemma ReleaseKeepsQueues(w: World, h: Handle)
    ensures Released(w, h).inbound == w.inbound && Released(w, h).outbound == w.outbound
  {
    hide Validates;
  }

  predicate Drains(w: World, c: Chan) {
    w.closer == Drain(c, None) && Queue(w, c) != []
  }

  lemma DrainedQueues(w: World, d: Chan, c: Chan)
    requires Enabled(w, CloseStep) && Drains(w, d)
    ensures Queue(NextClose(w), c) == if c == d then Queue(w, c)[1..] else Queue(w, c)
  {
  }

  lemma UndrainedQueues(w: World, c: Chan)
    requires Enabled(w, CloseStep) && !Drains(w, In) && !Drains(w, Out)
    ensures Queue(NextClose(w), c) == Queue(w, c)
  {
    if w.closer.Drain? && w.closer.holding.Some? {
      ReleaseKeepsQueues(w, w.closer.holding.value);
    }
    hide Released;
  }

  lemma CloseStepInOrder(w: World, c: Chan)
    requires Enabled(w, CloseStep)
    ensures Queue(w, c) + PushedBy(w, CloseStep, c) == TakenBy(w, CloseStep, c) + Queue(Next(w, CloseStep), c)
  {
    assert Next(w, CloseStep) == NextClose(w);
    var d := if Drains(w, In) then In else Out;
    if Drains(w, d) {
      DrainedQueues(w, d, c);
    } else {
      UndrainedQueues(w, c);
    }
    hide Next, NextClose, Enabled, Queue;
  }

  lemma StepInOrder(w: World, e: Event, c: Chan)
    requires Enabled(w, e)
    ensures Queue(w, c) + PushedBy(w, e, c) == TakenBy(w, e, c) + Queue(Next(w, e), c)
  {
    if e.CloseStep? {
      CloseStepInOrder(w, c);
    } else if e.Push? || e.Receive? {
      ThreadStepInOrder(w, e, c);
    } else {
      QueuesKept(w, e);
      hide Enabled, Next;
    }
  }

  /** What is taken out of a queue is what was put in, in that order, with nothing lost and nothing twice. */
  lemma {:induction false} FirstInFirstOut(w: World, events: seq<Event>, v: World, c: Chan)
    requires Runs(w, events, v)
    ensures Queue(w, c) + Pushed(w, events, v, c) == Taken(w, events, v, c) + Queue(v, c)
    decreases |events|
  {
    hide Enabled, Next, PushedBy, TakenBy, Queue;
    if events != [] {
      var e, u := events[0], Next(w, events[0]);
      StepInOrder(w, e, c);
      FirstInFirstOut(u, events[1..], v, c);
      var put, more, out, rest := PushedBy(w, e, c), Pushed(u, events[1..], v, c), TakenBy(w, e, c), Taken(u, events[1..], v, c);
      assert Queue(w, c) + (put + more) == (Queue(w, c) + put) + more == (out + Queue(u, c)) + more;
      assert out + (Queue(u, c) + more) == out + (rest + Queue(v, c)) == (out + rest) + Queue(v, c);
    }
  }

  /** A writer fills the inbound queue, a sender and a receiver use the queue of their channel. */
  lemma RolesUseTheirQueue(w: World, i: nat)
    requires i in w.threads
    ensures Enabled(w, Push(i)) && !ChanClosed(w, ChanOf(w.threads[i].role)) && !w.threads[i].role.Receiver? ==>
      var t, v := w.threads[i], Next(w, Push(i));
      if t.role.Writer? || t.role.chan.In?
      then v.inbound == w.inbound + [t.packet] && v.outbound == w.outbound
      else v.outbound == w.outbound + [t.packet] && v.inbound == w.inbound
    ensures Enabled(w, Receive(i)) ==>
      var t, v := w.threads[i], Next(w, Receive(i));
      if t.role == Receiver(In) then w.inbound == [v.threads[i].batch[|t.batch|]] + v.inbound && v.outbound == w.outbound
      else w.outbound == [v.threads[i].batch[|t.batch|]] + v.outbound && v.inbound == w.inbound
  {
  }

  ghost predicate Bounded(w: World) {
    |w.inbound| <= 1024 && |w.outbound| <= 1024
  }

  lemma StepKeepsBounded(w: World, e: Event)
    requires Bounded(w) && Enabled(w, e)
    ensures Bounded(Next(w, e))
  {
    StepInOrder(w, e, In);
    StepInOrder(w, e, Out);
    if e.Push? {
      assert |Queue(w, In)| < 1024 || PushedBy(w, e, In) == [];
      assert |Queue(w, Out)| < 1024 || PushedBy(w, e, Out) == [];
    }
    hide Next, Enabled;
  }

  lemma {:induction false} RunKeepsBounded(w: World, events: seq<Event>, v: World)
    requires Bounded(w) && Runs(w, events, v)
    ensures Bounded(v)
    decreases |events|
  {
    hide Next, Enabled, Bounded;
    if events != [] {
      StepKeepsBounded(w, events[0]);
      RunKeepsBounded(Next(w, events[0]), events[1..], v);
    }
  }

  /** No queue ever has more than 1024 packets. A registered sender that must not block always has a step;
      it gives its packet up only when the device is closed or the queue has 1024. A blocking sender waits
      only while the device is open and the queue has 1024. */
  lemma SendersWaitOnlyWhenFull(w: World, i: nat)
    requires Reachable(w) && i in w.threads && w.threads[i].pc == Selecting
    ensures |w.inbound| <= 1024 && |w.outbound| <= 1024
    ensures var t, c := w.threads[i], ChanOf(w.threads[i].role);
      && (!(t.role.Sender? && t.role.blocking) ==> Enabled(w, Push(i)) || Enabled(w, SeeClosed(i)) || Enabled(w, Default(i)))
      && (Enabled(w, Default(i)) ==> !w.isClosed && |Queue(w, c)| == 1024 && !(t.role.Sender? && t.role.blocking))
      && (!Enabled(w, Push(i)) && !Enabled(w, SeeClosed(i)) ==> !w.isClosed && |Queue(w, c)| == 1024)
  {
    var start, events :| Initial(start) && Runs(start, events, w);
    assert Bounded(start);
    RunKeepsBounded(start, events, w);
    ReachableInv(w);
  }

  // The pool

  /** The pool has the pooled buffers that are not in use. */
  ghost predicate PoolExact(w: World) {
    forall b :: b in w.free <==> b in w.buffers && w.buffers[b].pooled && !w.buffers[b].inUse
  }

  lemma AcquiredPool(w: World, b: nat, pooled: bool)
    requires PoolExact(w) && (b in w.free || b !in w.buffers)
    ensures PoolExact(Acquired(w, b, pooled))
  {
  }

  lemma ReleasedPool(w: World, h: Handle)
    requires PoolExact(w)
    ensures PoolExact(Released(w, h))
  {
  }

  /** Only copying, releasing and closing touch the buffers. */
  lemma BuffersKept(w: World, e: Event)
    requires Enabled(w, e) && !e.Copy? && !e.Release? && !e.CloseStep?
    ensures Next(w, e).buffers == w.buffers && Next(w, e).free == w.free
  {
    match e
    case Push(_) => PushKeepsBuffers(w, e);
    case Receive(_) => PushKeepsBuffers(w, e);
    case _ => QuietKeepsBuffers(w, e);
  }

  lemma QuietKeepsBuffers(w: World, e: Event)
    requires Enabled(w, e) && !e.Copy? && !e.Release? && !e.CloseStep? && !e.Push? && !e.Receive?
    ensures Next(w, e).buffers == w.buffers && Next(w, e).free == w.free
  {
    hide NotSent, AfterRelease, Without, Queue, ChanClosed, MayCopy, Validates;
  }

  lemma QueueKeepsBuffers(w: World, c: Chan, q: seq<Handle>, i: nat, t: Thread)
    ensures SetThread(SetQueue(w, c, q), i, t).buffers == w.buffers && SetThread(SetQueue(w, c, q), i, t).free == w.free
  {
  }

  lemma PushKeepsBuffers(w: World, e: Event)
    requires Enabled(w, e) && (e.Push? || e.Receive?)
    ensures Next(w, e).buffers == w.buffers && Next(w, e).free == w.free
  {
    forall c, q, i, t
      ensures SetThread(SetQueue(w, c, q), i, t).buffers == w.buffers && SetThread(SetQueue(w, c, q), i, t).free == w.free
    {
      QueueKeepsBuffers(w, c, q, i, t);
    }
    hide SetQueue, SetThread, Queue, ChanClosed, ChanOf, MayCopy;
  }

  lemma CopyKeepsPool(w: World, e: Event)
    requires PoolExact(w) && Enabled(w, e) && e.Copy?
    ensures PoolExact(Next(w, e))
  {
    AcquiredPool(w, e.buffer, e.pooled);
    hide Acquired, Queue, ChanClosed;
  }

  lemma ReleaseKeepsPool(w: World, e: Event)
    requires PoolExact(w) && Enabled(w, e) && e.Release?
    ensures PoolExact(Next(w, e))
  {
    var t := w.threads[e.thread];
    ReleasedPool(w, t.packet);
    if e.index < |t.batch| {
      ReleasedPool(w, t.batch[e.index]);
    }
    hide Released, Queue, ChanClosed, AfterRelease, Without;
  }

  lemma CloseKeepsPool(w: World)
    requires PoolExact(w) && Enabled(w, CloseStep)
    ensures PoolExact(NextClose(w))
  {
    if w.closer.Drain? && w.closer.holding.Some? {
      ReleasedPool(w, w.closer.holding.value);
    }
    hide Released;
  }

  lemma StepKeepsPool(w: World, e: Event)
    requires PoolExact(w) && Enabled(w, e)
    ensures PoolExact(Next(w, e))
  {
    if e.CloseStep? {
      CloseKeepsPool(w);
      assert Next(w, e) == NextClose(w);
    } else if e.Copy? {
      CopyKeepsPool(w, e);
    } else if e.Release? {
      ReleaseKeepsPool(w, e);
    } else {
      BuffersKept(w, e);
      hide Next, Enabled;
    }
  }

  lemma {:induction false} RunKeepsPool(w: World, events: seq<Event>, v: World)
    requires PoolExact(w) && Runs(w, events, v)
    ensures PoolExact(v)
    decreases |events|
  {
    hide Next, Enabled, PoolExact;
    if events != [] {
      StepKeepsPool(w, events[0]);
      RunKeepsPool(Next(w, events[0]), events[1..], v);
    }
  }

  /** A pooled buffer can be taken again exactly when it is not in use; a buffer made for one packet never. */
  lemma PoolIsExact(w: World)
    requires Reachable(w)
    ensures forall b :: b in w.free <==> b in w.buffers && w.buffers[b].pooled && !w.buffers[b].inUse
  {
    var start, events :| Initial(start) && Runs(start, events, w);
    assert PoolExact(start);
    RunKeepsPool(start, events, w);
  }

  // What becomes of a packet that is not sent

  lemma ReleaseEnds(w: World, e: Event, h: Handle)
    requires Inv(w) && Enabled(w, e) && ReleasedBy(w, e) == Some(h)
    ensures Inv(Next(w, e)) && !Validates(Next(w, e).buffers, h)
  {
    StepKeeps(w, e);
    ReleaseMakesStale(w, e, h);
    hide Inv, Next, Enabled, ReleasedBy;
  }

  /** A failed send on a sender that releases while it is registered, or on a writer: the packet is released
      and the thread leaves, except that a writer whose packet met a full queue goes on with the next. */
  lemma InnerFailure(w: World, i: nat, e: Event)
    requires Inv(w) && Enabled(w, e) && (e == SeeClosed(i) || e == Default(i))
    requires w.threads[i].role.Writer? || (w.threads[i].role.Sender? && w.threads[i].role.releaseInside)
    ensures var u, t := Next(w, e), w.threads[i];
      && Enabled(u, Release(i, 0))
      && var v := Next(u, Release(i, 0));
         && !Validates(v.buffers, t.packet) && !v.panicked
         && v.threads[i].pc == if t.role.Writer? && e.Default? then Writing else Leaving(false)
  {
    StepKeeps(w, e);
    var u := Next(w, e);
    assert u.threads[i].pc == Failed(e.SeeClosed?) && u.threads[i].packet == w.threads[i].packet;
    assert u.threads[i].role == w.threads[i].role;
    ReleaseEnds(u, Release(i, 0), w.threads[i].packet);
    InvQuiet(Next(u, Release(i, 0)));
    hide Inv, Released, Validates, Queue, ChanClosed;
  }

  /** On any other sender the thread leaves first and releases the packet then. */
  lemma OuterFailure(w: World, i: nat, e: Event)
    requires Inv(w) && Enabled(w, e) && (e == SeeClosed(i) || e == Default(i))
    requires w.threads[i].role.Sender? && !w.threads[i].role.releaseInside
    ensures var u, t := Next(w, e), w.threads[i];
      && u.threads[i].pc == Leaving(true) && Enabled(u, Done(i))
      && var v := Next(u, Done(i));
         && v.senders == w.senders - 1 && Enabled(v, Release(i, 0))
         && var x := Next(v, Release(i, 0)); x.threads[i].pc == Start && !Validates(x.buffers, t.packet) && !x.panicked
  {
    StepKeeps(w, e);
    var u := Next(w, e);
    assert u.threads[i] == w.threads[i].(pc := Leaving(true)) && u.senders == w.senders;
    StepKeeps(u, Done(i));
    var v := Next(u, Done(i));
    assert v.threads[i] == w.threads[i].(pc := Releasing) && v.senders == w.senders - 1;
    ReleaseEnds(v, Release(i, 0), w.threads[i].packet);
    InvQuiet(Next(v, Release(i, 0)));
    hide Inv, Released, Validates, Queue, ChanClosed;
  }

  lemma InvQuiet(w: World)
    requires Inv(w)
    ensures !w.panicked
  {
  }
}
