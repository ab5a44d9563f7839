/** The WireGuard device as its configuration protocol changes it: a script is a sequence of
    assignments, and those about a peer apply to the peer named last. Allowed IPs form one
    exclusive table, so giving a prefix to a peer takes it from any other. */
module WireGuardDevice {
  import opened Net
  import opened WireGuardConfig

  datatype PeerState = PeerState(psk: Key, endpoint: string, keepalive: nat)

  datatype Device = Device(
    privateKey: Option<Key>,
    fwmark: nat,
    listenPort: nat,
    peers: map<Key, PeerState>,
    allowed: map<Prefix, Key>)

  datatype Op =
    | PrivateKey(key: Key)
    | Fwmark(mark: nat)
    | ListenPort(port: nat)
    | ReplacePeers
    | PublicKey(key: Key)
    | Remove
    | PresharedKey(key: Key)
    | Endpoint(endpoint: string)
    | Keepalive(seconds: nat)
    | ReplaceAllowedIPs
    | AllowedIP(prefix: Prefix)

  /** A device while a script runs on it, with the peer named last. */
  datatype Session = Session(dev: Device, cur: Option<Key>)

  function WithoutPeer(allowed: map<Prefix, Key>, k: Key): map<Prefix, Key> {
    map p | p in allowed && allowed[p] != k :: allowed[p]
  }

  function Exec(op: Op, s: Session): Session {
    var d := s.dev;
    match op
    case PrivateKey(k) => s.(dev := d.(privateKey := Some(k)))
    case Fwmark(m) => s.(dev := d.(fwmark := m))
    case ListenPort(p) => s.(dev := d.(listenPort := p))
    case ReplacePeers => s.(dev := d.(peers := map[], allowed := map[]))
    case PublicKey(k) =>
      var peers := if k in d.peers then d.peers else d.peers[k := PeerState(ZERO_KEY, "", 0)];
      Session(d.(peers := peers), Some(k))
    case _ =>
      if s.cur.None? || s.cur.value !in d.peers then s else ExecPeer(op, d, s.cur.value)
  }

  /** An assignment to the peer `k` of the device. */
  function ExecPeer(op: Op, d: Device, k: Key): Session
    requires k in d.peers
  {
    var p := d.peers[k];
    match op
    case Remove => Session(d.(peers := d.peers - {k}, allowed := WithoutPeer(d.allowed, k)), None)
    case PresharedKey(psk) => Session(d.(peers := d.peers[k := p.(psk := psk)]), Some(k))
    case Endpoint(e) => Session(d.(peers := d.peers[k := p.(endpoint := e)]), Some(k))
    case Keepalive(n) => Session(d.(peers := d.peers[k := p.(keepalive := n)]), Some(k))
    case ReplaceAllowedIPs => Session(d.(allowed := WithoutPeer(d.allowed, k)), Some(k))
    case AllowedIP(x) => Session(d.(allowed := d.allowed[x := k]), Some(k))
    case _ => Session(d, Some(k))
  }

  function Run(script: seq<Op>, s: Session): Session {
    if script == [] then s else Run(script[1..], Exec(script[0], s))
  }

  /** One configuration request. */
  function IpcSet(script: seq<Op>, d: Device): Device {
    Run(script, Session(d, None)).dev
  }

  lemma {:induction false} RunAppend(a: seq<Op>, b: seq<Op>, s: Session)
    ensures Run(a + b, s) == Run(b, Run(a, s))
  {
    if a == [] {
      assert a + b == b;
    } else {
      assert (a + b)[1..] == a[1..] + b;
      RunAppend(a[1..], b, Exec(a[0], s));
    }
  }

  /** The peer a packet to `a` is sent to, and the only peer it is accepted from. */
  function CryptokeyRoute(d: Device, a: Addr): Option<Key> {
    Lookup(d.allowed, a)
  }
}
