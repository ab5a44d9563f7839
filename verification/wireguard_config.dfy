/** The normalized WireGuard profile configuration and the selections made over it. */
module WireGuardConfig {
  import opened Net

  datatype Key = Key(id: nat)

  const ZERO_KEY := Key(0)

  const SECOND: nat := 1_000_000_000

  /** A selector as written. Address and prefix texts are kept as what they parse to and the
      number of their spelling, 0 being the one that printing gives. */
  datatype SelectorText =
    | Word(text: string)
    | AddrText(addr: Addr, spelling: nat)
    | PrefixText(addr: Addr, bits: nat, spelling: nat)

  datatype Grant = Grant(src: seq<SelectorText>, dst: seq<SelectorText>, ip: seq<string>)

  datatype Peer = Peer(
    name: string,
    publicKey: Key,
    hasPresharedKey: bool,
    endpoint: string,
    keepalive: nat,
    addresses: seq<Addr>,
    routes: seq<Prefix>,
    exitNode: bool)

  datatype Config = Config(
    version: int,
    name: string,
    dnsSuffix: string,
    addresses: seq<Addr>,
    listenPort: nat,
    grants: seq<Grant>,
    peers: seq<Peer>)

  datatype Secrets = Secrets(privateKey: Option<Key>, preshared: map<string, Key>)

  datatype Families = Families(v4: bool, v6: bool) {
    predicate Has(v6Family: bool) {
      if v6Family then v6 else v4
    }
  }

  function AddressFamilies(cfg: Config): Families {
    Families(exists a :: a in cfg.addresses && !a.v6, exists a :: a in cfg.addresses && a.v6)
  }

  predicate PeerHasAddress(peer: Peer, ip: Option<Addr>) {
    ip.Some? && ip.value in peer.addresses
  }

  function ValidExitSelection(cfg: Config, ip: Option<Addr>): Option<Addr> {
    if ip.Some? && exists p :: p in cfg.peers && p.exitNode && PeerHasAddress(p, ip) then ip else None
  }

  /** The prefixes a peer declares for itself. */
  function DeclaredPrefixes(peer: Peer): set<Prefix> {
    (set p | p in peer.routes) + (set a | a in peer.addresses :: HostPrefix(a))
  }

  // What validation establishes about the peers of a configuration

  ghost predicate DistinctNames(peers: seq<Peer>) {
    forall i, j :: 0 <= i < j < |peers| ==> peers[i].name != peers[j].name
  }

  ghost predicate DistinctKeys(peers: seq<Peer>) {
    forall i, j :: 0 <= i < j < |peers| ==> peers[i].publicKey != peers[j].publicKey
  }

  /** No prefix is declared by two peers. */
  ghost predicate ExclusivePrefixes(peers: seq<Peer>) {
    forall i, j :: 0 <= i < j < |peers| ==> DeclaredPrefixes(peers[i]) !! DeclaredPrefixes(peers[j])
  }

  ghost predicate ProperRoutes(peer: Peer) {
    forall r :: r in peer.routes ==> ValidPrefix(r) && r.bits != 0
  }

  ghost predicate WellFormedPeers(peers: seq<Peer>) {
    && DistinctNames(peers)
    && DistinctKeys(peers)
    && ExclusivePrefixes(peers)
    && forall p :: p in peers ==> p.name != "" && ProperRoutes(p)
  }
}
