/** Identities, addresses and permissions of human VPN peers. */
module VpnPeers {

  datatype PolicyError =
    | InvalidGeneratedAt
    | TooManyPeers
    | DuplicatePeerIdentity
    | PeerAlreadyExists
    | PeerNotFound
    | AddressPoolExhausted

  /** Opaque identifiers; only their equality and order matter here. */
  type UserId = string
  type PeerId = string
  type GatewayId = string

  /** The base64 text of a WireGuard key; only its equality matters here. */
  type PublicKey = string

  /** Last octet of a usable overlay address 10.100.0.host/32. */
  type Host = host: int | 2 <= host <= 254 witness 2

  const POOL_SIZE := 253
  const MAX_GENERATION := 0xFFFF_FFFF_FFFF_FFFF

  datatype HealthPolicy = Required | OnDemand

  datatype Permission = Egress | Games

  datatype VpnPeer = VpnPeer(
    userId: UserId,
    peerId: PeerId,
    publicKey: PublicKey,
    host: Host,
    health: HealthPolicy,
    games: bool)
  {
    function Permissions(): (permissions: seq<Permission>) {
      [Egress] + if games then [Games] else []
    }
  }
}
