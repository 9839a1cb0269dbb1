/**
 The gateway wire contract: manifests, their digests, deliveries and
 acknowledgements. The hash is the parameter `sha`, which takes a canonical text
 to the hexadecimal form of its SHA-256 digest; nothing is assumed about it.
*/
module Contract {
  import opened Wrappers
  import opened Ordering
  import opened Numerals
  import opened VpnPeers
  import opened CanonicalJson
  import Timestamp

  const SCHEMA_VERSION: nat := 1
  const WG_USERS := "wg-users"
  const WG_NODES := "wg-nodes"

  predicate ValidDigest(value: string) {
    |value| == 64 && forall i | 0 <= i < 64 :: IsDigit(value[i]) || 'a' <= value[i] <= 'f'
  }

  type ManifestDigest = value: string | ValidDigest(value) witness seq(64, _ => '0')

  type Hash = string -> ManifestDigest

  // ---------- Manifests ----------

  datatype GatewayPeer = GatewayPeer(
    peerId: PeerId,
    publicKey: PublicKey,
    host: Host,
    health: HealthPolicy,
    permissions: seq<Permission>)

  function FromPeer(peer: VpnPeer): GatewayPeer {
    GatewayPeer(peer.peerId, peer.publicKey, peer.host, peer.health, peer.Permissions())
  }

  function Entries(peers: seq<VpnPeer>): (entries: seq<GatewayPeer>)
    ensures |entries| == |peers| && forall i | 0 <= i < |peers| :: entries[i] == FromPeer(peers[i])
  {
    seq(|peers|, i requires 0 <= i < |peers| => FromPeer(peers[i]))
  }

  datatype PeerManifest = PeerManifest(
    schemaVersion: nat,
    interface: string,
    generation: nat,
    generatedAt: string,
    peers: seq<GatewayPeer>)

  const IdOf: GatewayPeer -> string := (peer: GatewayPeer) => peer.peerId
  const KeyOf: GatewayPeer -> PublicKey := (peer: GatewayPeer) => peer.publicKey
  const HostOf: GatewayPeer -> int := (peer: GatewayPeer) => peer.host

  /** Ids, keys and addresses are each used by one peer only. */
  ghost predicate UniqueIdentities(entries: seq<GatewayPeer>) {
    DistinctBy(entries, IdOf)
    && DistinctBy(entries, KeyOf)
    && DistinctBy(entries, HostOf)
  }

  /** What manifest construction returns, errors in the order they are checked. */
  ghost function Built(generation: nat, generatedAt: string, peers: seq<VpnPeer>): Result<PeerManifest, PolicyError> {
    if !Timestamp.ValidUtcTimestamp(generatedAt) then Failure(InvalidGeneratedAt)
    else if |peers| > POOL_SIZE then Failure(TooManyPeers)
    else if !UniqueIdentities(Entries(peers)) then Failure(DuplicatePeerIdentity)
    else Success(PeerManifest(SCHEMA_VERSION, WG_USERS, generation, generatedAt, SortBy(Entries(peers), IdOf)))
  }

  /** Sorts the peers by id, then refuses the first repeated id, key or address. */
  method NewManifest(generation: nat, generatedAt: string, peers: seq<VpnPeer>)
    returns (r: Result<PeerManifest, PolicyError>)
    ensures r == Built(generation, generatedAt, peers)
  {
    if !Timestamp.ValidUtcTimestamp(generatedAt) {
      return Failure(InvalidGeneratedAt);
    }
    if |peers| > POOL_SIZE {
      return Failure(TooManyPeers);
    }
    var sorted := SortBy(Entries(peers), IdOf);
    UniquenessIsOrderFree(Entries(peers), sorted);
    var repeated := FindRepeated(sorted);
    if repeated {
      return Failure(DuplicatePeerIdentity);
    }
    r := Success(PeerManifest(SCHEMA_VERSION, WG_USERS, generation, generatedAt, sorted));
  }

  method FindRepeated(entries: seq<GatewayPeer>) returns (repeated: bool)
    ensures repeated <==> !UniqueIdentities(entries)
  {
    var peerIds: set<string>, publicKeys: set<string>, hosts: set<int> := {}, {}, {};
    for i := 0 to |entries|
      invariant forall id :: id in peerIds <==> exists j :: 0 <= j < i && entries[j].peerId == id
      invariant forall key :: key in publicKeys <==> exists j :: 0 <= j < i && entries[j].publicKey == key
      invariant forall host :: host in hosts <==> exists j :: 0 <= j < i && entries[j].host == host
      invariant UniqueIdentities(entries[..i])
    {
      var peer := entries[i];
      NextIsUnique(entries, i);
      if peer.peerId in peerIds || peer.publicKey in publicKeys || peer.host in hosts {
        return true;
      }
      peerIds, publicKeys, hosts := peerIds + {peer.peerId}, publicKeys + {peer.publicKey}, hosts + {peer.host};
    }
    assert entries[..|entries|] == entries;
    repeated := false;
  }

  /** One more entry keeps identities unique exactly when nothing before it shares one. */
  lemma NextIsUnique(entries: seq<GatewayPeer>, i: nat)
    requires i < |entries| && UniqueIdentities(entries[..i])
    ensures UniqueIdentities(entries[..i + 1])
       <==> forall j | 0 <= j < i :: entries[j].peerId != entries[i].peerId
                                  && entries[j].publicKey != entries[i].publicKey
                                  && entries[j].host != entries[i].host
    ensures UniqueIdentities(entries) ==> UniqueIdentities(entries[..i + 1])
  {
    var shorter, longer := entries[..i], entries[..i + 1];
    assert forall j | 0 <= j < i :: shorter[j] == entries[j] == longer[j];
    assert longer[i] == entries[i];
    if UniqueIdentities(longer) {
      forall j | 0 <= j < i
        ensures entries[j].peerId != entries[i].peerId && entries[j].publicKey != entries[i].publicKey
             && entries[j].host != entries[i].host
      {
        assert IdOf(longer[j]) != IdOf(longer[i]) && KeyOf(longer[j]) != KeyOf(longer[i]) && HostOf(longer[j]) != HostOf(longer[i]);
      }
    }
  }

  lemma UniquenessIsOrderFree(a: seq<GatewayPeer>, b: seq<GatewayPeer>)
    requires multiset(a) == multiset(b)
    ensures UniqueIdentities(a) <==> UniqueIdentities(b)
  {
    if UniqueIdentities(a) {
      DistinctIsOrderFree(a, b, IdOf);
      DistinctIsOrderFree(a, b, KeyOf);
      DistinctIsOrderFree(a, b, HostOf);
    }
    if UniqueIdentities(b) {
      DistinctIsOrderFree(b, a, IdOf);
      DistinctIsOrderFree(b, a, KeyOf);
      DistinctIsOrderFree(b, a, HostOf);
    }
  }

  lemma {:induction false} EntriesOfPermutation(a: seq<VpnPeer>, b: seq<VpnPeer>)
    requires multiset(a) == multiset(b)
    ensures multiset(Entries(a)) == multiset(Entries(b))
    decreases |a|
  {
    assert |multiset(a)| == |multiset(b)|;
    if a != [] {
      assert a[0] in multiset(b);
      var k :| 0 <= k < |b| && b[k] == a[0];
      PermutationsShrink(a, b, k);
      EntriesOfPermutation(a[1..], b[..k] + b[k + 1..]);
      SplitEntries(a, 0);
      SplitEntries(b, k);
    }
  }

  lemma SplitEntries(peers: seq<VpnPeer>, k: nat)
    requires k < |peers|
    ensures multiset(Entries(peers))
         == multiset{FromPeer(peers[k])} + multiset(Entries(peers[..k] + peers[k + 1..]))
    ensures k == 0 ==> peers[..k] + peers[k + 1..] == peers[1..]
  {
    EntriesConcatenate(peers[..k], peers[k + 1..]);
    assert Entries(peers) == Entries(peers[..k]) + [FromPeer(peers[k])] + Entries(peers[k + 1..]);
  }

  lemma EntriesConcatenate(a: seq<VpnPeer>, b: seq<VpnPeer>)
    ensures Entries(a + b) == Entries(a) + Entries(b)
  {}

  /** Construction gives the same manifest, or the same error, for every order of its peers. */
  lemma BuiltIsOrderFree(generation: nat, generatedAt: string, a: seq<VpnPeer>, b: seq<VpnPeer>)
    requires multiset(a) == multiset(b)
    ensures Built(generation, generatedAt, a) == Built(generation, generatedAt, b)
  {
    assert |multiset(a)| == |multiset(b)|;
    EntriesOfPermutation(a, b);
    UniquenessIsOrderFree(Entries(a), Entries(b));
    if UniqueIdentities(Entries(a)) {
      SortIsOrderFree(Entries(a), Entries(b), IdOf);
    }
  }

  // ---------- Canonical text and digest ----------

  function HealthText(health: HealthPolicy): string {
    match health
    case Required => "required"
    case OnDemand => "on_demand"
  }

  function PermissionJson(permission: Permission): Json {
    match permission
    case Egress => Text("egress")
    case Games => Text("games")
  }

  function HostText(host: Host): string {
    "10.100.0." + ToDecimal(host) + "/32"
  }

  function PeerJson(peer: GatewayPeer): Json {
    Object(map[
      "peer_id" := Text(peer.peerId),
      "public_key" := Text(peer.publicKey),
      "address" := Text(HostText(peer.host)),
      "health_policy" := Text(HealthText(peer.health)),
      "permissions" := Array(seq(|peer.permissions|, i requires 0 <= i < |peer.permissions| => PermissionJson(peer.permissions[i])))])
  }

  function ManifestJson(manifest: PeerManifest): Json {
    Object(map[
      "schema_version" := Number(manifest.schemaVersion),
      "interface" := Text(manifest.interface),
      "generation" := Number(manifest.generation),
      "generated_at" := Text(manifest.generatedAt),
      "peers" := Array(seq(|manifest.peers|, i requires 0 <= i < |manifest.peers| => PeerJson(manifest.peers[i])))])
  }

  function CanonicalText(manifest: PeerManifest): string {
    Encode(ManifestJson(manifest))
  }

  function DigestOf(sha: Hash, manifest: PeerManifest): ManifestDigest {
    sha(CanonicalText(manifest))
  }

  /** How a manifest is digested; the protocol needs nothing else about hashing. */
  type Digester = PeerManifest -> ManifestDigest

  function HashDigester(sha: Hash): Digester {
    (manifest: PeerManifest) => DigestOf(sha, manifest)
  }

  method Digest(sha: Hash, manifest: PeerManifest) returns (digest: ManifestDigest)
    ensures digest == DigestOf(sha, manifest)
  {
    var canonical := new TextBuffer();
    WriteCanonicalJson(ManifestJson(manifest), canonical);
    assert canonical.text == CanonicalText(manifest);
    digest := sha(canonical.text);
  }

  lemma HostTextIsInjective(a: Host, b: Host)
    requires HostText(a) == HostText(b)
    ensures a == b
  {
    var text := HostText(a);
    assert text[9..|text| - 3] == ToDecimal(a);
    assert HostText(b)[9..|text| - 3] == ToDecimal(b);
    ValueOfDecimal(a);
    ValueOfDecimal(b);
  }

  lemma PeerJsonIsInjective(a: GatewayPeer, b: GatewayPeer)
    requires PeerJson(a) == PeerJson(b)
    ensures a == b
  {
    var ja, jb := PeerJson(a).members, PeerJson(b).members;
    assert ja["peer_id"] == jb["peer_id"] && ja["public_key"] == jb["public_key"];
    assert ja["address"] == jb["address"] && ja["health_policy"] == jb["health_policy"];
    HostTextIsInjective(a.host, b.host);
    var pa, pb := ja["permissions"].elements, jb["permissions"].elements;
    assert pa == pb;
    forall i | 0 <= i < |a.permissions|
      ensures a.permissions[i] == b.permissions[i]
    {
      assert PermissionJson(a.permissions[i]) == pa[i] == pb[i] == PermissionJson(b.permissions[i]);
    }
    assert HealthText(a.health)[0] == HealthText(b.health)[0];
  }

  lemma ManifestJsonIsInjective(a: PeerManifest, b: PeerManifest)
    requires ManifestJson(a) == ManifestJson(b)
    ensures a == b
  {
    var ja, jb := ManifestJson(a).members, ManifestJson(b).members;
    assert ja["schema_version"] == jb["schema_version"] && ja["interface"] == jb["interface"];
    assert ja["generation"] == jb["generation"] && ja["generated_at"] == jb["generated_at"];
    var pa, pb := ja["peers"].elements, jb["peers"].elements;
    assert pa == pb;
    forall i | 0 <= i < |a.peers|
      ensures a.peers[i] == b.peers[i]
    {
      assert PeerJson(a.peers[i]) == pa[i] == pb[i] == PeerJson(b.peers[i]);
      PeerJsonIsInjective(a.peers[i], b.peers[i]);
    }
  }

  /** The hashed text determines the whole manifest. */
  lemma CanonicalTextIsInjective(a: PeerManifest, b: PeerManifest)
    ensures CanonicalText(a) == CanonicalText(b) <==> a == b
  {
    EncodingIsInjective(ManifestJson(a), ManifestJson(b));
    if ManifestJson(a) == ManifestJson(b) {
      ManifestJsonIsInjective(a, b);
    }
  }

  ghost predicate NoCollision(sha: Hash, a: PeerManifest, b: PeerManifest) {
    CanonicalText(a) != CanonicalText(b) ==> sha(CanonicalText(a)) != sha(CanonicalText(b))
  }

  lemma DigestIdentifiesManifest(sha: Hash, a: PeerManifest, b: PeerManifest)
    ensures NoCollision(sha, a, b) ==> (DigestOf(sha, a) == DigestOf(sha, b) <==> a == b)
  {
    CanonicalTextIsInjective(a, b);
  }

  // ---------- Reports, deliveries and acknowledgements ----------

  datatype AppliedInterface = AppliedInterface(interface: string, generation: nat, manifestDigest: ManifestDigest)

  datatype GatewayStateReport = GatewayStateReport(
    schemaVersion: nat,
    gatewayId: GatewayId,
    applied: seq<AppliedInterface>)
  {
    predicate IsSupported() {
      var interfaces := set i | 0 <= i < |applied| :: applied[i].interface;
      schemaVersion == SCHEMA_VERSION
      && |applied| <= 2
      && |interfaces| == |applied|
      && forall interface | interface in interfaces :: interface == WG_USERS || interface == WG_NODES
    }

    function WgUsers(): Option<AppliedInterface> {
      FirstWgUsers(applied)
    }
  }

  function FirstWgUsers(applied: seq<AppliedInterface>): (r: Option<AppliedInterface>)
    ensures r.Some? ==> r.value in applied && r.value.interface == WG_USERS
    ensures r.None? ==> forall state | state in applied :: state.interface != WG_USERS
  {
    if applied == [] then None
    else if applied[0].interface == WG_USERS then Some(applied[0])
    else FirstWgUsers(applied[1..])
  }

  /** Few enough distinct interfaces: at most one entry per interface. */
  lemma SupportedIsDistinct(report: GatewayStateReport, i: nat, j: nat)
    requires report.IsSupported() && i < j < |report.applied|
    ensures report.applied[i].interface != report.applied[j].interface
  {
    var interfaces := set k | 0 <= k < |report.applied| :: report.applied[k].interface;
    var first, second := report.applied[0].interface, report.applied[1].interface;
    assert interfaces == {first, second};
    assert |{first, second}| == if first == second then |{first}| else 2;
  }

  /** Any wg-users entry of a supported report is the one that is found, wherever it stands. */
  lemma WgUsersIsOrderFree(report: GatewayStateReport, state: AppliedInterface)
    requires report.IsSupported()
    ensures report.WgUsers() == Some(state) <==> state in report.applied && state.interface == WG_USERS
  {
    if state in report.applied && state.interface == WG_USERS {
      var found := report.WgUsers().value;
      var i :| 0 <= i < |report.applied| && report.applied[i] == state;
      var j :| 0 <= j < |report.applied| && report.applied[j] == found;
      if i < j {
        SupportedIsDistinct(report, i, j);
      } else if j < i {
        SupportedIsDistinct(report, j, i);
      }
    }
  }

  datatype PeerDelivery = PeerDelivery(
    schemaVersion: nat,
    gatewayId: GatewayId,
    deliveryId: string,
    manifestDigest: ManifestDigest,
    manifest: PeerManifest)

  function DeliveryId(generation: nat, digest: ManifestDigest): string {
    "wg-users-" + ToDecimal(generation) + "-" + digest[..12]
  }

  function NewDelivery(digest: Digester, gatewayId: GatewayId, manifest: PeerManifest): PeerDelivery {
    var manifestDigest := digest(manifest);
    PeerDelivery(SCHEMA_VERSION, gatewayId, DeliveryId(manifest.generation, manifestDigest), manifestDigest, manifest)
  }

  datatype GatewayAcknowledgement = GatewayAcknowledgement(
    schemaVersion: nat,
    gatewayId: GatewayId,
    deliveryId: string,
    interface: string,
    generation: nat,
    manifestDigest: ManifestDigest,
    outcome: string)
  {
    predicate Matches(delivery: PeerDelivery) {
      schemaVersion == SCHEMA_VERSION
      && gatewayId == delivery.gatewayId
      && deliveryId == delivery.deliveryId
      && interface == WG_USERS
      && generation == delivery.manifest.generation
      && manifestDigest == delivery.manifestDigest
      && outcome == "applied"
    }
  }

  function Applied(delivery: PeerDelivery): GatewayAcknowledgement {
    GatewayAcknowledgement(SCHEMA_VERSION, delivery.gatewayId, delivery.deliveryId, WG_USERS,
                           delivery.manifest.generation, delivery.manifestDigest, "applied")
  }

  /** An acknowledgement of one delivery matches another exactly when gateway and digested content agree. */
  lemma AcknowledgementBindsDigest(digest: Digester, g: GatewayId, m: PeerManifest, h: GatewayId, n: PeerManifest)
    requires digest(m) == digest(n) ==> m == n
    ensures Applied(NewDelivery(digest, g, m)).Matches(NewDelivery(digest, h, n)) <==> g == h && m == n
  {}

  /** With no collision between two manifests' texts, acknowledgements tell them apart. */
  lemma AcknowledgementBindsManifest(sha: Hash, g: GatewayId, m: PeerManifest, h: GatewayId, n: PeerManifest)
    ensures NoCollision(sha, m, n) ==>
              var digest := HashDigester(sha);
              (Applied(NewDelivery(digest, g, m)).Matches(NewDelivery(digest, h, n)) <==> g == h && m == n)
  {
    if NoCollision(sha, m, n) {
      DigestIdentifiesManifest(sha, m, n);
      AcknowledgementBindsDigest(HashDigester(sha), g, m, h, n);
    }
  }

  /** The interface state a gateway reports after installing a delivery. */
  function InstalledState(delivery: PeerDelivery): AppliedInterface {
    AppliedInterface(WG_USERS, delivery.manifest.generation, delivery.manifestDigest)
  }
}
