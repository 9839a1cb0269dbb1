/**
 The VPN policy: enrollment with address allocation, game access, key rotation and
 revocation, versioned by a generation. The functions on policy values specify the
 methods of `VpnRegistry.Registry`; the lemmas are about every run of operations
 from the empty policy.
*/
module VpnPolicy {
  import opened Wrappers
  import opened Ordering
  import opened VpnPeers
  import opened Contract
  import Timestamp

  datatype Policy = Policy(generation: nat, peers: map<PeerId, VpnPeer>)

  const EMPTY_POLICY := Policy(1, map[])

  // ---------- The operations on a policy value ----------

  predicate KeyInUse(p: Policy, key: PublicKey) {
    exists id | id in p.peers :: p.peers[id].publicKey == key
  }

  predicate KeyInUseElsewhere(p: Policy, peerId: PeerId, key: PublicKey) {
    exists id | id in p.peers :: id != peerId && p.peers[id].publicKey == key
  }

  function UsedHosts(p: Policy): set<int> {
    set id | id in p.peers :: p.peers[id].host
  }

  /** The first host from `from` up to the end of the pool that is not used. */
  function FirstFree(used: set<int>, from: int): (r: Option<Host>)
    requires 2 <= from <= 255
    ensures r.Some? ==> r.value >= from && r.value !in used
    ensures r.Some? ==> forall h | from <= h < r.value :: h in used
    ensures r.None? ==> forall h | from <= h <= 254 :: h in used
    decreases 255 - from
  {
    if from > 254 then None
    else if from !in used then Some(from)
    else FirstFree(used, from + 1)
  }

  function Enroll(p: Policy, userId: UserId, peerId: PeerId, key: PublicKey, games: bool): (Policy, Result<VpnPeer, PolicyError>) {
    if peerId in p.peers || KeyInUse(p, key) then (p, Failure(PeerAlreadyExists))
    else
      match FirstFree(UsedHosts(p), 2)
      case None => (p, Failure(AddressPoolExhausted))
      case Some(host) =>
        var peer := VpnPeer(userId, peerId, key, host, OnDemand, games);
        (Policy(p.generation + 1, p.peers[peerId := peer]), Success(peer))
  }

  function SetGames(p: Policy, peerId: PeerId, enabled: bool): (Policy, Result<bool, PolicyError>) {
    if peerId !in p.peers then (p, Failure(PeerNotFound))
    else if p.peers[peerId].games == enabled then (p, Success(false))
    else (Policy(p.generation + 1, p.peers[peerId := p.peers[peerId].(games := enabled)]), Success(true))
  }

  function RotateKey(p: Policy, peerId: PeerId, key: PublicKey): (Policy, Result<bool, PolicyError>) {
    if KeyInUseElsewhere(p, peerId, key) then (p, Failure(DuplicatePeerIdentity))
    else if peerId !in p.peers then (p, Failure(PeerNotFound))
    else if p.peers[peerId].publicKey == key then (p, Success(false))
    else (Policy(p.generation + 1, p.peers[peerId := p.peers[peerId].(publicKey := key)]), Success(true))
  }

  function Revoke(p: Policy, peerId: PeerId): (Policy, Result<VpnPeer, PolicyError>) {
    if peerId !in p.peers then (p, Failure(PeerNotFound))
    else (Policy(p.generation + 1, p.peers - {peerId}), Success(p.peers[peerId]))
  }

  /** The peers in the iteration order of the registry. */
  function OrderedPeers(p: Policy): (peers: seq<VpnPeer>)
    ensures |peers| == |p.peers|
  {
    PeersOf(p, SortedKeys(p.peers.Keys))
  }

  function PeersOf(p: Policy, ids: seq<PeerId>): (peers: seq<VpnPeer>)
    requires forall id | id in ids :: id in p.peers
    ensures |peers| == |ids| && forall i | 0 <= i < |ids| :: peers[i] == p.peers[ids[i]]
  {
    seq(|ids|, i requires 0 <= i < |ids| => assert ids[i] in ids; p.peers[ids[i]])
  }

  ghost function Manifest(p: Policy, generatedAt: string): Result<PeerManifest, PolicyError> {
    Built(p.generation, generatedAt, OrderedPeers(p))
  }

  // ---------- The representation invariant ----------

  ghost predicate WellFormed(p: Policy) {
    p.generation >= 1
    && (forall id | id in p.peers :: p.peers[id].peerId == id)
    && forall i, j | i in p.peers && j in p.peers && i != j ::
         p.peers[i].publicKey != p.peers[j].publicKey && p.peers[i].host != p.peers[j].host
  }

  lemma EnrollKeepsWellFormed(p: Policy, userId: UserId, peerId: PeerId, key: PublicKey, games: bool)
    requires WellFormed(p)
    ensures WellFormed(Enroll(p, userId, peerId, key, games).0)
  {
    var (q, r) := Enroll(p, userId, peerId, key, games);
    if r.Success? {
      assert forall id | id in p.peers :: p.peers[id].host in UsedHosts(p);
    }
  }

  // ---------- Allocation is exact ----------

  lemma {:induction false} Interval(lo: int, hi: int) returns (s: set<int>)
    requires lo <= hi
    ensures |s| == hi - lo && forall h :: h in s <==> lo <= h < hi
    decreases hi - lo
  {
    s := {};
    if lo < hi {
      var shorter := Interval(lo, hi - 1);
      s := shorter + {hi - 1};
    }
  }

  lemma {:induction false} HostsCountPeers(p: Policy)
    requires WellFormed(p)
    ensures |UsedHosts(p)| == |p.peers|
    decreases |p.peers|
  {
    if p.peers != map[] {
      var id :| id in p.peers;
      var q := Policy(p.generation, p.peers - {id});
      HostsCountPeers(q);
      HostOfRemoved(p, id);
    }
  }

  lemma HostOfRemoved(p: Policy, id: PeerId)
    requires WellFormed(p) && id in p.peers
    ensures var q := Policy(p.generation, p.peers - {id});
            UsedHosts(p) == UsedHosts(q) + {p.peers[id].host} && p.peers[id].host !in UsedHosts(q)
            && |q.peers| == |p.peers| - 1
  {
    var q := Policy(p.generation, p.peers - {id});
    assert q.peers.Keys == p.peers.Keys - {id};
    forall h | h in UsedHosts(p)
      ensures h in UsedHosts(q) || h == p.peers[id].host
    {
      var k :| k in p.peers && p.peers[k].host == h;
      assert k == id || (k in q.peers && q.peers[k].host == h);
    }
  }

  lemma SubsetSize(a: set<int>, b: set<int>)
    requires a <= b
    ensures |a| <= |b| && (|a| == |b| <==> a == b)
  {
    assert b == a + (b - a);
  }

  ghost predicate HostTaken(p: Policy, host: int) {
    exists id | id in p.peers :: p.peers[id].host == host
  }

  /** Pigeonhole: every host of the pool is taken exactly when there are as many peers as hosts, and there are never more. */
  lemma PoolIsFullExactlyWhenAllHostsAreTaken(p: Policy)
    requires WellFormed(p)
    ensures |p.peers| <= POOL_SIZE
    ensures (forall h | 2 <= h <= 254 :: HostTaken(p, h)) <==> |p.peers| == POOL_SIZE
  {
    var pool := Interval(2, 255);
    HostsCountPeers(p);
    SubsetSize(UsedHosts(p), pool);
    if forall h | 2 <= h <= 254 :: HostTaken(p, h) {
      forall h | h in pool
        ensures h in UsedHosts(p)
      {
        assert HostTaken(p, h);
      }
    }
    if |p.peers| == POOL_SIZE {
      forall h | 2 <= h <= 254
        ensures HostTaken(p, h)
      {
        assert h in pool;
      }
    }
  }

  /** So the search finds no host exactly when the pool is full. */
  lemma PoolIsFullExactlyWhenNoHostIsFree(p: Policy)
    requires WellFormed(p)
    ensures |p.peers| <= POOL_SIZE
    ensures FirstFree(UsedHosts(p), 2).None? <==> |p.peers| == POOL_SIZE
  {
    PoolIsFullExactlyWhenAllHostsAreTaken(p);
    assert forall h :: HostTaken(p, h) <==> h in UsedHosts(p);
  }

  /**
   Enrollment of a fresh id and key succeeds exactly when fewer than 253 peers
   exist, and then takes the lowest host that no peer holds.
  */
  lemma EnrollmentIsExact(p: Policy, userId: UserId, peerId: PeerId, key: PublicKey, games: bool)
    requires WellFormed(p) && peerId !in p.peers && !KeyInUse(p, key)
    ensures var (q, r) := Enroll(p, userId, peerId, key, games);
            (r.Success? <==> |p.peers| < POOL_SIZE)
            && (r.Failure? ==> r == Failure(AddressPoolExhausted) && q == p)
            && (r.Success? ==>
                  r.value == VpnPeer(userId, peerId, key, r.value.host, OnDemand, games)
                  && q.peers == p.peers[peerId := r.value]
                  && (forall id | id in p.peers :: p.peers[id].host != r.value.host)
                  && forall h | 2 <= h < r.value.host :: h in UsedHosts(p))
  {
    PoolIsFullExactlyWhenNoHostIsFree(p);
    assert forall id | id in p.peers :: p.peers[id].host in UsedHosts(p);
  }

  /** Enrollment, all cases: the two errors with nothing changed, or the peer with the lowest host nobody has. */
  lemma EnrollmentOnPeers(p: Policy, userId: UserId, peerId: PeerId, key: PublicKey, games: bool)
    requires WellFormed(p)
    ensures var (q, r) := Enroll(p, userId, peerId, key, games);
            if peerId in p.peers || (exists id :: id in p.peers && p.peers[id].publicKey == key)
            then r == Failure(PeerAlreadyExists) && q == p
            else if |p.peers| == 253 then r == Failure(AddressPoolExhausted) && q == p
            else
              r.Success? && r.value == VpnPeer(userId, peerId, key, r.value.host, OnDemand, games)
              && q == Policy(p.generation + 1, p.peers[peerId := r.value])
              && !HostTaken(p, r.value.host) && forall h | 2 <= h < r.value.host :: HostTaken(p, h)
  {
    PoolIsFullExactlyWhenNoHostIsFree(p);
    assert forall h :: HostTaken(p, h) <==> h in UsedHosts(p);
  }

  /** The other operations, all cases. */
  lemma ChangesOnPeers(p: Policy, id: PeerId, key: PublicKey, enabled: bool)
    ensures SetGames(p, id, enabled) ==
              if id !in p.peers then (p, Failure(PeerNotFound))
              else if p.peers[id].games == enabled then (p, Success(false))
              else (Policy(p.generation + 1, p.peers[id := p.peers[id].(games := enabled)]), Success(true))
    ensures RotateKey(p, id, key) ==
              if exists other :: other in p.peers && other != id && p.peers[other].publicKey == key
              then (p, Failure(DuplicatePeerIdentity))
              else if id !in p.peers then (p, Failure(PeerNotFound))
              else if p.peers[id].publicKey == key then (p, Success(false))
              else (Policy(p.generation + 1, p.peers[id := p.peers[id].(publicKey := key)]), Success(true))
    ensures Revoke(p, id) ==
              if id !in p.peers then (p, Failure(PeerNotFound))
              else (Policy(p.generation + 1, map other | other in p.peers && other != id :: p.peers[other]), Success(p.peers[id]))
  {
    assert p.peers - {id} == map other | other in p.peers && other != id :: p.peers[other];
  }

  /** The iteration order gives every peer once, in ascending order of the ids. */
  lemma EveryPeerOnce(p: Policy)
    requires WellFormed(p)
    ensures var peers := OrderedPeers(p);
            (forall id | id in p.peers :: p.peers[id] in peers) && |peers| == |p.peers|
            && (forall peer | peer in peers :: peer.peerId in p.peers && p.peers[peer.peerId] == peer)
            && forall i, j | 0 <= i < j < |peers| :: Less(peers[i].peerId, peers[j].peerId)
  {
    var ids := SortedKeys(p.peers.Keys);
    var peers := OrderedPeers(p);
    forall i | 0 <= i < |ids|
      ensures ids[i] in p.peers && peers[i] == p.peers[ids[i]] && peers[i].peerId == ids[i]
    {
      assert ids[i] in ids;
    }
    forall id | id in p.peers
      ensures p.peers[id] in peers
    {
      assert id in ids;
      var i :| 0 <= i < |ids| && ids[i] == id;
      assert peers[i] == p.peers[id];
    }
  }

  /** A revoked address is free again: the next enrollment gets it or a lower one. */
  lemma RevokedHostIsReusable(p: Policy, revoked: PeerId, userId: UserId, peerId: PeerId, key: PublicKey, games: bool)
    requires WellFormed(p) && revoked in p.peers
    requires var q := Revoke(p, revoked).0; peerId !in q.peers && !KeyInUse(q, key)
    ensures var (_, r) := Enroll(Revoke(p, revoked).0, userId, peerId, key, games);
            r.Success? && r.value.host <= p.peers[revoked].host
  {
    var q := Revoke(p, revoked).0;
    assert p.peers[revoked].host !in UsedHosts(q);
  }

  // ---------- Every policy is deliverable ----------

  /** Manifest construction from a well-formed policy can only object to the timestamp. */
  lemma ManifestIsDeliverable(p: Policy, generatedAt: string)
    requires WellFormed(p)
    ensures Manifest(p, generatedAt).Success? <==> Timestamp.ValidUtcTimestamp(generatedAt)
    ensures Manifest(p, generatedAt).Failure? ==> Manifest(p, generatedAt).error == InvalidGeneratedAt
  {
    PoolIsFullExactlyWhenNoHostIsFree(p);
    PeersAreUnique(p, SortedKeys(p.peers.Keys));
  }

  lemma PeersAreUnique(p: Policy, ids: seq<PeerId>)
    requires WellFormed(p) && Ascending(ids) && forall id | id in ids :: id in p.peers
    ensures UniqueIdentities(Entries(PeersOf(p, ids)))
  {
    forall i, j | 0 <= i < j < |ids|
      ensures ids[i] != ids[j] && ids[i] in p.peers && ids[j] in p.peers
    {
      assert ids[i] in ids && ids[j] in ids;
      LessIrreflexive(ids[i]);
    }
  }

  // ---------- Runs ----------

  datatype PolicyOp =
    | EnrollOp(userId: UserId, peerId: PeerId, key: PublicKey, games: bool)
    | SetGamesOp(peerId: PeerId, enabled: bool)
    | RotateKeyOp(peerId: PeerId, key: PublicKey)
    | RevokeOp(peerId: PeerId)

  /** What an operation reported, for operations that succeeded. */
  datatype PolicyEvent =
    | Enrolled(peer: VpnPeer)
    | GamesSet(peerId: PeerId, enabled: bool)
    | KeyRotated(peerId: PeerId, key: PublicKey)
    | Revoked(peerId: PeerId)
    | Refused

  function Perform(p: Policy, op: PolicyOp): (Policy, PolicyEvent) {
    match op
    case EnrollOp(userId, peerId, key, games) =>
      var (q, r) := Enroll(p, userId, peerId, key, games);
      (q, if r.Success? then Enrolled(r.value) else Refused)
    case SetGamesOp(peerId, enabled) =>
      var (q, r) := SetGames(p, peerId, enabled);
      (q, if r.Success? then GamesSet(peerId, enabled) else Refused)
    case RotateKeyOp(peerId, key) =>
      var (q, r) := RotateKey(p, peerId, key);
      (q, if r.Success? then KeyRotated(peerId, key) else Refused)
    case RevokeOp(peerId) =>
      var (q, r) := Revoke(p, peerId);
      (q, if r.Success? then Revoked(peerId) else Refused)
  }

  function Run(ops: seq<PolicyOp>): Policy {
    if ops == [] then EMPTY_POLICY else Perform(Run(ops[..|ops| - 1]), ops[|ops| - 1]).0
  }

  function Events(ops: seq<PolicyOp>): seq<PolicyEvent> {
    if ops == [] then []
    else
      var front := ops[..|ops| - 1];
      Events(front) + [Perform(Run(front), ops[|ops| - 1]).1]
  }

  lemma PerformKeepsWellFormed(p: Policy, op: PolicyOp)
    requires WellFormed(p)
    ensures WellFormed(Perform(p, op).0)
  {
    if op.EnrollOp? {
      EnrollKeepsWellFormed(p, op.userId, op.peerId, op.key, op.games);
    }
  }

  /** In every run ids, keys and addresses stay unique. */
  lemma {:induction false} RunsAreWellFormed(ops: seq<PolicyOp>)
    ensures WellFormed(Run(ops))
  {
    if ops != [] {
      RunsAreWellFormed(ops[..|ops| - 1]);
      PerformKeepsWellFormed(Run(ops[..|ops| - 1]), ops[|ops| - 1]);
    }
  }

  /** An operation either changes nothing, or changes the peers and advances the generation by one. */
  lemma GenerationCountsChanges(p: Policy, op: PolicyOp)
    ensures var q := Perform(p, op).0;
            if q.peers == p.peers then q == p else q.generation == p.generation + 1
    ensures Perform(p, op).1 == Refused ==> Perform(p, op).0 == p
  {}

  lemma {:induction false} GenerationNeverFalls(ops: seq<PolicyOp>, i: nat)
    requires i <= |ops|
    ensures Run(ops[..i]).generation <= Run(ops).generation
    ensures Run(ops[..i]).generation == Run(ops).generation ==> Run(ops[..i]) == Run(ops)
  {
    if i < |ops| {
      var front := ops[..|ops| - 1];
      assert front[..i] == ops[..i];
      GenerationNeverFalls(front, i);
      GenerationCountsChanges(Run(front), ops[|ops| - 1]);
    } else {
      assert ops[..i] == ops;
    }
  }

  /**
   Along one run the generation identifies the content: manifests taken at any two
   points with equal generation and timestamp are the same, digest included.
  */
  lemma GenerationIdentifiesContent(sha: Hash, ops: seq<PolicyOp>, i: nat, j: nat, at: string)
    requires i <= j <= |ops|
    requires Run(ops[..i]).generation == Run(ops[..j]).generation
    ensures Run(ops[..i]) == Run(ops[..j])
    ensures Manifest(Run(ops[..i]), at) == Manifest(Run(ops[..j]), at)
    ensures Manifest(Run(ops[..i]), at).Success? ==>
              DigestOf(sha, Manifest(Run(ops[..i]), at).value) == DigestOf(sha, Manifest(Run(ops[..j]), at).value)
  {
    assert ops[..j][..i] == ops[..i];
    GenerationNeverFalls(ops[..j], i);
  }

  // ---------- Peer identity ----------

  /** What one successful operation says about the peer with the given id. */
  function TrackedAfter(before: Option<VpnPeer>, event: PolicyEvent, id: PeerId): Option<VpnPeer> {
    match event
    case Enrolled(peer) => if peer.peerId == id then Some(peer) else before
    case GamesSet(peerId, enabled) =>
      if peerId == id && before.Some? then Some(before.value.(games := enabled)) else before
    case KeyRotated(peerId, key) =>
      if peerId == id && before.Some? then Some(before.value.(publicKey := key)) else before
    case Revoked(peerId) => if peerId == id then None else before
    case Refused => before
  }

  /** What the successful operations on one id, and only those, say about its peer. */
  function Tracked(events: seq<PolicyEvent>, id: PeerId): Option<VpnPeer> {
    if events == [] then None
    else TrackedAfter(Tracked(events[..|events| - 1], id), events[|events| - 1], id)
  }

  function Lookup(p: Policy, id: PeerId): Option<VpnPeer> {
    if id in p.peers then Some(p.peers[id]) else None
  }

  lemma PerformIsTracked(p: Policy, op: PolicyOp, id: PeerId)
    ensures Lookup(Perform(p, op).0, id) == TrackedAfter(Lookup(p, id), Perform(p, op).1, id)
  {}

  /**
   A peer is what its own successful operations made it: enrollment fixes user, id
   and address, the last rotation fixes the key, the last games change fixes games,
   and operations on other peers change nothing.
  */
  lemma {:induction false} PeersAreTracked(ops: seq<PolicyOp>, id: PeerId)
    ensures Lookup(Run(ops), id) == Tracked(Events(ops), id)
  {
    if ops != [] {
      var front := ops[..|ops| - 1];
      PeersAreTracked(front, id);
      PerformIsTracked(Run(front), ops[|ops| - 1], id);
      assert Events(ops)[..|Events(ops)| - 1] == Events(front);
    }
  }

  /** From enrollment until its revocation a peer keeps its user, id and address. */
  lemma {:induction false} IdentityIsStable(ops: seq<PolicyOp>, i: nat, id: PeerId)
    requires i <= |ops| && id in Run(ops[..i]).peers
    requires forall k | i <= k < |ops| :: ops[k] != RevokeOp(id)
    ensures id in Run(ops).peers
    ensures var was, now := Run(ops[..i]).peers[id], Run(ops).peers[id];
            now == was.(publicKey := now.publicKey, games := now.games)
            && Egress in now.Permissions() && now.Permissions()[0] == Egress
            && (Games in now.Permissions() <==> now.games)
  {
    if i < |ops| {
      var front := ops[..|ops| - 1];
      assert front[..i] == ops[..i];
      IdentityIsStable(front, i, id);
      assert ops[|ops| - 1] != RevokeOp(id);
      PerformIsTracked(Run(front), ops[|ops| - 1], id);
    } else {
      assert ops[..i] == ops;
    }
  }
}
