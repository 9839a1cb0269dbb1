/** The mutable policy registry, proved against the functions of `VpnPolicy`. */
module VpnRegistry {
  import opened Wrappers
  import opened VpnPeers
  import opened Contract
  import VpnPolicy

  class Registry {
    var generation: nat
    var peers: map<PeerId, VpnPeer>

    ghost function State(): VpnPolicy.Policy
      reads this
    {
      VpnPolicy.Policy(generation, peers)
    }

    ghost predicate Valid()
      reads this
    {
      VpnPolicy.WellFormed(State())
    }

    constructor ()
      ensures State() == VpnPolicy.EMPTY_POLICY && Valid()
    {
      generation := 1;
      peers := map[];
    }

    method Enroll(userId: UserId, peerId: PeerId, key: PublicKey, games: bool) returns (r: Result<VpnPeer, PolicyError>)
      requires Valid() && VpnPolicy.Enroll(State(), userId, peerId, key, games).0.generation <= MAX_GENERATION
      modifies this
      ensures Valid() && (State(), r) == VpnPolicy.Enroll(old(State()), userId, peerId, key, games)
    {
      VpnPolicy.EnrollKeepsWellFormed(State(), userId, peerId, key, games);
      if peerId in peers || exists id | id in peers :: peers[id].publicKey == key {
        return Failure(PeerAlreadyExists);
      }
      var address := AllocateAddress();
      if address.Failure? {
        return Failure(address.error);
      }
      var peer := VpnPeer(userId, peerId, key, address.value, OnDemand, games);
      peers := peers[peerId := peer];
      generation := generation + 1;
      r := Success(peer);
    }

    method AllocateAddress() returns (r: Result<Host, PolicyError>)
      requires Valid()
      ensures r.Success? ==> r.value !in VpnPolicy.UsedHosts(State()) && forall h | 2 <= h < r.value :: h in VpnPolicy.UsedHosts(State())
      ensures r.Failure? ==> r.error == AddressPoolExhausted
      ensures r.Failure? <==> |peers| == POOL_SIZE
      ensures r == match VpnPolicy.FirstFree(VpnPolicy.UsedHosts(State()), 2)
                   case None => Failure(AddressPoolExhausted)
                   case Some(host) => Success(host)
    {
      VpnPolicy.PoolIsFullExactlyWhenNoHostIsFree(State());
      var used := set id | id in peers :: peers[id].host;
      var free := VpnPolicy.FirstFree(used, 2);
      assert used == VpnPolicy.UsedHosts(State());
      r := match free case None => Failure(AddressPoolExhausted) case Some(host) => Success(host);
    }

    method SetGames(peerId: PeerId, enabled: bool) returns (r: Result<bool, PolicyError>)
      requires Valid() && VpnPolicy.SetGames(State(), peerId, enabled).0.generation <= MAX_GENERATION
      modifies this
      ensures Valid() && (State(), r) == VpnPolicy.SetGames(old(State()), peerId, enabled)
    {
      if peerId !in peers {
        return Failure(PeerNotFound);
      }
      var peer := peers[peerId];
      if peer.games == enabled {
        return Success(false);
      }
      peers := peers[peerId := peer.(games := enabled)];
      generation := generation + 1;
      r := Success(true);
    }

    method RotateKey(peerId: PeerId, key: PublicKey) returns (r: Result<bool, PolicyError>)
      requires Valid() && VpnPolicy.RotateKey(State(), peerId, key).0.generation <= MAX_GENERATION
      modifies this
      ensures Valid() && (State(), r) == VpnPolicy.RotateKey(old(State()), peerId, key)
    {
      if exists id | id in peers :: id != peerId && peers[id].publicKey == key {
        return Failure(DuplicatePeerIdentity);
      }
      if peerId !in peers {
        return Failure(PeerNotFound);
      }
      var peer := peers[peerId];
      if peer.publicKey == key {
        return Success(false);
      }
      peers := peers[peerId := peer.(publicKey := key)];
      generation := generation + 1;
      r := Success(true);
    }

    method Revoke(peerId: PeerId) returns (r: Result<VpnPeer, PolicyError>)
      requires Valid() && VpnPolicy.Revoke(State(), peerId).0.generation <= MAX_GENERATION
      modifies this
      ensures Valid() && (State(), r) == VpnPolicy.Revoke(old(State()), peerId)
    {
      if peerId !in peers {
        return Failure(PeerNotFound);
      }
      r := Success(peers[peerId]);
      peers := peers - {peerId};
      generation := generation + 1;
    }

    method Manifest(generatedAt: string) returns (r: Result<PeerManifest, PolicyError>)
      requires Valid()
      ensures r == VpnPolicy.Manifest(State(), generatedAt)
      ensures r.Failure? ==> r.error == InvalidGeneratedAt
    {
      VpnPolicy.ManifestIsDeliverable(State(), generatedAt);
      r := NewManifest(generation, generatedAt, VpnPolicy.OrderedPeers(VpnPolicy.Policy(generation, peers)));
    }
  }
}
