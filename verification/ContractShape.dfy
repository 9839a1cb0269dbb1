/**
 What manifests, their texts, reports, deliveries and acknowledgements are, field by
 field, with the names and constants of the wire format written out.
*/
module ContractShape {
  import opened Wrappers
  import opened Ordering
  import opened Numerals
  import opened VpnPeers
  import opened CanonicalJson
  import opened CanonicalShape
  import opened Contract
  import Timestamp

  // ---------- Texts of manifests ----------

  function Member(key: string, v: Json): string {
    "\"" + key + "\":" + Encode(v)
  }

  lemma PlainMember(record: Json, key: string)
    requires record.Object? && key in record.members && Plain(key)
    ensures MemberText(record, key) == Member(key, record.members[key])
  {
    PlainStringIsItself(key);
    assert "\"" + key + "\"" + ":" == "\"" + key + "\":";
  }

  lemma {:induction false} AdjacentIsAscending(keys: seq<string>)
    requires forall i | 0 <= i < |keys| - 1 :: Less(keys[i], keys[i + 1])
    ensures Ascending(keys)
  {
    if |keys| > 1 {
      var front := keys[..|keys| - 1];
      AdjacentIsAscending(front);
      forall i | 0 <= i < |keys| - 1
        ensures Less(keys[i], keys[|keys| - 1])
      {
        if i < |keys| - 2 {
          assert Less(front[i], front[|keys| - 2]);
          LessTransitive(keys[i], keys[|keys| - 2], keys[|keys| - 1]);
        }
      }
      forall i, j | 0 <= i < j < |keys|
        ensures Less(keys[i], keys[j])
      {
        if j < |keys| - 1 {
          assert Less(front[i], front[j]);
        }
      }
    }
  }

  lemma AscendingCounts(keys: seq<string>, s: set<string>)
    requires Ascending(keys) && forall k :: k in keys <==> k in s
    ensures |keys| == |s|
    decreases |keys|
  {
    if keys != [] {
      var last := keys[|keys| - 1];
      var front := keys[..|keys| - 1];
      forall k
        ensures k in front <==> k in s - {last}
      {
        if k in front {
          LessIrreflexive(k);
        }
      }
      AscendingCounts(front, s - {last});
    } else {
      assert s == {};
    }
  }

  /** Members one after the other, with commas between them. */
  function Line(keys: seq<string>, values: seq<Json>): string
    requires |keys| == |values|
  {
    if keys == [] then ""
    else if |keys| == 1 then Member(keys[0], values[0])
    else Member(keys[0], values[0]) + "," + Line(keys[1..], values[1..])
  }

  ghost predicate AllPlain(keys: seq<string>) {
    forall i | 0 <= i < |keys| :: Plain(keys[i])
  }

  ghost predicate Values(members: map<string, Json>, keys: seq<string>, values: seq<Json>) {
    |keys| == |values| && forall i | 0 <= i < |keys| :: keys[i] in members && members[keys[i]] == values[i]
  }

  lemma {:induction false} LineOfMembers(members: map<string, Json>, keys: seq<string>, values: seq<Json>)
    requires AllPlain(keys) && Values(members, keys, values)
    ensures Join(MemberTexts(Object(members), keys)) == Line(keys, values)
    decreases |keys|
  {
    if keys != [] {
      var texts := MemberTexts(Object(members), keys);
      PlainMember(Object(members), keys[0]);
      assert texts[0] == Member(keys[0], values[0]);
      if |keys| > 1 {
        assert texts[1..] == MemberTexts(Object(members), keys[1..]);
        LineOfMembers(members, keys[1..], values[1..]);
      }
    }
  }

  /** The text of an object with plain keys, given in ascending order, and their values. */
  lemma ObjectLine(members: map<string, Json>, keys: seq<string>, values: seq<Json>)
    requires (forall i | 0 <= i < |keys| - 1 :: Less(keys[i], keys[i + 1])) && AllPlain(keys) && Values(members, keys, values)
    requires forall key :: key in keys <==> key in members
    ensures Encode(Object(members)) == "{" + Line(keys, values) + "}"
  {
    AdjacentIsAscending(keys);
    AscendingCounts(keys, members.Keys);
    ObjectOfKeys(members, keys);
    LineOfMembers(members, keys, values);
  }

  const MANIFEST_KEYS := ["generated_at", "generation", "interface", "peers", "schema_version"]

  lemma ManifestKeys()
    ensures forall i | 0 <= i < |MANIFEST_KEYS| - 1 :: Less(MANIFEST_KEYS[i], MANIFEST_KEYS[i + 1])
    ensures AllPlain(MANIFEST_KEYS)
  {
    GenerationKeys();
    OtherManifestKeys();
    PlainManifestKeys();
  }

  lemma OtherManifestKeys()
    ensures Less("generation", "interface") && Less("interface", "peers") && Less("peers", "schema_version")
  {
    DiffersAt("generation", "interface", 0);
    DiffersAt("interface", "peers", 0);
    DiffersAt("peers", "schema_version", 0);
  }

  lemma GenerationKeys()
    ensures Less("generated_at", "generation")
  {
    var a, b := "generated_at", "generation";
    assert a[..7] == b[..7];
    DiffersAt(a, b, 7);
  }

  lemma PlainManifestKeys()
    ensures AllPlain(MANIFEST_KEYS)
  {
    assert Plain("generated_at");
    assert Plain("schema_version");
  }

  lemma DiffersAt(a: string, b: string, i: nat)
    requires i < |a| && i < |b| && a[..i] == b[..i] && a[i] < b[i]
    ensures Less(a, b)
  {
    LessIsLexicographic(a, b);
  }

  function PeersJson(m: PeerManifest): Json {
    Array(seq(|m.peers|, i requires 0 <= i < |m.peers| => PeerJson(m.peers[i])))
  }

  function ManifestValues(m: PeerManifest): seq<Json> {
    [Text(m.generatedAt), Number(m.generation), Text(m.interface), PeersJson(m), Number(m.schemaVersion)]
  }

  lemma ManifestMembers(m: PeerManifest)
    ensures forall key :: key in MANIFEST_KEYS <==> key in ManifestJson(m).members
    ensures Values(ManifestJson(m).members, MANIFEST_KEYS, ManifestValues(m))
  {}

  /** The hashed text of a manifest: these five members by name, in this order, each with its own value. */
  lemma ManifestText(m: PeerManifest)
    ensures CanonicalText(m) == "{" + Line(MANIFEST_KEYS, ManifestValues(m)) + "}"
  {
    ManifestKeys();
    ManifestMembers(m);
    ObjectLine(ManifestJson(m).members, MANIFEST_KEYS, ManifestValues(m));
  }

  const PEER_KEYS := ["address", "health_policy", "peer_id", "permissions", "public_key"]

  lemma PeerKeys()
    ensures forall i | 0 <= i < |PEER_KEYS| - 1 :: Less(PEER_KEYS[i], PEER_KEYS[i + 1])
    ensures AllPlain(PEER_KEYS)
  {
    DiffersAt("address", "health_policy", 0);
    DiffersAt("health_policy", "peer_id", 0);
    PeerIdKeys();
    PermissionKeys();
    PlainPeerKeys();
  }

  lemma PeerIdKeys()
    ensures Less("peer_id", "permissions")
  {
    var a, b := "peer_id", "permissions";
    assert a[..2] == b[..2];
    DiffersAt(a, b, 2);
  }

  lemma PermissionKeys()
    ensures Less("permissions", "public_key")
  {
    var a, b := "permissions", "public_key";
    assert a[..1] == b[..1];
    DiffersAt(a, b, 1);
  }

  lemma PlainPeerKeys()
    ensures AllPlain(PEER_KEYS)
  {}

  function HealthName(health: HealthPolicy): Json {
    if health.Required? then Text("required") else Text("on_demand")
  }

  function PermissionNames(permissions: seq<Permission>): Json {
    Array(seq(|permissions|, i requires 0 <= i < |permissions| => Text(if permissions[i].Egress? then "egress" else "games")))
  }

  function PeerValues(peer: GatewayPeer): seq<Json> {
    [Text("10.100.0." + ToDecimal(peer.host) + "/32"), HealthName(peer.health), Text(peer.peerId),
     PermissionNames(peer.permissions), Text(peer.publicKey)]
  }

  lemma PeerMembers(peer: GatewayPeer)
    ensures forall key :: key in PEER_KEYS <==> key in PeerJson(peer).members
    ensures Values(PeerJson(peer).members, PEER_KEYS, PeerValues(peer))
  {
    assert PeerJson(peer).members["permissions"] == PermissionNames(peer.permissions);
  }

  /** The text of one peer in it. */
  lemma PeerText(peer: GatewayPeer)
    ensures Encode(PeerJson(peer)) == "{" + Line(PEER_KEYS, PeerValues(peer)) + "}"
  {
    PeerKeys();
    PeerMembers(peer);
    ObjectLine(PeerJson(peer).members, PEER_KEYS, PeerValues(peer));
  }

  // ---------- Construction ----------

  /** Two peers in the list share an id, a key or an address. */
  ghost predicate SharesIdentity(peers: seq<VpnPeer>) {
    exists i, j :: 0 <= i < j < |peers|
      && (peers[i].peerId == peers[j].peerId || peers[i].publicKey == peers[j].publicKey || peers[i].host == peers[j].host)
  }

  lemma SharingIsNotUnique(peers: seq<VpnPeer>)
    ensures UniqueIdentities(Entries(peers)) <==> !SharesIdentity(peers)
  {
    var entries := Entries(peers);
    if UniqueIdentities(entries) {
      forall i, j | 0 <= i < j < |peers|
        ensures peers[i].peerId != peers[j].peerId && peers[i].publicKey != peers[j].publicKey && peers[i].host != peers[j].host
      {
        assert IdOf(entries[i]) != IdOf(entries[j]) && KeyOf(entries[i]) != KeyOf(entries[j]) && HostOf(entries[i]) != HostOf(entries[j]);
      }
    } else if !SharesIdentity(peers) {
      assert DistinctBy(entries, IdOf) && DistinctBy(entries, KeyOf) && DistinctBy(entries, HostOf);
    }
  }

  /** The entry a manifest has for a peer. */
  function EntryOf(peer: VpnPeer): GatewayPeer {
    GatewayPeer(peer.peerId, peer.publicKey, peer.host, peer.health, if peer.games then [Egress, Games] else [Egress])
  }

  lemma EntriesAreExact(peers: seq<VpnPeer>)
    ensures Entries(peers) == seq(|peers|, i requires 0 <= i < |peers| => EntryOf(peers[i]))
  {
    forall i | 0 <= i < |peers|
      ensures FromPeer(peers[i]) == EntryOf(peers[i])
    {
      assert [Egress] + [Games] == [Egress, Games];
    }
  }

  /** Manifest construction: each error under its condition, and otherwise one entry for every peer, in ascending order of the ids. */
  lemma ConstructionIsExact(generation: nat, generatedAt: string, peers: seq<VpnPeer>)
    ensures var r := Built(generation, generatedAt, peers);
            if !Timestamp.ValidUtcTimestamp(generatedAt) then r == Failure(InvalidGeneratedAt)
            else if |peers| > 253 then r == Failure(TooManyPeers)
            else if SharesIdentity(peers) then r == Failure(DuplicatePeerIdentity)
            else
              r.Success? && r.value == PeerManifest(1, "wg-users", generation, generatedAt, r.value.peers)
              && multiset(r.value.peers) == multiset(seq(|peers|, i requires 0 <= i < |peers| => EntryOf(peers[i])))
              && forall i, j | 0 <= i < j < |r.value.peers| :: Less(r.value.peers[i].peerId, r.value.peers[j].peerId)
  {
    SharingIsNotUnique(peers);
    EntriesAreExact(peers);
    if Timestamp.ValidUtcTimestamp(generatedAt) && |peers| <= 253 && !SharesIdentity(peers) {
      var sorted := SortBy(Entries(peers), IdOf);
      DistinctIsOrderFree(Entries(peers), sorted, IdOf);
      SortedDistinctIsAscending(sorted, IdOf);
      forall i, j | 0 <= i < j < |sorted|
        ensures Less(sorted[i].peerId, sorted[j].peerId)
      {
        assert Less(IdOf(sorted[i]), IdOf(sorted[j]));
      }
    }
  }

  // ---------- Reports, deliveries and acknowledgements ----------

  /** Schema one, at most two interfaces, no interface twice, and only the two known ones. */
  lemma SupportIsExact(report: GatewayStateReport)
    ensures report.IsSupported() <==>
            report.schemaVersion == 1 && |report.applied| <= 2
            && (forall i, j | 0 <= i < j < |report.applied| :: report.applied[i].interface != report.applied[j].interface)
            && forall i | 0 <= i < |report.applied| ::
                 report.applied[i].interface == "wg-users" || report.applied[i].interface == "wg-nodes"
  {
    var applied := report.applied;
    var interfaces := set i | 0 <= i < |applied| :: applied[i].interface;
    if |applied| == 1 {
      assert interfaces == {applied[0].interface};
    } else if |applied| == 2 {
      assert interfaces == {applied[0].interface, applied[1].interface};
      assert |interfaces| == if applied[0].interface == applied[1].interface then 1 else 2;
    } else if |applied| == 0 {
      assert interfaces == {};
    }
    forall i | 0 <= i < |applied|
      ensures applied[i].interface in interfaces
    {}
  }

  /** The first wg-users entry of the report, if there is one. */
  lemma {:induction false} FirstEntryIsFound(applied: seq<AppliedInterface>)
    ensures match FirstWgUsers(applied)
            case None => forall i | 0 <= i < |applied| :: applied[i].interface != "wg-users"
            case Some(state) =>
              exists i :: 0 <= i < |applied| && applied[i] == state && state.interface == "wg-users"
                          && forall j | 0 <= j < i :: applied[j].interface != "wg-users"
  {
    if applied != [] && applied[0].interface != "wg-users" {
      FirstEntryIsFound(applied[1..]);
      var found := FirstWgUsers(applied[1..]);
      if found.Some? {
        var i :| 0 <= i < |applied[1..]| && applied[1..][i] == found.value
                 && forall j | 0 <= j < i :: applied[1..][j].interface != "wg-users";
        assert applied[i + 1] == found.value;
        forall j | 0 <= j < i + 1
          ensures applied[j].interface != "wg-users"
        {
          assert j > 0 ==> applied[j] == applied[1..][j - 1];
        }
      } else {
        forall j | 0 <= j < |applied|
          ensures applied[j].interface != "wg-users"
        {
          assert j > 0 ==> applied[j] == applied[1..][j - 1];
        }
      }
    }
  }

  /** A delivery names the gateway, the generation and the first twelve digits of the digest. */
  lemma DeliveryIsExact(digest: Digester, g: GatewayId, m: PeerManifest)
    ensures NewDelivery(digest, g, m) ==
            PeerDelivery(1, g, "wg-users-" + ToDecimal(m.generation) + "-" + digest(m)[..12], digest(m), m)
    ensures InstalledState(NewDelivery(digest, g, m)) == AppliedInterface("wg-users", m.generation, digest(m))
  {}

  /** An acknowledgement matches a delivery exactly when it is the one built from it. */
  lemma MatchingIsEquality(ack: GatewayAcknowledgement, d: PeerDelivery)
    ensures Applied(d) == GatewayAcknowledgement(1, d.gatewayId, d.deliveryId, "wg-users", d.manifest.generation, d.manifestDigest, "applied")
    ensures ack.Matches(d) <==> ack == Applied(d)
  {}
}
