/**
 The reconciliation service: a gateway polls with what it has applied and gets the
 desired manifest when it lags; its acknowledgement is recorded only when it names
 the exact delivery of the manifest that is desired at that moment.
*/
module GatewaySync {
  import opened Wrappers
  import opened VpnPeers
  import opened Contract

  datatype SyncError =
    | InvalidReport
    | UnconfiguredGateway
    | GatewayAhead
    | AppliedConflict
    | AcknowledgementMismatch

  type DesiredTable = map<GatewayId, PeerManifest>
  type AppliedTable = map<GatewayId, (PeerManifest, ManifestDigest)>

  function PollAnswer(digest: Digester, desired: DesiredTable, report: GatewayStateReport): Result<Option<PeerDelivery>, SyncError> {
    if !report.IsSupported() then Failure(InvalidReport)
    else if report.gatewayId !in desired then Failure(UnconfiguredGateway)
    else
      var manifest := desired[report.gatewayId];
      match report.WgUsers()
      case None => Success(Some(NewDelivery(digest, report.gatewayId, manifest)))
      case Some(state) =>
        if state.generation < manifest.generation then Success(Some(NewDelivery(digest, report.gatewayId, manifest)))
        else if state.generation > manifest.generation then Failure(GatewayAhead)
        else if state.manifestDigest == digest(manifest) then Success(None)
        else Failure(AppliedConflict)
  }

  function AcknowledgeAnswer(digest: Digester, desired: DesiredTable, ack: GatewayAcknowledgement): Result<Unit, SyncError> {
    if ack.gatewayId !in desired then Failure(UnconfiguredGateway)
    else if !ack.Matches(NewDelivery(digest, ack.gatewayId, desired[ack.gatewayId])) then Failure(AcknowledgementMismatch)
    else Success(Unit)
  }

  function RecordedBy(digest: Digester, desired: DesiredTable, applied: AppliedTable, ack: GatewayAcknowledgement): AppliedTable {
    if AcknowledgeAnswer(digest, desired, ack).Failure? then applied
    else applied[ack.gatewayId := (desired[ack.gatewayId], digest(desired[ack.gatewayId]))]
  }

  class GatewaySyncService {
    const sha: Hash
    var desired: DesiredTable
    var applied: AppliedTable

    constructor (sha: Hash)
      ensures this.sha == sha && desired == map[] && applied == map[]
    {
      this.sha := sha;
      desired := map[];
      applied := map[];
    }

    method SetDesired(gatewayId: GatewayId, manifest: PeerManifest)
      modifies this`desired
      ensures desired == old(desired)[gatewayId := manifest]
    {
      desired := desired[gatewayId := manifest];
    }

    method Poll(report: GatewayStateReport) returns (r: Result<Option<PeerDelivery>, SyncError>)
      ensures r == PollAnswer(HashDigester(sha), desired, report)
    {
      if !report.IsSupported() {
        return Failure(InvalidReport);
      }
      if report.gatewayId !in desired {
        return Failure(UnconfiguredGateway);
      }
      var manifest := desired[report.gatewayId];
      var desiredDigest := Digest(sha, manifest);
      var state := report.WgUsers();
      if state.None? || state.value.generation < manifest.generation {
        return Success(Some(NewDelivery(HashDigester(sha), report.gatewayId, manifest)));
      }
      if state.value.generation > manifest.generation {
        return Failure(GatewayAhead);
      }
      if state.value.manifestDigest == desiredDigest {
        return Success(None);
      }
      r := Failure(AppliedConflict);
    }

    method Acknowledge(ack: GatewayAcknowledgement) returns (r: Result<Unit, SyncError>)
      modifies this`applied
      ensures r == AcknowledgeAnswer(HashDigester(sha), desired, ack)
      ensures applied == RecordedBy(HashDigester(sha), desired, old(applied), ack)
    {
      if ack.gatewayId !in desired {
        return Failure(UnconfiguredGateway);
      }
      var manifest := desired[ack.gatewayId];
      var delivery := NewDelivery(HashDigester(sha), ack.gatewayId, manifest);
      if !ack.Matches(delivery) {
        return Failure(AcknowledgementMismatch);
      }
      applied := applied[ack.gatewayId := (manifest, delivery.manifestDigest)];
      r := Success(Unit);
    }
  }
}
