/**
 Every answer of the reconciliation service, for every table and every message: which
 one is given exactly when, in terms of what the message says and what is desired.
*/
module GatewayExact {
  import opened Wrappers
  import opened Numerals
  import opened VpnPeers
  import opened Contract
  import opened ContractShape
  import opened GatewaySync

  /** The report is well formed: its schema, and at most one entry for each of the two interfaces. */
  ghost predicate WellFormedReport(report: GatewayStateReport) {
    report.schemaVersion == 1 && |report.applied| <= 2
    && (forall i, j | 0 <= i < j < |report.applied| :: report.applied[i].interface != report.applied[j].interface)
    && forall i | 0 <= i < |report.applied| :: report.applied[i].interface == "wg-users" || report.applied[i].interface == "wg-nodes"
  }

  /** The report says this of the users' interface. */
  ghost predicate Says(report: GatewayStateReport, state: AppliedInterface) {
    state in report.applied && state.interface == "wg-users"
  }

  ghost predicate SaysNothing(report: GatewayStateReport) {
    forall state | state in report.applied :: state.interface != "wg-users"
  }

  lemma WhatIsSaidIsFound(report: GatewayStateReport)
    requires WellFormedReport(report)
    ensures report.IsSupported()
    ensures if SaysNothing(report) then report.WgUsers() == None
            else exists state :: Says(report, state) && report.WgUsers() == Some(state)
    ensures forall state | Says(report, state) :: report.WgUsers() == Some(state)
  {
    SupportIsExact(report);
    var found := report.WgUsers();
    if found.Some? {
      assert Says(report, found.value);
    }
    forall state | Says(report, state)
      ensures report.WgUsers() == Some(state)
    {
      WgUsersIsOrderFree(report, state);
    }
  }

  /** The two refusals before anything is compared. */
  lemma PollRefusesExactlyWhen(digest: Digester, desired: DesiredTable, report: GatewayStateReport)
    ensures PollAnswer(digest, desired, report) == Failure(InvalidReport) <==> !WellFormedReport(report)
    ensures PollAnswer(digest, desired, report) == Failure(UnconfiguredGateway)
            <==> WellFormedReport(report) && report.gatewayId !in desired
    ensures PollAnswer(digest, desired, report) != Failure(AcknowledgementMismatch)
  {
    SupportIsExact(report);
  }

  /**
   For a well-formed report of a configured gateway: ahead exactly with a newer
   generation, in conflict exactly with the same generation and another digest, up to date
   exactly with the state that installing the desired delivery gives, and sent that
   delivery exactly when it says nothing or something older.
  */
  lemma PollAnswersExactlyWhen(digest: Digester, desired: DesiredTable, report: GatewayStateReport)
    requires WellFormedReport(report) && report.gatewayId in desired
    ensures var m := desired[report.gatewayId];
            var answer := PollAnswer(digest, desired, report);
            (answer == Failure(GatewayAhead) <==> exists state :: Says(report, state) && state.generation > m.generation)
            && (answer == Failure(AppliedConflict)
                <==> exists state :: Says(report, state) && state.generation == m.generation && state.manifestDigest != digest(m))
            && (answer == Success(None) <==> AppliedInterface("wg-users", m.generation, digest(m)) in report.applied)
            && (answer.Success? && answer.value.Some?
                <==> SaysNothing(report) || exists state :: Says(report, state) && state.generation < m.generation)
            && (answer.Success? && answer.value.Some? ==>
                  answer.value.value == PeerDelivery(1, report.gatewayId,
                    "wg-users-" + ToDecimal(m.generation) + "-" + digest(m)[..12], digest(m), m))
  {
    WhatIsSaidIsFound(report);
    DeliveryIsExact(digest, report.gatewayId, desired[report.gatewayId]);
  }

  /** What an acknowledgement is answered, and what is recorded: the desired manifest and its digest, or nothing. */
  lemma AcknowledgeAnswersExactlyWhen(digest: Digester, desired: DesiredTable, applied: AppliedTable, ack: GatewayAcknowledgement)
    ensures var answer, recorded := AcknowledgeAnswer(digest, desired, ack), RecordedBy(digest, desired, applied, ack);
            if ack.gatewayId !in desired then answer == Failure(UnconfiguredGateway) && recorded == applied
            else
              var m := desired[ack.gatewayId];
              if ack == GatewayAcknowledgement(1, ack.gatewayId, "wg-users-" + ToDecimal(m.generation) + "-" + digest(m)[..12], "wg-users",
                                               m.generation, digest(m), "applied")
              then answer == Success(Unit) && recorded == applied[ack.gatewayId := (m, digest(m))]
              else answer == Failure(AcknowledgementMismatch) && recorded == applied
  {
    if ack.gatewayId in desired {
      DeliveryIsExact(digest, ack.gatewayId, desired[ack.gatewayId]);
      MatchingIsEquality(ack, NewDelivery(digest, ack.gatewayId, desired[ack.gatewayId]));
    }
  }
}
