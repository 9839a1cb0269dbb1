/**
 Runs of the reconciliation protocol. Desired states are successive manifests of
 one policy run. A delivery, once sent, stays in transit forever and may be received
 in any order, any number of times or never; polls may carry any report, and any
 acknowledgement may arrive at any time, sent by a gateway or not. `Execute` folds a
 sequence of steps; steps that are not enabled change nothing.
*/
module GatewayProtocol {
  import opened Wrappers
  import opened Ordering
  import opened VpnPeers
  import opened Contract
  import opened GatewaySync
  import VpnPolicy
  import Timestamp

  datatype Network = Network(
    policy: VpnPolicy.Policy,
    desired: DesiredTable,
    applied: AppliedTable,
    published: set<(GatewayId, PeerManifest)>,
    deliveries: set<PeerDelivery>,
    installed: map<GatewayId, AppliedInterface>)

  const START := Network(VpnPolicy.EMPTY_POLICY, map[], map[], {}, {}, map[])

  datatype Step =
    | ChangePolicy(op: VpnPolicy.PolicyOp)
    | Publish(gatewayId: GatewayId, generatedAt: string)
    | Poll(report: GatewayStateReport)
    | Install(gatewayId: GatewayId, delivery: PeerDelivery)
    | ReceiveAck(ack: GatewayAcknowledgement)

  ghost function Apply(digest: Digester, n: Network, step: Step): Network {
    match step
    case ChangePolicy(op) => n.(policy := VpnPolicy.Perform(n.policy, op).0)
    case Publish(gatewayId, generatedAt) =>
      var manifest := VpnPolicy.Manifest(n.policy, generatedAt);
      if manifest.Failure? then n
      else n.(desired := n.desired[gatewayId := manifest.value],
              published := n.published + {(gatewayId, manifest.value)})
    case Poll(report) =>
      var answer := PollAnswer(digest, n.desired, report);
      if answer.Success? && answer.value.Some? then n.(deliveries := n.deliveries + {answer.value.value}) else n
    case Install(gatewayId, delivery) =>
      if delivery in n.deliveries && delivery.gatewayId == gatewayId
      then n.(installed := n.installed[gatewayId := InstalledState(delivery)])
      else n
    case ReceiveAck(ack) => n.(applied := RecordedBy(digest, n.desired, n.applied, ack))
  }

  ghost function Execute(digest: Digester, n: Network, steps: seq<Step>): Network
    decreases |steps|
  {
    if steps == [] then n else Execute(digest, Apply(digest, n, steps[0]), steps[1..])
  }

  // ---------- The invariant ----------

  /** The peers that every manifest of a policy lists. */
  ghost function Content(p: VpnPolicy.Policy): seq<GatewayPeer> {
    SortBy(Entries(VpnPolicy.OrderedPeers(p)), IdOf)
  }

  ghost predicate ManifestOf(m: PeerManifest, p: VpnPolicy.Policy) {
    m == PeerManifest(SCHEMA_VERSION, WG_USERS, p.generation, m.generatedAt, Content(p))
  }

  lemma ManifestsListTheContent(p: VpnPolicy.Policy, generatedAt: string)
    ensures var r := VpnPolicy.Manifest(p, generatedAt);
            r.Success? ==> ManifestOf(r.value, p) && r.value.generatedAt == generatedAt
  {}

  type Published = set<(GatewayId, PeerManifest)>

  /** Manifests were published from this policy or from earlier generations of it. */
  ghost predicate PublishedFromPolicy(published: Published, p: VpnPolicy.Policy) {
    (forall g, m | (g, m) in published :: m.generation <= p.generation)
    && forall g, m | (g, m) in published && m.generation == p.generation :: ManifestOf(m, p)
  }

  /** Published manifests of one generation differ at most in their timestamp. */
  ghost predicate GenerationsAgree(published: Published) {
    forall g, m, h, k | (g, m) in published && (h, k) in published && m.generation == k.generation ::
      m == k.(generatedAt := m.generatedAt)
  }

  /** A gateway's desired manifest is the newest one published to it. */
  ghost predicate DesiredIsNewest(published: Published, desired: DesiredTable) {
    (forall g | g in desired :: (g, desired[g]) in published)
    && forall g, m | (g, m) in published :: g in desired && m.generation <= desired[g].generation
  }

  /** Deliveries carry published manifests. */
  ghost predicate DeliveriesAreIssued(digest: Digester, published: Published, deliveries: set<PeerDelivery>) {
    forall d | d in deliveries ::
      (d.gatewayId, d.manifest) in published && d == NewDelivery(digest, d.gatewayId, d.manifest)
  }

  ghost predicate InstalledAreIssued(deliveries: set<PeerDelivery>, installed: map<GatewayId, AppliedInterface>) {
    forall g | g in installed :: exists d :: d in deliveries && d.gatewayId == g && installed[g] == InstalledState(d)
  }

  ghost predicate AppliedArePublished(digest: Digester, published: Published, applied: AppliedTable) {
    forall g | g in applied :: (g, applied[g].0) in published && applied[g].1 == digest(applied[g].0)
  }

  ghost predicate Inv(digest: Digester, n: Network) {
    VpnPolicy.WellFormed(n.policy)
    && PublishedFromPolicy(n.published, n.policy)
    && GenerationsAgree(n.published)
    && DesiredIsNewest(n.published, n.desired)
    && DeliveriesAreIssued(digest, n.published, n.deliveries)
    && InstalledAreIssued(n.deliveries, n.installed)
    && AppliedArePublished(digest, n.published, n.applied)
  }

  lemma PublishingKeepsSource(p: VpnPolicy.Policy, published: Published, g: GatewayId, m: PeerManifest)
    requires PublishedFromPolicy(published, p) && GenerationsAgree(published) && ManifestOf(m, p)
    ensures PublishedFromPolicy(published + {(g, m)}, p) && GenerationsAgree(published + {(g, m)})
  {
    var more := published + {(g, m)};
    forall h, k: PeerManifest | (h, k) in more
      ensures k.generation <= p.generation
      ensures k.generation == p.generation ==> ManifestOf(k, p)
    {
      assert (h, k) in published || k == m;
    }
    forall h, k: PeerManifest, i, l: PeerManifest | (h, k) in more && (i, l) in more && k.generation == l.generation
      ensures k == l.(generatedAt := k.generatedAt)
    {
      assert ((h, k) in published || k == m) && ((i, l) in published || l == m);
    }
  }

  lemma PublishingKeepsNewest(published: Published, desired: DesiredTable, g: GatewayId, m: PeerManifest)
    requires DesiredIsNewest(published, desired)
    requires forall h, k: PeerManifest | (h, k) in published :: k.generation <= m.generation
    ensures DesiredIsNewest(published + {(g, m)}, desired[g := m])
  {}

  lemma MorePublished(digest: Digester, published: Published, more: Published, deliveries: set<PeerDelivery>, applied: AppliedTable)
    requires published <= more
    requires DeliveriesAreIssued(digest, published, deliveries) && AppliedArePublished(digest, published, applied)
    ensures DeliveriesAreIssued(digest, more, deliveries) && AppliedArePublished(digest, more, applied)
  {}

  lemma PublishedKeepsInv(digest: Digester, n: Network, g: GatewayId, m: PeerManifest)
    requires Inv(digest, n) && ManifestOf(m, n.policy)
    ensures Inv(digest, n.(desired := n.desired[g := m], published := n.published + {(g, m)}))
  {
    PublishingKeepsSource(n.policy, n.published, g, m);
    PublishingKeepsNewest(n.published, n.desired, g, m);
    MorePublished(digest, n.published, n.published + {(g, m)}, n.deliveries, n.applied);
  }

  lemma PublishKeepsInv(digest: Digester, n: Network, gatewayId: GatewayId, generatedAt: string)
    requires Inv(digest, n)
    ensures Inv(digest, Apply(digest, n, Publish(gatewayId, generatedAt)))
  {
    var manifest := VpnPolicy.Manifest(n.policy, generatedAt);
    if manifest.Success? {
      ManifestsListTheContent(n.policy, generatedAt);
      PublishedKeepsInv(digest, n, gatewayId, manifest.value);
    }
  }

  lemma ChangeKeepsInv(digest: Digester, n: Network, op: VpnPolicy.PolicyOp)
    requires Inv(digest, n)
    ensures Inv(digest, Apply(digest, n, ChangePolicy(op)))
  {
    VpnPolicy.PerformKeepsWellFormed(n.policy, op);
    VpnPolicy.GenerationCountsChanges(n.policy, op);
    var q := VpnPolicy.Perform(n.policy, op).0;
    assert PublishedFromPolicy(n.published, q);
  }

  /** A poll can only send the delivery of the desired manifest. */
  lemma PollSendsDesired(digest: Digester, desired: DesiredTable, report: GatewayStateReport)
    ensures var answer := PollAnswer(digest, desired, report);
            answer.Success? && answer.value.Some? ==>
              report.gatewayId in desired && answer.value.value == NewDelivery(digest, report.gatewayId, desired[report.gatewayId])
  {}

  lemma MoreDeliveriesKeepTraces(deliveries: set<PeerDelivery>, d: PeerDelivery, installed: map<GatewayId, AppliedInterface>)
    requires InstalledAreIssued(deliveries, installed)
    ensures InstalledAreIssued(deliveries + {d}, installed)
  {
    forall g | g in installed
      ensures exists d' :: d' in deliveries + {d} && d'.gatewayId == g && installed[g] == InstalledState(d')
    {
      var d' :| d' in deliveries && d'.gatewayId == g && installed[g] == InstalledState(d');
      assert d' in deliveries + {d};
    }
  }

  lemma PollKeepsInv(digest: Digester, n: Network, report: GatewayStateReport)
    requires Inv(digest, n)
    ensures Inv(digest, Apply(digest, n, Poll(report)))
  {
    var answer := PollAnswer(digest, n.desired, report);
    PollSendsDesired(digest, n.desired, report);
    if answer.Success? && answer.value.Some? {
      MoreDeliveriesKeepTraces(n.deliveries, answer.value.value, n.installed);
    }
  }

  lemma InstallKeepsInv(digest: Digester, n: Network, gatewayId: GatewayId, delivery: PeerDelivery)
    requires Inv(digest, n)
    ensures Inv(digest, Apply(digest, n, Install(gatewayId, delivery)))
  {}

  lemma ReceiveAckKeepsInv(digest: Digester, n: Network, ack: GatewayAcknowledgement)
    requires Inv(digest, n)
    ensures Inv(digest, Apply(digest, n, ReceiveAck(ack)))
  {
    assert AppliedArePublished(digest, n.published, RecordedBy(digest, n.desired, n.applied, ack));
  }

  /** What each kind of step leaves alone. */
  lemma Frames(digest: Digester, n: Network, step: Step)
    ensures var after := Apply(digest, n, step);
            (!step.Publish? ==> after.desired == n.desired && after.published == n.published)
            && (!step.ReceiveAck? ==> after.applied == n.applied)
            && (!step.Install? ==> after.installed == n.installed)
  {}

  lemma ApplyKeepsInv(digest: Digester, n: Network, step: Step)
    requires Inv(digest, n)
    ensures Inv(digest, Apply(digest, n, step))
  {
    match step
    case ChangePolicy(op) => ChangeKeepsInv(digest, n, op);
    case Publish(gatewayId, generatedAt) => PublishKeepsInv(digest, n, gatewayId, generatedAt);
    case Poll(report) => PollKeepsInv(digest, n, report);
    case Install(gatewayId, delivery) => InstallKeepsInv(digest, n, gatewayId, delivery);
    case ReceiveAck(ack) => ReceiveAckKeepsInv(digest, n, ack);
  }

  /** The invariant holds after every run, whatever was lost, repeated or reordered. */
  lemma {:induction false} ExecuteKeepsInv(digest: Digester, n: Network, steps: seq<Step>)
    requires Inv(digest, n)
    ensures Inv(digest, Execute(digest, n, steps))
    decreases |steps|
  {
    if steps != [] {
      ApplyKeepsInv(digest, n, steps[0]);
      ExecuteKeepsInv(digest, Apply(digest, n, steps[0]), steps[1..]);
    }
  }

  /** Some run, whatever was lost, repeated or reordered in it, leads from one network to another. */
  ghost predicate LeadsTo(digest: Digester, n: Network, later: Network) {
    exists steps :: Execute(digest, n, steps) == later
  }

  ghost predicate Reachable(digest: Digester, n: Network) {
    LeadsTo(digest, START, n)
  }

  lemma ReachableNetworksKeepInv(digest: Digester, n: Network)
    requires Reachable(digest, n)
    ensures Inv(digest, n)
  {
    var steps :| Execute(digest, START, steps) == n;
    ExecuteKeepsInv(digest, START, steps);
  }

  // ---------- Acknowledgements ----------

  /** Sent by a gateway or forged, an accepted acknowledgement is in every field the one of the desired delivery. */
  lemma AcceptedAcknowledgementIsTheDesiredOne(digest: Digester, desired: DesiredTable, ack: GatewayAcknowledgement)
    ensures AcknowledgeAnswer(digest, desired, ack).Success?
            <==> ack.gatewayId in desired && ack == Applied(NewDelivery(digest, ack.gatewayId, desired[ack.gatewayId]))
  {}

  /**
   In every run, an acknowledgement of an issued delivery is accepted exactly when
   that delivery carried the manifest desired now; acceptance records that manifest,
   and anything else leaves the applied states as they were.
  */
  lemma AcknowledgementIsExact(digest: Digester, n: Network, d: PeerDelivery)
    requires Reachable(digest, n) && d in n.deliveries
    requires d.gatewayId in n.desired && digest(d.manifest) == digest(n.desired[d.gatewayId]) ==>
               d.manifest == n.desired[d.gatewayId]
    ensures AcceptsExactly(digest, n, d)
  {
    ReachableNetworksKeepInv(digest, n);
    if d.gatewayId in n.desired {
      AcknowledgementBindsDigest(digest, d.gatewayId, d.manifest, d.gatewayId, n.desired[d.gatewayId]);
    }
  }

  /** The same for digests that hash the canonical text, where only a collision of those two texts could break it. */
  lemma AcknowledgementBindsTheDesiredManifest(sha: Hash, n: Network, d: PeerDelivery)
    requires Reachable(HashDigester(sha), n) && d in n.deliveries
    ensures (d.gatewayId in n.desired ==> NoCollision(sha, d.manifest, n.desired[d.gatewayId]))
            ==> AcceptsExactly(HashDigester(sha), n, d)
  {
    if d.gatewayId in n.desired ==> NoCollision(sha, d.manifest, n.desired[d.gatewayId]) {
      if d.gatewayId in n.desired {
        DigestIdentifiesManifest(sha, d.manifest, n.desired[d.gatewayId]);
      }
      AcknowledgementIsExact(HashDigester(sha), n, d);
    }
  }

  /** The acknowledgement of `d` is accepted, and recorded, exactly when `d` carries the desired manifest. */
  ghost predicate AcceptsExactly(digest: Digester, n: Network, d: PeerDelivery) {
    var isDesired := d.gatewayId in n.desired && n.desired[d.gatewayId] == d.manifest;
    (AcknowledgeAnswer(digest, n.desired, Applied(d)).Success? <==> isDesired)
    && RecordedBy(digest, n.desired, n.applied, Applied(d))
       == if isDesired then n.applied[d.gatewayId := (d.manifest, digest(d.manifest))] else n.applied
  }

  /**
   From any point of a run on, the recorded generation of a gateway never falls and
   never passes the desired one, whatever acknowledgements arrive.
  */
  lemma AppliedGenerationIsMonotone(digest: Digester, n: Network, later: Network, g: GatewayId)
    requires Reachable(digest, n) && LeadsTo(digest, n, later) && g in n.applied
    ensures g in later.applied && g in later.desired
            && n.applied[g].0.generation <= later.applied[g].0.generation <= later.desired[g].generation
  {
    ReachableNetworksKeepInv(digest, n);
    var more :| Execute(digest, n, more) == later;
    RunIsMonotone(digest, n, more, g);
  }

  lemma {:induction false} RunIsMonotone(digest: Digester, n: Network, more: seq<Step>, g: GatewayId)
    requires Inv(digest, n) && g in n.applied
    ensures var later := Execute(digest, n, more);
            g in later.applied && g in later.desired
            && n.applied[g].0.generation <= later.applied[g].0.generation <= later.desired[g].generation
    decreases |more|
  {
    if more == [] {
      RecordedIsAtMostDesired(digest, n, g);
    } else {
      StepIsMonotone(digest, n, more[0], g);
      assert Inv(digest, Apply(digest, n, more[0])) by {
        ApplyKeepsInv(digest, n, more[0]);
      }
      RunIsMonotone(digest, Apply(digest, n, more[0]), more[1..], g);
    }
  }

  lemma StepIsMonotone(digest: Digester, n: Network, step: Step, g: GatewayId)
    requires Inv(digest, n) && g in n.applied
    ensures var after := Apply(digest, n, step);
            g in after.applied && g in after.desired
            && n.applied[g].0.generation <= after.applied[g].0.generation <= after.desired[g].generation
  {
    RecordedIsAtMostDesired(digest, n, g);
    StepMovesRecordedUp(digest, n, step, g);
    var after := Apply(digest, n, step);
    assert Inv(digest, after) by {
      ApplyKeepsInv(digest, n, step);
    }
    RecordedIsAtMostDesired(digest, after, g);
  }

  lemma StepMovesRecordedUp(digest: Digester, n: Network, step: Step, g: GatewayId)
    requires g in n.applied && g in n.desired && n.applied[g].0.generation <= n.desired[g].generation
    ensures var after := Apply(digest, n, step);
            g in after.applied && n.applied[g].0.generation <= after.applied[g].0.generation
  {
    if step.ReceiveAck? {
      RecordingIsMonotone(digest, n.desired, n.applied, step.ack, g);
    } else {
      Frames(digest, n, step);
    }
  }

  lemma RecordedIsAtMostDesired(digest: Digester, n: Network, g: GatewayId)
    requires Inv(digest, n)
    ensures g in n.applied ==> g in n.desired && n.applied[g].0.generation <= n.desired[g].generation
  {
    if g in n.applied {
      assert (g, n.applied[g].0) in n.published;
    }
  }

  lemma RecordingIsMonotone(digest: Digester, desired: DesiredTable, applied: AppliedTable, ack: GatewayAcknowledgement, g: GatewayId)
    requires g in applied && g in desired && applied[g].0.generation <= desired[g].generation
    ensures var after := RecordedBy(digest, desired, applied, ack);
            g in after && applied[g].0.generation <= after[g].0.generation
  {}

  // ---------- Polls ----------

  /** A report whose wg-users state, if any, some issued delivery to this gateway produced. */
  ghost predicate HonestReport(n: Network, report: GatewayStateReport) {
    report.WgUsers().Some? ==>
      exists d :: d in n.deliveries && d.gatewayId == report.gatewayId && InstalledState(d) == report.WgUsers().value
  }

  /** A gateway that installed only issued deliveries is never told it is ahead, however old its report. */
  lemma HonestGatewayIsNeverAhead(digest: Digester, n: Network, report: GatewayStateReport)
    requires Reachable(digest, n) && HonestReport(n, report)
    ensures PollAnswer(digest, n.desired, report) != Failure(GatewayAhead)
  {
    ReachableNetworksKeepInv(digest, n);
    HonestReportIsBehind(digest, n, report);
  }

  lemma HonestReportIsBehind(digest: Digester, n: Network, report: GatewayStateReport)
    requires Inv(digest, n) && HonestReport(n, report)
    ensures PollAnswer(digest, n.desired, report) != Failure(GatewayAhead)
  {
    if report.WgUsers().Some? {
      var d :| d in n.deliveries && d.gatewayId == report.gatewayId && InstalledState(d) == report.WgUsers().value;
      assert (d.gatewayId, d.manifest) in n.published;
    }
  }

  /** The gateway's own report of what it has installed. */
  function OwnReport(n: Network, g: GatewayId): GatewayStateReport {
    GatewayStateReport(SCHEMA_VERSION, g, if g in n.installed then [n.installed[g]] else [])
  }

  ghost function OwnPoll(digest: Digester, n: Network, g: GatewayId): Result<Option<PeerDelivery>, SyncError> {
    PollAnswer(digest, n.desired, OwnReport(n, g))
  }

  ghost predicate Converged(digest: Digester, n: Network, g: GatewayId) {
    g in n.desired && g in n.installed && n.installed[g] == InstalledState(NewDelivery(digest, g, n.desired[g]))
  }

  /** The gateway installed another manifest of the desired generation. */
  ghost predicate Conflicts(digest: Digester, n: Network, g: GatewayId) {
    g in n.desired && g in n.installed
    && n.installed[g].generation == n.desired[g].generation && n.installed[g].manifestDigest != digest(n.desired[g])
  }

  lemma SingletonInterfaces(applied: seq<AppliedInterface>)
    requires |applied| <= 1
    ensures (set i | 0 <= i < |applied| :: applied[i].interface) == if applied == [] then {} else {applied[0].interface}
  {
    if |applied| == 1 {
      assert applied[0].interface in (set i | 0 <= i < |applied| :: applied[i].interface);
    }
  }

  lemma OwnReportReads(n: Network, g: GatewayId)
    requires g in n.installed ==> n.installed[g].interface == WG_USERS
    ensures OwnReport(n, g).IsSupported()
    ensures OwnReport(n, g).WgUsers() == if g in n.installed then Some(n.installed[g]) else None
  {
    var report := OwnReport(n, g);
    SingletonInterfaces(report.applied);
  }

  lemma InstalledIsNotAhead(digest: Digester, n: Network, g: GatewayId)
    requires Inv(digest, n) && g in n.desired && g in n.installed
    ensures n.installed[g].generation <= n.desired[g].generation && n.installed[g].interface == WG_USERS
  {
    var d :| d in n.deliveries && d.gatewayId == g && n.installed[g] == InstalledState(d);
    assert (g, d.manifest) in n.published && (g, n.desired[g]) in n.published;
  }

  /** A gateway that polls with its own state is refused, told it has converged, or sent the desired manifest. */
  lemma OwnPollIsExact(digest: Digester, n: Network, g: GatewayId)
    requires Inv(digest, n) && g in n.desired
    ensures OwnPoll(digest, n, g) == if Conflicts(digest, n, g) then Failure(AppliedConflict)
                                     else Success(if Converged(digest, n, g) then None else Some(NewDelivery(digest, g, n.desired[g])))
  {
    if g in n.installed {
      InstalledIsNotAhead(digest, n, g);
    }
    OwnReportReads(n, g);
  }

  lemma PolledDeliveryInstalls(digest: Digester, n: Network, report: GatewayStateReport)
    requires var g := report.gatewayId;
             g in n.desired && PollAnswer(digest, n.desired, report) == Success(Some(NewDelivery(digest, g, n.desired[g])))
    ensures var g := report.gatewayId;
            var polled := Apply(digest, n, Poll(report));
            Converged(digest, Apply(digest, polled, Install(g, NewDelivery(digest, g, n.desired[g]))), g)
  {
    var g := report.gatewayId;
    var polled := Apply(digest, n, Poll(report));
    assert NewDelivery(digest, g, n.desired[g]) in polled.deliveries && polled.desired == n.desired;
  }

  // ---------- One round ----------

  /** The poll returns nothing to a converged gateway, and otherwise a delivery whose installation converges it. */
  ghost predicate RoundSucceeds(digest: Digester, n: Network, g: GatewayId)
    requires g in n.desired
  {
    var delivery := NewDelivery(digest, g, n.desired[g]);
    var polled := Apply(digest, n, Poll(OwnReport(n, g)));
    if Converged(digest, n, g) then OwnPoll(digest, n, g) == Success(None)
    else OwnPoll(digest, n, g) == Success(Some(delivery))
         && Converged(digest, Apply(digest, polled, Install(g, delivery)), g)
  }

  /** In every run, one poll-apply round converges a gateway exactly when it holds no other manifest of the desired generation. */
  lemma OneRoundConverges(digest: Digester, n: Network, g: GatewayId)
    requires Reachable(digest, n) && g in n.desired
    ensures RoundSucceeds(digest, n, g) <==> !Conflicts(digest, n, g)
    ensures Conflicts(digest, n, g) ==> OwnPoll(digest, n, g) == Failure(AppliedConflict)
  {
    ReachableNetworksKeepInv(digest, n);
    OwnPollIsExact(digest, n, g);
    if !Converged(digest, n, g) && !Conflicts(digest, n, g) {
      PolledDeliveryInstalls(digest, n, OwnReport(n, g));
    }
  }

  /** Each generation was stamped with one timestamp for this gateway. */
  ghost predicate StampedOnce(n: Network, g: GatewayId) {
    forall m, k | (g, m) in n.published && (g, k) in n.published && m.generation == k.generation ::
      m.generatedAt == k.generatedAt
  }

  lemma IssuedOfDesiredGeneration(digest: Digester, n: Network, d: PeerDelivery)
    requires Inv(digest, n) && d in n.deliveries && d.gatewayId in n.desired && StampedOnce(n, d.gatewayId)
    ensures d.manifest.generation == n.desired[d.gatewayId].generation ==> d.manifest == n.desired[d.gatewayId]
  {
    assert (d.gatewayId, d.manifest) in n.published && (d.gatewayId, n.desired[d.gatewayId]) in n.published;
  }

  /** So with each generation stamped once, every round converges. */
  lemma StampedOnceConverges(digest: Digester, n: Network, g: GatewayId)
    requires Reachable(digest, n) && StampedOnce(n, g) && g in n.desired
    ensures RoundSucceeds(digest, n, g) && !Conflicts(digest, n, g)
  {
    OneRoundConverges(digest, n, g);
    ReachableNetworksKeepInv(digest, n);
    if g in n.installed {
      var d :| d in n.deliveries && d.gatewayId == g && n.installed[g] == InstalledState(d);
      IssuedOfDesiredGeneration(digest, n, d);
    }
  }

  /** Publishing an unchanged policy again makes a converged gateway conflict exactly when the new stamp changes the digest. */
  lemma RestampingConflicts(digest: Digester, n: Network, g: GatewayId, at: string)
    requires Reachable(digest, n) && Converged(digest, n, g) && n.desired[g].generation == n.policy.generation
    requires Timestamp.ValidUtcTimestamp(at)
    ensures OwnPoll(digest, Apply(digest, n, Publish(g, at)), g)
            == if digest(n.desired[g].(generatedAt := at)) == digest(n.desired[g]) then Success(None) else Failure(AppliedConflict)
  {
    ReachableNetworksKeepInv(digest, n);
    assert (g, n.desired[g]) in n.published;
    VpnPolicy.ManifestIsDeliverable(n.policy, at);
    ManifestsListTheContent(n.policy, at);
    PublishKeepsInv(digest, n, g, at);
    OwnPollIsExact(digest, Apply(digest, n, Publish(g, at)), g);
  }

  function StampedManifest(at: string): PeerManifest {
    PeerManifest(SCHEMA_VERSION, WG_USERS, 1, at, [])
  }

  /** The empty policy is published, delivered and installed. */
  function FirstRound(digest: Digester, g: GatewayId, at: string): seq<Step> {
    [Publish(g, at), Poll(GatewayStateReport(SCHEMA_VERSION, g, [])), Install(g, NewDelivery(digest, g, StampedManifest(at)))]
  }

  lemma {:induction false} ExecuteAppends(digest: Digester, n: Network, steps: seq<Step>, step: Step)
    ensures Execute(digest, n, steps + [step]) == Apply(digest, Execute(digest, n, steps), step)
    decreases |steps|
  {
    if steps == [] {
      assert [step][1..] == [] && [] + [step] == [step];
      assert Execute(digest, n, [step]) == Execute(digest, Apply(digest, n, step), []);
    } else {
      assert (steps + [step])[1..] == steps[1..] + [step];
      ExecuteAppends(digest, Apply(digest, n, steps[0]), steps[1..], step);
    }
  }

  lemma EmptyPolicyManifest(at: string)
    requires Timestamp.ValidUtcTimestamp(at)
    ensures VpnPolicy.Manifest(VpnPolicy.EMPTY_POLICY, at) == Success(StampedManifest(at))
  {
    assert VpnPolicy.OrderedPeers(VpnPolicy.EMPTY_POLICY) == [];
    VpnPolicy.ManifestIsDeliverable(VpnPolicy.EMPTY_POLICY, at);
    ManifestsListTheContent(VpnPolicy.EMPTY_POLICY, at);
    assert Entries([]) == [];
  }

  lemma ThreeSteps(digest: Digester, n: Network, a: Step, b: Step, c: Step)
    ensures Execute(digest, n, [a, b, c]) == Apply(digest, Apply(digest, Apply(digest, n, a), b), c)
  {
    assert [a] == [] + [a] && [a, b] == [a] + [b] && [a, b, c] == [a, b] + [c];
    ExecuteAppends(digest, n, [], a);
    ExecuteAppends(digest, n, [a], b);
    ExecuteAppends(digest, n, [a, b], c);
  }

  lemma FirstRoundConverges(digest: Digester, g: GatewayId, at: string)
    requires Timestamp.ValidUtcTimestamp(at)
    ensures var n := Execute(digest, START, FirstRound(digest, g, at));
            Converged(digest, n, g) && n.desired[g] == StampedManifest(at) && n.policy == VpnPolicy.EMPTY_POLICY
  {
    var run := FirstRound(digest, g, at);
    EmptyPolicyManifest(at);
    ThreeSteps(digest, START, run[0], run[1], run[2]);
    var published := Apply(digest, START, run[0]);
    OwnReportReads(START, g);
    assert OwnReport(START, g) == run[1].report;
    assert NewDelivery(digest, g, StampedManifest(at)) in Apply(digest, published, run[1]).deliveries;
  }

  /**
   A run that conflicts: after its first round the unchanged policy is published again
   with another stamp, and no poll with its own state converges the gateway any more.
  */
  lemma RestampedRunConflicts(digest: Digester, g: GatewayId, first: string, second: string)
    ensures Timestamp.ValidUtcTimestamp(first) && Timestamp.ValidUtcTimestamp(second)
            && digest(StampedManifest(first)) != digest(StampedManifest(second))
            ==> EndsInConflict(digest, FirstRound(digest, g, first) + [Publish(g, second)], g)
  {
    if Timestamp.ValidUtcTimestamp(first) && Timestamp.ValidUtcTimestamp(second)
       && digest(StampedManifest(first)) != digest(StampedManifest(second)) {
      FirstRoundConverges(digest, g, first);
      ExecuteAppends(digest, START, FirstRound(digest, g, first), Publish(g, second));
      RestampedFirstRoundConflicts(digest, Execute(digest, START, FirstRound(digest, g, first)), g, first, second);
    }
  }

  ghost predicate EndsInConflict(digest: Digester, steps: seq<Step>, g: GatewayId) {
    var n := Execute(digest, START, steps);
    g in n.desired && !RoundSucceeds(digest, n, g) && OwnPoll(digest, n, g) == Failure(AppliedConflict)
  }

  lemma RestampedFirstRoundConflicts(digest: Digester, n: Network, g: GatewayId, first: string, second: string)
    requires Reachable(digest, n) && Converged(digest, n, g)
    requires n.desired[g] == StampedManifest(first) && n.policy == VpnPolicy.EMPTY_POLICY
    requires Timestamp.ValidUtcTimestamp(second) && digest(StampedManifest(first)) != digest(StampedManifest(second))
    ensures var after := Apply(digest, n, Publish(g, second));
            g in after.desired && !RoundSucceeds(digest, after, g) && OwnPoll(digest, after, g) == Failure(AppliedConflict)
  {
    RestampingConflicts(digest, n, g, second);
    EmptyPolicyManifest(second);
  }

  // ---------- Staying converged ----------

  ghost predicate NotPublishedTo(steps: seq<Step>, g: GatewayId) {
    forall i | 0 <= i < |steps| :: steps[i].Publish? ==> steps[i].gatewayId != g
  }

  ghost predicate Installs(n: Network, step: Step, g: GatewayId) {
    step.Install? && step.gatewayId == g && step.delivery in n.deliveries && step.delivery.gatewayId == g
  }

  /** The delivery that `g` installed last in a run. */
  ghost function LastInstalled(digest: Digester, n: Network, steps: seq<Step>, g: GatewayId): Option<PeerDelivery>
    decreases |steps|
  {
    if steps == [] then None
    else
      var later := LastInstalled(digest, Apply(digest, n, steps[0]), steps[1..], g);
      if later.Some? then later
      else if Installs(n, steps[0], g) then Some(steps[0].delivery)
      else None
  }

  lemma StepInstallsOnlyThat(digest: Digester, n: Network, step: Step, g: GatewayId)
    ensures Installs(n, step, g) ==>
              g in Apply(digest, n, step).installed && Apply(digest, n, step).installed[g] == InstalledState(step.delivery)
    ensures !Installs(n, step, g) ==>
              (g in Apply(digest, n, step).installed <==> g in n.installed)
              && (g in n.installed ==> Apply(digest, n, step).installed[g] == n.installed[g])
    ensures n.deliveries <= Apply(digest, n, step).deliveries
  {}

  lemma {:induction false} LastInstalledIsInstalled(digest: Digester, n: Network, steps: seq<Step>, g: GatewayId)
    requires g in n.installed
    ensures var later, last := Execute(digest, n, steps), LastInstalled(digest, n, steps, g);
            g in later.installed
            && later.installed[g] == (if last.Some? then InstalledState(last.value) else n.installed[g])
            && (last.Some? ==> last.value in later.deliveries && last.value.gatewayId == g)
    decreases |steps|
  {
    if steps != [] {
      StepInstallsOnlyThat(digest, n, steps[0], g);
      LastInstalledIsInstalled(digest, Apply(digest, n, steps[0]), steps[1..], g);
      DeliveriesStay(digest, Apply(digest, n, steps[0]), steps[1..]);
    }
  }

  lemma {:induction false} DeliveriesStay(digest: Digester, n: Network, steps: seq<Step>)
    ensures n.deliveries <= Execute(digest, n, steps).deliveries
    decreases |steps|
  {
    if steps != [] {
      StepInstallsOnlyThat(digest, n, steps[0], "");
      DeliveriesStay(digest, Apply(digest, n, steps[0]), steps[1..]);
    }
  }

  /** What was published to `g` and is desired of it does not change without a publication to it. */
  lemma {:induction false} UnpublishedKeepsDesired(digest: Digester, n: Network, steps: seq<Step>, g: GatewayId)
    requires NotPublishedTo(steps, g) && g in n.desired
    ensures var later := Execute(digest, n, steps);
            g in later.desired && later.desired[g] == n.desired[g] && forall m :: (g, m) in later.published <==> (g, m) in n.published
    decreases |steps|
  {
    if steps != [] {
      Frames(digest, n, steps[0]);
      var next := Apply(digest, n, steps[0]);
      assert g in next.desired && next.desired[g] == n.desired[g];
      UnpublishedKeepsDesired(digest, next, steps[1..], g);
    }
  }

  /**
   After any run without a publication to it, a gateway that had converged is told so
   again unless the last delivery it installed meanwhile was an older manifest, which
   makes it due for the desired one, or another manifest of the desired generation,
   which makes it conflict.
  */
  lemma PollAfterConvergence(digest: Digester, n: Network, more: seq<Step>, g: GatewayId)
    requires Reachable(digest, n) && Converged(digest, n, g) && NotPublishedTo(more, g)
    ensures var later, last := Execute(digest, n, more), LastInstalled(digest, n, more, g);
            g in later.desired
            && OwnPoll(digest, later, g)
               == if last.None? || (last.value.manifest.generation == n.desired[g].generation
                                    && last.value.manifestDigest == digest(n.desired[g]))
                  then Success(None)
                  else if last.value.manifest.generation < n.desired[g].generation
                  then Success(Some(NewDelivery(digest, g, n.desired[g])))
                  else Failure(AppliedConflict)
  {
    ReachableNetworksKeepInv(digest, n);
    ExecuteKeepsInv(digest, n, more);
    UnpublishedKeepsDesired(digest, n, more, g);
    LastInstalledIsInstalled(digest, n, more, g);
    InstalledIsNotAhead(digest, Execute(digest, n, more), g);
    OwnPollIsExact(digest, Execute(digest, n, more), g);
  }

  /** With each generation stamped once, a gateway stays converged exactly while what it installed last has the desired generation. */
  lemma ConvergenceIsStable(digest: Digester, n: Network, more: seq<Step>, g: GatewayId)
    requires Reachable(digest, n) && StampedOnce(n, g) && Converged(digest, n, g) && NotPublishedTo(more, g)
    ensures var last := LastInstalled(digest, n, more, g);
            OwnPoll(digest, Execute(digest, n, more), g) == Success(None)
            <==> (last.Some? ==> last.value.manifest.generation == n.desired[g].generation)
  {
    var last := LastInstalled(digest, n, more, g);
    PollAfterConvergence(digest, n, more, g);
    if last.Some? {
      ReachableNetworksKeepInv(digest, n);
      ExecuteKeepsInv(digest, n, more);
      UnpublishedKeepsDesired(digest, n, more, g);
      LastInstalledIsInstalled(digest, n, more, g);
      IssuedOfDesiredGeneration(digest, Execute(digest, n, more), last.value);
    }
  }

  // ---------- The next publication ----------

  lemma PublishingIsCurrent(digest: Digester, n: Network, g: GatewayId, at: string)
    requires VpnPolicy.WellFormed(n.policy) && Timestamp.ValidUtcTimestamp(at)
    ensures var after := Apply(digest, n, Publish(g, at));
            g in after.desired && after.desired[g] == PeerManifest(SCHEMA_VERSION, WG_USERS, n.policy.generation, at, Content(n.policy))
            && after.policy == n.policy
  {
    VpnPolicy.ManifestIsDeliverable(n.policy, at);
    ManifestsListTheContent(n.policy, at);
  }

  /** A conflict lasts over the next publication exactly when that is again of the installed generation and not of its digest. */
  lemma ConflictLastsExactlyWhen(digest: Digester, n: Network, g: GatewayId, at: string)
    requires Reachable(digest, n) && Conflicts(digest, n, g) && Timestamp.ValidUtcTimestamp(at)
    ensures var published := PeerManifest(SCHEMA_VERSION, WG_USERS, n.policy.generation, at, Content(n.policy));
            OwnPoll(digest, Apply(digest, n, Publish(g, at)), g) == Failure(AppliedConflict)
            <==> n.policy.generation == n.installed[g].generation && digest(published) != n.installed[g].manifestDigest
  {
    assert Inv(digest, n) by {
      ReachableNetworksKeepInv(digest, n);
    }
    PublishingIsCurrent(digest, n, g, at);
    Frames(digest, n, Publish(g, at));
    ConflictAnswer(digest, n, g, at);
  }

  lemma ConflictAnswer(digest: Digester, n: Network, g: GatewayId, at: string)
    requires Inv(digest, n)
    ensures var after := Apply(digest, n, Publish(g, at));
            g in after.desired ==> (OwnPoll(digest, after, g) == Failure(AppliedConflict) <==> Conflicts(digest, after, g))
  {
    PublishKeepsInv(digest, n, g, at);
    if g in Apply(digest, n, Publish(g, at)).desired {
      OwnPollIsExact(digest, Apply(digest, n, Publish(g, at)), g);
    }
  }

  lemma FirstEnrollmentAdvances(userId: UserId, peerId: PeerId, key: PublicKey)
    ensures VpnPolicy.Perform(VpnPolicy.EMPTY_POLICY, VpnPolicy.EnrollOp(userId, peerId, key, false)).0.generation == 2
  {
    VpnPolicy.EnrollmentIsExact(VpnPolicy.EMPTY_POLICY, userId, peerId, key, false);
  }
}
