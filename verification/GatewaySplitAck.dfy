/**
 The protocol when `acknowledge` is two steps: reading and matching the desired manifest,
 then recording it. Any number of acknowledgements may be between their two steps, in any
 order, beside every step of `GatewayProtocol`, whole acknowledgements included.
*/
module GatewaySplitAck {
  import opened Wrappers
  import opened VpnPeers
  import opened Contract
  import opened GatewaySync
  import P = GatewayProtocol
  import VpnPolicy
  import Timestamp

  // ---------- The two halves ----------

  /** The first half of `acknowledge`: the manifest it holds when the acknowledgement matches. */
  function ReadForAck(digest: Digester, desired: DesiredTable, ack: GatewayAcknowledgement): Option<PeerManifest> {
    if AcknowledgeAnswer(digest, desired, ack).Success? then Some(desired[ack.gatewayId]) else None
  }

  /** The second half: what it records. */
  function RecordApplied(digest: Digester, applied: AppliedTable, g: GatewayId, manifest: PeerManifest): AppliedTable {
    applied[g := (manifest, digest(manifest))]
  }

  /** An acknowledgement between its halves. */
  datatype Held = Held(gatewayId: GatewayId, manifest: PeerManifest)

  datatype Split = Split(n: P.Network, held: map<nat, Held>, nextAck: nat)

  const SPLIT_START := Split(P.START, map[], 0)

  datatype Step =
    | Protocol(step: P.Step)
    | AckReads(ack: GatewayAcknowledgement)
    | AckRecords(id: nat)

  ghost function Apply(digest: Digester, s: Split, step: Step): Split {
    match step
    case Protocol(step) => s.(n := P.Apply(digest, s.n, step))
    case AckReads(ack) =>
      var read := ReadForAck(digest, s.n.desired, ack);
      s.(held := if read.Some? then s.held[s.nextAck := Held(ack.gatewayId, read.value)] else s.held, nextAck := s.nextAck + 1)
    case AckRecords(id) =>
      if id in s.held then
        s.(n := s.n.(applied := RecordApplied(digest, s.n.applied, s.held[id].gatewayId, s.held[id].manifest)), held := s.held - {id})
      else s
  }

  ghost function Execute(digest: Digester, s: Split, steps: seq<Step>): Split
    decreases |steps|
  {
    if steps == [] then s else Execute(digest, Apply(digest, s, steps[0]), steps[1..])
  }

  // ---------- What every schedule keeps ----------

  ghost predicate HeldPublished(held: map<nat, Held>, published: P.Published) {
    forall i | i in held :: (held[i].gatewayId, held[i].manifest) in published
  }

  ghost predicate Inv(digest: Digester, s: Split) {
    P.Inv(digest, s.n) && HeldPublished(s.held, s.n.published) && forall i | i in s.held :: i < s.nextAck
  }

  lemma PublishedStays(digest: Digester, n: P.Network, step: P.Step)
    ensures n.published <= P.Apply(digest, n, step).published
  {}

  lemma RecordKeepsInv(digest: Digester, s: Split, id: nat)
    requires Inv(digest, s)
    ensures Inv(digest, Apply(digest, s, AckRecords(id)))
  {
    if id in s.held {
      assert P.AppliedArePublished(digest, s.n.published, Apply(digest, s, AckRecords(id)).n.applied);
    }
  }

  lemma ReadKeepsInv(digest: Digester, s: Split, ack: GatewayAcknowledgement)
    requires Inv(digest, s)
    ensures Inv(digest, Apply(digest, s, AckReads(ack)))
  {
    ReadIsPublished(digest, s, ack);
    assert Apply(digest, s, AckReads(ack)).n == s.n;
  }

  lemma ReadIsPublished(digest: Digester, s: Split, ack: GatewayAcknowledgement)
    requires P.DesiredIsNewest(s.n.published, s.n.desired) && HeldPublished(s.held, s.n.published)
    requires forall i | i in s.held :: i < s.nextAck
    ensures var after := Apply(digest, s, AckReads(ack));
            HeldPublished(after.held, s.n.published) && forall i | i in after.held :: i < after.nextAck
  {}

  lemma ApplyKeepsInv(digest: Digester, s: Split, step: Step)
    requires Inv(digest, s)
    ensures Inv(digest, Apply(digest, s, step))
  {
    match step
    case Protocol(step) =>
      P.ApplyKeepsInv(digest, s.n, step);
      PublishedStays(digest, s.n, step);
    case AckReads(ack) => ReadKeepsInv(digest, s, ack);
    case AckRecords(id) => RecordKeepsInv(digest, s, id);
  }

  lemma {:induction false} ExecuteKeepsInv(digest: Digester, s: Split, steps: seq<Step>)
    requires Inv(digest, s)
    ensures Inv(digest, Execute(digest, s, steps))
    decreases |steps|
  {
    if steps != [] {
      ApplyKeepsInv(digest, s, steps[0]);
      ExecuteKeepsInv(digest, Apply(digest, s, steps[0]), steps[1..]);
    }
  }

  ghost predicate Reachable(digest: Digester, s: Split) {
    exists steps :: Execute(digest, SPLIT_START, steps) == s
  }

  lemma ReachableKeepsInv(digest: Digester, s: Split)
    requires Reachable(digest, s)
    ensures Inv(digest, s)
  {
    var steps :| Execute(digest, SPLIT_START, steps) == s;
    ExecuteKeepsInv(digest, SPLIT_START, steps);
  }

  // ---------- Theorems over every schedule ----------

  /** Nothing in between, the halves are the operation. */
  lemma HalvesAreTheOperation(digest: Digester, s: Split, ack: GatewayAcknowledgement)
    requires Reachable(digest, s)
    ensures Apply(digest, Apply(digest, s, AckReads(ack)), AckRecords(s.nextAck)).n == Apply(digest, s, Protocol(P.ReceiveAck(ack))).n
  {
    ReachableKeepsInv(digest, s);
  }

  /** However the halves interleave, the recorded generation never passes the desired one. */
  lemma RecordedNeverPassesDesired(digest: Digester, s: Split, g: GatewayId)
    requires Reachable(digest, s) && g in s.n.applied
    ensures g in s.n.desired && s.n.applied[g].0.generation <= s.n.desired[g].generation
  {
    ReachableKeepsInv(digest, s);
    P.RecordedIsAtMostDesired(digest, s.n, g);
  }

  /** The step records for `g` a manifest older than the recorded one. */
  ghost predicate StaleRecord(s: Split, step: Step, g: GatewayId) {
    step.AckRecords? && step.id in s.held && s.held[step.id].gatewayId == g
    && g in s.n.applied && s.held[step.id].manifest.generation < s.n.applied[g].0.generation
  }

  ghost predicate Lowers(digest: Digester, s: Split, step: Step, g: GatewayId) {
    g in s.n.applied
    && (g !in Apply(digest, s, step).n.applied || Apply(digest, s, step).n.applied[g].0.generation < s.n.applied[g].0.generation)
  }

  /** In every run, a step lowers the recorded generation exactly when it records a held manifest older than the recorded one. */
  lemma StepLowersExactlyWhenStale(digest: Digester, s: Split, step: Step, g: GatewayId)
    requires Reachable(digest, s)
    ensures Lowers(digest, s, step, g) <==> StaleRecord(s, step, g)
  {
    ReachableKeepsInv(digest, s);
    InvariantStepLowersExactlyWhenStale(digest, s, step, g);
  }

  lemma InvariantStepLowersExactlyWhenStale(digest: Digester, s: Split, step: Step, g: GatewayId)
    requires Inv(digest, s)
    ensures Lowers(digest, s, step, g) <==> StaleRecord(s, step, g)
  {
    if step.Protocol? && g in s.n.applied {
      P.StepIsMonotone(digest, s.n, step.step, g);
    }
  }

  ghost predicate SomeStepLowers(digest: Digester, s: Split, steps: seq<Step>, g: GatewayId)
    decreases |steps|
  {
    steps != [] && (Lowers(digest, s, steps[0], g) || SomeStepLowers(digest, Apply(digest, s, steps[0]), steps[1..], g))
  }

  ghost predicate SomeRecordIsStale(digest: Digester, s: Split, steps: seq<Step>, g: GatewayId)
    decreases |steps|
  {
    steps != [] && (StaleRecord(s, steps[0], g) || SomeRecordIsStale(digest, Apply(digest, s, steps[0]), steps[1..], g))
  }

  lemma {:induction false} RunLowersExactlyWhen(digest: Digester, s: Split, steps: seq<Step>, g: GatewayId)
    requires Inv(digest, s)
    ensures SomeStepLowers(digest, s, steps, g) <==> SomeRecordIsStale(digest, s, steps, g)
    decreases |steps|
  {
    if steps != [] {
      InvariantStepLowersExactlyWhenStale(digest, s, steps[0], g);
      ApplyKeepsInv(digest, s, steps[0]);
      RunLowersExactlyWhen(digest, Apply(digest, s, steps[0]), steps[1..], g);
    }
  }

  /** A run is monotone exactly when it never records a held manifest older than the recorded one. */
  lemma MonotoneExactlyWithoutStaleRecords(digest: Digester, steps: seq<Step>, g: GatewayId)
    ensures SomeStepLowers(digest, SPLIT_START, steps, g) <==> SomeRecordIsStale(digest, SPLIT_START, steps, g)
  {
    RunLowersExactlyWhen(digest, SPLIT_START, steps, g);
  }

  // ---------- Acknowledgements of a gateway that take turns ----------

  ghost predicate HeldFor(held: map<nat, Held>, i: nat, g: GatewayId) {
    i in held && held[i].gatewayId == g
  }

  /** The step starts an acknowledgement of `g`. */
  predicate Starts(step: Step, g: GatewayId) {
    match step
    case AckReads(ack) => ack.gatewayId == g
    case Protocol(ReceiveAck(ack)) => ack.gatewayId == g
    case _ => false
  }

  /** No acknowledgement of `g` starts while another is between its halves. */
  ghost predicate AcksTakeTurns(digest: Digester, s: Split, steps: seq<Step>, g: GatewayId)
    decreases |steps|
  {
    steps != [] ==>
      (Starts(steps[0], g) ==> forall i :: !HeldFor(s.held, i, g))
      && AcksTakeTurns(digest, Apply(digest, s, steps[0]), steps[1..], g)
  }

  /** One acknowledgement of `g` at most is between its halves, and what it holds is not older than what is recorded. */
  ghost predicate OneCurrent(s: Split, g: GatewayId) {
    (forall i, j | HeldFor(s.held, i, g) && HeldFor(s.held, j, g) :: i == j)
    && forall i | HeldFor(s.held, i, g) && g in s.n.applied :: s.n.applied[g].0.generation <= s.held[i].manifest.generation
  }

  lemma TurnKeepsOneCurrent(digest: Digester, s: Split, step: Step, g: GatewayId)
    requires Inv(digest, s) && OneCurrent(s, g) && (Starts(step, g) ==> forall i :: !HeldFor(s.held, i, g))
    ensures OneCurrent(Apply(digest, s, step), g) && !StaleRecord(s, step, g)
  {
    match step
    case Protocol(step) => ProtocolKeepsOneCurrent(digest, s, step, g);
    case AckReads(ack) => ReadKeepsOneCurrent(digest, s, ack, g);
    case AckRecords(id) => RecordKeepsOneCurrent(digest, s, id, g);
  }

  lemma ProtocolKeepsOneCurrent(digest: Digester, s: Split, step: P.Step, g: GatewayId)
    requires OneCurrent(s, g) && (Starts(Protocol(step), g) ==> forall i :: !HeldFor(s.held, i, g))
    ensures OneCurrent(Apply(digest, s, Protocol(step)), g)
  {
    P.Frames(digest, s.n, step);
  }

  lemma ReadKeepsOneCurrent(digest: Digester, s: Split, ack: GatewayAcknowledgement, g: GatewayId)
    requires P.Inv(digest, s.n) && OneCurrent(s, g) && (ack.gatewayId == g ==> forall i :: !HeldFor(s.held, i, g))
    requires forall i | i in s.held :: i < s.nextAck
    ensures OneCurrent(Apply(digest, s, AckReads(ack)), g)
  {
    P.RecordedIsAtMostDesired(digest, s.n, g);
    var after := Apply(digest, s, AckReads(ack));
    assert after.n == s.n;
    assert forall i | HeldFor(after.held, i, g) :: HeldFor(s.held, i, g) || (i == s.nextAck && ack.gatewayId == g);
  }

  lemma RecordKeepsOneCurrent(digest: Digester, s: Split, id: nat, g: GatewayId)
    requires OneCurrent(s, g)
    ensures OneCurrent(Apply(digest, s, AckRecords(id)), g)
  {
    var after := Apply(digest, s, AckRecords(id));
    assert forall i | HeldFor(after.held, i, g) :: HeldFor(s.held, i, g) && (id in s.held ==> i != id);
    if HeldFor(s.held, id, g) {
      assert forall i :: !HeldFor(after.held, i, g);
    }
  }

  lemma {:induction false} TurnsAreNeverStale(digest: Digester, s: Split, steps: seq<Step>, g: GatewayId)
    requires Inv(digest, s) && OneCurrent(s, g) && AcksTakeTurns(digest, s, steps, g)
    ensures !SomeRecordIsStale(digest, s, steps, g)
    decreases |steps|
  {
    if steps != [] {
      TurnKeepsOneCurrent(digest, s, steps[0], g);
      ApplyKeepsInv(digest, s, steps[0]);
      TurnsAreNeverStale(digest, Apply(digest, s, steps[0]), steps[1..], g);
    }
  }

  /** If acknowledgements of a gateway take turns, no step of the run lowers its recorded generation. */
  lemma TurnsAreMonotone(digest: Digester, steps: seq<Step>, g: GatewayId)
    requires AcksTakeTurns(digest, SPLIT_START, steps, g)
    ensures !SomeStepLowers(digest, SPLIT_START, steps, g)
  {
    TurnsAreNeverStale(digest, SPLIT_START, steps, g);
    RunLowersExactlyWhen(digest, SPLIT_START, steps, g);
  }

  // ---------- A run that falls ----------

  lemma {:induction false} ExecuteConcatenates(digest: Digester, s: Split, first: seq<Step>, second: seq<Step>)
    ensures Execute(digest, s, first + second) == Execute(digest, Execute(digest, s, first), second)
    decreases |first|
  {
    if first == [] {
      assert first + second == second;
    } else {
      assert (first + second)[1..] == first[1..] + second;
      ExecuteConcatenates(digest, Apply(digest, s, first[0]), first[1..], second);
    }
  }

  lemma ThreeSteps(digest: Digester, s: Split, a: Step, b: Step, c: Step)
    ensures Execute(digest, s, [a, b, c]) == Apply(digest, Apply(digest, Apply(digest, s, a), b), c)
  {
    assert [a, b, c][1..] == [b, c] && [b, c][1..] == [c] && [c][1..] == [];
    var first := Apply(digest, s, a);
    var second := Apply(digest, first, b);
    assert Execute(digest, s, [a, b, c]) == Execute(digest, first, [b, c]);
    assert Execute(digest, first, [b, c]) == Execute(digest, second, [c]);
    assert Execute(digest, second, [c]) == Execute(digest, Apply(digest, second, c), []);
  }

  /** The manifest of the policy with one peer, enrolled first. */
  ghost function SecondManifest(at: string, op: VpnPolicy.PolicyOp): PeerManifest {
    PeerManifest(SCHEMA_VERSION, WG_USERS, 2, at, P.Content(VpnPolicy.Perform(VpnPolicy.EMPTY_POLICY, op).0))
  }

  /** The empty policy is published and its acknowledgement reads; a peer is enrolled and published. */
  function FirstHalf(digest: Digester, g: GatewayId, at: string, op: VpnPolicy.PolicyOp): seq<Step> {
    [Protocol(P.Publish(g, at)), AckReads(Applied(NewDelivery(digest, g, P.StampedManifest(at)))), Protocol(P.ChangePolicy(op))]
  }

  /** The new manifest is published, acknowledged and recorded; last the first acknowledgement records what it read. */
  ghost function SecondHalf(digest: Digester, g: GatewayId, at: string, op: VpnPolicy.PolicyOp): seq<Step> {
    [Protocol(P.Publish(g, at)), AckReads(Applied(NewDelivery(digest, g, SecondManifest(at, op)))), AckRecords(1)]
  }

  ghost predicate FirstIsHeld(s: Split, g: GatewayId, at: string, op: VpnPolicy.PolicyOp) {
    s.n.policy == VpnPolicy.Perform(VpnPolicy.EMPTY_POLICY, op).0
    && s.held == map[0 := Held(g, P.StampedManifest(at))] && s.nextAck == 1
  }

  lemma FirstHalfHolds(digest: Digester, g: GatewayId, at: string, op: VpnPolicy.PolicyOp)
    requires Timestamp.ValidUtcTimestamp(at)
    ensures FirstIsHeld(Execute(digest, SPLIT_START, FirstHalf(digest, g, at, op)), g, at, op)
  {
    var run := FirstHalf(digest, g, at, op);
    ThreeSteps(digest, SPLIT_START, run[0], run[1], run[2]);
    P.EmptyPolicyManifest(at);
  }

  lemma SecondIsRead(digest: Digester, s: Split, g: GatewayId, at: string, op: VpnPolicy.PolicyOp)
    requires Timestamp.ValidUtcTimestamp(at) && FirstIsHeld(s, g, at, op)
    requires VpnPolicy.WellFormed(s.n.policy) && s.n.policy.generation == 2
    ensures var run := SecondHalf(digest, g, at, op);
            var read := Apply(digest, Apply(digest, s, run[0]), run[1]);
            read.held == map[0 := Held(g, P.StampedManifest(at)), 1 := Held(g, SecondManifest(at, op))]
  {
    P.PublishingIsCurrent(digest, s.n, g, at);
    AcknowledgingReads(digest, Apply(digest, s, Protocol(P.Publish(g, at))), g);
  }

  lemma AcknowledgingReads(digest: Digester, s: Split, g: GatewayId)
    requires g in s.n.desired
    ensures Apply(digest, s, AckReads(Applied(NewDelivery(digest, g, s.n.desired[g])))).held
         == s.held[s.nextAck := Held(g, s.n.desired[g])]
  {}

  lemma RecordingHeld(digest: Digester, s: Split, id: nat)
    requires id in s.held
    ensures var after := Apply(digest, s, AckRecords(id));
            after.held == s.held - {id} && s.held[id].gatewayId in after.n.applied
            && after.n.applied[s.held[id].gatewayId].0 == s.held[id].manifest
  {}

  lemma SecondHalfRecords(digest: Digester, s: Split, g: GatewayId, at: string, op: VpnPolicy.PolicyOp)
    requires Timestamp.ValidUtcTimestamp(at) && FirstIsHeld(s, g, at, op)
    requires VpnPolicy.WellFormed(s.n.policy) && s.n.policy.generation == 2
    ensures var after := Execute(digest, s, SecondHalf(digest, g, at, op));
            g in after.n.applied && after.n.applied[g].0.generation == 2
            && after.held == map[0 := Held(g, P.StampedManifest(at))]
  {
    var run := SecondHalf(digest, g, at, op);
    ThreeSteps(digest, s, run[0], run[1], run[2]);
    SecondIsRead(digest, s, g, at, op);
    SecondIsRecorded(digest, Apply(digest, Apply(digest, s, run[0]), run[1]), g, P.StampedManifest(at), SecondManifest(at, op));
  }

  lemma SecondIsRecorded(digest: Digester, s: Split, g: GatewayId, first: PeerManifest, second: PeerManifest)
    requires s.held == map[0 := Held(g, first), 1 := Held(g, second)]
    ensures var after := Apply(digest, s, AckRecords(1));
            g in after.n.applied && after.n.applied[g].0 == second && after.held == map[0 := Held(g, first)]
  {
    RecordingHeld(digest, s, 1);
  }

  /** From the start, enrolling any first peer between two acknowledgements of one gateway can lower its recorded generation from 2 to 1. */
  lemma FallingRun(digest: Digester, g: GatewayId, at: string, userId: UserId, peerId: PeerId, key: PublicKey)
    requires Timestamp.ValidUtcTimestamp(at)
    ensures var op := VpnPolicy.EnrollOp(userId, peerId, key, false);
            var s := Execute(digest, SPLIT_START, FirstHalf(digest, g, at, op) + SecondHalf(digest, g, at, op));
            0 in s.held && g in s.n.applied && s.n.applied[g].0.generation == 2
            && Lowers(digest, s, AckRecords(0), g)
  {
    var op := VpnPolicy.EnrollOp(userId, peerId, key, false);
    ExecuteConcatenates(digest, SPLIT_START, FirstHalf(digest, g, at, op), SecondHalf(digest, g, at, op));
    FirstHalfHolds(digest, g, at, op);
    P.FirstEnrollmentAdvances(userId, peerId, key);
    VpnPolicy.PerformKeepsWellFormed(VpnPolicy.EMPTY_POLICY, op);
    var first := Execute(digest, SPLIT_START, FirstHalf(digest, g, at, op));
    SecondHalfRecords(digest, first, g, at, op);
    RecordingHeld(digest, Execute(digest, first, SecondHalf(digest, g, at, op)), 0);
  }
}
