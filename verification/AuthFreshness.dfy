/**
 Capabilities are fresh and recoveries are traced. In every run an unconsumed
 capability was issued in its user's current epoch; recovery-setup capabilities and
 issued recovery requests correspond one to one; and each approval gave its user an
 epoch of its own, which no later capability precedes.
*/
module AuthFreshness {
  import opened Wrappers
  import opened AuthTables
  import opened AuthTransactions
  import opened AuthRuns
  import opened AuthMonotone
  import opened AuthInvariant

  type Issues = map<SecretHash, Issue>
  type Approvals = map<Uuid, int>

  /** Issued in an epoch its user has reached, and in the current one while unconsumed. */
  ghost predicate CapabilityFresh(db: Db, k: CapabilityRow, i: Issue) {
    k.userId in db.users && i.authEpoch <= db.users[k.userId].authEpoch
    && (k.consumedAt.None? ==> i.authEpoch == db.users[k.userId].authEpoch)
  }

  ghost predicate CapabilitiesFresh(db: Db, issued: Issues) {
    issued.Keys == db.capabilities.Keys
    && forall h | h in db.capabilities :: CapabilityFresh(db, db.capabilities[h], issued[h])
  }

  /** A recovery-setup capability was issued for an issued request of its user, no earlier than its approval. */
  ghost predicate BackedByRecovery(db: Db, approvals: Approvals, k: CapabilityRow, i: Issue) {
    (k.purpose == RecoverySetup <==> i.recovery.Some?)
    && (i.recovery.Some? ==>
          i.recovery.value in db.recoveries && db.recoveries[i.recovery.value].userId == k.userId
          && db.recoveries[i.recovery.value].setupIssuedAt.Some?
          && i.recovery.value in approvals && approvals[i.recovery.value] <= i.authEpoch)
  }

  ghost predicate SetupsBacked(db: Db, issued: Issues, approvals: Approvals) {
    issued.Keys == db.capabilities.Keys
    && forall h | h in db.capabilities :: BackedByRecovery(db, approvals, db.capabilities[h], issued[h])
  }

  /** No request was issued two capabilities. */
  ghost predicate IssuesDistinct(issued: Issues) {
    forall g, h | g in issued && h in issued && g != h :: issued[g].recovery.Some? ==> issued[g].recovery != issued[h].recovery
  }

  /** Every issued request was issued a capability. */
  ghost predicate IssuesCovered(db: Db, issued: Issues) {
    forall r | r in db.recoveries && db.recoveries[r].setupIssuedAt.Some? :: exists h :: h in issued && issued[h].recovery == Some(r)
  }

  ghost predicate EpochsPositive(db: Db) {
    forall u | u in db.users :: db.users[u].authEpoch > 0
  }

  /** An approval epoch was reached by advancing: it is not the initial one, and no two approvals of a user share one. */
  ghost predicate ApprovalsOk(db: Db, approvals: Approvals) {
    (forall r | r in db.recoveries :: r in approvals <==> db.recoveries[r].approvedAt.Some?)
    && (forall r | r in approvals ::
          r in db.recoveries && db.recoveries[r].userId in db.users
          && 1 < approvals[r] <= db.users[db.recoveries[r].userId].authEpoch)
    && forall q, r | q in approvals && r in approvals && q != r && db.recoveries[q].userId == db.recoveries[r].userId ::
         approvals[q] != approvals[r]
  }

  ghost predicate Fresh(db: Db, issued: Issues, approvals: Approvals) {
    CapabilitiesFresh(db, issued) && SetupsBacked(db, issued, approvals) && IssuesDistinct(issued)
    && IssuesCovered(db, issued) && EpochsPositive(db) && ApprovalsOk(db, approvals)
  }

  ghost predicate Freshness(s: System) {
    Fresh(s.db, s.history.issued, s.history.approvals)
  }

  // ---------- What keeps freshness ----------

  /** An epoch advances only together with consumption of its user's capabilities. */
  ghost predicate Unraced(a: Db, b: Db) {
    forall h | h in a.capabilities && h in b.capabilities && b.capabilities[h].consumedAt.None? && b.capabilities[h].userId in a.users ::
      b.capabilities[h].userId in b.users
      && b.users[b.capabilities[h].userId].authEpoch == a.users[b.capabilities[h].userId].authEpoch
  }

  /** No request is approved or issued. */
  ghost predicate SameStages(a: map<Uuid, RecoveryRow>, b: map<Uuid, RecoveryRow>) {
    forall r | r in b ::
      if r in a then b[r].approvedAt == a[r].approvedAt && b[r].setupIssuedAt == a[r].setupIssuedAt
      else b[r].approvedAt.None? && b[r].setupIssuedAt.None?
  }

  ghost predicate NewUsersPositive(a: Db, b: Db) {
    forall u | u in b.users && u !in a.users :: b.users[u].authEpoch > 0
  }

  ghost predicate Calm(a: Db, b: Db) {
    Unraced(a, b) && SameStages(a.recoveries, b.recoveries) && NewUsersPositive(a, b)
  }

  lemma OldCapabilitiesStayFresh(a: Db, b: Db, issued: Issues)
    requires Later(a, b) && Unraced(a, b) && CapabilitiesFresh(a, issued)
    ensures forall h | h in a.capabilities :: CapabilityFresh(b, b.capabilities[h], issued[h])
  {}

  lemma OldSetupsStayBacked(a: Db, b: Db, issued: Issues, approvals: Approvals, more: Approvals)
    requires Later(a, b) && SetupsBacked(a, issued, approvals)
    requires forall r | r in approvals :: r in more && more[r] == approvals[r]
    ensures forall h | h in a.capabilities :: BackedByRecovery(b, more, b.capabilities[h], issued[h])
  {}

  lemma ApprovalsStayOk(a: Db, b: Db, approvals: Approvals)
    requires Later(a, b) && SameStages(a.recoveries, b.recoveries) && ApprovalsOk(a, approvals)
    ensures ApprovalsOk(b, approvals)
  {
    assert forall r | r in b.recoveries :: r in a.recoveries || b.recoveries[r].approvedAt.None?;
  }

  lemma EpochsStayPositive(a: Db, b: Db)
    requires Later(a, b) && NewUsersPositive(a, b) && EpochsPositive(a)
    ensures EpochsPositive(b)
  {
    assert forall u | u in b.users :: u in a.users || b.users[u].authEpoch > 0;
  }

  lemma CalmKeepsFreshness(a: Db, b: Db, issued: Issues, approvals: Approvals)
    requires Later(a, b) && Calm(a, b) && Fresh(a, issued, approvals) && b.capabilities.Keys == a.capabilities.Keys
    ensures Fresh(b, issued, approvals)
  {
    OldCapabilitiesStayFresh(a, b, issued);
    OldSetupsStayBacked(a, b, issued, approvals, approvals);
    ApprovalsStayOk(a, b, approvals);
    EpochsStayPositive(a, b);
    assert forall h | h in b.capabilities :: h in a.capabilities.Keys;
    assert IssuesCovered(b, issued);
  }

  /** Between these tables one capability was inserted. */
  ghost predicate Adds(a: Db, b: Db, h: SecretHash) {
    h !in a.capabilities && h in b.capabilities && forall g | g in b.capabilities :: g in a.capabilities || g == h
  }

  lemma AddedCapabilityIsFresh(a: Db, b: Db, issued: Issues, h: SecretHash, issue: Issue)
    requires Later(a, b) && Unraced(a, b) && CapabilitiesFresh(a, issued) && Adds(a, b, h)
    requires CapabilityFresh(b, b.capabilities[h], issue)
    ensures CapabilitiesFresh(b, issued[h := issue])
  {
    OldCapabilitiesStayFresh(a, b, issued);
  }

  lemma AddedSetupIsBacked(a: Db, b: Db, issued: Issues, approvals: Approvals, h: SecretHash, issue: Issue)
    requires Later(a, b) && SetupsBacked(a, issued, approvals) && Adds(a, b, h)
    requires BackedByRecovery(b, approvals, b.capabilities[h], issue)
    ensures SetupsBacked(b, issued[h := issue], approvals)
  {
    OldSetupsStayBacked(a, b, issued, approvals, approvals);
  }

  lemma AddedIssueIsDistinct(db: Db, issued: Issues, approvals: Approvals, h: SecretHash, issue: Issue)
    requires SetupsBacked(db, issued, approvals) && IssuesDistinct(issued) && h !in issued
    requires issue.recovery.Some? ==>
               issue.recovery.value in db.recoveries && db.recoveries[issue.recovery.value].setupIssuedAt.None?
    ensures IssuesDistinct(issued[h := issue])
  {
    forall g | g in issued
      ensures issue.recovery.Some? ==> issued[g].recovery != issue.recovery
    {
      assert BackedByRecovery(db, approvals, db.capabilities[g], issued[g]);
    }
  }

  /** A capability for anything but a recovery is inserted in its user's current epoch. */
  lemma IssueKeepsFreshness(a: Db, b: Db, issued: Issues, approvals: Approvals, h: SecretHash, issue: Issue)
    requires Later(a, b) && Calm(a, b) && Fresh(a, issued, approvals) && Adds(a, b, h)
    requires CapabilityFresh(b, b.capabilities[h], issue) && b.capabilities[h].purpose != RecoverySetup && issue.recovery.None?
    ensures Fresh(b, issued[h := issue], approvals)
  {
    AddedCapabilityIsFresh(a, b, issued, h, issue);
    AddedSetupIsBacked(a, b, issued, approvals, h, issue);
    AddedIssueIsDistinct(a, issued, approvals, h, issue);
    CoverageSurvives(a, b, issued, h, issue);
    ApprovalsStayOk(a, b, approvals);
    EpochsStayPositive(a, b);
  }

  lemma CoverageSurvives(a: Db, b: Db, issued: Issues, h: SecretHash, issue: Issue)
    requires SameStages(a.recoveries, b.recoveries) && IssuesCovered(a, issued) && h !in issued
    ensures IssuesCovered(b, issued[h := issue])
  {
    var more := issued[h := issue];
    forall r | r in b.recoveries && b.recoveries[r].setupIssuedAt.Some?
      ensures exists g :: g in more && more[g].recovery == Some(r)
    {
      var g :| g in issued && issued[g].recovery == Some(r);
      assert more[g].recovery == Some(r);
    }
  }

  // ---------- Steps that issue and approve nothing ----------

  ghost predicate NothingIssued(s: System, after: System) {
    Calm(s.db, after.db) && after.db.capabilities.Keys == s.db.capabilities.Keys
    && after.history.issued == s.history.issued && after.history.approvals == s.history.approvals
  }

  lemma RegistrationIssuesNothing(s: System, id: OpId, credential: VerifiedCredential, rowId: Uuid)
    ensures NothingIssued(s, RegistrationComplete(s, id, credential, rowId))
  {
    if id in s.ops && s.ops[id].RegistrationHasCeremony? && s.ops[id].ceremony.userId.Some?
       && RegistrationTx(s, s.ops[id], credential, rowId).Success? {
      var op := s.ops[id];
      var user := op.ceremony.userId;
      RegistrationEffect(s.db, op.ceremonyId, op.ceremony.capabilityHash, credential, rowId, op.now,
                         AuditEvent("passkey.registered", user, user));
    }
  }

  lemma LoginIssuesNothing(s: System, id: OpId, verification: AuthenticationVerification, sessionId: Uuid,
                           tokenHash: SecretHash, csrfHash: SecretHash)
    ensures NothingIssued(s, LoginComplete(s, id, verification, sessionId, tokenHash, csrfHash))
  {
    if id in s.ops && s.ops[id].LoginHasUser? {
      var op := s.ops[id];
      var session := LoginSession(s.config, op, sessionId, tokenHash, csrfHash);
      if LoginTx(s, op, verification, session).Success? {
        AuthenticationEffect(s.db, op.ceremonyId, verification, session, op.now,
                             AuditEvent("session.created", Some(op.userId), Some(op.userId)));
      }
    }
  }

  lemma WriteIssuesNothing(s: System, step: WriteStep)
    requires !step.ApprovalCompletes?
    ensures NothingIssued(s, ApplyWrite(s, step))
  {
    match step
    case RegistrationCompletes(id, credential, rowId) => RegistrationIssuesNothing(s, id, credential, rowId);
    case LoginCompletes(id, verification, sessionId, tokenHash, csrfHash) =>
      LoginIssuesNothing(s, id, verification, sessionId, tokenHash, csrfHash);
    case _ =>
  }

  /** Every epoch advances, and every capability is consumed with it. */
  lemma RotationIssuesNothing(s: System, now: Time)
    ensures NothingIssued(s, Rotation(s, now))
  {
    if RotateAllAuthEpochs(s.db, now).Success? {
      RotationEffect(s.db, now);
    }
  }

  // ---------- Steps that issue ----------

  lemma ApprovalStepKeepsFreshness(s: System, id: OpId, stamp: RowStamp, tokenHash: SecretHash)
    requires Freshness(s)
    ensures Freshness(ApprovalComplete(s, id, stamp, tokenHash))
  {
    if id in s.ops && s.ops[id].ApprovalHasNoUser? {
      var op := s.ops[id];
      var c := NewCapability(s, stamp, op.userId, Setup, tokenHash, op.now);
      var tx := ApproveUserWithSetup(s.db, op.userId, op.user, c, op.operatorId, op.now);
      if tx.Success? {
        ApproveUserEffect(s.db, op.userId, op.user, c, op.operatorId, op.now);
        ApproveUserIsLater(s.db, op.userId, op.user, c, op.operatorId, op.now);
        IssueKeepsFreshness(s.db, tx.value, s.history.issued, s.history.approvals, tokenHash,
                            Issue(EpochOf(tx.value, op.userId), None));
      }
    }
  }

  /** The user's epoch advances and their capabilities are consumed; nobody else is affected. */
  lemma BreakGlassIsCalm(db: Db, rowId: Uuid, c: Capability, now: Time)
    requires BreakGlass(db, rowId, c, now).Success?
    ensures Calm(db, BreakGlass(db, rowId, c, now).value) && Adds(db, BreakGlass(db, rowId, c, now).value, c.tokenHash)
  {
    BreakGlassEffect(db, rowId, c, now);
  }

  lemma GlassBreakKeepsFreshness(s: System, rowId: Uuid, userId: UserId, stamp: RowStamp, tokenHash: SecretHash,
                                 expiresAt: Time, now: Time)
    requires Freshness(s)
    ensures Freshness(GlassBreak(s, rowId, userId, stamp, tokenHash, expiresAt, now))
  {
    var c := Capability(stamp, userId, OperatorRecoveryWindow, tokenHash, expiresAt);
    var tx := BreakGlass(s.db, rowId, c, now);
    if tx.Success? {
      BreakGlassEffect(s.db, rowId, c, now);
      BreakGlassIsCalm(s.db, rowId, c, now);
      BreakGlassIsLater(s.db, rowId, c, now);
      IssueKeepsFreshness(s.db, tx.value, s.history.issued, s.history.approvals, tokenHash,
                          Issue(EpochOf(tx.value, userId), None));
    }
  }

  // ---------- Issuing a recovery setup ----------

  lemma RecoveryIssueKeepsSetups(db: Db, issued: Issues, approvals: Approvals, id: Uuid, c: Capability, operatorId: UserId, now: Time)
    requires CapabilitiesFresh(db, issued) && SetupsBacked(db, issued, approvals) && ApprovalsOk(db, approvals)
    requires c.purpose == RecoverySetup && IssueRecoverySetup(db, id, c, operatorId, now).Success?
    ensures var after := IssueRecoverySetup(db, id, c, operatorId, now).value;
            var issue := Issue(EpochOf(after, c.userId), Some(id));
            CapabilitiesFresh(after, issued[c.tokenHash := issue]) && SetupsBacked(after, issued[c.tokenHash := issue], approvals)
  {
    IssueEffect(db, id, c, operatorId, now);
    IssueIsLater(db, id, c, operatorId, now);
    var after := IssueRecoverySetup(db, id, c, operatorId, now).value;
    var issue := Issue(EpochOf(after, c.userId), Some(id));
    AddedCapabilityIsFresh(db, after, issued, c.tokenHash, issue);
    assert approvals[id] <= issue.authEpoch;
    AddedSetupIsBacked(db, after, issued, approvals, c.tokenHash, issue);
  }

  lemma RecoveryIssueKeepsCoverage(db: Db, issued: Issues, id: Uuid, c: Capability, operatorId: UserId, now: Time, issue: Issue)
    requires IssuesCovered(db, issued) && issued.Keys == db.capabilities.Keys && issue.recovery == Some(id)
    requires IssueRecoverySetup(db, id, c, operatorId, now).Success?
    ensures IssuesCovered(IssueRecoverySetup(db, id, c, operatorId, now).value, issued[c.tokenHash := issue])
  {
    IssueEffect(db, id, c, operatorId, now);
    var after := IssueRecoverySetup(db, id, c, operatorId, now).value;
    var more := issued[c.tokenHash := issue];
    forall r | r in after.recoveries && after.recoveries[r].setupIssuedAt.Some?
      ensures exists g :: g in more && more[g].recovery == Some(r)
    {
      if r == id {
        assert more[c.tokenHash].recovery == Some(r);
      } else {
        var g :| g in issued && issued[g].recovery == Some(r);
        assert more[g].recovery == Some(r);
      }
    }
  }

  lemma RecoveryIssueKeepsApprovals(db: Db, approvals: Approvals, id: Uuid, c: Capability, operatorId: UserId, now: Time)
    requires ApprovalsOk(db, approvals) && IssueRecoverySetup(db, id, c, operatorId, now).Success?
    ensures ApprovalsOk(IssueRecoverySetup(db, id, c, operatorId, now).value, approvals)
  {
    IssueEffect(db, id, c, operatorId, now);
  }

  lemma RecoverySetupIssueKeepsFreshness(s: System, recoveryId: Uuid, operatorId: UserId, userId: UserId, stamp: RowStamp,
                                         tokenHash: SecretHash, now: Time)
    requires Freshness(s)
    ensures Freshness(RecoverySetupIssue(s, recoveryId, operatorId, userId, stamp, tokenHash, now))
  {
    var c := NewCapability(s, stamp, userId, RecoverySetup, tokenHash, now);
    var tx := IssueRecoverySetup(s.db, recoveryId, c, operatorId, now);
    if tx.Success? {
      var issue := Issue(EpochOf(tx.value, userId), Some(recoveryId));
      IssueEffect(s.db, recoveryId, c, operatorId, now);
      AddedIssueIsDistinct(s.db, s.history.issued, s.history.approvals, tokenHash, issue);
      RecoveryIssueKeepsSetups(s.db, s.history.issued, s.history.approvals, recoveryId, c, operatorId, now);
      RecoveryIssueKeepsCoverage(s.db, s.history.issued, recoveryId, c, operatorId, now, issue);
      RecoveryIssueKeepsApprovals(s.db, s.history.approvals, recoveryId, c, operatorId, now);
    }
  }

  // ---------- Approving a recovery ----------

  lemma AddedApprovalIsOk(a: Db, b: Db, approvals: Approvals, id: Uuid, epoch: int)
    requires Later(a, b) && ApprovalsOk(a, approvals) && id in a.recoveries && id !in approvals && b.recoveries[id].approvedAt.Some?
    requires forall r | r in b.recoveries && r != id :: r in a.recoveries && b.recoveries[r] == a.recoveries[r]
    requires a.recoveries[id].userId in a.users && 1 < epoch
    requires a.users[a.recoveries[id].userId].authEpoch < epoch <= b.users[a.recoveries[id].userId].authEpoch
    ensures ApprovalsOk(b, approvals[id := epoch])
  {}

  /** The approval's epoch is one more than the user's epoch before it, so no earlier approval has it. */
  lemma NewApprovalIsOk(db: Db, approvals: Approvals, id: Uuid, operatorId: UserId, now: Time)
    requires ApprovalsOk(db, approvals) && EpochsPositive(db) && RecoveriesOk(db) && ApproveRecovery(db, id, operatorId, now).Success?
    ensures var after := ApproveRecovery(db, id, operatorId, now).value;
            id !in approvals
            && EpochOf(after, db.recoveries[id].userId) == EpochOf(db, db.recoveries[id].userId) + 1
            && ApprovalsOk(after, approvals[id := EpochOf(after, db.recoveries[id].userId)])
  {
    ApprovalEffect(db, id, operatorId, now);
    ApprovalIsLater(db, id, operatorId, now);
    var after := ApproveRecovery(db, id, operatorId, now).value;
    AddedApprovalIsOk(db, after, approvals, id, EpochOf(after, db.recoveries[id].userId));
  }

  lemma ApprovalKeepsCapabilities(db: Db, issued: Issues, id: Uuid, operatorId: UserId, now: Time)
    requires CapabilitiesFresh(db, issued) && ApproveRecovery(db, id, operatorId, now).Success?
    ensures CapabilitiesFresh(ApproveRecovery(db, id, operatorId, now).value, issued)
  {
    ApprovalEffect(db, id, operatorId, now);
  }

  lemma ApprovalKeepsSetups(db: Db, issued: Issues, approvals: Approvals, id: Uuid, operatorId: UserId, now: Time, epoch: int)
    requires SetupsBacked(db, issued, approvals) && id !in approvals && ApproveRecovery(db, id, operatorId, now).Success?
    ensures SetupsBacked(ApproveRecovery(db, id, operatorId, now).value, issued, approvals[id := epoch])
  {
    ApprovalEffect(db, id, operatorId, now);
    ApprovalIsLater(db, id, operatorId, now);
    var after := ApproveRecovery(db, id, operatorId, now).value;
    OldSetupsStayBacked(db, after, issued, approvals, approvals[id := epoch]);
    assert forall h | h in after.capabilities :: h in db.capabilities.Keys;
  }

  lemma ApprovalKeepsCoverage(db: Db, issued: Issues, id: Uuid, operatorId: UserId, now: Time)
    requires IssuesCovered(db, issued) && EpochsPositive(db) && ApproveRecovery(db, id, operatorId, now).Success?
    ensures var after := ApproveRecovery(db, id, operatorId, now).value;
            IssuesCovered(after, issued) && EpochsPositive(after)
  {
    ApprovalEffect(db, id, operatorId, now);
  }

  lemma RecoveryApprovalKeepsFreshness(s: System, recoveryId: Uuid, operatorId: UserId, now: Time)
    requires RecoveriesOk(s.db) && Freshness(s)
    ensures Freshness(RecoveryApproval(s, recoveryId, operatorId, now))
  {
    var tx := ApproveRecovery(s.db, recoveryId, operatorId, now);
    if tx.Success? {
      NewApprovalIsOk(s.db, s.history.approvals, recoveryId, operatorId, now);
      ApprovalKeepsCapabilities(s.db, s.history.issued, recoveryId, operatorId, now);
      ApprovalKeepsSetups(s.db, s.history.issued, s.history.approvals, recoveryId, operatorId, now,
                          EpochOf(tx.value, s.db.recoveries[recoveryId].userId));
      ApprovalKeepsCoverage(s.db, s.history.issued, recoveryId, operatorId, now);
    }
  }

  // ---------- Runs ----------

  lemma WriteKeepsFreshness(s: System, step: WriteStep)
    requires Freshness(s)
    ensures Freshness(ApplyWrite(s, step))
  {
    match step
    case ApprovalCompletes(id, stamp, tokenHash) => ApprovalStepKeepsFreshness(s, id, stamp, tokenHash);
    case _ =>
      WriteIssuesNothing(s, step);
      WriteIsLater(s, step);
      CalmKeepsFreshness(s.db, ApplyWrite(s, step).db, s.history.issued, s.history.approvals);
  }

  lemma AtomicKeepsFreshness(s: System, step: AtomicStep)
    requires RecoveriesOk(s.db) && Freshness(s)
    ensures Freshness(ApplyAtomic(s, step))
  {
    match step
    case ApprovesRecovery(recoveryId, operatorId, now) => RecoveryApprovalKeepsFreshness(s, recoveryId, operatorId, now);
    case IssuesRecoverySetup(recoveryId, operatorId, userId, stamp, tokenHash, now) =>
      RecoverySetupIssueKeepsFreshness(s, recoveryId, operatorId, userId, stamp, tokenHash, now);
    case BreaksGlass(rowId, userId, stamp, tokenHash, expiresAt, now) =>
      GlassBreakKeepsFreshness(s, rowId, userId, stamp, tokenHash, expiresAt, now);
    case _ =>
      AtomicIssuesNothing(s, step);
      AtomicIsLater(s, step);
      CalmKeepsFreshness(s.db, ApplyAtomic(s, step).db, s.history.issued, s.history.approvals);
  }

  lemma AtomicIssuesNothing(s: System, step: AtomicStep)
    requires !step.ApprovesRecovery? && !step.IssuesRecoverySetup? && !step.BreaksGlass?
    ensures NothingIssued(s, ApplyAtomic(s, step))
  {
    match step
    case RotatesAll(now) => RotationIssuesNothing(s, now);
    case _ =>
  }

  lemma ApplyKeepsFreshness(s: System, step: Step)
    requires RecoveriesOk(s.db) && Freshness(s)
    ensures Freshness(Apply(s, step))
  {
    match step
    case Reads(read) => ReadsChangeNoTable(s, read);
    case Writes(write) => WriteKeepsFreshness(s, write);
    case Transacts(atomic) => AtomicKeepsFreshness(s, atomic);
  }

  lemma {:induction false} ExecuteKeepsFreshness(s: System, steps: seq<Step>)
    requires Inv(s) && Freshness(s)
    ensures Inv(Execute(s, steps)) && Freshness(Execute(s, steps))
    decreases |steps|
  {
    if steps != [] {
      ApplyKeepsInv(s, steps[0]);
      ApplyKeepsFreshness(s, steps[0]);
      ExecuteKeepsFreshness(Apply(s, steps[0]), steps[1..]);
    }
  }

  // ---------- Theorems over all runs ----------

  /** An unconsumed capability was issued in the epoch its user is still in. */
  lemma CapabilitiesAreFresh(config: AuthConfig, steps: seq<Step>, hash: SecretHash)
    requires var s := Execute(Start(config), steps); hash in s.db.capabilities && s.db.capabilities[hash].consumedAt.None?
    ensures var s := Execute(Start(config), steps);
            hash in s.history.issued && s.history.issued[hash].authEpoch == EpochOf(s.db, s.db.capabilities[hash].userId)
  {
    ExecuteKeepsFreshness(Start(config), steps);
  }

  /** The stages of a request in the tables: entered in order, one pending request a user. */
  ghost predicate StagesInOrder(db: Db) {
    (forall r | r in db.recoveries :: var row := db.recoveries[r];
       (row.completedAt.Some? ==> row.setupIssuedAt.Some?) && (row.setupIssuedAt.Some? ==> row.approvedAt.Some?))
    && forall q, r | q in db.recoveries && r in db.recoveries && Pending(db.recoveries[q]) && Pending(db.recoveries[r])
                     && db.recoveries[q].userId == db.recoveries[r].userId :: q == r
  }

  /**
   The life of recovery requests: stages come in order, a user has one pending request
   at most, recovery-setup capabilities and issued requests correspond one to one, for
   the same user and after the approval, and a stage once entered is never entered again.
  */
  lemma RecoveryLifecycle(config: AuthConfig, steps: seq<Step>, more: seq<Step>)
    ensures var s := Execute(Start(config), steps);
            StagesInOrder(s.db) && ApprovalsOk(s.db, s.history.approvals)
            && SetupsBacked(s.db, s.history.issued, s.history.approvals)
            && IssuesDistinct(s.history.issued) && IssuesCovered(s.db, s.history.issued)
    ensures var s := Execute(Start(config), steps);
            RecoveriesLater(s.db.recoveries, Execute(s, more).db.recoveries)
  {
    ExecuteKeepsFreshness(Start(config), steps);
    ExecuteIsLater(Execute(Start(config), steps), more);
  }
}
