/**
 What no step ever takes back: rows stay, identities do not change, epochs only grow,
 consumption and revocation are permanent, recovery stages are written once, and the
 audit log is only appended to.
*/
module AuthMonotone {
  import opened Wrappers
  import opened AuthTables
  import opened AuthTransactions
  import opened AuthRuns

  ghost predicate Kept<T>(before: Option<T>, after: Option<T>) {
    before.Some? ==> after == before
  }

  ghost predicate UsersLater(a: map<UserId, UserRow>, b: map<UserId, UserRow>) {
    forall u | u in a :: u in b && b[u] == a[u].(authEpoch := b[u].authEpoch) && a[u].authEpoch <= b[u].authEpoch
  }

  ghost predicate CredentialsLater(a: map<CredentialId, CredentialRow>, b: map<CredentialId, CredentialRow>) {
    forall k | k in a :: k in b && b[k].id == a[k].id && b[k].userId == a[k].userId && Kept(a[k].revokedAt, b[k].revokedAt)
  }

  ghost predicate CapabilitiesLater(a: map<SecretHash, CapabilityRow>, b: map<SecretHash, CapabilityRow>) {
    forall h | h in a :: h in b && b[h] == a[h].(consumedAt := b[h].consumedAt) && Kept(a[h].consumedAt, b[h].consumedAt)
  }

  ghost predicate CeremoniesLater(a: map<Uuid, CeremonyRow>, b: map<Uuid, CeremonyRow>) {
    forall c | c in a :: c in b && b[c] == a[c].(consumedAt := b[c].consumedAt) && Kept(a[c].consumedAt, b[c].consumedAt)
  }

  ghost predicate SessionsLater(a: map<SecretHash, SessionRow>, b: map<SecretHash, SessionRow>) {
    forall h | h in a :: h in b && Kept(a[h].revokedAt, b[h].revokedAt)
      && b[h] == a[h].(csrfHash := b[h].csrfHash, idleExpiresAt := b[h].idleExpiresAt,
                       lastSeenAt := b[h].lastSeenAt, revokedAt := b[h].revokedAt)
  }

  ghost predicate RecoveriesLater(a: map<Uuid, RecoveryRow>, b: map<Uuid, RecoveryRow>) {
    forall r | r in a :: r in b && b[r].userId == a[r].userId && b[r].requestedAt == a[r].requestedAt
      && Kept(a[r].approvedAt, b[r].approvedAt) && (a[r].approvedAt.Some? ==> b[r].approvedBy == a[r].approvedBy)
      && Kept(a[r].setupIssuedAt, b[r].setupIssuedAt) && Kept(a[r].completedAt, b[r].completedAt)
  }

  ghost predicate Later(a: Db, b: Db) {
    UsersLater(a.users, b.users)
    && CredentialsLater(a.credentials, b.credentials)
    && CapabilitiesLater(a.capabilities, b.capabilities)
    && CeremoniesLater(a.ceremonies, b.ceremonies)
    && SessionsLater(a.sessions, b.sessions)
    && RecoveriesLater(a.recoveries, b.recoveries)
    && a.audit <= b.audit
  }

  lemma LaterIsReflexive(db: Db)
    ensures UsersLater(db.users, db.users) && CredentialsLater(db.credentials, db.credentials)
    ensures CapabilitiesLater(db.capabilities, db.capabilities) && CeremoniesLater(db.ceremonies, db.ceremonies)
    ensures SessionsLater(db.sessions, db.sessions) && RecoveriesLater(db.recoveries, db.recoveries)
    ensures Later(db, db)
  {}

  lemma LaterIsTransitive(a: Db, b: Db, c: Db)
    requires Later(a, b) && Later(b, c)
    ensures Later(a, c)
  {
    assert UsersLater(a.users, c.users);
    assert CredentialsLater(a.credentials, c.credentials);
    assert CapabilitiesLater(a.capabilities, c.capabilities);
    assert CeremoniesLater(a.ceremonies, c.ceremonies);
    assert SessionsLater(a.sessions, c.sessions);
    assert RecoveriesLater(a.recoveries, c.recoveries);
  }

  // ---------- Statements ----------

  lemma AuditIsLater(db: Db, event: AuditEvent, now: Time)
    ensures Later(db, Commit(db, InsertAudit(db, event, now)))
  {
    LaterIsReflexive(db);
  }

  lemma NewCapabilityIsLater(db: Db, c: Capability)
    ensures Later(db, Commit(db, InsertCapability(db, c)))
  {
    LaterIsReflexive(db);
    var after := Commit(db, InsertCapability(db, c));
    assert CapabilitiesLater(db.capabilities, after.capabilities);
  }

  lemma NewUserIsLater(db: Db, id: UserId, user: UserRow)
    requires id !in db.users
    ensures Later(db, db.(users := db.users[id := user]))
  {
    LaterIsReflexive(db);
    assert UsersLater(db.users, db.users[id := user]);
  }

  lemma NewCeremonyIsLater(db: Db, id: Uuid, row: CeremonyRow)
    ensures Later(db, Commit(db, InsertCeremony(db, id, row)))
  {
    LaterIsReflexive(db);
    var after := Commit(db, InsertCeremony(db, id, row));
    assert CeremoniesLater(db.ceremonies, after.ceremonies);
  }

  lemma ConsumedCeremonyIsLater(db: Db, id: Uuid, now: Time)
    requires id in db.ceremonies && db.ceremonies[id].consumedAt.None?
    ensures Later(db, ConsumeCeremony(db, id, now))
  {
    LaterIsReflexive(db);
    assert CeremoniesLater(db.ceremonies, ConsumeCeremony(db, id, now).ceremonies);
  }

  lemma ConsumedCapabilityIsLater(db: Db, hash: SecretHash, now: Time)
    requires hash in db.capabilities && db.capabilities[hash].consumedAt.None?
    ensures Later(db, ConsumeCapability(db, hash, now))
  {
    LaterIsReflexive(db);
    assert CapabilitiesLater(db.capabilities, ConsumeCapability(db, hash, now).capabilities);
  }

  lemma NewCredentialIsLater(db: Db, userId: UserId, credential: VerifiedCredential, rowId: Uuid, now: Time)
    ensures Later(db, Commit(db, InsertCredential(db, userId, credential, rowId, now)))
  {
    LaterIsReflexive(db);
    var after := Commit(db, InsertCredential(db, userId, credential, rowId, now));
    assert CredentialsLater(db.credentials, after.credentials);
  }

  lemma CompletionIsLater(db: Db, subject: Option<UserId>, now: Time)
    ensures Later(db, db.(recoveries := CompletedRecoveries(db.recoveries, subject, now)))
  {
    LaterIsReflexive(db);
    assert RecoveriesLater(db.recoveries, CompletedRecoveries(db.recoveries, subject, now));
  }

  lemma SessionTouchIsLater(db: Db, hash: SecretHash, row: SessionRow)
    requires hash in db.sessions && SessionsLater(map[hash := db.sessions[hash]], map[hash := row])
    ensures Later(db, db.(sessions := db.sessions[hash := row]))
  {
    LaterIsReflexive(db);
    assert hash in map[hash := db.sessions[hash]];
    assert SessionsLater(db.sessions, db.sessions[hash := row]);
  }

  lemma RecoveryStageIsLater(db: Db, id: Uuid, row: RecoveryRow)
    requires id in db.recoveries && RecoveriesLater(map[id := db.recoveries[id]], map[id := row])
    ensures Later(db, db.(recoveries := db.recoveries[id := row]))
  {
    LaterIsReflexive(db);
    assert id in map[id := db.recoveries[id]];
    assert RecoveriesLater(db.recoveries, db.recoveries[id := row]);
  }

  lemma InvalidationIsLater(db: Db, scope: Scope, now: Time)
    ensures Later(db, Commit(db, Invalidate(db, scope, now)))
  {
    LaterIsReflexive(db);
    assert UsersLater(db.users, AdvancedUsers(db.users, scope));
    assert SessionsLater(db.sessions, RevokedSessions(db.sessions, scope, now));
    assert CeremoniesLater(db.ceremonies, ConsumedCeremonies(db.ceremonies, scope, now));
    assert CapabilitiesLater(db.capabilities, ConsumedCapabilities(db.capabilities, scope, now));
  }

  // ---------- Transactions ----------

  lemma InsertUserIsLater(db: Db, id: UserId, user: UserRow, now: Time, audit: AuditEvent)
    ensures Later(db, Commit(db, InsertUser(db, id, user, now, audit)))
  {
    LaterIsReflexive(db);
    if UserInsertable(db, id, user) {
      var added := db.(users := db.users[id := user.(createdAt := now)]);
      NewUserIsLater(db, id, user.(createdAt := now));
      AuditIsLater(added, audit, now);
      LaterIsTransitive(db, added, Commit(added, InsertAudit(added, audit, now)));
    }
  }

  lemma ApproveUserIsLater(db: Db, id: UserId, user: UserRow, capability: Capability, operatorId: UserId, now: Time)
    ensures Later(db, Commit(db, ApproveUserWithSetup(db, id, user, capability, operatorId, now)))
  {
    LaterIsReflexive(db);
    if UserInsertable(db, id, user) {
      var added := db.(users := db.users[id := user.(createdAt := now)]);
      NewUserIsLater(db, id, user.(createdAt := now));
      IssueThenAuditIsLater(db, added, capability, AuditEvent("user.approved_with_setup", Some(operatorId), Some(id)), now);
    }
  }

  /** Inserting a capability and an audit row after something that is later. */
  lemma IssueThenAuditIsLater(db: Db, marked: Db, capability: Capability, event: AuditEvent, now: Time)
    requires Later(db, marked)
    ensures var issued := InsertCapability(marked, capability);
            issued.Success? ==> Later(db, Commit(issued.value, InsertAudit(issued.value, event, now)))
  {
    NewCapabilityIsLater(marked, capability);
    var issued := InsertCapability(marked, capability);
    if issued.Success? {
      AuditIsLater(issued.value, event, now);
      LaterIsTransitive(db, marked, issued.value);
      LaterIsTransitive(db, issued.value, Commit(issued.value, InsertAudit(issued.value, event, now)));
    }
  }

  lemma RotationIsLater(db: Db, now: Time)
    ensures Later(db, Commit(db, RotateAllAuthEpochs(db, now)))
  {
    LaterIsReflexive(db);
    InvalidationIsLater(db, Everyone, now);
    var rotated := Invalidate(db, Everyone, now);
    if rotated.Success? {
      var event := AuditEvent("auth.epoch_rotated_all", None, None);
      AuditIsLater(rotated.value, event, now);
      LaterIsTransitive(db, rotated.value, Commit(rotated.value, InsertAudit(rotated.value, event, now)));
    }
  }

  lemma RegistrationIsLater(db: Db, ceremonyId: Uuid, hash: Option<SecretHash>, credential: VerifiedCredential, rowId: Uuid,
                            now: Time, audit: AuditEvent)
    ensures Later(db, Commit(db, CompleteRegistration(db, ceremonyId, hash, credential, rowId, now, audit)))
  {
    LaterIsReflexive(db);
    if CompleteRegistration(db, ceremonyId, hash, credential, rowId, now, audit).Success? {
      var begun := ConsumeCeremony(db, ceremonyId, now);
      ConsumedCeremonyIsLater(db, ceremonyId, now);
      var consumed := if hash.Some? then ConsumeCapability(begun, hash.value, now) else begun;
      if hash.Some? {
        ConsumedCapabilityIsLater(begun, hash.value, now);
        LaterIsTransitive(db, begun, consumed);
      }
      var userId := db.ceremonies[ceremonyId].userId.value;
      var registered := InsertCredential(consumed, userId, credential, rowId, now).value;
      NewCredentialIsLater(consumed, userId, credential, rowId, now);
      LaterIsTransitive(db, consumed, registered);
      var completed := registered.(recoveries := CompletedRecoveries(registered.recoveries, audit.subject, now));
      CompletionIsLater(registered, audit.subject, now);
      LaterIsTransitive(db, registered, completed);
      AuditIsLater(completed, audit, now);
      LaterIsTransitive(db, completed, Commit(completed, InsertAudit(completed, audit, now)));
    }
  }

  lemma AuthenticationIsLater(db: Db, ceremonyId: Uuid, verification: AuthenticationVerification, session: SessionRecord,
                              now: Time, audit: AuditEvent)
    ensures Later(db, Commit(db, CompleteAuthentication(db, ceremonyId, verification, session, now, audit)))
  {
    LaterIsReflexive(db);
    var after := Commit(db, CompleteAuthentication(db, ceremonyId, verification, session, now, audit));
    if after != db {
      ConsumedCeremonyIsLater(db, ceremonyId, now);
      assert CredentialsLater(db.credentials, after.credentials);
      assert SessionsLater(db.sessions, after.sessions);
    }
  }

  lemma SessionIsLater(db: Db, hash: SecretHash, now: Time, idleExpiresAt: Time)
    ensures Later(db, Session(db, hash, now, idleExpiresAt).0)
  {
    LaterIsReflexive(db);
    if SessionAccepted(db, hash, now) {
      SessionTouchIsLater(db, hash, Session(db, hash, now, idleExpiresAt).0.sessions[hash]);
    }
  }

  lemma CsrfIsLater(db: Db, hash: SecretHash, csrfHash: SecretHash, now: Time, idleExpiresAt: Time)
    ensures Later(db, RotateSessionCsrf(db, hash, csrfHash, now, idleExpiresAt).0)
  {
    LaterIsReflexive(db);
    if SessionAccepted(db, hash, now) {
      SessionTouchIsLater(db, hash, RotateSessionCsrf(db, hash, csrfHash, now, idleExpiresAt).0.sessions[hash]);
    }
  }

  lemma LogoutIsLater(db: Db, hash: SecretHash, now: Time)
    ensures Later(db, DeleteSession(db, hash, now))
  {
    LaterIsReflexive(db);
    if hash in db.sessions && db.sessions[hash].revokedAt.None? {
      SessionTouchIsLater(db, hash, db.sessions[hash].(revokedAt := Some(now)));
    }
  }

  lemma RequestIsLater(db: Db, id: Uuid, userId: UserId, now: Time)
    ensures Later(db, Commit(db, CreateRecovery(db, id, userId, now)))
  {
    LaterIsReflexive(db);
    assert RecoveriesLater(db.recoveries, Commit(db, CreateRecovery(db, id, userId, now)).recoveries);
  }

  lemma ApprovalIsLater(db: Db, id: Uuid, operatorId: UserId, now: Time)
    ensures Later(db, Commit(db, ApproveRecovery(db, id, operatorId, now)))
  {
    LaterIsReflexive(db);
    if id in db.recoveries && Pending(db.recoveries[id]) && operatorId in db.users {
      var row := db.recoveries[id].(approvedAt := Some(now), approvedBy := Some(operatorId));
      var marked := db.(recoveries := db.recoveries[id := row]);
      RecoveryStageIsLater(db, id, row);
      InvalidationIsLater(marked, OneUser(row.userId), now);
      var invalidated := Invalidate(marked, OneUser(row.userId), now);
      if invalidated.Success? {
        LaterIsTransitive(db, marked, invalidated.value);
        var event := AuditEvent("recovery.approved", Some(operatorId), Some(row.userId));
        AuditIsLater(invalidated.value, event, now);
        LaterIsTransitive(db, invalidated.value, Commit(invalidated.value, InsertAudit(invalidated.value, event, now)));
      }
    }
  }

  lemma IssueIsLater(db: Db, id: Uuid, capability: Capability, operatorId: UserId, now: Time)
    ensures Later(db, Commit(db, IssueRecoverySetup(db, id, capability, operatorId, now)))
  {
    LaterIsReflexive(db);
    if id in db.recoveries && SetupIssuable(db.recoveries[id], capability.userId) {
      var row := db.recoveries[id].(setupIssuedAt := Some(now));
      RecoveryStageIsLater(db, id, row);
      IssueThenAuditIsLater(db, db.(recoveries := db.recoveries[id := row]), capability,
                            AuditEvent("recovery.setup_issued", Some(operatorId), Some(capability.userId)), now);
    }
  }

  lemma BreakGlassIsLater(db: Db, rowId: Uuid, capability: Capability, now: Time)
    ensures Later(db, Commit(db, BreakGlass(db, rowId, capability, now)))
  {
    LaterIsReflexive(db);
    var revoked := db.(credentials := RevokedCredentials(db, rowId, now));
    assert CredentialsLater(db.credentials, revoked.credentials);
    InvalidationIsLater(revoked, OneUser(capability.userId), now);
    var invalidated := Invalidate(revoked, OneUser(capability.userId), now);
    if invalidated.Success? {
      LaterIsTransitive(db, revoked, invalidated.value);
      IssueThenAuditIsLater(db, invalidated.value, capability,
                            AuditEvent("operator.break_glass_opened", None, Some(capability.userId)), now);
    }
  }

  // ---------- Runs ----------

  lemma SetupInsertIsLater(s: System, id: OpId, ceremonyId: Uuid, state: Blob)
    ensures Later(s.db, SetupInsert(s, id, ceremonyId, state).db)
  {
    LaterIsReflexive(s.db);
    if id in s.ops && s.ops[id].SetupHasUser? {
      var op := s.ops[id];
      NewCeremonyIsLater(s.db, ceremonyId, CeremonyRow(Registration, Some(op.userId), Some(op.hash), state, op.now + s.config.ceremonyTtl, None));
    }
  }

  lemma BootstrapInsertIsLater(s: System, id: OpId, ceremonyId: Uuid, state: Blob)
    ensures Later(s.db, BootstrapInsert(s, id, ceremonyId, state).db)
  {
    LaterIsReflexive(s.db);
    if id in s.ops && s.ops[id].BootstrapHasUser? {
      var op := s.ops[id];
      var kind := if op.window.Some? then CeremonyKind.OperatorRecovery else OperatorBootstrap;
      NewCeremonyIsLater(s.db, ceremonyId, CeremonyRow(kind, Some(op.userId), op.window, state, op.now + s.config.ceremonyTtl, None));
    }
  }

  lemma RegistrationCompleteIsLater(s: System, id: OpId, credential: VerifiedCredential, rowId: Uuid)
    ensures Later(s.db, RegistrationComplete(s, id, credential, rowId).db)
  {
    LaterIsReflexive(s.db);
    if id in s.ops && s.ops[id].RegistrationHasCeremony? && s.ops[id].ceremony.userId.Some? {
      var op := s.ops[id];
      var user := op.ceremony.userId;
      RegistrationIsLater(s.db, op.ceremonyId, op.ceremony.capabilityHash, credential, rowId, op.now,
                          AuditEvent("passkey.registered", user, user));
    }
  }

  lemma LoginCompleteIsLater(s: System, id: OpId, verification: AuthenticationVerification, sessionId: Uuid,
                             tokenHash: SecretHash, csrfHash: SecretHash)
    ensures Later(s.db, LoginComplete(s, id, verification, sessionId, tokenHash, csrfHash).db)
  {
    LaterIsReflexive(s.db);
    if id in s.ops && s.ops[id].LoginHasUser? {
      var op := s.ops[id];
      AuthenticationIsLater(s.db, op.ceremonyId, verification, LoginSession(s.config, op, sessionId, tokenHash, csrfHash), op.now,
                            AuditEvent("session.created", Some(op.userId), Some(op.userId)));
    }
  }

  lemma ApprovalCompleteIsLater(s: System, id: OpId, stamp: RowStamp, tokenHash: SecretHash)
    ensures Later(s.db, ApprovalComplete(s, id, stamp, tokenHash).db)
  {
    LaterIsReflexive(s.db);
    if id in s.ops && s.ops[id].ApprovalHasNoUser? {
      var op := s.ops[id];
      ApproveUserIsLater(s.db, op.userId, op.user, NewCapability(s, stamp, op.userId, Setup, tokenHash, op.now), op.operatorId, op.now);
    }
  }

  lemma SeedCompleteIsLater(s: System, id: OpId)
    ensures Later(s.db, SeedComplete(s, id).db)
  {
    LaterIsReflexive(s.db);
    if id in s.ops && s.ops[id].SeedHasNoOperator? {
      var op := s.ops[id];
      InsertUserIsLater(s.db, op.userId, op.user, op.now, AuditEvent("operator.seeded", None, Some(op.userId)));
    }
  }

  lemma RecoverySetupIssueIsLater(s: System, recoveryId: Uuid, operatorId: UserId, userId: UserId, stamp: RowStamp,
                                  tokenHash: SecretHash, now: Time)
    ensures Later(s.db, RecoverySetupIssue(s, recoveryId, operatorId, userId, stamp, tokenHash, now).db)
  {
    LaterIsReflexive(s.db);
    IssueIsLater(s.db, recoveryId, NewCapability(s, stamp, userId, RecoverySetup, tokenHash, now), operatorId, now);
  }

  lemma RecoveryApprovalIsLater(s: System, recoveryId: Uuid, operatorId: UserId, now: Time)
    ensures Later(s.db, RecoveryApproval(s, recoveryId, operatorId, now).db)
  {
    LaterIsReflexive(s.db);
    ApprovalIsLater(s.db, recoveryId, operatorId, now);
  }

  lemma GlassBreakIsLater(s: System, rowId: Uuid, userId: UserId, stamp: RowStamp, tokenHash: SecretHash, expiresAt: Time, now: Time)
    ensures Later(s.db, GlassBreak(s, rowId, userId, stamp, tokenHash, expiresAt, now).db)
  {
    LaterIsReflexive(s.db);
    BreakGlassIsLater(s.db, rowId, Capability(stamp, userId, OperatorRecoveryWindow, tokenHash, expiresAt), now);
  }

  lemma SessionStepIsLater(s: System, tokenHash: SecretHash, csrfHash: SecretHash, now: Time)
    ensures Later(s.db, CheckSession(s, tokenHash, now).db) && Later(s.db, RotateCsrf(s, tokenHash, csrfHash, now).db)
  {
    LaterIsReflexive(s.db);
    SessionIsLater(s.db, tokenHash, now, now + s.config.sessionIdleTtl);
    CsrfIsLater(s.db, tokenHash, csrfHash, now, now + s.config.sessionIdleTtl);
  }

  /** Reads leave the tables and the history alone. */
  lemma ReadsChangeNoTable(s: System, step: ReadStep)
    ensures ApplyRead(s, step).db == s.db && ApplyRead(s, step).history == s.history && ApplyRead(s, step).config == s.config
  {}

  lemma WriteIsLater(s: System, step: WriteStep)
    ensures Later(s.db, ApplyWrite(s, step).db)
  {
    match step
    case SetupInserts(op, ceremonyId, state) => SetupInsertIsLater(s, op, ceremonyId, state);
    case BootstrapInserts(op, ceremonyId, state) => BootstrapInsertIsLater(s, op, ceremonyId, state);
    case RegistrationCompletes(op, credential, rowId) => RegistrationCompleteIsLater(s, op, credential, rowId);
    case LoginStarts(ceremonyId, state, now) =>
      NewCeremonyIsLater(s.db, ceremonyId, CeremonyRow(Authentication, None, None, state, now + s.config.ceremonyTtl, None));
    case LoginCompletes(op, verification, sessionId, tokenHash, csrfHash) =>
      LoginCompleteIsLater(s, op, verification, sessionId, tokenHash, csrfHash);
    case ApprovalCompletes(op, stamp, tokenHash) => ApprovalCompleteIsLater(s, op, stamp, tokenHash);
    case SeedCompletes(op) => SeedCompleteIsLater(s, op);
  }

  lemma AtomicIsLater(s: System, step: AtomicStep)
    ensures Later(s.db, ApplyAtomic(s, step).db)
  {
    match step
    case ChecksSession(tokenHash, now) => SessionStepIsLater(s, tokenHash, 0, now);
    case RotatesCsrf(tokenHash, csrfHash, now) => SessionStepIsLater(s, tokenHash, csrfHash, now);
    case LogsOut(tokenHash, now) => LogoutIsLater(s.db, tokenHash, now);
    case RequestsRecovery(recoveryId, userId, now) => RequestIsLater(s.db, recoveryId, userId, now);
    case ApprovesRecovery(recoveryId, operatorId, now) => RecoveryApprovalIsLater(s, recoveryId, operatorId, now);
    case IssuesRecoverySetup(recoveryId, operatorId, userId, stamp, tokenHash, now) =>
      RecoverySetupIssueIsLater(s, recoveryId, operatorId, userId, stamp, tokenHash, now);
    case BreaksGlass(rowId, userId, stamp, tokenHash, expiresAt, now) =>
      GlassBreakIsLater(s, rowId, userId, stamp, tokenHash, expiresAt, now);
    case RotatesAll(now) => RotationIsLater(s.db, now);
  }

  /** Every step only moves the tables forward. */
  lemma ApplyIsLater(s: System, step: Step)
    ensures Later(s.db, Apply(s, step).db)
  {
    match step
    case Reads(read) =>
      ReadsChangeNoTable(s, read);
      LaterIsReflexive(s.db);
    case Writes(write) => WriteIsLater(s, write);
    case Transacts(atomic) => AtomicIsLater(s, atomic);
  }

  /** And so does every run, from any state whatever. */
  lemma {:induction false} ExecuteIsLater(s: System, steps: seq<Step>)
    ensures Later(s.db, Execute(s, steps).db)
    decreases |steps|
  {
    LaterIsReflexive(s.db);
    if steps != [] {
      var next := Apply(s, steps[0]);
      ApplyIsLater(s, steps[0]);
      ExecuteIsLater(next, steps[1..]);
      LaterIsTransitive(s.db, next.db, Execute(s, steps).db);
    }
  }
}
