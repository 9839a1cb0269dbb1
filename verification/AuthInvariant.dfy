/**
 What every run keeps about the tables and about operations in flight: references
 resolve, ceremonies match the capability they were started from, session epochs do
 not pass their user's epoch, recovery stages are entered in order.
*/
module AuthInvariant {
  import opened Wrappers
  import opened AuthTables
  import opened AuthTransactions
  import opened AuthRuns
  import opened AuthMonotone

  // ---------- Effects of committed transactions ----------

  lemma RegistrationEffect(db: Db, ceremonyId: Uuid, hash: Option<SecretHash>, credential: VerifiedCredential, rowId: Uuid,
                           now: Time, audit: AuditEvent)
    requires CompleteRegistration(db, ceremonyId, hash, credential, rowId, now, audit).Success?
    ensures var after := CompleteRegistration(db, ceremonyId, hash, credential, rowId, now, audit).value;
            ceremonyId in db.ceremonies && db.ceremonies[ceremonyId].consumedAt.None? && db.ceremonies[ceremonyId].userId.Some?
            && (db.ceremonies[ceremonyId].kind == OperatorBootstrap ==> !OperatorCredentialExists(db))
            && (hash.Some? ==> HashConsumable(db, hash.value, now))
            && CredentialInsertable(db, credential.credentialId, rowId)
            && db.ceremonies[ceremonyId].userId.value in db.users
            && after.users == db.users && after.sessions == db.sessions
            && after.credentials == db.credentials[credential.credentialId :=
                 CredentialRow(rowId, db.ceremonies[ceremonyId].userId.value, credential.publicData, now, None, None)]
            && after.ceremonies == ConsumeCeremony(db, ceremonyId, now).ceremonies
            && after.capabilities == (if hash.Some? then ConsumeCapability(db, hash.value, now).capabilities else db.capabilities)
            && after.recoveries == CompletedRecoveries(db.recoveries, audit.subject, now)
  {}

  lemma AuthenticationEffect(db: Db, ceremonyId: Uuid, verification: AuthenticationVerification, session: SessionRecord,
                             now: Time, audit: AuditEvent)
    requires CompleteAuthentication(db, ceremonyId, verification, session, now, audit).Success?
    ensures var after := CompleteAuthentication(db, ceremonyId, verification, session, now, audit).value;
            CeremonyUsable(db, ceremonyId, Authentication, now)
            && CredentialUsable(db, verification.credentialId, session.userId)
            && SessionInsertable(db, session)
            && after.users == db.users && after.capabilities == db.capabilities && after.recoveries == db.recoveries
            && after.ceremonies == ConsumeCeremony(db, ceremonyId, now).ceremonies
            && after.credentials == db.credentials[verification.credentialId :=
                 db.credentials[verification.credentialId].(publicData := verification.updatedPublicData, lastUsedAt := Some(now))]
            && after.sessions == db.sessions[session.tokenHash :=
                 SessionRow(session.id, session.userId, session.csrfHash, session.authEpoch, session.idleExpiresAt,
                            session.absoluteExpiresAt, now, now, None)]
  {}

  ghost predicate Invalidated(db: Db, after: Db, scope: Scope, now: Time) {
    after.users == AdvancedUsers(db.users, scope)
    && after.sessions == RevokedSessions(db.sessions, scope, now)
    && after.ceremonies == ConsumedCeremonies(db.ceremonies, scope, now)
  }

  lemma ApprovalEffect(db: Db, id: Uuid, operatorId: UserId, now: Time)
    requires ApproveRecovery(db, id, operatorId, now).Success?
    ensures var after := ApproveRecovery(db, id, operatorId, now).value;
            id in db.recoveries && Pending(db.recoveries[id])
            && Invalidated(db, after, OneUser(db.recoveries[id].userId), now)
            && after.credentials == db.credentials
            && after.capabilities == ConsumedCapabilities(db.capabilities, OneUser(db.recoveries[id].userId), now)
            && after.recoveries == db.recoveries[id := db.recoveries[id].(approvedAt := Some(now), approvedBy := Some(operatorId))]
  {}

  lemma RotationEffect(db: Db, now: Time)
    requires RotateAllAuthEpochs(db, now).Success?
    ensures var after := RotateAllAuthEpochs(db, now).value;
            Invalidated(db, after, Everyone, now)
            && after.credentials == db.credentials && after.recoveries == db.recoveries
            && after.capabilities == ConsumedCapabilities(db.capabilities, Everyone, now)
  {}

  lemma BreakGlassEffect(db: Db, rowId: Uuid, c: Capability, now: Time)
    requires BreakGlass(db, rowId, c, now).Success?
    ensures var after := BreakGlass(db, rowId, c, now).value;
            (exists k | k in db.credentials :: BreakGlassTarget(db, k, rowId) && db.credentials[k].userId == c.userId)
            && Invalidated(db, after, OneUser(c.userId), now)
            && after.credentials == RevokedCredentials(db, rowId, now) && after.recoveries == db.recoveries
            && c.userId in db.users && c.tokenHash !in db.capabilities
            && after.capabilities == ConsumedCapabilities(db.capabilities, OneUser(c.userId), now)[c.tokenHash :=
                 c.Row()]
  {}

  lemma IssueEffect(db: Db, id: Uuid, c: Capability, operatorId: UserId, now: Time)
    requires IssueRecoverySetup(db, id, c, operatorId, now).Success?
    ensures var after := IssueRecoverySetup(db, id, c, operatorId, now).value;
            id in db.recoveries && SetupIssuable(db.recoveries[id], c.userId)
            && c.userId in db.users && c.tokenHash !in db.capabilities
            && after.users == db.users && after.sessions == db.sessions && after.ceremonies == db.ceremonies
            && after.credentials == db.credentials
            && after.recoveries == db.recoveries[id := db.recoveries[id].(setupIssuedAt := Some(now))]
            && after.capabilities == db.capabilities[c.tokenHash := c.Row()]
  {}

  lemma ApproveUserEffect(db: Db, id: UserId, user: UserRow, c: Capability, operatorId: UserId, now: Time)
    requires ApproveUserWithSetup(db, id, user, c, operatorId, now).Success?
    ensures var after := ApproveUserWithSetup(db, id, user, c, operatorId, now).value;
            UserInsertable(db, id, user) && c.tokenHash !in db.capabilities && c.userId in after.users
            && after.users == db.users[id := user.(createdAt := now)] && after.sessions == db.sessions && after.ceremonies == db.ceremonies
            && after.credentials == db.credentials && after.recoveries == db.recoveries
            && after.capabilities == db.capabilities[c.tokenHash := c.Row()]
  {}

  // ---------- The invariant of the tables ----------

  /** A ceremony row agrees with the user and capability it was started from. */
  ghost predicate CeremonyOk(db: Db, c: CeremonyRow) {
    if c.kind == Authentication then c.userId.None? && c.capabilityHash.None?
    else
      c.userId.Some? && c.userId.value in db.users
      && (c.kind == OperatorBootstrap ==> c.capabilityHash.None? && IsOperator(db, c.userId.value))
      && (c.kind != OperatorBootstrap ==> c.capabilityHash.Some?)
      && (c.capabilityHash.Some? ==>
            c.capabilityHash.value in db.capabilities && db.capabilities[c.capabilityHash.value].userId == c.userId.value)
  }

  ghost predicate CeremoniesOk(db: Db) {
    forall c | c in db.ceremonies :: CeremonyOk(db, db.ceremonies[c])
  }

  ghost predicate SessionsOk(db: Db) {
    forall h | h in db.sessions ::
      db.sessions[h].userId in db.users && db.sessions[h].authEpoch <= db.users[db.sessions[h].userId].authEpoch
  }

  ghost predicate OwnersOk(db: Db) {
    (forall h | h in db.capabilities :: db.capabilities[h].userId in db.users)
    && (forall k | k in db.credentials :: db.credentials[k].userId in db.users)
    && UniqueCredentialRows(db)
  }

  /** Recovery stages are entered in order, and a user has one pending request at most. */
  ghost predicate RecoveriesOk(db: Db) {
    (forall r | r in db.recoveries ::
       db.recoveries[r].userId in db.users
       && (db.recoveries[r].completedAt.Some? ==> db.recoveries[r].setupIssuedAt.Some?)
       && (db.recoveries[r].setupIssuedAt.Some? ==> db.recoveries[r].approvedAt.Some?))
    && forall q, r | q in db.recoveries && r in db.recoveries && q != r && Pending(db.recoveries[q]) && Pending(db.recoveries[r]) ::
         db.recoveries[q].userId != db.recoveries[r].userId
  }

  ghost predicate TablesOk(db: Db) {
    UniqueUsers(db) && CeremoniesOk(db) && SessionsOk(db) && OwnersOk(db) && RecoveriesOk(db)
  }

  /** What an operation in flight holds still agrees with the tables, except for what may have been invalidated. */
  ghost predicate OpOk(db: Db, op: Op) {
    match op
    case SetupHasCapability(hash, userId, _) => hash in db.capabilities && db.capabilities[hash].userId == userId
    case SetupHasUser(hash, userId, _) =>
      hash in db.capabilities && db.capabilities[hash].userId == userId && userId in db.users
    case BootstrapHasUser(userId, window, _) =>
      IsOperator(db, userId)
      && (window.Some? ==> window.value in db.capabilities && db.capabilities[window.value].userId == userId)
    case RegistrationHasCeremony(id, ceremony, _) =>
      id in db.ceremonies && db.ceremonies[id] == ceremony.(consumedAt := db.ceremonies[id].consumedAt)
    case LoginHasUser(_, userId, authEpoch, _) => userId in db.users && authEpoch <= db.users[userId].authEpoch
    case _ => true
  }

  ghost predicate OpsOk(s: System) {
    forall id | id in s.ops :: id < s.nextOp && OpOk(s.db, s.ops[id])
  }

  ghost predicate Inv(s: System) {
    TablesOk(s.db) && OpsOk(s)
  }

  // ---------- What stays true when the tables move forward ----------

  lemma CeremonyStaysOk(a: Db, b: Db, c: CeremonyRow)
    requires Later(a, b) && CeremonyOk(a, c)
    ensures CeremonyOk(b, c)
  {}

  lemma OpStaysOk(a: Db, b: Db, op: Op)
    requires Later(a, b) && OpOk(a, op)
    ensures OpOk(b, op)
  {}

  lemma CeremoniesStayOk(a: Db, b: Db)
    requires Later(a, b) && CeremoniesOk(a) && b.ceremonies.Keys == a.ceremonies.Keys
    ensures CeremoniesOk(b)
  {
    forall c | c in b.ceremonies
      ensures CeremonyOk(b, b.ceremonies[c])
    {
      assert c in a.ceremonies.Keys;
      CeremonyStaysOk(a, b, a.ceremonies[c]);
    }
  }

  lemma SessionsStayOk(a: Db, b: Db)
    requires Later(a, b) && SessionsOk(a) && b.sessions.Keys == a.sessions.Keys
    ensures SessionsOk(b)
  {
    forall h | h in b.sessions
      ensures b.sessions[h].userId in b.users && b.sessions[h].authEpoch <= b.users[b.sessions[h].userId].authEpoch
    {
      assert h in a.sessions.Keys;
    }
  }

  lemma UsersStayUnique(a: Db, b: Db)
    requires Later(a, b) && UniqueUsers(a) && b.users.Keys == a.users.Keys
    ensures UniqueUsers(b)
  {
    assert forall u | u in b.users :: u in a.users.Keys;
  }

  lemma OwnersStayOk(a: Db, b: Db)
    requires Later(a, b) && OwnersOk(a)
    requires b.capabilities.Keys == a.capabilities.Keys && b.credentials.Keys == a.credentials.Keys
    ensures OwnersOk(b)
  {
    assert forall h | h in b.capabilities :: h in a.capabilities.Keys;
    assert forall k | k in b.credentials :: k in a.credentials.Keys;
  }

  lemma RecoveriesStayOk(a: Db, b: Db)
    requires Later(a, b) && RecoveriesOk(a) && b.recoveries == a.recoveries
    ensures RecoveriesOk(b)
  {}

  // ---------- Transactions keep the tables ----------

  lemma NewCeremonyStaysOk(db: Db, id: Uuid, row: CeremonyRow)
    requires CeremoniesOk(db) && CeremonyOk(db, row)
    ensures CeremoniesOk(db.(ceremonies := db.ceremonies[id := row]))
  {
    var after := db.(ceremonies := db.ceremonies[id := row]);
    forall c | c in after.ceremonies
      ensures CeremonyOk(after, after.ceremonies[c])
    {
      assert after.ceremonies[c] == row || (c in db.ceremonies && after.ceremonies[c] == db.ceremonies[c]);
    }
  }

  lemma InsertCeremonyKeepsTables(db: Db, id: Uuid, row: CeremonyRow)
    requires TablesOk(db) && CeremonyOk(db, row)
    ensures TablesOk(Commit(db, InsertCeremony(db, id, row)))
  {
    if InsertCeremony(db, id, row).Success? {
      var after := db.(ceremonies := db.ceremonies[id := row]);
      NewCeremonyStaysOk(db, id, row);
      NewCeremonyIsLater(db, id, row);
      SessionsStayOk(db, after);
      OwnersStayOk(db, after);
      RecoveriesStayOk(db, after);
    }
  }

  lemma CompletionKeepsRecoveries(db: Db, after: Db, subject: Option<UserId>, now: Time)
    requires RecoveriesOk(db) && after.users == db.users && after.recoveries == CompletedRecoveries(db.recoveries, subject, now)
    ensures RecoveriesOk(after)
  {}

  lemma NewCredentialKeepsOwners(db: Db, after: Db, k: CredentialId, row: CredentialRow)
    requires OwnersOk(db) && Later(db, after) && CredentialInsertable(db, k, row.id) && row.userId in db.users
    requires after.credentials == db.credentials[k := row] && after.capabilities.Keys == db.capabilities.Keys
    ensures OwnersOk(after)
  {
    assert forall h | h in after.capabilities :: h in db.capabilities.Keys;
  }

  lemma RegistrationKeepsTables(db: Db, ceremonyId: Uuid, hash: Option<SecretHash>, credential: VerifiedCredential, rowId: Uuid,
                                now: Time, audit: AuditEvent)
    requires TablesOk(db)
    ensures TablesOk(Commit(db, CompleteRegistration(db, ceremonyId, hash, credential, rowId, now, audit)))
  {
    var tx := CompleteRegistration(db, ceremonyId, hash, credential, rowId, now, audit);
    if tx.Success? {
      RegistrationEffect(db, ceremonyId, hash, credential, rowId, now, audit);
      RegistrationIsLater(db, ceremonyId, hash, credential, rowId, now, audit);
      UsersStayUnique(db, tx.value);
      CeremoniesStayOk(db, tx.value);
      SessionsStayOk(db, tx.value);
      NewCredentialKeepsOwners(db, tx.value, credential.credentialId, tx.value.credentials[credential.credentialId]);
      CompletionKeepsRecoveries(db, tx.value, audit.subject, now);
    }
  }

  lemma AuthenticationKeepsTables(db: Db, ceremonyId: Uuid, verification: AuthenticationVerification, session: SessionRecord,
                                  now: Time, audit: AuditEvent)
    requires TablesOk(db) && session.userId in db.users && session.authEpoch <= db.users[session.userId].authEpoch
    ensures TablesOk(Commit(db, CompleteAuthentication(db, ceremonyId, verification, session, now, audit)))
  {
    var tx := CompleteAuthentication(db, ceremonyId, verification, session, now, audit);
    if tx.Success? {
      AuthenticationEffect(db, ceremonyId, verification, session, now, audit);
      AuthenticationIsLater(db, ceremonyId, verification, session, now, audit);
      UsersStayUnique(db, tx.value);
      CeremoniesStayOk(db, tx.value);
      OwnersStayOk(db, tx.value);
      RecoveriesStayOk(db, tx.value);
    }
  }

  lemma NewUserStaysUnique(db: Db, after: Db, id: UserId, user: UserRow)
    requires UniqueUsers(db) && UserInsertable(db, id, user) && after.users == db.users[id := user]
    ensures UniqueUsers(after)
  {}

  lemma ApproveUserKeepsTables(db: Db, id: UserId, user: UserRow, c: Capability, operatorId: UserId, now: Time)
    requires TablesOk(db)
    ensures TablesOk(Commit(db, ApproveUserWithSetup(db, id, user, c, operatorId, now)))
  {
    var tx := ApproveUserWithSetup(db, id, user, c, operatorId, now);
    if tx.Success? {
      ApproveUserEffect(db, id, user, c, operatorId, now);
      ApproveUserIsLater(db, id, user, c, operatorId, now);
      NewUserStaysUnique(db, tx.value, id, user.(createdAt := now));
      CeremoniesStayOk(db, tx.value);
      SessionsStayOk(db, tx.value);
      RecoveriesStayOk(db, tx.value);
    }
  }

  lemma InsertUserKeepsTables(db: Db, id: UserId, user: UserRow, now: Time, audit: AuditEvent)
    requires TablesOk(db)
    ensures TablesOk(Commit(db, InsertUser(db, id, user, now, audit)))
  {
    var tx := InsertUser(db, id, user, now, audit);
    if tx.Success? {
      InsertUserIsLater(db, id, user, now, audit);
      NewUserStaysUnique(db, tx.value, id, user.(createdAt := now));
      CeremoniesStayOk(db, tx.value);
      SessionsStayOk(db, tx.value);
      OwnersStayOk(db, tx.value);
      RecoveriesStayOk(db, tx.value);
    }
  }

  lemma SessionUseKeepsTables(db: Db, after: Db)
    requires TablesOk(db) && Later(db, after) && after == db.(sessions := after.sessions) && after.sessions.Keys == db.sessions.Keys
    ensures TablesOk(after)
  {
    UsersStayUnique(db, after);
    CeremoniesStayOk(db, after);
    SessionsStayOk(db, after);
    OwnersStayOk(db, after);
    RecoveriesStayOk(db, after);
  }

  lemma NewRequestStaysOk(db: Db, id: Uuid, userId: UserId, now: Time)
    requires RecoveriesOk(db) && CreateRecovery(db, id, userId, now).Success?
    ensures RecoveriesOk(CreateRecovery(db, id, userId, now).value)
  {}

  lemma RequestKeepsTables(db: Db, id: Uuid, userId: UserId, now: Time)
    requires TablesOk(db)
    ensures TablesOk(Commit(db, CreateRecovery(db, id, userId, now)))
  {
    var tx := CreateRecovery(db, id, userId, now);
    if tx.Success? {
      NewRequestStaysOk(db, id, userId, now);
      RequestIsLater(db, id, userId, now);
      UsersStayUnique(db, tx.value);
      CeremoniesStayOk(db, tx.value);
      SessionsStayOk(db, tx.value);
      OwnersStayOk(db, tx.value);
    }
  }

  lemma ApprovalKeepsTables(db: Db, id: Uuid, operatorId: UserId, now: Time)
    requires TablesOk(db)
    ensures TablesOk(Commit(db, ApproveRecovery(db, id, operatorId, now)))
  {
    var tx := ApproveRecovery(db, id, operatorId, now);
    if tx.Success? {
      ApprovalEffect(db, id, operatorId, now);
      ApprovalIsLater(db, id, operatorId, now);
      UsersStayUnique(db, tx.value);
      CeremoniesStayOk(db, tx.value);
      SessionsStayOk(db, tx.value);
      OwnersStayOk(db, tx.value);
      assert RecoveriesOk(tx.value);
    }
  }

  lemma RotationKeepsTables(db: Db, now: Time)
    requires TablesOk(db)
    ensures TablesOk(Commit(db, RotateAllAuthEpochs(db, now)))
  {
    var tx := RotateAllAuthEpochs(db, now);
    if tx.Success? {
      RotationEffect(db, now);
      RotationIsLater(db, now);
      UsersStayUnique(db, tx.value);
      CeremoniesStayOk(db, tx.value);
      SessionsStayOk(db, tx.value);
      OwnersStayOk(db, tx.value);
      RecoveriesStayOk(db, tx.value);
    }
  }

  lemma NewCapabilityKeepsOwners(db: Db, after: Db, c: Capability)
    requires OwnersOk(db) && Later(db, after) && after.credentials.Keys == db.credentials.Keys
    requires after.capabilities.Keys == db.capabilities.Keys + {c.tokenHash} && c.tokenHash in after.capabilities
    requires after.capabilities[c.tokenHash].userId in after.users
    ensures OwnersOk(after)
  {
    assert forall h | h in after.capabilities :: h in db.capabilities || h == c.tokenHash;
    assert forall k | k in after.credentials :: k in db.credentials.Keys;
  }

  lemma IssueKeepsRecoveries(db: Db, id: Uuid, c: Capability, operatorId: UserId, now: Time)
    requires RecoveriesOk(db) && IssueRecoverySetup(db, id, c, operatorId, now).Success?
    ensures RecoveriesOk(IssueRecoverySetup(db, id, c, operatorId, now).value)
  {
    IssueEffect(db, id, c, operatorId, now);
  }

  lemma IssueKeepsTables(db: Db, id: Uuid, c: Capability, operatorId: UserId, now: Time)
    requires TablesOk(db)
    ensures TablesOk(Commit(db, IssueRecoverySetup(db, id, c, operatorId, now)))
  {
    var tx := IssueRecoverySetup(db, id, c, operatorId, now);
    if tx.Success? {
      IssueEffect(db, id, c, operatorId, now);
      IssueIsLater(db, id, c, operatorId, now);
      IssueKeepsRecoveries(db, id, c, operatorId, now);
      UsersStayUnique(db, tx.value);
      CeremoniesStayOk(db, tx.value);
      SessionsStayOk(db, tx.value);
      NewCapabilityKeepsOwners(db, tx.value, c);
    }
  }

  lemma BreakGlassKeepsOwners(db: Db, rowId: Uuid, c: Capability, now: Time)
    requires OwnersOk(db) && BreakGlass(db, rowId, c, now).Success?
    ensures OwnersOk(BreakGlass(db, rowId, c, now).value)
  {
    BreakGlassEffect(db, rowId, c, now);
    BreakGlassIsLater(db, rowId, c, now);
    NewCapabilityKeepsOwners(db, BreakGlass(db, rowId, c, now).value, c);
  }

  lemma BreakGlassKeepsTables(db: Db, rowId: Uuid, c: Capability, now: Time)
    requires TablesOk(db)
    ensures TablesOk(Commit(db, BreakGlass(db, rowId, c, now)))
  {
    var tx := BreakGlass(db, rowId, c, now);
    if tx.Success? {
      BreakGlassEffect(db, rowId, c, now);
      BreakGlassIsLater(db, rowId, c, now);
      UsersStayUnique(db, tx.value);
      CeremoniesStayOk(db, tx.value);
      SessionsStayOk(db, tx.value);
      BreakGlassKeepsOwners(db, rowId, c, now);
      RecoveriesStayOk(db, tx.value);
    }
  }

  // ---------- Steps keep the invariant ----------

  lemma WriteKeepsTables(s: System, step: WriteStep)
    requires Inv(s)
    ensures TablesOk(ApplyWrite(s, step).db)
  {
    match step
    case SetupInserts(id, ceremonyId, state) => SetupInsertKeepsTables(s, id, ceremonyId, state);
    case BootstrapInserts(id, ceremonyId, state) => BootstrapInsertKeepsTables(s, id, ceremonyId, state);
    case RegistrationCompletes(id, credential, rowId) => RegistrationStepKeepsTables(s, id, credential, rowId);
    case LoginStarts(ceremonyId, state, now) =>
      InsertCeremonyKeepsTables(s.db, ceremonyId, CeremonyRow(Authentication, None, None, state, now + s.config.ceremonyTtl, None));
    case LoginCompletes(id, verification, sessionId, tokenHash, csrfHash) =>
      LoginStepKeepsTables(s, id, verification, sessionId, tokenHash, csrfHash);
    case ApprovalCompletes(id, stamp, tokenHash) => ApprovalStepKeepsTables(s, id, stamp, tokenHash);
    case SeedCompletes(id) => SeedStepKeepsTables(s, id);
  }

  lemma SetupInsertKeepsTables(s: System, id: OpId, ceremonyId: Uuid, state: Blob)
    requires Inv(s)
    ensures TablesOk(SetupInsert(s, id, ceremonyId, state).db)
  {
    if id in s.ops && s.ops[id].SetupHasUser? {
      var op := s.ops[id];
      InsertCeremonyKeepsTables(s.db, ceremonyId,
        CeremonyRow(Registration, Some(op.userId), Some(op.hash), state, op.now + s.config.ceremonyTtl, None));
    }
  }

  lemma BootstrapInsertKeepsTables(s: System, id: OpId, ceremonyId: Uuid, state: Blob)
    requires Inv(s)
    ensures TablesOk(BootstrapInsert(s, id, ceremonyId, state).db)
  {
    if id in s.ops && s.ops[id].BootstrapHasUser? {
      var op := s.ops[id];
      var kind := if op.window.Some? then CeremonyKind.OperatorRecovery else OperatorBootstrap;
      InsertCeremonyKeepsTables(s.db, ceremonyId,
        CeremonyRow(kind, Some(op.userId), op.window, state, op.now + s.config.ceremonyTtl, None));
    }
  }

  lemma RegistrationStepKeepsTables(s: System, id: OpId, credential: VerifiedCredential, rowId: Uuid)
    requires Inv(s)
    ensures TablesOk(RegistrationComplete(s, id, credential, rowId).db)
  {
    if id in s.ops && s.ops[id].RegistrationHasCeremony? && s.ops[id].ceremony.userId.Some? {
      var op := s.ops[id];
      var user := op.ceremony.userId;
      RegistrationKeepsTables(s.db, op.ceremonyId, op.ceremony.capabilityHash, credential, rowId, op.now,
                              AuditEvent("passkey.registered", user, user));
    }
  }

  lemma LoginStepKeepsTables(s: System, id: OpId, verification: AuthenticationVerification, sessionId: Uuid,
                             tokenHash: SecretHash, csrfHash: SecretHash)
    requires Inv(s)
    ensures TablesOk(LoginComplete(s, id, verification, sessionId, tokenHash, csrfHash).db)
  {
    if id in s.ops && s.ops[id].LoginHasUser? {
      var op := s.ops[id];
      AuthenticationKeepsTables(s.db, op.ceremonyId, verification, LoginSession(s.config, op, sessionId, tokenHash, csrfHash),
                                op.now, AuditEvent("session.created", Some(op.userId), Some(op.userId)));
    }
  }

  lemma ApprovalStepKeepsTables(s: System, id: OpId, stamp: RowStamp, tokenHash: SecretHash)
    requires Inv(s)
    ensures TablesOk(ApprovalComplete(s, id, stamp, tokenHash).db)
  {
    if id in s.ops && s.ops[id].ApprovalHasNoUser? {
      var op := s.ops[id];
      ApproveUserKeepsTables(s.db, op.userId, op.user,
        NewCapability(s, stamp, op.userId, Setup, tokenHash, op.now), op.operatorId, op.now);
    }
  }

  lemma SeedStepKeepsTables(s: System, id: OpId)
    requires Inv(s)
    ensures TablesOk(SeedComplete(s, id).db)
  {
    if id in s.ops && s.ops[id].SeedHasNoOperator? {
      var op := s.ops[id];
      InsertUserKeepsTables(s.db, op.userId, op.user, op.now, AuditEvent("operator.seeded", None, Some(op.userId)));
    }
  }

  lemma AtomicKeepsTables(s: System, step: AtomicStep)
    requires TablesOk(s.db)
    ensures TablesOk(ApplyAtomic(s, step).db)
  {
    match step
    case ChecksSession(tokenHash, now) => SessionStepsKeepTables(s, tokenHash, 0, now);
    case RotatesCsrf(tokenHash, csrfHash, now) => SessionStepsKeepTables(s, tokenHash, csrfHash, now);
    case LogsOut(tokenHash, now) => LogoutKeepsTables(s, tokenHash, now);
    case RequestsRecovery(recoveryId, userId, now) => RequestKeepsTables(s.db, recoveryId, userId, now);
    case ApprovesRecovery(recoveryId, operatorId, now) => ApprovalKeepsTables(s.db, recoveryId, operatorId, now);
    case IssuesRecoverySetup(recoveryId, operatorId, userId, stamp, tokenHash, now) =>
      IssueKeepsTables(s.db, recoveryId, NewCapability(s, stamp, userId, RecoverySetup, tokenHash, now), operatorId, now);
    case BreaksGlass(rowId, userId, stamp, tokenHash, expiresAt, now) =>
      BreakGlassKeepsTables(s.db, rowId, Capability(stamp, userId, OperatorRecoveryWindow, tokenHash, expiresAt), now);
    case RotatesAll(now) => RotationKeepsTables(s.db, now);
  }

  lemma SessionStepsKeepTables(s: System, tokenHash: SecretHash, csrfHash: SecretHash, now: Time)
    requires TablesOk(s.db)
    ensures TablesOk(CheckSession(s, tokenHash, now).db)
    ensures TablesOk(RotateCsrf(s, tokenHash, csrfHash, now).db)
  {
    SessionStepIsLater(s, tokenHash, csrfHash, now);
    SessionUseKeepsTables(s.db, CheckSession(s, tokenHash, now).db);
    SessionUseKeepsTables(s.db, RotateCsrf(s, tokenHash, csrfHash, now).db);
  }

  lemma LogoutKeepsTables(s: System, tokenHash: SecretHash, now: Time)
    requires TablesOk(s.db)
    ensures TablesOk(Logout(s, tokenHash, now).db)
  {
    LogoutIsLater(s.db, tokenHash, now);
    SessionUseKeepsTables(s.db, Logout(s, tokenHash, now).db);
  }

  /** Writes and transactions start no operation and change none in flight. */
  lemma WritesOnlyEndOps(s: System, step: WriteStep)
    ensures ApplyWrite(s, step).nextOp == s.nextOp
    ensures forall id | id in ApplyWrite(s, step).ops :: id in s.ops && ApplyWrite(s, step).ops[id] == s.ops[id]
  {}

  lemma AtomicLeavesOps(s: System, step: AtomicStep)
    ensures ApplyAtomic(s, step).nextOp == s.nextOp && ApplyAtomic(s, step).ops == s.ops
  {}

  lemma RemainingOpsStayOk(s: System, after: System)
    requires OpsOk(s) && Later(s.db, after.db) && after.nextOp == s.nextOp
    requires forall id | id in after.ops :: id in s.ops && after.ops[id] == s.ops[id]
    ensures OpsOk(after)
  {
    forall id | id in after.ops
      ensures id < after.nextOp && OpOk(after.db, after.ops[id])
    {
      OpStaysOk(s.db, after.db, s.ops[id]);
    }
  }

  /** What a read snapshots agrees with the tables it was read from. */
  lemma ReadKeepsOps(s: System, step: ReadStep)
    requires Inv(s)
    ensures OpsOk(ApplyRead(s, step))
  {
    match step
    case SetupReadsCapability(hash, purpose, now) =>
      if CapabilityUsable(s.db, hash, purpose, now) {
        BeginKeepsOps(s, SetupHasCapability(hash, s.db.capabilities[hash].userId, now));
      }
    case SetupReadsUser(id) => SetupReadKeepsOps(s, id);
    case BootstrapReadsWindow(window, now) => BootstrapReadKeepsOps(s, window, now);
    case BootstrapReadsOperator(id, userId) => BootstrapOperatorKeepsOps(s, id, userId);
    case LoginReadsUser(id, userId) => LoginReadKeepsOps(s, id, userId);
    case RegistrationReads(ceremonyId, kind, now) =>
      if CeremonyUsable(s.db, ceremonyId, kind, now) {
        BeginKeepsOps(s, RegistrationHasCeremony(ceremonyId, s.db.ceremonies[ceremonyId], now));
      }
    case _ =>
  }

  lemma BeginKeepsOps(s: System, op: Op)
    requires OpsOk(s) && OpOk(s.db, op)
    ensures OpsOk(Begin(s, op))
  {}

  lemma SetupReadKeepsOps(s: System, id: OpId)
    requires OpsOk(s)
    ensures OpsOk(SetupReadUser(s, id))
  {
    assert id in s.ops ==> OpOk(s.db, s.ops[id]);
  }

  lemma BootstrapReadKeepsOps(s: System, window: Option<SecretHash>, now: Time)
    requires OpsOk(s)
    ensures OpsOk(BootstrapReadWindow(s, window, now))
  {}

  lemma BootstrapOperatorKeepsOps(s: System, id: OpId, userId: UserId)
    requires OpsOk(s)
    ensures OpsOk(BootstrapReadOperator(s, id, userId))
  {}

  lemma LoginReadKeepsOps(s: System, id: OpId, userId: UserId)
    requires OpsOk(s)
    ensures OpsOk(LoginReadUser(s, id, userId))
  {}

  lemma ApplyKeepsInv(s: System, step: Step)
    requires Inv(s)
    ensures Inv(Apply(s, step))
  {
    ApplyIsLater(s, step);
    match step
    case Reads(read) =>
      ReadKeepsOps(s, read);
      ReadsChangeNoTable(s, read);
    case Writes(write) =>
      WriteKeepsTables(s, write);
      WritesOnlyEndOps(s, write);
      RemainingOpsStayOk(s, Apply(s, step));
    case Transacts(atomic) =>
      AtomicKeepsTables(s, atomic);
      AtomicLeavesOps(s, atomic);
      RemainingOpsStayOk(s, Apply(s, step));
  }

  lemma {:induction false} ExecuteKeepsInv(s: System, steps: seq<Step>)
    requires Inv(s)
    ensures Inv(Execute(s, steps))
    decreases |steps|
  {
    if steps != [] {
      ApplyKeepsInv(s, steps[0]);
      ExecuteKeepsInv(Apply(s, steps[0]), steps[1..]);
    }
  }

  lemma StartIsInvariant(config: AuthConfig)
    ensures Inv(Start(config))
  {}
}
