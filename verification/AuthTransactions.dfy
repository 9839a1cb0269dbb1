/**
 What each transaction of the authentication store does to the tables. A failed
 transaction is rolled back, so its result carries no tables.
*/
module AuthTransactions {
  import opened Wrappers
  import opened AuthTables

  type Tx = Result<Db, AuthError>

  /** The tables after a transaction, committed or rolled back. */
  function Commit(db: Db, tx: Tx): Db {
    if tx.Success? then tx.value else db
  }

  function Outcome(tx: Tx): Result<Unit, AuthError> {
    if tx.Success? then Success(Unit) else Failure(tx.error)
  }

  // ---------- Statements shared by several transactions ----------

  predicate References(db: Db, userId: Option<UserId>) {
    userId.Some? ==> userId.value in db.users
  }

  function InsertAudit(db: Db, event: AuditEvent, now: Time): Tx {
    if References(db, event.actor) && References(db, event.subject)
    then Success(db.(audit := db.audit + [AuditRow(now, event)]))
    else Failure(Store)
  }

  predicate CapabilityInsertable(db: Db, capability: Capability) {
    capability.tokenHash !in db.capabilities
    && capability.userId in db.users
    && forall h | h in db.capabilities :: db.capabilities[h].id != capability.stamp.id
  }

  function InsertCapability(db: Db, c: Capability): Tx {
    if CapabilityInsertable(db, c)
    then Success(db.(capabilities := db.capabilities[c.tokenHash := c.Row()]))
    else Failure(Store)
  }

  predicate UserInsertable(db: Db, id: UserId, user: UserRow) {
    id !in db.users && user.authEpoch > 0
    && forall u | u in db.users :: db.users[u].handle != user.handle && db.users[u].email != user.email
  }

  /** The rows an invalidation reaches: those of one user, or all rows. */
  datatype Scope = OneUser(userId: UserId) | Everyone {
    predicate Covers(userId: Option<UserId>) {
      Everyone? || userId == Some(this.userId)
    }
  }

  function AdvancedUsers(users: map<UserId, UserRow>, scope: Scope): (r: map<UserId, UserRow>)
    ensures r.Keys == users.Keys
  {
    map u | u in users :: if scope.Covers(Some(u)) then users[u].(authEpoch := users[u].authEpoch + 1) else users[u]
  }

  function RevokedSessions(sessions: map<SecretHash, SessionRow>, scope: Scope, now: Time): (r: map<SecretHash, SessionRow>)
    ensures r.Keys == sessions.Keys
  {
    map h | h in sessions ::
      if scope.Covers(Some(sessions[h].userId)) && sessions[h].revokedAt.None?
      then sessions[h].(revokedAt := Some(now)) else sessions[h]
  }

  function ConsumedCeremonies(ceremonies: map<Uuid, CeremonyRow>, scope: Scope, now: Time): (r: map<Uuid, CeremonyRow>)
    ensures r.Keys == ceremonies.Keys
  {
    map c | c in ceremonies ::
      if scope.Covers(ceremonies[c].userId) && ceremonies[c].consumedAt.None?
      then ceremonies[c].(consumedAt := Some(now)) else ceremonies[c]
  }

  function ConsumedCapabilities(capabilities: map<SecretHash, CapabilityRow>, scope: Scope, now: Time): (r: map<SecretHash, CapabilityRow>)
    ensures r.Keys == capabilities.Keys
  {
    map h | h in capabilities ::
      if scope.Covers(Some(capabilities[h].userId)) && capabilities[h].consumedAt.None?
      then capabilities[h].(consumedAt := Some(now)) else capabilities[h]
  }

  predicate EpochsCanAdvance(users: map<UserId, UserRow>, scope: Scope) {
    forall u | u in users && scope.Covers(Some(u)) :: users[u].authEpoch < MAX_EPOCH
  }

  /** Advances epochs, revokes sessions, consumes ceremonies and capabilities. */
  function Invalidate(db: Db, scope: Scope, now: Time): Tx {
    if !EpochsCanAdvance(db.users, scope) then Failure(Store)
    else Success(db.(users := AdvancedUsers(db.users, scope),
                     sessions := RevokedSessions(db.sessions, scope, now),
                     ceremonies := ConsumedCeremonies(db.ceremonies, scope, now),
                     capabilities := ConsumedCapabilities(db.capabilities, scope, now)))
  }

  // ---------- Reads ----------

  predicate CapabilityUsable(db: Db, hash: SecretHash, purpose: CapabilityPurpose, now: Time) {
    hash in db.capabilities && db.capabilities[hash].purpose == purpose
    && db.capabilities[hash].consumedAt.None? && db.capabilities[hash].expiresAt > now
  }

  predicate CeremonyUsable(db: Db, id: Uuid, kind: CeremonyKind, now: Time) {
    id in db.ceremonies && db.ceremonies[id].kind == kind
    && db.ceremonies[id].consumedAt.None? && db.ceremonies[id].expiresAt > now
  }

  function LiveCredentials(db: Db, userId: UserId): map<CredentialId, CredentialRow> {
    map k | k in db.credentials && CredentialUsable(db, k, userId) :: db.credentials[k]
  }

  predicate IsOperator(db: Db, userId: UserId) {
    userId in db.users && db.users[userId].role == Operator
  }

  predicate OperatorExists(db: Db) {
    exists u | u in db.users :: db.users[u].role == Operator
  }

  predicate OperatorCredentialExists(db: Db) {
    exists k | k in db.credentials :: IsOperator(db, db.credentials[k].userId) && db.credentials[k].revokedAt.None?
  }

  /** The rows the bootstrap query may return. */
  predicate OperatorWithoutCredential(db: Db, userId: UserId) {
    IsOperator(db, userId) && db.users[userId].enabled && !OperatorCredentialExists(db)
  }

  /** The rows the recovery-window query may return. */
  predicate RecoveryWindow(db: Db, hash: SecretHash, now: Time) {
    CapabilityUsable(db, hash, OperatorRecoveryWindow, now)
    && IsOperator(db, db.capabilities[hash].userId) && db.users[db.capabilities[hash].userId].enabled
  }

  predicate SessionAccepted(db: Db, hash: SecretHash, now: Time) {
    hash in db.sessions
    && var s := db.sessions[hash];
       s.revokedAt.None? && s.idleExpiresAt > now && s.absoluteExpiresAt > now
       && s.userId in db.users && db.users[s.userId].enabled && s.authEpoch == db.users[s.userId].authEpoch
  }

  // ---------- Transactions ----------

  function InsertUser(db: Db, id: UserId, user: UserRow, now: Time, audit: AuditEvent): Tx {
    if !UserInsertable(db, id, user) then Failure(Conflict)
    else InsertAudit(db.(users := db.users[id := user.(createdAt := now)]), audit, now)
  }

  function ApproveUserWithSetup(db: Db, id: UserId, user: UserRow, capability: Capability, operatorId: UserId, now: Time): Tx {
    if !UserInsertable(db, id, user) then Failure(Conflict)
    else
      var withCapability :- InsertCapability(db.(users := db.users[id := user.(createdAt := now)]), capability);
      InsertAudit(withCapability, AuditEvent("user.approved_with_setup", Some(operatorId), Some(id)), now)
  }

  function RotateAllAuthEpochs(db: Db, now: Time): Tx {
    var rotated :- Invalidate(db, Everyone, now);
    InsertAudit(rotated, AuditEvent("auth.epoch_rotated_all", None, None), now)
  }

  function InsertCeremony(db: Db, id: Uuid, row: CeremonyRow): Tx {
    if id in db.ceremonies || !References(db, row.userId) then Failure(Store)
    else Success(db.(ceremonies := db.ceremonies[id := row]))
  }

  /** An issued request of the user that a registration completes. */
  predicate Completes(row: RecoveryRow, subject: Option<UserId>) {
    Some(row.userId) == subject && row.approvedAt.Some? && row.setupIssuedAt.Some? && row.completedAt.None?
  }

  function CompletedRecoveries(recoveries: map<Uuid, RecoveryRow>, subject: Option<UserId>, now: Time): (r: map<Uuid, RecoveryRow>)
    ensures r.Keys == recoveries.Keys
  {
    map id | id in recoveries ::
      if Completes(recoveries[id], subject) then recoveries[id].(completedAt := Some(now)) else recoveries[id]
  }

  predicate CredentialInsertable(db: Db, credentialId: CredentialId, rowId: Uuid) {
    credentialId !in db.credentials && forall k | k in db.credentials :: db.credentials[k].id != rowId
  }

  function ConsumeCeremony(db: Db, id: Uuid, now: Time): Db
    requires id in db.ceremonies
  {
    db.(ceremonies := db.ceremonies[id := db.ceremonies[id].(consumedAt := Some(now))])
  }

  predicate HashConsumable(db: Db, hash: SecretHash, now: Time) {
    hash in db.capabilities && db.capabilities[hash].consumedAt.None? && db.capabilities[hash].expiresAt > now
  }

  function ConsumeCapability(db: Db, hash: SecretHash, now: Time): Db
    requires hash in db.capabilities
  {
    db.(capabilities := db.capabilities[hash := db.capabilities[hash].(consumedAt := Some(now))])
  }

  function InsertCredential(db: Db, userId: UserId, credential: VerifiedCredential, rowId: Uuid, now: Time): Tx {
    if !CredentialInsertable(db, credential.credentialId, rowId) then Failure(Conflict)
    else if userId !in db.users then Failure(Store)
    else
      var row := CredentialRow(rowId, userId, credential.publicData, now, None, None);
      Success(db.(credentials := db.credentials[credential.credentialId := row]))
  }

  function CompleteRegistration(db: Db, ceremonyId: Uuid, capabilityHash: Option<SecretHash>,
                                credential: VerifiedCredential, rowId: Uuid, now: Time, audit: AuditEvent): Tx {
    if !(ceremonyId in db.ceremonies && db.ceremonies[ceremonyId].consumedAt.None? && db.ceremonies[ceremonyId].expiresAt > now)
    then Failure(InvalidState)
    else if db.ceremonies[ceremonyId].userId.None? then Failure(Store)
    else if db.ceremonies[ceremonyId].kind == OperatorBootstrap && OperatorCredentialExists(db) then Failure(Conflict)
    else if capabilityHash.Some? && !HashConsumable(db, capabilityHash.value, now) then Failure(InvalidState)
    else
      var begun := ConsumeCeremony(db, ceremonyId, now);
      var consumed := if capabilityHash.Some? then ConsumeCapability(begun, capabilityHash.value, now) else begun;
      var registered :- InsertCredential(consumed, db.ceremonies[ceremonyId].userId.value, credential, rowId, now);
      InsertAudit(registered.(recoveries := CompletedRecoveries(registered.recoveries, audit.subject, now)), audit, now)
  }

  predicate CredentialUsable(db: Db, credentialId: CredentialId, userId: UserId) {
    credentialId in db.credentials && db.credentials[credentialId].userId == userId
    && db.credentials[credentialId].revokedAt.None?
  }

  function CompleteAuthentication(db: Db, ceremonyId: Uuid, verification: AuthenticationVerification,
                                  session: SessionRecord, now: Time, audit: AuditEvent): Tx {
    if !CeremonyUsable(db, ceremonyId, Authentication, now) then Failure(InvalidState)
    else if !CredentialUsable(db, verification.credentialId, session.userId) then Failure(Unauthenticated)
    else if !SessionInsertable(db, session) then Failure(Store)
    else
      var begun := ConsumeCeremony(db, ceremonyId, now);
      var used := db.credentials[verification.credentialId].(publicData := verification.updatedPublicData, lastUsedAt := Some(now));
      var row := SessionRow(session.id, session.userId, session.csrfHash, session.authEpoch, session.idleExpiresAt,
                            session.absoluteExpiresAt, now, now, None);
      InsertAudit(begun.(credentials := db.credentials[verification.credentialId := used],
                         sessions := db.sessions[session.tokenHash := row]), audit, now)
  }

  predicate SessionInsertable(db: Db, session: SessionRecord) {
    session.tokenHash !in db.sessions && session.userId in db.users
    && forall h | h in db.sessions :: db.sessions[h].id != session.id
  }

  function Min(a: int, b: int): int {
    if a <= b then a else b
  }

  /** Accepts a session and slides its idle expiry, never past the absolute one. */
  function Session(db: Db, hash: SecretHash, now: Time, idleExpiresAt: Time): (Db, Option<SessionPrincipal>) {
    if !SessionAccepted(db, hash, now) then (db, None)
    else
      var s := db.sessions[hash];
      (db.(sessions := db.sessions[hash := s.(idleExpiresAt := Min(idleExpiresAt, s.absoluteExpiresAt), lastSeenAt := now)]),
       Some(SessionPrincipal(s.id, s.userId, db.users[s.userId], s.csrfHash, s.absoluteExpiresAt)))
  }

  function RotateSessionCsrf(db: Db, hash: SecretHash, csrfHash: SecretHash, now: Time, idleExpiresAt: Time): (Db, Option<SessionPrincipal>) {
    if !SessionAccepted(db, hash, now) then (db, None)
    else
      var s := db.sessions[hash];
      (db.(sessions := db.sessions[hash := s.(csrfHash := csrfHash, idleExpiresAt := Min(idleExpiresAt, s.absoluteExpiresAt), lastSeenAt := now)]),
       Some(SessionPrincipal(s.id, s.userId, db.users[s.userId], csrfHash, s.absoluteExpiresAt)))
  }

  function DeleteSession(db: Db, hash: SecretHash, dbNow: Time): Db {
    if hash in db.sessions && db.sessions[hash].revokedAt.None?
    then db.(sessions := db.sessions[hash := db.sessions[hash].(revokedAt := Some(dbNow))])
    else db
  }

  predicate Pending(row: RecoveryRow) {
    row.approvedAt.None? && row.completedAt.None?
  }

  function CreateRecovery(db: Db, id: Uuid, userId: UserId, now: Time): Tx {
    if id in db.recoveries || exists r | r in db.recoveries :: Pending(db.recoveries[r]) && db.recoveries[r].userId == userId
    then Failure(Conflict)
    else if userId !in db.users then Failure(Store)
    else Success(db.(recoveries := db.recoveries[id := RecoveryRow(userId, now, None, None, None, None)]))
  }

  function ApproveRecovery(db: Db, id: Uuid, operatorId: UserId, now: Time): Tx {
    if !(id in db.recoveries && Pending(db.recoveries[id])) then Failure(Conflict)
    else if operatorId !in db.users then Failure(Store)
    else
      var row := db.recoveries[id].(approvedAt := Some(now), approvedBy := Some(operatorId));
      var invalidated :- Invalidate(db.(recoveries := db.recoveries[id := row]), OneUser(row.userId), now);
      InsertAudit(invalidated, AuditEvent("recovery.approved", Some(operatorId), Some(row.userId)), now)
  }

  predicate SetupIssuable(row: RecoveryRow, userId: UserId) {
    row.approvedAt.Some? && row.setupIssuedAt.None? && row.completedAt.None? && row.userId == userId
  }

  function IssueRecoverySetup(db: Db, id: Uuid, capability: Capability, operatorId: UserId, now: Time): Tx {
    if !(id in db.recoveries && SetupIssuable(db.recoveries[id], capability.userId)) then Failure(Conflict)
    else
      var row := db.recoveries[id].(setupIssuedAt := Some(now));
      var issued :- InsertCapability(db.(recoveries := db.recoveries[id := row]), capability);
      InsertAudit(issued, AuditEvent("recovery.setup_issued", Some(operatorId), Some(capability.userId)), now)
  }

  /** The other unique columns of the user table. */
  predicate UniqueUsers(db: Db) {
    forall u, v | u in db.users && v in db.users && u != v ::
      db.users[u].handle != db.users[v].handle && db.users[u].email != db.users[v].email
  }

  /** The primary key of the credential table, which is not the key of the map. */
  predicate UniqueCredentialRows(db: Db) {
    forall j, k | j in db.credentials && k in db.credentials && j != k :: db.credentials[j].id != db.credentials[k].id
  }

  /** The credential rows that break glass revokes: an unrevoked operator credential with this row id. */
  predicate BreakGlassTarget(db: Db, k: CredentialId, rowId: Uuid) {
    k in db.credentials && db.credentials[k].id == rowId && db.credentials[k].revokedAt.None?
    && IsOperator(db, db.credentials[k].userId)
  }

  function RevokedCredentials(db: Db, rowId: Uuid, now: Time): (r: map<CredentialId, CredentialRow>)
    ensures r.Keys == db.credentials.Keys
  {
    map k | k in db.credentials ::
      if BreakGlassTarget(db, k, rowId) then db.credentials[k].(revokedAt := Some(now)) else db.credentials[k]
  }

  function BreakGlass(db: Db, rowId: Uuid, capability: Capability, now: Time): Tx {
    if !exists k | k in db.credentials :: BreakGlassTarget(db, k, rowId) then Failure(Conflict)
    else if !exists k | k in db.credentials :: BreakGlassTarget(db, k, rowId) && db.credentials[k].userId == capability.userId
    then Failure(Forbidden)
    else
      var invalidated :- Invalidate(db.(credentials := RevokedCredentials(db, rowId, now)), OneUser(capability.userId), now);
      var window :- InsertCapability(invalidated, capability);
      InsertAudit(window, AuditEvent("operator.break_glass_opened", None, Some(capability.userId)), now)
  }
}
