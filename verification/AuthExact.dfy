/**
 Every transaction on the rows: from any tables, which error it gives under which
 condition, in the order in which the conditions are found, and otherwise every row of
 the tables it commits, its audit row included.
*/
module AuthExact {
  import opened Wrappers
  import opened AuthTables
  import opened AuthTransactions
  import opened AuthInvariant

  function AuditLine(now: Time, eventType: string, actor: Option<UserId>, subject: Option<UserId>): AuditRow {
    AuditRow(now, AuditEvent(eventType, actor, subject))
  }

  // ---------- Conditions of the queries ----------

  lemma CapabilityUsableOnRows(db: Db, hash: SecretHash, purpose: CapabilityPurpose, now: Time)
    ensures CapabilityUsable(db, hash, purpose, now) <==> LiveCapability(db, hash, now) && db.capabilities[hash].purpose == purpose
  {}

  lemma CeremonyUsableOnRows(db: Db, id: Uuid, kind: CeremonyKind, now: Time)
    ensures CeremonyUsable(db, id, kind, now) <==> LiveCeremony(db, id, now) && db.ceremonies[id].kind == kind
  {}

  /** An enabled operator, while no operator has an unrevoked credential. */
  lemma OperatorWithoutCredentialOnRows(db: Db, userId: UserId)
    ensures OperatorWithoutCredential(db, userId)
            <==> userId in db.users && db.users[userId].role == Operator && db.users[userId].enabled && !SomeOperatorCredential(db)
  {}

  lemma RecoveryWindowOnRows(db: Db, hash: SecretHash, now: Time)
    ensures RecoveryWindow(db, hash, now)
            <==> LiveCapability(db, hash, now) && db.capabilities[hash].purpose == OperatorRecoveryWindow
                 && db.capabilities[hash].userId in db.users && db.users[db.capabilities[hash].userId].role == Operator
                 && db.users[db.capabilities[hash].userId].enabled
  {}

  // ---------- Users ----------

  /** No other user has this id, handle or email, and the epoch is positive. */
  ghost predicate NewUser(db: Db, id: UserId, user: UserRow) {
    id !in db.users && user.authEpoch > 0
    && forall u | u in db.users :: db.users[u].handle != user.handle && db.users[u].email != user.email
  }

  lemma InsertUserOnRows(db: Db, id: UserId, user: UserRow, now: Time, audit: AuditEvent)
    ensures InsertUser(db, id, user, now, audit) ==
      if !NewUser(db, id, user) then Failure(Conflict)
      else if (audit.actor.Some? && audit.actor.value != id && audit.actor.value !in db.users)
              || (audit.subject.Some? && audit.subject.value != id && audit.subject.value !in db.users) then Failure(Store)
      else Success(Db(db.users[id := UserRow(user.handle, user.email, user.displayName, user.role, user.enabled, user.authEpoch, now)],
                      db.credentials, db.capabilities, db.ceremonies, db.sessions, db.recoveries, db.audit + [AuditRow(now, audit)]))
  {}

  /** No capability has this token hash or row id. */
  ghost predicate NewCapabilityRow(db: Db, c: Capability) {
    c.tokenHash !in db.capabilities && forall h | h in db.capabilities :: db.capabilities[h].id != c.stamp.id
  }

  function StoredCapability(c: Capability): CapabilityRow {
    CapabilityRow(c.stamp.id, c.userId, c.purpose, c.expiresAt, None, c.stamp.createdAt)
  }

  lemma ApproveUserOnRows(db: Db, id: UserId, user: UserRow, c: Capability, operatorId: UserId, now: Time)
    ensures ApproveUserWithSetup(db, id, user, c, operatorId, now) ==
      if !NewUser(db, id, user) then Failure(Conflict)
      else if !NewCapabilityRow(db, c) || (c.userId != id && c.userId !in db.users) || (operatorId != id && operatorId !in db.users)
      then Failure(Store)
      else Success(Db(db.users[id := UserRow(user.handle, user.email, user.displayName, user.role, user.enabled, user.authEpoch, now)],
                      db.credentials, db.capabilities[c.tokenHash := StoredCapability(c)], db.ceremonies, db.sessions, db.recoveries,
                      db.audit + [AuditLine(now, "user.approved_with_setup", Some(operatorId), Some(id))]))
  {}

  // ---------- Ceremonies, registrations and logins ----------

  lemma InsertCeremonyOnRows(db: Db, id: Uuid, row: CeremonyRow)
    ensures InsertCeremony(db, id, row) ==
      if id in db.ceremonies || (row.userId.Some? && row.userId.value !in db.users) then Failure(Store)
      else Success(Db(db.users, db.credentials, db.capabilities, db.ceremonies[id := row], db.sessions, db.recoveries, db.audit))
  {}

  /** The ceremony is there, unconsumed and unexpired. */
  ghost predicate LiveCeremony(db: Db, id: Uuid, now: Time) {
    id in db.ceremonies && db.ceremonies[id].consumedAt.None? && now < db.ceremonies[id].expiresAt
  }

  ghost predicate LiveCapability(db: Db, hash: SecretHash, now: Time) {
    hash in db.capabilities && db.capabilities[hash].consumedAt.None? && now < db.capabilities[hash].expiresAt
  }

  ghost predicate SomeOperatorCredential(db: Db) {
    exists k :: k in db.credentials && db.credentials[k].revokedAt.None?
                && db.credentials[k].userId in db.users && db.users[db.credentials[k].userId].role == Operator
  }

  /** No credential has this credential id or row id. */
  ghost predicate NewCredential(db: Db, credentialId: CredentialId, rowId: Uuid) {
    credentialId !in db.credentials && forall k | k in db.credentials :: db.credentials[k].id != rowId
  }

  /** The error a registration of the ceremony's user gives, if it gives one. */
  ghost function RegistrationError(db: Db, ceremonyId: Uuid, hash: Option<SecretHash>, credential: VerifiedCredential, rowId: Uuid,
                                   now: Time): Option<AuthError> {
    if !LiveCeremony(db, ceremonyId, now) then Some(InvalidState)
    else if db.ceremonies[ceremonyId].userId.None? then Some(Store)
    else if db.ceremonies[ceremonyId].kind == OperatorBootstrap && SomeOperatorCredential(db) then Some(Conflict)
    else if hash.Some? && !LiveCapability(db, hash.value, now) then Some(InvalidState)
    else if !NewCredential(db, credential.credentialId, rowId) then Some(Conflict)
    else if db.ceremonies[ceremonyId].userId.value !in db.users then Some(Store)
    else None
  }

  /** The rows after a committed registration. */
  ghost predicate Registered(db: Db, after: Db, ceremonyId: Uuid, hash: Option<SecretHash>, credential: VerifiedCredential, rowId: Uuid,
                             now: Time)
    requires ceremonyId in db.ceremonies && db.ceremonies[ceremonyId].userId.Some?
  {
    var user := db.ceremonies[ceremonyId].userId.value;
    after.users == db.users && after.sessions == db.sessions
    && after.credentials == db.credentials[credential.credentialId := CredentialRow(rowId, user, credential.publicData, now, None, None)]
    && after.ceremonies == db.ceremonies[ceremonyId := db.ceremonies[ceremonyId].(consumedAt := Some(now))]
    && (hash.None? ==> after.capabilities == db.capabilities)
    && (hash.Some? ==>
          hash.value in db.capabilities
          && after.capabilities == db.capabilities[hash.value := db.capabilities[hash.value].(consumedAt := Some(now))])
    && after.recoveries.Keys == db.recoveries.Keys
    && (forall r | r in db.recoveries :: after.recoveries[r] ==
          if db.recoveries[r].userId == user && db.recoveries[r].approvedAt.Some? && db.recoveries[r].setupIssuedAt.Some?
             && db.recoveries[r].completedAt.None?
          then db.recoveries[r].(completedAt := Some(now)) else db.recoveries[r])
    && after.audit == db.audit + [AuditLine(now, "passkey.registered", Some(user), Some(user))]
  }

  lemma RegistrationOnRows(db: Db, ceremonyId: Uuid, hash: Option<SecretHash>, credential: VerifiedCredential, rowId: Uuid, now: Time,
                           audit: AuditEvent)
    requires ceremonyId in db.ceremonies ==>
               audit == AuditEvent("passkey.registered", db.ceremonies[ceremonyId].userId, db.ceremonies[ceremonyId].userId)
    ensures var tx, error := CompleteRegistration(db, ceremonyId, hash, credential, rowId, now, audit),
                             RegistrationError(db, ceremonyId, hash, credential, rowId, now);
            if error.Some? then tx == Failure(error.value)
            else tx.Success? && Registered(db, tx.value, ceremonyId, hash, credential, rowId, now)
  {
    assert OperatorCredentialExists(db) <==> SomeOperatorCredential(db);
    RegistrationErrorsOnRows(db, ceremonyId, hash, credential, rowId, now, audit);
    if RegistrationError(db, ceremonyId, hash, credential, rowId, now).None? {
      RegistrationEffect(db, ceremonyId, hash, credential, rowId, now, audit);
    }
  }

  lemma RegistrationErrorsOnRows(db: Db, ceremonyId: Uuid, hash: Option<SecretHash>, credential: VerifiedCredential, rowId: Uuid,
                                 now: Time, audit: AuditEvent)
    requires ceremonyId in db.ceremonies ==>
               audit == AuditEvent("passkey.registered", db.ceremonies[ceremonyId].userId, db.ceremonies[ceremonyId].userId)
    requires OperatorCredentialExists(db) <==> SomeOperatorCredential(db)
    ensures var tx, error := CompleteRegistration(db, ceremonyId, hash, credential, rowId, now, audit),
                             RegistrationError(db, ceremonyId, hash, credential, rowId, now);
            if error.Some? then tx == Failure(error.value)
            else tx.Success? && tx.value.audit == db.audit + [AuditRow(now, audit)]
  {}

  /** The error a login gives, if it gives one. */
  ghost function LoginError(db: Db, ceremonyId: Uuid, credentialId: CredentialId, session: SessionRecord, now: Time, audit: AuditEvent)
    : Option<AuthError> {
    if !LiveCeremony(db, ceremonyId, now) || db.ceremonies[ceremonyId].kind != Authentication then Some(InvalidState)
    else if credentialId !in db.credentials || db.credentials[credentialId].userId != session.userId
            || db.credentials[credentialId].revokedAt.Some? then Some(Unauthenticated)
    else if session.tokenHash in db.sessions || session.userId !in db.users
            || (exists h :: h in db.sessions && db.sessions[h].id == session.id) then Some(Store)
    else if (audit.actor.Some? && audit.actor.value !in db.users) || (audit.subject.Some? && audit.subject.value !in db.users)
    then Some(Store)
    else None
  }

  lemma LoginOnRows(db: Db, ceremonyId: Uuid, verification: AuthenticationVerification, session: SessionRecord, now: Time,
                    audit: AuditEvent)
    ensures var error := LoginError(db, ceremonyId, verification.credentialId, session, now, audit);
            CompleteAuthentication(db, ceremonyId, verification, session, now, audit) ==
              if error.Some? then Failure(error.value)
              else Success(Db(db.users,
                              db.credentials[verification.credentialId := db.credentials[verification.credentialId].(
                                publicData := verification.updatedPublicData, lastUsedAt := Some(now))],
                              db.capabilities,
                              db.ceremonies[ceremonyId := db.ceremonies[ceremonyId].(consumedAt := Some(now))],
                              db.sessions[session.tokenHash := SessionRow(session.id, session.userId, session.csrfHash, session.authEpoch,
                                session.idleExpiresAt, session.absoluteExpiresAt, now, now, None)],
                              db.recoveries, db.audit + [AuditRow(now, audit)]))
  {}

  // ---------- Sessions ----------

  /** The five conditions under which a session is accepted. */
  ghost predicate Accepts(db: Db, hash: SecretHash, now: Time) {
    hash in db.sessions && db.sessions[hash].revokedAt.None?
    && now < db.sessions[hash].idleExpiresAt && now < db.sessions[hash].absoluteExpiresAt
    && db.sessions[hash].userId in db.users && db.users[db.sessions[hash].userId].enabled
    && db.users[db.sessions[hash].userId].authEpoch == db.sessions[hash].authEpoch
  }

  lemma SessionOnRows(db: Db, hash: SecretHash, now: Time, idleExpiresAt: Time)
    ensures Session(db, hash, now, idleExpiresAt) ==
      if !Accepts(db, hash, now) then (db, None)
      else
        var row := db.sessions[hash];
        var idle := if row.absoluteExpiresAt < idleExpiresAt then row.absoluteExpiresAt else idleExpiresAt;
        (Db(db.users, db.credentials, db.capabilities, db.ceremonies,
            db.sessions[hash := row.(idleExpiresAt := idle, lastSeenAt := now)], db.recoveries, db.audit),
         Some(SessionPrincipal(row.id, row.userId, db.users[row.userId], row.csrfHash, row.absoluteExpiresAt)))
  {}

  lemma CsrfOnRows(db: Db, hash: SecretHash, csrfHash: SecretHash, now: Time, idleExpiresAt: Time)
    ensures RotateSessionCsrf(db, hash, csrfHash, now, idleExpiresAt) ==
      if !Accepts(db, hash, now) then (db, None)
      else
        var row := db.sessions[hash];
        var idle := if row.absoluteExpiresAt < idleExpiresAt then row.absoluteExpiresAt else idleExpiresAt;
        (Db(db.users, db.credentials, db.capabilities, db.ceremonies,
            db.sessions[hash := row.(csrfHash := csrfHash, idleExpiresAt := idle, lastSeenAt := now)], db.recoveries, db.audit),
         Some(SessionPrincipal(row.id, row.userId, db.users[row.userId], csrfHash, row.absoluteExpiresAt)))
  {}

  lemma LogoutOnRows(db: Db, hash: SecretHash, dbNow: Time)
    ensures var after := DeleteSession(db, hash, dbNow);
            after == Db(db.users, db.credentials, db.capabilities, db.ceremonies, after.sessions, db.recoveries, db.audit)
            && after.sessions.Keys == db.sessions.Keys
            && forall h | h in db.sessions :: after.sessions[h] ==
                 if h == hash && db.sessions[h].revokedAt.None? then db.sessions[h].(revokedAt := Some(dbNow)) else db.sessions[h]
  {}

  // ---------- Invalidation ----------

  /** The rows of the users that are hit lost their authority at `now`; all others are as before. */
  ghost predicate LostAuthority(db: Db, after: Db, hit: Option<UserId> -> bool, now: Time) {
    after.users.Keys == db.users.Keys && after.sessions.Keys == db.sessions.Keys && after.ceremonies.Keys == db.ceremonies.Keys
    && (forall u | u in db.users ::
          after.users[u] == if hit(Some(u)) then db.users[u].(authEpoch := db.users[u].authEpoch + 1) else db.users[u])
    && (forall h | h in db.sessions ::
          after.sessions[h] == if hit(Some(db.sessions[h].userId)) && db.sessions[h].revokedAt.None?
                               then db.sessions[h].(revokedAt := Some(now)) else db.sessions[h])
    && (forall c | c in db.ceremonies ::
          after.ceremonies[c] == if hit(db.ceremonies[c].userId) && db.ceremonies[c].consumedAt.None?
                                 then db.ceremonies[c].(consumedAt := Some(now)) else db.ceremonies[c])
  }

  ghost predicate LostCapabilities(db: Db, capabilities: map<SecretHash, CapabilityRow>, hit: Option<UserId> -> bool, now: Time) {
    forall h | h in db.capabilities ::
      h in capabilities
      && capabilities[h] == if hit(Some(db.capabilities[h].userId)) && db.capabilities[h].consumedAt.None?
                            then db.capabilities[h].(consumedAt := Some(now)) else db.capabilities[h]
  }

  ghost predicate AtLastEpoch(db: Db, userId: UserId) {
    userId in db.users && db.users[userId].authEpoch >= 0x7FFF_FFFF_FFFF_FFFF
  }

  const ALL: Option<UserId> -> bool := (_: Option<UserId>) => true

  function Only(userId: UserId): Option<UserId> -> bool {
    (u: Option<UserId>) => u == Some(userId)
  }

  lemma EveryoneLoses(db: Db, after: Db, now: Time)
    requires Invalidated(db, after, Everyone, now)
    ensures LostAuthority(db, after, ALL, now)
    ensures LostCapabilities(db, ConsumedCapabilities(db.capabilities, Everyone, now), ALL, now)
  {}

  lemma OneUserLoses(db: Db, after: Db, userId: UserId, now: Time)
    requires Invalidated(db, after, OneUser(userId), now)
    ensures LostAuthority(db, after, Only(userId), now)
    ensures LostCapabilities(db, ConsumedCapabilities(db.capabilities, OneUser(userId), now), Only(userId), now)
  {}

  lemma EpochsFailOnRows(db: Db)
    ensures EpochsCanAdvance(db.users, Everyone) <==> !exists u :: AtLastEpoch(db, u)
  {
    assert forall u | u in db.users :: AtLastEpoch(db, u) || db.users[u].authEpoch < MAX_EPOCH;
  }

  lemma EpochFailsOnRows(db: Db, userId: UserId)
    ensures EpochsCanAdvance(db.users, OneUser(userId)) <==> !AtLastEpoch(db, userId)
  {}

  lemma RotationOnRows(db: Db, now: Time)
    ensures var tx := RotateAllAuthEpochs(db, now);
            (tx.Failure? <==> exists u :: AtLastEpoch(db, u)) && (tx.Failure? ==> tx.error == Store)
            && (tx.Success? ==>
                  LostAuthority(db, tx.value, ALL, now) && LostCapabilities(db, tx.value.capabilities, ALL, now)
                  && tx.value.capabilities.Keys == db.capabilities.Keys
                  && tx.value.credentials == db.credentials && tx.value.recoveries == db.recoveries
                  && tx.value.audit == db.audit + [AuditLine(now, "auth.epoch_rotated_all", None, None)])
  {
    EpochsFailOnRows(db);
    if RotateAllAuthEpochs(db, now).Success? {
      RotationEffect(db, now);
      EveryoneLoses(db, RotateAllAuthEpochs(db, now).value, now);
    }
  }

  // ---------- Recoveries ----------

  lemma RequestOnRows(db: Db, id: Uuid, userId: UserId, now: Time)
    ensures CreateRecovery(db, id, userId, now) ==
      if id in db.recoveries
         || (exists r :: r in db.recoveries && db.recoveries[r].userId == userId
                         && db.recoveries[r].approvedAt.None? && db.recoveries[r].completedAt.None?) then Failure(Conflict)
      else if userId !in db.users then Failure(Store)
      else Success(Db(db.users, db.credentials, db.capabilities, db.ceremonies, db.sessions,
                      db.recoveries[id := RecoveryRow(userId, now, None, None, None, None)], db.audit))
  {}

  /** The error an approval gives, if it gives one. */
  ghost function ApprovalError(db: Db, id: Uuid, operatorId: UserId): Option<AuthError> {
    if id !in db.recoveries || db.recoveries[id].approvedAt.Some? || db.recoveries[id].completedAt.Some? then Some(Conflict)
    else if operatorId !in db.users || db.recoveries[id].userId !in db.users || AtLastEpoch(db, db.recoveries[id].userId) then Some(Store)
    else None
  }

  lemma ApprovalErrorsOnRows(db: Db, id: Uuid, operatorId: UserId, now: Time)
    ensures var tx, error := ApproveRecovery(db, id, operatorId, now), ApprovalError(db, id, operatorId);
            if error.Some? then tx == Failure(error.value)
            else tx.Success?
                 && tx.value.audit == db.audit + [AuditLine(now, "recovery.approved", Some(operatorId), Some(db.recoveries[id].userId))]
  {
    if id in db.recoveries {
      EpochFailsOnRows(db, db.recoveries[id].userId);
    }
  }

  lemma ApprovalOnRows(db: Db, id: Uuid, operatorId: UserId, now: Time)
    ensures var tx, error := ApproveRecovery(db, id, operatorId, now), ApprovalError(db, id, operatorId);
            if error.Some? then tx == Failure(error.value)
            else
              var row := db.recoveries[id];
              tx.Success? && LostAuthority(db, tx.value, Only(row.userId), now)
              && LostCapabilities(db, tx.value.capabilities, Only(row.userId), now)
              && tx.value.capabilities.Keys == db.capabilities.Keys && tx.value.credentials == db.credentials
              && tx.value.recoveries == db.recoveries[id := row.(approvedAt := Some(now), approvedBy := Some(operatorId))]
              && tx.value.audit == db.audit + [AuditLine(now, "recovery.approved", Some(operatorId), Some(row.userId))]
  {
    ApprovalErrorsOnRows(db, id, operatorId, now);
    if ApprovalError(db, id, operatorId).None? {
      ApprovalEffect(db, id, operatorId, now);
      OneUserLoses(db, ApproveRecovery(db, id, operatorId, now).value, db.recoveries[id].userId, now);
    }
  }

  lemma IssueOnRows(db: Db, id: Uuid, c: Capability, operatorId: UserId, now: Time)
    ensures IssueRecoverySetup(db, id, c, operatorId, now) ==
      if id !in db.recoveries || db.recoveries[id].approvedAt.None? || db.recoveries[id].setupIssuedAt.Some?
         || db.recoveries[id].completedAt.Some? || db.recoveries[id].userId != c.userId then Failure(Conflict)
      else if !NewCapabilityRow(db, c) || c.userId !in db.users || operatorId !in db.users then Failure(Store)
      else Success(Db(db.users, db.credentials, db.capabilities[c.tokenHash := StoredCapability(c)], db.ceremonies, db.sessions,
                      db.recoveries[id := db.recoveries[id].(setupIssuedAt := Some(now))],
                      db.audit + [AuditLine(now, "recovery.setup_issued", Some(operatorId), Some(c.userId))]))
  {}

  // ---------- Break glass ----------

  /** An unrevoked credential row with this id whose user is an operator. */
  ghost predicate Breakable(db: Db, k: CredentialId, rowId: Uuid) {
    k in db.credentials && db.credentials[k].id == rowId && db.credentials[k].revokedAt.None?
    && db.credentials[k].userId in db.users && db.users[db.credentials[k].userId].role == Operator
  }

  lemma BreakableMeansTarget(db: Db, rowId: Uuid)
    ensures forall k :: Breakable(db, k, rowId) <==> BreakGlassTarget(db, k, rowId)
  {}

  /** The error break glass gives, if it gives one. */
  ghost function BreakGlassError(db: Db, rowId: Uuid, c: Capability): Option<AuthError> {
    if !exists k :: Breakable(db, k, rowId) then Some(Conflict)
    else if !exists k :: Breakable(db, k, rowId) && db.credentials[k].userId == c.userId then Some(Forbidden)
    else if AtLastEpoch(db, c.userId) || !NewCapabilityRow(db, c) then Some(Store)
    else None
  }

  lemma BreakGlassErrorsOnRows(db: Db, rowId: Uuid, c: Capability, now: Time)
    ensures var tx, error := BreakGlass(db, rowId, c, now), BreakGlassError(db, rowId, c);
            if error.Some? then tx == Failure(error.value)
            else tx.Success? && tx.value.audit == db.audit + [AuditLine(now, "operator.break_glass_opened", None, Some(c.userId))]
  {
    BreakableMeansTarget(db, rowId);
    if exists k :: Breakable(db, k, rowId) && db.credentials[k].userId == c.userId {
      TargetFound(db, rowId, c, now);
    }
  }

  /** With its user's credential found, break glass is the rest of its statements. */
  lemma TargetFound(db: Db, rowId: Uuid, c: Capability, now: Time)
    requires exists k :: BreakGlassTarget(db, k, rowId) && db.credentials[k].userId == c.userId
    ensures var tx := BreakGlass(db, rowId, c, now);
            if AtLastEpoch(db, c.userId) || !NewCapabilityRow(db, c) then tx == Failure(Store)
            else tx.Success? && tx.value.audit == db.audit + [AuditLine(now, "operator.break_glass_opened", None, Some(c.userId))]
  {
    var revoked := db.(credentials := RevokedCredentials(db, rowId, now));
    EpochFailsOnRows(revoked, c.userId);
    var invalidated := Invalidate(revoked, OneUser(c.userId), now);
    if invalidated.Success? {
      InsertingAfterInvalidation(db, invalidated.value, c, now);
    }
  }

  lemma InsertingAfterInvalidation(db: Db, after: Db, c: Capability, now: Time)
    requires after.capabilities == ConsumedCapabilities(db.capabilities, OneUser(c.userId), now)
    requires after.users.Keys == db.users.Keys && c.userId in db.users
    ensures CapabilityInsertable(after, c) <==> NewCapabilityRow(db, c)
  {
    assert forall h | h in db.capabilities :: after.capabilities[h].id == db.capabilities[h].id;
    assert forall h :: h in after.capabilities <==> h in db.capabilities;
  }

  lemma BreakGlassOnRows(db: Db, rowId: Uuid, c: Capability, now: Time)
    ensures BreakGlassError(db, rowId, c).None? ==>
      var tx := BreakGlass(db, rowId, c, now);
      tx.Success?
      && LostAuthority(db, tx.value, Only(c.userId), now) && LostCapabilities(db, tx.value.capabilities, Only(c.userId), now)
      && tx.value.capabilities.Keys == db.capabilities.Keys + {c.tokenHash} && tx.value.capabilities[c.tokenHash] == StoredCapability(c)
      && tx.value.recoveries == db.recoveries && tx.value.credentials.Keys == db.credentials.Keys
      && forall k | k in db.credentials ::
           tx.value.credentials[k] == if Breakable(db, k, rowId) then db.credentials[k].(revokedAt := Some(now)) else db.credentials[k]
  {
    BreakGlassErrorsOnRows(db, rowId, c, now);
    if BreakGlassError(db, rowId, c).None? {
      BreakGlassEffect(db, rowId, c, now);
      OneUserLoses(db, BreakGlass(db, rowId, c, now).value, c.userId, now);
    }
  }
}
