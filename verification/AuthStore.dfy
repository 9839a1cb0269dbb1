/**
 The authentication store. Each operation opens a transaction on a copy of the
 tables, runs its statements in order, and either commits the copy or returns an
 error and drops it. Every operation is proved against `AuthTransactions`.
*/
module AuthStore {
  import opened Wrappers
  import opened AuthTables
  import T = AuthTransactions

  /** `ORDER BY` on a column has a first row; rows with equal values come in any order. */
  lemma {:induction false} FirstExists<T(!new)>(rows: set<T>, column: T -> int)
    requires rows != {}
    ensures exists first :: first in rows && forall r | r in rows :: column(first) <= column(r)
    decreases |rows|
  {
    var r :| r in rows;
    var others := rows - {r};
    assert forall x | x in rows :: x in others || x == r;
    if others != {} {
      FirstExists(others, column);
      var first :| first in others && forall x | x in others :: column(first) <= column(x);
    }
  }

  /** Statements that run inside one transaction. */
  class Transaction {
    var db: Db

    constructor (db: Db)
      ensures this.db == db
    {
      this.db := db;
    }

    method InsertAudit(event: AuditEvent, now: Time) returns (r: Result<Unit, AuthError>)
      modifies this
      ensures r == T.Outcome(T.InsertAudit(old(db), event, now))
      ensures db == T.Commit(old(db), T.InsertAudit(old(db), event, now))
    {
      if !T.References(db, event.actor) || !T.References(db, event.subject) {
        return Failure(Store);
      }
      db := db.(audit := db.audit + [AuditRow(now, event)]);
      r := Success(Unit);
    }

    method InsertCapability(c: Capability) returns (r: Result<Unit, AuthError>)
      modifies this
      ensures r == T.Outcome(T.InsertCapability(old(db), c))
      ensures db == T.Commit(old(db), T.InsertCapability(old(db), c))
    {
      if c.tokenHash in db.capabilities || c.userId !in db.users
         || exists h | h in db.capabilities :: db.capabilities[h].id == c.stamp.id {
        return Failure(Store);
      }
      db := db.(capabilities := db.capabilities[c.tokenHash := c.Row()]);
      r := Success(Unit);
    }

    method InsertUser(id: UserId, user: UserRow, now: Time) returns (r: Result<Unit, AuthError>)
      modifies this
      ensures r == if T.UserInsertable(old(db), id, user) then Success(Unit) else Failure(Conflict)
      ensures db == if r.Success? then old(db).(users := old(db).users[id := user.(createdAt := now)]) else old(db)
    {
      if id in db.users || user.authEpoch <= 0
         || exists u | u in db.users :: db.users[u].handle == user.handle || db.users[u].email == user.email {
        return Failure(Conflict);
      }
      db := db.(users := db.users[id := user.(createdAt := now)]);
      r := Success(Unit);
    }

    /** `UPDATE auth_ceremonies SET consumed_at` for one live row, returning it. */
    method ConsumeCeremony(id: Uuid, now: Time) returns (row: Option<CeremonyRow>)
      modifies this
      ensures row.Some? <==> id in old(db).ceremonies && old(db).ceremonies[id].consumedAt.None? && old(db).ceremonies[id].expiresAt > now
      ensures row.Some? ==> row.value == old(db).ceremonies[id] && db == T.ConsumeCeremony(old(db), id, now)
      ensures row.None? ==> db == old(db)
    {
      if id !in db.ceremonies || db.ceremonies[id].consumedAt.Some? || db.ceremonies[id].expiresAt <= now {
        return None;
      }
      row := Some(db.ceremonies[id]);
      db := db.(ceremonies := db.ceremonies[id := db.ceremonies[id].(consumedAt := Some(now))]);
    }

    method ConsumeCapability(hash: SecretHash, now: Time) returns (affected: nat)
      modifies this
      ensures affected == if T.HashConsumable(old(db), hash, now) then 1 else 0
      ensures db == if affected == 1 then T.ConsumeCapability(old(db), hash, now) else old(db)
    {
      if hash !in db.capabilities || db.capabilities[hash].consumedAt.Some? || db.capabilities[hash].expiresAt <= now {
        return 0;
      }
      db := db.(capabilities := db.capabilities[hash := db.capabilities[hash].(consumedAt := Some(now))]);
      affected := 1;
    }

    method InsertCredential(userId: UserId, credential: VerifiedCredential, rowId: Uuid, now: Time) returns (r: Result<Unit, AuthError>)
      modifies this
      ensures r == T.Outcome(T.InsertCredential(old(db), userId, credential, rowId, now))
      ensures db == T.Commit(old(db), T.InsertCredential(old(db), userId, credential, rowId, now))
    {
      if credential.credentialId in db.credentials || exists k | k in db.credentials :: db.credentials[k].id == rowId {
        return Failure(Conflict);
      }
      if userId !in db.users {
        return Failure(Store);
      }
      var row := CredentialRow(rowId, userId, credential.publicData, now, None, None);
      db := db.(credentials := db.credentials[credential.credentialId := row]);
      r := Success(Unit);
    }

    method CompleteRecoveries(subject: Option<UserId>, now: Time)
      modifies this
      ensures db == old(db).(recoveries := T.CompletedRecoveries(old(db).recoveries, subject, now))
    {
      db := db.(recoveries := map id | id in db.recoveries ::
        var row := db.recoveries[id];
        if Some(row.userId) == subject && row.approvedAt.Some? && row.setupIssuedAt.Some? && row.completedAt.None?
        then row.(completedAt := Some(now)) else row);
    }

    /** The four statements that invalidate ephemeral authority, for one user or for all. */
    method Invalidate(scope: T.Scope, now: Time) returns (r: Result<Unit, AuthError>)
      modifies this
      ensures r == T.Outcome(T.Invalidate(old(db), scope, now))
      ensures r.Success? ==> db == T.Invalidate(old(db), scope, now).value
    {
      if exists u | u in db.users :: scope.Covers(Some(u)) && db.users[u].authEpoch >= MAX_EPOCH {
        return Failure(Store);
      }
      db := db.(users := T.AdvancedUsers(db.users, scope));
      db := db.(sessions := T.RevokedSessions(db.sessions, scope, now));
      db := db.(ceremonies := T.ConsumedCeremonies(db.ceremonies, scope, now));
      db := db.(capabilities := T.ConsumedCapabilities(db.capabilities, scope, now));
      r := Success(Unit);
    }
  }

  /** The rows of the recovery-window query: purpose, consumption, expiry, and the role and state of the user. */
  predicate WindowRow(db: Db, hash: SecretHash, now: Time) {
    hash in db.capabilities && db.capabilities[hash].purpose == OperatorRecoveryWindow
    && db.capabilities[hash].consumedAt.None? && now < db.capabilities[hash].expiresAt
    && db.capabilities[hash].userId in db.users
    && db.users[db.capabilities[hash].userId].role == Operator && db.users[db.capabilities[hash].userId].enabled
  }

  class PgAuthStore {
    var db: Db

    constructor ()
      ensures db == EMPTY_DB
    {
      db := EMPTY_DB;
    }

    // ---------- Reads ----------

    method UserById(id: UserId) returns (user: Option<UserRow>)
      ensures user == if id in db.users then Some(db.users[id]) else None
    {
      user := if id in db.users then Some(db.users[id]) else None;
    }

    method UserByHandle(handle: Uuid) returns (found: Option<(UserId, UserRow)>)
      ensures found.Some? ==> found.value.0 in db.users && found.value.1 == db.users[found.value.0] && found.value.1.handle == handle
      ensures found.None? ==> forall u | u in db.users :: db.users[u].handle != handle
    {
      if u :| u in db.users && db.users[u].handle == handle {
        return Some((u, db.users[u]));
      }
      found := None;
    }

    method CredentialsForUser(id: UserId) returns (rows: map<CredentialId, CredentialRow>)
      ensures rows == T.LiveCredentials(db, id)
      ensures forall k :: k in rows <==> k in db.credentials && db.credentials[k].userId == id && db.credentials[k].revokedAt.None?
      ensures forall k | k in rows :: rows[k] == db.credentials[k]
    {
      rows := map k | k in db.credentials && db.credentials[k].userId == id && db.credentials[k].revokedAt.None? :: db.credentials[k];
    }

    method OperatorExists() returns (r: bool)
      ensures r <==> T.OperatorExists(db)
      ensures r <==> exists u :: u in db.users && db.users[u].role == Operator
    {
      r := exists u | u in db.users :: db.users[u].role == Operator;
    }

    /** The oldest enabled operator, while no operator has an unrevoked credential. */
    method OperatorWithoutCredential() returns (r: Option<UserId>)
      ensures r.Some? ==> r.value in db.users && db.users[r.value].role == Operator && db.users[r.value].enabled
      ensures r.Some? ==>
                forall k | k in db.credentials && db.credentials[k].revokedAt.None? && db.credentials[k].userId in db.users ::
                  db.users[db.credentials[k].userId].role != Operator
      ensures r.Some? ==>
                forall u | u in db.users && db.users[u].role == Operator && db.users[u].enabled ::
                  db.users[r.value].createdAt <= db.users[u].createdAt
      ensures r.None? <==>
                (exists k | k in db.credentials && db.credentials[k].revokedAt.None? && db.credentials[k].userId in db.users ::
                   db.users[db.credentials[k].userId].role == Operator)
                || forall u | u in db.users && db.users[u].role == Operator :: !db.users[u].enabled
      ensures r.Some? ==> T.OperatorWithoutCredential(db, r.value)
      ensures r.Some? ==> forall u | T.OperatorWithoutCredential(db, u) :: db.users[r.value].createdAt <= db.users[u].createdAt
      ensures r.None? ==> forall u :: !T.OperatorWithoutCredential(db, u)
    {
      if exists k | k in db.credentials :: T.IsOperator(db, db.credentials[k].userId) && db.credentials[k].revokedAt.None? {
        return None;
      }
      var rows := set u | u in db.users && db.users[u].role == Operator && db.users[u].enabled;
      assert forall u | T.OperatorWithoutCredential(db, u) :: u in rows;
      assert forall u | u in db.users && db.users[u].role == Operator && db.users[u].enabled :: u in rows;
      if rows == {} {
        return None;
      }
      ghost var users := db.users;
      FirstExists(rows, (u: UserId) => if u in users then users[u].createdAt else 0);
      var first :| first in rows && forall u | u in rows :: db.users[first].createdAt <= db.users[u].createdAt;
      r := Some(first);
    }

    /** The newest live operator-recovery capability of an enabled operator. */
    method OperatorRecoveryWindow(now: Time) returns (r: Option<(UserId, SecretHash)>)
      ensures r.Some? ==> WindowRow(db, r.value.1, now) && r.value.0 == db.capabilities[r.value.1].userId
      ensures r.Some? ==> forall h | WindowRow(db, h, now) :: db.capabilities[h].createdAt <= db.capabilities[r.value.1].createdAt
      ensures r.None? <==> forall h :: !WindowRow(db, h, now)
      ensures r.Some? ==> T.RecoveryWindow(db, r.value.1, now) && r.value.0 == db.capabilities[r.value.1].userId
      ensures r.Some? ==>
                forall h | T.RecoveryWindow(db, h, now) :: db.capabilities[h].createdAt <= db.capabilities[r.value.1].createdAt
      ensures r.None? ==> forall h :: !T.RecoveryWindow(db, h, now)
    {
      var rows: set<SecretHash> := set h | h in db.capabilities && T.RecoveryWindow(db, h, now);
      assert forall h | T.RecoveryWindow(db, h, now) :: h in rows;
      assert forall h | WindowRow(db, h, now) :: h in rows;
      if rows == {} {
        return None;
      }
      ghost var capabilities := db.capabilities;
      FirstExists<SecretHash>(rows, (h: SecretHash) => if h in capabilities then -capabilities[h].createdAt else 0);
      var last :| last in rows && forall h | h in rows :: db.capabilities[h].createdAt <= db.capabilities[last].createdAt;
      r := Some((db.capabilities[last].userId, last));
    }

    method FindCapability(hash: SecretHash, purpose: CapabilityPurpose, now: Time) returns (r: Option<CapabilityRow>)
      ensures r == if T.CapabilityUsable(db, hash, purpose, now) then Some(db.capabilities[hash]) else None
      ensures r.Some? <==> hash in db.capabilities && db.capabilities[hash].purpose == purpose
                           && db.capabilities[hash].consumedAt.None? && now < db.capabilities[hash].expiresAt
    {
      if hash !in db.capabilities {
        return None;
      }
      var row := db.capabilities[hash];
      r := if row.purpose == purpose && row.consumedAt.None? && row.expiresAt > now then Some(row) else None;
    }

    method FindCeremony(id: Uuid, kind: CeremonyKind, now: Time) returns (r: Option<CeremonyRow>)
      ensures r == if T.CeremonyUsable(db, id, kind, now) then Some(db.ceremonies[id]) else None
      ensures r.Some? <==> id in db.ceremonies && db.ceremonies[id].kind == kind
                           && db.ceremonies[id].consumedAt.None? && now < db.ceremonies[id].expiresAt
    {
      if id !in db.ceremonies {
        return None;
      }
      var row := db.ceremonies[id];
      r := if row.kind == kind && row.consumedAt.None? && row.expiresAt > now then Some(row) else None;
    }

    // ---------- Writes ----------

    method InsertUser(id: UserId, user: UserRow, now: Time, audit: AuditEvent) returns (r: Result<Unit, AuthError>)
      modifies this
      ensures r == T.Outcome(T.InsertUser(old(db), id, user, now, audit))
      ensures db == T.Commit(old(db), T.InsertUser(old(db), id, user, now, audit))
    {
      var tx := new Transaction(db);
      var _ :- tx.InsertUser(id, user, now);
      var _ :- tx.InsertAudit(audit, now);
      db := tx.db;
      r := Success(Unit);
    }

    method ApproveUserWithSetup(id: UserId, user: UserRow, capability: Capability, operatorId: UserId, now: Time)
      returns (r: Result<Unit, AuthError>)
      modifies this
      ensures r == T.Outcome(T.ApproveUserWithSetup(old(db), id, user, capability, operatorId, now))
      ensures db == T.Commit(old(db), T.ApproveUserWithSetup(old(db), id, user, capability, operatorId, now))
    {
      var tx := new Transaction(db);
      var _ :- tx.InsertUser(id, user, now);
      var _ :- tx.InsertCapability(capability);
      var _ :- tx.InsertAudit(AuditEvent("user.approved_with_setup", Some(operatorId), Some(id)), now);
      db := tx.db;
      r := Success(Unit);
    }

    method RotateAllAuthEpochs(now: Time) returns (r: Result<nat, AuthError>)
      modifies this
      ensures db == T.Commit(old(db), T.RotateAllAuthEpochs(old(db), now))
      ensures r == match T.RotateAllAuthEpochs(old(db), now)
                   case Success(_) => Success(|old(db).users|)
                   case Failure(e) => Failure(e)
    {
      var users := |db.users|;
      var tx := new Transaction(db);
      var _ :- tx.Invalidate(T.Everyone, now);
      var _ :- tx.InsertAudit(AuditEvent("auth.epoch_rotated_all", None, None), now);
      db := tx.db;
      r := Success(users);
    }

    method InsertCeremony(id: Uuid, row: CeremonyRow) returns (r: Result<Unit, AuthError>)
      modifies this
      ensures r == T.Outcome(T.InsertCeremony(old(db), id, row))
      ensures db == T.Commit(old(db), T.InsertCeremony(old(db), id, row))
    {
      if id in db.ceremonies || !T.References(db, row.userId) {
        return Failure(Store);
      }
      db := db.(ceremonies := db.ceremonies[id := row]);
      r := Success(Unit);
    }

    method CompleteRegistration(ceremonyId: Uuid, capabilityHash: Option<SecretHash>, credential: VerifiedCredential,
                                rowId: Uuid, now: Time, audit: AuditEvent)
      returns (r: Result<Unit, AuthError>)
      modifies this
      ensures r == T.Outcome(T.CompleteRegistration(old(db), ceremonyId, capabilityHash, credential, rowId, now, audit))
      ensures db == T.Commit(old(db), T.CompleteRegistration(old(db), ceremonyId, capabilityHash, credential, rowId, now, audit))
    {
      var tx := new Transaction(db);
      var ceremony := tx.ConsumeCeremony(ceremonyId, now);
      if ceremony.None? {
        return Failure(InvalidState);
      }
      if ceremony.value.userId.None? {
        return Failure(Store);
      }
      if ceremony.value.kind == OperatorBootstrap {
        if exists k | k in tx.db.credentials ::
             T.IsOperator(tx.db, tx.db.credentials[k].userId) && tx.db.credentials[k].revokedAt.None? {
          return Failure(Conflict);
        }
      }
      if capabilityHash.Some? {
        var consumed := tx.ConsumeCapability(capabilityHash.value, now);
        if consumed != 1 {
          return Failure(InvalidState);
        }
      }
      var _ :- tx.InsertCredential(ceremony.value.userId.value, credential, rowId, now);
      tx.CompleteRecoveries(audit.subject, now);
      var _ :- tx.InsertAudit(audit, now);
      db := tx.db;
      r := Success(Unit);
    }

    method CompleteAuthentication(ceremonyId: Uuid, verification: AuthenticationVerification, session: SessionRecord,
                                  now: Time, audit: AuditEvent)
      returns (r: Result<Unit, AuthError>)
      modifies this
      ensures r == T.Outcome(T.CompleteAuthentication(old(db), ceremonyId, verification, session, now, audit))
      ensures db == T.Commit(old(db), T.CompleteAuthentication(old(db), ceremonyId, verification, session, now, audit))
    {
      var ceremony := FindCeremony(ceremonyId, Authentication, now);
      if ceremony.None? {
        return Failure(InvalidState);
      }
      var tx := new Transaction(db);
      var _ := tx.ConsumeCeremony(ceremonyId, now);
      var k := verification.credentialId;
      if k !in tx.db.credentials || tx.db.credentials[k].userId != session.userId || tx.db.credentials[k].revokedAt.Some? {
        return Failure(Unauthenticated);
      }
      var used := tx.db.credentials[k].(publicData := verification.updatedPublicData, lastUsedAt := Some(now));
      tx.db := tx.db.(credentials := tx.db.credentials[k := used]);
      if session.tokenHash in tx.db.sessions || session.userId !in tx.db.users
         || exists h | h in tx.db.sessions :: tx.db.sessions[h].id == session.id {
        return Failure(Store);
      }
      var row := SessionRow(session.id, session.userId, session.csrfHash, session.authEpoch, session.idleExpiresAt,
                            session.absoluteExpiresAt, now, now, None);
      tx.db := tx.db.(sessions := tx.db.sessions[session.tokenHash := row]);
      var _ :- tx.InsertAudit(audit, now);
      db := tx.db;
      r := Success(Unit);
    }

    method Session(hash: SecretHash, now: Time, idleExpiresAt: Time) returns (r: Option<SessionPrincipal>)
      modifies this
      ensures (db, r) == T.Session(old(db), hash, now, idleExpiresAt)
    {
      if !T.SessionAccepted(db, hash, now) {
        return None;
      }
      var s := db.sessions[hash];
      var boundedIdle := if idleExpiresAt <= s.absoluteExpiresAt then idleExpiresAt else s.absoluteExpiresAt;
      r := Some(SessionPrincipal(s.id, s.userId, db.users[s.userId], s.csrfHash, s.absoluteExpiresAt));
      db := db.(sessions := db.sessions[hash := s.(idleExpiresAt := boundedIdle, lastSeenAt := now)]);
    }

    method RotateSessionCsrf(hash: SecretHash, csrfHash: SecretHash, now: Time, idleExpiresAt: Time) returns (r: Option<SessionPrincipal>)
      modifies this
      ensures (db, r) == T.RotateSessionCsrf(old(db), hash, csrfHash, now, idleExpiresAt)
    {
      if !T.SessionAccepted(db, hash, now) {
        return None;
      }
      var s := db.sessions[hash];
      var boundedIdle := if idleExpiresAt <= s.absoluteExpiresAt then idleExpiresAt else s.absoluteExpiresAt;
      r := Some(SessionPrincipal(s.id, s.userId, db.users[s.userId], csrfHash, s.absoluteExpiresAt));
      db := db.(sessions := db.sessions[hash := s.(csrfHash := csrfHash, idleExpiresAt := boundedIdle, lastSeenAt := now)]);
    }

    method DeleteSession(hash: SecretHash, dbNow: Time)
      modifies this
      ensures db == T.DeleteSession(old(db), hash, dbNow)
    {
      if hash in db.sessions && db.sessions[hash].revokedAt.None? {
        db := db.(sessions := db.sessions[hash := db.sessions[hash].(revokedAt := Some(dbNow))]);
      }
    }

    method CreateRecovery(id: Uuid, userId: UserId, now: Time) returns (r: Result<Unit, AuthError>)
      modifies this
      ensures r == T.Outcome(T.CreateRecovery(old(db), id, userId, now))
      ensures db == T.Commit(old(db), T.CreateRecovery(old(db), id, userId, now))
    {
      if id in db.recoveries || exists q | q in db.recoveries :: T.Pending(db.recoveries[q]) && db.recoveries[q].userId == userId {
        return Failure(Conflict);
      }
      if userId !in db.users {
        return Failure(Store);
      }
      db := db.(recoveries := db.recoveries[id := RecoveryRow(userId, now, None, None, None, None)]);
      r := Success(Unit);
    }

    method ApproveRecovery(id: Uuid, operatorId: UserId, now: Time) returns (r: Result<Unit, AuthError>)
      modifies this
      ensures r == T.Outcome(T.ApproveRecovery(old(db), id, operatorId, now))
      ensures db == T.Commit(old(db), T.ApproveRecovery(old(db), id, operatorId, now))
    {
      if id !in db.recoveries || db.recoveries[id].approvedAt.Some? || db.recoveries[id].completedAt.Some? {
        return Failure(Conflict);
      }
      if operatorId !in db.users {
        return Failure(Store);
      }
      var tx := new Transaction(db);
      var row := tx.db.recoveries[id].(approvedAt := Some(now), approvedBy := Some(operatorId));
      tx.db := tx.db.(recoveries := tx.db.recoveries[id := row]);
      var _ :- tx.Invalidate(T.OneUser(row.userId), now);
      var _ :- tx.InsertAudit(AuditEvent("recovery.approved", Some(operatorId), Some(row.userId)), now);
      db := tx.db;
      r := Success(Unit);
    }

    method IssueRecoverySetup(id: Uuid, capability: Capability, operatorId: UserId, now: Time) returns (r: Result<Unit, AuthError>)
      modifies this
      ensures r == T.Outcome(T.IssueRecoverySetup(old(db), id, capability, operatorId, now))
      ensures db == T.Commit(old(db), T.IssueRecoverySetup(old(db), id, capability, operatorId, now))
    {
      if id !in db.recoveries || !T.SetupIssuable(db.recoveries[id], capability.userId) {
        return Failure(Conflict);
      }
      var tx := new Transaction(db);
      tx.db := tx.db.(recoveries := tx.db.recoveries[id := tx.db.recoveries[id].(setupIssuedAt := Some(now))]);
      var _ :- tx.InsertCapability(capability);
      var _ :- tx.InsertAudit(AuditEvent("recovery.setup_issued", Some(operatorId), Some(capability.userId)), now);
      db := tx.db;
      r := Success(Unit);
    }

    method BreakGlass(rowId: Uuid, capability: Capability, now: Time) returns (r: Result<Unit, AuthError>)
      requires T.UniqueCredentialRows(db)
      modifies this
      ensures r == T.Outcome(T.BreakGlass(old(db), rowId, capability, now))
      ensures db == T.Commit(old(db), T.BreakGlass(old(db), rowId, capability, now))
    {
      var userId: UserId;
      if k :| k in db.credentials && T.BreakGlassTarget(db, k, rowId) {
        userId := db.credentials[k].userId;
      } else {
        return Failure(Conflict);
      }
      if capability.userId != userId {
        return Failure(Forbidden);
      }
      var tx := new Transaction(db);
      tx.db := tx.db.(credentials := T.RevokedCredentials(tx.db, rowId, now));
      var _ :- tx.Invalidate(T.OneUser(userId), now);
      var _ :- tx.InsertCapability(capability);
      var _ :- tx.InsertAudit(AuditEvent("operator.break_glass_opened", None, Some(capability.userId)), now);
      db := tx.db;
      r := Success(Unit);
    }
  }
}
