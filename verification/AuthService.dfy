/**
 The authentication service over the store. Operations read, let the ceremony engine
 decide, and write; here each one runs without interruption. Its effect on the store is
 that of its own steps in `AuthRuns`, so a run is an interleaving of these operations.
 Row ids and random tokens are arguments; the engine is any functions whatever.
*/
module AuthService {
  import opened Wrappers
  import opened AuthTables
  import opened AuthTransactions
  import opened AuthRuns
  import opened AuthStore
  import opened Texts

  type SecretToken = nat

  /** Challenge for the client and state for the server. */
  datatype Started = Started(challenge: Blob, state: Blob)

  datatype CeremonyEngine = CeremonyEngine(
    startRegistration: (UserRow, map<CredentialId, CredentialRow>) -> Result<Started, AuthError>,
    finishRegistration: (Blob, Blob) -> Result<VerifiedCredential, AuthError>,
    startAuthentication: Result<Started, AuthError>,
    authenticationUserHandle: Blob -> Result<Uuid, AuthError>,
    finishAuthentication: (Blob, Blob, map<CredentialId, CredentialRow>) -> Result<AuthenticationVerification, AuthError>)

  datatype SessionGrant = SessionGrant(token: SecretToken, csrf: SecretToken, record: SessionRecord)

  /** What some steps do to the tables when nothing is in flight and nothing interleaves. */
  function Alone(config: AuthConfig, db: Db, steps: seq<Step>): Db {
    Execute(Start(config).(db := db), steps).db
  }

  // ---------- Operations run alone ----------

  lemma SetupAlone(config: AuthConfig, db: Db, hash: SecretHash, purpose: CapabilityPurpose, now: Time, ceremonyId: Uuid, state: Blob)
    requires CapabilityUsable(db, hash, purpose, now)
    requires db.capabilities[hash].userId in db.users && db.users[db.capabilities[hash].userId].enabled
    ensures var row := CeremonyRow(Registration, Some(db.capabilities[hash].userId), Some(hash), state, now + config.ceremonyTtl, None);
            Alone(config, db, SetupSteps(hash, purpose, now, ceremonyId, state)) == Commit(db, InsertCeremony(db, ceremonyId, row))
  {
    var s := Start(config).(db := db);
    ThreeSteps(s, Reads(SetupReadsCapability(hash, purpose, now)), Reads(SetupReadsUser(0)), Writes(SetupInserts(0, ceremonyId, state)));
  }

  function SetupSteps(hash: SecretHash, purpose: CapabilityPurpose, now: Time, ceremonyId: Uuid, state: Blob): seq<Step> {
    [Reads(SetupReadsCapability(hash, purpose, now)), Reads(SetupReadsUser(0)), Writes(SetupInserts(0, ceremonyId, state))]
  }

  /** The user, and the recovery window if there is one, that the queries of a bootstrap pick. */
  ghost predicate PickedForBootstrap(db: Db, now: Time, userId: UserId, window: Option<SecretHash>) {
    match window
    case Some(hash) =>
      RecoveryWindow(db, hash, now) && userId == db.capabilities[hash].userId
      && forall h | RecoveryWindow(db, h, now) :: db.capabilities[h].createdAt <= db.capabilities[hash].createdAt
    case None =>
      (forall h :: !RecoveryWindow(db, h, now)) && OperatorWithoutCredential(db, userId)
      && forall u | OperatorWithoutCredential(db, u) :: db.users[userId].createdAt <= db.users[u].createdAt
  }

  function BootstrapSteps(userId: UserId, window: Option<SecretHash>, now: Time, ceremonyId: Uuid, state: Blob): seq<Step> {
    if window.Some? then [Reads(BootstrapReadsWindow(window, now)), Writes(BootstrapInserts(0, ceremonyId, state))]
    else [Reads(BootstrapReadsWindow(None, now)), Reads(BootstrapReadsOperator(0, userId)), Writes(BootstrapInserts(0, ceremonyId, state))]
  }

  function BootstrapKind(window: Option<SecretHash>): CeremonyKind {
    if window.Some? then CeremonyKind.OperatorRecovery else OperatorBootstrap
  }

  lemma BootstrapAlone(config: AuthConfig, db: Db, userId: UserId, window: Option<SecretHash>, now: Time, ceremonyId: Uuid, state: Blob)
    requires PickedForBootstrap(db, now, userId, window)
    ensures var row := CeremonyRow(BootstrapKind(window), Some(userId), window, state, now + config.ceremonyTtl, None);
            Alone(config, db, BootstrapSteps(userId, window, now, ceremonyId, state)) == Commit(db, InsertCeremony(db, ceremonyId, row))
  {
    var s := Start(config).(db := db);
    if window.Some? {
      TwoSteps(s, Reads(BootstrapReadsWindow(window, now)), Writes(BootstrapInserts(0, ceremonyId, state)));
    } else {
      ThreeSteps(s, Reads(BootstrapReadsWindow(None, now)), Reads(BootstrapReadsOperator(0, userId)),
                 Writes(BootstrapInserts(0, ceremonyId, state)));
      BootstrapOperatorReadAlone(s, userId, now);
    }
    BootstrapWriteAlone(Begin(s, BootstrapHasUser(userId, window, now)), ceremonyId, state);
  }

  lemma BootstrapOperatorReadAlone(s: System, userId: UserId, now: Time)
    requires OperatorWithoutCredential(s.db, userId) && (forall h :: !RecoveryWindow(s.db, h, now)) && s.ops == map[] && s.nextOp == 0
    ensures Apply(Apply(s, Reads(BootstrapReadsWindow(None, now))), Reads(BootstrapReadsOperator(0, userId)))
            == Begin(s, BootstrapHasUser(userId, None, now))
  {}

  lemma BootstrapWriteAlone(s: System, ceremonyId: Uuid, state: Blob)
    requires 0 in s.ops && s.ops[0].BootstrapHasUser?
    ensures var op := s.ops[0];
            var row := CeremonyRow(BootstrapKind(op.window), Some(op.userId), op.window, state, op.now + s.config.ceremonyTtl, None);
            BootstrapInsert(s, 0, ceremonyId, state).db == Commit(s.db, InsertCeremony(s.db, ceremonyId, row))
  {}

  /** A started bootstrap: whom it picked, what it returned and what it stored. */
  ghost predicate BootstrapStarted(config: AuthConfig, engine: CeremonyEngine, db: Db, now: Time, ceremonyId: Uuid, userId: UserId,
                                   window: Option<SecretHash>, after: Db, r: (Uuid, Blob, CeremonyKind)) {
    PickedForBootstrap(db, now, userId, window)
    && var started := engine.startRegistration(db.users[userId], map[]);
       started.Success? && r == (ceremonyId, started.value.challenge, BootstrapKind(window))
       && after == Alone(config, db, BootstrapSteps(userId, window, now, ceremonyId, started.value.state))
       && CeremonyFor(after, ceremonyId, BootstrapKind(window), now + config.ceremonyTtl)
  }

  function RegistrationSteps(ceremonyId: Uuid, kind: CeremonyKind, now: Time, credential: VerifiedCredential, rowId: Uuid): seq<Step> {
    [Reads(RegistrationReads(ceremonyId, kind, now)), Writes(RegistrationCompletes(0, credential, rowId))]
  }

  lemma RegistrationAlone(config: AuthConfig, db: Db, ceremonyId: Uuid, kind: CeremonyKind, now: Time, credential: VerifiedCredential,
                          rowId: Uuid)
    requires CeremonyUsable(db, ceremonyId, kind, now) && db.ceremonies[ceremonyId].userId.Some?
    ensures var user := db.ceremonies[ceremonyId].userId;
            Alone(config, db, RegistrationSteps(ceremonyId, kind, now, credential, rowId))
            == Commit(db, CompleteRegistration(db, ceremonyId, db.ceremonies[ceremonyId].capabilityHash, credential, rowId, now,
                                               AuditEvent("passkey.registered", user, user)))
  {
    TwoSteps(Start(config).(db := db), Reads(RegistrationReads(ceremonyId, kind, now)), Writes(RegistrationCompletes(0, credential, rowId)));
  }

  function LoginSteps(ceremonyId: Uuid, now: Time, userId: UserId, verification: AuthenticationVerification, sessionId: Uuid,
                      tokenHash: SecretHash, csrfHash: SecretHash): seq<Step> {
    [Reads(LoginReadsCeremony(ceremonyId, now)), Reads(LoginReadsUser(0, userId)),
     Writes(LoginCompletes(0, verification, sessionId, tokenHash, csrfHash))]
  }

  lemma LoginReadsAlone(config: AuthConfig, db: Db, ceremonyId: Uuid, now: Time, userId: UserId)
    requires CeremonyUsable(db, ceremonyId, Authentication, now) && userId in db.users && db.users[userId].enabled
    ensures var s := Start(config).(db := db);
            Apply(Apply(s, Reads(LoginReadsCeremony(ceremonyId, now))), Reads(LoginReadsUser(0, userId)))
            == s.(ops := map[0 := LoginHasUser(ceremonyId, userId, db.users[userId].authEpoch, now)], nextOp := 1)
  {}

  lemma LoginAlone(config: AuthConfig, db: Db, ceremonyId: Uuid, now: Time, userId: UserId, verification: AuthenticationVerification,
                   session: SessionRecord)
    requires CeremonyUsable(db, ceremonyId, Authentication, now) && userId in db.users && db.users[userId].enabled
    requires session == SessionRecord(session.id, userId, session.tokenHash, session.csrfHash, db.users[userId].authEpoch,
                                      now + config.sessionIdleTtl, now + config.sessionAbsoluteTtl)
    ensures Alone(config, db, LoginSteps(ceremonyId, now, userId, verification, session.id, session.tokenHash, session.csrfHash))
            == Commit(db, CompleteAuthentication(db, ceremonyId, verification, session, now,
                                                 AuditEvent("session.created", Some(userId), Some(userId))))
  {
    var s := Start(config).(db := db);
    var completes := Writes(LoginCompletes(0, verification, session.id, session.tokenHash, session.csrfHash));
    ThreeSteps(s, Reads(LoginReadsCeremony(ceremonyId, now)), Reads(LoginReadsUser(0, userId)), completes);
    LoginReadsAlone(config, db, ceremonyId, now, userId);
    LoginWriteAlone(s.(ops := map[0 := LoginHasUser(ceremonyId, userId, db.users[userId].authEpoch, now)], nextOp := 1),
                    verification, session);
  }

  lemma LoginWriteAlone(s: System, verification: AuthenticationVerification, session: SessionRecord)
    requires 0 in s.ops && s.ops[0].LoginHasUser?
    requires session == LoginSession(s.config, s.ops[0], session.id, session.tokenHash, session.csrfHash)
    ensures LoginComplete(s, 0, verification, session.id, session.tokenHash, session.csrfHash).db
            == Commit(s.db, LoginTx(s, s.ops[0], verification, session))
  {}

  /** A committed login's session is accepted at once, until its first expiry. */
  lemma NewSessionIsAccepted(db: Db, ceremonyId: Uuid, verification: AuthenticationVerification, session: SessionRecord, now: Time,
                             audit: AuditEvent, at: Time)
    requires session.userId in db.users && db.users[session.userId].enabled && session.authEpoch == db.users[session.userId].authEpoch
    requires CompleteAuthentication(db, ceremonyId, verification, session, now, audit).Success?
    ensures SessionAccepted(CompleteAuthentication(db, ceremonyId, verification, session, now, audit).value, session.tokenHash, at)
            <==> at < session.idleExpiresAt && at < session.absoluteExpiresAt
  {}

  /** What the engine answers for a user and their unrevoked credentials. */
  function EngineStart(engine: CeremonyEngine, db: Db, userId: UserId): Result<Started, AuthError>
    requires userId in db.users
  {
    engine.startRegistration(db.users[userId], LiveCredentials(db, userId))
  }

  ghost predicate SetupStarts(engine: CeremonyEngine, db: Db, hash: SecretHash, purpose: CapabilityPurpose, now: Time) {
    CapabilityUsable(db, hash, purpose, now)
    && db.capabilities[hash].userId in db.users && db.users[db.capabilities[hash].userId].enabled
    && EngineStart(engine, db, db.capabilities[hash].userId).Success?
  }

  /** Why a setup does not start: no live capability of an enabled user, the engine's own error, or a ceremony id that is taken. */
  ghost function SetupError(engine: CeremonyEngine, db: Db, hash: SecretHash, purpose: CapabilityPurpose, now: Time): AuthError {
    if !CapabilityUsable(db, hash, purpose, now) || db.capabilities[hash].userId !in db.users
       || !db.users[db.capabilities[hash].userId].enabled then InvalidToken
    else
      var started := EngineStart(engine, db, db.capabilities[hash].userId);
      if started.Failure? then started.error else Store
  }

  ghost predicate RegistrationFinishes(engine: CeremonyEngine, db: Db, ceremonyId: Uuid, kind: CeremonyKind, response: Blob, now: Time,
                                       rowId: Uuid) {
    CeremonyUsable(db, ceremonyId, kind, now)
    && var row := db.ceremonies[ceremonyId];
       var verified := engine.finishRegistration(response, row.state);
       verified.Success? && row.userId.Some?
       && CompleteRegistration(db, ceremonyId, row.capabilityHash, verified.value, rowId, now,
                               AuditEvent("passkey.registered", row.userId, row.userId)).Success?
  }

  /** The user has the handle in the response, the engine accepts it, and the completing transaction commits. */
  ghost predicate LoginFinishes(engine: CeremonyEngine, db: Db, ceremonyId: Uuid, response: Blob, now: Time, userId: UserId,
                                record: SessionRecord) {
    CeremonyUsable(db, ceremonyId, Authentication, now)
    && userId in db.users && db.users[userId].enabled
    && engine.authenticationUserHandle(response) == Success(db.users[userId].handle)
    && var verified := engine.finishAuthentication(response, db.ceremonies[ceremonyId].state, LiveCredentials(db, userId));
       verified.Success?
       && CompleteAuthentication(db, ceremonyId, verified.value, record, now,
                                 AuditEvent("session.created", Some(userId), Some(userId))).Success?
  }

  predicate ValidContact(email: string, displayName: string) {
    Trim(email) != "" && '@' in Trim(email) && Trim(displayName) != ""
  }

  class AuthService {
    const store: PgAuthStore
    const engine: CeremonyEngine
    const config: AuthConfig
    const hash: SecretToken -> SecretHash

    constructor (store: PgAuthStore, engine: CeremonyEngine, config: AuthConfig, hash: SecretToken -> SecretHash)
      ensures this.store == store && this.engine == engine && this.config == config && this.hash == hash
    {
      this.store, this.engine, this.config, this.hash := store, engine, config, hash;
    }

    method StartSetupRegistration(token: SecretToken, purpose: CapabilityPurpose, now: Time, ceremonyId: Uuid)
      returns (r: Result<(Uuid, Blob), AuthError>)
      modifies store
      ensures r.Failure? ==> store.db == old(store.db)
      ensures r.Failure? ==> r.error == SetupError(engine, old(store.db), hash(token), purpose, now)
      ensures r.Success? <==> SetupStarts(engine, old(store.db), hash(token), purpose, now) && ceremonyId !in old(store.db).ceremonies
      ensures r.Success? ==>
                var started := EngineStart(engine, old(store.db), old(store.db).capabilities[hash(token)].userId).value;
                r.value.1 == started.challenge
                && store.db == Alone(config, old(store.db), SetupSteps(hash(token), purpose, now, ceremonyId, started.state))
      ensures r.Success? ==> r.value.0 == ceremonyId && CeremonyFor(store.db, ceremonyId, Registration, now + config.ceremonyTtl)
                             && store.db.ceremonies[ceremonyId].capabilityHash == Some(hash(token))
    {
      var capability := store.FindCapability(hash(token), purpose, now);
      if capability.None? {
        return Failure(InvalidToken);
      }
      var userId := capability.value.userId;
      var user := store.UserById(userId);
      if user.None? || !user.value.enabled {
        return Failure(InvalidToken);
      }
      var credentials := store.CredentialsForUser(userId);
      var started :- engine.startRegistration(user.value, credentials);
      ghost var db := store.db;
      var row := CeremonyRow(Registration, Some(userId), Some(hash(token)), started.state, now + config.ceremonyTtl, None);
      var _ :- store.InsertCeremony(ceremonyId, row);
      assert store.db == Alone(config, db, SetupSteps(hash(token), purpose, now, ceremonyId, started.state)) by {
        SetupAlone(config, db, hash(token), purpose, now, ceremonyId, started.state);
      }
      r := Success((ceremonyId, started.challenge));
    }

    method StartOperatorBootstrap(now: Time, ceremonyId: Uuid) returns (r: Result<(Uuid, Blob, CeremonyKind), AuthError>)
      modifies store
      ensures r.Failure? ==> store.db == old(store.db)
      ensures (forall u, w :: !PickedForBootstrap(old(store.db), now, u, w)) ==> r == Failure(Conflict)
      ensures r.Failure? ==>
                (forall u, w :: !PickedForBootstrap(old(store.db), now, u, w))
                || exists u, w :: PickedForBootstrap(old(store.db), now, u, w)
                     && var started := engine.startRegistration(old(store.db).users[u], map[]);
                        if started.Failure? then r.error == started.error
                        else ceremonyId in old(store.db).ceremonies && r.error == Store
      ensures r.Success? ==>
                exists u, w :: BootstrapStarted(config, engine, old(store.db), now, ceremonyId, u, w, store.db, r.value)
    {
      var window := store.OperatorRecoveryWindow(now);
      var userId: UserId, capabilityHash: Option<SecretHash>, kind: CeremonyKind;
      if window.Some? {
        userId, capabilityHash, kind := window.value.0, Some(window.value.1), CeremonyKind.OperatorRecovery;
      } else {
        var operator := store.OperatorWithoutCredential();
        if operator.None? {
          return Failure(Conflict);
        }
        userId, capabilityHash, kind := operator.value, None, OperatorBootstrap;
      }
      var user := store.UserById(userId);
      assert PickedForBootstrap(store.db, now, userId, capabilityHash);
      ghost var db := store.db;
      var started :- engine.startRegistration(user.value, map[]);
      BootstrapAlone(config, db, userId, capabilityHash, now, ceremonyId, started.state);
      var row := CeremonyRow(kind, Some(userId), capabilityHash, started.state, now + config.ceremonyTtl, None);
      var _ :- store.InsertCeremony(ceremonyId, row);
      r := Success((ceremonyId, started.challenge, kind));
      assert BootstrapStarted(config, engine, db, now, ceremonyId, userId, capabilityHash, store.db, r.value);
    }

    method FinishRegistration(ceremonyId: Uuid, kind: CeremonyKind, response: Blob, now: Time, rowId: Uuid)
      returns (r: Result<Unit, AuthError>)
      modifies store
      ensures r.Failure? ==> store.db == old(store.db)
      ensures !CeremonyUsable(old(store.db), ceremonyId, kind, now) ==> r == Failure(InvalidState)
      ensures CeremonyUsable(old(store.db), ceremonyId, kind, now) ==>
                var row := old(store.db).ceremonies[ceremonyId];
                var verified := engine.finishRegistration(response, row.state);
                if verified.Failure? then r == Failure(verified.error)
                else if row.userId.None? then r == Failure(InvalidState)
                else r == Outcome(CompleteRegistration(old(store.db), ceremonyId, row.capabilityHash, verified.value, rowId, now,
                                                       AuditEvent("passkey.registered", row.userId, row.userId)))
      ensures r.Success? <==> RegistrationFinishes(engine, old(store.db), ceremonyId, kind, response, now, rowId)
      ensures r.Success? ==>
                var verified := engine.finishRegistration(response, old(store.db).ceremonies[ceremonyId].state);
                store.db == Alone(config, old(store.db), RegistrationSteps(ceremonyId, kind, now, verified.value, rowId))
    {
      var ceremony := store.FindCeremony(ceremonyId, kind, now);
      if ceremony.None? {
        return Failure(InvalidState);
      }
      var credential :- engine.finishRegistration(response, ceremony.value.state);
      if ceremony.value.userId.None? {
        return Failure(InvalidState);
      }
      RegistrationAlone(config, store.db, ceremonyId, kind, now, credential, rowId);
      r := store.CompleteRegistration(ceremonyId, ceremony.value.capabilityHash, credential, rowId, now,
                                      AuditEvent("passkey.registered", ceremony.value.userId, ceremony.value.userId));
    }

    method StartAuthentication(now: Time, ceremonyId: Uuid) returns (r: Result<(Uuid, Blob), AuthError>)
      modifies store
      ensures r.Failure? ==> store.db == old(store.db)
      ensures r.Success? <==> engine.startAuthentication.Success? && ceremonyId !in old(store.db).ceremonies
      ensures r.Failure? ==> r.error == if engine.startAuthentication.Failure? then engine.startAuthentication.error else Store
      ensures r.Success? ==>
                r.value == (ceremonyId, engine.startAuthentication.value.challenge)
                && store.db == LoginStart(Start(config).(db := old(store.db)), ceremonyId, engine.startAuthentication.value.state, now).db
      ensures r.Success? ==> CeremonyFor(store.db, ceremonyId, Authentication, now + config.ceremonyTtl)
    {
      var started :- engine.startAuthentication;
      var row := CeremonyRow(Authentication, None, None, started.state, now + config.ceremonyTtl, None);
      var _ :- store.InsertCeremony(ceremonyId, row);
      r := Success((ceremonyId, started.challenge));
    }

    /** Why a login of the user with the handle fails: disabled, the engine's own error, or that of the completing transaction. */
    ghost function LoginFailure(db: Db, ceremonyId: Uuid, response: Blob, now: Time, userId: UserId, token: SecretToken,
                                csrf: SecretToken, sessionId: Uuid): AuthError
      requires userId in db.users && ceremonyId in db.ceremonies
    {
      var verified := engine.finishAuthentication(response, db.ceremonies[ceremonyId].state, LiveCredentials(db, userId));
      if !db.users[userId].enabled then Unauthenticated
      else if verified.Failure? then verified.error
      else
        var tx := CompleteAuthentication(db, ceremonyId, verified.value, RecordFor(db, userId, now, token, csrf, sessionId), now,
                                         AuditEvent("session.created", Some(userId), Some(userId)));
        if tx.Failure? then tx.error else Store
    }

    /** The session a login by this user would store: it carries the user's present epoch. */
    function RecordFor(db: Db, userId: UserId, now: Time, token: SecretToken, csrf: SecretToken, sessionId: Uuid): SessionRecord
      requires userId in db.users
    {
      SessionRecord(sessionId, userId, hash(token), hash(csrf), db.users[userId].authEpoch,
                    now + config.sessionIdleTtl, now + config.sessionAbsoluteTtl)
    }

    method FinishAuthentication(ceremonyId: Uuid, response: Blob, now: Time, token: SecretToken, csrf: SecretToken, sessionId: Uuid)
      returns (r: Result<(SessionGrant, UserId), AuthError>)
      modifies store
      ensures r.Failure? ==> store.db == old(store.db)
      ensures !CeremonyUsable(old(store.db), ceremonyId, Authentication, now) ==> r == Failure(InvalidState)
      ensures CeremonyUsable(old(store.db), ceremonyId, Authentication, now) ==>
                var handle := engine.authenticationUserHandle(response);
                (handle.Failure? ==> r == Failure(handle.error))
                && (handle.Success? && (forall u | u in old(store.db).users :: old(store.db).users[u].handle != handle.value)
                    ==> r == Failure(Unauthenticated))
                && (handle.Success? && UniqueUsers(old(store.db)) ==>
                      forall u | u in old(store.db).users && old(store.db).users[u].handle == handle.value ::
                        r.Failure? ==> r.error == LoginFailure(old(store.db), ceremonyId, response, now, u, token, csrf, sessionId))
      ensures r.Success? ==>
                LoginFinishes(engine, old(store.db), ceremonyId, response, now, r.value.1, r.value.0.record)
                && r.value.0 == SessionGrant(token, csrf, RecordFor(old(store.db), r.value.1, now, token, csrf, sessionId))
      ensures forall u | u in old(store.db).users && UniqueUsers(old(store.db)) ::
                LoginFinishes(engine, old(store.db), ceremonyId, response, now, u, RecordFor(old(store.db), u, now, token, csrf, sessionId))
                ==> r.Success? && r.value.1 == u
      ensures r.Success? ==>
                var verified := engine.finishAuthentication(response, old(store.db).ceremonies[ceremonyId].state,
                                                            LiveCredentials(old(store.db), r.value.1));
                store.db == Alone(config, old(store.db),
                                  LoginSteps(ceremonyId, now, r.value.1, verified.value, sessionId, hash(token), hash(csrf)))
      ensures r.Success? ==>
                forall at :: SessionAccepted(store.db, hash(token), at)
                             <==> at < now + config.sessionIdleTtl && at < now + config.sessionAbsoluteTtl
    {
      var ceremony := store.FindCeremony(ceremonyId, Authentication, now);
      if ceremony.None? {
        return Failure(InvalidState);
      }
      var handle :- engine.authenticationUserHandle(response);
      var found := store.UserByHandle(handle);
      if found.None? || !found.value.1.enabled {
        return Failure(Unauthenticated);
      }
      var userId, user := found.value.0, found.value.1;
      var credentials := store.CredentialsForUser(userId);
      var verification :- engine.finishAuthentication(response, ceremony.value.state, credentials);
      var record := SessionRecord(sessionId, userId, hash(token), hash(csrf), user.authEpoch,
                                  now + config.sessionIdleTtl, now + config.sessionAbsoluteTtl);
      assert record == RecordFor(store.db, userId, now, token, csrf, sessionId);
      ghost var db := store.db;
      var audit := AuditEvent("session.created", Some(userId), Some(userId));
      LoginAlone(config, db, ceremonyId, now, userId, verification, record);
      var _ :- store.CompleteAuthentication(ceremonyId, verification, record, now, audit);
      forall at
        ensures SessionAccepted(store.db, hash(token), at) <==> at < record.idleExpiresAt && at < record.absoluteExpiresAt
      {
        NewSessionIsAccepted(db, ceremonyId, verification, record, now, audit, at);
      }
      r := Success((SessionGrant(token, csrf, record), userId));
    }

    /** The idle expiry slides before the CSRF token is checked, so a wrong one is refused but still counts as use. */
    method AuthenticateSession(token: SecretToken, csrf: Option<SecretToken>, now: Time) returns (r: Result<SessionPrincipal, AuthError>)
      modifies store
      ensures store.db == CheckSession(Start(config).(db := old(store.db)), hash(token), now).db
      ensures r.Success? <==> SessionAccepted(old(store.db), hash(token), now)
                              && (csrf.Some? ==> hash(csrf.value) == old(store.db).sessions[hash(token)].csrfHash)
      ensures r.Success? ==>
                var row := old(store.db).sessions[hash(token)];
                r.value == SessionPrincipal(row.id, row.userId, old(store.db).users[row.userId], row.csrfHash, row.absoluteExpiresAt)
      ensures r.Failure? ==> r.error == if SessionAccepted(old(store.db), hash(token), now) then Forbidden else Unauthenticated
    {
      var principal := store.Session(hash(token), now, now + config.sessionIdleTtl);
      if principal.None? {
        return Failure(Unauthenticated);
      }
      if csrf.Some? {
        if hash(csrf.value) != principal.value.csrfHash {
          return Failure(Forbidden);
        }
      }
      r := Success(principal.value);
    }

    method IssueSessionCsrf(token: SecretToken, csrf: SecretToken, now: Time) returns (r: Result<(SessionPrincipal, SecretToken), AuthError>)
      modifies store
      ensures store.db == RotateCsrf(Start(config).(db := old(store.db)), hash(token), hash(csrf), now).db
      ensures r.Success? <==> SessionAccepted(old(store.db), hash(token), now)
      ensures r.Success? ==>
                var row := old(store.db).sessions[hash(token)];
                r.value == (SessionPrincipal(row.id, row.userId, old(store.db).users[row.userId], hash(csrf), row.absoluteExpiresAt), csrf)
                && store.db.sessions[hash(token)].csrfHash == hash(csrf)
      ensures r.Failure? ==> r.error == Unauthenticated && store.db == old(store.db)
    {
      var principal := store.RotateSessionCsrf(hash(token), hash(csrf), now, now + config.sessionIdleTtl);
      if principal.None? {
        return Failure(Unauthenticated);
      }
      r := Success((principal.value, csrf));
    }

    method Logout(token: SecretToken, dbNow: Time)
      modifies store
      ensures store.db == AuthRuns.Logout(Start(config).(db := old(store.db)), hash(token), dbNow).db
      ensures forall at :: !SessionAccepted(store.db, hash(token), at)
    {
      store.DeleteSession(hash(token), dbNow);
    }

    method IssueRecoverySetup(recoveryId: Uuid, operatorId: UserId, userId: UserId, now: Time, token: SecretToken, stamp: RowStamp)
      returns (r: Result<SecretToken, AuthError>)
      modifies store
      ensures store.db == RecoverySetupIssue(Start(config).(db := old(store.db)), recoveryId, operatorId, userId, stamp,
                                             hash(token), now).db
      ensures r.Success? <==> AuthTransactions.IssueRecoverySetup(old(store.db), recoveryId,
                Capability(stamp, userId, RecoverySetup, hash(token), now + config.capabilityTtl), operatorId, now).Success?
      ensures r.Failure? ==> r.error == AuthTransactions.IssueRecoverySetup(old(store.db), recoveryId,
                Capability(stamp, userId, RecoverySetup, hash(token), now + config.capabilityTtl), operatorId, now).error
      ensures r.Failure? ==> store.db == old(store.db)
      ensures r.Success? ==> r.value == token
      ensures r.Success? ==>
                hash(token) in store.db.capabilities
                && store.db.capabilities[hash(token)]
                   == CapabilityRow(stamp.id, userId, RecoverySetup, now + config.capabilityTtl, None, stamp.createdAt)
      ensures r.Success? && config.capabilityTtl > 0 ==> CapabilityUsable(store.db, hash(token), RecoverySetup, now)
    {
      var capability := Capability(stamp, userId, RecoverySetup, hash(token), now + config.capabilityTtl);
      var _ :- store.IssueRecoverySetup(recoveryId, capability, operatorId, now);
      r := Success(token);
    }

    /** `handle` is the new user's random handle. That the transaction is this operation's steps run alone is `ApprovalAlone`. */
    method ApproveUserAndIssueSetup(operatorId: UserId, userId: UserId, email: string, displayName: string, now: Time,
                                    handle: Uuid, token: SecretToken, stamp: RowStamp)
      returns (r: Result<SecretToken, AuthError>)
      modifies store
      ensures r.Failure? ==> store.db == old(store.db)
      ensures !ValidContact(email, displayName) ==> r == Failure(InvalidInput)
      ensures r.Failure? && ValidContact(email, displayName) ==>
                Outcome(ApproveUserWithSetup(old(store.db), userId, UserRow(handle, Trim(email), Trim(displayName), User, true, 1, now),
                          Capability(stamp, userId, Setup, hash(token), now + config.capabilityTtl), operatorId, now)) == Failure(r.error)
      ensures r.Success? <==>
                ValidContact(email, displayName)
                && ApproveUserWithSetup(old(store.db), userId, UserRow(handle, Trim(email), Trim(displayName), User, true, 1, now),
                     Capability(stamp, userId, Setup, hash(token), now + config.capabilityTtl), operatorId, now).Success?
      ensures r.Success? ==>
                r.value == token
                && store.db == ApproveUserWithSetup(old(store.db), userId, UserRow(handle, Trim(email), Trim(displayName), User, true, 1, now),
                     Capability(stamp, userId, Setup, hash(token), now + config.capabilityTtl), operatorId, now).value
      ensures r.Success? && config.capabilityTtl > 0 ==> CapabilityUsable(store.db, hash(token), Setup, now)
    {
      var trimmedEmail, trimmedName := Trim(email), Trim(displayName);
      if trimmedEmail == "" || '@' !in trimmedEmail || trimmedName == "" {
        return Failure(InvalidInput);
      }
      var existing := store.UserById(userId);
      if existing.Some? {
        return Failure(Conflict);
      }
      var user := UserRow(handle, trimmedEmail, trimmedName, User, true, 1, now);
      var capability := Capability(stamp, userId, Setup, hash(token), now + config.capabilityTtl);
      var _ :- store.ApproveUserWithSetup(userId, user, capability, operatorId, now);
      r := Success(token);
    }

    method SeedOperator(userId: UserId, email: string, displayName: string, now: Time, handle: Uuid) returns (r: Result<Unit, AuthError>)
      modifies store
      ensures r.Failure? ==> store.db == old(store.db)
      ensures !ValidContact(email, displayName) ==> r == Failure(InvalidInput)
      ensures r.Success? <==>
                ValidContact(email, displayName) && !OperatorExists(old(store.db))
                && InsertUser(old(store.db), userId, UserRow(handle, Trim(email), Trim(displayName), Operator, true, 1, now), now,
                              AuditEvent("operator.seeded", None, Some(userId))).Success?
      ensures r.Failure? && ValidContact(email, displayName) ==>
                r.error == if userId in old(store.db).users || OperatorExists(old(store.db)) then Conflict
                           else InsertUser(old(store.db), userId, UserRow(handle, Trim(email), Trim(displayName), Operator, true, 1, now), now,
                                           AuditEvent("operator.seeded", None, Some(userId))).error
      ensures r.Success? ==>
                IsOperator(store.db, userId)
                && store.db == Alone(config, old(store.db), SeedSteps(userId, UserRow(handle, Trim(email), Trim(displayName), Operator, true, 1, now), now))
    {
      var trimmedEmail, trimmedName := Trim(email), Trim(displayName);
      if trimmedEmail == "" || '@' !in trimmedEmail || trimmedName == "" {
        return Failure(InvalidInput);
      }
      var existing := store.UserById(userId);
      if existing.Some? {
        return Failure(Conflict);
      }
      var operatorExists := store.OperatorExists();
      if operatorExists {
        return Failure(Conflict);
      }
      var user := UserRow(handle, trimmedEmail, trimmedName, Operator, true, 1, now);
      SeedAlone(config, store.db, userId, user, now);
      r := store.InsertUser(userId, user, now, AuditEvent("operator.seeded", None, Some(userId)));
    }

    /** The length of the trimmed reason is counted in bytes. */
    method RotateAllAuthEpochs(now: Time, reason: string) returns (r: Result<nat, AuthError>)
      modifies store
      ensures Utf8Length(Trim(reason)) < 12 ==> r == Failure(InvalidInput)
      ensures r.Success? <==> Utf8Length(Trim(reason)) >= 12 && AuthTransactions.RotateAllAuthEpochs(old(store.db), now).Success?
      ensures r.Failure? ==> store.db == old(store.db) && (Utf8Length(Trim(reason)) >= 12 ==> r.error == Store)
      ensures r.Success? ==> r.value == |old(store.db).users| && store.db == Rotation(Start(config).(db := old(store.db)), now).db
      ensures r.Success? ==> forall h, at :: !SessionAccepted(store.db, h, at)
    {
      if Utf8Length(Trim(reason)) < 12 {
        return Failure(InvalidInput);
      }
      r := store.RotateAllAuthEpochs(now);
    }
  }

  ghost predicate CeremonyFor(db: Db, id: Uuid, kind: CeremonyKind, expiresAt: Time) {
    id in db.ceremonies && db.ceremonies[id].kind == kind && db.ceremonies[id].consumedAt.None? && db.ceremonies[id].expiresAt == expiresAt
  }

  function ApprovalSteps(userId: UserId, user: UserRow, operatorId: UserId, now: Time, stamp: RowStamp, tokenHash: SecretHash): seq<Step> {
    [Reads(ApprovalReadsUser(userId, user, operatorId, now)), Writes(ApprovalCompletes(0, stamp, tokenHash))]
  }

  lemma ApprovalWriteAlone(s: System, stamp: RowStamp, tokenHash: SecretHash)
    requires 0 in s.ops && s.ops[0].ApprovalHasNoUser?
    ensures var op := s.ops[0];
            ApprovalComplete(s, 0, stamp, tokenHash).db
            == Commit(s.db, ApproveUserWithSetup(s.db, op.userId, op.user, NewCapability(s, stamp, op.userId, Setup, tokenHash, op.now),
                                                 op.operatorId, op.now))
  {}

  lemma ApprovalAlone(config: AuthConfig, db: Db, userId: UserId, user: UserRow, operatorId: UserId, now: Time, stamp: RowStamp,
                      tokenHash: SecretHash)
    requires userId !in db.users && user.role == User && user.authEpoch == 1
    ensures var capability := Capability(stamp, userId, Setup, tokenHash, now + config.capabilityTtl);
            Alone(config, db, ApprovalSteps(userId, user, operatorId, now, stamp, tokenHash))
            == Commit(db, ApproveUserWithSetup(db, userId, user, capability, operatorId, now))
  {
    var s := Start(config).(db := db);
    TwoSteps(s, Reads(ApprovalReadsUser(userId, user, operatorId, now)), Writes(ApprovalCompletes(0, stamp, tokenHash)));
    ApprovalWriteAlone(Begin(s, ApprovalHasNoUser(userId, user, operatorId, now)), stamp, tokenHash);
  }

  function SeedSteps(userId: UserId, user: UserRow, now: Time): seq<Step> {
    [Reads(SeedReadsUser(userId, user, now)), Reads(SeedReadsOperator(0)), Writes(SeedCompletes(0))]
  }

  lemma SeedAlone(config: AuthConfig, db: Db, userId: UserId, user: UserRow, now: Time)
    requires userId !in db.users && user.role == Operator && user.authEpoch == 1 && !OperatorExists(db)
    ensures Alone(config, db, SeedSteps(userId, user, now))
            == Commit(db, InsertUser(db, userId, user, now, AuditEvent("operator.seeded", None, Some(userId))))
  {
    ThreeSteps(Start(config).(db := db), Reads(SeedReadsUser(userId, user, now)), Reads(SeedReadsOperator(0)), Writes(SeedCompletes(0)));
  }
}
