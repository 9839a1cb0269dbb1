/**
 Where credentials and sessions come from. In every run each credential was made by
 one registration and each session by one login, every one of them used up its own
 ceremony, capability-backed registrations used up their own capability, no live
 session rests on a revoked credential, and at most one unrevoked credential came
 from the capability-less bootstrap.
*/
module AuthProvenance {
  import opened Wrappers
  import opened AuthTables
  import opened AuthTransactions
  import opened AuthRuns
  import opened AuthMonotone
  import opened AuthInvariant

  /** The tables bear out a registration: its ceremony and capability are used up, its credential is there. */
  ghost predicate RegistrationOk(db: Db, r: RegistrationEvent) {
    && r.ceremonyId in db.ceremonies
    && CeremonyServed(db.ceremonies[r.ceremonyId], r)
    && r.credentialId in db.credentials && db.credentials[r.credentialId].userId == r.userId
    && (r.kind == OperatorBootstrap ==> IsOperator(db, r.userId))
    && (r.capabilityHash.Some? ==>
          r.capabilityHash.value in db.capabilities && CapabilityServed(db.capabilities[r.capabilityHash.value], r))
  }

  ghost predicate CeremonyServed(c: CeremonyRow, r: RegistrationEvent) {
    c.kind == r.kind && c.kind != Authentication && c.userId == Some(r.userId) && c.capabilityHash == r.capabilityHash
    && c.consumedAt == Some(r.now) && r.now < c.expiresAt
  }

  ghost predicate CapabilityServed(k: CapabilityRow, r: RegistrationEvent) {
    k.userId == r.userId && k.consumedAt == Some(r.now) && r.now < k.expiresAt
  }

  ghost predicate LoginOk(db: Db, l: LoginEvent) {
    && l.ceremonyId in db.ceremonies
    && db.ceremonies[l.ceremonyId].kind == Authentication && db.ceremonies[l.ceremonyId].consumedAt.Some?
    && l.tokenHash in db.sessions
    && db.sessions[l.tokenHash].userId == l.userId && db.sessions[l.tokenHash].authEpoch == l.authEpoch
    && l.credentialId in db.credentials && db.credentials[l.credentialId].userId == l.userId
  }

  type Registrations = seq<RegistrationEvent>
  type Logins = seq<LoginEvent>

  ghost predicate RegistrationsOk(db: Db, registrations: Registrations) {
    forall i | 0 <= i < |registrations| :: RegistrationOk(db, registrations[i])
  }

  ghost predicate LoginsOk(db: Db, logins: Logins) {
    forall i | 0 <= i < |logins| :: LoginOk(db, logins[i])
  }

  /** No ceremony, capability or credential was used by two registrations. */
  ghost predicate RegistrationsDistinct(registrations: Registrations) {
    forall i, j | 0 <= i < j < |registrations| ::
      registrations[i].ceremonyId != registrations[j].ceremonyId
      && registrations[i].credentialId != registrations[j].credentialId
      && (registrations[i].capabilityHash.Some? ==> registrations[i].capabilityHash != registrations[j].capabilityHash)
  }

  /** No ceremony or token was used by two logins. */
  ghost predicate LoginsDistinct(logins: Logins) {
    forall i, j | 0 <= i < j < |logins| ::
      logins[i].ceremonyId != logins[j].ceremonyId && logins[i].tokenHash != logins[j].tokenHash
  }

  /** Every credential has its registration. */
  ghost predicate CredentialsCovered(db: Db, registrations: Registrations) {
    forall k | k in db.credentials :: exists i :: 0 <= i < |registrations| && registrations[i].credentialId == k
  }

  /** Every session has its login. */
  ghost predicate SessionsCovered(db: Db, logins: Logins) {
    forall t | t in db.sessions :: exists i :: 0 <= i < |logins| && logins[i].tokenHash == t
  }

  ghost predicate LiveSession(db: Db, l: LoginEvent) {
    l.tokenHash in db.sessions && l.credentialId in db.credentials
    && (db.sessions[l.tokenHash].revokedAt.None? ==> db.credentials[l.credentialId].revokedAt.None?)
  }

  /** No unrevoked session rests on a revoked credential. */
  ghost predicate LiveSessions(db: Db, logins: Logins) {
    forall i | 0 <= i < |logins| :: LiveSession(db, logins[i])
  }

  ghost predicate LiveBootstrap(db: Db, r: RegistrationEvent) {
    r.kind == OperatorBootstrap && r.credentialId in db.credentials && db.credentials[r.credentialId].revokedAt.None?
  }

  ghost predicate OneBootstrap(db: Db, registrations: Registrations) {
    forall i, j | 0 <= i < j < |registrations| :: !(LiveBootstrap(db, registrations[i]) && LiveBootstrap(db, registrations[j]))
  }

  ghost predicate RegistrationsTraced(db: Db, registrations: Registrations) {
    RegistrationsOk(db, registrations) && RegistrationsDistinct(registrations)
    && CredentialsCovered(db, registrations) && OneBootstrap(db, registrations)
  }

  ghost predicate LoginsTraced(db: Db, logins: Logins) {
    LoginsOk(db, logins) && LoginsDistinct(logins) && SessionsCovered(db, logins) && LiveSessions(db, logins)
  }

  ghost predicate Provenance(s: System) {
    RegistrationsTraced(s.db, s.history.registrations) && LoginsTraced(s.db, s.history.logins)
  }

  // ---------- Steps that add no event ----------

  lemma RegistrationStaysOk(a: Db, b: Db, r: RegistrationEvent)
    requires Later(a, b) && RegistrationOk(a, r)
    ensures RegistrationOk(b, r)
  {}

  /** Credentials keep their revocation state. */
  ghost predicate SameRevocations(a: Db, b: Db) {
    forall k | k in a.credentials :: k in b.credentials && b.credentials[k].revokedAt == a.credentials[k].revokedAt
  }

  lemma RegistrationsStayOk(a: Db, b: Db, registrations: Registrations)
    requires Later(a, b) && RegistrationsOk(a, registrations)
    ensures RegistrationsOk(b, registrations)
    ensures OneBootstrap(a, registrations) ==> OneBootstrap(b, registrations)
  {
    forall i | 0 <= i < |registrations|
      ensures RegistrationOk(b, registrations[i])
      ensures LiveBootstrap(b, registrations[i]) ==> LiveBootstrap(a, registrations[i])
    {
      RegistrationStaysOk(a, b, registrations[i]);
    }
  }

  lemma LoginsStayOk(a: Db, b: Db, logins: Logins)
    requires Later(a, b) && LoginsOk(a, logins)
    ensures LoginsOk(b, logins)
  {}

  lemma LiveSessionsStay(a: Db, b: Db, logins: Logins)
    requires Later(a, b) && SameRevocations(a, b) && LiveSessions(a, logins)
    ensures LiveSessions(b, logins)
  {
    forall i | 0 <= i < |logins|
      ensures LiveSession(b, logins[i])
    {
      assert LiveSession(a, logins[i]);
    }
  }

  lemma RegistrationsStayTraced(a: Db, b: Db, registrations: Registrations)
    requires Later(a, b) && RegistrationsTraced(a, registrations) && b.credentials.Keys == a.credentials.Keys
    ensures RegistrationsTraced(b, registrations)
  {
    RegistrationsStayOk(a, b, registrations);
    assert forall k | k in b.credentials :: k in a.credentials.Keys;
  }

  lemma LoginsStayTraced(a: Db, b: Db, logins: Logins)
    requires Later(a, b) && LoginsTraced(a, logins) && SameRevocations(a, b) && b.sessions.Keys == a.sessions.Keys
    ensures LoginsTraced(b, logins)
  {
    LoginsStayOk(a, b, logins);
    LiveSessionsStay(a, b, logins);
    assert forall t | t in b.sessions :: t in a.sessions.Keys;
  }

  lemma QuietStepKeepsProvenance(s: System, after: System)
    requires Provenance(s) && Later(s.db, after.db) && Quiet(s, after)
    ensures Provenance(after)
  {
    RegistrationsStayTraced(s.db, after.db, s.history.registrations);
    LoginsStayTraced(s.db, after.db, s.history.logins);
  }

  /** What a step does to credentials, sessions and events when it completes nothing and breaks no glass. */
  ghost predicate Quiet(s: System, after: System) {
    after.history.registrations == s.history.registrations && after.history.logins == s.history.logins
    && after.db.credentials == s.db.credentials && after.db.sessions.Keys == s.db.sessions.Keys
  }

  lemma QuietWrites(s: System, step: WriteStep)
    requires !step.RegistrationCompletes? && !step.LoginCompletes?
    ensures Quiet(s, ApplyWrite(s, step))
  {}

  lemma QuietApproval(s: System, recoveryId: Uuid, operatorId: UserId, now: Time)
    ensures Quiet(s, RecoveryApproval(s, recoveryId, operatorId, now))
  {
    var tx := ApproveRecovery(s.db, recoveryId, operatorId, now);
    if tx.Success? {
      ApprovalEffect(s.db, recoveryId, operatorId, now);
    }
  }

  lemma QuietRotation(s: System, now: Time)
    ensures Quiet(s, Rotation(s, now))
  {
    if RotateAllAuthEpochs(s.db, now).Success? {
      RotationEffect(s.db, now);
    }
  }

  lemma QuietIssue(s: System, recoveryId: Uuid, operatorId: UserId, userId: UserId, stamp: RowStamp, tokenHash: SecretHash, now: Time)
    ensures Quiet(s, RecoverySetupIssue(s, recoveryId, operatorId, userId, stamp, tokenHash, now))
  {
    var c := NewCapability(s, stamp, userId, RecoverySetup, tokenHash, now);
    if IssueRecoverySetup(s.db, recoveryId, c, operatorId, now).Success? {
      IssueEffect(s.db, recoveryId, c, operatorId, now);
    }
  }

  lemma QuietAtomics(s: System, step: AtomicStep)
    requires !step.BreaksGlass?
    ensures Quiet(s, ApplyAtomic(s, step))
  {
    match step
    case ApprovesRecovery(recoveryId, operatorId, now) => QuietApproval(s, recoveryId, operatorId, now);
    case IssuesRecoverySetup(recoveryId, operatorId, userId, stamp, tokenHash, now) =>
      QuietIssue(s, recoveryId, operatorId, userId, stamp, tokenHash, now);
    case RotatesAll(now) => QuietRotation(s, now);
    case _ =>
  }

  // ---------- Break glass ----------

  /** Revoking a credential revokes every session of its user in the same transaction. */
  lemma BreakGlassKeepsSessionsLive(db: Db, logins: Logins, rowId: Uuid, c: Capability, now: Time)
    requires UniqueCredentialRows(db) && LoginsOk(db, logins) && LiveSessions(db, logins) && BreakGlass(db, rowId, c, now).Success?
    ensures LiveSessions(BreakGlass(db, rowId, c, now).value, logins)
  {
    BreakGlassEffect(db, rowId, c, now);
    var after := BreakGlass(db, rowId, c, now).value;
    var target :| target in db.credentials && BreakGlassTarget(db, target, rowId) && db.credentials[target].userId == c.userId;
    forall i | 0 <= i < |logins|
      ensures LiveSession(after, logins[i])
    {
      var l := logins[i];
      assert LoginOk(db, l) && LiveSession(db, l);
      if l.credentialId != target {
        assert db.credentials[l.credentialId].id != rowId;
      }
    }
  }

  lemma BreakGlassKeepsLogins(db: Db, logins: Logins, rowId: Uuid, c: Capability, now: Time)
    requires UniqueCredentialRows(db) && LoginsTraced(db, logins) && BreakGlass(db, rowId, c, now).Success?
    ensures LoginsTraced(BreakGlass(db, rowId, c, now).value, logins)
  {
    BreakGlassEffect(db, rowId, c, now);
    BreakGlassIsLater(db, rowId, c, now);
    var after := BreakGlass(db, rowId, c, now).value;
    LoginsStayOk(db, after, logins);
    BreakGlassKeepsSessionsLive(db, logins, rowId, c, now);
    assert forall t | t in after.sessions :: t in db.sessions.Keys;
  }

  lemma BreakGlassKeepsRegistrations(db: Db, registrations: Registrations, rowId: Uuid, c: Capability, now: Time)
    requires RegistrationsTraced(db, registrations) && BreakGlass(db, rowId, c, now).Success?
    ensures RegistrationsTraced(BreakGlass(db, rowId, c, now).value, registrations)
  {
    BreakGlassEffect(db, rowId, c, now);
    BreakGlassIsLater(db, rowId, c, now);
    RegistrationsStayTraced(db, BreakGlass(db, rowId, c, now).value, registrations);
  }

  lemma GlassBreakKeepsProvenance(s: System, rowId: Uuid, userId: UserId, stamp: RowStamp, tokenHash: SecretHash,
                                  expiresAt: Time, now: Time)
    requires UniqueCredentialRows(s.db) && Provenance(s)
    ensures Provenance(GlassBreak(s, rowId, userId, stamp, tokenHash, expiresAt, now))
  {
    var c := Capability(stamp, userId, OperatorRecoveryWindow, tokenHash, expiresAt);
    if BreakGlass(s.db, rowId, c, now).Success? {
      BreakGlassKeepsRegistrations(s.db, s.history.registrations, rowId, c, now);
      BreakGlassKeepsLogins(s.db, s.history.logins, rowId, c, now);
    }
  }

  // ---------- Registrations ----------

  lemma NewRegistrationIsOk(s: System, op: Op, credential: VerifiedCredential, rowId: Uuid, event: RegistrationEvent)
    requires Inv(s) && op.RegistrationHasCeremony? && OpOk(s.db, op) && op.ceremony.userId.Some?
    requires RegistrationTx(s, op, credential, rowId).Success?
    requires event == RegistrationEvent(event.op, op.ceremonyId, op.ceremony.kind, op.ceremony.capabilityHash,
                                        op.ceremony.userId.value, credential.credentialId, op.now)
    ensures RegistrationOk(RegistrationTx(s, op, credential, rowId).value, event)
  {
    var user := op.ceremony.userId;
    RegistrationEffect(s.db, op.ceremonyId, op.ceremony.capabilityHash, credential, rowId, op.now,
                       AuditEvent("passkey.registered", user, user));
    assert CeremonyOk(s.db, s.db.ceremonies[op.ceremonyId]);
  }

  /** Whatever was used up before is refused, so a new registration shares nothing with an earlier one. */
  lemma NewRegistrationIsDistinct(db: Db, registrations: Registrations, event: RegistrationEvent)
    requires RegistrationsOk(db, registrations) && RegistrationsDistinct(registrations) && Unused(db, event)
    ensures RegistrationsDistinct(registrations + [event])
  {
    forall i | 0 <= i < |registrations|
      ensures registrations[i].ceremonyId != event.ceremonyId && registrations[i].credentialId != event.credentialId
      ensures registrations[i].capabilityHash.Some? ==> registrations[i].capabilityHash != event.capabilityHash
    {
      assert RegistrationOk(db, registrations[i]);
    }
  }

  /** What the completing transaction found: an unconsumed ceremony and capability, a new credential. */
  ghost predicate Unused(db: Db, event: RegistrationEvent) {
    event.ceremonyId in db.ceremonies && db.ceremonies[event.ceremonyId].consumedAt.None?
    && event.credentialId !in db.credentials
    && (event.capabilityHash.Some? ==>
          event.capabilityHash.value in db.capabilities && db.capabilities[event.capabilityHash.value].consumedAt.None?)
    && (event.kind == OperatorBootstrap ==> !OperatorCredentialExists(db))
  }

  /** A bootstrap completes only while no unrevoked operator credential exists. */
  lemma NewBootstrapIsAlone(db: Db, after: Db, registrations: Registrations, event: RegistrationEvent)
    requires Later(db, after) && RegistrationsOk(db, registrations) && OneBootstrap(db, registrations) && Unused(db, event)
    ensures OneBootstrap(after, registrations + [event])
  {
    RegistrationsStayOk(db, after, registrations);
    if event.kind == OperatorBootstrap {
      forall i | 0 <= i < |registrations|
        ensures !LiveBootstrap(after, registrations[i])
      {
        assert RegistrationOk(db, registrations[i]);
      }
    }
  }

  lemma CredentialIsCovered(db: Db, after: Db, registrations: Registrations, event: RegistrationEvent)
    requires CredentialsCovered(db, registrations) && after.credentials.Keys == db.credentials.Keys + {event.credentialId}
    ensures CredentialsCovered(after, registrations + [event])
  {
    var more := registrations + [event];
    forall k | k in after.credentials
      ensures exists i :: 0 <= i < |more| && more[i].credentialId == k
    {
      if k in db.credentials {
        var i :| 0 <= i < |registrations| && registrations[i].credentialId == k;
        assert more[i].credentialId == k;
      } else {
        assert more[|registrations|].credentialId == k;
      }
    }
  }

  lemma AddingARegistration(db: Db, after: Db, registrations: Registrations, event: RegistrationEvent)
    requires RegistrationsTraced(db, registrations) && Later(db, after) && RegistrationOk(after, event) && Unused(db, event)
    requires after.credentials.Keys == db.credentials.Keys + {event.credentialId}
    ensures RegistrationsTraced(after, registrations + [event])
  {
    RegistrationsStayOk(db, after, registrations);
    NewRegistrationIsDistinct(db, registrations, event);
    NewBootstrapIsAlone(db, after, registrations, event);
    CredentialIsCovered(db, after, registrations, event);
  }

  lemma RegistrationKeepsLogins(db: Db, logins: Logins, ceremonyId: Uuid, hash: Option<SecretHash>,
                                credential: VerifiedCredential, rowId: Uuid, now: Time, audit: AuditEvent)
    requires LoginsTraced(db, logins)
    requires CompleteRegistration(db, ceremonyId, hash, credential, rowId, now, audit).Success?
    ensures LoginsTraced(CompleteRegistration(db, ceremonyId, hash, credential, rowId, now, audit).value, logins)
  {
    RegistrationEffect(db, ceremonyId, hash, credential, rowId, now, audit);
    RegistrationIsLater(db, ceremonyId, hash, credential, rowId, now, audit);
    LoginsStayTraced(db, CompleteRegistration(db, ceremonyId, hash, credential, rowId, now, audit).value, logins);
  }

  lemma RegistrationIsAdded(s: System, op: Op, credential: VerifiedCredential, rowId: Uuid, event: RegistrationEvent)
    requires Inv(s) && op.RegistrationHasCeremony? && OpOk(s.db, op) && op.ceremony.userId.Some?
    requires RegistrationsTraced(s.db, s.history.registrations) && RegistrationTx(s, op, credential, rowId).Success?
    requires event == RegistrationEvent(event.op, op.ceremonyId, op.ceremony.kind, op.ceremony.capabilityHash,
                                        op.ceremony.userId.value, credential.credentialId, op.now)
    ensures RegistrationsTraced(RegistrationTx(s, op, credential, rowId).value, s.history.registrations + [event])
  {
    var user := op.ceremony.userId;
    var audit := AuditEvent("passkey.registered", user, user);
    RegistrationEffect(s.db, op.ceremonyId, op.ceremony.capabilityHash, credential, rowId, op.now, audit);
    RegistrationIsLater(s.db, op.ceremonyId, op.ceremony.capabilityHash, credential, rowId, op.now, audit);
    NewRegistrationIsOk(s, op, credential, rowId, event);
    AddingARegistration(s.db, RegistrationTx(s, op, credential, rowId).value, s.history.registrations, event);
  }

  lemma RegistrationKeepsProvenance(s: System, id: OpId, credential: VerifiedCredential, rowId: Uuid)
    requires Inv(s) && Provenance(s)
    requires id in s.ops && s.ops[id].RegistrationHasCeremony? && s.ops[id].ceremony.userId.Some?
    requires RegistrationTx(s, s.ops[id], credential, rowId).Success?
    ensures Provenance(RegistrationComplete(s, id, credential, rowId))
  {
    var op := s.ops[id];
    var user := op.ceremony.userId;
    RegistrationIsAdded(s, op, credential, rowId,
      RegistrationEvent(id, op.ceremonyId, op.ceremony.kind, op.ceremony.capabilityHash, user.value, credential.credentialId, op.now));
    RegistrationKeepsLogins(s.db, s.history.logins, op.ceremonyId, op.ceremony.capabilityHash, credential, rowId, op.now,
                            AuditEvent("passkey.registered", user, user));
  }

  // ---------- Logins ----------

  lemma NewLoginIsDistinct(db: Db, logins: Logins, event: LoginEvent)
    requires LoginsOk(db, logins) && LoginsDistinct(logins)
    requires event.ceremonyId in db.ceremonies && db.ceremonies[event.ceremonyId].consumedAt.None?
    requires event.tokenHash !in db.sessions
    ensures LoginsDistinct(logins + [event])
  {
    forall j | 0 <= j < |logins|
      ensures event.ceremonyId != logins[j].ceremonyId && event.tokenHash != logins[j].tokenHash
    {
      assert LoginOk(db, logins[j]);
    }
  }

  lemma SessionIsCovered(db: Db, after: Db, logins: Logins, event: LoginEvent)
    requires SessionsCovered(db, logins) && after.sessions.Keys == db.sessions.Keys + {event.tokenHash}
    ensures SessionsCovered(after, logins + [event])
  {
    var more := logins + [event];
    forall t | t in after.sessions
      ensures exists i :: 0 <= i < |more| && more[i].tokenHash == t
    {
      if t in db.sessions {
        var i :| 0 <= i < |logins| && logins[i].tokenHash == t;
        assert more[i].tokenHash == t;
      } else {
        assert more[|logins|].tokenHash == t;
      }
    }
  }

  lemma AddingALogin(db: Db, after: Db, logins: Logins, event: LoginEvent)
    requires LoginsTraced(db, logins) && Later(db, after) && SameRevocations(db, after)
    requires LoginOk(after, event) && LiveSession(after, event)
    requires event.ceremonyId in db.ceremonies && db.ceremonies[event.ceremonyId].consumedAt.None?
    requires event.tokenHash !in db.sessions && after.sessions.Keys == db.sessions.Keys + {event.tokenHash}
    ensures LoginsTraced(after, logins + [event])
  {
    LoginsStayOk(db, after, logins);
    LiveSessionsStay(db, after, logins);
    NewLoginIsDistinct(db, logins, event);
    SessionIsCovered(db, after, logins, event);
  }

  lemma LoginKeepsRegistrations(db: Db, registrations: Registrations, ceremonyId: Uuid, verification: AuthenticationVerification,
                                session: SessionRecord, now: Time, audit: AuditEvent)
    requires RegistrationsTraced(db, registrations)
    requires CompleteAuthentication(db, ceremonyId, verification, session, now, audit).Success?
    ensures RegistrationsTraced(CompleteAuthentication(db, ceremonyId, verification, session, now, audit).value, registrations)
  {
    AuthenticationEffect(db, ceremonyId, verification, session, now, audit);
    AuthenticationIsLater(db, ceremonyId, verification, session, now, audit);
    RegistrationsStayTraced(db, CompleteAuthentication(db, ceremonyId, verification, session, now, audit).value, registrations);
  }

  lemma LoginIsAdded(s: System, op: Op, verification: AuthenticationVerification, session: SessionRecord, event: LoginEvent)
    requires op.LoginHasUser? && LoginsTraced(s.db, s.history.logins) && LoginTx(s, op, verification, session).Success?
    requires session.userId == op.userId && session.authEpoch == op.authEpoch
    requires event == LoginEvent(event.op, op.ceremonyId, session.tokenHash, op.userId, op.authEpoch, verification.credentialId, op.now)
    ensures LoginsTraced(LoginTx(s, op, verification, session).value, s.history.logins + [event])
  {
    var audit := AuditEvent("session.created", Some(op.userId), Some(op.userId));
    AuthenticationEffect(s.db, op.ceremonyId, verification, session, op.now, audit);
    AuthenticationIsLater(s.db, op.ceremonyId, verification, session, op.now, audit);
    NewLoginIsOk(s, op, verification, session, event);
    AddingALogin(s.db, LoginTx(s, op, verification, session).value, s.history.logins, event);
  }

  lemma LoginKeepsProvenance(s: System, id: OpId, verification: AuthenticationVerification, sessionId: Uuid,
                             tokenHash: SecretHash, csrfHash: SecretHash)
    requires Provenance(s) && id in s.ops && s.ops[id].LoginHasUser?
    requires LoginTx(s, s.ops[id], verification, LoginSession(s.config, s.ops[id], sessionId, tokenHash, csrfHash)).Success?
    ensures Provenance(LoginComplete(s, id, verification, sessionId, tokenHash, csrfHash))
  {
    var op := s.ops[id];
    var session := LoginSession(s.config, op, sessionId, tokenHash, csrfHash);
    LoginIsAdded(s, op, verification, session,
      LoginEvent(id, op.ceremonyId, tokenHash, op.userId, op.authEpoch, verification.credentialId, op.now));
    LoginKeepsRegistrations(s.db, s.history.registrations, op.ceremonyId, verification, session, op.now,
                            AuditEvent("session.created", Some(op.userId), Some(op.userId)));
  }

  lemma NewLoginIsOk(s: System, op: Op, verification: AuthenticationVerification, session: SessionRecord, event: LoginEvent)
    requires op.LoginHasUser? && LoginTx(s, op, verification, session).Success?
    requires session.userId == op.userId && session.authEpoch == op.authEpoch
    requires event == LoginEvent(event.op, op.ceremonyId, session.tokenHash, op.userId, op.authEpoch, verification.credentialId, op.now)
    ensures LoginOk(LoginTx(s, op, verification, session).value, event)
    ensures LiveSession(LoginTx(s, op, verification, session).value, event)
  {
    AuthenticationEffect(s.db, op.ceremonyId, verification, session, op.now,
                         AuditEvent("session.created", Some(op.userId), Some(op.userId)));
  }

  // ---------- Runs ----------

  lemma WriteKeepsProvenance(s: System, step: WriteStep)
    requires Inv(s) && Provenance(s)
    ensures Provenance(ApplyWrite(s, step))
  {
    match step
    case RegistrationCompletes(id, credential, rowId) =>
      if id in s.ops && s.ops[id].RegistrationHasCeremony? && s.ops[id].ceremony.userId.Some?
         && RegistrationTx(s, s.ops[id], credential, rowId).Success? {
        RegistrationKeepsProvenance(s, id, credential, rowId);
      }
    case LoginCompletes(id, verification, sessionId, tokenHash, csrfHash) =>
      if id in s.ops && s.ops[id].LoginHasUser?
         && LoginTx(s, s.ops[id], verification, LoginSession(s.config, s.ops[id], sessionId, tokenHash, csrfHash)).Success? {
        LoginKeepsProvenance(s, id, verification, sessionId, tokenHash, csrfHash);
      }
    case _ =>
      QuietWrites(s, step);
      WriteIsLater(s, step);
      QuietStepKeepsProvenance(s, ApplyWrite(s, step));
  }

  lemma AtomicKeepsProvenance(s: System, step: AtomicStep)
    requires Inv(s) && Provenance(s)
    ensures Provenance(ApplyAtomic(s, step))
  {
    match step
    case BreaksGlass(rowId, userId, stamp, tokenHash, expiresAt, now) =>
      GlassBreakKeepsProvenance(s, rowId, userId, stamp, tokenHash, expiresAt, now);
    case _ =>
      QuietAtomics(s, step);
      AtomicIsLater(s, step);
      QuietStepKeepsProvenance(s, ApplyAtomic(s, step));
  }

  lemma ApplyKeepsProvenance(s: System, step: Step)
    requires Inv(s) && Provenance(s)
    ensures Provenance(Apply(s, step))
  {
    match step
    case Reads(read) => ReadsChangeNoTable(s, read);
    case Writes(write) => WriteKeepsProvenance(s, write);
    case Transacts(atomic) => AtomicKeepsProvenance(s, atomic);
  }

  lemma {:induction false} ExecuteKeepsProvenance(s: System, steps: seq<Step>)
    requires Inv(s) && Provenance(s)
    ensures Inv(Execute(s, steps)) && Provenance(Execute(s, steps))
    decreases |steps|
  {
    if steps != [] {
      ApplyKeepsInv(s, steps[0]);
      ApplyKeepsProvenance(s, steps[0]);
      ExecuteKeepsProvenance(Apply(s, steps[0]), steps[1..]);
    }
  }

  // ---------- Theorems over all runs ----------

  /** Every run from the empty store satisfies the provenance invariant. */
  lemma RunsHaveProvenance(config: AuthConfig, steps: seq<Step>)
    ensures Inv(Execute(Start(config), steps)) && Provenance(Execute(Start(config), steps))
  {
    StartIsInvariant(config);
    ExecuteKeepsProvenance(Start(config), steps);
  }

  /**
   One use: registrations and logins map injectively to used-up ceremonies,
   capability-backed registrations map injectively to used-up capabilities of their
   own user that had not expired, and no ceremony served both a registration and a
   login.
  */
  lemma EverythingIsUsedOnce(config: AuthConfig, steps: seq<Step>)
    ensures var s := Execute(Start(config), steps);
            var registrations, logins := s.history.registrations, s.history.logins;
            RegistrationsOk(s.db, registrations) && RegistrationsDistinct(registrations) && CredentialsCovered(s.db, registrations)
            && LoginsOk(s.db, logins) && LoginsDistinct(logins) && SessionsCovered(s.db, logins)
    ensures var s := Execute(Start(config), steps);
            CeremoniesDisjoint(s.history.registrations, s.history.logins)
  {
    RunsHaveProvenance(config, steps);
    var s := Execute(Start(config), steps);
    KindsSeparateCeremonies(s.db, s.history.registrations, s.history.logins);
  }

  ghost predicate CeremoniesDisjoint(registrations: Registrations, logins: Logins) {
    forall i, j | 0 <= i < |registrations| && 0 <= j < |logins| :: registrations[i].ceremonyId != logins[j].ceremonyId
  }

  lemma KindsSeparateCeremonies(db: Db, registrations: Registrations, logins: Logins)
    requires RegistrationsOk(db, registrations) && LoginsOk(db, logins)
    ensures CeremoniesDisjoint(registrations, logins)
  {
    forall i, j | 0 <= i < |registrations| && 0 <= j < |logins|
      ensures registrations[i].ceremonyId != logins[j].ceremonyId
    {
      assert RegistrationOk(db, registrations[i]) && LoginOk(db, logins[j]);
    }
  }

  /** Some login made this session with a credential of its user that is unrevoked now. */
  ghost predicate RestsOnLiveCredential(db: Db, h: History, tokenHash: SecretHash) {
    exists i :: 0 <= i < |h.logins| && h.logins[i].tokenHash == tokenHash && tokenHash in db.sessions
      && CredentialUsable(db, h.logins[i].credentialId, db.sessions[tokenHash].userId)
  }

  /** An accepted session was made by a credential of the same user that is still unrevoked. */
  lemma AcceptedSessionsRestOnLiveCredentials(config: AuthConfig, steps: seq<Step>, tokenHash: SecretHash, now: Time)
    requires SessionAccepted(Execute(Start(config), steps).db, tokenHash, now)
    ensures var s := Execute(Start(config), steps); RestsOnLiveCredential(s.db, s.history, tokenHash)
  {
    RunsHaveProvenance(config, steps);
    UnrevokedSessionIsLive(Execute(Start(config), steps), tokenHash);
  }

  lemma UnrevokedSessionIsLive(s: System, tokenHash: SecretHash)
    requires Provenance(s) && tokenHash in s.db.sessions && s.db.sessions[tokenHash].revokedAt.None?
    ensures RestsOnLiveCredential(s.db, s.history, tokenHash)
  {
    var i :| 0 <= i < |s.history.logins| && s.history.logins[i].tokenHash == tokenHash;
    assert LoginOk(s.db, s.history.logins[i]) && LiveSession(s.db, s.history.logins[i]);
  }

  /** At most one unrevoked credential ever came from the capability-less bootstrap. */
  lemma AtMostOneBootstrapCredential(config: AuthConfig, steps: seq<Step>, i: nat, j: nat)
    requires var s := Execute(Start(config), steps);
             i < |s.history.registrations| && j < |s.history.registrations|
             && LiveBootstrap(s.db, s.history.registrations[i]) && LiveBootstrap(s.db, s.history.registrations[j])
    ensures i == j
  {
    RunsHaveProvenance(config, steps);
  }

  /** A bootstrap commits only while no operator has an unrevoked credential, and leaves its own as the only one. */
  lemma BootstrapLeavesOneOperatorCredential(s: System, id: OpId, credential: VerifiedCredential, rowId: Uuid)
    requires Inv(s) && id in s.ops && s.ops[id].RegistrationHasCeremony? && s.ops[id].ceremony.userId.Some?
    requires s.ops[id].ceremony.kind == OperatorBootstrap && RegistrationTx(s, s.ops[id], credential, rowId).Success?
    ensures var after := RegistrationComplete(s, id, credential, rowId).db;
            !OperatorCredentialExists(s.db)
            && forall k | k in after.credentials ::
                 IsOperator(after, after.credentials[k].userId) && after.credentials[k].revokedAt.None? <==> k == credential.credentialId
  {
    var op := s.ops[id];
    var user := op.ceremony.userId;
    assert OpOk(s.db, op);
    assert CeremonyOk(s.db, s.db.ceremonies[op.ceremonyId]);
    RegistrationEffect(s.db, op.ceremonyId, op.ceremony.capabilityHash, credential, rowId, op.now,
                       AuditEvent("passkey.registered", user, user));
  }
}
