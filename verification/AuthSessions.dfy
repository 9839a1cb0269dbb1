/**
 How long a session lives. The stored expiry columns amount to a closed form: a
 session is accepted until its last accepted use plus the idle time-to-live, and
 until its creation plus the absolute time-to-live, whichever comes first.
*/
module AuthSessions {
  import opened Wrappers
  import opened AuthTables
  import opened AuthTransactions
  import opened AuthRuns
  import opened AuthMonotone
  import opened AuthInvariant

  type Sessions = map<SecretHash, SessionRow>
  type Touches = map<SecretHash, Time>

  /** The stored idle expiry is the last use plus the idle time-to-live, or that cut off at the absolute expiry. */
  ghost predicate LifetimeOk(config: AuthConfig, row: SessionRow, touched: Time) {
    row.absoluteExpiresAt == row.createdAt + config.sessionAbsoluteTtl
    && (row.idleExpiresAt == touched + config.sessionIdleTtl
        || row.idleExpiresAt == row.absoluteExpiresAt <= touched + config.sessionIdleTtl)
  }

  ghost predicate LifetimesOk(config: AuthConfig, sessions: Sessions, touched: Touches) {
    touched.Keys == sessions.Keys && forall h | h in sessions :: LifetimeOk(config, sessions[h], touched[h])
  }

  ghost predicate Lifetimes(s: System) {
    LifetimesOk(s.config, s.db.sessions, s.history.touched)
  }

  // ---------- Steps ----------

  /** Sessions are revoked at most. */
  ghost predicate OnlyRevoked(a: Sessions, b: Sessions) {
    b.Keys == a.Keys && forall h | h in a :: b[h] == a[h].(revokedAt := b[h].revokedAt)
  }

  ghost predicate Untouched(s: System, after: System) {
    after.config == s.config && OnlyRevoked(s.db.sessions, after.db.sessions) && after.history.touched == s.history.touched
  }

  lemma UntouchedKeepsLifetimes(s: System, after: System)
    requires Lifetimes(s) && Untouched(s, after)
    ensures Lifetimes(after)
  {
    assert forall h | h in after.db.sessions :: h in s.db.sessions.Keys;
  }

  lemma LoginKeepsLifetimes(s: System, id: OpId, verification: AuthenticationVerification, sessionId: Uuid,
                            tokenHash: SecretHash, csrfHash: SecretHash)
    requires Lifetimes(s)
    ensures Lifetimes(LoginComplete(s, id, verification, sessionId, tokenHash, csrfHash))
    ensures LoginComplete(s, id, verification, sessionId, tokenHash, csrfHash).config == s.config
  {
    if id in s.ops && s.ops[id].LoginHasUser? {
      var op := s.ops[id];
      var session := LoginSession(s.config, op, sessionId, tokenHash, csrfHash);
      if LoginTx(s, op, verification, session).Success? {
        AuthenticationEffect(s.db, op.ceremonyId, verification, session, op.now,
                             AuditEvent("session.created", Some(op.userId), Some(op.userId)));
      }
    }
  }

  lemma UseKeepsLifetimes(s: System, tokenHash: SecretHash, csrfHash: SecretHash, now: Time)
    requires Lifetimes(s)
    ensures Lifetimes(CheckSession(s, tokenHash, now)) && CheckSession(s, tokenHash, now).config == s.config
    ensures Lifetimes(RotateCsrf(s, tokenHash, csrfHash, now)) && RotateCsrf(s, tokenHash, csrfHash, now).config == s.config
  {}

  lemma RegistrationTouchesNothing(s: System, id: OpId, credential: VerifiedCredential, rowId: Uuid)
    ensures Untouched(s, RegistrationComplete(s, id, credential, rowId))
  {
    if id in s.ops && s.ops[id].RegistrationHasCeremony? && s.ops[id].ceremony.userId.Some?
       && RegistrationTx(s, s.ops[id], credential, rowId).Success? {
      var op := s.ops[id];
      var user := op.ceremony.userId;
      RegistrationEffect(s.db, op.ceremonyId, op.ceremony.capabilityHash, credential, rowId, op.now,
                         AuditEvent("passkey.registered", user, user));
    }
  }

  lemma WriteTouchesNothing(s: System, step: WriteStep)
    requires !step.LoginCompletes?
    ensures Untouched(s, ApplyWrite(s, step))
  {
    match step
    case RegistrationCompletes(id, credential, rowId) => RegistrationTouchesNothing(s, id, credential, rowId);
    case _ =>
  }

  lemma GlassBreakTouchesNothing(s: System, rowId: Uuid, userId: UserId, stamp: RowStamp, tokenHash: SecretHash,
                                 expiresAt: Time, now: Time)
    ensures Untouched(s, GlassBreak(s, rowId, userId, stamp, tokenHash, expiresAt, now))
  {
    var c := Capability(stamp, userId, OperatorRecoveryWindow, tokenHash, expiresAt);
    if BreakGlass(s.db, rowId, c, now).Success? {
      BreakGlassEffect(s.db, rowId, c, now);
    }
  }

  lemma RecoveryApprovalTouchesNothing(s: System, recoveryId: Uuid, operatorId: UserId, now: Time)
    ensures Untouched(s, RecoveryApproval(s, recoveryId, operatorId, now))
  {
    if ApproveRecovery(s.db, recoveryId, operatorId, now).Success? {
      ApprovalEffect(s.db, recoveryId, operatorId, now);
    }
  }

  lemma AtomicTouchesNothing(s: System, step: AtomicStep)
    requires !step.ChecksSession? && !step.RotatesCsrf?
    ensures Untouched(s, ApplyAtomic(s, step))
  {
    match step
    case BreaksGlass(rowId, userId, stamp, tokenHash, expiresAt, now) =>
      GlassBreakTouchesNothing(s, rowId, userId, stamp, tokenHash, expiresAt, now);
    case ApprovesRecovery(recoveryId, operatorId, now) => RecoveryApprovalTouchesNothing(s, recoveryId, operatorId, now);
    case _ =>
  }

  lemma WriteKeepsLifetimes(s: System, step: WriteStep)
    requires Lifetimes(s)
    ensures Lifetimes(ApplyWrite(s, step)) && ApplyWrite(s, step).config == s.config
  {
    match step
    case LoginCompletes(id, verification, sessionId, tokenHash, csrfHash) =>
      LoginKeepsLifetimes(s, id, verification, sessionId, tokenHash, csrfHash);
    case _ =>
      WriteTouchesNothing(s, step);
      UntouchedKeepsLifetimes(s, ApplyWrite(s, step));
  }

  lemma AtomicKeepsLifetimes(s: System, step: AtomicStep)
    requires Lifetimes(s)
    ensures Lifetimes(ApplyAtomic(s, step)) && ApplyAtomic(s, step).config == s.config
  {
    match step
    case ChecksSession(tokenHash, now) => UseKeepsLifetimes(s, tokenHash, 0, now);
    case RotatesCsrf(tokenHash, csrfHash, now) => UseKeepsLifetimes(s, tokenHash, csrfHash, now);
    case _ =>
      AtomicTouchesNothing(s, step);
      UntouchedKeepsLifetimes(s, ApplyAtomic(s, step));
  }

  lemma ApplyKeepsLifetimes(s: System, step: Step)
    requires Lifetimes(s)
    ensures Lifetimes(Apply(s, step)) && Apply(s, step).config == s.config
  {
    match step
    case Reads(read) => ReadsChangeNoTable(s, read);
    case Writes(write) => WriteKeepsLifetimes(s, write);
    case Transacts(atomic) => AtomicKeepsLifetimes(s, atomic);
  }

  lemma {:induction false} ExecuteKeepsLifetimes(s: System, steps: seq<Step>)
    requires Lifetimes(s)
    ensures Lifetimes(Execute(s, steps)) && Execute(s, steps).config == s.config
    decreases |steps|
  {
    if steps != [] {
      ApplyKeepsLifetimes(s, steps[0]);
      ExecuteKeepsLifetimes(Apply(s, steps[0]), steps[1..]);
    }
  }

  // ---------- Theorems over all runs ----------

  /** The closed form, in terms of creation, last accepted use, revocation and the user's row. */
  ghost predicate Alive(s: System, tokenHash: SecretHash, now: Time) {
    tokenHash in s.db.sessions && tokenHash in s.history.touched
    && var row := s.db.sessions[tokenHash];
       row.revokedAt.None?
       && row.userId in s.db.users && s.db.users[row.userId].enabled && row.authEpoch == s.db.users[row.userId].authEpoch
       && now < s.history.touched[tokenHash] + s.config.sessionIdleTtl
       && now < row.createdAt + s.config.sessionAbsoluteTtl
  }

  /** Over every run, a session is accepted exactly while it is alive. */
  lemma SessionLifetime(config: AuthConfig, steps: seq<Step>, tokenHash: SecretHash, now: Time)
    ensures var s := Execute(Start(config), steps); SessionAccepted(s.db, tokenHash, now) <==> Alive(s, tokenHash, now)
  {
    var s := Execute(Start(config), steps);
    ExecuteKeepsLifetimes(Start(config), steps);
    if tokenHash in s.db.sessions {
      assert LifetimeOk(s.config, s.db.sessions[tokenHash], s.history.touched[tokenHash]);
    }
  }

  /** The absolute expiry is set once: no later step, from any state, moves it. */
  lemma AbsoluteExpiryNeverMoves(s: System, steps: seq<Step>, tokenHash: SecretHash)
    requires tokenHash in s.db.sessions
    ensures var after := Execute(s, steps).db.sessions;
            tokenHash in after && after[tokenHash].absoluteExpiresAt == s.db.sessions[tokenHash].absoluteExpiresAt
            && after[tokenHash].createdAt == s.db.sessions[tokenHash].createdAt
  {
    ExecuteIsLater(s, steps);
  }

  ghost predicate Bounded(db: Db, tokenHash: SecretHash) {
    tokenHash in db.sessions && db.sessions[tokenHash].idleExpiresAt <= db.sessions[tokenHash].absoluteExpiresAt
  }

  /** An accepted use bounds the idle expiry by the absolute one; a refused one changes nothing. */
  lemma UseBounds(s: System, tokenHash: SecretHash, csrfHash: SecretHash, now: Time)
    ensures var checked, rotated := CheckSession(s, tokenHash, now), RotateCsrf(s, tokenHash, csrfHash, now);
            if SessionAccepted(s.db, tokenHash, now) then Bounded(checked.db, tokenHash) && Bounded(rotated.db, tokenHash)
            else checked == s && rotated == s
  {}

  lemma ApplyKeepsBounded(s: System, step: Step, tokenHash: SecretHash)
    requires Bounded(s.db, tokenHash)
    ensures Bounded(Apply(s, step).db, tokenHash)
  {
    match step
    case Reads(read) => ReadsChangeNoTable(s, read);
    case Writes(LoginCompletes(id, verification, sessionId, hash, csrfHash)) =>
      if id in s.ops && s.ops[id].LoginHasUser? {
        var op := s.ops[id];
        var session := LoginSession(s.config, op, sessionId, hash, csrfHash);
        if LoginTx(s, op, verification, session).Success? {
          AuthenticationEffect(s.db, op.ceremonyId, verification, session, op.now,
                               AuditEvent("session.created", Some(op.userId), Some(op.userId)));
        }
      }
    case Writes(write) => WriteTouchesNothing(s, write);
    case Transacts(ChecksSession(hash, now)) => UseBounds(s, hash, 0, now);
    case Transacts(RotatesCsrf(hash, csrfHash, now)) => UseBounds(s, hash, csrfHash, now);
    case Transacts(atomic) => AtomicTouchesNothing(s, atomic);
  }

  /** Once a session was used, no later step, from any state, extends it past its absolute expiry. */
  lemma {:induction false} NoRefreshPassesAbsoluteExpiry(s: System, steps: seq<Step>, tokenHash: SecretHash)
    requires Bounded(s.db, tokenHash)
    ensures Bounded(Execute(s, steps).db, tokenHash)
    decreases |steps|
  {
    if steps != [] {
      ApplyKeepsBounded(s, steps[0], tokenHash);
      NoRefreshPassesAbsoluteExpiry(Apply(s, steps[0]), steps[1..], tokenHash);
    }
  }
}
