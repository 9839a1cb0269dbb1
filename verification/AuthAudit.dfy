/**
 The audit log over runs. Registrations and logins are in the log, each once, in the
 order in which they committed, with their time, actor and subject; and the log holds no
 other row of their type.
*/
module AuthAudit {
  import opened Wrappers
  import opened AuthTables
  import opened AuthTransactions
  import opened AuthRuns
  import opened AuthMonotone
  import opened AuthInvariant
  import opened AuthExact

  type Log = seq<AuditRow>

  const REGISTERED := "passkey.registered"
  const LOGGED_IN := "session.created"

  /** The rows of one type, in their order. */
  function OfType(log: Log, eventType: string): Log {
    if log == [] then []
    else
      var last := log[|log| - 1];
      OfType(log[..|log| - 1], eventType) + if last.event.eventType == eventType then [last] else []
  }

  lemma OfTypeAppends(log: Log, row: AuditRow, eventType: string)
    ensures OfType(log + [row], eventType) == OfType(log, eventType) + if row.event.eventType == eventType then [row] else []
  {
    assert (log + [row])[..|log|] == log;
  }

  function RegistrationLines(registrations: seq<RegistrationEvent>): (lines: Log) {
    seq(|registrations|, i requires 0 <= i < |registrations| =>
      AuditLine(registrations[i].now, REGISTERED, Some(registrations[i].userId), Some(registrations[i].userId)))
  }

  function LoginLines(logins: seq<LoginEvent>): (lines: Log) {
    seq(|logins|, i requires 0 <= i < |logins| =>
      AuditLine(logins[i].now, LOGGED_IN, Some(logins[i].userId), Some(logins[i].userId)))
  }

  ghost predicate Logged(s: System) {
    OfType(s.db.audit, REGISTERED) == RegistrationLines(s.history.registrations)
    && OfType(s.db.audit, LOGGED_IN) == LoginLines(s.history.logins)
  }

  /** The log is as it was, or has one more row, of another type. */
  ghost predicate OtherRow(before: Log, after: Log) {
    after == before
    || (exists row :: after == before + [row] && row.event.eventType != REGISTERED && row.event.eventType != LOGGED_IN)
  }

  ghost predicate Unlogged(s: System, after: System) {
    OtherRow(s.db.audit, after.db.audit)
    && after.history.registrations == s.history.registrations && after.history.logins == s.history.logins
  }

  lemma UnloggedKeepsLogged(s: System, after: System)
    requires Logged(s) && Unlogged(s, after)
    ensures Logged(after)
  {
    if after.db.audit != s.db.audit {
      var row :| after.db.audit == s.db.audit + [row] && row.event.eventType != REGISTERED && row.event.eventType != LOGGED_IN;
      OfTypeAppends(s.db.audit, row, REGISTERED);
      OfTypeAppends(s.db.audit, row, LOGGED_IN);
    }
  }

  lemma RegistrationIsLogged(s: System, id: OpId, credential: VerifiedCredential, rowId: Uuid)
    requires Inv(s) && Logged(s)
    ensures Logged(RegistrationComplete(s, id, credential, rowId))
  {
    if id in s.ops && s.ops[id].RegistrationHasCeremony? && s.ops[id].ceremony.userId.Some?
       && RegistrationTx(s, s.ops[id], credential, rowId).Success? {
      var op := s.ops[id];
      var user := op.ceremony.userId;
      assert OpOk(s.db, op);
      RegistrationOnRows(s.db, op.ceremonyId, op.ceremony.capabilityHash, credential, rowId, op.now, AuditEvent(REGISTERED, user, user));
      var row := AuditLine(op.now, REGISTERED, user, user);
      OfTypeAppends(s.db.audit, row, REGISTERED);
      OfTypeAppends(s.db.audit, row, LOGGED_IN);
    }
  }

  lemma LoginIsLogged(s: System, id: OpId, verification: AuthenticationVerification, sessionId: Uuid, tokenHash: SecretHash,
                      csrfHash: SecretHash)
    requires Logged(s)
    ensures Logged(LoginComplete(s, id, verification, sessionId, tokenHash, csrfHash))
  {
    if id in s.ops && s.ops[id].LoginHasUser? {
      var op := s.ops[id];
      var session := LoginSession(s.config, op, sessionId, tokenHash, csrfHash);
      if LoginTx(s, op, verification, session).Success? {
        LoginOnRows(s.db, op.ceremonyId, verification, session, op.now, AuditEvent(LOGGED_IN, Some(op.userId), Some(op.userId)));
        var row := AuditLine(op.now, LOGGED_IN, Some(op.userId), Some(op.userId));
        OfTypeAppends(s.db.audit, row, REGISTERED);
        OfTypeAppends(s.db.audit, row, LOGGED_IN);
      }
    }
  }

  lemma ApprovalStepIsUnlogged(s: System, id: OpId, stamp: RowStamp, tokenHash: SecretHash)
    ensures Unlogged(s, ApprovalComplete(s, id, stamp, tokenHash))
  {
    if id in s.ops && s.ops[id].ApprovalHasNoUser? {
      var op := s.ops[id];
      var c := NewCapability(s, stamp, op.userId, Setup, tokenHash, op.now);
      ApproveUserOnRows(s.db, op.userId, op.user, c, op.operatorId, op.now);
      OtherType(s.db.audit, AuditLine(op.now, "user.approved_with_setup", Some(op.operatorId), Some(op.userId)));
    }
  }

  lemma SeedIsUnlogged(s: System, id: OpId)
    ensures Unlogged(s, SeedComplete(s, id))
  {
    if id in s.ops && s.ops[id].SeedHasNoOperator? {
      var op := s.ops[id];
      InsertUserOnRows(s.db, op.userId, op.user, op.now, AuditEvent("operator.seeded", None, Some(op.userId)));
      OtherType(s.db.audit, AuditLine(op.now, "operator.seeded", None, Some(op.userId)));
    }
  }

  lemma OtherType(log: Log, row: AuditRow)
    requires row.event.eventType != REGISTERED && row.event.eventType != LOGGED_IN
    ensures OtherRow(log, log + [row])
  {}

  lemma WriteKeepsLogged(s: System, step: WriteStep)
    requires Inv(s) && Logged(s)
    ensures Logged(ApplyWrite(s, step))
  {
    match step
    case RegistrationCompletes(id, credential, rowId) => RegistrationIsLogged(s, id, credential, rowId);
    case LoginCompletes(id, verification, sessionId, tokenHash, csrfHash) =>
      LoginIsLogged(s, id, verification, sessionId, tokenHash, csrfHash);
    case ApprovalCompletes(id, stamp, tokenHash) =>
      ApprovalStepIsUnlogged(s, id, stamp, tokenHash);
      UnloggedKeepsLogged(s, ApplyWrite(s, step));
    case SeedCompletes(id) =>
      SeedIsUnlogged(s, id);
      UnloggedKeepsLogged(s, ApplyWrite(s, step));
    case _ =>
      UnloggedKeepsLogged(s, ApplyWrite(s, step));
  }

  lemma AtomicIsUnlogged(s: System, step: AtomicStep)
    ensures Unlogged(s, ApplyAtomic(s, step))
  {
    match step
    case ApprovesRecovery(recoveryId, operatorId, now) =>
      ApprovalErrorsOnRows(s.db, recoveryId, operatorId, now);
      if recoveryId in s.db.recoveries {
        OtherType(s.db.audit, AuditLine(now, "recovery.approved", Some(operatorId), Some(s.db.recoveries[recoveryId].userId)));
      }
    case IssuesRecoverySetup(recoveryId, operatorId, userId, stamp, tokenHash, now) =>
      IssueOnRows(s.db, recoveryId, NewCapability(s, stamp, userId, RecoverySetup, tokenHash, now), operatorId, now);
      OtherType(s.db.audit, AuditLine(now, "recovery.setup_issued", Some(operatorId), Some(userId)));
    case BreaksGlass(rowId, userId, stamp, tokenHash, expiresAt, now) =>
      BreakGlassErrorsOnRows(s.db, rowId, Capability(stamp, userId, OperatorRecoveryWindow, tokenHash, expiresAt), now);
      OtherType(s.db.audit, AuditLine(now, "operator.break_glass_opened", None, Some(userId)));
    case RotatesAll(now) =>
      RotationOnRows(s.db, now);
      OtherType(s.db.audit, AuditLine(now, "auth.epoch_rotated_all", None, None));
    case _ =>
  }

  lemma ApplyKeepsLogged(s: System, step: Step)
    requires Inv(s) && Logged(s)
    ensures Logged(Apply(s, step))
  {
    match step
    case Reads(read) => ReadsChangeNoTable(s, read);
    case Writes(write) => WriteKeepsLogged(s, write);
    case Transacts(atomic) =>
      AtomicIsUnlogged(s, atomic);
      UnloggedKeepsLogged(s, ApplyAtomic(s, atomic));
  }

  lemma {:induction false} ExecuteKeepsLogged(s: System, steps: seq<Step>)
    requires Inv(s) && Logged(s)
    ensures Logged(Execute(s, steps))
    decreases |steps|
  {
    if steps != [] {
      ApplyKeepsLogged(s, steps[0]);
      ApplyKeepsInv(s, steps[0]);
      ExecuteKeepsLogged(Apply(s, steps[0]), steps[1..]);
    }
  }

  /** In every run, the registration and login rows of the log are the committed registrations and logins, in order. */
  lemma LogTellsRegistrationsAndLogins(config: AuthConfig, steps: seq<Step>)
    ensures var s := Execute(Start(config), steps);
            OfType(s.db.audit, "passkey.registered") == RegistrationLines(s.history.registrations)
            && OfType(s.db.audit, "session.created") == LoginLines(s.history.logins)
  {
    StartIsInvariant(config);
    ExecuteKeepsLogged(Start(config), steps);
  }
}
