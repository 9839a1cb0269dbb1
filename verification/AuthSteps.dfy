/**
 What the steps of operations read and write, on the rows. A read puts in flight exactly
 what its query found then; a write commits exactly when the rows still allow it, whatever
 happened in between.
*/
module AuthSteps {
  import opened Wrappers
  import opened AuthTables
  import opened AuthTransactions
  import opened AuthRuns
  import opened AuthInvariant
  import opened AuthExact

  // ---------- Reads ----------

  ghost predicate LiveWindow(db: Db, hash: SecretHash, now: Time) {
    LiveCapability(db, hash, now) && db.capabilities[hash].purpose == OperatorRecoveryWindow
    && db.capabilities[hash].userId in db.users
    && db.users[db.capabilities[hash].userId].role == Operator && db.users[db.capabilities[hash].userId].enabled
  }

  /** What the tables say of an operation at the moment its step puts it in flight. */
  ghost predicate Found(db: Db, op: Op) {
    match op
    case SetupHasCapability(hash, userId, now) => LiveCapability(db, hash, now) && db.capabilities[hash].userId == userId
    case SetupHasUser(_, userId, _) => userId in db.users && db.users[userId].enabled
    case BootstrapHasNoWindow(now) => forall h :: !LiveWindow(db, h, now)
    case BootstrapHasUser(userId, window, now) =>
      userId in db.users && db.users[userId].role == Operator && db.users[userId].enabled
      && (match window
          case Some(hash) => LiveWindow(db, hash, now) && db.capabilities[hash].userId == userId
          case None => !SomeOperatorCredential(db))
    case RegistrationHasCeremony(id, ceremony, now) => LiveCeremony(db, id, now) && ceremony == db.ceremonies[id]
    case LoginHasCeremony(id, now) => LiveCeremony(db, id, now) && db.ceremonies[id].kind == Authentication
    case LoginHasUser(_, userId, authEpoch, _) =>
      userId in db.users && db.users[userId].enabled && db.users[userId].authEpoch == authEpoch
    case ApprovalHasNoUser(userId, user, _, _) => userId !in db.users && user.role == User && user.authEpoch == 1
    case SeedHasNoUser(userId, user, _) => userId !in db.users && user.role == Operator && user.authEpoch == 1
    case SeedHasNoOperator(_, _, _) => forall u | u in db.users :: db.users[u].role != Operator
  }

  /** What an operation carries over from one of its reads to the next. */
  ghost predicate Carries(before: Op, after: Op) {
    match (before, after)
    case (SetupHasCapability(hash, userId, now), SetupHasUser(h, u, n)) => hash == h && userId == u && now == n
    case (BootstrapHasNoWindow(now), BootstrapHasUser(_, window, n)) => now == n && window.None?
    case (LoginHasCeremony(id, now), LoginHasUser(i, _, _, n)) => id == i && now == n
    case (SeedHasNoUser(userId, user, now), SeedHasNoOperator(u, row, n)) => userId == u && user == row && now == n
    case _ => false
  }

  lemma ConditionsOnRows(db: Db, now: Time)
    ensures forall h :: RecoveryWindow(db, h, now) <==> LiveWindow(db, h, now)
    ensures OperatorCredentialExists(db) <==> SomeOperatorCredential(db)
  {}

  /** Whatever a read puts in flight, or moves on, agrees with the rows at that moment and with what it held. */
  lemma ReadsFindWhatTheyHold(s: System, step: ReadStep, id: OpId)
    requires (forall i | i in s.ops :: i < s.nextOp) && id in ApplyRead(s, step).ops
    requires !(id in s.ops && s.ops[id] == ApplyRead(s, step).ops[id])
    ensures Found(s.db, ApplyRead(s, step).ops[id])
    ensures if id in s.ops then Carries(s.ops[id], ApplyRead(s, step).ops[id]) else id == s.nextOp
  {
    match step
    case BootstrapReadsWindow(window, now) => ConditionsOnRows(s.db, now);
    case BootstrapReadsOperator(op, userId) => ConditionsOnRows(s.db, 0);
    case _ =>
  }

  /** In particular a bootstrap in flight is for a user who was then an enabled operator. */
  lemma BootstrapIsForAnEnabledOperator(s: System, step: ReadStep, id: OpId)
    requires (forall i | i in s.ops :: i < s.nextOp) && id in ApplyRead(s, step).ops && ApplyRead(s, step).ops[id].BootstrapHasUser?
    requires !(id in s.ops && s.ops[id].BootstrapHasUser?)
    ensures var op := ApplyRead(s, step).ops[id];
            op.userId in s.db.users && s.db.users[op.userId].role == Operator && s.db.users[op.userId].enabled
            && (op.window.None? ==> !SomeOperatorCredential(s.db))
            && (op.window.Some? ==> LiveWindow(s.db, op.window.value, op.now) && s.db.capabilities[op.window.value].userId == op.userId)
  {
    ReadsFindWhatTheyHold(s, step, id);
  }

  /** A first read starts its operation exactly when it finds its row. */
  lemma FirstReadsStartExactlyWhen(s: System, hash: SecretHash, purpose: CapabilityPurpose, ceremonyId: Uuid, kind: CeremonyKind, now: Time)
    ensures ApplyRead(s, SetupReadsCapability(hash, purpose, now)) ==
            if LiveCapability(s.db, hash, now) && s.db.capabilities[hash].purpose == purpose
            then Begin(s, SetupHasCapability(hash, s.db.capabilities[hash].userId, now)) else s
    ensures ApplyRead(s, RegistrationReads(ceremonyId, kind, now)) ==
            if LiveCeremony(s.db, ceremonyId, now) && s.db.ceremonies[ceremonyId].kind == kind
            then Begin(s, RegistrationHasCeremony(ceremonyId, s.db.ceremonies[ceremonyId], now)) else s
    ensures ApplyRead(s, LoginReadsCeremony(ceremonyId, now)) ==
            if LiveCeremony(s.db, ceremonyId, now) && s.db.ceremonies[ceremonyId].kind == Authentication
            then Begin(s, LoginHasCeremony(ceremonyId, now)) else s
  {}

  /** A second read goes on exactly with an enabled user, or without an operator, and otherwise ends the operation. */
  lemma SecondReadsGoOnExactlyWhen(s: System, id: OpId, userId: UserId)
    requires id in s.ops
    ensures s.ops[id].SetupHasCapability? ==>
              ApplyRead(s, SetupReadsUser(id)) ==
                if s.ops[id].userId in s.db.users && s.db.users[s.ops[id].userId].enabled
                then Advance(s, id, SetupHasUser(s.ops[id].hash, s.ops[id].userId, s.ops[id].now)) else End(s, id)
    ensures s.ops[id].LoginHasCeremony? ==>
              ApplyRead(s, LoginReadsUser(id, userId)) ==
                if userId in s.db.users && s.db.users[userId].enabled
                then Advance(s, id, LoginHasUser(s.ops[id].ceremonyId, userId, s.db.users[userId].authEpoch, s.ops[id].now)) else End(s, id)
    ensures s.ops[id].SeedHasNoUser? ==>
              ApplyRead(s, SeedReadsOperator(id)) ==
                if exists u :: u in s.db.users && s.db.users[u].role == Operator then End(s, id)
                else Advance(s, id, SeedHasNoOperator(s.ops[id].userId, s.ops[id].user, s.ops[id].now))
  {}

  // ---------- Writes ----------

  /** The ceremony a write of an operation stores, with its kind, user, capability, state and expiry. */
  lemma InsertedCeremonies(s: System, id: OpId, ceremonyId: Uuid, state: Blob, now: Time)
    requires Inv(s) && id in s.ops && ceremonyId !in s.db.ceremonies
    ensures s.ops[id].SetupHasUser? ==>
              SetupInsert(s, id, ceremonyId, state).db == s.db.(ceremonies := s.db.ceremonies[ceremonyId :=
                CeremonyRow(Registration, Some(s.ops[id].userId), Some(s.ops[id].hash), state, s.ops[id].now + s.config.ceremonyTtl, None)])
    ensures s.ops[id].BootstrapHasUser? ==>
              BootstrapInsert(s, id, ceremonyId, state).db == s.db.(ceremonies := s.db.ceremonies[ceremonyId :=
                CeremonyRow(if s.ops[id].window.Some? then CeremonyKind.OperatorRecovery else OperatorBootstrap,
                            Some(s.ops[id].userId), s.ops[id].window, state, s.ops[id].now + s.config.ceremonyTtl, None)])
    ensures LoginStart(s, ceremonyId, state, now).db == s.db.(ceremonies := s.db.ceremonies[ceremonyId :=
              CeremonyRow(Authentication, None, None, state, now + s.config.ceremonyTtl, None)])
  {
    assert OpOk(s.db, s.ops[id]);
  }

  /**
   From any state of any run, a login at its last step logs in exactly when its ceremony is
   still live, its credential is one of its user and unrevoked, and its session is new; and
   then its session has the user, epoch and expiries that it read and was given.
  */
  lemma LoginCommitsExactlyWhen(s: System, id: OpId, verification: AuthenticationVerification, sessionId: Uuid, tokenHash: SecretHash,
                                csrfHash: SecretHash)
    requires Inv(s) && id in s.ops && s.ops[id].LoginHasUser?
    ensures var op, after := s.ops[id], LoginComplete(s, id, verification, sessionId, tokenHash, csrfHash);
            var k := verification.credentialId;
            if LiveCeremony(s.db, op.ceremonyId, op.now) && s.db.ceremonies[op.ceremonyId].kind == Authentication
               && k in s.db.credentials && s.db.credentials[k].userId == op.userId && s.db.credentials[k].revokedAt.None?
               && tokenHash !in s.db.sessions && (forall h | h in s.db.sessions :: s.db.sessions[h].id != sessionId)
            then
              after.history.logins == s.history.logins
                + [LoginEvent(id, op.ceremonyId, tokenHash, op.userId, op.authEpoch, k, op.now)]
              && after.db.sessions == s.db.sessions[tokenHash :=
                   SessionRow(sessionId, op.userId, csrfHash, op.authEpoch, op.now + s.config.sessionIdleTtl,
                              op.now + s.config.sessionAbsoluteTtl, op.now, op.now, None)]
            else after.db == s.db && after.history == s.history
  {
    var op := s.ops[id];
    assert OpOk(s.db, op);
    LoginOnRows(s.db, op.ceremonyId, verification, LoginSession(s.config, op, sessionId, tokenHash, csrfHash), op.now,
                AuditEvent("session.created", Some(op.userId), Some(op.userId)));
  }

  /** The same for registrations of every kind: the ceremony, the capability, the operator check and the credential decide. */
  lemma RegistrationCommitsExactlyWhen(s: System, id: OpId, credential: VerifiedCredential, rowId: Uuid)
    requires Inv(s) && id in s.ops && s.ops[id].RegistrationHasCeremony? && s.ops[id].ceremony.userId.Some?
    ensures var op, after := s.ops[id], RegistrationComplete(s, id, credential, rowId);
            var hash := op.ceremony.capabilityHash;
            if LiveCeremony(s.db, op.ceremonyId, op.now)
               && (op.ceremony.kind == OperatorBootstrap ==> !SomeOperatorCredential(s.db))
               && (hash.Some? ==> LiveCapability(s.db, hash.value, op.now))
               && NewCredential(s.db, credential.credentialId, rowId)
            then
              after.history.registrations == s.history.registrations
                + [RegistrationEvent(id, op.ceremonyId, op.ceremony.kind, hash, op.ceremony.userId.value, credential.credentialId, op.now)]
              && Registered(s.db, after.db, op.ceremonyId, hash, credential, rowId, op.now)
            else after.db == s.db && after.history == s.history
  {
    var op := s.ops[id];
    var user := op.ceremony.userId;
    assert OpOk(s.db, op) && CeremonyOk(s.db, s.db.ceremonies[op.ceremonyId]);
    RegistrationOnRows(s.db, op.ceremonyId, op.ceremony.capabilityHash, credential, rowId, op.now,
                       AuditEvent("passkey.registered", user, user));
  }

  /** A user is approved exactly when the user and the capability are new and the operator exists; both are stored with their times. */
  lemma ApprovalCommitsExactlyWhen(s: System, id: OpId, stamp: RowStamp, tokenHash: SecretHash)
    requires id in s.ops && s.ops[id].ApprovalHasNoUser?
    ensures var op, after := s.ops[id], ApprovalComplete(s, id, stamp, tokenHash);
            if NewUser(s.db, op.userId, op.user) && tokenHash !in s.db.capabilities
               && (forall h | h in s.db.capabilities :: s.db.capabilities[h].id != stamp.id)
               && (op.operatorId == op.userId || op.operatorId in s.db.users)
            then
              after.db.users == s.db.users[op.userId := op.user.(createdAt := op.now)]
              && after.db.capabilities == s.db.capabilities[tokenHash :=
                   CapabilityRow(stamp.id, op.userId, Setup, op.now + s.config.capabilityTtl, None, stamp.createdAt)]
            else after.db == s.db
  {
    var op := s.ops[id];
    ApproveUserOnRows(s.db, op.userId, op.user, NewCapability(s, stamp, op.userId, Setup, tokenHash, op.now), op.operatorId, op.now);
  }

  /** A seed past its check commits exactly when its user is new, and stores it as of its time. */
  lemma SeedCommitsExactlyWhen(s: System, id: OpId)
    requires id in s.ops && s.ops[id].SeedHasNoOperator?
    ensures var op, after := s.ops[id], SeedComplete(s, id);
            if NewUser(s.db, op.userId, op.user)
            then after.db == s.db.(users := s.db.users[op.userId := op.user.(createdAt := op.now)],
                                   audit := s.db.audit + [AuditLine(op.now, "operator.seeded", None, Some(op.userId))])
            else after.db == s.db
  {
    var op := s.ops[id];
    InsertUserOnRows(s.db, op.userId, op.user, op.now, AuditEvent("operator.seeded", None, Some(op.userId)));
  }

  /** The capability of an issued recovery, with its purpose and expiry. */
  lemma IssuedSetupOnRows(s: System, recoveryId: Uuid, operatorId: UserId, userId: UserId, stamp: RowStamp, tokenHash: SecretHash, now: Time)
    ensures var after := RecoverySetupIssue(s, recoveryId, operatorId, userId, stamp, tokenHash, now);
            after.db == s.db
            || after.db.capabilities == s.db.capabilities[tokenHash :=
                 CapabilityRow(stamp.id, userId, RecoverySetup, now + s.config.capabilityTtl, None, stamp.createdAt)]
  {
    IssueOnRows(s.db, recoveryId, NewCapability(s, stamp, userId, RecoverySetup, tokenHash, now), operatorId, now);
  }

  /** A bootstrap's reads go on exactly with the window or operator that the rows have, and with no window only when there is none. */
  lemma BootstrapReadsGoOnExactlyWhen(s: System, window: Option<SecretHash>, now: Time, id: OpId, userId: UserId)
    ensures ApplyRead(s, BootstrapReadsWindow(window, now)) ==
              match window
              case Some(hash) =>
                if LiveWindow(s.db, hash, now) then Begin(s, BootstrapHasUser(s.db.capabilities[hash].userId, window, now)) else s
              case None => if forall h :: !LiveWindow(s.db, h, now) then Begin(s, BootstrapHasNoWindow(now)) else s
    ensures id in s.ops && s.ops[id].BootstrapHasNoWindow? ==>
              ApplyRead(s, BootstrapReadsOperator(id, userId)) ==
                if userId in s.db.users && s.db.users[userId].role == Operator && s.db.users[userId].enabled && !SomeOperatorCredential(s.db)
                then Advance(s, id, BootstrapHasUser(userId, None, s.ops[id].now)) else s
  {
    ConditionsOnRows(s.db, now);
  }
}
