/**
 Runs of the authentication authority. Transactions are atomic, but the service
 operations are not: between its reads and its write an operation is in flight,
 holding what it read, and any other step may land in between. A step names its
 operation and everything it does not compute itself: row ids, tokens, clock values,
 the rows a query picked and what the ceremony engine returned. A step whose
 operation is not in flight, or whose claimed read does not match the tables, changes
 nothing. `Execute` folds a sequence of steps, so every interleaving is a sequence.
*/
module AuthRuns {
  import opened Wrappers
  import opened AuthTables
  import opened AuthTransactions

  type OpId = nat

  /** Where an operation in flight is, and the snapshot it holds. */
  datatype Op =
    | SetupHasCapability(hash: SecretHash, userId: UserId, now: Time)
    | SetupHasUser(hash: SecretHash, userId: UserId, now: Time)
    | BootstrapHasNoWindow(now: Time)
    | BootstrapHasUser(userId: UserId, window: Option<SecretHash>, now: Time)
    | RegistrationHasCeremony(ceremonyId: Uuid, ceremony: CeremonyRow, now: Time)
    | LoginHasCeremony(ceremonyId: Uuid, now: Time)
    | LoginHasUser(ceremonyId: Uuid, userId: UserId, authEpoch: int, now: Time)
    | ApprovalHasNoUser(userId: UserId, user: UserRow, operatorId: UserId, now: Time)
    | SeedHasNoUser(userId: UserId, user: UserRow, now: Time)
    | SeedHasNoOperator(userId: UserId, user: UserRow, now: Time)

  // ---------- What happened, for the theorems ----------

  /** A committed registration. */
  datatype RegistrationEvent = RegistrationEvent(
    op: OpId, ceremonyId: Uuid, kind: CeremonyKind, capabilityHash: Option<SecretHash>, userId: UserId,
    credentialId: CredentialId, now: Time)

  /** A committed login. */
  datatype LoginEvent = LoginEvent(
    op: OpId, ceremonyId: Uuid, tokenHash: SecretHash, userId: UserId, authEpoch: int, credentialId: CredentialId, now: Time)

  /** The issuance of a capability: its user's epoch then, and the recovery request behind it. */
  datatype Issue = Issue(authEpoch: int, recovery: Option<Uuid>)

  datatype History = History(
    registrations: seq<RegistrationEvent>,
    logins: seq<LoginEvent>,
    issued: map<SecretHash, Issue>,
    approvals: map<Uuid, int>,
    touched: map<SecretHash, Time>)

  datatype System = System(config: AuthConfig, db: Db, ops: map<OpId, Op>, nextOp: OpId, history: History)

  function Start(config: AuthConfig): System {
    System(config, EMPTY_DB, map[], 0, History([], [], map[], map[], map[]))
  }

  // ---------- Steps ----------

  /** Steps that read the tables and move an operation on, or end it. */
  datatype ReadStep =
    // start_setup_registration
    | SetupReadsCapability(hash: SecretHash, purpose: CapabilityPurpose, now: Time)
    | SetupReadsUser(op: OpId)
    // start_operator_bootstrap
    | BootstrapReadsWindow(window: Option<SecretHash>, now: Time)
    | BootstrapReadsOperator(op: OpId, userId: UserId)
    // finish_registration
    | RegistrationReads(ceremonyId: Uuid, kind: CeremonyKind, now: Time)
    // finish_authentication
    | LoginReadsCeremony(ceremonyId: Uuid, now: Time)
    | LoginReadsUser(op: OpId, userId: UserId)
    // approve_user_and_issue_setup
    | ApprovalReadsUser(userId: UserId, user: UserRow, operatorId: UserId, now: Time)
    // seed_operator
    | SeedReadsUser(userId: UserId, user: UserRow, now: Time)
    | SeedReadsOperator(op: OpId)
    // any operation may stop between two of its steps
    | Abandons(op: OpId)

  /** The final write of an operation that is not one transaction. */
  datatype WriteStep =
    | SetupInserts(op: OpId, ceremonyId: Uuid, state: Blob)
    | BootstrapInserts(op: OpId, ceremonyId: Uuid, state: Blob)
    | RegistrationCompletes(op: OpId, credential: VerifiedCredential, rowId: Uuid)
    | LoginStarts(ceremonyId: Uuid, state: Blob, now: Time)
    | LoginCompletes(op: OpId, verification: AuthenticationVerification, sessionId: Uuid, tokenHash: SecretHash, csrfHash: SecretHash)
    | ApprovalCompletes(op: OpId, stamp: RowStamp, tokenHash: SecretHash)
    | SeedCompletes(op: OpId)

  /** Operations that are one transaction. */
  datatype AtomicStep =
    | ChecksSession(tokenHash: SecretHash, now: Time)
    | RotatesCsrf(tokenHash: SecretHash, csrfHash: SecretHash, now: Time)
    | LogsOut(tokenHash: SecretHash, now: Time)
    | RequestsRecovery(recoveryId: Uuid, userId: UserId, now: Time)
    | ApprovesRecovery(recoveryId: Uuid, operatorId: UserId, now: Time)
    | IssuesRecoverySetup(recoveryId: Uuid, operatorId: UserId, userId: UserId, stamp: RowStamp, tokenHash: SecretHash, now: Time)
    | BreaksGlass(rowId: Uuid, userId: UserId, stamp: RowStamp, tokenHash: SecretHash, expiresAt: Time, now: Time)
    | RotatesAll(now: Time)

  datatype Step = Reads(read: ReadStep) | Writes(write: WriteStep) | Transacts(atomic: AtomicStep)

  function Begin(s: System, op: Op): System {
    s.(ops := s.ops[s.nextOp := op], nextOp := s.nextOp + 1)
  }

  function Advance(s: System, id: OpId, op: Op): System {
    s.(ops := s.ops[id := op])
  }

  function End(s: System, id: OpId): System {
    s.(ops := s.ops - {id})
  }

  function SetupReadUser(s: System, id: OpId): System {
    if id in s.ops && s.ops[id].SetupHasCapability? then
      var op := s.ops[id];
      if op.userId in s.db.users && s.db.users[op.userId].enabled
      then Advance(s, id, SetupHasUser(op.hash, op.userId, op.now))
      else End(s, id)
    else s
  }

  function SetupInsert(s: System, id: OpId, ceremonyId: Uuid, state: Blob): System {
    if id in s.ops && s.ops[id].SetupHasUser? then
      var op := s.ops[id];
      var row := CeremonyRow(Registration, Some(op.userId), Some(op.hash), state, op.now + s.config.ceremonyTtl, None);
      End(s, id).(db := Commit(s.db, InsertCeremony(s.db, ceremonyId, row)))
    else s
  }

  function BootstrapReadWindow(s: System, window: Option<SecretHash>, now: Time): System {
    match window
    case Some(hash) =>
      if RecoveryWindow(s.db, hash, now)
      then Begin(s, BootstrapHasUser(s.db.capabilities[hash].userId, Some(hash), now))
      else s
    case None =>
      if forall h | h in s.db.capabilities :: !RecoveryWindow(s.db, h, now)
      then Begin(s, BootstrapHasNoWindow(now))
      else s
  }

  function BootstrapReadOperator(s: System, id: OpId, userId: UserId): System {
    if id in s.ops && s.ops[id].BootstrapHasNoWindow? && OperatorWithoutCredential(s.db, userId)
    then Advance(s, id, BootstrapHasUser(userId, None, s.ops[id].now))
    else s
  }

  function BootstrapInsert(s: System, id: OpId, ceremonyId: Uuid, state: Blob): System {
    if id in s.ops && s.ops[id].BootstrapHasUser? then
      var op := s.ops[id];
      var kind := if op.window.Some? then CeremonyKind.OperatorRecovery else OperatorBootstrap;
      var row := CeremonyRow(kind, Some(op.userId), op.window, state, op.now + s.config.ceremonyTtl, None);
      End(s, id).(db := Commit(s.db, InsertCeremony(s.db, ceremonyId, row)))
    else s
  }

  function RegistrationTx(s: System, op: Op, credential: VerifiedCredential, rowId: Uuid): Tx
    requires op.RegistrationHasCeremony? && op.ceremony.userId.Some?
  {
    var user := op.ceremony.userId;
    CompleteRegistration(s.db, op.ceremonyId, op.ceremony.capabilityHash, credential, rowId, op.now,
                         AuditEvent("passkey.registered", user, user))
  }

  function RegistrationComplete(s: System, id: OpId, credential: VerifiedCredential, rowId: Uuid): System {
    if id in s.ops && s.ops[id].RegistrationHasCeremony? then
      var op := s.ops[id];
      if op.ceremony.userId.None? then End(s, id)
      else
        var tx := RegistrationTx(s, op, credential, rowId);
        if tx.Failure? then End(s, id)
        else
          var event := RegistrationEvent(id, op.ceremonyId, op.ceremony.kind, op.ceremony.capabilityHash,
                                         op.ceremony.userId.value, credential.credentialId, op.now);
          End(s, id).(db := tx.value, history := s.history.(registrations := s.history.registrations + [event]))
    else s
  }

  function LoginStart(s: System, ceremonyId: Uuid, state: Blob, now: Time): System {
    var row := CeremonyRow(Authentication, None, None, state, now + s.config.ceremonyTtl, None);
    s.(db := Commit(s.db, InsertCeremony(s.db, ceremonyId, row)))
  }

  function LoginReadUser(s: System, id: OpId, userId: UserId): System {
    if id in s.ops && s.ops[id].LoginHasCeremony? then
      if userId in s.db.users && s.db.users[userId].enabled
      then Advance(s, id, LoginHasUser(s.ops[id].ceremonyId, userId, s.db.users[userId].authEpoch, s.ops[id].now))
      else End(s, id)
    else s
  }

  function LoginSession(config: AuthConfig, op: Op, sessionId: Uuid, tokenHash: SecretHash, csrfHash: SecretHash): SessionRecord
    requires op.LoginHasUser?
  {
    SessionRecord(sessionId, op.userId, tokenHash, csrfHash, op.authEpoch,
                  op.now + config.sessionIdleTtl, op.now + config.sessionAbsoluteTtl)
  }

  function LoginTx(s: System, op: Op, verification: AuthenticationVerification, session: SessionRecord): Tx
    requires op.LoginHasUser?
  {
    CompleteAuthentication(s.db, op.ceremonyId, verification, session, op.now,
                           AuditEvent("session.created", Some(op.userId), Some(op.userId)))
  }

  function LoginComplete(s: System, id: OpId, verification: AuthenticationVerification, sessionId: Uuid,
                         tokenHash: SecretHash, csrfHash: SecretHash): System {
    if id in s.ops && s.ops[id].LoginHasUser? then
      var op := s.ops[id];
      var tx := LoginTx(s, op, verification, LoginSession(s.config, op, sessionId, tokenHash, csrfHash));
      if tx.Failure? then End(s, id)
      else
        var event := LoginEvent(id, op.ceremonyId, tokenHash, op.userId, op.authEpoch, verification.credentialId, op.now);
        End(s, id).(db := tx.value,
                    history := s.history.(logins := s.history.logins + [event],
                                          touched := s.history.touched[tokenHash := op.now]))
    else s
  }

  function NewCapability(s: System, stamp: RowStamp, userId: UserId, purpose: CapabilityPurpose, tokenHash: SecretHash, now: Time): Capability {
    Capability(stamp, userId, purpose, tokenHash, now + s.config.capabilityTtl)
  }

  function EpochOf(db: Db, userId: UserId): int {
    if userId in db.users then db.users[userId].authEpoch else 0
  }

  /** Records the issuance of a capability in the tables after the transaction. */
  function Issued(s: System, tx: Tx, tokenHash: SecretHash, userId: UserId, recovery: Option<Uuid>): System {
    if tx.Failure? then s
    else s.(db := tx.value,
            history := s.history.(issued := s.history.issued[tokenHash := Issue(EpochOf(tx.value, userId), recovery)]))
  }

  function ApprovalComplete(s: System, id: OpId, stamp: RowStamp, tokenHash: SecretHash): System {
    if id in s.ops && s.ops[id].ApprovalHasNoUser? then
      var op := s.ops[id];
      var capability := NewCapability(s, stamp, op.userId, Setup, tokenHash, op.now);
      Issued(End(s, id), ApproveUserWithSetup(s.db, op.userId, op.user, capability, op.operatorId, op.now),
             tokenHash, op.userId, None)
    else s
  }

  function SeedReadOperator(s: System, id: OpId): System {
    if id in s.ops && s.ops[id].SeedHasNoUser? then
      var op := s.ops[id];
      if OperatorExists(s.db) then End(s, id) else Advance(s, id, SeedHasNoOperator(op.userId, op.user, op.now))
    else s
  }

  function SeedComplete(s: System, id: OpId): System {
    if id in s.ops && s.ops[id].SeedHasNoOperator? then
      var op := s.ops[id];
      var audit := AuditEvent("operator.seeded", None, Some(op.userId));
      End(s, id).(db := Commit(s.db, InsertUser(s.db, op.userId, op.user, op.now, audit)))
    else s
  }

  function CheckSession(s: System, tokenHash: SecretHash, now: Time): System {
    var (db, principal) := Session(s.db, tokenHash, now, now + s.config.sessionIdleTtl);
    if principal.None? then s
    else s.(db := db, history := s.history.(touched := s.history.touched[tokenHash := now]))
  }

  function RotateCsrf(s: System, tokenHash: SecretHash, csrfHash: SecretHash, now: Time): System {
    var (db, principal) := RotateSessionCsrf(s.db, tokenHash, csrfHash, now, now + s.config.sessionIdleTtl);
    if principal.None? then s
    else s.(db := db, history := s.history.(touched := s.history.touched[tokenHash := now]))
  }

  function Logout(s: System, tokenHash: SecretHash, now: Time): System {
    s.(db := DeleteSession(s.db, tokenHash, now))
  }

  function RecoveryRequest(s: System, recoveryId: Uuid, userId: UserId, now: Time): System {
    s.(db := Commit(s.db, CreateRecovery(s.db, recoveryId, userId, now)))
  }

  function RecoveryApproval(s: System, recoveryId: Uuid, operatorId: UserId, now: Time): System {
    var tx := ApproveRecovery(s.db, recoveryId, operatorId, now);
    if tx.Failure? then s
    else
      var epoch := EpochOf(tx.value, s.db.recoveries[recoveryId].userId);
      s.(db := tx.value, history := s.history.(approvals := s.history.approvals[recoveryId := epoch]))
  }

  function RecoverySetupIssue(s: System, recoveryId: Uuid, operatorId: UserId, userId: UserId, stamp: RowStamp,
                              tokenHash: SecretHash, now: Time): System {
    var capability := NewCapability(s, stamp, userId, RecoverySetup, tokenHash, now);
    Issued(s, IssueRecoverySetup(s.db, recoveryId, capability, operatorId, now), tokenHash, userId, Some(recoveryId))
  }

  function GlassBreak(s: System, rowId: Uuid, userId: UserId, stamp: RowStamp, tokenHash: SecretHash,
                      expiresAt: Time, now: Time): System {
    var capability := Capability(stamp, userId, OperatorRecoveryWindow, tokenHash, expiresAt);
    Issued(s, BreakGlass(s.db, rowId, capability, now), tokenHash, userId, None)
  }

  function Rotation(s: System, now: Time): System {
    s.(db := Commit(s.db, RotateAllAuthEpochs(s.db, now)))
  }

  function ApplyRead(s: System, step: ReadStep): System {
    match step
    case SetupReadsCapability(hash, purpose, now) =>
      if CapabilityUsable(s.db, hash, purpose, now)
      then Begin(s, SetupHasCapability(hash, s.db.capabilities[hash].userId, now)) else s
    case SetupReadsUser(op) => SetupReadUser(s, op)
    case BootstrapReadsWindow(window, now) => BootstrapReadWindow(s, window, now)
    case BootstrapReadsOperator(op, userId) => BootstrapReadOperator(s, op, userId)
    case RegistrationReads(ceremonyId, kind, now) =>
      if CeremonyUsable(s.db, ceremonyId, kind, now)
      then Begin(s, RegistrationHasCeremony(ceremonyId, s.db.ceremonies[ceremonyId], now)) else s
    case LoginReadsCeremony(ceremonyId, now) =>
      if CeremonyUsable(s.db, ceremonyId, Authentication, now) then Begin(s, LoginHasCeremony(ceremonyId, now)) else s
    case LoginReadsUser(op, userId) => LoginReadUser(s, op, userId)
    case ApprovalReadsUser(userId, user, operatorId, now) =>
      if userId !in s.db.users && user.role == User && user.authEpoch == 1
      then Begin(s, ApprovalHasNoUser(userId, user, operatorId, now)) else s
    case SeedReadsUser(userId, user, now) =>
      if userId !in s.db.users && user.role == Operator && user.authEpoch == 1
      then Begin(s, SeedHasNoUser(userId, user, now)) else s
    case SeedReadsOperator(op) => SeedReadOperator(s, op)
    case Abandons(op) => End(s, op)
  }

  function ApplyWrite(s: System, step: WriteStep): System {
    match step
    case SetupInserts(op, ceremonyId, state) => SetupInsert(s, op, ceremonyId, state)
    case BootstrapInserts(op, ceremonyId, state) => BootstrapInsert(s, op, ceremonyId, state)
    case RegistrationCompletes(op, credential, rowId) => RegistrationComplete(s, op, credential, rowId)
    case LoginStarts(ceremonyId, state, now) => LoginStart(s, ceremonyId, state, now)
    case LoginCompletes(op, verification, sessionId, tokenHash, csrfHash) =>
      LoginComplete(s, op, verification, sessionId, tokenHash, csrfHash)
    case ApprovalCompletes(op, stamp, tokenHash) => ApprovalComplete(s, op, stamp, tokenHash)
    case SeedCompletes(op) => SeedComplete(s, op)
  }

  function ApplyAtomic(s: System, step: AtomicStep): System {
    match step
    case ChecksSession(tokenHash, now) => CheckSession(s, tokenHash, now)
    case RotatesCsrf(tokenHash, csrfHash, now) => RotateCsrf(s, tokenHash, csrfHash, now)
    case LogsOut(tokenHash, now) => Logout(s, tokenHash, now)
    case RequestsRecovery(recoveryId, userId, now) => RecoveryRequest(s, recoveryId, userId, now)
    case ApprovesRecovery(recoveryId, operatorId, now) => RecoveryApproval(s, recoveryId, operatorId, now)
    case IssuesRecoverySetup(recoveryId, operatorId, userId, stamp, tokenHash, now) =>
      RecoverySetupIssue(s, recoveryId, operatorId, userId, stamp, tokenHash, now)
    case BreaksGlass(rowId, userId, stamp, tokenHash, expiresAt, now) =>
      GlassBreak(s, rowId, userId, stamp, tokenHash, expiresAt, now)
    case RotatesAll(now) => Rotation(s, now)
  }

  function Apply(s: System, step: Step): System {
    match step
    case Reads(read) => ApplyRead(s, read)
    case Writes(write) => ApplyWrite(s, write)
    case Transacts(atomic) => ApplyAtomic(s, atomic)
  }

  function Execute(s: System, steps: seq<Step>): System
    decreases |steps|
  {
    if steps == [] then s else Execute(Apply(s, steps[0]), steps[1..])
  }

  lemma {:induction false} ExecuteConcatenates(s: System, first: seq<Step>, second: seq<Step>)
    ensures Execute(s, first + second) == Execute(Execute(s, first), second)
    decreases |first|
  {
    if first == [] {
      assert first + second == second;
    } else {
      assert (first + second)[1..] == first[1..] + second;
      ExecuteConcatenates(Apply(s, first[0]), first[1..], second);
    }
  }

  lemma ThreeSteps(s: System, a: Step, b: Step, c: Step)
    ensures Execute(s, [a, b, c]) == Apply(Apply(Apply(s, a), b), c)
  {
    assert [a, b, c][1..] == [b, c] && [b, c][1..] == [c] && [c][1..] == [];
    var first := Apply(s, a);
    var second := Apply(first, b);
    assert Execute(s, [a, b, c]) == Execute(first, [b, c]);
    assert Execute(first, [b, c]) == Execute(second, [c]);
    assert Execute(second, [c]) == Execute(Apply(second, c), []);
  }

  lemma TwoSteps(s: System, a: Step, b: Step)
    ensures Execute(s, [a, b]) == Apply(Apply(s, a), b)
  {
    assert [a, b][1..] == [b] && [b][1..] == [];
    var first := Apply(s, a);
    assert Execute(s, [a, b]) == Execute(first, [b]);
    assert Execute(first, [b]) == Execute(Apply(first, b), []);
  }
}
