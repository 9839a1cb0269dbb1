/**
 How many operators there can be. Only a seed makes one; it checks that there is none and
 inserts in separate steps, so seeds can race. A run ends with two operators exactly when
 a seed past its check inserted while there was one, and never when seeds check one at a
 time.
*/
module AuthOperators {
  import opened Wrappers
  import opened AuthTables
  import opened AuthTransactions
  import opened AuthRuns
  import opened AuthMonotone
  import opened AuthInvariant

  ghost predicate TwoOperators(db: Db) {
    exists u, v :: u != v && IsOperator(db, u) && IsOperator(db, v)
  }

  /** Operations that will insert a user hold one of their own kind. */
  ghost predicate RoleOk(op: Op) {
    match op
    case ApprovalHasNoUser(_, user, _, _) => user.role == User
    case SeedHasNoUser(_, user, _) => user.role == Operator
    case SeedHasNoOperator(_, user, _) => user.role == Operator
    case _ => true
  }

  ghost predicate RolesOk(ops: map<OpId, Op>) {
    forall id | id in ops :: RoleOk(ops[id])
  }

  ghost predicate SameOperators(a: Db, b: Db) {
    forall u :: IsOperator(a, u) <==> IsOperator(b, u)
  }

  /** The insertion of a seed past its check commits. */
  ghost predicate SeedCommits(s: System, id: OpId) {
    id in s.ops && s.ops[id].SeedHasNoOperator?
    && InsertUser(s.db, s.ops[id].userId, s.ops[id].user, s.ops[id].now, SeedAudit(s.ops[id])).Success?
  }

  function SeedAudit(op: Op): AuditEvent
    requires op.SeedHasNoOperator?
  {
    AuditEvent("operator.seeded", None, Some(op.userId))
  }

  // ---------- One step ----------

  lemma ReadKeepsRoles(s: System, step: ReadStep)
    requires RolesOk(s.ops)
    ensures RolesOk(ApplyRead(s, step).ops)
  {}

  lemma ApplyKeepsRoles(s: System, step: Step)
    requires RolesOk(s.ops)
    ensures RolesOk(Apply(s, step).ops)
  {
    match step
    case Reads(read) => ReadKeepsRoles(s, read);
    case Writes(write) => WritesOnlyEndOps(s, write);
    case Transacts(atomic) => AtomicLeavesOps(s, atomic);
  }

  /** A seed past its check adds its user to the operators exactly when its insertion commits. */
  lemma SeedAddsAnOperator(s: System, id: OpId)
    requires RolesOk(s.ops)
    ensures var after := SeedComplete(s, id).db;
            if SeedCommits(s, id)
            then !IsOperator(s.db, s.ops[id].userId)
                 && forall u :: IsOperator(after, u) <==> IsOperator(s.db, u) || u == s.ops[id].userId
            else after == s.db
  {
    if SeedCommits(s, id) {
      assert RoleOk(s.ops[id]);
    }
  }

  /** So there are two afterwards exactly when there were two, or one and the insertion commits. */
  lemma SeedMakesTwoExactlyWhen(s: System, id: OpId)
    requires RolesOk(s.ops)
    ensures TwoOperators(SeedComplete(s, id).db) <==> TwoOperators(s.db) || (OperatorExists(s.db) && SeedCommits(s, id))
  {
    SeedAddsAnOperator(s, id);
    var after := SeedComplete(s, id).db;
    if OperatorExists(s.db) && SeedCommits(s, id) {
      var u :| u in s.db.users && s.db.users[u].role == Operator;
      assert IsOperator(s.db, u);
      assert IsOperator(after, u) && IsOperator(after, s.ops[id].userId);
    }
    if TwoOperators(after) && SeedCommits(s, id) {
      var u, v :| u != v && IsOperator(after, u) && IsOperator(after, v);
      assert IsOperator(s.db, u) || IsOperator(s.db, v);
    }
    if TwoOperators(s.db) {
      var u, v :| u != v && IsOperator(s.db, u) && IsOperator(s.db, v);
      assert IsOperator(after, u) && IsOperator(after, v);
    }
  }

  lemma WriteKeepsOperators(s: System, step: WriteStep)
    requires RolesOk(s.ops) && !step.SeedCompletes?
    ensures SameOperators(s.db, ApplyWrite(s, step).db)
  {
    match step
    case RegistrationCompletes(id, credential, rowId) => RegistrationKeepsUsers(s, id, credential, rowId);
    case LoginCompletes(id, verification, sessionId, tokenHash, csrfHash) =>
      LoginKeepsUsers(s, id, verification, sessionId, tokenHash, csrfHash);
    case ApprovalCompletes(id, stamp, tokenHash) => ApprovalKeepsOperators(s, id, stamp, tokenHash);
    case _ =>
  }

  lemma RegistrationKeepsUsers(s: System, id: OpId, credential: VerifiedCredential, rowId: Uuid)
    ensures RegistrationComplete(s, id, credential, rowId).db.users == s.db.users
  {
    if id in s.ops && s.ops[id].RegistrationHasCeremony? && s.ops[id].ceremony.userId.Some?
       && RegistrationTx(s, s.ops[id], credential, rowId).Success? {
      var op := s.ops[id];
      var user := op.ceremony.userId;
      RegistrationEffect(s.db, op.ceremonyId, op.ceremony.capabilityHash, credential, rowId, op.now,
                         AuditEvent("passkey.registered", user, user));
    }
  }

  lemma LoginKeepsUsers(s: System, id: OpId, verification: AuthenticationVerification, sessionId: Uuid, tokenHash: SecretHash,
                        csrfHash: SecretHash)
    ensures LoginComplete(s, id, verification, sessionId, tokenHash, csrfHash).db.users == s.db.users
  {
    if id in s.ops && s.ops[id].LoginHasUser? {
      var op := s.ops[id];
      var session := LoginSession(s.config, op, sessionId, tokenHash, csrfHash);
      if LoginTx(s, op, verification, session).Success? {
        AuthenticationEffect(s.db, op.ceremonyId, verification, session, op.now,
                             AuditEvent("session.created", Some(op.userId), Some(op.userId)));
      }
    }
  }

  lemma ApprovalKeepsOperators(s: System, id: OpId, stamp: RowStamp, tokenHash: SecretHash)
    requires RolesOk(s.ops)
    ensures SameOperators(s.db, ApprovalComplete(s, id, stamp, tokenHash).db)
  {
    if id in s.ops && s.ops[id].ApprovalHasNoUser? {
      var op := s.ops[id];
      assert RoleOk(op);
      var c := NewCapability(s, stamp, op.userId, Setup, tokenHash, op.now);
      if ApproveUserWithSetup(s.db, op.userId, op.user, c, op.operatorId, op.now).Success? {
        ApproveUserEffect(s.db, op.userId, op.user, c, op.operatorId, op.now);
      }
    }
  }

  lemma AtomicKeepsOperators(s: System, step: AtomicStep)
    ensures SameOperators(s.db, ApplyAtomic(s, step).db)
  {
    AtomicIsLater(s, step);
    AtomicKeepsUserIds(s, step);
    var after := ApplyAtomic(s, step).db;
    assert forall u | u in after.users :: u in s.db.users.Keys;
  }

  lemma AtomicKeepsUserIds(s: System, step: AtomicStep)
    ensures ApplyAtomic(s, step).db.users.Keys == s.db.users.Keys
  {
    match step
    case ApprovesRecovery(recoveryId, operatorId, now) =>
      if ApproveRecovery(s.db, recoveryId, operatorId, now).Success? {
        ApprovalEffect(s.db, recoveryId, operatorId, now);
      }
    case BreaksGlass(rowId, userId, stamp, tokenHash, expiresAt, now) =>
      var c := Capability(stamp, userId, OperatorRecoveryWindow, tokenHash, expiresAt);
      if BreakGlass(s.db, rowId, c, now).Success? {
        BreakGlassEffect(s.db, rowId, c, now);
      }
    case IssuesRecoverySetup(recoveryId, operatorId, userId, stamp, tokenHash, now) =>
      var c := NewCapability(s, stamp, userId, RecoverySetup, tokenHash, now);
      if IssueRecoverySetup(s.db, recoveryId, c, operatorId, now).Success? {
        IssueEffect(s.db, recoveryId, c, operatorId, now);
      }
    case _ =>
  }

  /** Nothing but the write of a seed changes who is an operator. */
  lemma OnlySeedsMakeOperators(s: System, step: Step)
    requires RolesOk(s.ops) && !(step.Writes? && step.write.SeedCompletes?)
    ensures SameOperators(s.db, Apply(s, step).db)
  {
    match step
    case Reads(read) => ReadsChangeNoTable(s, read);
    case Writes(write) => WriteKeepsOperators(s, write);
    case Transacts(atomic) => AtomicKeepsOperators(s, atomic);
  }

  lemma SameOperatorsCountTheSame(a: Db, b: Db)
    requires SameOperators(a, b)
    ensures TwoOperators(a) <==> TwoOperators(b)
    ensures OperatorExists(a) <==> OperatorExists(b)
  {
    SomeoneIsOperator(a);
    SomeoneIsOperator(b);
  }

  lemma SomeoneIsOperator(db: Db)
    ensures OperatorExists(db) <==> exists u :: IsOperator(db, u)
  {
    if OperatorExists(db) {
      var u :| u in db.users && db.users[u].role == Operator;
      assert IsOperator(db, u);
    }
  }

  // ---------- When a run makes two ----------

  /** The step is the insertion of a seed that commits while there is an operator. */
  ghost predicate LateSeed(s: System, step: Step) {
    step.Writes? && step.write.SeedCompletes? && OperatorExists(s.db) && SeedCommits(s, step.write.op)
  }

  ghost predicate SomeSeedIsLate(s: System, steps: seq<Step>)
    decreases |steps|
  {
    steps != [] && (LateSeed(s, steps[0]) || SomeSeedIsLate(Apply(s, steps[0]), steps[1..]))
  }

  lemma StepMakesTwoExactlyWhen(s: System, step: Step)
    requires RolesOk(s.ops)
    ensures TwoOperators(Apply(s, step).db) <==> TwoOperators(s.db) || LateSeed(s, step)
  {
    if step.Writes? && step.write.SeedCompletes? {
      SeedMakesTwoExactlyWhen(s, step.write.op);
    } else {
      OnlySeedsMakeOperators(s, step);
      SameOperatorsCountTheSame(s.db, Apply(s, step).db);
    }
  }

  lemma {:induction false} RunMakesTwoExactlyWhen(s: System, steps: seq<Step>)
    requires RolesOk(s.ops)
    ensures TwoOperators(Execute(s, steps).db) <==> TwoOperators(s.db) || SomeSeedIsLate(s, steps)
    decreases |steps|
  {
    if steps != [] {
      StepMakesTwoExactlyWhen(s, steps[0]);
      ApplyKeepsRoles(s, steps[0]);
      RunMakesTwoExactlyWhen(Apply(s, steps[0]), steps[1..]);
    }
  }

  /** A run from the empty store ends with two operators exactly when some seed inserted while there was one. */
  lemma TwoOperatorsExactlyWhenASeedIsLate(config: AuthConfig, steps: seq<Step>)
    ensures TwoOperators(Execute(Start(config), steps).db) <==> SomeSeedIsLate(Start(config), steps)
  {
    RunMakesTwoExactlyWhen(Start(config), steps);
  }

  // ---------- Seeds that check one at a time ----------

  ghost predicate PastCheck(ops: map<OpId, Op>, id: OpId) {
    id in ops && ops[id].SeedHasNoOperator?
  }

  /** Every check for operators happens while no other seed is past its own. */
  ghost predicate SeedsTakeTurns(s: System, steps: seq<Step>)
    decreases |steps|
  {
    steps != [] ==>
      (steps[0].Reads? && steps[0].read.SeedReadsOperator? ==> forall id | PastCheck(s.ops, id) :: id == steps[0].read.op)
      && SeedsTakeTurns(Apply(s, steps[0]), steps[1..])
  }

  /** One seed at most is past its check, and then there is no operator. */
  ghost predicate OneSeedPastCheck(s: System) {
    (forall i, j | PastCheck(s.ops, i) && PastCheck(s.ops, j) :: i == j)
    && forall id | PastCheck(s.ops, id) :: !OperatorExists(s.db)
  }

  lemma TurnKeepsOneSeed(s: System, step: Step)
    requires RolesOk(s.ops) && OneSeedPastCheck(s)
    requires step.Reads? && step.read.SeedReadsOperator? ==> forall id | PastCheck(s.ops, id) :: id == step.read.op
    ensures OneSeedPastCheck(Apply(s, step)) && !LateSeed(s, step)
  {
    if step.Writes? && step.write.SeedCompletes? {
      SeedEnds(s, step.write.op);
    } else {
      OnlySeedsMakeOperators(s, step);
      SameOperatorsCountTheSame(s.db, Apply(s, step).db);
      ChecksOnlyPassHere(s, step);
    }
  }

  lemma SeedEnds(s: System, id: OpId)
    requires OneSeedPastCheck(s)
    ensures OneSeedPastCheck(SeedComplete(s, id)) && !(OperatorExists(s.db) && SeedCommits(s, id))
  {
    if PastCheck(s.ops, id) {
      var after := SeedComplete(s, id);
      forall j | PastCheck(after.ops, j)
        ensures false
      {
        assert PastCheck(s.ops, j);
      }
    }
  }

  /** A seed gets past its check only by finding no operator. */
  lemma ChecksOnlyPassHere(s: System, step: Step)
    ensures forall id | PastCheck(Apply(s, step).ops, id) ::
              PastCheck(s.ops, id) || (step == Reads(SeedReadsOperator(id)) && !OperatorExists(s.db))
  {
    match step
    case Reads(read) =>
    case Writes(write) => WritesOnlyEndOps(s, write);
    case Transacts(atomic) => AtomicLeavesOps(s, atomic);
  }

  lemma {:induction false} TurnsAreNeverLate(s: System, steps: seq<Step>)
    requires RolesOk(s.ops) && OneSeedPastCheck(s) && SeedsTakeTurns(s, steps)
    ensures !SomeSeedIsLate(s, steps)
    decreases |steps|
  {
    if steps != [] {
      TurnKeepsOneSeed(s, steps[0]);
      ApplyKeepsRoles(s, steps[0]);
      TurnsAreNeverLate(Apply(s, steps[0]), steps[1..]);
    }
  }

  /** If seeds check one at a time there are never two operators, whatever else interleaves. */
  lemma SeedsThatTakeTurnsMakeOneOperator(config: AuthConfig, steps: seq<Step>)
    requires SeedsTakeTurns(Start(config), steps)
    ensures !TwoOperators(Execute(Start(config), steps).db)
  {
    TurnsAreNeverLate(Start(config), steps);
    TwoOperatorsExactlyWhenASeedIsLate(config, steps);
  }
}
