/**
 What completes a recovery request. Every completion is a registration of the same
 user at that moment; and every registration completes all issued requests of its user,
 whatever capability it used, if any.
*/
module AuthRecovery {
  import opened Wrappers
  import opened AuthTables
  import opened AuthTransactions
  import opened AuthRuns
  import opened AuthInvariant
  import opened AuthProvenance
  import opened AuthFreshness

  /** Some registration of the request's user happened when the request was completed. */
  ghost predicate CompletedBy(row: RecoveryRow, registrations: Registrations) {
    row.completedAt.Some? ==>
      exists i :: 0 <= i < |registrations| && registrations[i].userId == row.userId && registrations[i].now == row.completedAt.value
  }

  ghost predicate CompletionsTraced(recoveries: map<Uuid, RecoveryRow>, registrations: Registrations) {
    forall r | r in recoveries :: CompletedBy(recoveries[r], registrations)
  }

  ghost predicate SameCompletions(a: map<Uuid, RecoveryRow>, b: map<Uuid, RecoveryRow>) {
    forall r | r in b ::
      if r in a then b[r].completedAt == a[r].completedAt && b[r].userId == a[r].userId else b[r].completedAt.None?
  }

  lemma SameCompletionsStayTraced(a: map<Uuid, RecoveryRow>, b: map<Uuid, RecoveryRow>, registrations: Registrations)
    requires SameCompletions(a, b) && CompletionsTraced(a, registrations)
    ensures CompletionsTraced(b, registrations)
  {
    forall r | r in b
      ensures CompletedBy(b[r], registrations)
    {
      assert r in a ==> CompletedBy(a[r], registrations);
    }
  }

  ghost predicate NothingCompleted(s: System, after: System) {
    SameCompletions(s.db.recoveries, after.db.recoveries) && after.history.registrations == s.history.registrations
  }

  lemma WriteCompletesNothing(s: System, step: WriteStep)
    requires !step.RegistrationCompletes?
    ensures NothingCompleted(s, ApplyWrite(s, step))
  {
    match step
    case LoginCompletes(id, verification, sessionId, tokenHash, csrfHash) =>
      if id in s.ops && s.ops[id].LoginHasUser? {
        var op := s.ops[id];
        var session := LoginSession(s.config, op, sessionId, tokenHash, csrfHash);
        if LoginTx(s, op, verification, session).Success? {
          AuthenticationEffect(s.db, op.ceremonyId, verification, session, op.now,
                               AuditEvent("session.created", Some(op.userId), Some(op.userId)));
        }
      }
    case _ =>
  }

  lemma AtomicCompletesNothing(s: System, step: AtomicStep)
    ensures NothingCompleted(s, ApplyAtomic(s, step))
  {
    match step
    case ApprovesRecovery(recoveryId, operatorId, now) =>
      if ApproveRecovery(s.db, recoveryId, operatorId, now).Success? {
        ApprovalEffect(s.db, recoveryId, operatorId, now);
      }
    case BreaksGlass(rowId, userId, stamp, tokenHash, expiresAt, now) =>
      var c := Capability(stamp, userId, OperatorRecoveryWindow, tokenHash, expiresAt);
      if BreakGlass(s.db, rowId, c, now).Success? {
        BreakGlassEffect(s.db, rowId, c, now);
      }
    case IssuesRecoverySetup(recoveryId, operatorId, userId, stamp, tokenHash, now) =>
      var c := NewCapability(s, stamp, userId, RecoverySetup, tokenHash, now);
      if IssueRecoverySetup(s.db, recoveryId, c, operatorId, now).Success? {
        IssueEffect(s.db, recoveryId, c, operatorId, now);
      }
    case _ =>
  }

  /** A registration completes exactly its user's issued requests, at its time. */
  lemma RegistrationCompletesEveryIssuedRequest(s: System, id: OpId, credential: VerifiedCredential, rowId: Uuid)
    requires id in s.ops && s.ops[id].RegistrationHasCeremony? && s.ops[id].ceremony.userId.Some?
    requires RegistrationTx(s, s.ops[id], credential, rowId).Success?
    ensures var op, after := s.ops[id], RegistrationComplete(s, id, credential, rowId);
            after.db.recoveries.Keys == s.db.recoveries.Keys
            && forall r | r in s.db.recoveries ::
                 var row := s.db.recoveries[r];
                 after.db.recoveries[r] ==
                   if row.userId == op.ceremony.userId.value && row.approvedAt.Some? && row.setupIssuedAt.Some? && row.completedAt.None?
                   then row.(completedAt := Some(op.now)) else row
  {
    var op := s.ops[id];
    var user := op.ceremony.userId;
    RegistrationEffect(s.db, op.ceremonyId, op.ceremony.capabilityHash, credential, rowId, op.now,
                       AuditEvent("passkey.registered", user, user));
  }

  lemma RegistrationKeepsTraced(s: System, id: OpId, credential: VerifiedCredential, rowId: Uuid)
    requires CompletionsTraced(s.db.recoveries, s.history.registrations)
    ensures var after := RegistrationComplete(s, id, credential, rowId);
            CompletionsTraced(after.db.recoveries, after.history.registrations)
  {
    if id in s.ops && s.ops[id].RegistrationHasCeremony? && s.ops[id].ceremony.userId.Some?
       && RegistrationTx(s, s.ops[id], credential, rowId).Success? {
      var op, after := s.ops[id], RegistrationComplete(s, id, credential, rowId);
      RegistrationCompletesEveryIssuedRequest(s, id, credential, rowId);
      var event := RegistrationEvent(id, op.ceremonyId, op.ceremony.kind, op.ceremony.capabilityHash, op.ceremony.userId.value,
                                     credential.credentialId, op.now);
      AddingAnEventKeepsTraced(s.db.recoveries, after.db.recoveries, s.history.registrations, event);
    }
  }

  lemma AddingAnEventKeepsTraced(a: map<Uuid, RecoveryRow>, b: map<Uuid, RecoveryRow>, registrations: Registrations,
                                 event: RegistrationEvent)
    requires CompletionsTraced(a, registrations)
    requires forall r | r in b ::
               r in a && (b[r] == a[r] || (b[r] == a[r].(completedAt := Some(event.now)) && a[r].userId == event.userId))
    ensures CompletionsTraced(b, registrations + [event])
  {
    var more := registrations + [event];
    forall r | r in b
      ensures CompletedBy(b[r], more)
    {
      if b[r] == a[r] && a[r].completedAt.Some? {
        assert CompletedBy(a[r], registrations);
        var i :| 0 <= i < |registrations| && registrations[i].userId == a[r].userId && registrations[i].now == a[r].completedAt.value;
        assert more[i] == registrations[i];
      } else if b[r] != a[r] {
        assert more[|registrations|] == event;
      }
    }
  }

  lemma ApplyKeepsTraced(s: System, step: Step)
    requires CompletionsTraced(s.db.recoveries, s.history.registrations)
    ensures var after := Apply(s, step); CompletionsTraced(after.db.recoveries, after.history.registrations)
  {
    match step
    case Reads(read) =>
    case Writes(RegistrationCompletes(id, credential, rowId)) => RegistrationKeepsTraced(s, id, credential, rowId);
    case Writes(write) =>
      WriteCompletesNothing(s, write);
      SameCompletionsStayTraced(s.db.recoveries, Apply(s, step).db.recoveries, s.history.registrations);
    case Transacts(atomic) =>
      AtomicCompletesNothing(s, atomic);
      SameCompletionsStayTraced(s.db.recoveries, Apply(s, step).db.recoveries, s.history.registrations);
  }

  lemma {:induction false} ExecuteKeepsTraced(s: System, steps: seq<Step>)
    requires CompletionsTraced(s.db.recoveries, s.history.registrations)
    ensures var after := Execute(s, steps); CompletionsTraced(after.db.recoveries, after.history.registrations)
    decreases |steps|
  {
    if steps != [] {
      ApplyKeepsTraced(s, steps[0]);
      ExecuteKeepsTraced(Apply(s, steps[0]), steps[1..]);
    }
  }

  /** In every run, a request was completed by a registration of its own user, at that time. */
  lemma CompletionsAreRegistrations(config: AuthConfig, steps: seq<Step>, recoveryId: Uuid)
    requires var s := Execute(Start(config), steps); recoveryId in s.db.recoveries && s.db.recoveries[recoveryId].completedAt.Some?
    ensures var s := Execute(Start(config), steps); CompletedBy(s.db.recoveries[recoveryId], s.history.registrations)
  {
    ExecuteKeepsTraced(Start(config), steps);
  }

  // ---------- The capability of a completed request ----------

  ghost predicate Live(db: Db, h: SecretHash) {
    h in db.capabilities && db.capabilities[h].consumedAt.None?
  }

  /** A registration consumes the capability of its own ceremony, and no other. */
  lemma RegistrationConsumesOnlyItsCapability(s: System, id: OpId, credential: VerifiedCredential, rowId: Uuid, h: SecretHash)
    requires id in s.ops && s.ops[id].RegistrationHasCeremony? && s.ops[id].ceremony.userId.Some?
    requires RegistrationTx(s, s.ops[id], credential, rowId).Success?
    ensures Live(RegistrationComplete(s, id, credential, rowId).db, h) <==> Live(s.db, h) && s.ops[id].ceremony.capabilityHash != Some(h)
  {
    var op := s.ops[id];
    var user := op.ceremony.userId;
    RegistrationEffect(s.db, op.ceremonyId, op.ceremony.capabilityHash, credential, rowId, op.now,
                       AuditEvent("passkey.registered", user, user));
  }

  /** The capability issued for a request. */
  ghost predicate IssuedFor(s: System, h: SecretHash, recoveryId: Uuid) {
    h in s.history.issued && s.history.issued[h].recovery == Some(recoveryId)
  }

  /** An issued request has exactly one capability, of its own user and for a recovery setup. */
  lemma IssuedRequestHasOneCapability(s: System, recoveryId: Uuid) returns (h: SecretHash)
    requires Freshness(s) && recoveryId in s.db.recoveries && s.db.recoveries[recoveryId].setupIssuedAt.Some?
    ensures IssuedFor(s, h, recoveryId) && forall g | IssuedFor(s, g, recoveryId) :: g == h
    ensures h in s.db.capabilities && s.db.capabilities[h].purpose == RecoverySetup
            && s.db.capabilities[h].userId == s.db.recoveries[recoveryId].userId
  {
    h :| h in s.history.issued && s.history.issued[h].recovery == Some(recoveryId);
    assert BackedByRecovery(s.db, s.history.approvals, s.db.capabilities[h], s.history.issued[h]);
  }

  /** The request is completed by this step. */
  ghost predicate CompletesNow(s: System, after: System, recoveryId: Uuid) {
    recoveryId in s.db.recoveries && s.db.recoveries[recoveryId].completedAt.None?
    && recoveryId in after.db.recoveries && after.db.recoveries[recoveryId].completedAt.Some?
  }

  /**
   In every run: a registration that completes a request leaves the one capability issued
   for it live exactly when that capability was live and the registration used another
   one, or none.
  */
  lemma CompletedRequestKeepsItsCapability(config: AuthConfig, steps: seq<Step>, id: OpId, credential: VerifiedCredential,
                                           rowId: Uuid, recoveryId: Uuid)
    requires var s := Execute(Start(config), steps); CompletesNow(s, RegistrationComplete(s, id, credential, rowId), recoveryId)
    ensures var s := Execute(Start(config), steps);
            id in s.ops && s.ops[id].RegistrationHasCeremony?
            && exists h: SecretHash :: IssuedFor(s, h, recoveryId) && (forall g: SecretHash | IssuedFor(s, g, recoveryId) :: g == h)
                 && (Live(RegistrationComplete(s, id, credential, rowId).db, h)
                     <==> Live(s.db, h) && s.ops[id].ceremony.capabilityHash != Some(h))
  {
    var s := Execute(Start(config), steps);
    StartIsInvariant(config);
    ExecuteKeepsFreshness(Start(config), steps);
    CompletionNeedsACommit(s, id, credential, rowId, recoveryId);
    RegistrationCompletesEveryIssuedRequest(s, id, credential, rowId);
    var h := IssuedRequestHasOneCapability(s, recoveryId);
    RegistrationConsumesOnlyItsCapability(s, id, credential, rowId, h);
  }

  lemma CompletionNeedsACommit(s: System, id: OpId, credential: VerifiedCredential, rowId: Uuid, recoveryId: Uuid)
    requires CompletesNow(s, RegistrationComplete(s, id, credential, rowId), recoveryId)
    ensures id in s.ops && s.ops[id].RegistrationHasCeremony? && s.ops[id].ceremony.userId.Some?
    ensures RegistrationTx(s, s.ops[id], credential, rowId).Success?
  {}
}
