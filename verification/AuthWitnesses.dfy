/**
 Concrete runs from the empty store. A bootstrap survives a global rotation that lands
 while it is in flight; a recovery is completed without the capability issued for it; and
 two interleaved seeds give two operators.
*/
module AuthWitnesses {
  import opened Wrappers
  import opened AuthTables
  import opened AuthTransactions
  import opened AuthRuns
  import opened AuthInvariant
  import opened AuthStale

  const FIRST := "first"
  const SECOND := "second"

  function OperatorRow(handle: Uuid, email: string): UserRow {
    UserRow(handle, email, "Operator", Operator, true, 1, 0)
  }

  function SeedAudit(userId: UserId): AuditRow {
    AuditRow(0, AuditEvent("operator.seeded", None, Some(userId)))
  }

  function SeedRun(): seq<Step> {
    [Reads(SeedReadsUser(FIRST, OperatorRow(1, "a@b"), 0)), Reads(SeedReadsOperator(0)), Writes(SeedCompletes(0))]
  }

  /** One operator, who has no credential; nothing is in flight. */
  function SeededDb(): Db {
    EMPTY_DB.(users := map[FIRST := OperatorRow(1, "a@b")], audit := [SeedAudit(FIRST)])
  }

  lemma SeedRunSeeds(config: AuthConfig)
    ensures var s := Execute(Start(config), SeedRun());
            s == Start(config).(db := SeededDb(), nextOp := 1)
  {
    var run := SeedRun();
    ThreeSteps(Start(config), run[0], run[1], run[2]);
    assert Start(config).ops[0 := SeedHasNoUser(FIRST, OperatorRow(1, "a@b"), 0)] - {0} == map[];
  }

  // ---------- A bootstrap in flight survives a rotation ----------

  function BootstrapReads(op: OpId): seq<Step> {
    [Reads(BootstrapReadsWindow(None, 0)), Reads(BootstrapReadsOperator(op, FIRST))]
  }

  lemma BootstrapReadsLeaveItInFlight(s: System)
    requires OperatorWithoutCredential(s.db, FIRST) && forall h :: !RecoveryWindow(s.db, h, 0)
    ensures Execute(s, BootstrapReads(s.nextOp)) == Begin(s, BootstrapHasUser(FIRST, None, 0))
  {
    var run := BootstrapReads(s.nextOp);
    TwoSteps(s, run[0], run[1]);
    NoWindowIsRead(s);
    OperatorIsRead(s);
  }

  lemma NoWindowIsRead(s: System)
    requires forall h :: !RecoveryWindow(s.db, h, 0)
    ensures Apply(s, Reads(BootstrapReadsWindow(None, 0))) == Begin(s, BootstrapHasNoWindow(0))
  {}

  lemma OperatorIsRead(s: System)
    requires OperatorWithoutCredential(s.db, FIRST)
    ensures Apply(Begin(s, BootstrapHasNoWindow(0)), Reads(BootstrapReadsOperator(s.nextOp, FIRST)))
            == Begin(s, BootstrapHasUser(FIRST, None, 0))
  {
    assert s.ops[s.nextOp := BootstrapHasNoWindow(0)][s.nextOp := BootstrapHasUser(FIRST, None, 0)]
        == s.ops[s.nextOp := BootstrapHasUser(FIRST, None, 0)];
  }

  /** The operator is seeded and a bootstrap reads; everything is rotated; the bootstrap still makes its credential. */
  lemma BootstrapSurvivesRotation(config: AuthConfig, ceremonyId: Uuid, state: Blob, credential: VerifiedCredential, rowId: Uuid)
    requires config.ceremonyTtl > 0
    ensures var read := Execute(Start(config), SeedRun() + BootstrapReads(1));
            var struck := ApplyAtomic(read, RotatesAll(0));
            Strikes(read, RotatesAll(0)) == Some(Everyone)
            && 1 in struck.ops && struck.ops[1] == BootstrapHasUser(FIRST, None, 0)
            && |Execute(struck, FinishBootstrap(struck, 1, ceremonyId, state, 0, credential, rowId)).history.registrations| == 1
  {
    var run := SeedRun() + BootstrapReads(1);
    SeedRunSeeds(config);
    ExecuteConcatenates(Start(config), SeedRun(), BootstrapReads(1));
    var seeded := Start(config).(db := SeededDb(), nextOp := 1);
    BootstrapReadsLeaveItInFlight(seeded);
    var read := Begin(seeded, BootstrapHasUser(FIRST, None, 0));
    StartIsInvariant(config);
    ExecuteKeepsInv(Start(config), run);
    RotationHits(read);
    StruckBootstrapCompletesExactlyWhen(read, RotatesAll(0), 1, ceremonyId, state, 0, credential, rowId);
  }

  lemma RotationHits(s: System)
    requires s.db == SeededDb()
    ensures Strikes(s, RotatesAll(0)) == Some(Everyone)
    ensures ApplyAtomic(s, RotatesAll(0)).db.credentials == map[]
  {}

  // ---------- A recovery is completed without its capability ----------

  function RecoveryRun(h: SecretHash): seq<Step> {
    [Transacts(RequestsRecovery(0, FIRST, 0)), Transacts(ApprovesRecovery(0, FIRST, 0)),
     Transacts(IssuesRecoverySetup(0, FIRST, FIRST, RowStamp(0, 0), h, 0))]
  }

  /** A request of the seeded operator, issued, with its capability live and no credential yet. */
  ghost predicate IssuedAndLive(s: System, h: SecretHash) {
    OperatorWithoutCredential(s.db, FIRST) && s.db.credentials == map[] && s.db.ceremonies == map[]
    && s.db.capabilities.Keys == {h} && s.db.capabilities[h].userId == FIRST
    && s.db.capabilities[h].purpose == RecoverySetup && s.db.capabilities[h].consumedAt.None?
    && 0 in s.db.recoveries && s.db.recoveries[0] == RecoveryRow(FIRST, 0, Some(0), Some(FIRST), Some(0), None)
    && s.history.registrations == [] && s.nextOp == 1
  }

  lemma RequestIsApproved(s: System)
    requires s.db == SeededDb()
    ensures var after := Apply(Apply(s, Transacts(RequestsRecovery(0, FIRST, 0))), Transacts(ApprovesRecovery(0, FIRST, 0)));
            after.db.users == map[FIRST := OperatorRow(1, "a@b").(authEpoch := 2)] && after.db.credentials == map[]
            && after.db.ceremonies == map[] && after.db.capabilities == map[]
            && after.db.recoveries == map[0 := RecoveryRow(FIRST, 0, Some(0), Some(FIRST), None, None)]
            && after.history.registrations == s.history.registrations && after.nextOp == s.nextOp && after.config == s.config
  {
    var requested := Apply(s, Transacts(RequestsRecovery(0, FIRST, 0)));
    assert requested.db.recoveries == map[0 := RecoveryRow(FIRST, 0, None, None, None, None)];
    var tx := ApproveRecovery(requested.db, 0, FIRST, 0);
    assert tx.Success?;
    ApprovalEffect(requested.db, 0, FIRST, 0);
  }

  lemma RecoveryRunIssues(config: AuthConfig, h: SecretHash)
    ensures IssuedAndLive(Execute(Start(config), SeedRun() + RecoveryRun(h)), h)
    ensures Execute(Start(config), SeedRun() + RecoveryRun(h)).config == config
  {
    SeedRunSeeds(config);
    ExecuteConcatenates(Start(config), SeedRun(), RecoveryRun(h));
    var s := Start(config).(db := SeededDb(), nextOp := 1);
    var run := RecoveryRun(h);
    ThreeSteps(s, run[0], run[1], run[2]);
    RequestIsApproved(s);
    IssueAfterApproval(Apply(Apply(s, run[0]), run[1]), h);
  }

  lemma IssueAfterApproval(s: System, h: SecretHash)
    requires s.db.users == map[FIRST := OperatorRow(1, "a@b").(authEpoch := 2)] && s.db.credentials == map[]
    requires s.db.ceremonies == map[] && s.db.capabilities == map[] && s.history.registrations == [] && s.nextOp == 1
    requires s.db.recoveries == map[0 := RecoveryRow(FIRST, 0, Some(0), Some(FIRST), None, None)]
    ensures var after := Apply(s, Transacts(IssuesRecoverySetup(0, FIRST, FIRST, RowStamp(0, 0), h, 0)));
            IssuedAndLive(after, h) && after.config == s.config
  {
    var c := NewCapability(s, RowStamp(0, 0), FIRST, RecoverySetup, h, 0);
    assert IssueRecoverySetup(s.db, 0, c, FIRST, 0).Success?;
    IssueEffect(s.db, 0, c, FIRST, 0);
  }

  /** The three steps that finish a bootstrap in flight complete the request and leave the capability issued for it live. */
  lemma BootstrapCompletesTheRequest(s: System, h: SecretHash, ceremonyId: Uuid, state: Blob, credential: VerifiedCredential, rowId: Uuid)
    requires IssuedAndLive(s, h) && s.config.ceremonyTtl > 0
    ensures var read := Begin(s, BootstrapHasUser(FIRST, None, 0));
            var last := Execute(read, FinishBootstrap(read, 1, ceremonyId, state, 0, credential, rowId));
            0 in last.db.recoveries && last.db.recoveries[0].completedAt.Some?
            && last.db.capabilities == s.db.capabilities
            && |last.history.registrations| == 1 && last.history.registrations[0].capabilityHash.None?
  {
    var read := Begin(s, BootstrapHasUser(FIRST, None, 0));
    var steps := FinishBootstrap(read, 1, ceremonyId, state, 0, credential, rowId);
    ThreeSteps(read, steps[0], steps[1], steps[2]);
    BootstrapIsReadBack(read, 1, ceremonyId, state, 0);
    RegistrationCompletesTheRequest(Apply(Apply(read, steps[0]), steps[1]), h, ceremonyId, state, credential, rowId);
  }

  lemma RegistrationCompletesTheRequest(s: System, h: SecretHash, ceremonyId: Uuid, state: Blob, credential: VerifiedCredential, rowId: Uuid)
    requires 2 in s.ops && s.config.ceremonyTtl > 0
    requires s.ops[2] == RegistrationHasCeremony(ceremonyId,
               CeremonyRow(OperatorBootstrap, Some(FIRST), None, state, s.config.ceremonyTtl, None), 0)
    requires s.db.ceremonies == map[ceremonyId := s.ops[2].ceremony] && s.db.credentials == map[] && IsOperator(s.db, FIRST)
    requires 0 in s.db.recoveries && s.db.recoveries[0] == RecoveryRow(FIRST, 0, Some(0), Some(FIRST), Some(0), None)
    requires s.history.registrations == []
    ensures var last := RegistrationComplete(s, 2, credential, rowId);
            0 in last.db.recoveries && last.db.recoveries[0].completedAt.Some?
            && last.db.capabilities == s.db.capabilities
            && |last.history.registrations| == 1 && last.history.registrations[0].capabilityHash.None?
  {
    var audit := AuditEvent("passkey.registered", Some(FIRST), Some(FIRST));
    BackedRegistrationCommitsExactlyWhen(s.db, ceremonyId, credential, rowId, 0);
    RegistrationEffect(s.db, ceremonyId, None, credential, rowId, 0, audit);
  }

  /** A run in which a request is completed and the recovery capability issued for it was never used. */
  lemma RecoveryNeedNotUseItsCapability(config: AuthConfig, h: SecretHash, ceremonyId: Uuid, state: Blob, credential: VerifiedCredential,
                                        rowId: Uuid)
    requires config.ceremonyTtl > 0
    ensures var read := Execute(Start(config), SeedRun() + RecoveryRun(h) + BootstrapReads(1));
            1 in read.ops && read.ops[1] == BootstrapHasUser(FIRST, None, 0)
            && var last := Execute(read, FinishBootstrap(read, 1, ceremonyId, state, 0, credential, rowId));
               0 in last.db.recoveries && last.db.recoveries[0].completedAt.Some?
               && h in last.db.capabilities && last.db.capabilities[h].purpose == RecoverySetup && last.db.capabilities[h].consumedAt.None?
  {
    RecoveryRunIssues(config, h);
    var issued := Execute(Start(config), SeedRun() + RecoveryRun(h));
    ExecuteConcatenates(Start(config), SeedRun() + RecoveryRun(h), BootstrapReads(1));
    BootstrapReadsLeaveItInFlight(issued);
    BootstrapCompletesTheRequest(issued, h, ceremonyId, state, credential, rowId);
  }

  // ---------- Two seeds race ----------

  function SeedRace(): seq<Step> {
    [Reads(SeedReadsUser(FIRST, OperatorRow(1, "a@b"), 0)), Reads(SeedReadsUser(SECOND, OperatorRow(2, "c@d"), 0)),
     Reads(SeedReadsOperator(0))]
    + [Reads(SeedReadsOperator(1)), Writes(SeedCompletes(0)), Writes(SeedCompletes(1))]
  }

  lemma SeedRaceReads(config: AuthConfig)
    ensures var s := Start(config);
            Execute(s, SeedRace()[..3])
            == s.(ops := map[0 := SeedHasNoOperator(FIRST, OperatorRow(1, "a@b"), 0), 1 := SeedHasNoUser(SECOND, OperatorRow(2, "c@d"), 0)],
                  nextOp := 2)
  {
    var race := SeedRace();
    assert race[..3] == [race[0], race[1], race[2]];
    ThreeSteps(Start(config), race[0], race[1], race[2]);
  }

  /** Both operations find no operator before either inserts one. */
  lemma SeedRaceGivesTwoOperators(config: AuthConfig)
    ensures var db := Execute(Start(config), SeedRace()).db; IsOperator(db, FIRST) && IsOperator(db, SECOND) && FIRST != SECOND
  {
    var race := SeedRace();
    assert race == race[..3] + [race[3], race[4], race[5]];
    ExecuteConcatenates(Start(config), race[..3], [race[3], race[4], race[5]]);
    SeedRaceReads(config);
    SecondCheckPasses(Execute(Start(config), race[..3]));
  }

  lemma SecondCheckPasses(s: System)
    requires s.db == EMPTY_DB
    requires s.ops == map[0 := SeedHasNoOperator(FIRST, OperatorRow(1, "a@b"), 0), 1 := SeedHasNoUser(SECOND, OperatorRow(2, "c@d"), 0)]
    ensures var db := Execute(s, [Reads(SeedReadsOperator(1)), Writes(SeedCompletes(0)), Writes(SeedCompletes(1))]).db;
            IsOperator(db, FIRST) && IsOperator(db, SECOND)
  {
    ThreeSteps(s, Reads(SeedReadsOperator(1)), Writes(SeedCompletes(0)), Writes(SeedCompletes(1)));
    BothSeedsInsert(Apply(s, Reads(SeedReadsOperator(1))));
  }

  lemma BothSeedsInsert(s: System)
    requires s.db == EMPTY_DB && 0 in s.ops && 1 in s.ops
    requires s.ops[0] == SeedHasNoOperator(FIRST, OperatorRow(1, "a@b"), 0)
    requires s.ops[1] == SeedHasNoOperator(SECOND, OperatorRow(2, "c@d"), 0)
    ensures var db := SeedComplete(SeedComplete(s, 0), 1).db; IsOperator(db, FIRST) && IsOperator(db, SECOND)
  {
    var first := SeedComplete(s, 0);
    assert first.db.users == map[FIRST := OperatorRow(1, "a@b")];
    assert UserInsertable(first.db, SECOND, OperatorRow(2, "c@d"));
  }
}
