/**
 Stale authority fails closed. Recovery approval, break glass and global rotation
 invalidate what a user holds; they may land between the reads and the write of an
 operation in flight. Whatever the interleaving, a login that read its user before
 gives a session nobody can use, and a setup that read its capability before gives
 no credential.
*/
module AuthStale {
  import opened Wrappers
  import opened AuthTables
  import opened AuthTransactions
  import opened AuthRuns
  import opened AuthMonotone
  import opened AuthInvariant
  import opened AuthProvenance

  /** Some run, with whatever interleaving, leads from one state to another. */
  ghost predicate LeadsTo(s: System, t: System) {
    exists steps :: Execute(s, steps) == t
  }

  // ---------- What an invalidating step does ----------

  /** Whose authority a step invalidates, if it commits. */
  function Strikes(s: System, step: AtomicStep): Option<Scope> {
    match step
    case ApprovesRecovery(recoveryId, operatorId, now) =>
      if ApproveRecovery(s.db, recoveryId, operatorId, now).Success? then Some(OneUser(s.db.recoveries[recoveryId].userId)) else None
    case BreaksGlass(rowId, userId, stamp, tokenHash, expiresAt, now) =>
      if BreakGlass(s.db, rowId, Capability(stamp, userId, OperatorRecoveryWindow, tokenHash, expiresAt), now).Success?
      then Some(OneUser(userId)) else None
    case RotatesAll(now) => if RotateAllAuthEpochs(s.db, now).Success? then Some(Everyone) else None
    case _ => None
  }

  predicate StrikesUser(s: System, step: AtomicStep, userId: UserId) {
    Strikes(s, step).Some? && Strikes(s, step).value.Covers(Some(userId))
  }

  /** The tables before and after: exactly the covered rows lost their authority. */
  ghost predicate Struck(db: Db, after: Db, scope: Scope, now: Time) {
    Invalidated(db, after, scope, now)
    && forall h | h in db.capabilities ::
         h in after.capabilities && after.capabilities[h] == ConsumedCapabilities(db.capabilities, scope, now)[h]
  }

  lemma StrikeEffect(s: System, step: AtomicStep)
    requires Strikes(s, step).Some?
    ensures Struck(s.db, ApplyAtomic(s, step).db, Strikes(s, step).value, step.now)
  {
    match step
    case ApprovesRecovery(recoveryId, operatorId, now) => ApprovalEffect(s.db, recoveryId, operatorId, now);
    case BreaksGlass(rowId, userId, stamp, tokenHash, expiresAt, now) =>
      BreakGlassEffect(s.db, rowId, Capability(stamp, userId, OperatorRecoveryWindow, tokenHash, expiresAt), now);
    case RotatesAll(now) => RotationEffect(s.db, now);
  }

  /**
   A strike is exact: of the stored sessions, capabilities and ceremonies, those of
   the covered users become unusable at every time, and all others stay as usable as
   they were.
  */
  lemma StrikeIsExact(s: System, step: AtomicStep, at: Time)
    requires Strikes(s, step).Some?
    ensures var scope, after := Strikes(s, step).value, ApplyAtomic(s, step).db;
            && (forall h | h in s.db.sessions ::
                  SessionAccepted(after, h, at) <==> SessionAccepted(s.db, h, at) && !scope.Covers(Some(s.db.sessions[h].userId)))
            && (forall h, purpose | h in s.db.capabilities ::
                  CapabilityUsable(after, h, purpose, at)
                  <==> CapabilityUsable(s.db, h, purpose, at) && !scope.Covers(Some(s.db.capabilities[h].userId)))
            && (forall c, kind | c in s.db.ceremonies ::
                  CeremonyUsable(after, c, kind, at) <==> CeremonyUsable(s.db, c, kind, at) && !scope.Covers(s.db.ceremonies[c].userId))
  {
    StrikeEffect(s, step);
  }

  /** A rotation commits unless some epoch is already the largest the column holds. */
  lemma RotationFailsOnlyAtTheLastEpoch(s: System, now: Time)
    ensures Strikes(s, RotatesAll(now)) == (if exists u | u in s.db.users :: s.db.users[u].authEpoch >= MAX_EPOCH
                                            then None else Some(Everyone))
  {}

  // ---------- Dead rows stay dead ----------

  ghost predicate SessionDead(db: Db, h: SecretHash) {
    h in db.sessions && (db.sessions[h].revokedAt.Some?
                         || (db.sessions[h].userId in db.users && db.sessions[h].authEpoch < db.users[db.sessions[h].userId].authEpoch))
  }

  ghost predicate CapabilityDead(db: Db, h: SecretHash) {
    h in db.capabilities && db.capabilities[h].consumedAt.Some?
  }

  ghost predicate CeremonyDead(db: Db, c: Uuid) {
    c in db.ceremonies && db.ceremonies[c].consumedAt.Some?
  }

  ghost predicate NothingUsable(db: Db, stored: Db, at: Time) {
    (forall h | h in stored.sessions :: !SessionAccepted(db, h, at))
    && (forall h, purpose | h in stored.capabilities :: !CapabilityUsable(db, h, purpose, at))
    && (forall h | h in stored.capabilities :: !RecoveryWindow(db, h, at))
    && (forall c, kind | c in stored.ceremonies :: !CeremonyUsable(db, c, kind, at))
  }

  lemma DeadStaysUnusable(a: Db, b: Db, stored: Db, at: Time)
    requires Later(a, b)
    requires (forall h | h in stored.sessions :: SessionDead(a, h)) && (forall h | h in stored.capabilities :: CapabilityDead(a, h))
    requires forall c | c in stored.ceremonies :: CeremonyDead(a, c)
    ensures NothingUsable(b, stored, at)
  {
    forall h | h in stored.sessions
      ensures !SessionAccepted(b, h, at)
    {
      assert SessionDead(a, h);
    }
    forall h | h in stored.capabilities
      ensures b.capabilities[h].consumedAt.Some?
    {
      assert CapabilityDead(a, h);
    }
    forall c | c in stored.ceremonies
      ensures b.ceremonies[c].consumedAt.Some?
    {
      assert CeremonyDead(a, c);
    }
  }

  /**
   Restore: from any tables whatever, however they came about, a committed global
   rotation leaves no stored session, capability or ceremony usable, at any time and
   in every later run.
  */
  lemma RotationSealsRestoredTables(s: System, now: Time, steps: seq<Step>, at: Time)
    requires Strikes(s, RotatesAll(now)).Some?
    ensures NothingUsable(Execute(Rotation(s, now), steps).db, s.db, at)
  {
    RotationEffect(s.db, now);
    var after := Rotation(s, now);
    ExecuteIsLater(after, steps);
    DeadStaysUnusable(after.db, Execute(after, steps).db, s.db, at);
  }

  // ---------- Stale logins ----------

  /** Logins are recorded under operations that have ended, and operation ids are not reused. */
  ghost predicate LoginsEnded(s: System) {
    (forall id | id in s.ops :: id < s.nextOp)
    && forall i | 0 <= i < |s.history.logins| :: s.history.logins[i].op < s.nextOp && s.history.logins[i].op !in s.ops
  }

  /** The operation, while in flight and in what it recorded, keeps the user and epoch it read. */
  ghost predicate Pinned(s: System, id: OpId, userId: UserId, authEpoch: int) {
    id < s.nextOp
    && (id in s.ops ==> s.ops[id].LoginHasUser? && s.ops[id].userId == userId && s.ops[id].authEpoch == authEpoch)
    && forall i | 0 <= i < |s.history.logins| && s.history.logins[i].op == id ::
         s.history.logins[i].userId == userId && s.history.logins[i].authEpoch == authEpoch
  }

  lemma ReadKeepsLogins(s: System, step: ReadStep)
    ensures LoginsEnded(s) ==> LoginsEnded(ApplyRead(s, step))
    ensures forall id, userId, authEpoch :: Pinned(s, id, userId, authEpoch) ==> Pinned(ApplyRead(s, step), id, userId, authEpoch)
  {}

  /** A write ends its own operation, and a login records only what that operation held. */
  lemma WriteKeepsLogins(s: System, step: WriteStep)
    ensures LoginsEnded(s) ==> LoginsEnded(ApplyWrite(s, step))
    ensures forall id, userId, authEpoch :: Pinned(s, id, userId, authEpoch) ==> Pinned(ApplyWrite(s, step), id, userId, authEpoch)
  {}

  lemma ApplyKeepsLogins(s: System, step: Step)
    ensures LoginsEnded(s) ==> LoginsEnded(Apply(s, step))
    ensures forall id, userId, authEpoch :: Pinned(s, id, userId, authEpoch) ==> Pinned(Apply(s, step), id, userId, authEpoch)
  {
    match step
    case Reads(read) => ReadKeepsLogins(s, read);
    case Writes(write) => WriteKeepsLogins(s, write);
    case Transacts(atomic) => AtomicLeavesOps(s, atomic);
  }

  lemma {:induction false} ExecuteKeepsLogins(s: System, steps: seq<Step>)
    ensures LoginsEnded(s) ==> LoginsEnded(Execute(s, steps))
    ensures forall id, userId, authEpoch :: Pinned(s, id, userId, authEpoch) ==> Pinned(Execute(s, steps), id, userId, authEpoch)
    decreases |steps|
  {
    if steps != [] {
      ApplyKeepsLogins(s, steps[0]);
      ExecuteKeepsLogins(Apply(s, steps[0]), steps[1..]);
    }
  }

  lemma StrikeAdvancesEpoch(s: System, step: AtomicStep, userId: UserId)
    requires StrikesUser(s, step, userId) && userId in s.db.users
    ensures EpochOf(ApplyAtomic(s, step).db, userId) == EpochOf(s.db, userId) + 1
  {
    StrikeEffect(s, step);
  }

  ghost predicate LoginsOfOpRefused(s: System, id: OpId, at: Time) {
    forall i | 0 <= i < |s.history.logins| && s.history.logins[i].op == id ::
      !SessionAccepted(s.db, s.history.logins[i].tokenHash, at)
  }

  lemma PinnedLoginsAreRefused(s: System, id: OpId, userId: UserId, authEpoch: int, at: Time)
    requires LoginsOk(s.db, s.history.logins) && Pinned(s, id, userId, authEpoch) && authEpoch < EpochOf(s.db, userId)
    ensures LoginsOfOpRefused(s, id, at)
  {
    forall i | 0 <= i < |s.history.logins| && s.history.logins[i].op == id
      ensures !SessionAccepted(s.db, s.history.logins[i].tokenHash, at)
    {
      assert LoginOk(s.db, s.history.logins[i]);
    }
  }

  /** Later runs never lower an epoch. */
  lemma EpochsOnlyGrow(s: System, steps: seq<Step>, userId: UserId)
    requires userId in s.db.users
    ensures userId in Execute(s, steps).db.users && EpochOf(s.db, userId) <= EpochOf(Execute(s, steps).db, userId)
  {
    ExecuteIsLater(s, steps);
  }

  lemma PinnedSurvives(s: System, between: seq<Step>, strike: AtomicStep, after: seq<Step>, id: OpId, userId: UserId, authEpoch: int)
    requires Inv(s) && Provenance(s) && Pinned(s, id, userId, authEpoch)
    ensures var last := Execute(ApplyAtomic(Execute(s, between), strike), after);
            Pinned(last, id, userId, authEpoch) && LoginsOk(last.db, last.history.logins)
  {
    ExecuteKeepsLogins(s, between);
    ExecuteKeepsProvenance(s, between);
    var ready := Execute(s, between);
    assert ApplyAtomic(ready, strike) == Apply(ready, Transacts(strike));
    ApplyKeepsLogins(ready, Transacts(strike));
    ApplyKeepsInv(ready, Transacts(strike));
    ApplyKeepsProvenance(ready, Transacts(strike));
    ExecuteKeepsLogins(ApplyAtomic(ready, strike), after);
    ExecuteKeepsProvenance(ApplyAtomic(ready, strike), after);
  }

  lemma StruckEpochStaysAhead(s: System, between: seq<Step>, strike: AtomicStep, after: seq<Step>, userId: UserId)
    requires userId in s.db.users && StrikesUser(Execute(s, between), strike, userId)
    ensures EpochOf(s.db, userId) < EpochOf(Execute(ApplyAtomic(Execute(s, between), strike), after).db, userId)
  {
    var ready := Execute(s, between);
    EpochsOnlyGrow(s, between, userId);
    StrikeAdvancesEpoch(ready, strike, userId);
    AtomicIsLater(ready, strike);
    EpochsOnlyGrow(ApplyAtomic(ready, strike), after, userId);
  }

  lemma InFlightLoginIsPinned(s: System, id: OpId)
    requires Inv(s) && LoginsEnded(s) && id in s.ops && s.ops[id].LoginHasUser?
    ensures Pinned(s, id, s.ops[id].userId, s.ops[id].authEpoch)
    ensures s.ops[id].userId in s.db.users && s.ops[id].authEpoch <= EpochOf(s.db, s.ops[id].userId)
  {
    assert OpOk(s.db, s.ops[id]);
  }

  lemma ReachableIsTraced(config: AuthConfig, s: System)
    requires LeadsTo(Start(config), s)
    ensures Inv(s) && Provenance(s) && LoginsEnded(s)
  {
    var steps :| Execute(Start(config), steps) == s;
    RunsHaveProvenance(config, steps);
    ExecuteKeepsLogins(Start(config), steps);
  }

  /**
   A login that read its user before a strike on that user is refused after it: whether
   its session was inserted before the strike or after it, no later state accepts that
   session, at any time.
  */
  lemma StaleLoginFailsClosed(config: AuthConfig, read: System, ready: System, strike: AtomicStep, last: System, id: OpId, at: Time)
    requires LeadsTo(Start(config), read) && LeadsTo(read, ready) && LeadsTo(ApplyAtomic(ready, strike), last)
    requires id in read.ops && read.ops[id].LoginHasUser? && StrikesUser(ready, strike, read.ops[id].userId)
    ensures LoginsOfOpRefused(last, id, at)
  {
    ReachableIsTraced(config, read);
    var between :| Execute(read, between) == ready;
    var after :| Execute(ApplyAtomic(ready, strike), after) == last;
    var userId, authEpoch := read.ops[id].userId, read.ops[id].authEpoch;
    InFlightLoginIsPinned(read, id);
    PinnedSurvives(read, between, strike, after, id, userId, authEpoch);
    StruckEpochStaysAhead(read, between, strike, after, userId);
    PinnedLoginsAreRefused(last, id, userId, authEpoch, at);
  }

  // ---------- Stale setups ----------

  /** The capability a setup in flight holds. */
  function HeldCapability(op: Op): Option<SecretHash> {
    match op
    case SetupHasCapability(hash, _, _) => Some(hash)
    case SetupHasUser(hash, _, _) => Some(hash)
    case BootstrapHasUser(_, window, _) => window
    case RegistrationHasCeremony(_, ceremony, _) => ceremony.capabilityHash
    case _ => None
  }

  ghost predicate NoneSince(registrations: Registrations, n: nat, hash: SecretHash) {
    n <= |registrations| && forall i | n <= i < |registrations| :: registrations[i].capabilityHash != Some(hash)
  }

  lemma WriteRegistersNothingDead(s: System, step: WriteStep, n: nat, hash: SecretHash)
    requires CapabilityDead(s.db, hash) && NoneSince(s.history.registrations, n, hash)
    ensures NoneSince(ApplyWrite(s, step).history.registrations, n, hash)
  {
    match step
    case RegistrationCompletes(id, credential, rowId) =>
      if id in s.ops && s.ops[id].RegistrationHasCeremony? && s.ops[id].ceremony.userId.Some?
         && RegistrationTx(s, s.ops[id], credential, rowId).Success? {
        var op := s.ops[id];
        var user := op.ceremony.userId;
        RegistrationEffect(s.db, op.ceremonyId, op.ceremony.capabilityHash, credential, rowId, op.now,
                           AuditEvent("passkey.registered", user, user));
      }
    case _ =>
  }

  /** A consumed capability backs no further registration, in any run from any state. */
  lemma {:induction false} DeadCapabilityRegistersNothing(s: System, steps: seq<Step>, n: nat, hash: SecretHash)
    requires CapabilityDead(s.db, hash) && NoneSince(s.history.registrations, n, hash)
    ensures NoneSince(Execute(s, steps).history.registrations, n, hash)
    decreases |steps|
  {
    if steps != [] {
      var next := Apply(s, steps[0]);
      ApplyIsLater(s, steps[0]);
      match steps[0] {
        case Reads(read) => ReadsChangeNoTable(s, read);
        case Writes(write) => WriteRegistersNothingDead(s, write, n, hash);
        case Transacts(atomic) =>
      }
      DeadCapabilityRegistersNothing(next, steps[1..], n, hash);
    }
  }

  /** What the registrations from the n-th on were started from. */
  ghost predicate NoCeremonySince(s: System, n: nat, hash: SecretHash) {
    n <= |s.history.registrations|
    && forall i | n <= i < |s.history.registrations| ::
         s.history.registrations[i].ceremonyId in s.db.ceremonies
         && s.db.ceremonies[s.history.registrations[i].ceremonyId].capabilityHash != Some(hash)
  }

  lemma TracedRegistrationsNameTheirCapability(s: System, n: nat, hash: SecretHash)
    requires RegistrationsOk(s.db, s.history.registrations) && NoneSince(s.history.registrations, n, hash)
    ensures NoCeremonySince(s, n, hash)
  {
    forall i | n <= i < |s.history.registrations|
      ensures RegistrationOk(s.db, s.history.registrations[i])
    {}
  }

  lemma StrikeKillsHeldCapability(s: System, strike: AtomicStep, hash: SecretHash)
    requires hash in s.db.capabilities && StrikesUser(s, strike, s.db.capabilities[hash].userId)
    ensures CapabilityDead(ApplyAtomic(s, strike).db, hash)
    ensures ApplyAtomic(s, strike).history.registrations == s.history.registrations
  {
    StrikeEffect(s, strike);
  }

  lemma HeldCapabilityExists(s: System, id: OpId)
    requires Inv(s) && id in s.ops && HeldCapability(s.ops[id]).Some?
    ensures HeldCapability(s.ops[id]).value in s.db.capabilities
  {
    assert OpOk(s.db, s.ops[id]);
    if s.ops[id].RegistrationHasCeremony? {
      assert CeremonyOk(s.db, s.db.ceremonies[s.ops[id].ceremonyId]);
    }
  }

  lemma RegistrationsStayOkThrough(s: System, between: seq<Step>, strike: AtomicStep, after: seq<Step>)
    requires Inv(s) && Provenance(s)
    ensures var last := Execute(ApplyAtomic(Execute(s, between), strike), after); RegistrationsOk(last.db, last.history.registrations)
  {
    ExecuteKeepsProvenance(s, between);
    var ready := Execute(s, between);
    assert ApplyAtomic(ready, strike) == Apply(ready, Transacts(strike));
    ApplyKeepsInv(ready, Transacts(strike));
    ApplyKeepsProvenance(ready, Transacts(strike));
    ExecuteKeepsProvenance(ApplyAtomic(ready, strike), after);
  }

  /** The strike reaches the user a capability was issued to. */
  predicate StrikesOwner(db: Db, hash: SecretHash, ready: System, strike: AtomicStep) {
    hash in db.capabilities ==> StrikesUser(ready, strike, db.capabilities[hash].userId)
  }

  /**
   A setup that read its capability before a strike on the capability's user makes no
   credential after it: no ceremony of that capability, inserted before the strike or
   after it, is ever completed from then on.
  */
  lemma StaleSetupFailsClosed(config: AuthConfig, read: System, ready: System, strike: AtomicStep, last: System, id: OpId)
    requires LeadsTo(Start(config), read) && LeadsTo(read, ready) && LeadsTo(ApplyAtomic(ready, strike), last)
    requires id in read.ops && HeldCapability(read.ops[id]).Some?
    requires StrikesOwner(read.db, HeldCapability(read.ops[id]).value, ready, strike)
    ensures NoCeremonySince(last, |ready.history.registrations|, HeldCapability(read.ops[id]).value)
  {
    ReachableIsTraced(config, read);
    var between :| Execute(read, between) == ready;
    var after :| Execute(ApplyAtomic(ready, strike), after) == last;
    var hash := HeldCapability(read.ops[id]).value;
    HeldCapabilityExists(read, id);
    ExecuteIsLater(read, between);
    StrikeKillsHeldCapability(ready, strike, hash);
    DeadCapabilityRegistersNothing(ApplyAtomic(ready, strike), after, |ready.history.registrations|, hash);
    RegistrationsStayOkThrough(read, between, strike, after);
    TracedRegistrationsNameTheirCapability(last, |ready.history.registrations|, hash);
  }

  // ---------- Setups without a capability ----------

  /** The rest of a bootstrap in flight: its ceremony is inserted, read back and completed. */
  function FinishBootstrap(s: System, id: OpId, ceremonyId: Uuid, state: Blob, now: Time, credential: VerifiedCredential,
                           rowId: Uuid): seq<Step>
    requires id in s.ops && s.ops[id].BootstrapHasUser?
  {
    var kind := if s.ops[id].window.Some? then CeremonyKind.OperatorRecovery else OperatorBootstrap;
    [Writes(BootstrapInserts(id, ceremonyId, state)),
     Reads(RegistrationReads(ceremonyId, kind, now)),
     Writes(RegistrationCompletes(s.nextOp, credential, rowId))]
  }

  /** The ceremony a bootstrap in flight inserts. */
  function BootstrapCeremony(s: System, op: Op, state: Blob): CeremonyRow
    requires op.BootstrapHasUser?
  {
    CeremonyRow(if op.window.Some? then CeremonyKind.OperatorRecovery else OperatorBootstrap, Some(op.userId), op.window, state,
                op.now + s.config.ceremonyTtl, None)
  }

  lemma BootstrapIsReadBack(s: System, id: OpId, ceremonyId: Uuid, state: Blob, now: Time)
    requires id in s.ops && s.ops[id].BootstrapHasUser? && IsOperator(s.db, s.ops[id].userId)
    requires now < s.ops[id].now + s.config.ceremonyTtl && ceremonyId !in s.db.ceremonies
    ensures var row := BootstrapCeremony(s, s.ops[id], state);
            var read := ApplyRead(BootstrapInsert(s, id, ceremonyId, state), RegistrationReads(ceremonyId, row.kind, now));
            s.nextOp in read.ops && read.ops[s.nextOp] == RegistrationHasCeremony(ceremonyId, row, now)
            && read.history == s.history && read.db == s.db.(ceremonies := s.db.ceremonies[ceremonyId := row])
  {}

  lemma BackedRegistrationCommitsExactlyWhen(db: Db, ceremonyId: Uuid, credential: VerifiedCredential, rowId: Uuid, now: Time)
    requires ceremonyId in db.ceremonies && CeremonyUsable(db, ceremonyId, db.ceremonies[ceremonyId].kind, now)
    requires db.ceremonies[ceremonyId].userId.Some? && db.ceremonies[ceremonyId].userId.value in db.users
    requires CredentialInsertable(db, credential.credentialId, rowId)
    ensures var row := db.ceremonies[ceremonyId];
            CompleteRegistration(db, ceremonyId, row.capabilityHash, credential, rowId, now,
                                 AuditEvent("passkey.registered", row.userId, row.userId)).Success?
            <==> (row.kind == OperatorBootstrap ==> !OperatorCredentialExists(db))
                 && (row.capabilityHash.Some? ==> HashConsumable(db, row.capabilityHash.value, now))
  {}

  /**
   What stops a bootstrap in flight is not the strike itself. From any state, it
   completes exactly when the capability it holds is still live (a strike ends that), or,
   if it holds none, when no operator has an unrevoked credential (a strike leaves that
   as it is, or makes it so).
  */
  lemma BootstrapCompletesExactlyWhen(s: System, id: OpId, ceremonyId: Uuid, state: Blob, now: Time, credential: VerifiedCredential,
                                      rowId: Uuid)
    requires Inv(s) && id in s.ops && s.ops[id].BootstrapHasUser? && now < s.ops[id].now + s.config.ceremonyTtl
    requires ceremonyId !in s.db.ceremonies && CredentialInsertable(s.db, credential.credentialId, rowId)
    ensures var registered := |Execute(s, FinishBootstrap(s, id, ceremonyId, state, now, credential, rowId)).history.registrations|;
            registered == |s.history.registrations| + 1
            <==> (if s.ops[id].window.Some? then HashConsumable(s.db, s.ops[id].window.value, now) else !OperatorCredentialExists(s.db))
  {
    var op, row := s.ops[id], BootstrapCeremony(s, s.ops[id], state);
    assert OpOk(s.db, op);
    var insertion, lookup := Writes(BootstrapInserts(id, ceremonyId, state)), Reads(RegistrationReads(ceremonyId, row.kind, now));
    ThreeSteps(s, insertion, lookup, Writes(RegistrationCompletes(s.nextOp, credential, rowId)));
    BootstrapIsReadBack(s, id, ceremonyId, state, now);
    var read := Apply(Apply(s, insertion), lookup);
    BackedRegistrationCommitsExactlyWhen(read.db, ceremonyId, credential, rowId, now);
  }

  /**
   A strike between the reads and the write of a bootstrap. The bootstrap is still in
   flight afterwards as it was, and it registers exactly when it holds no capability and
   the strike left no operator with an unrevoked credential.
  */
  lemma StruckBootstrapCompletesExactlyWhen(s: System, strike: AtomicStep, id: OpId, ceremonyId: Uuid, state: Blob, now: Time,
                                            credential: VerifiedCredential, rowId: Uuid)
    requires Inv(s) && id in s.ops && s.ops[id].BootstrapHasUser? && StrikesUser(s, strike, s.ops[id].userId)
    requires now < s.ops[id].now + s.config.ceremonyTtl && ceremonyId !in s.db.ceremonies
    requires CredentialInsertable(ApplyAtomic(s, strike).db, credential.credentialId, rowId)
    ensures var struck := ApplyAtomic(s, strike);
            id in struck.ops && struck.ops[id] == s.ops[id]
            && var registered := |Execute(struck, FinishBootstrap(struck, id, ceremonyId, state, now, credential, rowId)).history.registrations|;
               (registered == |s.history.registrations| + 1 <==> s.ops[id].window.None? && !OperatorCredentialExists(struck.db))
  {
    var struck := ApplyAtomic(s, strike);
    AtomicLeavesOps(s, strike);
    StrikeLeavesTheRest(s, strike);
    assert OpOk(s.db, s.ops[id]);
    if s.ops[id].window.Some? {
      StrikeKillsHeldCapability(s, strike, s.ops[id].window.value);
    }
    assert Inv(struck) by {
      ApplyKeepsInv(s, Transacts(strike));
      assert Apply(s, Transacts(strike)) == struck;
    }
    BootstrapCompletesExactlyWhen(struck, id, ceremonyId, state, now, credential, rowId);
  }

  lemma StrikeLeavesTheRest(s: System, strike: AtomicStep)
    requires Strikes(s, strike).Some?
    ensures var struck := ApplyAtomic(s, strike);
            struck.config == s.config && struck.history.registrations == s.history.registrations
            && struck.db.ceremonies.Keys == s.db.ceremonies.Keys
  {
    StrikeEffect(s, strike);
  }

  /**
   However the rest is interleaved: at its last step a bootstrap commits exactly when its
   ceremony is then still unconsumed, was unexpired by the clock it read, and no operator
   has an unrevoked credential.
  */
  lemma BootstrapCommitsExactlyWhen(s: System, id: OpId, credential: VerifiedCredential, rowId: Uuid)
    requires Inv(s) && id in s.ops && s.ops[id].RegistrationHasCeremony? && s.ops[id].ceremony.kind == OperatorBootstrap
    requires CredentialInsertable(s.db, credential.credentialId, rowId)
    ensures var op := s.ops[id];
            op.ceremonyId in s.db.ceremonies
            && (|RegistrationComplete(s, id, credential, rowId).history.registrations| == |s.history.registrations| + 1
                <==> s.db.ceremonies[op.ceremonyId].consumedAt.None? && op.now < op.ceremony.expiresAt && !OperatorCredentialExists(s.db))
  {
    var op := s.ops[id];
    assert OpOk(s.db, op) && CeremonyOk(s.db, s.db.ceremonies[op.ceremonyId]);
    if s.db.ceremonies[op.ceremonyId].consumedAt.None? && op.now < op.ceremony.expiresAt {
      BackedRegistrationCommitsExactlyWhen(s.db, op.ceremonyId, credential, rowId, op.now);
    }
  }
}
