/**
 The tables of the authentication store. A table is a map keyed by one of its
 unique columns: capabilities and sessions by token hash, credentials by credential
 id, the others by primary key. Timestamps are integers.
*/
module AuthTables {
  import opened Wrappers

  type UserId = string
  type Uuid = nat
  type SecretHash = nat
  type CredentialId = nat
  type Blob = nat
  type Time = int

  datatype Role = User | Operator

  datatype CeremonyKind = Registration | Authentication | OperatorBootstrap | OperatorRecovery

  datatype CapabilityPurpose = Setup | RecoverySetup | OperatorRecoveryWindow

  datatype AuthError =
    | InvalidInput
    | InvalidToken
    | InvalidState
    | Unauthenticated
    | Forbidden
    | Verification
    | Store
    | Conflict

  datatype UserRow = UserRow(
    handle: Uuid, email: string, displayName: string, role: Role, enabled: bool, authEpoch: int, createdAt: Time)

  datatype CredentialRow = CredentialRow(
    id: Uuid, userId: UserId, publicData: Blob, createdAt: Time, lastUsedAt: Option<Time>, revokedAt: Option<Time>)

  datatype CapabilityRow = CapabilityRow(
    id: Uuid, userId: UserId, purpose: CapabilityPurpose, expiresAt: Time, consumedAt: Option<Time>, createdAt: Time)

  datatype CeremonyRow = CeremonyRow(
    kind: CeremonyKind, userId: Option<UserId>, capabilityHash: Option<SecretHash>, state: Blob,
    expiresAt: Time, consumedAt: Option<Time>)

  datatype SessionRow = SessionRow(
    id: Uuid, userId: UserId, csrfHash: SecretHash, authEpoch: int, idleExpiresAt: Time, absoluteExpiresAt: Time,
    createdAt: Time, lastSeenAt: Time, revokedAt: Option<Time>)

  datatype RecoveryRow = RecoveryRow(
    userId: UserId, requestedAt: Time, approvedAt: Option<Time>, approvedBy: Option<UserId>,
    setupIssuedAt: Option<Time>, completedAt: Option<Time>)

  datatype AuditEvent = AuditEvent(eventType: string, actor: Option<UserId>, subject: Option<UserId>)

  datatype AuditRow = AuditRow(occurredAt: Time, event: AuditEvent)

  datatype Db = Db(
    users: map<UserId, UserRow>,
    credentials: map<CredentialId, CredentialRow>,
    capabilities: map<SecretHash, CapabilityRow>,
    ceremonies: map<Uuid, CeremonyRow>,
    sessions: map<SecretHash, SessionRow>,
    recoveries: map<Uuid, RecoveryRow>,
    audit: seq<AuditRow>)

  const EMPTY_DB := Db(map[], map[], map[], map[], map[], map[], [])

  /** `auth_epoch` is a 64-bit column: a statement that would pass this value fails. */
  const MAX_EPOCH := 0x7FFF_FFFF_FFFF_FFFF

  // ---------- Arguments of the store's operations ----------

  /** What a capability row gets besides its arguments: a random id, and the database's clock as creation time. */
  datatype RowStamp = RowStamp(id: Uuid, createdAt: Time)

  datatype Capability = Capability(
    stamp: RowStamp, userId: UserId, purpose: CapabilityPurpose, tokenHash: SecretHash, expiresAt: Time)
  {
    function Row(): CapabilityRow {
      CapabilityRow(stamp.id, userId, purpose, expiresAt, None, stamp.createdAt)
    }
  }

  datatype VerifiedCredential = VerifiedCredential(credentialId: CredentialId, publicData: Blob)

  datatype AuthenticationVerification = AuthenticationVerification(credentialId: CredentialId, updatedPublicData: Blob)

  datatype SessionRecord = SessionRecord(
    id: Uuid, userId: UserId, tokenHash: SecretHash, csrfHash: SecretHash, authEpoch: int,
    idleExpiresAt: Time, absoluteExpiresAt: Time)

  datatype SessionPrincipal = SessionPrincipal(
    sessionId: Uuid, userId: UserId, user: UserRow, csrfHash: SecretHash, absoluteExpiresAt: Time)

  datatype AuthConfig = AuthConfig(
    ceremonyTtl: int, capabilityTtl: int, sessionIdleTtl: int, sessionAbsoluteTtl: int)
}
