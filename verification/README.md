# Verification model of the console

A Dafny model of the three hard parts of the console, with proofs of what its code relies on:

- **The authentication authority** (`server/src/repository.rs`, `auth/src/lib.rs`, `server/migrations/0001_human_auth.sql`).
  `AuthTables` holds the tables, `AuthTransactions` says what every transaction does to them, and `AuthStore` is the store
  itself: a class whose methods open a transaction, run their statements in order with early aborts, and commit or drop it,
  each proved equal to its transaction. `AuthExact` says of every transaction, on the rows, which
  error it gives when and every row it commits. `AuthService` is the service class over that store. Service operations read, let the
  WebAuthn engine decide, and write, so they can interleave: `AuthRuns` is the transition system in which an operation in
  flight is a program counter plus the snapshot it read, and a run is any sequence of steps of any operations. Every
  operation of the service class is proved to do, when it runs alone, exactly what its own steps in `AuthRuns` do.
  `AuthSteps` says what each step reads and writes, on the rows, and when a write commits at its last step.
  The theorems over all interleavings are in `AuthMonotone` (what is never taken back), `AuthInvariant` (the tables and what
  is in flight agree), `AuthProvenance` (where credentials and sessions come from), `AuthFreshness` (capabilities and
  recoveries), `AuthRecovery` (what completes a recovery), `AuthOperators` (how many operators there can be), `AuthAudit` (what the audit log tells), `AuthSessions` (session lifetime) and `AuthStale` (stale logins and setups fail
  closed). `AuthWitnesses` holds concrete runs that show what the code does not prevent.
- **The canonical manifest encoding and its digest** (`policy/src/contract.rs`). `CanonicalJson` is the recursive writer with
  sorted keys, proved against an encoder, and a decoder that returns the value and the rest of the text; `CanonicalShape` says what the texts are, character by
  character; `Contract` is
  manifest construction, digests, deliveries and acknowledgements, and `ContractShape` says what they are field by field; `Timestamp` is the timestamp validator and its grammar.
- **The VPN policy and gateway reconciliation** (`policy/src/vpn.rs`, `api/src/lib.rs`). `VpnPolicy` is the allocator and
  versioned registry on values, with its theorems over runs; `VpnRegistry` is the mutable registry, proved against it;
  `GatewaySync` is the service and `GatewayExact` each of its answers; `GatewayProtocol` is the protocol with lost, repeated, delayed and reordered deliveries
  and arbitrary acknowledgements; `GatewaySplitAck` splits acknowledging into its read and its record.
  `Tokens` is the textual form of secret tokens and WireGuard keys.

The parts join up: the policy invariant makes every manifest constructible, manifests are encoded injectively, and so, without
a digest collision, an accepted acknowledgement names exactly the manifest that is desired.

`Ordering` and `Numerals` hold sorting and decimal notation, `Texts` trimming, `VpnPeers` the peer types, `Wrappers` the result
types. Verify the whole project with `dafny verify dfyconfig.toml`.

Conventions. Time is an integer. Row ids, random tokens, clock readings, the row a query without a total order picks and the
answers of the WebAuthn engine are arguments or labels of steps, so the theorems hold for all of them. SHA-256 is a function
parameter about which nothing is assumed; "no collision between these two texts" is a hypothesis where it is needed. A failed
transaction carries an error and no tables. Events that a theorem speaks of (registrations, logins, issued capabilities,
approvals, uses of a session) are recorded in the `History` of a run; no step reads them.

Where the code leaves a gap, one lemma shows the input and another the exact condition:

- An invalidation does not stop a bootstrap that holds no recovery window, since it holds no capability and no epoch:
  `AuthWitnesses.BootstrapSurvivesRotation`; `AuthStale.StruckBootstrapCompletesExactlyWhen`.
- Two seeds that interleave give two operators: `AuthWitnesses.SeedRaceGivesTwoOperators`; a run ends with two exactly when some
  seed inserted while there was one, `AuthOperators.TwoOperatorsExactlyWhenASeedIsLate`, which never happens when seeds check one
  at a time, `AuthOperators.SeedsThatTakeTurnsMakeOneOperator`.
- A registration completes every issued recovery of its user, so the capability issued for one may stay live:
  `AuthWitnesses.RecoveryNeedNotUseItsCapability`; `AuthRecovery.CompletedRequestKeepsItsCapability`.
- Publishing an unchanged policy with another timestamp makes an up-to-date gateway conflict, until a manifest of a newer
  generation, or the installed one, is published to it: `GatewayProtocol.RestampedRunConflicts`;
  `GatewayProtocol.OneRoundConverges` and `GatewayProtocol.ConflictLastsExactlyWhen`.
- Acknowledgements that read and record in two steps can put an older manifest back: `GatewaySplitAck.FallingRun`; a step lowers
  the recorded generation exactly when it records a stale read, `GatewaySplitAck.StepLowersExactlyWhenStale`, which never happens
  when the acknowledgements of a gateway take turns, `GatewaySplitAck.TurnsAreMonotone`.

A wrong CSRF token is refused only after the session's idle expiry has moved; the contract of
`AuthService.AuthService.AuthenticateSession` says so.

## Model

| member | source | states |
|---|---|---|
| CanonicalJson.WriteCanonicalJson | policy/src/contract.rs:405-440 | the writer appends, to whatever the buffer held, exactly the encoding of the value |
| CanonicalJson.WriteArray | policy/src/contract.rs:413-422 | the element loop, commas included, appends the encoding of the array |
| CanonicalJson.WriteObject | policy/src/contract.rs:423-437 | the member loop over the sorted keys appends the encoding of the object, whatever order the map gave its keys in |
| CanonicalJson.SortMemberKeys | policy/src/contract.rs:425-426 | sorting the collected keys gives the one ascending sequence of them |
| CanonicalJson.EncodingDecodes | policy/src/contract.rs:405-440 | for nested arrays, objects, escaped strings, booleans, null and integers, the decoder returns the value and exactly the text after it, unless that text would extend a number |
| CanonicalJson.EncodingIsUniquelyDecodable | policy/src/contract.rs:405-440 | two encodings followed by any such texts agree exactly when values and following texts agree |
| CanonicalJson.EncodingIsInjective | policy/src/contract.rs:405-440 | equal canonical texts exactly for equal values |
| CanonicalShape.CanonicalIsShortest | policy/src/contract.rs:405-440 | of all texts that read as the value and nothing more, the canonical one is a shortest |
| CanonicalShape.LiteralTexts | policy/src/contract.rs:407-408 | null, true and false are written so |
| CanonicalShape.NumberIsDecimal | policy/src/contract.rs:409 | an integer is its decimal digits without a leading zero, after a minus sign if negative |
| CanonicalShape.CharacterText | policy/src/contract.rs:410-412 | the exact text of every character: the seven short escapes, lower-case two-digit escapes for the other control characters, and itself otherwise |
| CanonicalShape.StringTexts | policy/src/contract.rs:410-412 | the text of a string is that of its characters in order between one pair of quotes |
| CanonicalShape.PlainStringIsItself | policy/src/contract.rs:410-412 | a string without quotes, backslashes and control characters is written as it is |
| CanonicalShape.ArrayTexts | policy/src/contract.rs:413-422 | brackets around the texts of the elements in order, with single commas between them and nothing else |
| CanonicalShape.ObjectTexts | policy/src/contract.rs:423-437 | braces around the members, key, colon and value, in ascending order of the keys with single commas between them |
| CanonicalShape.LessIsLexicographic | policy/src/contract.rs:426 | the order of keys: the smaller character at the first difference, or the shorter text |
| Contract.NewManifest | policy/src/contract.rs:81-116 | refuses a bad timestamp, then more than 253 peers, then a repeated id, key or address, and otherwise lists the peers sorted by id |
| Contract.FindRepeated | policy/src/contract.rs:97-107 | the scan with three sets reports a repetition exactly when ids, keys or addresses are not all distinct |
| Contract.BuiltIsOrderFree | policy/src/contract.rs:91-107 | every permutation of the input peers gives the same manifest or the same error |
| Contract.Digest | policy/src/contract.rs:128-134 | the digest is the hash of the canonical text that the writer produces |
| Contract.ManifestJsonIsInjective | policy/src/contract.rs:48-78 | the serialized value determines every field of the manifest, each peer's address, health policy and permissions included |
| Contract.CanonicalTextIsInjective | policy/src/contract.rs:128-134 | the hashed text determines every field of the manifest |
| ContractShape.ManifestText | policy/src/contract.rs:70-78 | the hashed text of every manifest: its five members by name, in this order, each with its own value |
| ContractShape.PeerText | policy/src/contract.rs:48-56 | the text of every peer in it, likewise, with its address and the names of health policies and permissions |
| ContractShape.ConstructionIsExact | policy/src/contract.rs:81-116 | each error under its condition on the input peers, and otherwise schema, interface, generation, timestamp and one exact entry for every peer, ids ascending |
| Contract.DigestIdentifiesManifest | policy/src/contract.rs:128-135 | without a collision between their texts, two manifests have one digest exactly when they are equal |
| Contract.SupportedIsDistinct | policy/src/contract.rs:239-252 | a supported report has at most one entry for each interface |
| Contract.WgUsersIsOrderFree | policy/src/contract.rs:234-252 | in a supported report the wg-users entry that is found is the only one, wherever it stands |
| ContractShape.SupportIsExact | policy/src/contract.rs:239-252 | supported exactly with schema one, at most two entries, no interface twice and only wg-users and wg-nodes |
| ContractShape.FirstEntryIsFound | policy/src/contract.rs:234-237 | the first wg-users entry of any report, and none exactly when there is none |
| ContractShape.DeliveryIsExact | policy/src/contract.rs:266-280 | every field of a delivery, its id from generation and the first twelve digits of the digest |
| ContractShape.MatchingIsEquality | policy/src/contract.rs:317-338 | an acknowledgement matches a delivery exactly when it equals, in every field, the one built from it |
| Contract.AcknowledgementBindsManifest | policy/src/contract.rs:266-338 | without a collision, the acknowledgement built from one delivery matches another exactly when gateway and manifest are the same |
| Timestamp.Decimal | policy/src/contract.rs:398-403 | the 32-bit fold is defined exactly on digits, equals their positional value and cannot overflow in nine digits |
| Timestamp.ValidatorIsGrammar | policy/src/contract.rs:346-396 | a text is valid exactly when it formats some real date-time: years 1 to 9999, Gregorian days, no leap second, optional non-empty fraction, Z |
| Timestamp.LeapRule | policy/src/contract.rs:387 | the 4/100/400 test picks exactly the years that add a leap day to the Gregorian count |
| Timestamp.FormatIsInjective | policy/src/contract.rs:346-396 | an accepted text spells one date-time |
| Timestamp.ReadsBack | policy/src/contract.rs:346-396 | every real date-time, formatted, is valid and its fields read back |
| Tokens.ParseInvertsExpose | auth/src/lib.rs:26-37 | a text parses to a token exactly when it is that token's exposed text, which has 43 characters |
| Tokens.AcceptedKeysAreEncodings | policy/src/vpn.rs:72-82 | the accepted key texts are exactly the padded encodings of 32-byte keys |
| Tokens.KeyTextIdentifiesKey | policy/src/vpn.rs:67-82 | comparing accepted key texts, as the duplicate checks do, compares the keys |
| Tokens.AlphabetIsExact | auth/src/lib.rs:26-37 | the 64 digits of both variants in the order of their values |
| Tokens.GroupsAreBigEndian | auth/src/lib.rs:34-37 | a group of bytes is written with the digits of its number in base 64, first byte first |
| VpnRegistry.Registry.Enroll | policy/src/vpn.rs:279-306 | the mutable registry does what enrollment on values does, result, error order and new state, and keeps the invariant |
| VpnRegistry.Registry.AllocateAddress | policy/src/vpn.rs:358-369 | returns the lowest host in 2 to 254 that no peer holds, and fails exactly with 253 peers |
| VpnRegistry.Registry.SetGames | policy/src/vpn.rs:308-319 | the registry changes as the value operation does; a flag that is already set changes nothing |
| VpnRegistry.Registry.RotateKey | policy/src/vpn.rs:321-343 | the duplicate check comes before the lookup; the same key changes nothing; otherwise only the key and the generation change |
| VpnRegistry.Registry.Revoke | policy/src/vpn.rs:345-352 | removes exactly that peer and returns it |
| VpnRegistry.Registry.Manifest | policy/src/vpn.rs:354-356 | builds the manifest of the present state and can only object to the timestamp |
| VpnPolicy.EnrollmentIsExact | policy/src/vpn.rs:279-306 | with a fresh id and key, enrollment fails exactly when the pool is full and otherwise takes the lowest free host |
| VpnPolicy.EnrollmentOnPeers | policy/src/vpn.rs:279-306 | all cases of enrollment on the peers: both errors with nothing changed, or the stored peer with the lowest host nobody has |
| VpnPolicy.ChangesOnPeers | policy/src/vpn.rs:308-352 | all cases of changing games, rotating a key and revoking: which error when, what is returned, and the whole new state |
| VpnPolicy.EveryPeerOnce | policy/src/vpn.rs:354-356 | a manifest is built from every peer once, ids ascending |
| VpnPolicy.PoolIsFullExactlyWhenAllHostsAreTaken | policy/src/vpn.rs:358-369 | pigeonhole: all hosts from 2 to 254 are taken exactly when 253 peers exist, and there are never more |
| VpnPolicy.PoolIsFullExactlyWhenNoHostIsFree | policy/src/vpn.rs:358-369 | the search for a host fails exactly when 253 peers exist |
| VpnPolicy.RevokedHostIsReusable | policy/src/vpn.rs:345-369 | after a revocation the next fresh enrollment succeeds with that host or a lower one |
| VpnPolicy.RunsAreWellFormed | policy/src/vpn.rs:254-352 | in every run ids match their entries, and keys and hosts are pairwise distinct |
| VpnPolicy.GenerationCountsChanges | policy/src/vpn.rs:303-351 | an operation changes nothing at all, or changes the peers and advances the generation by one |
| VpnPolicy.GenerationNeverFalls | policy/src/vpn.rs:303-351 | along a run the generation never falls, and where it is equal the whole state is equal |
| VpnPolicy.GenerationIdentifiesContent | policy/src/vpn.rs:354-356 | two manifests of one run with equal generation and timestamp are equal, digests included |
| VpnPolicy.ManifestIsDeliverable | policy/src/vpn.rs:354-356 | a manifest of a well-formed policy exists exactly when the timestamp is valid; the other errors never occur |
| VpnPolicy.PeersAreTracked | policy/src/vpn.rs:279-352 | over any run a peer is what the successful operations on its own id made it, whatever happened to others |
| VpnPolicy.IdentityIsStable | policy/src/vpn.rs:245-352 | until its revocation a peer keeps user, id and address; permissions start with egress and include games exactly when set |
| GatewaySync.GatewaySyncService.SetDesired | api/src/lib.rs:111-121 | replaces the desired manifest of one gateway |
| GatewaySync.GatewaySyncService.Poll | api/src/lib.rs:60-84 | the answer for every report, errors included, as one function of the desired table; changes nothing |
| GatewaySync.GatewaySyncService.Acknowledge | api/src/lib.rs:86-101 | records the desired manifest when the acknowledgement matches its delivery, and otherwise changes nothing |
| GatewayExact.PollRefusesExactlyWhen | api/src/lib.rs:60-68 | the report is refused exactly when malformed, and the gateway unknown exactly when nothing is desired of it |
| GatewayExact.PollAnswersExactlyWhen | api/src/lib.rs:70-84 | for every other report and table: ahead, in conflict, up to date, or sent the desired delivery, each exactly under its condition on what the report says |
| GatewayExact.AcknowledgeAnswersExactlyWhen | api/src/lib.rs:86-101 | for every acknowledgement and table, each answer exactly under its condition, and what is recorded |
| GatewayProtocol.ReachableNetworksKeepInv | api/src/lib.rs:60-158 | in every run, deliveries, installed and recorded states all trace back to manifests published to that gateway |
| GatewayProtocol.AcknowledgementIsExact | api/src/lib.rs:86-101 | in every run, an acknowledgement of an issued delivery is accepted, and recorded, exactly when that delivery carried the manifest desired now; any other changes nothing |
| GatewayProtocol.AcknowledgementBindsTheDesiredManifest | policy/src/contract.rs:128-135 | the same with the hash of the canonical text as digest, unless exactly those two texts collide |
| GatewayProtocol.AcceptedAcknowledgementIsTheDesiredOne | api/src/lib.rs:86-94 | any acknowledgement, forged ones included, is accepted exactly when it is in every field the one of the desired delivery |
| GatewayProtocol.AppliedGenerationIsMonotone | api/src/lib.rs:86-101 | from any point of a run on, whatever acknowledgements arrive, the recorded generation never falls and never passes the desired one |
| GatewayProtocol.HonestGatewayIsNeverAhead | api/src/lib.rs:76-83 | a gateway that installed only issued deliveries never gets the gateway-ahead error, however old its report |
| GatewayProtocol.OneRoundConverges | api/src/lib.rs:60-84 | in every run, one poll-apply round converges a gateway exactly when it does not hold another manifest of the desired generation, and then its poll is refused as a conflict |
| GatewayProtocol.StampedOnceConverges | api/src/lib.rs:60-84 | with each generation stamped once, every round converges |
| GatewayProtocol.RestampingConflicts | api/src/lib.rs:76-83 | publishing an unchanged policy again makes a converged gateway conflict exactly when the new timestamp changes the digest |
| GatewayProtocol.RestampedRunConflicts | api/src/lib.rs:76-83 | a run from the start that ends in such a conflict, for any two valid timestamps whose manifests have different digests |
| GatewayProtocol.PollAfterConvergence | api/src/lib.rs:60-84 | after any run without a publication to it, a gateway that had converged is answered by the delivery it installed last: none or the desired one gives nothing, an older one the desired delivery, another of that generation a conflict |
| GatewayProtocol.ConvergenceIsStable | api/src/lib.rs:60-84 | with each generation stamped once, and without a publication to it, such a gateway is sent nothing exactly while what it installed last, if anything, has the desired generation |
| GatewayProtocol.ConflictLastsExactlyWhen | api/src/lib.rs:76-83 | a conflict lasts over the next publication exactly when that is of the installed generation with another digest |
| GatewaySplitAck.HalvesAreTheOperation | api/src/lib.rs:86-101 | in every run, reading and recording with nothing in between is the whole acknowledgement |
| GatewaySplitAck.RecordedNeverPassesDesired | api/src/lib.rs:86-101 | with any number of acknowledgements between their halves, in any order, the recorded generation never passes the desired one |
| GatewaySplitAck.StepLowersExactlyWhenStale | api/src/lib.rs:86-101 | in every such run, a step lowers the recorded generation exactly when it records a held manifest older than the recorded one |
| GatewaySplitAck.MonotoneExactlyWithoutStaleRecords | api/src/lib.rs:86-101 | a run is monotone exactly when it has no such record |
| GatewaySplitAck.TurnsAreMonotone | api/src/lib.rs:86-101 | if no acknowledgement of a gateway starts while another is between its halves, no step lowers what is recorded for it |
| GatewaySplitAck.FallingRun | api/src/lib.rs:86-101 | a run from the start whose last record lowers the recorded generation from 2 to 1 |
| AuthStore.Transaction.Invalidate | server/src/repository.rs:1089-1132 | advances epochs, revokes sessions and consumes ceremonies and capabilities of exactly the rows in scope, or fails with nothing committed |
| AuthStore.Transaction.ConsumeCeremony | server/src/repository.rs:604-615 | consumes a live ceremony once and returns the row; anything else changes nothing |
| AuthStore.Transaction.ConsumeCapability | server/src/repository.rs:632-645 | consumes a live capability once; anything else affects no row |
| AuthStore.PgAuthStore.OperatorWithoutCredential | server/src/repository.rs:295-317 | returns the oldest enabled operator while no operator has an unrevoked credential, and none exactly when there is none to return |
| AuthStore.PgAuthStore.OperatorRecoveryWindow | server/src/repository.rs:328-372 | returns the newest live operator-recovery capability with its user, and none exactly when there is none |
| AuthStore.PgAuthStore.FindCapability | server/src/repository.rs:374-394 | finds a capability exactly when purpose, consumption and expiry allow its use |
| AuthStore.PgAuthStore.FindCeremony | server/src/repository.rs:570-589 | finds a ceremony exactly when kind, consumption and expiry allow its use |
| AuthStore.PgAuthStore.InsertUser | server/src/repository.rs:413-444 | the statements commit exactly the specified tables or report the error of the first failing one |
| AuthStore.PgAuthStore.ApproveUserWithSetup | server/src/repository.rs:446-501 | user, capability and audit row are committed together or not at all, with the specified error |
| AuthStore.PgAuthStore.RotateAllAuthEpochs | server/src/repository.rs:503-546 | every user, session, ceremony and capability is invalidated in one transaction; returns the number of users |
| AuthStore.PgAuthStore.InsertCeremony | server/src/repository.rs:548-568 | inserts a fresh ceremony whose user exists, and otherwise fails unchanged |
| AuthStore.PgAuthStore.CompleteRegistration | server/src/repository.rs:591-682 | ceremony, bootstrap check, capability, credential, recovery completion and audit are all committed or none, with the error of the first that fails |
| AuthStore.PgAuthStore.CompleteAuthentication | server/src/repository.rs:684-742 | ceremony, credential and session are all committed or none, with the error of the first that fails |
| AuthStore.PgAuthStore.Session | server/src/repository.rs:744-813 | accepts on the five conditions of the query and slides the idle expiry, bounded by the absolute one |
| AuthStore.PgAuthStore.RotateSessionCsrf | server/src/repository.rs:815-885 | the same acceptance, and the CSRF hash is replaced with it |
| AuthStore.PgAuthStore.DeleteSession | server/src/repository.rs:887-897 | revokes an unrevoked session once |
| AuthStore.PgAuthStore.CreateRecovery | server/src/repository.rs:899-930 | refuses a second pending request of a user and an unknown user, with different errors |
| AuthStore.PgAuthStore.ApproveRecovery | server/src/repository.rs:947-980 | approves a pending request once and invalidates its user in the same transaction |
| AuthStore.PgAuthStore.IssueRecoverySetup | server/src/repository.rs:982-1030 | marks an approved request of the capability's user issued, once, and inserts the capability with it |
| AuthStore.PgAuthStore.BreakGlass | server/src/repository.rs:1032-1086 | revokes one unrevoked operator credential, invalidates its user and opens the window together; errors leave the credential as it was |
| AuthExact.CapabilityUsableOnRows | server/src/repository.rs:374-394 | a capability is found exactly when its row has the purpose, is unconsumed and unexpired |
| AuthExact.CeremonyUsableOnRows | server/src/repository.rs:570-589 | a ceremony is found exactly when its row has the kind, is unconsumed and unexpired |
| AuthExact.OperatorWithoutCredentialOnRows | server/src/repository.rs:295-317 | the rows the bootstrap query may return: enabled operators, while no unrevoked credential belongs to an operator |
| AuthExact.RecoveryWindowOnRows | server/src/repository.rs:328-372 | the rows the window query may return: live operator-recovery capabilities of enabled operators |
| AuthExact.InsertUserOnRows | server/src/repository.rs:413-444 | from any tables, each error under its condition on the rows, and otherwise every row afterwards, the audit row included |
| AuthExact.ApproveUserOnRows | server/src/repository.rs:446-501 | the same for approving a user with a setup capability |
| AuthExact.RotationOnRows | server/src/repository.rs:503-546 | the same for the global rotation |
| AuthExact.InsertCeremonyOnRows | server/src/repository.rs:548-568 | the same for a ceremony, which writes no audit row |
| AuthExact.RegistrationOnRows | server/src/repository.rs:591-682 | the same for completing a registration: ceremony, operator check, capability, credential and user decide in this order |
| AuthExact.LoginOnRows | server/src/repository.rs:684-742 | the same for completing a login: ceremony, credential and session decide in this order |
| AuthExact.SessionOnRows | server/src/repository.rs:744-813 | a session is accepted on five conditions on the rows; the row afterwards and the principal |
| AuthExact.CsrfOnRows | server/src/repository.rs:815-885 | the same with the new CSRF hash |
| AuthExact.LogoutOnRows | server/src/repository.rs:887-897 | exactly the unrevoked session of the token is revoked |
| AuthExact.RequestOnRows | server/src/repository.rs:899-930 | a recovery request: each error under its condition on the rows, and otherwise the new row |
| AuthExact.ApprovalOnRows | server/src/repository.rs:947-980 | the same for an approval, with what its user loses and the audit row |
| AuthExact.IssueOnRows | server/src/repository.rs:982-1030 | the same for issuing a recovery setup |
| AuthExact.BreakGlassErrorsOnRows | server/src/repository.rs:1032-1086 | conflict without an unrevoked operator credential of this row id, forbidden for another user, store errors, and otherwise the audit row |
| AuthExact.BreakGlassOnRows | server/src/repository.rs:1032-1086 | every row after break glass |
| AuthService.AuthService.StartSetupRegistration | auth/src/lib.rs:395-426 | succeeds exactly with a usable capability of an enabled user, an engine that starts and a fresh id; then does what its three steps do |
| AuthService.AuthService.StartOperatorBootstrap | auth/src/lib.rs:428-458 | picks the newest recovery window, or without one the oldest operator while none has an unrevoked credential; does what the steps do for that pick; fails only if there is no pick, the engine refuses it or the id is taken |
| AuthService.AuthService.FinishRegistration | auth/src/lib.rs:460-488 | succeeds exactly when ceremony, engine and completing transaction accept; then does what its two steps do |
| AuthService.AuthService.StartAuthentication | auth/src/lib.rs:490-507 | stores one usable authentication ceremony and returns its id and the engine's challenge, or fails unchanged |
| AuthService.AuthService.FinishAuthentication | auth/src/lib.rs:509-564 | logs in the user whose handle is in the response, in their present epoch, and the new session is accepted at once until its first expiry |
| AuthService.AuthService.AuthenticateSession | auth/src/lib.rs:566-583 | succeeds exactly for an accepted session with the right CSRF token, if one is given, and returns that session's principal; the use is recorded even when the CSRF token is wrong |
| AuthService.AuthService.IssueSessionCsrf | auth/src/lib.rs:585-602 | succeeds exactly for an accepted session and returns its principal with the new CSRF hash, which is also the stored one |
| AuthService.AuthService.Logout | auth/src/lib.rs:604-606 | the session is not accepted at any time afterwards |
| AuthService.AuthService.IssueRecoverySetup | auth/src/lib.rs:631-654 | on success the returned token is a usable recovery-setup capability; failure changes nothing |
| AuthService.AuthService.ApproveUserAndIssueSetup | auth/src/lib.rs:656-697 | trims, rejects malformed input, and otherwise succeeds exactly when the transaction commits; the returned token is a usable setup capability |
| AuthService.ApprovalAlone | auth/src/lib.rs:668-695 | that transaction is what the operation's two steps do when nothing interleaves |
| AuthService.AuthService.SeedOperator | auth/src/lib.rs:699-737 | run alone, trims and seeds an operator exactly when the input is well formed, none exists and the user is new |
| AuthService.AuthService.RotateAllAuthEpochs | auth/src/lib.rs:739-748 | needs a trimmed reason of 12 bytes; afterwards no session whatever is accepted at any time |
| Texts.TrimIsExact | auth/src/lib.rs:664-665 | trimming takes off the whitespace at both ends and nothing more |
| Texts.WhitespaceIsExact | auth/src/lib.rs:664-665 | the code points that are trimmed |
| AuthMonotone.ExecuteIsLater | server/migrations/0001_human_auth.sql:84-93 | from any state, no run removes a row, changes an identity, lowers an epoch, undoes a consumption, revocation or recovery stage, or alters a written audit row |
| AuthInvariant.ExecuteKeepsInv | server/migrations/0001_human_auth.sql:1-73 | every run keeps references and unique columns, the agreement of ceremonies with their capabilities, session epochs at most their user's, recovery stages in order, one pending request a user, and snapshots in flight that agree with the tables |
| AuthAudit.LogTellsRegistrationsAndLogins | server/src/repository.rs:680-741 | in every run the registration and login rows of the audit log are the committed registrations and logins, in order, with time, actor and subject |
| AuthSteps.ReadsFindWhatTheyHold | auth/src/lib.rs:401-531 | whatever a read puts in flight or moves on agrees with the rows at that moment and with what the operation held |
| AuthSteps.BootstrapIsForAnEnabledOperator | auth/src/lib.rs:432-446 | when a bootstrap is put in flight its user is an enabled operator, with a live window of theirs or no unrevoked operator credential |
| AuthSteps.FirstReadsStartExactlyWhen | auth/src/lib.rs:401-501 | setup, registration and login start exactly when their first row is there, unconsumed and unexpired |
| AuthSteps.SecondReadsGoOnExactlyWhen | auth/src/lib.rs:407-526 | setup and login go on exactly with an enabled user, a seed exactly without an operator |
| AuthSteps.BootstrapReadsGoOnExactlyWhen | auth/src/lib.rs:432-446 | a bootstrap goes on exactly with a live window, or without one with an enabled operator and no unrevoked operator credential |
| AuthSteps.InsertedCeremonies | auth/src/lib.rs:415-504 | the kind, user, capability, state and expiry of every ceremony a step stores |
| AuthSteps.RegistrationCommitsExactlyWhen | auth/src/lib.rs:467-487 | from any state of any run, when a registration commits at its last step, and every row it writes |
| AuthSteps.LoginCommitsExactlyWhen | auth/src/lib.rs:515-555 | from any state of any run, when a login commits at its last step, and the session it stores |
| AuthSteps.ApprovalCommitsExactlyWhen | auth/src/lib.rs:668-695 | when an approval commits at its last step, and the user and capability it stores |
| AuthSteps.SeedCommitsExactlyWhen | auth/src/lib.rs:714-736 | when a seed past its check commits, and the user and audit row it stores |
| AuthSteps.IssuedSetupOnRows | auth/src/lib.rs:638-652 | the capability row of an issued recovery setup, with purpose and expiry |
| AuthProvenance.EverythingIsUsedOnce | server/src/repository.rs:604-742 | registrations and logins map one to one to used-up ceremonies, capability-backed ones to used-up unexpired capabilities of their own user, every credential and session has its event, and no ceremony served both |
| AuthProvenance.AcceptedSessionsRestOnLiveCredentials | server/src/repository.rs:707-721 | over all interleavings, an accepted session was made by a credential of the same user that is still unrevoked |
| AuthProvenance.BreakGlassKeepsSessionsLive | server/src/repository.rs:1040-1057 | revoking a credential leaves no unrevoked session that it made |
| AuthProvenance.AtMostOneBootstrapCredential | server/src/repository.rs:617-630 | over all interleavings of bootstraps, break glass and recovery, at most one unrevoked credential is of bootstrap origin |
| AuthProvenance.BootstrapLeavesOneOperatorCredential | server/src/repository.rs:617-630 | a bootstrap commits only while no operator has an unrevoked credential, and its own is then the only one |
| AuthFreshness.CapabilitiesAreFresh | server/src/repository.rs:1113-1130 | in every run an unconsumed capability was issued in the epoch its user is still in |
| AuthFreshness.NewApprovalIsOk | server/src/repository.rs:947-967 | an approval advances its user's epoch by exactly one, to an epoch no earlier approval of that user has |
| AuthFreshness.RecoveryLifecycle | server/src/repository.rs:899-1030 | stages come in order and are entered once, a user has one pending request, and recovery-setup capabilities correspond one to one to issued requests of the same user, no earlier than the approval |
| AuthRecovery.CompletionsAreRegistrations | server/src/repository.rs:669-679 | in every run a request was completed by a registration of its own user at that time |
| AuthRecovery.RegistrationCompletesEveryIssuedRequest | server/src/repository.rs:669-679 | a registration completes exactly the issued requests of its user, whatever capability it used, if any |
| AuthWitnesses.RecoveryNeedNotUseItsCapability | server/src/repository.rs:669-679 | a run in which a request is completed and the recovery capability issued for it stays unused and live |
| AuthRecovery.RegistrationConsumesOnlyItsCapability | server/src/repository.rs:632-645 | a stored capability is live after a registration exactly when it was live before and is not that of the ceremony |
| AuthRecovery.CompletedRequestKeepsItsCapability | server/src/repository.rs:632-679 | in every run, a registration that completes a request leaves the one capability issued for it live exactly when it was live and the registration used another, or none |
| AuthSessions.SessionLifetime | server/src/repository.rs:771-795 | over every run a session is accepted exactly while unrevoked, of an enabled user in the current epoch, before last accepted use plus idle time and before creation plus absolute time |
| AuthSessions.AbsoluteExpiryNeverMoves | server/src/repository.rs:795-804 | no step, from any state, changes creation or absolute expiry of a session |
| AuthSessions.NoRefreshPassesAbsoluteExpiry | server/src/repository.rs:842-868 | once bounded by the absolute expiry, as the first use makes it, the idle expiry stays so in every run |
| AuthStale.StrikeIsExact | server/src/repository.rs:1089-1132 | approval, break glass and rotation make exactly the covered users' stored sessions, capabilities and ceremonies unusable and leave all others as usable as they were |
| AuthStale.RotationFailsOnlyAtTheLastEpoch | server/src/repository.rs:503-517 | a rotation commits for every user unless some epoch is already the largest 64-bit value |
| AuthStale.RotationSealsRestoredTables | server/src/repository.rs:503-546 | from any tables whatever, after a committed rotation no stored session, capability or ceremony is usable, at any time, in any later run |
| AuthStale.StaleLoginFailsClosed | auth/src/lib.rs:515-555 | a login that read its user before an invalidation of that user gives no session that any later state accepts, whether inserted before or after it |
| AuthStale.StaleSetupFailsClosed | auth/src/lib.rs:401-487 | a setup or recovery that read its capability before its user's invalidation makes no credential afterwards, even from a ceremony inserted after it |
| AuthStale.DeadCapabilityRegistersNothing | server/src/repository.rs:632-645 | from any state, a consumed capability backs no further registration in any run |
| AuthStale.BootstrapCompletesExactlyWhen | auth/src/lib.rs:432-456 | from any state, a bootstrap in flight that finishes uninterrupted completes exactly when its recovery capability is still live or, holding none, no operator has an unrevoked credential |
| AuthStale.StruckBootstrapCompletesExactlyWhen | auth/src/lib.rs:432-456 | with an invalidation of its user between its reads and its write, a bootstrap is still in flight and completes exactly when it holds no capability and no operator has an unrevoked credential afterwards |
| AuthStale.BootstrapCommitsExactlyWhen | server/src/repository.rs:604-630 | under every interleaving, a bootstrap commits exactly when its ceremony is unconsumed and unexpired and no operator has an unrevoked credential at that moment |
| AuthWitnesses.BootstrapSurvivesRotation | auth/src/lib.rs:432-456 | a run in which a global rotation lands while a bootstrap is in flight and the bootstrap still makes its credential |
| AuthWitnesses.SeedRaceGivesTwoOperators | auth/src/lib.rs:711-736 | a run of six steps in which two interleaved seeds give two operators |
| AuthOperators.OnlySeedsMakeOperators | auth/src/lib.rs:656-736 | no step but the insertion of a seed changes who is an operator |
| AuthOperators.SeedMakesTwoExactlyWhen | auth/src/lib.rs:711-736 | after the insertion of a seed past its check there are two operators exactly when there were two, or one and the insertion commits |
| AuthOperators.TwoOperatorsExactlyWhenASeedIsLate | auth/src/lib.rs:711-736 | a run ends with two operators exactly when some seed inserted while there was one |
| AuthOperators.SeedsThatTakeTurnsMakeOneOperator | auth/src/lib.rs:711-736 | if every check for operators happens while no other seed is past its own, there are never two operators, whatever else interleaves |

## Left out

- SQL, connection pools, migrations as execution and Postgres isolation: a transaction is one atomic step, completions being serialised by the advisory lock in the source.
- `server/src/http.rs`, `server/src/main.rs`, `server/src/webauthn.rs`: the WebAuthn engine is arbitrary functions in `AuthService` and arbitrary answers in `AuthRuns`. The steps allow any purpose and kind, a superset of what the routes pass.
- SHA-256, randomness and constant-time comparison: an uninterpreted hash, arguments, and equality. Timestamps and texts are characters, not UTF-8 bytes; every accepted timestamp is ASCII, so the two agree.
- VpnRegistry.Registry.Enroll: requires that the generation after it fits 64 bits, since the source panics there; likewise SetGames, RotateKey and Revoke. Calls that change nothing are covered at every generation.
- AuthStore.PgAuthStore.BreakGlass: requires distinct row ids of credentials, which is the primary key of that table, here not the key of the map; `AuthInvariant.ExecuteKeepsInv` keeps it.
- The order of rows in `AuthRuns`: a step may pick any matching operator or window, so its theorems hold for the oldest and the newest in particular.
- GatewayProtocol.AppliedGenerationIsMonotone: takes `acknowledge` as one step; `GatewaySplitAck` takes it as two.
- AuthService.AuthService.SeedOperator: is about a call that runs alone; `AuthOperators` is about any number that interleave.
- AuthStale.StaleSetupFailsClosed: covers setups that hold a capability; for a bootstrap without one, see `AuthStale.StruckBootstrapCompletesExactlyWhen`.
- `request_recovery`, `approve_recovery` and `pending_recoveries` of the service only pass on to the store; `insert_capability` is not called by the service.
- The `data` of audit rows and the update times of users.
- Floating-point JSON numbers: manifests hold only unsigned integers. No conformance with RFC 8785 is claimed.
- Identifier syntax, enum names and the other one-branch validators; lock poisoning in the in-memory gateway store.
- Strict base64 decoding is that of section 3.5 of RFC 4648, which the base64 crate's default engines follow; the crate is not part of this model.
