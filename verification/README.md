# Argmin: a verified model

Argmin is an S3-compatible object store. This project models the parts of it that decide things
from configuration, policy documents and clocks, and proves what those decisions guarantee for every
input. It is written in Dafny 4.11; `dafny verify dfyconfig.toml` checks all of it.

| files | what they model |
|---|---|
| `Text`, `Sequences`, `ListParser` | trimming, splitting, bounded decimals, sorting, and the shape shared by all comma-separated settings |
| `Credentials`, `SocketMaps`, `Settings` | the credential lists, socket maps, placement-group ids, client socket paths, the Raft peer policy |
| `ServerConfig`, `ConfigProperties` | the configuration resolver, the two narrow authentication readers, the standalone view, the internal RPC gate |
| `BucketPolicy`, `Decision`, `Wildcard` | parsing a bucket policy document, deciding a request, wildcard patterns |
| `PolicyRewrite`, `PolicyExpansion`, `PolicyMeaning`, `PolicyNormalForm`, `PolicyNormalize`, `PolicyLimits` | the three rewritings of a policy document and what they preserve |
| `Authorization`, `RecordStore` | inline, session and trust policies, assuming a role, the two-index role store |
| `LeaseExpiry`, `StartupRetry` | the lease-expiry loop of the replicated control plane, the startup retry loop, heartbeat intervals |
| `GaloisField`, `LinearAlgebra`, `MatrixInversion`, `ErasureCode`, `ShardRecovery`, `ErasureCodec` | the erasure code: arithmetic on bytes, inversion by elimination, encoding and reconstruction |
| `PercentEncoding`, `Partition` | percent-decoding, hexadecimal printing, the two input partitioners |

## The main results

- **Erasure code.** For every shape with at most 32 shards, any k shards give back all others: any k rows of
  the generated matrix are regular, elimination succeeds exactly on regular matrices, and reconstruction
  returns the shards of whatever data the present ones encode. The field laws, inverses included, are proved
  from the shift-and-reduce loop. (`Reconstruct`, `AnyRowsAreRegular`, `InvertMatrix`, `InverseWorks`)
- **Credential lists.** Printing credentials in any order and parsing them gives the sorted list if and only
  if the list is non-empty, its credentials are valid and their identities distinct. Rearranging the entries
  of a setting changes neither acceptance nor the result. (`RoundTrip`, `OrderIndependent`)
- **The resolver.** No environment makes any of the five internal expectations of the resolver fail.
  (`NeverPanics`)
- **Policy rewriting.** Wrapping singletons is invisible to the parser, normalisation is always accepted again,
  and expansion into single-valued statements decides every request alike, for all matchers and every
  document without nested arrays, whether or not a parser accepts it or its expansion. The expansion
  of an accepted policy is accepted if and only if every single action of a statement applies to every
  single resource. (`ForceArraysParses`, `NormalizedDecides`, `ExpandMeans`, `ExpandAccepted`)
- **Lease expiry.** In every run, once a predecessor's fence is reported, no later turn attempts an expiry
  before its horizon, even when the clock goes backwards; and a serving loop attempts as soon as all
  horizons have passed. (`NoEarlyAttempt`, `AttemptsExactlyWhenSafe`)

Three laws have limits, each stated exactly. Expanding a wrapped policy equals expanding the policy, and
expanding twice is expanding once, on every accepted policy. The first fails on some documents that the parser
refuses, such as one with the principal `{"AWS": "a", "Service": []}`, and the second on nested arrays
(`ExpandAfterForce`, `ExpandIdempotent`). A session policy restricts a role as if it restricted every
attachment except when the role has no attachments and the session policy denies (`SessionDistributes`).

## Modelling decisions

- The environment is a finite map from setting to text. Resolving a path against the file system is an
  arbitrary partial function. Error messages are reduced to an error datatype.
- A failed internal expectation is a separate outcome, so that its absence can be proved.
- Hash sets and maps are sets and maps; loops over them pick elements in any order.
- Unsigned decimals take one optional leading plus sign and are checked against the width of their type.
- A document that the parser refuses still has a meaning: it is read into statements without validation, keeping
  the strings found where strings are expected. On accepted documents this reading is the parser's result.
- A field element is a byte given by its eight bits. Multiplication tables are the products they tabulate. A matrix
  is an array of rows. Shards are sequences of elements.
- JSON objects are maps. Wildcard and account matching, condition operators, operand validation and the set of
  supported actions are arbitrary functions of the theorems about policies.
- The lease-expiry and retry loops run over a finite prefix of the environment's answers, which are arbitrary;
  process exit is a state. Whether the build admits unauthenticated RPC in tests is a parameter; otherwise the build is taken without debug assertions and without local debug endpoints.

## Model

| member | source | states |
|---|---|---|
| `Text.SplitJoin` | crates/argmin-s3/src/config.rs:1565 | splitting at commas undoes joining when no piece contains one |
| `Text.JoinSplit` | crates/argmin-s3/src/config.rs:1565 | joining undoes splitting for every text |
| `Text.PrintNatParses` | crates/argmin-s3/src/config.rs:1596-1600 | a printed number parses back exactly when it fits the type |
| `ListParser.CollectKeyed` | crates/argmin-s3/src/config.rs:1563-1623 | the reading loop with its set of seen keys returns the entries or the first error, as specified |
| `ListParser.CollectMarked` | crates/argmin-s3/src/config.rs:1423-1465 | the reading loop with a map by node and a set of paths builds the specified map or reports the specified error |
| `ListParser.ErrorIsFirst` | crates/argmin-s3/src/config.rs:1565-1621 | a reported error names the first entry that is bad after the ones before it |
| `ListParser.CollectSound` | crates/argmin-s3/src/config.rs:1565-1623 | accepted lists parse entry by entry and contain no conflict |
| `ListParser.CollectComplete` | crates/argmin-s3/src/config.rs:1565-1623 | lists whose entries parse without conflict are accepted, with exactly those entries |
| `ListParser.CollectPermuted` | crates/argmin-s3/src/config.rs:1565-1623 | rearranged entries are accepted too and give the same entries up to order |
| `Credentials.ParseEntry` | crates/argmin-s3/src/config.rs:1567-1616 | every accepted entry is a valid credential: known owner, token id, positive version, usable secret |
| `Credentials.ParseCredentials` | crates/argmin-s3/src/config.rs:1553-1632 | the parser returns the meaning of the setting, for each of the four owner kinds |
| `Credentials.AcceptedIsStrictlySorted` | crates/argmin-s3/src/config.rs:1706-1712 | accepted lists are strictly increasing in owner, id and version and are a rearrangement of the entries |
| `Credentials.OrderIndependent` | crates/argmin-s3/src/config.rs:1634-1713 | permuting the entries changes neither acceptance nor the list |
| `Credentials.SecretNeverHasComma` | crates/argmin-s3/src/config.rs:1687 | the comma test on secrets can never be true |
| `Credentials.EntryRoundTrip` | crates/argmin-s3/src/config.rs:1796-1862 | a printed valid credential reads back as itself |
| `Credentials.AcceptedIsPrintable` | crates/argmin-s3/src/config.rs:1715-1794 | everything accepted is a non-empty list of valid credentials with distinct identities |
| `Credentials.RoundTrip` | crates/argmin-s3/src/config.rs:1553-1632 | print then parse gives the sorted list if and only if the list is printable |
| `Credentials.ParsePrintParse` | crates/argmin-s3/src/config.rs:1553-1632 | for every accepted text, parse, print and parse again equals parse |
| `SocketMaps.ParseSockets` | crates/argmin-s3/src/config.rs:1405-1486 | the socket-map parser, completeness check included, returns the meaning of the setting whatever the map's iteration order |
| `SocketMaps.Drain` | crates/argmin-s3/src/config.rs:1477-1483 | draining the node map in any order gives its entries, one per node |
| `SocketMaps.CheckComplete` | crates/argmin-s3/src/config.rs:1467-1475 | the completeness loop reports the lowest missing node |
| `SocketMaps.DrainOrderIrrelevant` | crates/argmin-s3/src/config.rs:1477-1485 | sorting removes every trace of the iteration order |
| `SocketMaps.AcceptedMap` | crates/argmin-s3/src/config.rs:1488-1551 | accepted maps are strictly sorted by node, in range, with pairwise distinct resolved paths |
| `SocketMaps.CompleteMapCountsUp` | crates/argmin-s3/src/config.rs:1467-1485 | an accepted complete map has exactly one entry per node, entry i belonging to node i |
| `SocketMaps.MapOrderIndependent` | crates/argmin-s3/src/config.rs:1405-1486 | entry order changes neither acceptance nor the map |
| `Settings.RoleIsNamed` | crates/argmin-s3/src/config.rs:1315-1327 | a text names a role exactly when, trimmed, it is that role's own name |
| `Settings.ParseStoragePgIds` | crates/argmin-s3/src/config.rs:1373-1403 | the parser returns the meaning of the setting |
| `Settings.AcceptedPgIds` | crates/argmin-s3/src/config.rs:1373-1403 | accepted ids are distinct, below the group count and no more numerous than the groups |
| `Settings.ParseControlPlaneClientPaths` | crates/argmin-s3/src/config.rs:1329-1371 | the parser returns the meaning of the setting |
| `Settings.ParseClientPaths` | crates/argmin-s3/src/config.rs:1363-1369 | the primary socket is always among the accepted paths |
| `Settings.ValidatePeerPolicy` | crates/argmin-s3/src/config.rs:1891-1928 | the two set loops decide the peer policy, in any iteration order |
| `Settings.PeerPolicyIsSetEquality` | crates/argmin-s3/src/config.rs:1891-1928 | accepted if and only if the local node has a credential and the credential nodes are exactly the peers, or exactly the local node without peers |
| `ServerConfig.RejectDuplicateAccessKeys` | crates/argmin-s3/src/config.rs:2061-2076 | the set-based test is pairwise distinctness of all access keys |
| `ServerConfig.ReadSockets` | crates/argmin-s3/src/config.rs:851-855 | a map read under the completeness flag has a socket for every node |
| `ServerConfig.ReadAll` | crates/argmin-s3/src/config.rs:622-857 | reading establishes the facts the later expectations rely on |
| `ConfigProperties.ChecksNeverPanic` | crates/argmin-s3/src/config.rs:858-1052 | none of the cross-checks fails an expectation on settings as read |
| `ConfigProperties.NeverPanics` | crates/argmin-s3/src/config.rs:622-1263 | for every environment none of the five expectations of the resolver fires |
| `ConfigProperties.ChecksAcceptExactlySound` | crates/argmin-s3/src/config.rs:858-1172 | the chain of checks passes exactly the sound configurations |
| `ConfigProperties.AcceptedIsSound` | crates/argmin-s3/src/config.rs:622-1263 | an environment is accepted if and only if it can be read and the result is sound |
| `ConfigProperties.AcceptedRaftMembership` | crates/argmin-s3/src/config.rs:979-1033 | with several peers the local node is a peer and exactly the peers have credentials |
| `ConfigProperties.CombinedIsBothHalves` | crates/argmin-s3/src/config.rs:569-603 | a combined process is fully authenticated exactly when it would be both as a storage node and as a frontend |
| `ConfigProperties.InternalRpcGate` | crates/argmin-s3/src/config.rs:556-603 | without the test override, of everything the resolver accepts only all-in-one processes and control planes with an administrator credential pass |
| `ConfigProperties.ReadersAgree` | crates/argmin-s3/src/config.rs:275-363 | on every accepted environment the two narrow readers return the same cluster, instance and credentials, and fail exactly when there are credentials without a matching instance id |
| `ConfigProperties.AttachedReadersSucceed` | crates/argmin-s3/src/config.rs:1053-1102 | a frontend attached to a control plane, and any administrator instance, is read back exactly |
| `ConfigProperties.StandaloneIsolation` | crates/argmin-s3/src/config.rs:1274-1313 | environments agreeing on the allowed settings resolve identically |
| `ConfigProperties.ViewLookup` | crates/argmin-s3/src/config.rs:1274-1313 | which settings the standalone view passes on, hides and fixes |
| `ConfigProperties.StandaloneIsFixed` | crates/argmin-s3/src/config.rs:611-615 | every accepted standalone result has one node, groups 0 to 15, shape (1, 0) and no control plane or Raft settings |
| `ConfigProperties.MinimalEnvironmentStarts` | crates/argmin-s3/src/config.rs:611-663 | four identity settings suffice for a standalone server on any file system, so acceptance is not vacuous |
| `BucketPolicy.ParseEach` | crates/auth/src/bucket_policy.rs:1708-1727 | statements parse one by one and all must parse |
| `BucketPolicy.EvaluateConditions` | crates/auth/src/bucket_policy.rs:1355-1385 | in any clause order a mismatch wins, then unsupported, then unavailable input, then not evaluable |
| `BucketPolicy.Evaluate` | crates/auth/src/bucket_policy.rs:157-181 | the early-return loop is the deny-first union |
| `BucketPolicy.DecideExactly` | crates/auth/src/bucket_policy.rs:1253-1276 | exactly when a policy denies or allows; unsupported conditions deny in a denial and never grant |
| `Wildcard.NextRow` | crates/auth/src/policy.rs:173-194 | each row says which prefixes of the value the pattern prefix covers |
| `Wildcard.WildcardMatches` | crates/auth/src/policy.rs:167-197 | the table accepts exactly the values that split into one fitting piece per pattern character |
| `PolicyRewrite.ForceSingletonsToArrays` | fuzz/fuzz_targets/auth_bucket_policy.rs:209-239 | the in-place loop wraps every statement |
| `PolicyRewrite.BuildPrincipalVariants` | fuzz/fuzz_targets/auth_bucket_policy.rs:293-332 | the nested loops build the product over the principal kinds |
| `PolicyRewrite.BuildStatements` | fuzz/fuzz_targets/auth_bucket_policy.rs:257-283 | the nested loops build one statement per combination |
| `PolicyRewrite.ExpandStatementArrays` | fuzz/fuzz_targets/auth_bucket_policy.rs:241-255 | the statement loop concatenates the expansions |
| `PolicyExpansion.ForceArraysParses` | fuzz/fuzz_targets/auth_bucket_policy.rs:152-157 | every document, accepted or not, parses alike after wrapping |
| `PolicyExpansion.OverPrincipalsMembers` | fuzz/fuzz_targets/auth_bucket_policy.rs:266-277 | the expansion holds exactly the combinations of the variants |
| `PolicyExpansion.ProductMembers` | fuzz/fuzz_targets/auth_bucket_policy.rs:300-326 | the principal product holds exactly the choices of one entry per present kind |
| `PolicyExpansion.PrincipalVariantsParse` | crates/auth/src/bucket_policy.rs:1945-1994 | every variant of an accepted principal is accepted |
| `PolicyExpansion.FallbacksUnreachable` | fuzz/fuzz_targets/auth_bucket_policy.rs:278-332 | neither emptiness fallback is ever taken |
| `PolicyExpansion.ReplacedParses` | crates/auth/src/bucket_policy.rs:1729-1791 | what one combination of the expansion parses to |
| `PolicyExpansion.ExpandAccepted` | fuzz/fuzz_targets/auth_bucket_policy.rs:159-162 | the expansion of an accepted policy is accepted if and only if every action applies to every resource |
| `PolicyMeaning.ParsedIsRead` | crates/auth/src/bucket_policy.rs:1672-1791 | the parser returns exactly what the document reads as without validation; it only refuses more |
| `PolicyMeaning.PrincipalVariantsMatch` | fuzz/fuzz_targets/auth_bucket_policy.rs:293-332 | for every principal without nested arrays, empty arrays included, the variants together admit exactly its requesters |
| `PolicyMeaning.ExpandMeans` | fuzz/fuzz_targets/auth_bucket_policy.rs:241-332 | every document without nested arrays, accepted or not and with empty arrays anywhere, decides every request as its expansion does, for all matchers |
| `PolicyMeaning.ExpandMeansAccepted` | fuzz/fuzz_targets/auth_bucket_policy.rs:159-164 | the expansion of every accepted policy means what the policy decides, also when the parser refuses the expansion |
| `PolicyMeaning.ExpandDecides` | fuzz/fuzz_targets/auth_bucket_policy.rs:159-164 | when the parser accepts the expansion too, both parsed policies decide every request alike |
| `PolicyLimits.ExpansionCanBeRefused` | crates/auth/src/bucket_policy.rs:1793-1840 | an everyday accepted statement on a bucket and its objects whose expansion is refused |
| `PolicyLimits.NestedArraysChangeMeaning` | fuzz/fuzz_targets/auth_bucket_policy.rs:285-291 | a document with nested arrays whose expansion grants what the document does not |
| `PolicyNormalForm.ExpansionSize` | fuzz/fuzz_targets/auth_bucket_policy.rs:257-283 | one statement per combination of principal, action and resource |
| `PolicyNormalForm.ExpandAfterForce` | fuzz/fuzz_targets/auth_bucket_policy.rs:209-332 | expanding after wrapping equals expanding if and only if no principal mixes an empty array with a bare string |
| `PolicyNormalForm.ExpandAfterForceAccepted` | fuzz/fuzz_targets/auth_bucket_policy.rs:209-332 | on every accepted policy, expanding after wrapping equals expanding |
| `PolicyNormalForm.ExpandAfterForceCanDiffer` | fuzz/fuzz_targets/auth_bucket_policy.rs:306-309 | a document on which they differ, which every parser refuses |
| `PolicyNormalForm.ExpandIdempotent` | fuzz/fuzz_targets/auth_bucket_policy.rs:241-332 | expansion is idempotent on a document if and only if no choice it makes for an action, resource or principal is itself an array to expand |
| `PolicyNormalForm.ExpandIdempotentShallow` | fuzz/fuzz_targets/auth_bucket_policy.rs:241-332 | without nested arrays expanding twice is expanding once |
| `PolicyNormalForm.ExpandIdempotentAccepted` | fuzz/fuzz_targets/auth_bucket_policy.rs:241-332 | in particular on every accepted policy |
| `PolicyNormalize.StatementRoundTrip` | crates/auth/src/bucket_policy.rs:1387-1414 | a parsed statement is read back from its canonical form |
| `PolicyNormalize.NormalizedParses` | crates/auth/src/bucket_policy.rs:184-199 | the canonical document of an accepted policy is always accepted and reads as the canonical policy |
| `PolicyNormalize.NormalizedDecides` | fuzz/fuzz_targets/auth_bucket_policy.rs:147-150 | the canonical document decides alike and is its own canonical document |
| `Authorization.EvaluateInlinePolicies` | crates/auth/src/authorization.rs:110-127 | the early-return loop is the deny-first union of the attachments |
| `Authorization.AttachmentsAreASet` | crates/auth/src/authorization.rs:232-241 | order and repetition of attachments do not matter |
| `Authorization.IntersectIsMeet` | crates/auth/src/authorization.rs:140-152 | the intersection is the less permissive of the two decisions |
| `Authorization.SessionDistributes` | crates/auth/src/authorization.rs:247-259 | restricting the union equals the union of restrictions, except for no attachments under a denying session policy |
| `Authorization.SessionNeverWidens` | crates/auth/src/authorization.rs:243-259 | a session never permits more than the role, and allows only when both do |
| `Authorization.StatementMatch` | crates/auth/src/iam_policy.rs:503-518 | the fold gives the strongest way a trust statement admits the caller |
| `Authorization.EvaluateTrust` | crates/auth/src/iam_policy.rs:501-533 | the trust loop puts denials first, then direct grants, then delegated ones |
| `Authorization.AssumeRoleAllowed` | crates/auth/src/authorization.rs:154-174 | exactly when assuming a role is allowed or denied |
| `Authorization.CrossAccountNeedsBoth` | crates/auth/src/authorization.rs:261-282 | across accounts an allow needs both a trust grant and an explicit identity grant |
| `RecordStore.ReplayRefinesList` | crates/auth/src/authorization.rs:382-397 | over every history the two maps are mutually inverse and hold exactly the kept roles |
| `RecordStore.LookupAfterHistory` | crates/auth/src/authorization.rs:399-406 | lookup by ARN is a linear search of the accepted history and its second access never misses |
| `RecordStore.AuthorizationRecordStore.constructor` | crates/auth/src/authorization.rs:374-380 | a new store is empty |
| `RecordStore.AuthorizationRecordStore.AddRole` | crates/auth/src/authorization.rs:382-397 | inserts exactly when neither id nor ARN was accepted before; a refusal changes nothing |
| `RecordStore.AuthorizationRecordStore.RoleByArn` | crates/auth/src/authorization.rs:399-406 | returns what a linear search of the accepted history finds |
| `RecordStore.AuthorizationRecordStore.AddConfiguredPrincipal` | crates/auth/src/authorization.rs:408-418 | inserts a new key only and leaves the roles alone |
| `LeaseExpiry.HorizonIsExact` | crates/argmin-s3/src/main.rs:2373-2384 | the horizon is the fence plus a heartbeat interval plus an RPC timeout, or an overflow error |
| `LeaseExpiry.Iterate` | crates/argmin-s3/src/main.rs:2252-2348 | one turn of the loop body is one step of the state machine |
| `LeaseExpiry.RunExpiryLoop` | crates/argmin-s3/src/main.rs:2251-2349 | the loop follows the state machine turn by turn |
| `LeaseExpiry.BoundStaysMaximum` | crates/argmin-s3/src/main.rs:2322-2326 | the stored bound is the maximum of all horizons seen |
| `LeaseExpiry.BoundNeverDecreases` | crates/argmin-s3/src/main.rs:2322-2326 | the stored bound never decreases |
| `LeaseExpiry.NoEarlyAttempt` | crates/argmin-s3/src/main.rs:2273-2281 | after a fence no attempt is made at a sampled time before its horizon |
| `LeaseExpiry.AttemptsExactlyWhenSafe` | crates/argmin-s3/src/main.rs:2253-2284 | a running loop attempts if and only if it serves, could bootstrap and every horizon has passed |
| `LeaseExpiry.NoAttemptUnlessServing` | crates/argmin-s3/src/main.rs:2253-2265 | a shared authority that is not serving makes no attempt |
| `LeaseExpiry.BoundFitsClock` | crates/argmin-s3/src/main.rs:2315-2326 | the stored bound always fits the clock's width |
| `StartupRetry.Clamp` | crates/argmin-s3/src/main.rs:3680-3685 | the delay is the refresh interval brought into 50 ms to 1 s |
| `StartupRetry.RetryStartup` | crates/argmin-s3/src/main.rs:3547-3591 | without a control plane the local attempt decides at once; with one, the first decisive outcome is returned after one equal wait per earlier retryable one, whatever the clock reads, and exactly the first and every tenth wait are announced, with a saturating counter |
| `StartupRetry.RepeatsExtend` | crates/argmin-s3/src/main.rs:3567-3590 | more answers never change a decision already made |
| `StartupRetry.HeartbeatsFitLease` | crates/storage/src/storage_node_server/server.rs:579-609 | three intervals and the skew budget fit in every accepted lease, whatever node, attempt and jitter |
| `StartupRetry.StartupExpectationsHold` | crates/argmin-s3/src/main.rs:3687-3697 | for every accepted configuration the lease fits in 64 bits and has a renewal schedule, and a control plane has its two paths |
| `PercentEncoding.PercentDecode` | crates/auth/src/encoding.rs:17-36 | fast path and loop decode alike |
| `PercentEncoding.DecodeInvertsEncode` | crates/auth/src/encoding.rs:17-45 | decoding inverts every encoder that always escapes the percent sign |
| `PercentEncoding.EncodeInvertsDecode` | crates/auth/src/encoding.rs:17-45 | every text whose percent signs start escapes is such an encoding of what it decodes to |
| `PercentEncoding.HexEncodeLower` | crates/auth/src/encoding.rs:8-15 | the loop prints two digits per byte |
| `PercentEncoding.HexReadsBack` | crates/auth/src/encoding.rs:38-45 | each printed pair reads back as its byte, in lower case |
| `Partition.SplitInput` | fuzz/src/lib.rs:6-15 | exactly the asked number of slices, concatenating to the input, each as long as the ceiling unless nothing is left for later ones |
| `Partition.IndexFits` | fuzz/src/lib.rs:8-12 | the index arithmetic never overflows for a slice that fits in memory |
| `Partition.CutsPartition` | fuzz/src/lib.rs:21-49 | the pieces are non-empty, concatenate to the input and number at most one more than the controls |
| `Partition.ChunkByControls` | fuzz/src/lib.rs:21-49 | the loop cuts exactly the pieces the controls ask for; the empty input is one empty chunk; there is always a chunk, so the final fallback is unreachable |
| `GaloisField.MulSlow` | crates/ec/src/gf.rs:10-24 | the shift-and-reduce loop computes the field product |
| `GaloisField.MulCommutes` | crates/ec/src/gf.rs:10-24 | the product commutes |
| `GaloisField.MulAssociates` | crates/ec/src/gf.rs:10-24 | the product associates |
| `GaloisField.MulAddsRight` | crates/ec/src/gf.rs:10-24 | the product distributes over exclusive or |
| `GaloisField.EightSquares` | crates/ec/src/gf.rs:7-24 | every element is its own 256th power |
| `GaloisField.InverseWorks` | crates/ec/src/gf.rs:40-55 | every element but zero has an inverse, its 254th power |
| `GaloisField.FindInverse` | crates/ec/src/gf.rs:40-55 | the table search always succeeds and finds that inverse |
| `LinearAlgebra.CauchyKernel` | crates/ec/src/gf.rs:111-123 | every square part of a Cauchy matrix over distinct elements is regular |
| `ErasureCode.AnyRowsAreRegular` | crates/ec/src/gf.rs:111-123 | any k different rows of the generated matrix are regular, for every k and up to 256 rows |
| `MatrixInversion.AddTracks` | crates/ec/src/gf.rs:426-438 | a row operation keeps the output tied to the input and the kernel unchanged |
| `MatrixInversion.StuckIsSingular` | crates/ec/src/gf.rs:406-413 | a missing pivot means that the matrix is singular |
| `MatrixInversion.FindPivot` | crates/ec/src/gf.rs:406-413 | the first usable row from the pivot on |
| `MatrixInversion.ClearColumn` | crates/ec/src/gf.rs:426-438 | the elimination loop makes the next column one of the identity |
| `MatrixInversion.InvertMatrix` | crates/ec/src/gf.rs:399-442 | elimination succeeds exactly on regular matrices and leaves the inverse in the output |
| `ShardRecovery.WriteScaled` | crates/ec/src/gf.rs:173-179 | writes the multiple of a shard, with the shortcuts for zero and one |
| `ShardRecovery.XorScaled` | crates/ec/src/gf.rs:160-170 | adds the multiple of a shard, with the shortcuts for zero and one |
| `ShardRecovery.ApplyRow` | crates/ec/src/gf.rs:338-365 | skipping leading zeros and writing the first term gives the dot product at every position |
| `ShardRecovery.DataShardsAreData` | crates/ec/src/gf.rs:111-115 | the first k shards are the data |
| `ShardRecovery.RecoveryAssociates` | crates/ec/src/reconstruct.rs:33-44 | the recovery row applied to a vector is the encoding row applied to its image under the inverse |
| `ShardRecovery.RecoveryRowRecovers` | crates/ec/src/reconstruct.rs:33-46 | the recovery row applied to any k shards gives the missing shard |
| `ErasureCodec.NewCodec` | crates/ec/src/codec.rs:45-58 | exactly the shapes with a data shard and at most 32 shards are accepted, and the matrix is the encoding matrix |
| `ErasureCodec.EncodingMatrix` | crates/ec/src/gf.rs:111-123 | identity rows for the data, then the Cauchy rows |
| `ErasureCodec.Encode` | crates/ec/src/codec.rs:497-563 | every parity shard of the data, or the first failing check |
| `ErasureCodec.PresentAccepted` | crates/ec/src/codec.rs:732-742 | present indices pass exactly when strictly increasing and in range |
| `ErasureCodec.RecoverAccepted` | crates/ec/src/codec.rs:744-760 | indices to recover pass exactly when in range, distinct and not present |
| `ErasureCodec.ValidateIndices` | crates/ec/src/codec.rs:732-760 | the loops over index sets report the first failing check |
| `ErasureCodec.InvertPresent` | crates/ec/src/reconstruct.rs:18-30 | the matrix of the first k present shards is always inverted |
| `ErasureCodec.RecoverAll` | crates/ec/src/reconstruct.rs:9-48 | whatever data the present shards encode, the outputs are the asked shards of that data |
| `ErasureCodec.Reconstruct` | crates/ec/src/codec.rs:694-796 | fails only on a malformed request and never on a singular matrix; any k or more shards give back all others |
| `ErasureCodec.LostDataComesBack` | crates/ec/src/codec.rs:694-796 | a recovered data shard is the one that was encoded |

## Left out

- The control-plane state machine, Raft log, write-ahead log, checkpoints and metadata transfer: the authority is an arbitrary environment here.
- Condition operators, policy variables and ASCII case folding of actions: arbitrary matchers in the theorems.
- The text of JSON documents: policies are modelled as JSON values.
- The conversion of decoded bytes to text at the end of percent-decoding.
- Debug-build settings and the local debug endpoint of the resolver.
- Which entry of a set an error message names, and all message texts.
- Rejection of configured callers whose principal is not a user of their own account, before trust is evaluated.
- File system and process work, TLS material, admin commands, redaction of secrets.
- The vector instruction backends of the erasure code and its parity verification: the scalar backend is modelled.
- Row-major index arithmetic of matrices, and writing into the caller's output buffers: shards are returned.
- In-place update of JSON maps and of the entry vectors: loops build new values instead.
- The per-role timestamps, session durations and unique policy names of role records: plain range and set tests.
