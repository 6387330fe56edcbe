/**
  Resolution of the server configuration from environment settings: reading
  every setting in order, then the cross-checks between them.
  */
module ServerConfig {
  import opened Common
  import opened Sequences
  import opened Text
  import opened Credentials
  import opened SocketMaps
  import opened Settings

  const MAX_U8: nat := 0xFF
  const MAX_LOCAL_NODE_COUNT: nat := 4_096
  const MIN_RPC_ADMISSION_LIMIT: nat := 8
  const MIN_HEARTBEAT_LEASE_MS: nat := 2_000
  const MAX_HEARTBEAT_LEASE_MS: nat := 10_000
  const SESSION_ACCESS_KEY_PREFIX := "ARGS"

  // ----------------------------------------------------------- data model

  datatype TestCredential = TestCredential(
    accessKeyId: string, secretKey: string, accountId: string, principal: string, ownerAdmin: bool)

  datatype Identity = Identity(
    accountId: string, accessKeyId: string, secretKey: string, testCredentials: seq<TestCredential>,
    wrappingKey: string)

  datatype Sizes = Sizes(
    clusterEpoch: nat, storageNodeId: Option<nat>, pgCount: nat, ecK: nat, ecM: nat, nodeCount: nat)

  datatype Limits = Limits(
    workers: nat, maxConnections: nat, maxInflight: nat,
    admissionLimit: nat, admissionWaitMs: nat, controlAdmissionWaitMs: nat)

  datatype Auth = Auth(
    clusterId: Option<string>, storage: seq<Credential>,
    frontendInstance: Option<string>, frontend: seq<Credential>,
    adminInstance: Option<string>, admin: seq<Credential>)

  datatype Raft = Raft(
    enabled: bool, clusterName: Option<string>, nodeId: Option<nat>, peerSocketPath: Option<string>,
    credentials: seq<Credential>)

  datatype Timing = Timing(
    leaseScanMs: nat, frontendRefreshMs: nat, heartbeatLeaseMs: nat, chunkSize: nat,
    trace: bool, traceSync: bool)

  datatype Maps = Maps(pgIds: seq<nat>, sockets: seq<Socket>, peers: seq<Socket>)

  /** Settings that are only looked up, with a default or as an option. */
  datatype Plain = Plain(
    hostId: Option<string>, validatorKey: Option<string>, listenAddr: string,
    tlsCertPath: Option<string>, tlsKeyPath: Option<string>, dataDir: string,
    storageDataDir: Option<string>, storageSocketPath: Option<string>, region: string,
    statePath: Option<string>, socketPath: Option<string>,
    traceFilter: Option<string>, traceFile: Option<string>)

  /** Which capabilities for internal RPC the process holds. */
  datatype RpcAuth = RpcAuth(server: bool, frontendClient: bool, maintenanceClient: bool, storageNodeClient: bool)

  datatype Config = Config(
    allowUnauthenticated: bool, role: Role, identity: Identity, plain: Plain, sizes: Sizes,
    limits: Limits, clientSocketPaths: seq<string>, auth: Auth, raft: Raft, timing: Timing, maps: Maps, rpc: RpcAuth)

  // -------------------------------------------------------------- reading

  predicate IsAccountId(s: string) {
    |s| == 12 && AllDigits(s)
  }

  function OptionalPair(env: Environment, access: Key, secret: Key): (r: Outcome<Option<(string, string)>>)
    ensures !r.Panicked?
  {
    match (Lookup(env, access), Lookup(env, secret))
    case (Some(a), Some(s)) => Accepted(Some((a, s)))
    case (None, None) => Accepted(None)
    case (None, Some(_)) => Rejected(Missing(access))
    case (Some(_), None) => Rejected(Missing(secret))
  }

  function ReadAltAccount(env: Environment, account: string): (r: Outcome<seq<TestCredential>>)
    ensures !r.Panicked?
  {
    match (Lookup(env, UAT_ALT_ACCOUNT_ID), Lookup(env, UAT_ALT_ACCESS_KEY_ID),
           Lookup(env, UAT_ALT_SECRET_ACCESS_KEY))
    case (Some(id), Some(access), Some(secret)) =>
      if !IsAccountId(id) then Rejected(Malformed(UAT_ALT_ACCOUNT_ID))
      else if id == account then Rejected(Inconsistent(UAT_ALT_ACCOUNT_ID))
      else Accepted([TestCredential(access, secret, id, id, true)])
    case (None, None, None) => Accepted([])
    case _ => Rejected(Inconsistent(UAT_ALT_ACCESS_KEY_ID))
  }

  function ReadTestCredentials(env: Environment, account: string): (r: Outcome<seq<TestCredential>>)
    ensures !r.Panicked?
  {
    var alt :- ReadAltAccount(env, account);
    var second :- OptionalPair(env, UAT_SECOND_ACCESS_KEY_ID, UAT_SECOND_SECRET_ACCESS_KEY);
    var root :- OptionalPair(env, UAT_OWNER_ROOT_ACCESS_KEY_ID, UAT_OWNER_ROOT_SECRET_ACCESS_KEY);
    Accepted(
      alt
      + (if second.None? then []
         else [TestCredential(second.value.0, second.value.1, account,
                              "arn:aws:iam::" + account + ":user/limited", false)])
      + (if root.None? then []
         else [TestCredential(root.value.0, root.value.1, account,
                              "arn:aws:iam::" + account + ":root", true)]))
  }

  function AccessKeyOf(c: TestCredential): string {
    c.accessKeyId
  }

  predicate DistinctTexts(s: seq<string>) {
    forall i, j :: 0 <= i < j < |s| ==> s[i] != s[j]
  }

  /** The duplicate test: a set of the keys met so far. */
  method RejectDuplicateAccessKeys(primary: string, tests: seq<TestCredential>) returns (distinct: bool)
    ensures distinct == DistinctTexts([primary] + Map(AccessKeyOf, tests))
  {
    ghost var keys := [primary] + Map(AccessKeyOf, tests);
    var seen := {primary};
    for i := 0 to |tests|
      invariant forall x :: x in seen <==> x in keys[..i + 1]
      invariant DistinctTexts(keys[..i + 1])
    {
      assert keys[i + 1] == tests[i].accessKeyId;
      assert keys[..i + 2] == keys[..i + 1] + [keys[i + 1]];
      if tests[i].accessKeyId in seen {
        ghost var k :| 0 <= k < i + 1 && keys[..i + 1][k] == keys[i + 1];
        assert keys[k] == keys[i + 1];
        return false;
      }
      seen := seen + {tests[i].accessKeyId};
    }
    assert keys[..|tests| + 1] == keys;
    return true;
  }

  predicate IsReservedKey(key: string) {
    SESSION_ACCESS_KEY_PREFIX <= key
  }

  /** Identity settings are read only by processes with a frontend. */
  function ReadIdentity(env: Environment, role: Role): (r: Outcome<Identity>)
    ensures !r.Panicked?
  {
    if !role.HasFrontend() then Accepted(Identity("", "", "", [], ""))
    else
      var account :- Require(Lookup(env, ACCOUNT_ID), Missing(ACCOUNT_ID));
      var _ :- Need(IsAccountId(account), Malformed(ACCOUNT_ID));
      var access :- Require(Lookup(env, ACCESS_KEY_ID), Missing(ACCESS_KEY_ID));
      var secret :- Require(Lookup(env, SECRET_ACCESS_KEY), Missing(SECRET_ACCESS_KEY));
      var tests :- ReadTestCredentials(env, account);
      var keys := [access] + Map(AccessKeyOf, tests);
      var _ :- Need(DistinctTexts(keys), Inconsistent(ACCESS_KEY_ID));
      var _ :- Need(!IsReservedKey(access), Malformed(ACCESS_KEY_ID));
      var _ :- Need(forall i :: 0 <= i < |tests| ==> !IsReservedKey(tests[i].accessKeyId),
                    Malformed(UAT_ALT_ACCESS_KEY_ID));
      var wrapping :- Require(Lookup(env, SSE_S3_WRAPPING_KEY), Missing(SSE_S3_WRAPPING_KEY));
      Accepted(Identity(account, access, secret, tests, wrapping))
  }

  function TextOr(env: Environment, key: Key, default: string): string {
    if key in env then env[key] else default
  }

  function ReadPlain(env: Environment): Plain {
    Plain(Lookup(env, HOST_ID), Lookup(env, SSE_C_VALIDATOR_KEY), TextOr(env, LISTEN_ADDR, "127.0.0.1:9000"),
          Lookup(env, TLS_CERT_PATH), Lookup(env, TLS_KEY_PATH), TextOr(env, DATA_DIR, "./data"),
          Lookup(env, STORAGE_NODE_DATA_DIR), Lookup(env, STORAGE_NODE_SOCKET_PATH),
          TextOr(env, REGION, "us-east-1"),
          Lookup(env, CP_STATE_PATH), Lookup(env, CP_SOCKET_PATH),
          Lookup(env, TRACE_FILTER), Lookup(env, TRACE_FILE))
  }

  function ReadNodeCount(env: Environment, ecK: nat, ecM: nat): (r: Outcome<nat>)
    requires ecK <= MAX_U8 && ecM <= MAX_U8
    ensures !r.Panicked?
    ensures r.Accepted? ==> 1 <= ecK && ecK + ecM <= MAX_TOTAL_SHARDS && 1 <= r.value <= MAX_LOCAL_NODE_COUNT
  {
    var _ :- Need(1 <= ecK && ecK + ecM <= MAX_TOTAL_SHARDS, OutOfRange(EC_K));
    var count :- Number(env, LOCAL_NODE_COUNT, ecK + ecM, MAX_U32);
    if count == 0 || MAX_LOCAL_NODE_COUNT < count then Rejected(OutOfRange(LOCAL_NODE_COUNT))
    else Accepted(count)
  }

  /** Epoch, placement groups, erasure-coding shape and node count. */
  function ReadSizes(env: Environment): (r: Outcome<Sizes>)
    ensures !r.Panicked?
    ensures r.Accepted? ==>
              && 1 <= r.value.ecK && r.value.ecK + r.value.ecM <= MAX_TOTAL_SHARDS
              && 1 <= r.value.nodeCount <= MAX_LOCAL_NODE_COUNT
  {
    var epoch :- Number(env, STORAGE_CLUSTER_EPOCH, 1, MAX_U64);
    var nodeId :- OptionalNumber(env, STORAGE_NODE_ID, MAX_U32);
    var pgCount :- Number(env, PG_COUNT, 16, MAX_U32);
    var ecK :- Number(env, EC_K, 4, MAX_U8);
    var ecM :- Number(env, EC_M, 2, MAX_U8);
    var nodeCount :- ReadNodeCount(env, ecK, ecM);
    Accepted(Sizes(epoch, nodeId, pgCount, ecK, ecM, nodeCount))
  }

  function ReadLimits(env: Environment): (r: Outcome<Limits>)
    ensures !r.Panicked?
  {
    var workers :- Number(env, WORKERS, 4, MAX_U32);
    var connections :- Number(env, MAX_CONNECTIONS, 512, MAX_U32);
    var inflight :- Number(env, MAX_INFLIGHT_REQUESTS, 32, MAX_U32);
    var limit :- Number(env, RPC_ADMISSION_LIMIT, 1024, MAX_U64);
    var wait :- Number(env, RPC_ADMISSION_WAIT_MS, 250, MAX_U64);
    var controlWait :- Number(env, RPC_CONTROL_ADMISSION_WAIT_MS, 1000, MAX_U64);
    Accepted(Limits(workers, connections, inflight, limit, wait, controlWait))
  }

  function ReadAuth(env: Environment): (r: Outcome<Auth>)
    ensures !r.Panicked?
    ensures r.Accepted? ==> AuthFrom(env, r.value)
  {
    var storage :- Parsed(ParseList(STORAGE, Lookup(env, CP_STORAGE_AUTH_CREDENTIALS)),
                          CP_STORAGE_AUTH_CREDENTIALS);
    var frontend :- Parsed(ParseList(FRONTEND, Lookup(env, CP_FRONTEND_AUTH_CREDENTIALS)),
                           CP_FRONTEND_AUTH_CREDENTIALS);
    var admin :- Parsed(ParseList(ADMIN, Lookup(env, CP_ADMIN_AUTH_CREDENTIALS)),
                        CP_ADMIN_AUTH_CREDENTIALS);
    Accepted(Auth(Lookup(env, CP_AUTH_CLUSTER_ID), storage,
                  Lookup(env, CP_FRONTEND_AUTH_INSTANCE_ID), frontend,
                  Lookup(env, CP_ADMIN_AUTH_INSTANCE_ID), admin))
  }

  function ReadRaft(env: Environment): (r: Outcome<Raft>)
    ensures !r.Panicked?
    ensures r.Accepted? && r.value.enabled ==> r.value.nodeId.Some?
  {
    var enabled :- Flag(env, CP_RAFT_ENABLED);
    var configured :- OptionalNumber(env, CP_RAFT_NODE_ID, MAX_U64);
    var nodeId := if configured.None? && enabled then Some(1) else configured;
    var credentials :- Parsed(ParseList(RAFT, Lookup(env, CP_RAFT_AUTH_CREDENTIALS)),
                              CP_RAFT_AUTH_CREDENTIALS);
    Accepted(Raft(enabled, Lookup(env, CP_RAFT_CLUSTER_NAME), nodeId,
                  Lookup(env, CP_RAFT_PEER_SOCKET_PATH), credentials))
  }

  function ReadTiming(env: Environment): (r: Outcome<Timing>)
    ensures !r.Panicked?
  {
    var scan :- Number(env, CP_LEASE_SCAN_MS, 250, MAX_U64);
    var refresh :- Number(env, CP_FRONTEND_REFRESH_MS, 250, MAX_U64);
    var lease :- Number(env, CP_HEARTBEAT_LEASE_MS, 2000, MAX_U64);
    var chunk :- Number(env, STREAM_READ_CHUNK_SIZE, 8 * 1024 * 1024, MAX_U64);
    var trace :- Flag(env, TRACE);
    var traceSync :- Flag(env, TRACE_SYNC);
    Accepted(Timing(scan, refresh, lease, chunk, trace, traceSync))
  }

  predicate NeedsCompleteMap(role: Role, plain: Plain) {
    role.UsesRemoteFrontendRouting() && plain.socketPath.None?
  }

  ghost predicate CoversNodes(sockets: seq<Socket>, count: nat) {
    forall n :: 0 <= n < count ==> HasNode(sockets, n)
  }

  function ReadSockets(env: Environment, resolve: Resolver, complete: bool, count: nat): (r: Outcome<seq<Socket>>)
    ensures !r.Panicked?
    ensures r.Accepted? && complete ==> CoversNodes(r.value, count)
  {
    var range := NodeRange(MAX_U32, Some(count));
    var setting := Lookup(env, STORAGE_NODE_SOCKETS);
    match ParseMap(range, resolve, setting, complete)
    case Err(_) => Rejected(Malformed(STORAGE_NODE_SOCKETS))
    case Ok(sockets) =>
      assert complete ==> CoversNodes(sockets, count) by {
        if complete {
          forall n | 0 <= n < count
            ensures HasNode(sockets, n)
          {
            CompleteMapCovers(range, resolve, setting, n);
          }
        }
      }
      Accepted(sockets)
  }

  function ReadMaps(env: Environment, resolve: Resolver, role: Role, plain: Plain, sizes: Sizes): (r: Outcome<Maps>)
    ensures !r.Panicked?
    ensures r.Accepted? && NeedsCompleteMap(role, plain) ==> CoversNodes(r.value.sockets, sizes.nodeCount)
  {
    var _ :- Need(sizes.pgCount > 0, OutOfRange(PG_COUNT));
    var _ :- Need(sizes.clusterEpoch > 0, OutOfRange(STORAGE_CLUSTER_EPOCH));
    var pgIds :- Parsed(ParsePgIds(Lookup(env, STORAGE_PG_IDS), sizes.pgCount), STORAGE_PG_IDS);
    var sockets :- ReadSockets(env, resolve, NeedsCompleteMap(role, plain), sizes.nodeCount);
    var peers :- Parsed(ParseMap(NodeRange(MAX_U64, None), resolve,
                                 Lookup(env, CP_RAFT_PEER_SOCKETS), false),
                        CP_RAFT_PEER_SOCKETS);
    Accepted(Maps(pgIds, sockets, peers))
  }

  /** What reading alone establishes, before any cross-check. */
  ghost predicate WellRead(c: Config) {
    && (c.raft.enabled ==> c.raft.nodeId.Some?)
    && (NeedsCompleteMap(c.role, c.plain) ==> CoversNodes(c.maps.sockets, c.sizes.nodeCount))
    && 1 <= c.sizes.ecK && c.sizes.ecK + c.sizes.ecM <= MAX_TOTAL_SHARDS
    && 1 <= c.sizes.nodeCount <= MAX_LOCAL_NODE_COUNT
    && c.rpc == RpcAuth(false, false, false, false)
  }

  /** The authentication settings are the ones in the environment. */
  ghost predicate AuthFrom(env: Environment, auth: Auth) {
    && auth.clusterId == Lookup(env, CP_AUTH_CLUSTER_ID)
    && auth.frontendInstance == Lookup(env, CP_FRONTEND_AUTH_INSTANCE_ID)
    && auth.adminInstance == Lookup(env, CP_ADMIN_AUTH_INSTANCE_ID)
    && ParseList(STORAGE, Lookup(env, CP_STORAGE_AUTH_CREDENTIALS)) == Ok(auth.storage)
    && ParseList(FRONTEND, Lookup(env, CP_FRONTEND_AUTH_CREDENTIALS)) == Ok(auth.frontend)
    && ParseList(ADMIN, Lookup(env, CP_ADMIN_AUTH_CREDENTIALS)) == Ok(auth.admin)
  }

  /** Every setting, from the role and identity to the socket maps, before any cross-check. */
  function ReadAll(env: Environment, resolve: Resolver, testBuild: bool): (r: Outcome<Config>)
    ensures !r.Panicked?
    ensures r.Accepted? ==> WellRead(r.value) && AuthFrom(env, r.value.auth)
    ensures r.Accepted? ==> r.value.allowUnauthenticated == testBuild
  {
    var role :- ReadRole(env);
    var identity :- ReadIdentity(env, role);
    var plain := ReadPlain(env);
    var sizes :- ReadSizes(env);
    var limits :- ReadLimits(env);
    var clientPaths :- ParseClientPaths(Lookup(env, CP_CLIENT_SOCKET_PATHS), plain.socketPath);
    var auth :- ReadAuth(env);
    var raft :- ReadRaft(env);
    var timing :- ReadTiming(env);
    var maps :- ReadMaps(env, resolve, role, plain, sizes);
    Accepted(Config(testBuild, role, identity, plain, sizes, limits, clientPaths, auth, raft, timing, maps,
                    RpcAuth(false, false, false, false)))
  }

  // ---------------------------------------------------------- cross-checks

  function FindSocket(sockets: seq<Socket>, node: nat): (r: Option<string>)
    ensures r.Some? <==> HasNode(sockets, node)
    ensures r.Some? ==> Socket(node, r.value) in sockets
  {
    if sockets == [] then None
    else if sockets[0].node == node then Some(sockets[0].path)
    else
      assert forall i :: 0 < i < |sockets| ==> sockets[i] == sockets[1..][i - 1];
      FindSocket(sockets[1..], node)
  }

  /** A combined process must route to itself through its own socket. */
  function CheckSelfRoute(c: Config, resolve: Resolver, node: nat): Outcome<()> {
    var own :- Expect(c.plain.storageSocketPath, StorageSocketPathPresent);
    var mapped :- Expect(FindSocket(c.maps.sockets, node), SelfSocketPresent);
    var mappedPath :- Require(resolve(mapped), Malformed(STORAGE_NODE_SOCKETS));
    var ownPath :- Require(resolve(own), Malformed(STORAGE_NODE_SOCKET_PATH));
    Need(mappedPath == ownPath, Inconsistent(STORAGE_NODE_SOCKETS))
  }

  function CheckStorageRole(c: Config, resolve: Resolver): Outcome<()> {
    if !c.role.HasStorageNode() then Accepted(())
    else
      var node :- Require(c.sizes.storageNodeId, Missing(STORAGE_NODE_ID));
      var _ :- Need(node < c.sizes.nodeCount, OutOfRange(STORAGE_NODE_ID));
      var _ :- Need(c.plain.storageSocketPath.Some?, Missing(STORAGE_NODE_SOCKET_PATH));
      if NeedsCompleteMap(c.role, c.plain) then CheckSelfRoute(c, resolve, node) else Accepted(())
  }

  function CheckSizes(c: Config): Outcome<()> {
    var _ :- Need(c.sizes.ecK + c.sizes.ecM <= c.sizes.nodeCount, OutOfRange(LOCAL_NODE_COUNT));
    var _ :- Need(c.limits.workers > 0, OutOfRange(WORKERS));
    var _ :- Need(c.limits.maxConnections > 0, OutOfRange(MAX_CONNECTIONS));
    var _ :- Need(c.limits.maxInflight > 0, OutOfRange(MAX_INFLIGHT_REQUESTS));
    var _ :- Need(MIN_RPC_ADMISSION_LIMIT <= c.limits.admissionLimit, OutOfRange(RPC_ADMISSION_LIMIT));
    var _ :- Need(c.limits.admissionWaitMs > 0, OutOfRange(RPC_ADMISSION_WAIT_MS));
    Need(c.limits.controlAdmissionWaitMs > 0, OutOfRange(RPC_CONTROL_ADMISSION_WAIT_MS))
  }

  function OptionalText(value: Option<string>, key: Key): Outcome<()> {
    Need(value.None? || IsGraphicText(value.value), Malformed(key))
  }

  function CheckControlPlane(c: Config): Outcome<()> {
    var _ :- Need(!c.role.ControlPlane? || c.plain.statePath.Some?, Missing(CP_STATE_PATH));
    var _ :- Need(!c.role.ControlPlane? || c.plain.socketPath.Some?, Missing(CP_SOCKET_PATH));
    var _ :- Need(
        || c.raft.enabled
        || (&& c.raft.clusterName.None? && c.raft.nodeId.None? && c.raft.peerSocketPath.None?
            && c.maps.peers == [] && c.raft.credentials == []),
        Inconsistent(CP_RAFT_ENABLED));
    var _ :- OptionalText(c.raft.clusterName, CP_RAFT_CLUSTER_NAME);
    var _ :- OptionalText(c.auth.clusterId, CP_AUTH_CLUSTER_ID);
    Need(c.raft.peerSocketPath.None? || IsAbsolute(c.raft.peerSocketPath.value),
         Malformed(CP_RAFT_PEER_SOCKET_PATH))
  }

  function CheckRaftPeers(c: Config, resolve: Resolver): Outcome<()> {
    if c.maps.peers == [] then Accepted(())
    else
      var local :- Expect(c.raft.nodeId, RaftNodeForPeers);
      var own :- Require(c.raft.peerSocketPath, Missing(CP_RAFT_PEER_SOCKET_PATH));
      var mapped :- Require(FindSocket(c.maps.peers, local), Inconsistent(CP_RAFT_PEER_SOCKETS));
      var mappedPath :- Require(resolve(mapped), Malformed(CP_RAFT_PEER_SOCKETS));
      var ownPath :- Require(resolve(own), Malformed(CP_RAFT_PEER_SOCKET_PATH));
      var _ :- Need(mappedPath == ownPath, Inconsistent(CP_RAFT_PEER_SOCKETS));
      Need(|c.maps.peers| <= 1 || c.raft.credentials != [], Missing(CP_RAFT_AUTH_CREDENTIALS))
  }

  function CheckRaftCredentials(c: Config): Outcome<()> {
    if c.raft.credentials == [] then Accepted(())
    else
      var _ :- Need(c.raft.clusterName.Some?, Missing(CP_RAFT_CLUSTER_NAME));
      var local :- Expect(c.raft.nodeId, RaftNodeForCredentials);
      Parsed(PeerPolicy(local, c.maps.peers, c.raft.credentials), CP_RAFT_AUTH_CREDENTIALS)
  }

  function CheckStorageAuth(c: Config): Outcome<()> {
    if c.auth.storage == [] then Accepted(())
    else
      var _ :- Need(c.auth.clusterId.Some?, Missing(CP_AUTH_CLUSTER_ID));
      if !c.role.HasStorageNode() then Accepted(())
      else
        var node :- Expect(c.sizes.storageNodeId, StorageNodeForCredentials);
        Need(HasCredential(c.auth.storage, node), Inconsistent(CP_STORAGE_AUTH_CREDENTIALS))
  }

  predicate HasInstance(credentials: seq<Credential>, instance: string) {
    exists i :: 0 <= i < |credentials| && credentials[i].owner == Instance(instance)
  }

  function CheckFrontendAuth(c: Config): Outcome<()> {
    if c.auth.frontend == [] then Accepted(())
    else
      var _ :- Need(c.auth.clusterId.Some?, Missing(CP_AUTH_CLUSTER_ID));
      if !(c.role.HasFrontend() && c.plain.socketPath.Some?) then Accepted(())
      else
        var instance :- Require(c.auth.frontendInstance, Missing(CP_FRONTEND_AUTH_INSTANCE_ID));
        Need(HasInstance(c.auth.frontend, instance), Inconsistent(CP_FRONTEND_AUTH_CREDENTIALS))
  }

  function CheckInstances(c: Config): Outcome<()> {
    var _ :- Need(c.auth.frontendInstance.None? || IsToken(c.auth.frontendInstance.value),
                  Malformed(CP_FRONTEND_AUTH_INSTANCE_ID));
    var _ :- Need(c.auth.admin == [] || c.auth.clusterId.Some?, Missing(CP_AUTH_CLUSTER_ID));
    var _ :- Need(c.auth.adminInstance.None? || IsToken(c.auth.adminInstance.value),
                  Malformed(CP_ADMIN_AUTH_INSTANCE_ID));
    var _ :- Need(c.auth.adminInstance.None? || c.auth.admin == []
                  || HasInstance(c.auth.admin, c.auth.adminInstance.value),
                  Inconsistent(CP_ADMIN_AUTH_CREDENTIALS));
    Need(!c.role.ControlPlane?
         || (c.auth.storage == [] && c.auth.frontend == [])
         || c.auth.admin != [],
         Missing(CP_ADMIN_AUTH_CREDENTIALS))
  }

  function CheckTiming(c: Config): Outcome<()> {
    var _ :- Need(c.timing.leaseScanMs > 0, OutOfRange(CP_LEASE_SCAN_MS));
    var _ :- Need(c.timing.frontendRefreshMs > 0, OutOfRange(CP_FRONTEND_REFRESH_MS));
    var _ :- Need(MIN_HEARTBEAT_LEASE_MS <= c.timing.heartbeatLeaseMs <= MAX_HEARTBEAT_LEASE_MS,
                  OutOfRange(CP_HEARTBEAT_LEASE_MS));
    var _ :- Need(c.timing.chunkSize > 0, OutOfRange(STREAM_READ_CHUNK_SIZE));
    var _ :- OptionalText(c.plain.hostId, HOST_ID);
    Need(c.plain.tlsCertPath.Some? == c.plain.tlsKeyPath.Some?, Inconsistent(TLS_CERT_PATH))
  }

  function CheckAll(c: Config, resolve: Resolver): Outcome<()> {
    var _ :- CheckStorageRole(c, resolve);
    var _ :- CheckSizes(c);
    var _ :- CheckControlPlane(c);
    var _ :- CheckRaftPeers(c, resolve);
    var _ :- CheckRaftCredentials(c);
    var _ :- CheckStorageAuth(c);
    var _ :- CheckFrontendAuth(c);
    var _ :- CheckInstances(c);
    CheckTiming(c)
  }

  /** The resolver: an environment, a view of the file system, a build flavour. */
  function FromLookup(env: Environment, resolve: Resolver, testBuild: bool): Outcome<Config> {
    var c :- ReadAll(env, resolve, testBuild);
    var _ :- CheckAll(c, resolve);
    Accepted(c)
  }
}
