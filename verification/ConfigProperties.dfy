/** What holds of every environment the resolver is given. */
module ConfigProperties {
  import opened Common
  import opened Sequences
  import opened Text
  import opened Credentials
  import opened SocketMaps
  import opened Settings
  import opened ServerConfig

  // -------------------------------------------------------- panic freedom

  /** Checks made far apart justify the five expectations. */
  lemma ChecksNeverPanic(resolve: Resolver, c: Config)
    requires WellRead(c)
    ensures !CheckAll(c, resolve).Panicked?
  {
    if c.sizes.storageNodeId.Some? && NeedsCompleteMap(c.role, c.plain) {
      var node := c.sizes.storageNodeId.value;
      assert node < c.sizes.nodeCount ==> HasNode(c.maps.sockets, node);
    }
  }

  /** No internal expectation of the resolver can fail, for any environment. */
  lemma NeverPanics(env: Environment, resolve: Resolver, testBuild: bool)
    ensures !FromLookup(env, resolve, testBuild).Panicked?
  {
    var read := ReadAll(env, resolve, testBuild);
    if read.Accepted? {
      ChecksNeverPanic(resolve, read.value);
    }
  }

  /** What acceptance gives: settings as read, and every cross-check passed. */
  lemma AcceptedPassed(env: Environment, resolve: Resolver, testBuild: bool)
    requires FromLookup(env, resolve, testBuild).Accepted?
    ensures var c := FromLookup(env, resolve, testBuild).value;
            && WellRead(c) && AuthFrom(env, c.auth) && c.allowUnauthenticated == testBuild
            && CheckAll(c, resolve).Accepted?
  {
  }

  // ------------------------------------------------- invariants of results

  /** Sizes that a running server needs. */
  ghost predicate SizesSound(c: Config) {
    && c.sizes.ecK + c.sizes.ecM <= c.sizes.nodeCount
    && c.limits.workers > 0 && c.limits.maxConnections > 0 && c.limits.maxInflight > 0
    && MIN_RPC_ADMISSION_LIMIT <= c.limits.admissionLimit
    && c.limits.admissionWaitMs > 0 && c.limits.controlAdmissionWaitMs > 0
    && c.timing.leaseScanMs > 0 && c.timing.frontendRefreshMs > 0 && c.timing.chunkSize > 0
    && MIN_HEARTBEAT_LEASE_MS <= c.timing.heartbeatLeaseMs <= MAX_HEARTBEAT_LEASE_MS
    && (c.plain.hostId.Some? ==> IsGraphicText(c.plain.hostId.value))
    && (c.plain.tlsCertPath.Some? <==> c.plain.tlsKeyPath.Some?)
  }

  /** Two optional paths name the same existing file. */
  ghost predicate SameFile(resolve: Resolver, a: Option<string>, b: Option<string>) {
    a.Some? && b.Some? && resolve(a.value).Some? && resolve(a.value) == resolve(b.value)
  }

  /** A storage process knows its node and, when it routes by itself, its own socket. */
  ghost predicate StorageSound(resolve: Resolver, c: Config) {
    c.role.HasStorageNode() ==>
      && c.sizes.storageNodeId.Some? && c.sizes.storageNodeId.value < c.sizes.nodeCount
      && c.plain.storageSocketPath.Some?
      && (c.role.Combined? && c.plain.socketPath.None? ==>
            SameFile(resolve, FindSocket(c.maps.sockets, c.sizes.storageNodeId.value), c.plain.storageSocketPath))
  }

  ghost predicate RaftSound(resolve: Resolver, c: Config)
    requires c.raft.enabled ==> c.raft.nodeId.Some?
  {
    && (!c.raft.enabled ==>
          && c.raft.clusterName.None? && c.raft.nodeId.None? && c.raft.peerSocketPath.None?
          && c.maps.peers == [] && c.raft.credentials == [])
    && (c.raft.clusterName.Some? ==> IsGraphicText(c.raft.clusterName.value))
    && (c.raft.peerSocketPath.Some? ==> IsAbsolute(c.raft.peerSocketPath.value))
    && (c.maps.peers != [] ==>
          SameFile(resolve, FindSocket(c.maps.peers, c.raft.nodeId.value), c.raft.peerSocketPath))
    && (|c.maps.peers| > 1 ==> c.raft.credentials != [])
    && (c.raft.credentials != [] ==>
          && c.raft.clusterName.Some?
          && PeerPolicy(c.raft.nodeId.value, c.maps.peers, c.raft.credentials).Ok?)
  }

  ghost predicate AuthSound(c: Config) {
    && (c.auth.clusterId.Some? ==> IsGraphicText(c.auth.clusterId.value))
    && (c.auth.storage != [] || c.auth.frontend != [] || c.auth.admin != [] ==> c.auth.clusterId.Some?)
    && (c.auth.storage != [] && c.role.HasStorageNode() ==>
          c.sizes.storageNodeId.Some? && HasCredential(c.auth.storage, c.sizes.storageNodeId.value))
    && (c.auth.frontendInstance.Some? ==> IsToken(c.auth.frontendInstance.value))
    && (c.auth.frontend != [] && c.role.HasFrontend() && c.plain.socketPath.Some? ==>
          c.auth.frontendInstance.Some? && HasInstance(c.auth.frontend, c.auth.frontendInstance.value))
    && (c.auth.adminInstance.Some? ==> IsToken(c.auth.adminInstance.value))
    && (c.auth.adminInstance.Some? && c.auth.admin != [] ==> HasInstance(c.auth.admin, c.auth.adminInstance.value))
    && (c.role.ControlPlane? && (c.auth.storage != [] || c.auth.frontend != []) ==> c.auth.admin != [])
  }

  /** The unordered conjunction of everything required of a configuration. */
  ghost predicate Sound(resolve: Resolver, c: Config)
    requires c.raft.enabled ==> c.raft.nodeId.Some?
  {
    && SizesSound(c)
    && StorageSound(resolve, c)
    && ControlPlanePaths(c)
    && RaftSound(resolve, c)
    && AuthSound(c)
  }

  lemma SizesChecked(c: Config)
    ensures CheckSizes(c).Accepted? && CheckTiming(c).Accepted? <==> SizesSound(c)
  {
  }

  lemma StorageChecked(resolve: Resolver, c: Config)
    requires WellRead(c)
    ensures CheckStorageRole(c, resolve).Accepted? <==> StorageSound(resolve, c)
  {
    if c.sizes.storageNodeId.Some? && NeedsCompleteMap(c.role, c.plain) {
      var node := c.sizes.storageNodeId.value;
      assert node < c.sizes.nodeCount ==> HasNode(c.maps.sockets, node);
    }
  }

  predicate ControlPlanePaths(c: Config) {
    c.role.ControlPlane? ==> c.plain.statePath.Some? && c.plain.socketPath.Some?
  }

  lemma RaftChecked(resolve: Resolver, c: Config)
    requires WellRead(c)
    ensures (&& CheckControlPlane(c).Accepted? && CheckRaftPeers(c, resolve).Accepted?
             && CheckRaftCredentials(c).Accepted?) <==>
            (&& ControlPlanePaths(c) && RaftSound(resolve, c)
             && (c.auth.clusterId.Some? ==> IsGraphicText(c.auth.clusterId.value)))
  {
  }

  lemma AuthChecked(c: Config)
    requires c.auth.clusterId.Some? ==> IsGraphicText(c.auth.clusterId.value)
    requires c.role.HasStorageNode() ==> c.sizes.storageNodeId.Some?
    ensures (&& CheckStorageAuth(c).Accepted? && CheckFrontendAuth(c).Accepted?
             && CheckInstances(c).Accepted?) <==> AuthSound(c)
  {
  }

  lemma AllChecksPass(resolve: Resolver, c: Config)
    ensures CheckAll(c, resolve).Accepted? <==>
            && CheckStorageRole(c, resolve).Accepted? && CheckSizes(c).Accepted? && CheckControlPlane(c).Accepted?
            && CheckRaftPeers(c, resolve).Accepted? && CheckRaftCredentials(c).Accepted?
            && CheckStorageAuth(c).Accepted? && CheckFrontendAuth(c).Accepted? && CheckInstances(c).Accepted?
            && CheckTiming(c).Accepted?
  {
  }

  /**
    The chain of checks, with its early returns and internal expectations,
    passes exactly the configurations that are sound.
    */
  lemma ChecksAcceptExactlySound(resolve: Resolver, c: Config)
    requires WellRead(c)
    ensures CheckAll(c, resolve).Accepted? <==> Sound(resolve, c)
  {
    AllChecksPass(resolve, c);
    SizesChecked(c);
    StorageChecked(resolve, c);
    RaftChecked(resolve, c);
    if StorageSound(resolve, c) && (c.auth.clusterId.Some? ==> IsGraphicText(c.auth.clusterId.value)) {
      AuthChecked(c);
    }
  }

  /** Acceptance is reading without error followed by soundness. */
  lemma AcceptedIsSound(env: Environment, resolve: Resolver, testBuild: bool)
    ensures FromLookup(env, resolve, testBuild).Accepted? <==>
            var read := ReadAll(env, resolve, testBuild);
            read.Accepted? && Sound(resolve, read.value)
    ensures FromLookup(env, resolve, testBuild).Accepted? ==>
              FromLookup(env, resolve, testBuild).value == ReadAll(env, resolve, testBuild).value
  {
    var read := ReadAll(env, resolve, testBuild);
    if read.Accepted? {
      ChecksAcceptExactlySound(resolve, read.value);
    }
  }

  lemma CheckedRaftMembership(resolve: Resolver, c: Config)
    requires WellRead(c) && CheckAll(c, resolve).Accepted? && |c.maps.peers| > 1
    ensures c.raft.nodeId.Some? && HasNode(c.maps.peers, c.raft.nodeId.value)
    ensures forall n :: HasCredential(c.raft.credentials, n) <==> HasNode(c.maps.peers, n)
  {
    assert CheckRaftPeers(c, resolve).Accepted? && CheckRaftCredentials(c).Accepted?;
    PeerPolicyIsSetEquality(c.raft.nodeId.value, c.maps.peers, c.raft.credentials);
  }

  /**
    In every accepted multi-node Raft configuration the local node is a peer
    and the nodes with credentials are exactly the peers.
    */
  lemma AcceptedRaftMembership(env: Environment, resolve: Resolver, testBuild: bool)
    requires FromLookup(env, resolve, testBuild).Accepted?
    requires |FromLookup(env, resolve, testBuild).value.maps.peers| > 1
    ensures var c := FromLookup(env, resolve, testBuild).value;
            && c.raft.nodeId.Some? && HasNode(c.maps.peers, c.raft.nodeId.value)
            && forall n :: HasCredential(c.raft.credentials, n) <==> HasNode(c.maps.peers, n)
  {
    AcceptedPassed(env, resolve, testBuild);
    CheckedRaftMembership(resolve, FromLookup(env, resolve, testBuild).value);
  }

  // ------------------------------------------------- authentication gate

  predicate StorageControlAuth(c: Config) {
    c.plain.socketPath.None? || (c.auth.clusterId.Some? && c.auth.storage != [])
  }

  predicate FrontendControlAuth(c: Config) {
    || c.plain.socketPath.None?
    || (c.auth.clusterId.Some? && c.auth.frontendInstance.Some? && c.auth.frontend != [])
  }

  predicate InternalRpcAuthIsComplete(c: Config) {
    match c.role
    case AllInOne => true
    case ControlPlane =>
      c.auth.clusterId.Some? && (c.auth.storage != [] || c.auth.frontend != [] || c.auth.admin != [])
    case StorageNode => StorageControlAuth(c) && c.rpc.server && c.rpc.storageNodeClient
    case Frontend => FrontendControlAuth(c) && c.rpc.frontendClient && c.rpc.maintenanceClient
    case Combined =>
      && StorageControlAuth(c) && FrontendControlAuth(c) && c.rpc.server && c.rpc.frontendClient
      && c.rpc.maintenanceClient && c.rpc.storageNodeClient
  }

  /** A combined process is authenticated exactly when it would be as each of its two halves. */
  lemma CombinedIsBothHalves(c: Config)
    ensures InternalRpcAuthIsComplete(c.(role := Combined)) <==>
            && InternalRpcAuthIsComplete(c.(role := StorageNode))
            && InternalRpcAuthIsComplete(c.(role := Frontend))
  {
  }

  predicate PassesInternalRpcGate(c: Config) {
    c.role == AllInOne || InternalRpcAuthIsComplete(c) || c.allowUnauthenticated
  }

  lemma CheckedGate(resolve: Resolver, c: Config)
    requires WellRead(c) && CheckAll(c, resolve).Accepted? && !c.allowUnauthenticated
    ensures PassesInternalRpcGate(c) <==> c.role.AllInOne? || (c.role.ControlPlane? && c.auth.admin != [])
  {
    assert CheckInstances(c).Accepted?;
  }

  /**
    The gate over all accepted environments: without the test override only
    all-in-one processes, and control planes with an administrator
    credential, are let through.
    */
  lemma InternalRpcGate(env: Environment, resolve: Resolver, testBuild: bool)
    requires FromLookup(env, resolve, testBuild).Accepted?
    ensures var c := FromLookup(env, resolve, testBuild).value;
            PassesInternalRpcGate(c) <==>
            testBuild || c.role.AllInOne? || (c.role.ControlPlane? && c.auth.admin != [])
  {
    AcceptedPassed(env, resolve, testBuild);
    if !testBuild {
      CheckedGate(resolve, FromLookup(env, resolve, testBuild).value);
    }
  }

  // ----------------------------------------------- the two other readers

  datatype InstanceAuth = InstanceAuth(clusterId: string, instanceId: string, credentials: seq<Credential>)

  /** The reader used by commands that need only one credential list. */
  function ReadInstanceAuth(env: Environment, credentialsKey: Key, instanceKey: Key)
    : Outcome<Option<InstanceAuth>>
  {
    var credentials :- Parsed(ParseList(InstanceOwner, Lookup(env, credentialsKey)), credentialsKey);
    if credentials == [] then Accepted(None)
    else
      var cluster :- Require(Lookup(env, CP_AUTH_CLUSTER_ID), Missing(CP_AUTH_CLUSTER_ID));
      var _ :- Need(IsGraphicText(cluster), Malformed(CP_AUTH_CLUSTER_ID));
      var instance :- Require(Lookup(env, instanceKey), Missing(instanceKey));
      var _ :- Need(IsToken(instance), Malformed(instanceKey));
      var _ :- Need(HasInstance(credentials, instance), Inconsistent(credentialsKey));
      Accepted(Some(InstanceAuth(cluster, instance, credentials)))
  }

  function ReadFrontendAuth(env: Environment): Outcome<Option<InstanceAuth>> {
    ReadInstanceAuth(env, CP_FRONTEND_AUTH_CREDENTIALS, CP_FRONTEND_AUTH_INSTANCE_ID)
  }

  function ReadAdminAuth(env: Environment): Outcome<Option<InstanceAuth>> {
    ReadInstanceAuth(env, CP_ADMIN_AUTH_CREDENTIALS, CP_ADMIN_AUTH_INSTANCE_ID)
  }

  /** The only ways the narrow reader can differ from an accepted configuration. */
  function Expected(
    credentials: seq<Credential>, cluster: Option<string>, instance: Option<string>,
    credentialsKey: Key, instanceKey: Key): Outcome<Option<InstanceAuth>>
    requires credentials != [] ==> cluster.Some?
  {
    if credentials == [] then Accepted(None)
    else if instance.None? then Rejected(Missing(instanceKey))
    else if !HasInstance(credentials, instance.value) then Rejected(Inconsistent(credentialsKey))
    else Accepted(Some(InstanceAuth(cluster.value, instance.value, credentials)))
  }

  lemma CheckedAuthNames(resolve: Resolver, c: Config)
    requires WellRead(c) && CheckAll(c, resolve).Accepted?
    ensures c.auth.frontend != [] || c.auth.admin != [] ==> c.auth.clusterId.Some?
    ensures c.auth.clusterId.Some? ==> IsGraphicText(c.auth.clusterId.value)
    ensures c.auth.frontendInstance.Some? ==> IsToken(c.auth.frontendInstance.value)
    ensures c.auth.adminInstance.Some? ==> IsToken(c.auth.adminInstance.value)
    ensures c.auth.adminInstance.Some? && c.auth.admin != [] ==>
              HasInstance(c.auth.admin, c.auth.adminInstance.value)
    ensures c.auth.frontend != [] && c.role.HasFrontend() && c.plain.socketPath.Some? ==>
              c.auth.frontendInstance.Some? && HasInstance(c.auth.frontend, c.auth.frontendInstance.value)
  {
    assert CheckControlPlane(c).Accepted? && CheckFrontendAuth(c).Accepted? && CheckInstances(c).Accepted?;
  }

  lemma NarrowReader(env: Environment, auth: Auth)
    requires AuthFrom(env, auth)
    requires auth.frontend != [] || auth.admin != [] ==> auth.clusterId.Some?
    requires auth.clusterId.Some? ==> IsGraphicText(auth.clusterId.value)
    requires auth.frontendInstance.Some? ==> IsToken(auth.frontendInstance.value)
    requires auth.adminInstance.Some? ==> IsToken(auth.adminInstance.value)
    ensures ReadFrontendAuth(env) == Expected(auth.frontend, auth.clusterId, auth.frontendInstance,
                                              CP_FRONTEND_AUTH_CREDENTIALS, CP_FRONTEND_AUTH_INSTANCE_ID)
    ensures ReadAdminAuth(env) == Expected(auth.admin, auth.clusterId, auth.adminInstance,
                                           CP_ADMIN_AUTH_CREDENTIALS, CP_ADMIN_AUTH_INSTANCE_ID)
  {
  }

  /**
    Agreement of the readers on every accepted environment. The narrow
    readers return the same cluster, instance and credentials, and fail only
    when credentials are present without a matching instance id.
    */
  lemma ReadersAgree(env: Environment, resolve: Resolver, testBuild: bool)
    requires FromLookup(env, resolve, testBuild).Accepted?
    ensures var auth := FromLookup(env, resolve, testBuild).value.auth;
            && (auth.frontend != [] || auth.admin != [] ==> auth.clusterId.Some?)
            && ReadFrontendAuth(env) == Expected(auth.frontend, auth.clusterId, auth.frontendInstance,
                                                 CP_FRONTEND_AUTH_CREDENTIALS, CP_FRONTEND_AUTH_INSTANCE_ID)
            && ReadAdminAuth(env) == Expected(auth.admin, auth.clusterId, auth.adminInstance,
                                              CP_ADMIN_AUTH_CREDENTIALS, CP_ADMIN_AUTH_INSTANCE_ID)
  {
    AcceptedPassed(env, resolve, testBuild);
    var c := FromLookup(env, resolve, testBuild).value;
    CheckedAuthNames(resolve, c);
    NarrowReader(env, c.auth);
  }

  /**
    Hence a frontend attached to a control plane, and any process with an
    administrator instance, is read back exactly.
    */
  lemma AttachedReadersSucceed(env: Environment, resolve: Resolver, testBuild: bool)
    requires FromLookup(env, resolve, testBuild).Accepted?
    ensures var c := FromLookup(env, resolve, testBuild).value;
            && (c.role.HasFrontend() && c.plain.socketPath.Some? && c.auth.frontend != [] ==>
                  && c.auth.clusterId.Some? && c.auth.frontendInstance.Some?
                  && ReadFrontendAuth(env) ==
                     Accepted(Some(InstanceAuth(c.auth.clusterId.value, c.auth.frontendInstance.value,
                                                c.auth.frontend))))
            && (c.auth.adminInstance.Some? && c.auth.admin != [] ==>
                  && c.auth.clusterId.Some?
                  && ReadAdminAuth(env) ==
                     Accepted(Some(InstanceAuth(c.auth.clusterId.value, c.auth.adminInstance.value,
                                                c.auth.admin))))
  {
    AcceptedPassed(env, resolve, testBuild);
    CheckedAuthNames(resolve, FromLookup(env, resolve, testBuild).value);
    ReadersAgree(env, resolve, testBuild);
  }

  // ---------------------------------------------------------- standalone

  /** The settings a standalone server may take from its environment. */
  predicate IsStandaloneKey(key: Key) {
    match key
    case ACCOUNT_ID | ACCESS_KEY_ID | SECRET_ACCESS_KEY | SSE_S3_WRAPPING_KEY | SSE_C_VALIDATOR_KEY
       | HOST_ID | REGION | LISTEN_ADDR | TLS_CERT_PATH | TLS_KEY_PATH | DATA_DIR
       | WORKERS | MAX_CONNECTIONS | MAX_INFLIGHT_REQUESTS | STREAM_READ_CHUNK_SIZE
       | TRACE | TRACE_FILTER | TRACE_FILE | TRACE_SYNC
       | UAT_ALT_ACCOUNT_ID | UAT_ALT_ACCESS_KEY_ID | UAT_ALT_SECRET_ACCESS_KEY
       | UAT_SECOND_ACCESS_KEY_ID | UAT_SECOND_SECRET_ACCESS_KEY
       | UAT_OWNER_ROOT_ACCESS_KEY_ID | UAT_OWNER_ROOT_SECRET_ACCESS_KEY => true
    case _ => false
  }

  /** The environment as a standalone server sees it: one data shard, no parity. */
  function StandaloneView(env: Environment): Environment {
    (map key | key in env && IsStandaloneKey(key) :: env[key])[EC_K := "1"][EC_M := "0"]
  }

  function FromStandaloneLookup(env: Environment, resolve: Resolver, testBuild: bool): Outcome<Config> {
    FromLookup(StandaloneView(env), resolve, testBuild)
  }

  /** Which settings the view passes on, hides and fixes. */
  lemma ViewLookup(env: Environment, key: Key)
    ensures Lookup(StandaloneView(env), key) ==
            if key == EC_K then Some("1") else if key == EC_M then Some("0")
            else if IsStandaloneKey(key) then Lookup(env, key) else None
  {
  }

  lemma ViewsAgree(env: Environment, env': Environment)
    requires forall key | IsStandaloneKey(key) :: Lookup(env, key) == Lookup(env', key)
    ensures StandaloneView(env) == StandaloneView(env')
  {
    forall key | IsStandaloneKey(key)
      ensures key in env <==> key in env'
      ensures key in env ==> env[key] == env'[key]
    {
      assert Lookup(env, key) == Lookup(env', key);
    }
  }

  /** Settings outside the allow-list cannot influence a standalone server. */
  lemma StandaloneIsolation(env: Environment, env': Environment, resolve: Resolver, testBuild: bool)
    requires forall key | IsStandaloneKey(key) :: Lookup(env, key) == Lookup(env', key)
    ensures FromStandaloneLookup(env, resolve, testBuild) == FromStandaloneLookup(env', resolve, testBuild)
  {
    ViewsAgree(env, env');
  }

  /** A single node, sixteen placement groups and no control plane. */
  predicate StandaloneShape(c: Config) {
    && c.role == AllInOne
    && c.sizes.ecK == 1 && c.sizes.ecM == 0 && c.sizes.nodeCount == 1 && c.sizes.storageNodeId == None
    && c.sizes.pgCount == 16 && c.maps.pgIds == AllPgs(16)
    && c.maps.sockets == [] && c.maps.peers == [] && c.clientSocketPaths == []
    && c.plain.statePath == None && c.plain.socketPath == None
    && c.auth == Auth(None, [], None, [], None, [])
    && c.raft == Raft(false, None, None, None, [])
  }

  lemma ShardTexts()
    ensures ParseUnsigned("1", MAX_U8) == Some(1) && ParseUnsigned("0", MAX_U8) == Some(0)
  {
    assert "1"[..0] == "" && "0"[..0] == "";
    assert DigitsValue("1") == 1 && DigitsValue("0") == 0;
  }

  /** None of the topology settings is visible, and the shard counts are fixed. */
  ghost predicate HidesTopology(view: Environment) {
    && Lookup(view, EC_K) == Some("1") && Lookup(view, EC_M) == Some("0")
    && HidesStorage(view) && HidesAuth(view) && HidesRaft(view)
  }

  ghost predicate HidesStorage(view: Environment) {
    && PROCESS_ROLE !in view && LOCAL_NODE_COUNT !in view && STORAGE_NODE_ID !in view && PG_COUNT !in view
    && STORAGE_PG_IDS !in view && STORAGE_NODE_SOCKETS !in view
  }

  ghost predicate HidesAuth(view: Environment) {
    && CP_AUTH_CLUSTER_ID !in view && CP_STORAGE_AUTH_CREDENTIALS !in view
    && CP_FRONTEND_AUTH_INSTANCE_ID !in view && CP_FRONTEND_AUTH_CREDENTIALS !in view
    && CP_ADMIN_AUTH_INSTANCE_ID !in view && CP_ADMIN_AUTH_CREDENTIALS !in view
    && CP_STATE_PATH !in view && CP_SOCKET_PATH !in view && CP_CLIENT_SOCKET_PATHS !in view
  }

  ghost predicate HidesRaft(view: Environment) {
    && CP_RAFT_ENABLED !in view && CP_RAFT_CLUSTER_NAME !in view && CP_RAFT_NODE_ID !in view
    && CP_RAFT_PEER_SOCKET_PATH !in view && CP_RAFT_AUTH_CREDENTIALS !in view && CP_RAFT_PEER_SOCKETS !in view
  }

  ghost predicate OnlyStandalone(view: Environment) {
    forall key :: key in view ==> IsStandaloneKey(key) || key == EC_K || key == EC_M
  }

  lemma ViewIsStandalone(env: Environment)
    ensures OnlyStandalone(StandaloneView(env))
    ensures Lookup(StandaloneView(env), EC_K) == Some("1") && Lookup(StandaloneView(env), EC_M) == Some("0")
  {
  }

  lemma StandaloneHidesStorage(view: Environment)
    requires OnlyStandalone(view)
    ensures HidesStorage(view)
  {
  }

  lemma StandaloneHidesAuth(view: Environment)
    requires OnlyStandalone(view)
    ensures HidesAuth(view)
  {
  }

  lemma StandaloneHidesRaft(view: Environment)
    requires OnlyStandalone(view)
    ensures HidesRaft(view)
  {
  }

  lemma ViewHidesTopology(env: Environment)
    ensures HidesTopology(StandaloneView(env))
  {
    var view := StandaloneView(env);
    ViewIsStandalone(env);
    StandaloneHidesStorage(view);
    StandaloneHidesAuth(view);
    StandaloneHidesRaft(view);
  }

  lemma HiddenSizes(view: Environment)
    requires HidesTopology(view) && ReadSizes(view).Accepted?
    ensures var s := ReadSizes(view).value;
            s.ecK == 1 && s.ecM == 0 && s.nodeCount == 1 && s.storageNodeId == None && s.pgCount == 16
  {
    ShardTexts();
  }

  lemma HiddenControlPlane(view: Environment)
    requires HidesTopology(view)
    ensures ReadRole(view) == Accepted(AllInOne)
    ensures ReadAuth(view) == Accepted(Auth(None, [], None, [], None, []))
    ensures ReadRaft(view) == Accepted(Raft(false, None, None, None, []))
    ensures ReadPlain(view).statePath == None && ReadPlain(view).socketPath == None
    ensures ParseClientPaths(Lookup(view, CP_CLIENT_SOCKET_PATHS), None) == Accepted([])
  {
  }

  lemma HiddenMaps(view: Environment, resolve: Resolver, plain: Plain, sizes: Sizes)
    requires HidesTopology(view) && sizes.pgCount == 16
    requires ReadMaps(view, resolve, AllInOne, plain, sizes).Accepted?
    ensures ReadMaps(view, resolve, AllInOne, plain, sizes).value == Maps(AllPgs(16), [], [])
  {
  }

  lemma HiddenIsFixed(view: Environment, resolve: Resolver, testBuild: bool)
    requires HidesTopology(view) && ReadAll(view, resolve, testBuild).Accepted?
    ensures StandaloneShape(ReadAll(view, resolve, testBuild).value)
  {
    HiddenSizes(view);
    HiddenControlPlane(view);
    HiddenMaps(view, resolve, ReadPlain(view), ReadSizes(view).value);
  }

  /** Every accepted standalone configuration has the fixed standalone shape. */
  lemma StandaloneIsFixed(env: Environment, resolve: Resolver, testBuild: bool)
    requires FromStandaloneLookup(env, resolve, testBuild).Accepted?
    ensures StandaloneShape(FromStandaloneLookup(env, resolve, testBuild).value)
  {
    ViewHidesTopology(env);
    HiddenIsFixed(StandaloneView(env), resolve, testBuild);
  }

  /** The smallest useful environment: four identity settings and nothing else. */
  function MinimalEnvironment(): Environment {
    map[ACCOUNT_ID := "000000000000", ACCESS_KEY_ID := "key", SECRET_ACCESS_KEY := "secret",
        SSE_S3_WRAPPING_KEY := "wrap"]
  }

  predicate IsMinimalKey(key: Key) {
    match key
    case ACCOUNT_ID | ACCESS_KEY_ID | SECRET_ACCESS_KEY | SSE_S3_WRAPPING_KEY | EC_K | EC_M => true
    case _ => false
  }

  lemma MinimalKeys(key: Key)
    requires key in MinimalEnvironment()
    ensures IsMinimalKey(key)
  {
  }

  /** Nothing is visible but the identity and the shard counts. */
  ghost predicate OnlyIdentity(view: Environment) {
    && Lookup(view, ACCOUNT_ID) == Some("000000000000") && Lookup(view, ACCESS_KEY_ID) == Some("key")
    && Lookup(view, SECRET_ACCESS_KEY) == Some("secret") && Lookup(view, SSE_S3_WRAPPING_KEY) == Some("wrap")
    && Lookup(view, EC_K) == Some("1") && Lookup(view, EC_M) == Some("0")
    && forall key :: key in view ==> IsMinimalKey(key)
  }

  lemma MinimalIdentity(view: Environment)
    requires OnlyIdentity(view)
    ensures ReadIdentity(view, AllInOne).Accepted?
  {
    assert "key"[0] != SESSION_ACCESS_KEY_PREFIX[0];
    assert ReadAltAccount(view, "000000000000") == Accepted([]);
    assert ReadTestCredentials(view, "000000000000").value == [];
    assert [view[ACCESS_KEY_ID]] + Map(AccessKeyOf, []) == [view[ACCESS_KEY_ID]];
  }

  lemma MinimalSizes(view: Environment)
    requires OnlyIdentity(view)
    ensures ReadSizes(view) == Accepted(Sizes(1, None, 16, 1, 0, 1))
  {
    ShardTexts();
  }

  lemma MinimalLimits(view: Environment)
    requires OnlyIdentity(view)
    ensures ReadLimits(view) == Accepted(Limits(4, 512, 32, 1024, 250, 1000))
  {
  }

  lemma MinimalTiming(view: Environment)
    requires OnlyIdentity(view)
    ensures ReadTiming(view) == Accepted(Timing(250, 250, 2000, 8 * 1024 * 1024, false, false))
  {
  }

  lemma MinimalMaps(view: Environment, resolve: Resolver)
    requires HidesStorage(view) && HidesRaft(view)
    ensures ReadMaps(view, resolve, AllInOne, ReadPlain(view), Sizes(1, None, 16, 1, 0, 1)).Accepted?
  {
  }

  lemma MinimalView(view: Environment)
    requires view == StandaloneView(MinimalEnvironment())
    ensures OnlyIdentity(view)
  {
    var env := MinimalEnvironment();
    ViewLookup(env, ACCOUNT_ID);
    ViewLookup(env, ACCESS_KEY_ID);
    ViewLookup(env, SECRET_ACCESS_KEY);
    ViewLookup(env, SSE_S3_WRAPPING_KEY);
    ViewIsStandalone(env);
    forall key | key in view
      ensures IsMinimalKey(key)
    {
      ViewLookup(env, key);
      if key in env {
        MinimalKeys(key);
      }
    }
  }

  lemma MinimalIsRead(view: Environment, resolve: Resolver, testBuild: bool)
    requires OnlyIdentity(view) && HidesTopology(view)
    ensures ReadAll(view, resolve, testBuild).Accepted?
    ensures var c := ReadAll(view, resolve, testBuild).value;
            && c.sizes == Sizes(1, None, 16, 1, 0, 1)
            && c.limits == Limits(4, 512, 32, 1024, 250, 1000)
            && c.timing == Timing(250, 250, 2000, 8 * 1024 * 1024, false, false)
            && c.plain.hostId == None && c.plain.tlsCertPath == None && c.plain.tlsKeyPath == None
  {
    MinimalIdentity(view);
    MinimalSizes(view);
    MinimalLimits(view);
    MinimalTiming(view);
    HiddenControlPlane(view);
    MinimalMaps(view, resolve);
  }

  lemma DefaultsAreSound(resolve: Resolver, c: Config)
    requires StandaloneShape(c)
    requires c.limits == Limits(4, 512, 32, 1024, 250, 1000)
    requires c.timing == Timing(250, 250, 2000, 8 * 1024 * 1024, false, false)
    requires c.plain.hostId == None && c.plain.tlsCertPath == None && c.plain.tlsKeyPath == None
    ensures Sound(resolve, c)
  {
  }

  lemma MinimalViewStarts(view: Environment, resolve: Resolver, testBuild: bool)
    requires OnlyIdentity(view) && HidesTopology(view)
    ensures FromLookup(view, resolve, testBuild).Accepted?
  {
    MinimalIsRead(view, resolve, testBuild);
    HiddenIsFixed(view, resolve, testBuild);
    DefaultsAreSound(resolve, ReadAll(view, resolve, testBuild).value);
    AcceptedIsSound(view, resolve, testBuild);
  }

  /**
    Four identity settings are enough to start a standalone server, whatever
    the file system. In particular some environment is accepted.
    */
  lemma MinimalEnvironmentStarts(resolve: Resolver, testBuild: bool)
    ensures FromStandaloneLookup(MinimalEnvironment(), resolve, testBuild).Accepted?
  {
    var view := StandaloneView(MinimalEnvironment());
    MinimalView(view);
    ViewHidesTopology(MinimalEnvironment());
    MinimalViewStarts(view, resolve, testBuild);
  }
}
