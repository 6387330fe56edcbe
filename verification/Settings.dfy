/**
  Environment settings and the small parsers of the server configuration:
  roles, flags, placement-group ids, client socket paths, test credentials
  and the agreement between Raft peers and their credentials.
  */
module Settings {
  import opened Common
  import opened Text
  import opened ListParser
  import opened Credentials
  import opened SocketMaps

  /** The environment variables the resolver reads, all prefixed ARGMIN_. */
  datatype Key =
    | PROCESS_ROLE | ACCOUNT_ID | ACCESS_KEY_ID | SECRET_ACCESS_KEY | SSE_S3_WRAPPING_KEY
    | SSE_C_VALIDATOR_KEY | HOST_ID | REGION | LISTEN_ADDR | TLS_CERT_PATH | TLS_KEY_PATH | DATA_DIR
    | UAT_ALT_ACCOUNT_ID | UAT_ALT_ACCESS_KEY_ID | UAT_ALT_SECRET_ACCESS_KEY
    | UAT_SECOND_ACCESS_KEY_ID | UAT_SECOND_SECRET_ACCESS_KEY
    | UAT_OWNER_ROOT_ACCESS_KEY_ID | UAT_OWNER_ROOT_SECRET_ACCESS_KEY
    | STORAGE_NODE_DATA_DIR | STORAGE_NODE_SOCKET_PATH | STORAGE_CLUSTER_EPOCH | STORAGE_NODE_ID
    | PG_COUNT | EC_K | EC_M | LOCAL_NODE_COUNT | WORKERS | MAX_CONNECTIONS | MAX_INFLIGHT_REQUESTS
    | RPC_ADMISSION_LIMIT | RPC_ADMISSION_WAIT_MS | RPC_CONTROL_ADMISSION_WAIT_MS
    | CP_STATE_PATH | CP_SOCKET_PATH | CP_CLIENT_SOCKET_PATHS | CP_AUTH_CLUSTER_ID
    | CP_STORAGE_AUTH_CREDENTIALS | CP_FRONTEND_AUTH_INSTANCE_ID | CP_FRONTEND_AUTH_CREDENTIALS
    | CP_ADMIN_AUTH_INSTANCE_ID | CP_ADMIN_AUTH_CREDENTIALS
    | CP_RAFT_ENABLED | CP_RAFT_CLUSTER_NAME | CP_RAFT_NODE_ID | CP_RAFT_PEER_SOCKET_PATH
    | CP_RAFT_PEER_SOCKETS | CP_RAFT_AUTH_CREDENTIALS
    | CP_LEASE_SCAN_MS | CP_FRONTEND_REFRESH_MS | CP_HEARTBEAT_LEASE_MS
    | STREAM_READ_CHUNK_SIZE | TRACE | TRACE_FILTER | TRACE_FILE | TRACE_SYNC
    | STORAGE_PG_IDS | STORAGE_NODE_SOCKETS

  type Environment = map<Key, string>

  function Lookup(env: Environment, key: Key): Option<string> {
    if key in env then Some(env[key]) else None
  }

  datatype ConfigError =
    | Missing(key: Key)
    | Malformed(key: Key)
    | OutOfRange(key: Key)
    | Inconsistent(key: Key)

  /** The places where the resolver asserts that a value is present. */
  datatype ExpectSite =
    | StorageSocketPathPresent | SelfSocketPresent | RaftNodeForPeers | RaftNodeForCredentials
    | StorageNodeForCredentials

  /** Accepting, rejecting, or failing an internal expectation. */
  datatype Outcome<+T> = Accepted(value: T) | Rejected(error: ConfigError) | Panicked(site: ExpectSite) {

    predicate IsFailure() {
      !Accepted?
    }

    function PropagateFailure<U>(): Outcome<U>
      requires !Accepted?
    {
      match this
      case Rejected(e) => Rejected(e)
      case Panicked(s) => Panicked(s)
    }

    function Extract(): T
      requires Accepted?
    {
      value
    }
  }

  function Expect<T>(value: Option<T>, site: ExpectSite): Outcome<T> {
    match value
    case None => Panicked(site)
    case Some(v) => Accepted(v)
  }

  function Require<T>(value: Option<T>, error: ConfigError): Outcome<T> {
    match value
    case None => Rejected(error)
    case Some(v) => Accepted(v)
  }

  function Need(condition: bool, error: ConfigError): Outcome<()> {
    if condition then Accepted(()) else Rejected(error)
  }

  function Parsed<T, E>(result: Result<T, E>, key: Key): Outcome<T> {
    match result
    case Err(_) => Rejected(Malformed(key))
    case Ok(v) => Accepted(v)
  }

  // ---------------------------------------------------------- scalar values

  function Number(env: Environment, key: Key, default: nat, max: nat): (r: Outcome<nat>)
    requires default <= max
    ensures !r.Panicked?
    ensures r.Accepted? ==> r.value <= max
  {
    match Lookup(env, key)
    case None => Accepted(default)
    case Some(text) => Require(ParseUnsigned(text, max), Malformed(key))
  }

  function OptionalNumber(env: Environment, key: Key, max: nat): (r: Outcome<Option<nat>>)
    ensures !r.Panicked?
  {
    match Lookup(env, key)
    case None => Accepted(None)
    case Some(text) =>
      match ParseUnsigned(text, max)
      case None => Rejected(Malformed(key))
      case Some(n) => Accepted(Some(n))
  }

  function ParseFlag(text: string): Option<bool> {
    var word := Trim(text);
    if word in ["1", "true", "TRUE", "True", "yes", "YES", "Yes", "on", "ON", "On"] then Some(true)
    else if word in ["0", "false", "FALSE", "False", "no", "NO", "No", "off", "OFF", "Off"] then Some(false)
    else None
  }

  function Flag(env: Environment, key: Key): (r: Outcome<bool>)
    ensures !r.Panicked?
  {
    match Lookup(env, key)
    case None => Accepted(false)
    case Some(text) => Require(ParseFlag(text), Malformed(key))
  }

  // ------------------------------------------------------------------ roles

  datatype Role = AllInOne | Frontend | StorageNode | Combined | ControlPlane {

    predicate HasStorageNode() {
      StorageNode? || Combined?
    }

    predicate HasFrontend() {
      AllInOne? || Frontend? || Combined?
    }

    predicate UsesRemoteFrontendRouting() {
      Frontend? || Combined?
    }
  }

  function RoleName(role: Role): string {
    match role
    case AllInOne => "all-in-one"
    case Frontend => "frontend"
    case StorageNode => "storage-node"
    case Combined => "combined"
    case ControlPlane => "control-plane"
  }

  function ParseRole(text: string): Option<Role> {
    var word := Trim(text);
    if word == "frontend" then Some(Frontend)
    else if word == "storage-node" then Some(StorageNode)
    else if word == "combined" then Some(Combined)
    else if word == "control-plane" then Some(ControlPlane)
    else if word == "all-in-one" then Some(AllInOne)
    else None
  }

  function ReadRole(env: Environment): (r: Outcome<Role>)
    ensures !r.Panicked?
  {
    match Lookup(env, PROCESS_ROLE)
    case None => Accepted(AllInOne)
    case Some(text) => Require(ParseRole(text), Malformed(PROCESS_ROLE))
  }

  /** A text names a role exactly when, trimmed, it is the role's own name. */
  lemma RoleIsNamed(text: string, role: Role)
    ensures ParseRole(text) == Some(role) <==> Trim(text) == RoleName(role)
  {
    var word := Trim(text);
    assert |RoleName(AllInOne)| == 10 && |RoleName(Frontend)| == 8 && |RoleName(StorageNode)| == 12;
    assert |RoleName(ControlPlane)| == 13 && |RoleName(Combined)| == 8;
    assert RoleName(Frontend)[0] == 'f' && RoleName(Combined)[0] == 'c';
  }

  // ---------------------------------------------------- placement-group ids

  datatype PgError = PgEmpty | PgInvalid | PgOutOfRange | PgDuplicate

  function ParsePg(count: nat, raw: string): (r: Result<nat, PgError>)
    ensures r.Ok? ==> r.value < count
  {
    if Trim(raw) == "" then Err(PgEmpty)
    else match ParseUnsigned(Trim(raw), MAX_U32)
    case None => Err(PgInvalid)
    case Some(pg) => if pg < count then Ok(pg) else Err(PgOutOfRange)
  }

  function Itself<T>(x: T): T {
    x
  }

  predicate SamePg(a: nat, b: nat) {
    a == b
  }

  function PgClash(seen: seq<nat>, pg: nat): (r: Option<PgError>)
    ensures r.None? <==> forall i :: 0 <= i < |seen| ==> !SamePg(seen[i], pg)
  {
    KeysMember(Itself, seen, pg);
    if pg in Keys(Itself, seen) then Some(PgDuplicate) else None
  }

  function PgGrammar(count: nat): (g: Grammar<nat, PgError>)
    ensures Coherent(g)
    ensures KeyedBy(g, Itself, PgDuplicate)
  {
    Grammar(raw => ParsePg(count, raw), PgClash, SamePg)
  }

  function AllPgs(count: nat): (r: seq<nat>)
    ensures |r| == count && forall i :: 0 <= i < count ==> r[i] == i
  {
    seq(count, i => i)
  }

  /** Without a setting every placement group is served; order is kept. */
  function ParsePgIds(value: Option<string>, count: nat): Result<seq<nat>, ListError<PgError>> {
    match value
    case None => Ok(AllPgs(count))
    case Some(text) =>
      if Trim(text) == "" then Err(EmptyList) else Collect(PgGrammar(count), Split(text, ','))
  }

  method ParseStoragePgIds(value: Option<string>, count: nat)
    returns (r: Result<seq<nat>, ListError<PgError>>)
    ensures r == ParsePgIds(value, count)
  {
    if value.None? {
      return Ok(AllPgs(count));
    }
    if Trim(value.value) == "" {
      return Err(EmptyList);
    }
    r := CollectKeyed(PgGrammar(count), Itself, PgDuplicate, Split(value.value, ','));
  }

  /**
    Accepted ids are distinct and below the group count, so there are never
    more of them than there are groups.
    */
  lemma AcceptedPgIds(value: Option<string>, count: nat)
    requires ParsePgIds(value, count).Ok?
    ensures var pgs := ParsePgIds(value, count).value;
            && (forall i :: 0 <= i < |pgs| ==> pgs[i] < count)
            && (forall i, j :: 0 <= i < j < |pgs| ==> pgs[i] != pgs[j])
            && |pgs| <= count
  {
    var pgs := ParsePgIds(value, count).value;
    if value.Some? {
      var g := PgGrammar(count);
      var parts := Split(value.value, ',');
      CollectSound(g, parts);
      forall i | 0 <= i < |pgs|
        ensures pgs[i] < count
      {
        assert ParsePg(count, parts[i]) == Ok(pgs[i]);
      }
      forall i, j | 0 <= i < j < |pgs|
        ensures pgs[i] != pgs[j]
      {
        assert !SamePg(pgs[i], pgs[j]);
      }
      Pigeonhole(pgs, count);
    }
  }

  lemma {:induction false} Pigeonhole(s: seq<nat>, count: nat)
    requires forall i :: 0 <= i < |s| ==> s[i] < count
    requires forall i, j :: 0 <= i < j < |s| ==> s[i] != s[j]
    ensures |s| <= count
  {
    if s == [] {
      return;
    }
    assert s[0] < count;
    if count - 1 in s {
      var k :| 0 <= k < |s| && s[k] == count - 1;
      var rest := s[..k] + s[k + 1..];
      assert forall i :: 0 <= i < |rest| ==> rest[i] == if i < k then s[i] else s[i + 1];
      Pigeonhole(rest, count - 1);
    } else {
      Pigeonhole(s, count - 1);
    }
  }

  // ---------------------------------------------------- client socket paths

  datatype PathError = ClientPathEmpty | ClientPathRelative | ClientPathDuplicate

  function ParseClientPath(raw: string): Result<string, PathError> {
    var path := Trim(raw);
    if path == "" then Err(ClientPathEmpty)
    else if !IsAbsolute(path) then Err(ClientPathRelative)
    else Ok(path)
  }

  predicate SameText(a: string, b: string) {
    a == b
  }

  function PathClash(seen: seq<string>, path: string): (r: Option<PathError>)
    ensures r.None? <==> forall i :: 0 <= i < |seen| ==> !SameText(seen[i], path)
  {
    KeysMember(Itself, seen, path);
    if path in Keys(Itself, seen) then Some(ClientPathDuplicate) else None
  }

  function PathGrammar(): (g: Grammar<string, PathError>)
    ensures Coherent(g)
    ensures KeyedBy(g, Itself, ClientPathDuplicate)
  {
    Grammar(ParseClientPath, PathClash, SameText)
  }

  /** The paths in input order; a primary socket must be among them. */
  function ParseClientPaths(value: Option<string>, primary: Option<string>): (r: Outcome<seq<string>>)
    ensures !r.Panicked?
    ensures r.Accepted? && primary.Some? ==> primary.value in r.value
  {
    match value
    case None => Accepted(if primary.Some? then [primary.value] else [])
    case Some(text) =>
      if Trim(text) == "" then Rejected(Malformed(CP_CLIENT_SOCKET_PATHS))
      else
        var paths :- Parsed(Collect(PathGrammar(), Split(text, ',')), CP_CLIENT_SOCKET_PATHS);
        if primary.Some? && primary.value !in paths then Rejected(Inconsistent(CP_CLIENT_SOCKET_PATHS))
        else Accepted(paths)
  }

  method ParseControlPlaneClientPaths(value: Option<string>, primary: Option<string>)
    returns (r: Outcome<seq<string>>)
    ensures r == ParseClientPaths(value, primary)
  {
    if value.None? {
      return Accepted(if primary.Some? then [primary.value] else []);
    }
    if Trim(value.value) == "" {
      return Rejected(Malformed(CP_CLIENT_SOCKET_PATHS));
    }
    var paths := CollectKeyed(PathGrammar(), Itself, ClientPathDuplicate, Split(value.value, ','));
    if paths.Err? {
      return Rejected(Malformed(CP_CLIENT_SOCKET_PATHS));
    }
    if primary.Some? && primary.value !in paths.value {
      return Rejected(Inconsistent(CP_CLIENT_SOCKET_PATHS));
    }
    return Accepted(paths.value);
  }

  // ------------------------------------------------- Raft peers, credentials

  function CredentialNode(c: Credential): nat {
    if c.owner.Node? then c.owner.node else 0
  }

  function SocketNode(s: Socket): nat {
    s.node
  }

  datatype PeerError = LocalMissing | ForeignWithoutPeers | PeerMissing | ForeignCredential

  /** The local node first, then missing peers, then foreign credentials; which offending node is named is not modelled. */
  function PeerPolicy(local: nat, peers: seq<Socket>, credentials: seq<Credential>): Result<(), PeerError> {
    var credentialNodes := Keys(CredentialNode, credentials);
    var peerNodes := Keys(SocketNode, peers);
    if local !in credentialNodes then Err(LocalMissing)
    else if peers == [] then (if |credentialNodes| != 1 then Err(ForeignWithoutPeers) else Ok(()))
    else if !(peerNodes <= credentialNodes) then Err(PeerMissing)
    else if !(credentialNodes <= peerNodes) then Err(ForeignCredential)
    else Ok(())
  }

  /** Whether every element of one set is in another, visiting it in any order. */
  method Contained(small: set<nat>, large: set<nat>) returns (r: bool)
    ensures r <==> small <= large
  {
    var rest := small;
    while rest != {}
      invariant rest <= small && small - rest <= large
      decreases |rest|
    {
      var n :| n in rest;
      if n !in large {
        assert n in small;
        return false;
      }
      rest := rest - {n};
    }
    return true;
  }

  method ValidatePeerPolicy(local: nat, peers: seq<Socket>, credentials: seq<Credential>)
    returns (r: Result<(), PeerError>)
    ensures r == PeerPolicy(local, peers, credentials)
  {
    var credentialNodes := Keys(CredentialNode, credentials);
    if local !in credentialNodes {
      return Err(LocalMissing);
    }
    if peers == [] {
      return if |credentialNodes| != 1 then Err(ForeignWithoutPeers) else Ok(());
    }
    var peerNodes := Keys(SocketNode, peers);
    var covered := Contained(peerNodes, credentialNodes);
    if !covered {
      return Err(PeerMissing);
    }
    var known := Contained(credentialNodes, peerNodes);
    if !known {
      return Err(ForeignCredential);
    }
    return Ok(());
  }

  predicate HasCredential(credentials: seq<Credential>, node: nat) {
    exists i :: 0 <= i < |credentials| && CredentialNode(credentials[i]) == node
  }

  /**
    Peer policy is set equality: the local node has a credential and the
    nodes with credentials are exactly the peers, or exactly the local node
    when no peers are configured.
    */
  lemma PeerPolicyIsSetEquality(local: nat, peers: seq<Socket>, credentials: seq<Credential>)
    ensures PeerPolicy(local, peers, credentials).Ok? <==>
            && HasCredential(credentials, local)
            && forall n :: HasCredential(credentials, n) <==>
                           if peers == [] then n == local else HasNode(peers, n)
  {
    var credentialNodes := Keys(CredentialNode, credentials);
    var peerNodes := Keys(SocketNode, peers);
    forall n: nat
      ensures n in credentialNodes <==> HasCredential(credentials, n)
      ensures n in peerNodes <==> HasNode(peers, n)
    {
      KeysMember(CredentialNode, credentials, n);
      KeysMember(SocketNode, peers, n);
    }
    if peers == [] {
      SingletonSize(credentialNodes, local);
    } else {
      assert credentialNodes == peerNodes <==> forall n :: n in credentialNodes <==> n in peerNodes;
    }
  }

  lemma SingletonSize(s: set<nat>, x: nat)
    ensures x in s ==> (|s| == 1 <==> s == {x})
  {
    if x in s {
      assert s == {x} + (s - {x});
      assert |s| == 1 + |s - {x}|;
    }
  }
}
