/**
  Startup of a frontend against a control plane that may not be ready: the
  loop repeats an attempt until it succeeds or fails for good. Attempt
  outcomes and the elapsed-time clock are an arbitrary environment.
  */
module StartupRetry {
  import opened Common
  import opened Settings
  import opened ServerConfig
  import opened ConfigProperties
  import opened SocketMaps
  import opened LeaseExpiry

  const MIN_DELAY_MS: nat := 50
  const MAX_DELAY_MS: nat := 1_000
  const MAX_ATTEMPTS: nat := 0xFFFF_FFFF
  const TWO_TO_64: nat := 0x1_0000_0000_0000_0000
  const CLOCK_SKEW_BUDGET_MS: nat := 1_000

  datatype Attempt<+C> = Ready(clusters: C) | Retryable | Permanent

  function Clamp(ms: nat): (r: nat)
    ensures MIN_DELAY_MS <= r <= MAX_DELAY_MS
    ensures MIN_DELAY_MS <= ms <= MAX_DELAY_MS ==> r == ms
    ensures ms < MIN_DELAY_MS ==> r == MIN_DELAY_MS
    ensures MAX_DELAY_MS < ms ==> r == MAX_DELAY_MS
  {
    var atLeast := if ms < MIN_DELAY_MS then MIN_DELAY_MS else ms;
    if atLeast > MAX_DELAY_MS then MAX_DELAY_MS else atLeast
  }

  function SaturatingIncrement(n: nat): nat {
    if n < MAX_ATTEMPTS then n + 1 else MAX_ATTEMPTS
  }

  /** How many attempts ask to be repeated before the first decisive one. */
  function Repeats<C>(attempts: seq<Attempt<C>>): (n: nat)
    ensures n <= |attempts|
    ensures n < |attempts| ==> !attempts[n].Retryable?
    ensures forall i :: 0 <= i < n ==> attempts[i].Retryable?
  {
    if attempts == [] || !attempts[0].Retryable? then 0 else 1 + Repeats(attempts[1..])
  }

  /** Which waits are announced: the first, and every tenth by the counter. */
  predicate Announced(attempt: nat) {
    attempt == 1 || attempt % 10 == 0
  }

  /**
    The times at which the first n retryable attempts are announced; the
    attempt counter saturates.
    */
  function Announcements(elapsed: seq<nat>, n: nat): seq<nat>
    requires n <= |elapsed|
  {
    if n == 0 then []
    else Announcements(elapsed, n - 1)
         + if Announced(if n < MAX_ATTEMPTS then n else MAX_ATTEMPTS) then [elapsed[n - 1]] else []
  }

  /**
    Startup of a frontend, over a prefix of the environment's answers. Without
    a control plane the local attempt decides at once. With one, result and
    waits are functions of the outcomes alone; the elapsed-time clock is read
    only for announcements. A prefix without a decisive answer leaves the
    loop undecided.
    */
  method RetryStartup<C>(attached: bool, local: Option<C>, refreshMs: nat, attempts: seq<Attempt<C>>, elapsed: seq<nat>)
    returns (result: Option<Attempt<C>>, waits: seq<nat>, announced: seq<nat>)
    requires |elapsed| == |attempts|
    ensures !attached ==> waits == [] && announced == []
                          && result == Some(if local.Some? then Ready(local.value) else Permanent)
    ensures attached ==>
              && result == (if Repeats(attempts) < |attempts| then Some(attempts[Repeats(attempts)]) else None)
              && |waits| == Repeats(attempts) && (forall i :: 0 <= i < |waits| ==> waits[i] == Clamp(refreshMs))
              && announced == Announcements(elapsed, Repeats(attempts))
  {
    if !attached {
      return Some(if local.Some? then Ready(local.value) else Permanent), [], [];
    }
    var delay := Clamp(refreshMs);
    var counter, used := 0, 0;
    waits, announced := [], [];
    while used < |attempts|
      invariant used <= |attempts|
      invariant forall i :: 0 <= i < used ==> attempts[i].Retryable?
      invariant |waits| == used && forall i :: 0 <= i < |waits| ==> waits[i] == delay
      invariant counter == if used < MAX_ATTEMPTS then used else MAX_ATTEMPTS
      invariant announced == Announcements(elapsed, used)
    {
      counter := SaturatingIncrement(counter);
      match attempts[used] {
        case Retryable =>
          if Announced(counter) {
            announced := announced + [elapsed[used]];
          }
          waits := waits + [delay];
          used := used + 1;
        case decided =>
          assert used == Repeats(attempts);
          return Some(decided), waits, announced;
      }
    }
    assert used == Repeats(attempts);
    result := None;
  }

  lemma {:induction false} RepeatsExtend<C>(attempts: seq<Attempt<C>>, more: seq<Attempt<C>>)
    ensures Repeats(attempts + more) ==
            if Repeats(attempts) < |attempts| then Repeats(attempts) else |attempts| + Repeats(more)
  {
    if attempts == [] {
      assert attempts + more == more;
    } else {
      assert (attempts + more)[1..] == attempts[1..] + more;
      RepeatsExtend(attempts[1..], more);
    }
  }

  // --------------------------------------------------- heartbeat interval

  /** The jittered heartbeat interval of a storage node, with wrapping arithmetic. */
  function HeartbeatIntervalMs(nodeId: nat, leaseMs: nat, completed: nat): Option<nat> {
    if leaseMs < MIN_HEARTBEAT_LEASE_MS then None
    else
      var third := (leaseMs - CLOCK_SKEW_BUDGET_MS) / 3;
      var maximum := if third < HEARTBEAT_MAX_INTERVAL_MS then third else HEARTBEAT_MAX_INTERVAL_MS;
      var seed := ((nodeId * 0x9E37_79B9_7F4A_7C15) % TWO_TO_64
                   + (completed * 0xBF58_476D_1CE4_E5B9) % TWO_TO_64) % TWO_TO_64;
      var interval := maximum * (75 + seed % 26) / 100;
      Some(if interval < 1 then 1 else interval)
  }

  /**
    Whatever the node and the attempt, an accepted lease leaves at least three
    heartbeats before it would lapse, even after the clock-skew budget.
    */
  lemma HeartbeatsFitLease(nodeId: nat, leaseMs: nat, completed: nat)
    requires MIN_HEARTBEAT_LEASE_MS <= leaseMs
    ensures HeartbeatIntervalMs(nodeId, leaseMs, completed).Some?
    ensures var interval := HeartbeatIntervalMs(nodeId, leaseMs, completed).value;
            && 1 <= interval <= HEARTBEAT_MAX_INTERVAL_MS
            && 3 * interval + CLOCK_SKEW_BUDGET_MS <= leaseMs
            && 249 <= interval
  {
    var third := (leaseMs - CLOCK_SKEW_BUDGET_MS) / 3;
    var maximum := if third < HEARTBEAT_MAX_INTERVAL_MS then third else HEARTBEAT_MAX_INTERVAL_MS;
    var seed := ((nodeId * 0x9E37_79B9_7F4A_7C15) % TWO_TO_64
                 + (completed * 0xBF58_476D_1CE4_E5B9) % TWO_TO_64) % TWO_TO_64;
    JitterBounds(maximum, 75 + seed % 26);
  }

  lemma JitterBounds(maximum: nat, percent: nat)
    requires 333 <= maximum && 75 <= percent <= 100
    ensures 249 <= maximum * percent / 100 <= maximum
  {
    assert maximum * 75 <= maximum * percent <= maximum * 100;
  }

  function StorageNodeRetryDelay(storageNodeId: Option<nat>, leaseMs: nat): Option<nat> {
    match HeartbeatIntervalMs(if storageNodeId.Some? then storageNodeId.value else 0, leaseMs, 0)
    case None => None
    case Some(interval) => Some(Clamp(interval))
  }

  /**
    What startup expects of any accepted configuration holds: a storage node
    has a retry schedule, and a control plane has its two paths.
    */
  lemma StartupExpectationsHold(env: Environment, resolve: Resolver, testBuild: bool)
    requires FromLookup(env, resolve, testBuild).Accepted?
    ensures var c := FromLookup(env, resolve, testBuild).value;
            && c.timing.heartbeatLeaseMs <= MAX_U64
            && StorageNodeRetryDelay(c.sizes.storageNodeId, c.timing.heartbeatLeaseMs).Some?
            && 3 * StorageNodeRetryDelay(c.sizes.storageNodeId, c.timing.heartbeatLeaseMs).value + CLOCK_SKEW_BUDGET_MS
               <= c.timing.heartbeatLeaseMs
            && (c.role.ControlPlane? ==> c.plain.statePath.Some? && c.plain.socketPath.Some?)
  {
    AcceptedIsSound(env, resolve, testBuild);
    var c := FromLookup(env, resolve, testBuild).value;
    var node := if c.sizes.storageNodeId.Some? then c.sizes.storageNodeId.value else 0;
    HeartbeatsFitLease(node, c.timing.heartbeatLeaseMs, 0);
  }
}
