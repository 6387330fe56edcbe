/**
  The lease-expiry loop of the replicated control plane. Each turn samples
  whether this process is the serving authority and what time it is, and may
  ask the authority to expire heartbeat leases. The authority can answer that
  a predecessor's leases are still fenced; the loop then remembers how long it
  must not ask again. Clock and authority are an arbitrary environment.
  */
module LeaseExpiry {
  import opened Common

  const HEARTBEAT_MAX_INTERVAL_MS: nat := 1_000
  const RPC_IO_TIMEOUT_MS: nat := 1_000

  datatype ControlPlaneError =
    | PreviousLeaseGrantHorizonStillActive(fencedUntilMs: nat)
    | AuthorityClockSampleWindowTooWide
    | CommittedTimestampRegression
    | CommittedTimestampTooFarAhead
    | AuthorityClockLeadershipChanged
    | AuthorityClockSourceUnavailable
    | AuthorityClockNotEstablished
    | ForwardToLeader
    | QuorumNotEnough
    | AuthorityNotServing
    | AuthorityClockNotLocalServingRaftAuthority
    | LeaseGrantHorizonAuthorityTermMismatch
    | LeaseDeadlineOverflow
    | OtherError

  /** Errors that resolve themselves once the clock catches up. */
  predicate IsClockWait(e: ControlPlaneError) {
    || e.CommittedTimestampRegression? || e.CommittedTimestampTooFarAhead?
    || e.PreviousLeaseGrantHorizonStillActive? || e.AuthorityClockLeadershipChanged?
    || e.AuthorityClockSourceUnavailable? || e.AuthorityClockNotEstablished?
    || e.AuthorityClockSampleWindowTooWide?
  }

  predicate IsLeaderRouting(e: ControlPlaneError) {
    || e.ForwardToLeader? || e.QuorumNotEnough?
    || e.AuthorityNotServing? || e.AuthorityClockNotLocalServingRaftAuthority?
  }

  predicate IsTransient(e: ControlPlaneError) {
    IsLeaderRouting(e) || e.LeaseGrantHorizonAuthorityTermMismatch?
  }

  function CheckedAdd(a: nat, b: nat): Option<nat> {
    if a + b <= MAX_U64 then Some(a + b) else None
  }

  /** The heartbeat interval is added first and then the RPC timeout; either sum can overflow. */
  function RenewalNotBefore(fencedUntilMs: nat): Result<nat, ControlPlaneError> {
    match CheckedAdd(fencedUntilMs, HEARTBEAT_MAX_INTERVAL_MS)
    case None => Err(LeaseDeadlineOverflow)
    case Some(deadline) =>
      match CheckedAdd(deadline, RPC_IO_TIMEOUT_MS)
      case None => Err(LeaseDeadlineOverflow)
      case Some(r) => Ok(r)
  }

  /** When the holders of fenced leases have had time to renew. */
  function Horizon(fencedUntilMs: nat): nat {
    fencedUntilMs + HEARTBEAT_MAX_INTERVAL_MS + RPC_IO_TIMEOUT_MS
  }

  /** Whether several nodes share the authority, and whether their map is static. */
  datatype Mode = Mode(multiNode: bool, staticMap: bool)

  /** What the environment answers in one turn, asked for or not. */
  datatype Turn = Turn(
    serving: Result<bool, ControlPlaneError>,
    nowMs: nat,
    bootstrap: Result<(), ControlPlaneError>,
    expiry: Result<nat, ControlPlaneError>,
    invalidation: Result<(), ControlPlaneError>)

  datatype State = Running(notBefore: Option<nat>) | Exited

  predicate Serving(mode: Mode, t: Turn) {
    !mode.multiNode || t.serving == Ok(true)
  }

  predicate HoldsBack(notBefore: Option<nat>, nowMs: nat) {
    notBefore.Some? && nowMs < notBefore.value
  }

  /** Whether the turn asks the authority to expire leases. */
  predicate Attempts(mode: Mode, s: State, t: Turn) {
    && s.Running?
    && Serving(mode, t)
    && (mode.multiNode && !mode.staticMap ==> t.bootstrap.Ok?)
    && !HoldsBack(s.notBefore, t.nowMs)
  }

  /** The fence learnt from an attempt, if that is how it was refused. */
  function FenceLearnt(mode: Mode, s: State, t: Turn): Option<nat> {
    if Attempts(mode, s, t) && t.expiry.Err? && t.expiry.error.PreviousLeaseGrantHorizonStillActive?
    then Some(t.expiry.error.fencedUntilMs) else None
  }

  predicate Fatal(mode: Mode, s: State, t: Turn) {
    || (mode.multiNode && t.serving.Err?)
    || (mode.multiNode && t.serving == Ok(true) && !mode.staticMap && t.bootstrap.Err?)
    || t.invalidation.Err?
    || (Attempts(mode, s, t) && t.expiry.Err? && !IsClockWait(t.expiry.error) && !IsTransient(t.expiry.error))
    || (FenceLearnt(mode, s, t).Some? && RenewalNotBefore(FenceLearnt(mode, s, t).value).Err?)
  }

  function Later(notBefore: Option<nat>, bound: nat): nat {
    if notBefore.Some? && bound <= notBefore.value then notBefore.value else bound
  }

  function Next(mode: Mode, s: State, t: Turn): State {
    if s.Exited? || Fatal(mode, s, t) then Exited
    else match FenceLearnt(mode, s, t)
    case None => s
    case Some(fence) => Running(Some(Later(s.notBefore, Horizon(fence))))
  }

  /** The state before turn `i` of a run. */
  function StateAt(mode: Mode, turns: seq<Turn>, i: nat): State
    requires i <= |turns|
  {
    if i == 0 then Running(None) else Next(mode, StateAt(mode, turns, i - 1), turns[i - 1])
  }

  predicate AttemptsAt(mode: Mode, turns: seq<Turn>, i: nat)
    requires i < |turns|
  {
    Attempts(mode, StateAt(mode, turns, i), turns[i])
  }

  function FenceAt(mode: Mode, turns: seq<Turn>, i: nat): Option<nat>
    requires i < |turns|
  {
    FenceLearnt(mode, StateAt(mode, turns, i), turns[i])
  }

  // ------------------------------------------------------------------ the loop

  /** One turn of the loop body; the result says whether to go on. */
  method Iterate(mode: Mode, notBefore: Option<nat>, t: Turn)
    returns (running: bool, next: Option<nat>, attempted: bool)
    ensures attempted == Attempts(mode, Running(notBefore), t)
    ensures Next(mode, Running(notBefore), t) == if running then Running(next) else Exited
  {
    next, attempted := notBefore, false;
    if mode.multiNode && t.serving.Err? {
      return false, next, attempted;
    }
    var serving := if mode.multiNode then t.serving.value else true;
    if serving {
      if mode.multiNode && !mode.staticMap && t.bootstrap.Err? {
        return false, next, attempted;
      }
      attempted := !(notBefore.Some? && t.nowMs < notBefore.value);
    }
    if t.invalidation.Err? {
      return false, next, attempted;
    }
    if attempted && t.expiry.Err? {
      match t.expiry.error {
        case AuthorityClockSampleWindowTooWide =>
        case PreviousLeaseGrantHorizonStillActive(fence) =>
          var renewal := RenewalNotBefore(fence);
          if renewal.Err? {
            return false, next, attempted;
          }
          next := Some(if notBefore.Some? && renewal.value <= notBefore.value
                       then notBefore.value else renewal.value);
        case error =>
          if !IsTransient(error) && !IsClockWait(error) {
            return false, next, attempted;
          }
      }
    }
    running := true;
  }

  /** The loop over the turns of a run: at which turns it attempts an expiry. */
  method RunExpiryLoop(mode: Mode, turns: seq<Turn>) returns (attempts: seq<bool>, final: State)
    ensures |attempts| == |turns| && final == StateAt(mode, turns, |turns|)
    ensures forall i :: 0 <= i < |turns| ==> attempts[i] == AttemptsAt(mode, turns, i)
  {
    var notBefore: Option<nat> := None;
    var running := true;
    attempts := [];
    for i := 0 to |turns|
      invariant StateAt(mode, turns, i) == if running then Running(notBefore) else Exited
      invariant |attempts| == i
      invariant forall k :: 0 <= k < i ==> attempts[k] == AttemptsAt(mode, turns, k)
    {
      var attempted := false;
      if running {
        running, notBefore, attempted := Iterate(mode, notBefore, turns[i]);
      }
      attempts := attempts + [attempted];
    }
    final := if running then Running(notBefore) else Exited;
  }

  // ---------------------------------------------------------------- properties

  /** The stored bound covers everything learnt so far and nothing else. */
  ghost predicate BoundIsMaximum(mode: Mode, turns: seq<Turn>, i: nat)
    requires i <= |turns|
  {
    var s := StateAt(mode, turns, i);
    s.Running? ==>
      && (forall k :: 0 <= k < i && FenceAt(mode, turns, k).Some? ==>
            s.notBefore.Some? && Horizon(FenceAt(mode, turns, k).value) <= s.notBefore.value)
      && (s.notBefore.Some? ==>
            exists k :: 0 <= k < i && FenceAt(mode, turns, k).Some?
                        && Horizon(FenceAt(mode, turns, k).value) == s.notBefore.value)
  }

  lemma {:induction false} BoundStaysMaximum(mode: Mode, turns: seq<Turn>, i: nat)
    requires i <= |turns|
    ensures BoundIsMaximum(mode, turns, i)
  {
    if i > 0 {
      BoundStaysMaximum(mode, turns, i - 1);
      var s, s' := StateAt(mode, turns, i - 1), StateAt(mode, turns, i);
      if s'.Running? && s'.notBefore.Some? {
        if FenceAt(mode, turns, i - 1).Some? && s'.notBefore.value == Horizon(FenceAt(mode, turns, i - 1).value) {
          assert 0 <= i - 1 < i;
        } else {
          var k :| 0 <= k < i - 1 && FenceAt(mode, turns, k).Some?
                   && Horizon(FenceAt(mode, turns, k).value) == s.notBefore.value;
          assert 0 <= k < i;
        }
      }
    }
  }

  lemma {:induction false} RunningBackwards(mode: Mode, turns: seq<Turn>, i: nat, j: nat)
    requires i <= j <= |turns| && StateAt(mode, turns, j).Running?
    ensures StateAt(mode, turns, i).Running?
    decreases j - i
  {
    if i < j {
      RunningBackwards(mode, turns, i, j - 1);
    }
  }

  /** The bound never decreases while the loop runs. */
  lemma {:induction false} BoundNeverDecreases(mode: Mode, turns: seq<Turn>, i: nat, j: nat)
    requires i <= j <= |turns| && StateAt(mode, turns, j).Running?
    ensures StateAt(mode, turns, i).Running?
    ensures StateAt(mode, turns, i).notBefore.Some? ==>
              && StateAt(mode, turns, j).notBefore.Some?
              && StateAt(mode, turns, i).notBefore.value <= StateAt(mode, turns, j).notBefore.value
    decreases j - i
  {
    if i < j {
      BoundNeverDecreases(mode, turns, i, j - 1);
    }
  }

  /**
    Run safety: after a fence is reported no later turn attempts an expiry at
    a sampled time before its horizon, however the clock moves.
    */
  lemma NoEarlyAttempt(mode: Mode, turns: seq<Turn>, i: nat, j: nat)
    requires i < j < |turns| && FenceAt(mode, turns, i).Some? && AttemptsAt(mode, turns, j)
    ensures Horizon(FenceAt(mode, turns, i).value) <= turns[j].nowMs
  {
    BoundStaysMaximum(mode, turns, j);
  }

  /**
    Exactly when a running loop attempts an expiry: it serves, it could
    bootstrap, and every horizon learnt so far has passed.
    */
  lemma AttemptsExactlyWhenSafe(mode: Mode, turns: seq<Turn>, j: nat)
    requires j < |turns| && StateAt(mode, turns, j).Running?
    ensures AttemptsAt(mode, turns, j) <==>
            && Serving(mode, turns[j])
            && (mode.multiNode && !mode.staticMap ==> turns[j].bootstrap.Ok?)
            && forall i :: 0 <= i < j && FenceAt(mode, turns, i).Some? ==>
                 Horizon(FenceAt(mode, turns, i).value) <= turns[j].nowMs
  {
    BoundStaysMaximum(mode, turns, j);
    var s := StateAt(mode, turns, j);
    if HoldsBack(s.notBefore, turns[j].nowMs) {
      var k :| 0 <= k < j && FenceAt(mode, turns, k).Some?
               && Horizon(FenceAt(mode, turns, k).value) == s.notBefore.value;
      assert turns[j].nowMs < Horizon(FenceAt(mode, turns, k).value);
    }
  }

  /** No turn attempts while another node holds a shared authority. */
  lemma NoAttemptUnlessServing(mode: Mode, turns: seq<Turn>, j: nat)
    requires j < |turns| && mode.multiNode && AttemptsAt(mode, turns, j)
    ensures turns[j].serving == Ok(true)
  {
  }

  /** The horizon is computed without wrap-around or the loop stops. */
  lemma HorizonIsExact(fence: nat)
    ensures RenewalNotBefore(fence) ==
            if Horizon(fence) <= MAX_U64 then Ok(Horizon(fence)) else Err(LeaseDeadlineOverflow)
  {
  }

  /** While the loop runs every stored bound fits the clock's width. */
  lemma {:induction false} BoundFitsClock(mode: Mode, turns: seq<Turn>, i: nat)
    requires i <= |turns| && StateAt(mode, turns, i).Running?
    ensures StateAt(mode, turns, i).notBefore.Some? ==> StateAt(mode, turns, i).notBefore.value <= MAX_U64
  {
    if i > 0 {
      RunningBackwards(mode, turns, i - 1, i);
      BoundFitsClock(mode, turns, i - 1);
      if FenceAt(mode, turns, i - 1).Some? {
        HorizonIsExact(FenceAt(mode, turns, i - 1).value);
      }
    }
  }
}
