/** The actuator side of the robot. The `MoveSteering` pair of motors and
    the gyro's `reset` are not modelled as hardware: every call the
    controller makes is appended to a command log, in order. */
module Drive {

  datatype Command =
    | ResetGyro                          // gyro_sensor.reset()
    | Steer(steering: real, speed: int)  // move_steering.on(steering=..., speed=...)
    | Stop                               // move_steering.off()

  /** `max(lo, min(hi, x))`: the steering value handed to the motors
      never leaves [lo, hi], and a value already inside is passed on. */
  function Clamp(x: real, lo: real, hi: real): (r: real)
    requires lo <= hi
    ensures lo <= r <= hi
    ensures lo <= x <= hi ==> r == x
    ensures x < lo ==> r == lo
    ensures hi < x ==> r == hi
  {
    if x < lo then lo else if hi < x then hi else x
  }

  /** What one polled gyro-bounded rotation loop ends with. */
  datatype TurnOutcome =
    | Reached      // the gyro passed the bound
    | Reacquired   // a colour check inside the loop succeeded
    | Stalled      // the gyro stream ran out before either happened

  /** `gyro_sensor.angle > -limit` for a counter-clockwise turn,
      `gyro_sensor.angle < limit` for a clockwise one: the loop goes on. */
  predicate StillTurning(angle: int, limit: int, counterClockwise: bool) {
    if counterClockwise then angle > -limit else angle < limit
  }

  /** The result of polling the gyro from position `polls` onwards:
      how the loop ended, the percept afterwards, and the number of gyro
      readings consumed in the whole run. */
  datatype Turn<P> = Turn(outcome: TurnOutcome, percept: P, polls: nat)

  /** How `oscillated_search` returns: the line was found again, every
      angle was swept without finding it, or the gyro stream ran out. */
  datatype SearchOutcome = Found | Exhausted | SearchStalled

  /** How a bounded run of the main loop ends: the completion flag was
      set and the motors stopped, the gyro stream ran out inside a
      rotation, or the tick budget was used up. */
  datatype RunOutcome = Completed | RunStalled | OutOfFuel

  /** One gyro-bounded rotation loop, for any colour check: from the
      `polls`-th gyro reading on, poll the gyro; stop once it is past the
      bound; otherwise run `check` and stop if it succeeds. */
  function Rotation<P>(gyro: seq<int>, limit: int, counterClockwise: bool, check: P -> (bool, P),
                       p: P, polls: nat): (t: Turn<P>)
    requires polls <= |gyro|
    ensures polls <= t.polls <= |gyro|
    ensures t.outcome == Stalled ==> t.polls == |gyro|
    decreases |gyro| - polls
  {
    if polls == |gyro| then Turn(Stalled, p, polls)
    else if !StillTurning(gyro[polls], limit, counterClockwise) then Turn(Reached, p, polls + 1)
    else
      var (found, q) := check(p);
      if found then Turn(Reacquired, q, polls + 1)
      else Rotation(gyro, limit, counterClockwise, check, q, polls + 1)
  }

  /** A rotation that stalls polled every remaining gyro reading, and
      each was still short of the bound. */
  lemma {:induction false} RotationStallsShortOfBound<P>(gyro: seq<int>, limit: int, counterClockwise: bool,
                                                         check: P -> (bool, P), p: P, polls: nat)
    requires polls <= |gyro|
    ensures var t := Rotation(gyro, limit, counterClockwise, check, p, polls);
      t.outcome == Stalled ==> forall k :: polls <= k < |gyro| ==> StillTurning(gyro[k], limit, counterClockwise)
    decreases |gyro| - polls
  {
    if polls < |gyro| && StillTurning(gyro[polls], limit, counterClockwise) && !check(p).0 {
      RotationStallsShortOfBound(gyro, limit, counterClockwise, check, check(p).1, polls + 1);
    }
  }

  /** A rotation that does not stall ends on the first gyro reading past
      the bound or on a successful check made while still short of it;
      every earlier reading was short of the bound. */
  lemma {:induction false} RotationStopsAtBound<P>(gyro: seq<int>, limit: int, counterClockwise: bool,
                                                   check: P -> (bool, P), p: P, polls: nat)
    requires polls <= |gyro|
    ensures var t := Rotation(gyro, limit, counterClockwise, check, p, polls);
      t.outcome != Stalled ==>
        polls < t.polls &&
        (t.outcome == Reached <==> !StillTurning(gyro[t.polls - 1], limit, counterClockwise)) &&
        (forall k :: polls <= k < t.polls - 1 ==> StillTurning(gyro[k], limit, counterClockwise))
    decreases |gyro| - polls
  {
    if polls < |gyro| && StillTurning(gyro[polls], limit, counterClockwise) && !check(p).0 {
      RotationStopsAtBound(gyro, limit, counterClockwise, check, check(p).1, polls + 1);
    }
  }

  /** The state after `n` checks of a rotation, each made on the state
      the previous one left. */
  function Iter<P>(check: P -> (bool, P), p: P, n: nat): P
    decreases n
  {
    if n == 0 then p else Iter(check, check(p).1, n - 1)
  }

  /** The verdicts of the checks a rotation makes, in order: one for each
      gyro reading short of the bound, until a check succeeds. */
  function Verdicts<P>(gyro: seq<int>, limit: int, counterClockwise: bool, check: P -> (bool, P),
                       p: P, polls: nat): seq<bool>
    requires polls <= |gyro|
    decreases |gyro| - polls
  {
    if polls == |gyro| || !StillTurning(gyro[polls], limit, counterClockwise) then []
    else
      var (found, q) := check(p);
      if found then [true] else [false] + Verdicts(gyro, limit, counterClockwise, check, q, polls + 1)
  }

  /** A rotation stops at its first successful check: the `j`-th verdict
      is the check made on the state the `j` failed checks before it left;
      every verdict but the last is a failure; the rotation ends
      `Reacquired` exactly when the last one is a success, and then with
      that check's state, otherwise with the state after all its checks.
      Every check costs one gyro reading, and reaching the bound one more. */
  lemma {:induction false} RotationFirstSuccess<P>(gyro: seq<int>, limit: int, counterClockwise: bool,
                                                   check: P -> (bool, P), p: P, polls: nat)
    requires polls <= |gyro|
    ensures var t := Rotation(gyro, limit, counterClockwise, check, p, polls);
      var v := Verdicts(gyro, limit, counterClockwise, check, p, polls);
      (forall j :: 0 <= j < |v| ==> v[j] == check(Iter(check, p, j)).0) &&
      (forall j :: 0 <= j < |v| - 1 ==> !v[j]) &&
      (t.outcome == Reacquired <==> |v| > 0 && v[|v| - 1]) &&
      (t.outcome == Reacquired ==> t.percept == check(Iter(check, p, |v| - 1)).1) &&
      (t.outcome != Reacquired ==> t.percept == Iter(check, p, |v|)) &&
      t.polls == polls + |v| + (if t.outcome == Reached then 1 else 0)
    decreases |gyro| - polls
  {
    if polls < |gyro| && StillTurning(gyro[polls], limit, counterClockwise) && !check(p).0 {
      var q := check(p).1;
      RotationFirstSuccess(gyro, limit, counterClockwise, check, q, polls + 1);
      var v := Verdicts(gyro, limit, counterClockwise, check, p, polls);
      var w := Verdicts(gyro, limit, counterClockwise, check, q, polls + 1);
      assert v == [false] + w;
      forall j | 0 <= j < |v|
        ensures v[j] == check(Iter(check, p, j)).0
      {
        if j > 0 {
          assert Iter(check, p, j) == Iter(check, q, j - 1);
        }
      }
      assert Iter(check, p, |v|) == Iter(check, q, |w|);
      if |w| > 0 {
        assert Iter(check, p, |v| - 1) == Iter(check, q, |w| - 1);
      }
    }
  }

  /** No verdict but possibly the last one is a success. */
  predicate OnlyLastMaySucceed(v: seq<bool>) {
    forall j :: 0 <= j < |v| - 1 ==> !v[j]
  }

  /** The last verdict is a success. */
  predicate EndsInSuccess(v: seq<bool>) {
    |v| > 0 && v[|v| - 1]
  }

  /** No verdict is a success. */
  predicate NoSuccess(v: seq<bool>) {
    forall j :: 0 <= j < |v| ==> !v[j]
  }

  /** Checks that stop at the first success and did not end in one all
      failed. */
  lemma NoSuccessWithoutLast(v: seq<bool>)
    requires OnlyLastMaySucceed(v) && !EndsInSuccess(v)
    ensures NoSuccess(v)
  {
    forall j | 0 <= j < |v|
      ensures !v[j]
    {
      if j < |v| - 1 {
        assert !v[j];
      }
    }
  }

  /** Failures followed by more verdicts: the checks after them decide. */
  lemma AfterFailures(failures: seq<bool>, rest: seq<bool>)
    requires NoSuccess(failures)
    ensures OnlyLastMaySucceed(failures + rest) <==> OnlyLastMaySucceed(rest)
    ensures EndsInSuccess(failures + rest) <==> EndsInSuccess(rest)
    ensures NoSuccess(failures + rest) <==> NoSuccess(rest)
  {
    var v := failures + rest;
    if OnlyLastMaySucceed(rest) {
      forall j | 0 <= j < |v| - 1
        ensures !v[j]
      {
        if j >= |failures| {
          assert v[j] == rest[j - |failures|];
        }
      }
    }
    if OnlyLastMaySucceed(v) {
      forall j | 0 <= j < |rest| - 1
        ensures !rest[j]
      {
        assert rest[j] == v[j + |failures|];
      }
    }
    if NoSuccess(rest) {
      forall j | 0 <= j < |v|
        ensures !v[j]
      {
        if j >= |failures| {
          assert v[j] == rest[j - |failures|];
        }
      }
    }
    if NoSuccess(v) {
      forall j | 0 <= j < |rest|
        ensures !rest[j]
      {
        assert rest[j] == v[j + |failures|];
      }
    }
  }

  /** The commands that open the three rotations of a sweep at `speed`:
      a gyro reset and a spin, after stopping the previous rotation. */
  function SwingOut(speed: int): seq<Command> {
    [ResetGyro, Steer(-100.0, speed)]
  }

  function SwingOver(speed: int): seq<Command> {
    [Stop, ResetGyro, Steer(100.0, speed)]
  }

  function SwingBack(speed: int): seq<Command> {
    [Stop, ResetGyro, Steer(-100.0, speed)]
  }

  /** The command log `log` followed by one full sweep: three rotations,
      each opened by a gyro reset and a spin and closed by a stop. */
  function Swept(log: seq<Command>, speed: int): seq<Command> {
    log + SwingOut(speed) + SwingOver(speed) + SwingBack(speed) + [Stop]
  }

  /** The command log `log` followed by `n` full sweeps. */
  function Sweeps(log: seq<Command>, speed: int, n: nat): seq<Command>
    decreases n
  {
    if n == 0 then log else Sweeps(Swept(log, speed), speed, n - 1)
  }

  /** How a sweep, or a whole search, ends: its outcome, the sensing state
      and gyro position afterwards, and the command log. */
  datatype Search<S> = Search(outcome: SearchOutcome, state: S, polls: nat, log: seq<Command>)

  /** How a bounded run of the main loop ends: its outcome, the globals
      afterwards, and the number of ticks completed. */
  /** The motors were last told to stop. */
  predicate EndsWithStop(log: seq<Command>) {
    |log| > 0 && log[|log| - 1] == Stop
  }

  datatype RunResult<G> = RunResult(outcome: RunOutcome, globals: G, ticks: nat)
}
