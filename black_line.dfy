/** The black-line follower of `myrobot_3/main.py`. Its colour predicates
    read one fresh value each and use no history window; the sample
    buffer is still kept by `get_color`.

    `check_obstacles` is opaque here. Its only effect that the line
    follower can observe is the colour readings that its box manoeuvre
    takes while it waits for the line (`box_skip` ends in a loop on
    `is_black`). It is modelled as a second input: the `k`-th call of
    `check_obstacles` in the run consumes `detours(k)` colour readings
    through `get_color`, zero when no obstacle is in range. It never
    touches `is_line_followed` or `is_program_complete`. */
module BlackLine {
  import opened SampleBuffer
  import opened Drive

  // Colour thresholds
  const BlackMax := 15
  const WhiteMin := 50

  // Movement constants
  const ForwardSpeed := 40
  const TurnGain := 0.1
  const OscillationSpeed := 25
  const SearchAngles: seq<int> := [10, 30, 90, 120]

  /** `(11 + 90) / 2`: the reflectance half-way between the line and the
      floor, the target of the steering law. */
  const Midpoint := 50.5

  /** The part of the controller state that the colour checks and the
      obstacle checks touch: the buffer, the readings taken, and the
      number of `check_obstacles` calls made. */
  datatype Scene = Scene(percept: Percept, checks: nat)

  /** `n` calls of `get_color`. */
  function Samples(readings: nat -> int, p: Percept, n: nat): (q: Percept)
    ensures q.cursor == p.cursor + n
  {
    if n == 0 then p else Sample(readings, Samples(readings, p, n - 1))
  }

  /** `check_obstacles`: the readings of its manoeuvre, if any. */
  function Detour(readings: nat -> int, detours: nat -> nat, s: Scene): (d: Scene)
    ensures d.checks == s.checks + 1
    ensures d.percept.cursor == s.percept.cursor + detours(s.checks)
  {
    Scene(Samples(readings, s.percept, detours(s.checks)), s.checks + 1)
  }

  /** `is_black`: one fresh reading, at most `BLACK_MAX`. */
  function BlackProbe(readings: nat -> int, p: Percept): (r: Probe)
    ensures r.after == Sample(readings, p)
    ensures r.verdict <==> readings(p.cursor) <= BlackMax
  {
    Probe(readings(p.cursor) <= BlackMax, Sample(readings, p))
  }

  /** `is_white`: one fresh reading, at least `WHITE_MIN`. */
  function WhiteProbe(readings: nat -> int, p: Percept): (r: Probe)
    ensures r.after == Sample(readings, p)
    ensures r.verdict <==> readings(p.cursor) >= WhiteMin
  {
    Probe(readings(p.cursor) >= WhiteMin, Sample(readings, p))
  }

  /** The steering law `max(-80, min(80, -(value - 50.5) * TURN_GAIN))`:
      steer towards the line in proportion to the error. For readings in
      the sensor's range 0..100 the clamp never binds. */
  function Steering(value: int): (s: real)
    ensures -80.0 <= s <= 80.0
    ensures -749 <= value <= 850 ==> s == (Midpoint - value as real) / 10.0
    ensures value < -749 ==> s == 80.0
    ensures value > 850 ==> s == -80.0
    ensures 0 <= value <= 100 ==> -4.95 <= s <= 5.05
  {
    var error := value as real - Midpoint;
    Clamp(-error * TurnGain, -80.0, 80.0)
  }

  /** The body of a rotation loop of the search: `check_obstacles()`, then
      `is_black()` when `watch` is set. */
  function Step(readings: nat -> int, detours: nat -> nat, watch: bool, s: Scene): (r: (bool, Scene))
    ensures r.1.checks == s.checks + 1
    ensures r.1.percept.cursor == s.percept.cursor + detours(s.checks) + (if watch then 1 else 0)
    ensures r.0 <==> watch && readings(s.percept.cursor + detours(s.checks)) <= BlackMax
  {
    var d := Detour(readings, detours, s);
    if watch then
      var b := BlackProbe(readings, d.percept);
      (b.verdict, Scene(b.after, d.checks))
    else (false, d)
  }

  /** The loop body as a check on the sensing state. */
  function Body(readings: nat -> int, detours: nat -> nat, watch: bool): Scene -> (bool, Scene) {
    (q: Scene) => Step(readings, detours, watch, q)
  }

  /** One gyro-bounded rotation loop of the search, from the `polls`-th
      gyro reading of the run on: poll the gyro; stop once it is past the
      bound; otherwise run the loop body and stop if it found black. */
  function TurnSpec(readings: nat -> int, detours: nat -> nat, gyro: seq<int>, limit: int,
                    counterClockwise: bool, watch: bool, s: Scene, polls: nat): (t: Turn<Scene>)
    requires polls <= |gyro|
    ensures polls <= t.polls <= |gyro|
    ensures t.outcome == Stalled ==> t.polls == |gyro|
    decreases |gyro| - polls
  {
    if polls == |gyro| then Turn(Stalled, s, polls)
    else if !StillTurning(gyro[polls], limit, counterClockwise) then Turn(Reached, s, polls + 1)
    else
      var step := Step(readings, detours, watch, s);
      if step.0 then Turn(Reacquired, step.1, polls + 1)
      else TurnSpec(readings, detours, gyro, limit, counterClockwise, watch, step.1, polls + 1)
  }

  /** One poll of a rotation that is still turning: the loop body runs,
      and the rotation either ends on its verdict or goes on from there. */
  lemma TurnUnfolds(readings: nat -> int, detours: nat -> nat, gyro: seq<int>, limit: int,
                    counterClockwise: bool, watch: bool, s: Scene, polls: nat)
    requires polls < |gyro| && StillTurning(gyro[polls], limit, counterClockwise)
    ensures var step := Step(readings, detours, watch, s);
      TurnSpec(readings, detours, gyro, limit, counterClockwise, watch, s, polls)
      == if step.0 then Turn(Reacquired, step.1, polls + 1)
         else TurnSpec(readings, detours, gyro, limit, counterClockwise, watch, step.1, polls + 1)
  {
  }

  /** A rotation loop of the search is a `Rotation` with its loop body, so
      every property proved of rotations holds of it. */
  lemma {:induction false} TurnIsRotation(readings: nat -> int, detours: nat -> nat, gyro: seq<int>, limit: int,
                                          counterClockwise: bool, watch: bool, s: Scene, polls: nat)
    requires polls <= |gyro|
    ensures TurnSpec(readings, detours, gyro, limit, counterClockwise, watch, s, polls)
         == Rotation(gyro, limit, counterClockwise, Body(readings, detours, watch), s, polls)
    decreases |gyro| - polls
  {
    if polls < |gyro| && StillTurning(gyro[polls], limit, counterClockwise) {
      var step := Step(readings, detours, watch, s);
      if !step.0 {
        TurnIsRotation(readings, detours, gyro, limit, counterClockwise, watch, step.1, polls + 1);
      }
    }
  }

  /** The last reading taken was black. */
  predicate OnBlack(readings: nat -> int, p: Percept) {
    p.cursor > 0 && readings(p.cursor - 1) <= BlackMax
  }

  /** A rotation loop of the search that ends `Reacquired` ended on a
      black reading: the last reading it took is at most `BLACK_MAX`. */
  lemma {:induction false} ReacquiredOnBlack(readings: nat -> int, detours: nat -> nat, gyro: seq<int>, limit: int,
                                             counterClockwise: bool, watch: bool, s: Scene, polls: nat)
    requires polls <= |gyro|
    ensures var t := TurnSpec(readings, detours, gyro, limit, counterClockwise, watch, s, polls);
      t.outcome == Reacquired ==>
        (watch && OnBlack(readings, t.percept.percept))
    decreases |gyro| - polls
  {
    if polls < |gyro| && StillTurning(gyro[polls], limit, counterClockwise) {
      var step := Step(readings, detours, watch, s);
      if !step.0 {
        ReacquiredOnBlack(readings, detours, gyro, limit, counterClockwise, watch, step.1, polls + 1);
      }
    }
  }


  /** One iteration of the angle loop of `oscillated_search`, with the
      command log `log` so far. `Exhausted` means that this angle was
      swept without finding black. */
  function SweepSpec(readings: nat -> int, detours: nat -> nat, gyro: seq<int>, angle: int, s: Scene,
                     polls: nat, log: seq<Command>): (r: Search<Scene>)
    requires polls <= |gyro|
    ensures polls <= r.polls <= |gyro|
    ensures r.outcome == SearchStalled ==> r.polls == |gyro|
    ensures r.outcome == Exhausted ==> r.log == Swept(log, OscillationSpeed)
    ensures log <= r.log
  {
    var out := TurnSpec(readings, detours, gyro, angle, true, true, s, polls);
    if out.outcome != Reached then
      Search(if out.outcome == Reacquired then Found else SearchStalled, out.percept, out.polls, log + SwingOut(OscillationSpeed))
    else
      var over := TurnSpec(readings, detours, gyro, 2 * angle, false, true, out.percept, out.polls);
      if over.outcome != Reached then
        Search(if over.outcome == Reacquired then Found else SearchStalled,
               over.percept, over.polls, log + SwingOut(OscillationSpeed) + SwingOver(OscillationSpeed))
      else
        var back := TurnSpec(readings, detours, gyro, angle, true, false, over.percept, over.polls);
        if back.outcome == Stalled then
          Search(SearchStalled, back.percept, back.polls, log + SwingOut(OscillationSpeed) + SwingOver(OscillationSpeed) + SwingBack(OscillationSpeed))
        else Search(Exhausted, back.percept, back.polls, Swept(log, OscillationSpeed))
  }

  /** The angle loop of `oscillated_search` from the `i`-th angle on. */
  function SweepsFrom(readings: nat -> int, detours: nat -> nat, gyro: seq<int>, i: nat, s: Scene,
                      polls: nat, log: seq<Command>): (r: Search<Scene>)
    requires i <= |SearchAngles| && polls <= |gyro|
    ensures polls <= r.polls <= |gyro|
    decreases |SearchAngles| - i
  {
    if i == |SearchAngles| then Search(Exhausted, s, polls, log)
    else
      var sweep := SweepSpec(readings, detours, gyro, SearchAngles[i], s, polls, log);
      if sweep.outcome != Exhausted then sweep
      else SweepsFrom(readings, detours, gyro, i + 1, sweep.state, sweep.polls, sweep.log)
  }

  /** `oscillated_search`: one obstacle check, then the angle loop. */
  function SearchSpec(readings: nat -> int, detours: nat -> nat, gyro: seq<int>, s: Scene,
                      polls: nat, log: seq<Command>): (r: Search<Scene>)
    requires polls <= |gyro|
    ensures polls <= r.polls <= |gyro|
  {
    SweepsFrom(readings, detours, gyro, 0, Detour(readings, detours, s), polls, log)
  }

  /** The angle loop stalls only when the gyro stream is used up, and
      only ever appends to the command log. */
  lemma {:induction false} SweepsStallAtGyroEnd(readings: nat -> int, detours: nat -> nat, gyro: seq<int>,
                                                i: nat, s: Scene, polls: nat, log: seq<Command>)
    requires i <= |SearchAngles| && polls <= |gyro|
    ensures var r := SweepsFrom(readings, detours, gyro, i, s, polls, log);
      (r.outcome == SearchStalled ==> r.polls == |gyro|) && log <= r.log
    decreases |SearchAngles| - i
  {
    if i < |SearchAngles| {
      var sweep := SweepSpec(readings, detours, gyro, SearchAngles[i], s, polls, log);
      if sweep.outcome == Exhausted {
        SweepsStallAtGyroEnd(readings, detours, gyro, i + 1, sweep.state, sweep.polls, sweep.log);
      }
    }
  }

  /** A search that finds nothing has swept every remaining angle in full;
      it issues no stop of its own after the last sweep. */
  lemma {:induction false} SweepsExhaustedSweepAll(readings: nat -> int, detours: nat -> nat, gyro: seq<int>,
                                                   i: nat, s: Scene, polls: nat, log: seq<Command>)
    requires i <= |SearchAngles| && polls <= |gyro|
    ensures var r := SweepsFrom(readings, detours, gyro, i, s, polls, log);
      r.outcome == Exhausted ==> r.log == Sweeps(log, OscillationSpeed, |SearchAngles| - i)
    decreases |SearchAngles| - i
  {
    if i < |SearchAngles| {
      var sweep := SweepSpec(readings, detours, gyro, SearchAngles[i], s, polls, log);
      if sweep.outcome == Exhausted {
        SweepsExhaustedSweepAll(readings, detours, gyro, i + 1, sweep.state, sweep.polls, sweep.log);
        assert Sweeps(log, OscillationSpeed, |SearchAngles| - i) == Sweeps(Swept(log, OscillationSpeed), OscillationSpeed, |SearchAngles| - (i + 1));
      }
    }
  }

  /** A sweep that finds the line found it on a black reading: the last
      reading it took is at most `BLACK_MAX`. */
  lemma SweepFoundOnBlack(readings: nat -> int, detours: nat -> nat, gyro: seq<int>, angle: int, s: Scene,
                          polls: nat, log: seq<Command>)
    requires polls <= |gyro|
    ensures var r := SweepSpec(readings, detours, gyro, angle, s, polls, log);
      r.outcome == Found ==> OnBlack(readings, r.state.percept)
  {
    var out := TurnSpec(readings, detours, gyro, angle, true, true, s, polls);
    ReacquiredOnBlack(readings, detours, gyro, angle, true, true, s, polls);
    if out.outcome == Reached {
      ReacquiredOnBlack(readings, detours, gyro, 2 * angle, false, true, out.percept, out.polls);
    }
  }

  /** A search that finds the line found it on a black reading. */
  lemma {:induction false} SweepsFoundOnBlack(readings: nat -> int, detours: nat -> nat, gyro: seq<int>,
                                              i: nat, s: Scene, polls: nat, log: seq<Command>)
    requires i <= |SearchAngles| && polls <= |gyro|
    ensures var r := SweepsFrom(readings, detours, gyro, i, s, polls, log);
      r.outcome == Found ==> OnBlack(readings, r.state.percept)
    decreases |SearchAngles| - i
  {
    if i < |SearchAngles| {
      var sweep := SweepSpec(readings, detours, gyro, SearchAngles[i], s, polls, log);
      SweepFoundOnBlack(readings, detours, gyro, SearchAngles[i], s, polls, log);
      if sweep.outcome == Exhausted {
        SweepsFoundOnBlack(readings, detours, gyro, i + 1, sweep.state, sweep.polls, sweep.log);
      }
    }
  }

  /** The answers of `is_black` in a checking rotation loop, in order:
      one per gyro reading short of the bound, each after an obstacle
      check, until one is positive. */
  function TurnVerdicts(readings: nat -> int, detours: nat -> nat, gyro: seq<int>, limit: int,
                        counterClockwise: bool, s: Scene, polls: nat): seq<bool>
    requires polls <= |gyro|
    decreases |gyro| - polls
  {
    if polls == |gyro| || !StillTurning(gyro[polls], limit, counterClockwise) then []
    else
      var step := Step(readings, detours, true, s);
      if step.0 then [true]
      else [false] + TurnVerdicts(readings, detours, gyro, limit, counterClockwise, step.1, polls + 1)
  }

  /** `TurnVerdicts` is `Verdicts` with the checking loop body. */
  lemma {:induction false} TurnVerdictsAreVerdicts(readings: nat -> int, detours: nat -> nat, gyro: seq<int>,
                                                   limit: int, counterClockwise: bool, s: Scene, polls: nat)
    requires polls <= |gyro|
    ensures TurnVerdicts(readings, detours, gyro, limit, counterClockwise, s, polls)
         == Verdicts(gyro, limit, counterClockwise, Body(readings, detours, true), s, polls)
    decreases |gyro| - polls
  {
    if polls < |gyro| && StillTurning(gyro[polls], limit, counterClockwise) {
      var step := Step(readings, detours, true, s);
      if !step.0 {
        TurnVerdictsAreVerdicts(readings, detours, gyro, limit, counterClockwise, step.1, polls + 1);
      }
    }
  }

  /** A checking rotation loop stops at the first black answer: every
      answer before the last is negative, and it ends `Reacquired`
      exactly when the last is positive. */
  lemma {:induction false} TurnFirstSuccess(readings: nat -> int, detours: nat -> nat, gyro: seq<int>, limit: int,
                                            counterClockwise: bool, s: Scene, polls: nat)
    requires polls <= |gyro|
    ensures var t := TurnSpec(readings, detours, gyro, limit, counterClockwise, true, s, polls);
      var v := TurnVerdicts(readings, detours, gyro, limit, counterClockwise, s, polls);
      OnlyLastMaySucceed(v) && (t.outcome == Reacquired <==> EndsInSuccess(v))
    decreases |gyro| - polls
  {
    if polls < |gyro| && StillTurning(gyro[polls], limit, counterClockwise) {
      var step := Step(readings, detours, true, s);
      if !step.0 {
        TurnFirstSuccess(readings, detours, gyro, limit, counterClockwise, step.1, polls + 1);
        var rest := TurnVerdicts(readings, detours, gyro, limit, counterClockwise, step.1, polls + 1);
        assert TurnVerdicts(readings, detours, gyro, limit, counterClockwise, s, polls) == [false] + rest;
        AfterFailures([false], rest);
        assert TurnSpec(readings, detours, gyro, limit, counterClockwise, true, s, polls)
            == TurnSpec(readings, detours, gyro, limit, counterClockwise, true, step.1, polls + 1);
      }
    }
  }

  /** The answers of `is_black` during one angle of the search, in order:
      those of the first rotation and, when that one reached its bound,
      those of the second. The third checks only for obstacles. */
  function SweepVerdicts(readings: nat -> int, detours: nat -> nat, gyro: seq<int>, angle: int, s: Scene,
                         polls: nat): seq<bool>
    requires polls <= |gyro|
  {
    var out := TurnSpec(readings, detours, gyro, angle, true, true, s, polls);
    var first := TurnVerdicts(readings, detours, gyro, angle, true, s, polls);
    if out.outcome != Reached then first
    else first + TurnVerdicts(readings, detours, gyro, 2 * angle, false, out.percept, out.polls)
  }

  /** The answers of `is_black` during the angle loop from the `i`-th
      angle on, in order. */
  function SearchVerdicts(readings: nat -> int, detours: nat -> nat, gyro: seq<int>, i: nat, s: Scene,
                          polls: nat, log: seq<Command>): seq<bool>
    requires i <= |SearchAngles| && polls <= |gyro|
    decreases |SearchAngles| - i
  {
    if i == |SearchAngles| then []
    else
      var sweep := SweepSpec(readings, detours, gyro, SearchAngles[i], s, polls, log);
      var v := SweepVerdicts(readings, detours, gyro, SearchAngles[i], s, polls);
      if sweep.outcome != Exhausted then v
      else v + SearchVerdicts(readings, detours, gyro, i + 1, sweep.state, sweep.polls, sweep.log)
  }

  /** One angle of the search stops at the first black answer, and finds
      the line exactly when an answer is black. */
  lemma SweepFirstSuccess(readings: nat -> int, detours: nat -> nat, gyro: seq<int>, angle: int, s: Scene,
                          polls: nat, log: seq<Command>)
    requires polls <= |gyro|
    ensures var r := SweepSpec(readings, detours, gyro, angle, s, polls, log);
      var v := SweepVerdicts(readings, detours, gyro, angle, s, polls);
      OnlyLastMaySucceed(v) && (r.outcome == Found <==> EndsInSuccess(v))
  {
    var out := TurnSpec(readings, detours, gyro, angle, true, true, s, polls);
    TurnFirstSuccess(readings, detours, gyro, angle, true, s, polls);
    if out.outcome == Reached {
      var first := TurnVerdicts(readings, detours, gyro, angle, true, s, polls);
      var second := TurnVerdicts(readings, detours, gyro, 2 * angle, false, out.percept, out.polls);
      TurnFirstSuccess(readings, detours, gyro, 2 * angle, false, out.percept, out.polls);
      NoSuccessWithoutLast(first);
      AfterFailures(first, second);
    }
  }

  /** The angle loop stops at the first black answer of `is_black`: every
      answer before the last is negative; it finds the line exactly when
      the last answer is black; a loop that ends without finding it (the
      one that marks the program complete) got no black answer at all. */
  lemma {:induction false} SweepsFirstSuccess(readings: nat -> int, detours: nat -> nat, gyro: seq<int>,
                                              i: nat, s: Scene, polls: nat, log: seq<Command>)
    requires i <= |SearchAngles| && polls <= |gyro|
    ensures var r := SweepsFrom(readings, detours, gyro, i, s, polls, log);
      var v := SearchVerdicts(readings, detours, gyro, i, s, polls, log);
      OnlyLastMaySucceed(v) && (r.outcome == Found <==> EndsInSuccess(v)) &&
      (r.outcome != Found ==> NoSuccess(v))
    decreases |SearchAngles| - i
  {
    if i < |SearchAngles| {
      var sweep := SweepSpec(readings, detours, gyro, SearchAngles[i], s, polls, log);
      var first := SweepVerdicts(readings, detours, gyro, SearchAngles[i], s, polls);
      SweepFirstSuccess(readings, detours, gyro, SearchAngles[i], s, polls, log);
      if sweep.outcome == Exhausted {
        SweepsFirstSuccess(readings, detours, gyro, i + 1, sweep.state, sweep.polls, sweep.log);
        var rest := SearchVerdicts(readings, detours, gyro, i + 1, sweep.state, sweep.polls, sweep.log);
        assert SearchVerdicts(readings, detours, gyro, i, s, polls, log) == first + rest;
        assert SweepsFrom(readings, detours, gyro, i, s, polls, log)
            == SweepsFrom(readings, detours, gyro, i + 1, sweep.state, sweep.polls, sweep.log);
        NoSuccessWithoutLast(first);
        AfterFailures(first, rest);
      } else if sweep.outcome != Found {
        NoSuccessWithoutLast(first);
      }
    }
  }

  /** The script's globals between two ticks of the main loop. */
  datatype Globals = Globals(scene: Scene, polls: nat, commands: seq<Command>, isLineFollowed: bool,
                             isProgramComplete: bool)

  /** `follow_black_line` on the globals: the obstacle check, the steering
      reading and the white reading; white ends line following, anything
      else steers by the steering reading. */
  function FollowSpec(readings: nat -> int, detours: nat -> nat, g: Globals): (r: Globals)
    ensures r.polls == g.polls && g.commands <= r.commands && r.isProgramComplete == g.isProgramComplete
    ensures r.scene.checks == g.scene.checks + 1
    ensures r.scene.percept.cursor == g.scene.percept.cursor + detours(g.scene.checks) + 2
  {
    var d := Detour(readings, detours, g.scene);
    var after := Scene(Samples(readings, d.percept, 2), d.checks);
    if readings(d.percept.cursor + 1) >= WhiteMin then g.(scene := after, isLineFollowed := false)
    else g.(scene := after, commands := g.commands + [Steer(Steering(readings(d.percept.cursor)), ForwardSpeed)])
  }

  /** One tick of the main loop: follow the line while it is followed,
      search for it otherwise; an exhausted search completes the program.
      The first component says whether the gyro stream ran out during the
      tick. */
  function TickSpec(readings: nat -> int, detours: nat -> nat, gyro: seq<int>, g: Globals): (r: (bool, Globals))
    requires g.polls <= |gyro|
    ensures r.0 ==> r.1.polls == |gyro| && r.1.isProgramComplete == g.isProgramComplete
    ensures g.polls <= r.1.polls <= |gyro| && g.commands <= r.1.commands
  {
    if g.isLineFollowed then (false, FollowSpec(readings, detours, g))
    else
      SweepsStallAtGyroEnd(readings, detours, gyro, 0, Detour(readings, detours, g.scene), g.polls, g.commands);
      var s := SearchSpec(readings, detours, gyro, g.scene, g.polls, g.commands);
      (s.outcome == SearchStalled,
       g.(scene := s.state, polls := s.polls, commands := s.log, isLineFollowed := s.outcome == Found,
          isProgramComplete := g.isProgramComplete || s.outcome == Exhausted))
  }

  /** The main loop from its `ticks`-th tick on, with `fuel` ticks in
      all; once the completion flag is set the motors are stopped. */
  function RunFrom(readings: nat -> int, detours: nat -> nat, gyro: seq<int>, g: Globals, ticks: nat,
                   fuel: nat): RunResult<Globals>
    requires g.polls <= |gyro| && ticks <= fuel
    decreases fuel - ticks
  {
    if g.isProgramComplete then RunResult(Completed, g.(commands := g.commands + [Stop]), ticks)
    else if ticks == fuel then RunResult(OutOfFuel, g, ticks)
    else
      var (stalled, h) := TickSpec(readings, detours, gyro, g);
      if stalled then RunResult(RunStalled, h, ticks)
      else RunFrom(readings, detours, gyro, h, ticks + 1, fuel)
  }

  /** How a bounded run ends: within its budget; out of fuel only after
      every tick of it, and then incomplete; complete exactly when the
      completion flag is set, with the motors stopped; stalled only at
      the end of the gyro stream. On every path the gyro position only
      moves forward and commands are only ever appended. */
  lemma {:induction false} RunFromEnds(readings: nat -> int, detours: nat -> nat, gyro: seq<int>, g: Globals,
                                       ticks: nat, fuel: nat)
    requires g.polls <= |gyro| && ticks <= fuel
    ensures var r := RunFrom(readings, detours, gyro, g, ticks, fuel);
      ticks <= r.ticks <= fuel &&
      (r.outcome == OutOfFuel ==> r.ticks == fuel && !r.globals.isProgramComplete) &&
      (r.outcome == Completed <==> r.globals.isProgramComplete) &&
      (r.outcome == Completed ==> EndsWithStop(r.globals.commands)) &&
      (r.outcome == RunStalled ==> r.globals.polls == |gyro|) &&
      g.polls <= r.globals.polls && g.commands <= r.globals.commands
    decreases fuel - ticks
  {
    if !g.isProgramComplete && ticks < fuel {
      var (stalled, h) := TickSpec(readings, detours, gyro, g);
      if !stalled {
        RunFromEnds(readings, detours, gyro, h, ticks + 1, fuel);
      }
    }
  }

  /** The tick budget only cuts runs short: a run that ends within its
      budget ends the same way with any larger one. */
  lemma {:induction false} RunFromMoreFuel(readings: nat -> int, detours: nat -> nat, gyro: seq<int>, g: Globals,
                                           ticks: nat, fuel: nat, more: nat)
    requires g.polls <= |gyro| && ticks <= fuel <= more
    requires RunFrom(readings, detours, gyro, g, ticks, fuel).outcome != OutOfFuel
    ensures RunFrom(readings, detours, gyro, g, ticks, more) == RunFrom(readings, detours, gyro, g, ticks, fuel)
    decreases fuel - ticks
  {
    if !g.isProgramComplete {
      var (stalled, h) := TickSpec(readings, detours, gyro, g);
      if !stalled {
        RunFromMoreFuel(readings, detours, gyro, h, ticks + 1, fuel, more);
      }
    }
  }

  /** The script's hardware and globals. `readings` and `gyro` are the
      colour and gyro inputs in the order they are read, `detours` the
      number of colour readings each `check_obstacles` call takes;
      `cursor`, `polls` and `checks` count how many of each have been
      consumed; `commands` is the log of motor and gyro-reset calls. */
  class Controller {
    const readings: nat -> int
    const detours: nat -> nat
    const gyro: seq<int>
    var cursor: nat
    var polls: nat
    var checks: nat
    var recentValues: seq<int>
    var isLineFollowed: bool
    var isProgramComplete: bool
    var commands: seq<Command>

    function Sensed(): Percept
      reads this
    {
      Percept(recentValues, cursor)
    }

    function Observed(): Scene
      reads this
    {
      Scene(Sensed(), checks)
    }

    function Current(): Globals
      reads this
    {
      Globals(Observed(), polls, commands, isLineFollowed, isProgramComplete)
    }

    /** The buffer holds the latest readings and the gyro position is
        within its stream. */
    ghost predicate Valid()
      reads this
    {
      Holds(readings, Sensed()) && polls <= |gyro|
    }

    /** The module-level initialisation of the globals. */
    constructor (readings: nat -> int, detours: nat -> nat, gyro: seq<int>)
      ensures Valid()
      ensures this.readings == readings && this.detours == detours && this.gyro == gyro
      ensures cursor == 0 && polls == 0 && checks == 0 && recentValues == [] && commands == []
      ensures isLineFollowed && !isProgramComplete
    {
      this.readings := readings;
      this.detours := detours;
      this.gyro := gyro;
      cursor, polls, checks := 0, 0, 0;
      recentValues := [];
      isLineFollowed := true;
      isProgramComplete := false;
      commands := [];
    }

    /** `get_color` */
    method GetColor() returns (value: int)
      requires Valid()
      modifies this`recentValues, this`cursor
      ensures Valid()
      ensures value == readings(old(cursor))
      ensures Sensed() == Sample(readings, old(Sensed()))
    {
      SampleKeepsHistory(readings, Sensed());
      value := readings(cursor);
      cursor := cursor + 1;
      recentValues := recentValues + [value];
      if |recentValues| > Capacity {
        recentValues := recentValues[1..];
      }
    }

    /** `is_black` */
    method IsBlack() returns (black: bool)
      requires Valid()
      modifies this`recentValues, this`cursor
      ensures Valid()
      ensures Probe(black, Sensed()) == BlackProbe(readings, old(Sensed()))
    {
      var value := GetColor();
      return value <= BlackMax;
    }

    /** `is_white` */
    method IsWhite() returns (white: bool)
      requires Valid()
      modifies this`recentValues, this`cursor
      ensures Valid()
      ensures Probe(white, Sensed()) == WhiteProbe(readings, old(Sensed()))
    {
      var value := GetColor();
      return value >= WhiteMin;
    }

    /** `check_obstacles`, as far as the line follower can observe it. */
    method CheckObstacles()
      requires Valid()
      modifies this`recentValues, this`cursor, this`checks
      ensures Valid()
      ensures Observed() == Detour(readings, detours, old(Observed()))
    {
      var taken := detours(checks);
      for j := 0 to taken
        invariant Valid() && checks == old(checks)
        invariant Sensed() == Samples(readings, old(Sensed()), j)
      {
        var _ := GetColor();
      }
      checks := checks + 1;
    }

    /** `gyro_sensor.angle`: consumes the next gyro reading. */
    method PollGyro() returns (angle: int)
      requires Valid() && polls < |gyro|
      modifies this`polls
      ensures Valid()
      ensures angle == gyro[old(polls)] && polls == old(polls) + 1
    {
      angle := gyro[polls];
      polls := polls + 1;
    }

    /** One `while gyro_sensor.angle ...:` loop of the search. */
    method PollUntil(limit: int, counterClockwise: bool, watch: bool) returns (outcome: TurnOutcome)
      requires Valid()
      modifies this`recentValues, this`cursor, this`checks, this`polls
      ensures Valid()
      ensures Turn(outcome, Observed(), polls)
           == TurnSpec(readings, detours, gyro, limit, counterClockwise, watch, old(Observed()), old(polls))
    {
      while polls < |gyro|
        invariant Valid()
        invariant TurnSpec(readings, detours, gyro, limit, counterClockwise, watch, Observed(), polls)
               == TurnSpec(readings, detours, gyro, limit, counterClockwise, watch, old(Observed()), old(polls))
        decreases |gyro| - polls
      {
        ghost var before := Observed();
        var angle := PollGyro();
        if !StillTurning(angle, limit, counterClockwise) {
          return Reached;
        }
        CheckObstacles();
        var black := false;
        if watch {
          black := IsBlack();
        }
        assert (black, Observed()) == Step(readings, detours, watch, before);
        TurnUnfolds(readings, detours, gyro, limit, counterClockwise, watch, before, polls - 1);
        if black {
          return Reacquired;
        }
      }
      return Stalled;
    }

    /** `follow_black_line`: one tick. The obstacle check comes first, then
        the steering reading; a white verdict on a further reading ends
        line following without a motor command, otherwise the steering
        law drives the motors. */
    method FollowBlackLine()
      requires Valid()
      modifies this`recentValues, this`cursor, this`checks, this`commands, this`isLineFollowed
      ensures Valid()
      ensures Current() == FollowSpec(readings, detours, old(Current()))
      ensures var d := Detour(readings, detours, old(Observed()));
        Observed() == Scene(Samples(readings, d.percept, 2), d.checks) &&
        (readings(d.percept.cursor + 1) >= WhiteMin ==>
          !isLineFollowed && commands == old(commands)) &&
        (readings(d.percept.cursor + 1) < WhiteMin ==>
          isLineFollowed == old(isLineFollowed) &&
          commands == old(commands) + [Steer(Steering(readings(d.percept.cursor)), ForwardSpeed)])
    {
      CheckObstacles();
      ghost var d := Observed();
      var sensorValue := GetColor();
      assert Sensed() == Samples(readings, d.percept, 1);
      var white := IsWhite();
      assert Sensed() == Samples(readings, d.percept, 2);
      if white {
        isLineFollowed := false;
        return;
      }
      commands := commands + [Steer(Steering(sensorValue), ForwardSpeed)];
    }

    /** One iteration of the angle loop of `oscillated_search`. */
    method SweepAt(angle: int) returns (outcome: SearchOutcome)
      requires Valid()
      modifies this`recentValues, this`cursor, this`checks, this`polls, this`commands, this`isLineFollowed
      ensures Valid()
      ensures isLineFollowed == (old(isLineFollowed) || outcome == Found)
      ensures Search(outcome, Observed(), polls, commands)
           == SweepSpec(readings, detours, gyro, angle, old(Observed()), old(polls), old(commands))
    {
      ghost var start, log := Observed(), commands;
      ghost var out := TurnSpec(readings, detours, gyro, angle, true, true, start, polls);
      commands := commands + SwingOut(OscillationSpeed);
      var turn := PollUntil(angle, true, true);
      assert out == Turn(turn, Observed(), polls);
      if turn == Reacquired {
        isLineFollowed := true;
        return Found;
      } else if turn == Stalled {
        return SearchStalled;
      }
      ghost var over := TurnSpec(readings, detours, gyro, 2 * angle, false, true, Observed(), polls);
      commands := commands + SwingOver(OscillationSpeed);
      turn := PollUntil(2 * angle, false, true);
      assert over == Turn(turn, Observed(), polls);
      if turn == Reacquired {
        isLineFollowed := true;
        return Found;
      } else if turn == Stalled {
        return SearchStalled;
      }
      ghost var back := TurnSpec(readings, detours, gyro, angle, true, false, Observed(), polls);
      commands := commands + SwingBack(OscillationSpeed);
      turn := PollUntil(angle, true, false);
      assert back == Turn(turn, Observed(), polls);
      if turn == Stalled {
        assert commands == log + SwingOut(OscillationSpeed) + SwingOver(OscillationSpeed) + SwingBack(OscillationSpeed);
        return SearchStalled;
      }
      commands := commands + [Stop];
      assert commands == Swept(log, OscillationSpeed);
      return Exhausted;
    }

    /** The angle loop of `oscillated_search`: sweep each angle in turn
        until black is found. */
    method SweepAngles() returns (outcome: SearchOutcome)
      requires Valid()
      modifies this`recentValues, this`cursor, this`checks, this`polls, this`commands, this`isLineFollowed
      ensures Valid()
      ensures isLineFollowed == (old(isLineFollowed) || outcome == Found)
      ensures Search(outcome, Observed(), polls, commands)
           == SweepsFrom(readings, detours, gyro, 0, old(Observed()), old(polls), old(commands))
    {
      for i := 0 to |SearchAngles|
        invariant Valid()
        invariant isLineFollowed == old(isLineFollowed)
        invariant SweepsFrom(readings, detours, gyro, i, Observed(), polls, commands)
               == SweepsFrom(readings, detours, gyro, 0, old(Observed()), old(polls), old(commands))
      {
        var sweep := SweepAt(SearchAngles[i]);
        if sweep != Exhausted {
          return sweep;
        }
      }
      return Exhausted;
    }

    /** `oscillated_search`: check for obstacles, then sweep the angles;
        when every angle has been swept without finding black, mark the
        program complete. */
    method OscillatedSearch() returns (outcome: SearchOutcome)
      requires Valid()
      modifies this`recentValues, this`cursor, this`checks, this`polls, this`commands,
               this`isLineFollowed, this`isProgramComplete
      ensures Valid()
      ensures isLineFollowed == (old(isLineFollowed) || outcome == Found)
      ensures isProgramComplete == (old(isProgramComplete) || outcome == Exhausted)
      ensures Search(outcome, Observed(), polls, commands)
           == SearchSpec(readings, detours, gyro, old(Observed()), old(polls), old(commands))
    {
      CheckObstacles();
      outcome := SweepAngles();
      if outcome == Exhausted {
        isProgramComplete := true;
      }
    }

    /** The body of the main loop: follow the line while it is followed,
        search for it otherwise. */
    method Tick() returns (stalled: bool)
      requires Valid()
      modifies this`recentValues, this`cursor, this`checks, this`polls, this`commands,
               this`isLineFollowed, this`isProgramComplete
      ensures Valid()
      ensures (stalled, Current()) == TickSpec(readings, detours, gyro, old(Current()))
    {
      if isLineFollowed {
        FollowBlackLine();
        stalled := false;
      } else {
        var search := OscillatedSearch();
        stalled := search == SearchStalled;
      }
    }

    /** The main loop `while not is_program_complete`, bounded by a tick
        budget, followed by the final stop. */
    method Run(fuel: nat) returns (outcome: RunOutcome, ticks: nat)
      requires Valid()
      modifies this`recentValues, this`cursor, this`checks, this`polls, this`commands,
               this`isLineFollowed, this`isProgramComplete
      ensures Valid()
      ensures RunResult(outcome, Current(), ticks) == RunFrom(readings, detours, gyro, old(Current()), 0, fuel)
      ensures ticks <= fuel && (outcome == OutOfFuel ==> ticks == fuel)
      ensures polls >= old(polls) && old(commands) <= commands
      ensures outcome == Completed <==> isProgramComplete
      ensures outcome == Completed ==> EndsWithStop(commands)
      ensures outcome == RunStalled ==> polls == |gyro|
    {
      ghost var start := Current();
      outcome, ticks := Completed, 0;
      while !isProgramComplete
        invariant Valid()
        invariant ticks <= fuel
        invariant RunFrom(readings, detours, gyro, Current(), ticks, fuel)
               == RunFrom(readings, detours, gyro, start, 0, fuel)
        decreases fuel - ticks
      {
        if ticks == fuel {
          outcome := OutOfFuel;
          break;
        }
        var stalled := Tick();
        if stalled {
          outcome := RunStalled;
          break;
        }
        ticks := ticks + 1;
      }
      if outcome == Completed {
        commands := commands + [Stop];
      }
      assert RunResult(outcome, Current(), ticks) == RunFrom(readings, detours, gyro, start, 0, fuel);
      RunFromEnds(readings, detours, gyro, start, 0, fuel);
    }
  }
}
