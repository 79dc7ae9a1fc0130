/** The green-line follower of `myrobot/main.py`. The control core of
    `myrobot_2/main.py` is the same code with the same constants; it
    differs only in its CSV logging, whose one effect on the controller
    is the colour reading taken by `new_csv_file` (see `RunLogged`).

    The colour predicates are specified by pure functions over a
    `Percept` (buffer and readings taken); the controller class keeps
    the script's globals as fields and its methods are proved against
    those functions. */
module GreenLine {
  import opened SampleBuffer
  import opened Drive

  // Colour thresholds
  const GreenMax := 20
  const GreyMin := 30
  const GreyMax := 45
  const WhiteMin := 55

  // Movement constants
  const ForwardSpeed := 35
  const TurnGain := 1.0
  const OscillationSpeed := 20
  const SpinSpeed := 20
  const SpinTarget := 345
  const SearchAngles: seq<int> := [30, 60, 90, 120, 150, 180]

  // Debounce windows
  const GreenWindow := 7
  const WhiteWindow := 12
  const GreyWindow := 5
  const GreyQuorum := 3

  predicate AllAtMost(s: seq<int>, bound: int) {
    forall i :: 0 <= i < |s| ==> s[i] <= bound
  }

  predicate AllAtLeast(s: seq<int>, bound: int) {
    forall i :: 0 <= i < |s| ==> s[i] >= bound
  }

  predicate InGreyBand(v: int) {
    GreyMin <= v <= GreyMax
  }

  /** `sum(1 for v in s if GREY_MIN <= v <= GREY_MAX)` */
  function GreyCount(s: seq<int>): (n: nat)
    ensures n <= |s|
  {
    if s == [] then 0
    else GreyCount(s[..|s| - 1]) + if InGreyBand(s[|s| - 1]) then 1 else 0
  }

  /** `is_green`: the fresh reading while the buffer is filling, the last
      seven buffered values (and no fresh reading) once it is full. */
  function GreenProbe(readings: nat -> int, p: Percept): (r: Probe)
    ensures |p.recent| < Capacity ==> r.after.cursor == p.cursor + 1
    ensures |p.recent| >= Capacity ==> r.after == p
  {
    if |p.recent| < Capacity then Probe(readings(p.cursor) <= GreenMax, Sample(readings, p))
    else Probe(AllAtMost(Last(p.recent, GreenWindow), GreenMax), p)
  }

  /** `is_white`: as `is_green`, with the last twelve values. */
  function WhiteProbe(readings: nat -> int, p: Percept): (r: Probe)
    ensures |p.recent| < Capacity ==> r.after.cursor == p.cursor + 1
    ensures |p.recent| >= Capacity ==> r.after == p
  {
    if |p.recent| < Capacity then Probe(readings(p.cursor) >= WhiteMin, Sample(readings, p))
    else Probe(AllAtLeast(Last(p.recent, WhiteWindow), WhiteMin), p)
  }

  /** `is_grey`: always takes a fresh reading; grey when it is in the band
      and at least three of the last five buffered values are. */
  function GreyProbe(readings: nat -> int, p: Percept): (r: Probe)
    ensures r.verdict ==> InGreyBand(readings(p.cursor)) && |r.after.recent| >= GreyQuorum
  {
    var q := Sample(readings, p);
    Probe(InGreyBand(readings(p.cursor)) && GreyCount(Last(q.recent, GreyWindow)) >= GreyQuorum, q)
  }

  /** `is_green() or is_grey()`, with Python's short-circuit. */
  function ReacquireProbe(readings: nat -> int, p: Percept): (r: Probe)
    ensures p.cursor <= r.after.cursor <= p.cursor + 2
  {
    var g := GreenProbe(readings, p);
    if g.verdict then g else GreyProbe(readings, g.after)
  }

  /** The green debounce, in terms of the readings taken: a single fresh
      reading during the first fifteen, afterwards the seven most recent
      readings and nothing consumed. */
  lemma {:induction false} GreenDebounce(readings: nat -> int, p: Percept)
    requires Holds(readings, p)
    ensures var r := GreenProbe(readings, p);
      (p.cursor < Capacity ==>
        r.after.cursor == p.cursor + 1 && (r.verdict <==> readings(p.cursor) <= GreenMax)) &&
      (p.cursor >= Capacity ==>
        r.after == p &&
        (r.verdict <==> forall k: nat :: p.cursor - GreenWindow <= k < p.cursor ==> readings(k) <= GreenMax))
  {
    HistoryLength(readings, p);
    if p.cursor >= Capacity {
      WindowIsLatestReadings(readings, p, GreenWindow);
      var w := Last(p.recent, GreenWindow);
      assert forall k: nat :: p.cursor - GreenWindow <= k < p.cursor ==> readings(k) == w[k - (p.cursor - GreenWindow)];
    }
  }

  /** The white debounce: the twelve most recent readings once fifteen
      have been taken. */
  lemma {:induction false} WhiteDebounce(readings: nat -> int, p: Percept)
    requires Holds(readings, p)
    ensures var r := WhiteProbe(readings, p);
      (p.cursor < Capacity ==>
        r.after.cursor == p.cursor + 1 && (r.verdict <==> readings(p.cursor) >= WhiteMin)) &&
      (p.cursor >= Capacity ==>
        r.after == p &&
        (r.verdict <==> forall k: nat :: p.cursor - WhiteWindow <= k < p.cursor ==> readings(k) >= WhiteMin))
  {
    HistoryLength(readings, p);
    if p.cursor >= Capacity {
      WindowIsLatestReadings(readings, p, WhiteWindow);
      var w := Last(p.recent, WhiteWindow);
      assert forall k: nat :: p.cursor - WhiteWindow <= k < p.cursor ==> readings(k) == w[k - (p.cursor - WhiteWindow)];
    }
  }

  /** The grey majority vote, in terms of the readings taken: the fresh
      reading is in the band and so are at least three of the five most
      recent readings, the fresh one included. */
  lemma {:induction false} GreyMajority(readings: nat -> int, p: Percept)
    requires Holds(readings, p)
    ensures var r := GreyProbe(readings, p);
      var window := Readings(readings, p.cursor + 1 - Min(p.cursor + 1, GreyWindow), p.cursor + 1);
      r.after.cursor == p.cursor + 1 &&
      (r.verdict <==> InGreyBand(readings(p.cursor)) && GreyCount(window) >= GreyQuorum) &&
      (r.verdict ==> p.cursor + 1 >= GreyQuorum)
  {
    var q := Sample(readings, p);
    SampleKeepsHistory(readings, p);
    WindowIsLatestReadings(readings, q, GreyWindow);
  }

  /** The short-circuit of `is_green() or is_grey()`: at most two fresh
      readings; two exactly when the buffer is still filling and the
      first reading is not green; none exactly when the full buffer's
      green window already holds. */
  lemma {:induction false} ReacquireConsumption(readings: nat -> int, p: Percept)
    requires Holds(readings, p)
    ensures var r := ReacquireProbe(readings, p);
      p.cursor <= r.after.cursor <= p.cursor + 2 &&
      (r.after.cursor == p.cursor + 2 <==> p.cursor < Capacity && readings(p.cursor) > GreenMax) &&
      (r.after.cursor == p.cursor <==> p.cursor >= Capacity && GreenProbe(readings, p).verdict) &&
      (r.verdict <==> GreenProbe(readings, p).verdict || GreyProbe(readings, GreenProbe(readings, p).after).verdict)
  {
    HistoryLength(readings, p);
  }

  /** The steering law `max(-80, min(80, (value - GREEN_MAX / 2) * TURN_GAIN))`. */
  function Steering(value: int): (s: real)
    ensures -80.0 <= s <= 80.0
    ensures -70 <= value <= 90 ==> s == (value - 10) as real
    ensures value < -70 ==> s == -80.0
    ensures value > 90 ==> s == 80.0
  {
    var error := value as real - GreenMax as real / 2.0;
    Clamp(error * TurnGain, -80.0, 80.0)
  }

  /** One gyro-bounded rotation loop, from the `polls`-th gyro reading of
      the run on: poll the gyro; stop once it is past the bound; otherwise,
      when `watch` is set, run `is_green() or is_grey()` and stop if it
      holds. */
  function TurnSpec(readings: nat -> int, gyro: seq<int>, limit: int, counterClockwise: bool,
                    watch: bool, p: Percept, polls: nat): (t: Turn<Percept>)
    requires polls <= |gyro|
    ensures polls <= t.polls <= |gyro|
    ensures t.outcome == Stalled ==> t.polls == |gyro|
    decreases |gyro| - polls
  {
    if polls == |gyro| then Turn(Stalled, p, polls)
    else if !StillTurning(gyro[polls], limit, counterClockwise) then Turn(Reached, p, polls + 1)
    else if !watch then TurnSpec(readings, gyro, limit, counterClockwise, watch, p, polls + 1)
    else
      var probe := ReacquireProbe(readings, p);
      if probe.verdict then Turn(Reacquired, probe.after, polls + 1)
      else TurnSpec(readings, gyro, limit, counterClockwise, watch, probe.after, polls + 1)
  }

  /** The colour check of a rotation loop: `is_green() or is_grey()` when
      `watch` is set, nothing otherwise. */
  function Watch(readings: nat -> int, watch: bool): Percept -> (bool, Percept) {
    (q: Percept) =>
      if watch then (ReacquireProbe(readings, q).verdict, ReacquireProbe(readings, q).after) else (false, q)
  }

  /** A rotation loop of the controller is a `Rotation` with its colour
      check, so every property proved of rotations holds of it. */
  lemma {:induction false} TurnIsRotation(readings: nat -> int, gyro: seq<int>, limit: int,
                                          counterClockwise: bool, watch: bool, p: Percept, polls: nat)
    requires polls <= |gyro|
    ensures TurnSpec(readings, gyro, limit, counterClockwise, watch, p, polls)
         == Rotation(gyro, limit, counterClockwise, Watch(readings, watch), p, polls)
    decreases |gyro| - polls
  {
    if polls < |gyro| && StillTurning(gyro[polls], limit, counterClockwise) {
      var c := Watch(readings, watch)(p);
      if !c.0 {
        TurnIsRotation(readings, gyro, limit, counterClockwise, watch, c.1, polls + 1);
      }
    }
  }

  /** A rotation loop without a colour check (the spin at the first grey
      line, the third sweep of the search) consumes no colour reading and
      never ends `Reacquired`. */
  lemma {:induction false} UncheckedTurnReadsNoColour(readings: nat -> int, gyro: seq<int>, limit: int,
                                                      counterClockwise: bool, p: Percept, polls: nat)
    requires polls <= |gyro|
    ensures var t := TurnSpec(readings, gyro, limit, counterClockwise, false, p, polls);
      t.percept == p && t.outcome != Reacquired
    decreases |gyro| - polls
  {
    var t := TurnSpec(readings, gyro, limit, counterClockwise, false, p, polls);
    if polls < |gyro| && StillTurning(gyro[polls], limit, counterClockwise) {
      UncheckedTurnReadsNoColour(readings, gyro, limit, counterClockwise, p, polls + 1);
      var rest := TurnSpec(readings, gyro, limit, counterClockwise, false, p, polls + 1);
      assert t == rest;
    }
  }


  /** One iteration of the angle loop of `oscillated_search`, with the
      command log `log` so far: out to `-angle` and over to `2 * angle`
      while checking for green or grey, then back to `-angle` without
      checking. `Exhausted` means that this angle was swept without
      finding the line. */
  function SweepSpec(readings: nat -> int, gyro: seq<int>, angle: int, p: Percept, polls: nat,
                     log: seq<Command>): (s: Search<Percept>)
    requires polls <= |gyro|
    ensures polls <= s.polls <= |gyro|
    ensures s.outcome == SearchStalled ==> s.polls == |gyro|
    ensures s.outcome == Exhausted ==> s.log == Swept(log, OscillationSpeed)
    ensures s.outcome == Found ==> s.log == log + SwingOut(OscillationSpeed) || s.log == log + SwingOut(OscillationSpeed) + SwingOver(OscillationSpeed)
    ensures log <= s.log
  {
    var out := TurnSpec(readings, gyro, angle, true, true, p, polls);
    if out.outcome != Reached then
      Search(if out.outcome == Reacquired then Found else SearchStalled, out.percept, out.polls, log + SwingOut(OscillationSpeed))
    else
      var over := TurnSpec(readings, gyro, 2 * angle, false, true, out.percept, out.polls);
      if over.outcome != Reached then
        Search(if over.outcome == Reacquired then Found else SearchStalled,
               over.percept, over.polls, log + SwingOut(OscillationSpeed) + SwingOver(OscillationSpeed))
      else
        var back := TurnSpec(readings, gyro, angle, true, false, over.percept, over.polls);
        if back.outcome == Stalled then
          Search(SearchStalled, back.percept, back.polls, log + SwingOut(OscillationSpeed) + SwingOver(OscillationSpeed) + SwingBack(OscillationSpeed))
        else Search(Exhausted, back.percept, back.polls, Swept(log, OscillationSpeed))
  }

  /** `oscillated_search` from the `i`-th angle on, with the command log
      `log` so far, ending with the final stop when every angle has been
      swept. */
  function SearchSpec(readings: nat -> int, gyro: seq<int>, i: nat, p: Percept, polls: nat,
                      log: seq<Command>): (s: Search<Percept>)
    requires i <= |SearchAngles| && polls <= |gyro|
    ensures polls <= s.polls <= |gyro|
    decreases |SearchAngles| - i
  {
    if i == |SearchAngles| then Search(Exhausted, p, polls, log + [Stop])
    else
      var sweep := SweepSpec(readings, gyro, SearchAngles[i], p, polls, log);
      if sweep.outcome != Exhausted then sweep
      else SearchSpec(readings, gyro, i + 1, sweep.state, sweep.polls, sweep.log)
  }

  /** A search that stalls has used up the gyro stream. */
  lemma {:induction false} SearchStallsAtGyroEnd(readings: nat -> int, gyro: seq<int>, i: nat, p: Percept,
                                                 polls: nat, log: seq<Command>)
    requires i <= |SearchAngles| && polls <= |gyro|
    ensures var s := SearchSpec(readings, gyro, i, p, polls, log);
      s.outcome == SearchStalled ==> s.polls == |gyro|
    decreases |SearchAngles| - i
  {
    if i < |SearchAngles| {
      var sweep := SweepSpec(readings, gyro, SearchAngles[i], p, polls, log);
      if sweep.outcome == Exhausted {
        SearchStallsAtGyroEnd(readings, gyro, i + 1, sweep.state, sweep.polls, sweep.log);
      }
    }
  }

  /** The search only ever appends to the command log. */
  lemma {:induction false} SearchExtendsLog(readings: nat -> int, gyro: seq<int>, i: nat, p: Percept,
                                            polls: nat, log: seq<Command>)
    requires i <= |SearchAngles| && polls <= |gyro|
    ensures log <= SearchSpec(readings, gyro, i, p, polls, log).log
    decreases |SearchAngles| - i
  {
    if i < |SearchAngles| {
      var sweep := SweepSpec(readings, gyro, SearchAngles[i], p, polls, log);
      if sweep.outcome == Exhausted {
        SearchExtendsLog(readings, gyro, i + 1, sweep.state, sweep.polls, sweep.log);
      }
    }
  }

  /** A search that finds nothing has swept every remaining angle in full
      and then stopped the motors. */
  lemma {:induction false} SearchExhaustedSweepsAll(readings: nat -> int, gyro: seq<int>, i: nat, p: Percept,
                                                    polls: nat, log: seq<Command>)
    requires i <= |SearchAngles| && polls <= |gyro|
    ensures var s := SearchSpec(readings, gyro, i, p, polls, log);
      s.outcome == Exhausted ==> s.log == Sweeps(log, OscillationSpeed, |SearchAngles| - i) + [Stop]
    decreases |SearchAngles| - i
  {
    if i < |SearchAngles| {
      var sweep := SweepSpec(readings, gyro, SearchAngles[i], p, polls, log);
      if sweep.outcome == Exhausted {
        assert SearchSpec(readings, gyro, i, p, polls, log)
            == SearchSpec(readings, gyro, i + 1, sweep.state, sweep.polls, sweep.log);
        SearchExhaustedSweepsAll(readings, gyro, i + 1, sweep.state, sweep.polls, sweep.log);
        var n := |SearchAngles| - i;
        assert Sweeps(log, OscillationSpeed, n) == Sweeps(Swept(log, OscillationSpeed), OscillationSpeed, n - 1);
      }
    }
  }

  /** A search that finds the line has swept some number of angles in
      full and stops inside the first or the second rotation of the next
      one, leaving the motors spinning. */
  lemma {:induction false} SearchFoundMidSweep(readings: nat -> int, gyro: seq<int>, i: nat, p: Percept,
                                               polls: nat, log: seq<Command>)
    requires i <= |SearchAngles| && polls <= |gyro|
    ensures var s := SearchSpec(readings, gyro, i, p, polls, log);
      s.outcome == Found ==>
        exists n :: 0 <= n < |SearchAngles| - i &&
          (s.log == Sweeps(log, OscillationSpeed, n) + SwingOut(OscillationSpeed) || s.log == Sweeps(log, OscillationSpeed, n) + SwingOut(OscillationSpeed) + SwingOver(OscillationSpeed))
    decreases |SearchAngles| - i
  {
    var s := SearchSpec(readings, gyro, i, p, polls, log);
    if i < |SearchAngles| && s.outcome == Found {
      var sweep := SweepSpec(readings, gyro, SearchAngles[i], p, polls, log);
      if sweep.outcome == Found {
        assert Sweeps(log, OscillationSpeed, 0) == log;
      } else {
        SearchFoundMidSweep(readings, gyro, i + 1, sweep.state, sweep.polls, sweep.log);
        var n :| 0 <= n < |SearchAngles| - (i + 1) &&
          (s.log == Sweeps(sweep.log, OscillationSpeed, n) + SwingOut(OscillationSpeed) || s.log == Sweeps(sweep.log, OscillationSpeed, n) + SwingOut(OscillationSpeed) + SwingOver(OscillationSpeed));
        assert Sweeps(log, OscillationSpeed, n + 1) == Sweeps(sweep.log, OscillationSpeed, n);
      }
    }
  }

  /** When the very first gyro reading of the search is short of the
      first bound and the first colour check succeeds, the search ends
      there: one gyro reading, one reset and one spin command. */
  lemma {:induction false} SearchFoundOnFirstPoll(readings: nat -> int, gyro: seq<int>, p: Percept, polls: nat,
                                                  log: seq<Command>)
    requires polls < |gyro| && StillTurning(gyro[polls], SearchAngles[0], true)
    requires ReacquireProbe(readings, p).verdict
    ensures SearchSpec(readings, gyro, 0, p, polls, log)
         == Search(Found, ReacquireProbe(readings, p).after, polls + 1, log + SwingOut(OscillationSpeed))
  {
    assert TurnSpec(readings, gyro, SearchAngles[0], true, true, p, polls)
        == Turn(Reacquired, ReacquireProbe(readings, p).after, polls + 1);
  }

  /** The answers of `is_green() or is_grey()` in a checking rotation
      loop, in order: one per gyro reading short of the bound, until one
      is positive. */
  function TurnVerdicts(readings: nat -> int, gyro: seq<int>, limit: int, counterClockwise: bool,
                        p: Percept, polls: nat): seq<bool>
    requires polls <= |gyro|
    decreases |gyro| - polls
  {
    if polls == |gyro| || !StillTurning(gyro[polls], limit, counterClockwise) then []
    else
      var probe := ReacquireProbe(readings, p);
      if probe.verdict then [true]
      else [false] + TurnVerdicts(readings, gyro, limit, counterClockwise, probe.after, polls + 1)
  }

  /** `TurnVerdicts` is `Verdicts` with `is_green() or is_grey()` as the
      check. */
  lemma {:induction false} TurnVerdictsAreVerdicts(readings: nat -> int, gyro: seq<int>, limit: int,
                                                   counterClockwise: bool, p: Percept, polls: nat)
    requires polls <= |gyro|
    ensures TurnVerdicts(readings, gyro, limit, counterClockwise, p, polls)
         == Verdicts(gyro, limit, counterClockwise, Watch(readings, true), p, polls)
    decreases |gyro| - polls
  {
    if polls < |gyro| && StillTurning(gyro[polls], limit, counterClockwise) {
      var probe := ReacquireProbe(readings, p);
      if !probe.verdict {
        TurnVerdictsAreVerdicts(readings, gyro, limit, counterClockwise, probe.after, polls + 1);
      }
    }
  }

  /** A checking rotation loop stops at its first positive answer: every
      answer before the last is negative, and it ends `Reacquired`
      exactly when the last is positive. */
  lemma {:induction false} TurnFirstSuccess(readings: nat -> int, gyro: seq<int>, limit: int,
                                            counterClockwise: bool, p: Percept, polls: nat)
    requires polls <= |gyro|
    ensures var t := TurnSpec(readings, gyro, limit, counterClockwise, true, p, polls);
      var v := TurnVerdicts(readings, gyro, limit, counterClockwise, p, polls);
      OnlyLastMaySucceed(v) && (t.outcome == Reacquired <==> EndsInSuccess(v))
    decreases |gyro| - polls
  {
    if polls < |gyro| && StillTurning(gyro[polls], limit, counterClockwise) {
      var probe := ReacquireProbe(readings, p);
      if !probe.verdict {
        TurnFirstSuccess(readings, gyro, limit, counterClockwise, probe.after, polls + 1);
        var rest := TurnVerdicts(readings, gyro, limit, counterClockwise, probe.after, polls + 1);
        assert TurnVerdicts(readings, gyro, limit, counterClockwise, p, polls) == [false] + rest;
        AfterFailures([false], rest);
        assert TurnSpec(readings, gyro, limit, counterClockwise, true, p, polls)
            == TurnSpec(readings, gyro, limit, counterClockwise, true, probe.after, polls + 1);
      }
    }
  }

  /** The answers of `is_green() or is_grey()` during one angle of the
      search, in order: those of the first rotation and, when that one
      reached its bound, those of the second. The third checks nothing. */
  function SweepVerdicts(readings: nat -> int, gyro: seq<int>, angle: int, p: Percept, polls: nat): seq<bool>
    requires polls <= |gyro|
  {
    var out := TurnSpec(readings, gyro, angle, true, true, p, polls);
    var first := TurnVerdicts(readings, gyro, angle, true, p, polls);
    if out.outcome != Reached then first
    else first + TurnVerdicts(readings, gyro, 2 * angle, false, out.percept, out.polls)
  }

  /** The answers of `is_green() or is_grey()` during the search from the
      `i`-th angle on, in order. */
  function SearchVerdicts(readings: nat -> int, gyro: seq<int>, i: nat, p: Percept, polls: nat,
                          log: seq<Command>): seq<bool>
    requires i <= |SearchAngles| && polls <= |gyro|
    decreases |SearchAngles| - i
  {
    if i == |SearchAngles| then []
    else
      var sweep := SweepSpec(readings, gyro, SearchAngles[i], p, polls, log);
      var v := SweepVerdicts(readings, gyro, SearchAngles[i], p, polls);
      if sweep.outcome != Exhausted then v
      else v + SearchVerdicts(readings, gyro, i + 1, sweep.state, sweep.polls, sweep.log)
  }

  /** One angle of the search stops at the first successful colour check,
      and finds the line exactly when a check succeeds. */
  lemma SweepFirstSuccess(readings: nat -> int, gyro: seq<int>, angle: int, p: Percept, polls: nat,
                          log: seq<Command>)
    requires polls <= |gyro|
    ensures var s := SweepSpec(readings, gyro, angle, p, polls, log);
      var v := SweepVerdicts(readings, gyro, angle, p, polls);
      OnlyLastMaySucceed(v) && (s.outcome == Found <==> EndsInSuccess(v))
  {
    var out := TurnSpec(readings, gyro, angle, true, true, p, polls);
    TurnFirstSuccess(readings, gyro, angle, true, p, polls);
    if out.outcome == Reached {
      var first := TurnVerdicts(readings, gyro, angle, true, p, polls);
      var second := TurnVerdicts(readings, gyro, 2 * angle, false, out.percept, out.polls);
      TurnFirstSuccess(readings, gyro, 2 * angle, false, out.percept, out.polls);
      NoSuccessWithoutLast(first);
      AfterFailures(first, second);
    }
  }

  /** The search stops at the first successful `is_green() or is_grey()`:
      every answer before the last is negative; it finds the line exactly
      when the last answer is positive; a search that does not find it
      got no positive answer at all. */
  lemma {:induction false} SearchFirstSuccess(readings: nat -> int, gyro: seq<int>, i: nat, p: Percept,
                                              polls: nat, log: seq<Command>)
    requires i <= |SearchAngles| && polls <= |gyro|
    ensures var s := SearchSpec(readings, gyro, i, p, polls, log);
      var v := SearchVerdicts(readings, gyro, i, p, polls, log);
      OnlyLastMaySucceed(v) && (s.outcome == Found <==> EndsInSuccess(v)) &&
      (s.outcome != Found ==> NoSuccess(v))
    decreases |SearchAngles| - i
  {
    if i < |SearchAngles| {
      var sweep := SweepSpec(readings, gyro, SearchAngles[i], p, polls, log);
      var first := SweepVerdicts(readings, gyro, SearchAngles[i], p, polls);
      SweepFirstSuccess(readings, gyro, SearchAngles[i], p, polls, log);
      if sweep.outcome == Exhausted {
        SearchFirstSuccess(readings, gyro, i + 1, sweep.state, sweep.polls, sweep.log);
        var rest := SearchVerdicts(readings, gyro, i + 1, sweep.state, sweep.polls, sweep.log);
        assert SearchVerdicts(readings, gyro, i, p, polls, log) == first + rest;
        assert SearchSpec(readings, gyro, i, p, polls, log)
            == SearchSpec(readings, gyro, i + 1, sweep.state, sweep.polls, sweep.log);
        NoSuccessWithoutLast(first);
        AfterFailures(first, rest);
      } else if sweep.outcome != Found {
        NoSuccessWithoutLast(first);
      }
    }
  }

  /** The white check of a following tick, made after the steering
      reading has been taken. */
  function TickWhite(readings: nat -> int, p: Percept): (r: Probe)
    ensures p.cursor + 1 <= r.after.cursor <= p.cursor + 2
  {
    WhiteProbe(readings, Sample(readings, p))
  }

  /** The grey check of a following tick, made when the white check fails. */
  function TickGrey(readings: nat -> int, p: Percept): (r: Probe)
    ensures p.cursor + 2 <= r.after.cursor <= p.cursor + 3
    ensures r.verdict ==> InGreyBand(readings(r.after.cursor - 1))
  {
    GreyProbe(readings, TickWhite(readings, p).after)
  }

  datatype Progress = Running | GyroStalled

  /** The script's globals between two ticks of the main loop. */
  datatype Globals = Globals(sensed: Percept, polls: nat, commands: seq<Command>, isLineFollowed: bool,
                             greyLinesCrossed: nat, isProgramComplete: bool)

  /** The program is complete exactly when a second grey line has been
      crossed. */
  predicate CompleteAtSecondGrey(g: Globals) {
    g.isProgramComplete <==> g.greyLinesCrossed >= 2
  }

  /** A grey crossing on the globals: the count goes up; the first
      crossing spins on the spot and steps forward, a later one completes
      the program and stops the motors. */
  function CrossSpec(readings: nat -> int, gyro: seq<int>, g: Globals): (r: (Progress, Globals))
    requires g.polls <= |gyro|
    ensures r.1.greyLinesCrossed == g.greyLinesCrossed + 1
    ensures r.1.sensed == g.sensed && r.1.isLineFollowed == g.isLineFollowed
    ensures g.polls <= r.1.polls <= |gyro| && g.commands <= r.1.commands
    ensures CompleteAtSecondGrey(g) ==> CompleteAtSecondGrey(r.1)
    ensures r.0 == GyroStalled ==> r.1.polls == |gyro| && r.1.greyLinesCrossed == 1
  {
    if g.greyLinesCrossed == 0 then
      var t := TurnSpec(readings, gyro, SpinTarget, false, false, g.sensed, g.polls);
      UncheckedTurnReadsNoColour(readings, gyro, SpinTarget, false, g.sensed, g.polls);
      var spun := g.(polls := t.polls, greyLinesCrossed := 1,
                     commands := g.commands + [ResetGyro, Stop, Steer(100.0, SpinSpeed)]);
      if t.outcome == Stalled then (GyroStalled, spun)
      else (Running, spun.(commands := spun.commands + [Steer(0.0, ForwardSpeed), Stop]))
    else
      (Running, g.(greyLinesCrossed := g.greyLinesCrossed + 1, isProgramComplete := true,
                   commands := g.commands + [Stop]))
  }

  /** `follow_green_line` on the globals: after the steering reading, a
      white verdict ends line following, a grey verdict is a crossing, and
      otherwise the steering law drives the motors. */
  function FollowSpec(readings: nat -> int, gyro: seq<int>, g: Globals): (r: (Progress, Globals))
    requires g.polls <= |gyro|
    ensures g.polls <= r.1.polls <= |gyro| && g.commands <= r.1.commands
    ensures g.greyLinesCrossed <= r.1.greyLinesCrossed <= g.greyLinesCrossed + 1
    ensures CompleteAtSecondGrey(g) ==> CompleteAtSecondGrey(r.1)
    ensures r.0 == GyroStalled ==> r.1.polls == |gyro| && r.1.greyLinesCrossed == 1
  {
    var white := TickWhite(readings, g.sensed);
    if white.verdict then (Running, g.(sensed := white.after, isLineFollowed := false))
    else
      var grey := TickGrey(readings, g.sensed);
      if grey.verdict then CrossSpec(readings, gyro, g.(sensed := grey.after))
      else
        (Running, g.(sensed := grey.after,
                     commands := g.commands + [Steer(Steering(readings(g.sensed.cursor)), ForwardSpeed)]))
  }

  /** One tick of the main loop: follow the line while it is followed,
      search for it otherwise. The first component says whether the gyro
      stream ran out during the tick. */
  function TickSpec(readings: nat -> int, gyro: seq<int>, g: Globals): (r: (bool, Globals))
    requires g.polls <= |gyro|
    ensures r.0 ==> r.1.polls == |gyro|
    ensures g.polls <= r.1.polls <= |gyro| && g.commands <= r.1.commands
    ensures g.greyLinesCrossed <= r.1.greyLinesCrossed
    ensures CompleteAtSecondGrey(g) && !g.isProgramComplete ==>
      CompleteAtSecondGrey(r.1) && (r.0 ==> !r.1.isProgramComplete)
  {
    if g.isLineFollowed then
      var (progress, h) := FollowSpec(readings, gyro, g);
      (progress == GyroStalled, h)
    else
      SearchStallsAtGyroEnd(readings, gyro, 0, g.sensed, g.polls, g.commands);
      SearchExtendsLog(readings, gyro, 0, g.sensed, g.polls, g.commands);
      var s := SearchSpec(readings, gyro, 0, g.sensed, g.polls, g.commands);
      (s.outcome == SearchStalled,
       g.(sensed := s.state, polls := s.polls, commands := s.log, isLineFollowed := s.outcome == Found))
  }

  /** The main loop from its `ticks`-th tick on, with `fuel` ticks in
      all; once the completion flag is set the motors are stopped. */
  function RunFrom(readings: nat -> int, gyro: seq<int>, g: Globals, ticks: nat, fuel: nat): RunResult<Globals>
    requires g.polls <= |gyro| && ticks <= fuel
    decreases fuel - ticks
  {
    if g.isProgramComplete then RunResult(Completed, g.(commands := g.commands + [Stop]), ticks)
    else if ticks == fuel then RunResult(OutOfFuel, g, ticks)
    else
      var (stalled, h) := TickSpec(readings, gyro, g);
      if stalled then RunResult(RunStalled, h, ticks)
      else RunFrom(readings, gyro, h, ticks + 1, fuel)
  }

  /** How a bounded run ends: within its budget; out of fuel only after
      every tick of it, and then incomplete; complete exactly when the
      completion flag is set, after a second grey line and with the motors
      stopped; stalled only at the end of the gyro stream. */
  lemma {:induction false} RunFromEnds(readings: nat -> int, gyro: seq<int>, g: Globals, ticks: nat, fuel: nat)
    requires g.polls <= |gyro| && ticks <= fuel && CompleteAtSecondGrey(g)
    ensures var r := RunFrom(readings, gyro, g, ticks, fuel);
      ticks <= r.ticks <= fuel &&
      (r.outcome == OutOfFuel ==> r.ticks == fuel && !r.globals.isProgramComplete) &&
      (r.outcome == Completed <==> r.globals.isProgramComplete) &&
      (r.outcome == Completed ==> r.globals.greyLinesCrossed >= 2 && EndsWithStop(r.globals.commands)) &&
      (r.outcome == RunStalled ==> r.globals.polls == |gyro|)
    decreases fuel - ticks
  {
    if !g.isProgramComplete && ticks < fuel {
      var (stalled, h) := TickSpec(readings, gyro, g);
      if !stalled {
        RunFromEnds(readings, gyro, h, ticks + 1, fuel);
      }
    }
  }

  /** A run only moves forward: the gyro position and the grey count never
      decrease, and commands are only ever appended. */
  lemma {:induction false} RunFromGrows(readings: nat -> int, gyro: seq<int>, g: Globals, ticks: nat, fuel: nat)
    requires g.polls <= |gyro| && ticks <= fuel
    ensures var r := RunFrom(readings, gyro, g, ticks, fuel);
      g.polls <= r.globals.polls && g.greyLinesCrossed <= r.globals.greyLinesCrossed &&
      g.commands <= r.globals.commands
    decreases fuel - ticks
  {
    if !g.isProgramComplete && ticks < fuel {
      var (stalled, h) := TickSpec(readings, gyro, g);
      if !stalled {
        RunFromGrows(readings, gyro, h, ticks + 1, fuel);
      }
    }
  }

  /** The tick budget only cuts runs short: a run that ends within its
      budget ends the same way with any larger one. */
  lemma {:induction false} RunFromMoreFuel(readings: nat -> int, gyro: seq<int>, g: Globals, ticks: nat,
                                           fuel: nat, more: nat)
    requires g.polls <= |gyro| && ticks <= fuel <= more
    requires RunFrom(readings, gyro, g, ticks, fuel).outcome != OutOfFuel
    ensures RunFrom(readings, gyro, g, ticks, more) == RunFrom(readings, gyro, g, ticks, fuel)
    decreases fuel - ticks
  {
    if !g.isProgramComplete {
      var (stalled, h) := TickSpec(readings, gyro, g);
      if !stalled {
        RunFromMoreFuel(readings, gyro, h, ticks + 1, fuel, more);
      }
    }
  }


  /** The script's hardware and globals. `readings` and `gyro` are the
      colour and gyro inputs in the order they are read; `cursor` and
      `polls` count how many of each have been consumed; `commands` is
      the log of motor and gyro-reset calls. */
  class Controller {
    const readings: nat -> int
    const gyro: seq<int>
    var cursor: nat
    var polls: nat
    var recentValues: seq<int>
    var isLineFollowed: bool
    var greyLinesCrossed: nat
    var isProgramComplete: bool
    var commands: seq<Command>

    function Sensed(): Percept
      reads this
    {
      Percept(recentValues, cursor)
    }

    function Current(): Globals
      reads this
    {
      Globals(Sensed(), polls, commands, isLineFollowed, greyLinesCrossed, isProgramComplete)
    }

    /** The buffer holds the latest readings, the gyro position is within
        its stream, and the program is complete exactly when a second
        grey line has been crossed. */
    ghost predicate Valid()
      reads this
    {
      Holds(readings, Sensed()) && polls <= |gyro| &&
      (isProgramComplete <==> greyLinesCrossed >= 2)
    }

    /** The module-level initialisation of the globals. */
    constructor (readings: nat -> int, gyro: seq<int>)
      ensures Valid()
      ensures this.readings == readings && this.gyro == gyro
      ensures cursor == 0 && polls == 0 && recentValues == [] && commands == []
      ensures isLineFollowed && greyLinesCrossed == 0 && !isProgramComplete
    {
      this.readings := readings;
      this.gyro := gyro;
      cursor, polls := 0, 0;
      recentValues := [];
      isLineFollowed := true;
      greyLinesCrossed := 0;
      isProgramComplete := false;
      commands := [];
    }

    /** `get_color` */
    method GetColor() returns (value: int)
      requires Valid()
      modifies this`recentValues, this`cursor
      ensures Valid()
      ensures value == readings(old(cursor))
      ensures Sensed() == Sample(readings, old(Sensed()))
    {
      SampleKeepsHistory(readings, Sensed());
      value := readings(cursor);
      cursor := cursor + 1;
      recentValues := recentValues + [value];
      if |recentValues| > Capacity {
        recentValues := recentValues[1..];
      }
    }

    /** `is_green` */
    method IsGreen() returns (green: bool)
      requires Valid()
      modifies this`recentValues, this`cursor
      ensures Valid()
      ensures Probe(green, Sensed()) == GreenProbe(readings, old(Sensed()))
    {
      if |recentValues| < Capacity {
        var value := GetColor();
        return value <= GreenMax;
      }
      return AllAtMost(Last(recentValues, GreenWindow), GreenMax);
    }

    /** `is_grey` */
    method IsGrey() returns (grey: bool)
      requires Valid()
      modifies this`recentValues, this`cursor
      ensures Valid()
      ensures Probe(grey, Sensed()) == GreyProbe(readings, old(Sensed()))
    {
      var value := GetColor();
      if GreyMin <= value <= GreyMax {
        var greyCount := GreyCount(Last(recentValues, GreyWindow));
        return greyCount >= GreyQuorum;
      }
      return false;
    }

    /** `is_white` */
    method IsWhite() returns (white: bool)
      requires Valid()
      modifies this`recentValues, this`cursor
      ensures Valid()
      ensures Probe(white, Sensed()) == WhiteProbe(readings, old(Sensed()))
    {
      if |recentValues| < Capacity {
        var value := GetColor();
        return value >= WhiteMin;
      }
      return AllAtLeast(Last(recentValues, WhiteWindow), WhiteMin);
    }

    /** `is_green() or is_grey()` */
    method Reacquire() returns (found: bool)
      requires Valid()
      modifies this`recentValues, this`cursor
      ensures Valid()
      ensures Probe(found, Sensed()) == ReacquireProbe(readings, old(Sensed()))
    {
      found := IsGreen();
      if !found {
        found := IsGrey();
      }
    }

    /** `gyro_sensor.angle`: consumes the next gyro reading. */
    method PollGyro() returns (angle: int)
      requires Valid() && polls < |gyro|
      modifies this`polls
      ensures Valid()
      ensures angle == gyro[old(polls)] && polls == old(polls) + 1
    {
      angle := gyro[polls];
      polls := polls + 1;
    }

    /** One `while gyro_sensor.angle ...:` loop, with or without the
        colour check inside it. */
    method PollUntil(limit: int, counterClockwise: bool, watch: bool) returns (outcome: TurnOutcome)
      requires Valid()
      modifies this`recentValues, this`cursor, this`polls
      ensures Valid()
      ensures Turn(outcome, Sensed(), polls)
           == TurnSpec(readings, gyro, limit, counterClockwise, watch, old(Sensed()), old(polls))
    {
      while polls < |gyro|
        invariant Valid()
        invariant TurnSpec(readings, gyro, limit, counterClockwise, watch, Sensed(), polls)
               == TurnSpec(readings, gyro, limit, counterClockwise, watch, old(Sensed()), old(polls))
        decreases |gyro| - polls
      {
        var angle := PollGyro();
        if !StillTurning(angle, limit, counterClockwise) {
          return Reached;
        }
        if watch {
          var found := Reacquire();
          if found {
            return Reacquired;
          }
        }
      }
      return Stalled;
    }

    /** The grey branch of `follow_green_line`: count the crossing; at
        the first one spin the robot round on the spot and step forward,
        at a later one complete the program. No colour reading is taken. */
    method CrossGrey() returns (progress: Progress)
      requires Valid()
      modifies this`recentValues, this`cursor, this`polls, this`commands,
               this`greyLinesCrossed, this`isProgramComplete
      ensures Valid()
      ensures (progress, Current()) == CrossSpec(readings, gyro, old(Current()))
      ensures greyLinesCrossed == old(greyLinesCrossed) + 1 && Sensed() == old(Sensed())
      ensures old(greyLinesCrossed) == 0 ==>
        var t := TurnSpec(readings, gyro, SpinTarget, false, false, old(Sensed()), old(polls));
        polls == t.polls && !isProgramComplete &&
        (progress == GyroStalled <==> t.outcome == Stalled) &&
        commands == old(commands) + [ResetGyro, Stop, Steer(100.0, SpinSpeed)] +
                    (if t.outcome == Stalled then [] else [Steer(0.0, ForwardSpeed), Stop])
      ensures old(greyLinesCrossed) > 0 ==>
        polls == old(polls) && isProgramComplete && commands == old(commands) + [Stop] && progress == Running
    {
      greyLinesCrossed := greyLinesCrossed + 1;
      if greyLinesCrossed == 1 {
        commands := commands + [ResetGyro, Stop, Steer(100.0, SpinSpeed)];
        UncheckedTurnReadsNoColour(readings, gyro, SpinTarget, false, Sensed(), polls);
        var outcome := PollUntil(SpinTarget, false, false);
        if outcome == Stalled {
          return GyroStalled;
        }
        commands := commands + [Steer(0.0, ForwardSpeed), Stop];
      } else if greyLinesCrossed >= 2 {
        isProgramComplete := true;
        commands := commands + [Stop];
      }
      return Running;
    }

    /** `follow_green_line`: one tick of line following. The steering
        reading comes first; a white verdict then ends line following, a
        grey verdict counts a crossing, and otherwise the steering law
        drives the motors. */
    method FollowGreenLine() returns (progress: Progress)
      requires Valid()
      modifies this`recentValues, this`cursor, this`polls, this`commands,
               this`isLineFollowed, this`greyLinesCrossed, this`isProgramComplete
      ensures Valid()
      ensures (progress, Current()) == FollowSpec(readings, gyro, old(Current()))
      ensures polls >= old(polls) && greyLinesCrossed >= old(greyLinesCrossed) && old(commands) <= commands
      ensures progress == GyroStalled ==> polls == |gyro|
      ensures TickWhite(readings, old(Sensed())).verdict ==>
        !isLineFollowed && Sensed() == TickWhite(readings, old(Sensed())).after &&
        polls == old(polls) && commands == old(commands) && greyLinesCrossed == old(greyLinesCrossed) &&
        isProgramComplete == old(isProgramComplete) && progress == Running
      ensures !TickWhite(readings, old(Sensed())).verdict && !TickGrey(readings, old(Sensed())).verdict ==>
        Sensed() == TickGrey(readings, old(Sensed())).after && polls == old(polls) &&
        commands == old(commands) + [Steer(Steering(readings(old(cursor))), ForwardSpeed)] &&
        isLineFollowed == old(isLineFollowed) && greyLinesCrossed == old(greyLinesCrossed) &&
        isProgramComplete == old(isProgramComplete) && progress == Running
      ensures !TickWhite(readings, old(Sensed())).verdict && TickGrey(readings, old(Sensed())).verdict ==>
        Sensed() == TickGrey(readings, old(Sensed())).after &&
        greyLinesCrossed == old(greyLinesCrossed) + 1 && isLineFollowed == old(isLineFollowed)
      ensures !TickWhite(readings, old(Sensed())).verdict && TickGrey(readings, old(Sensed())).verdict &&
              old(greyLinesCrossed) == 0 ==>
        var t := TurnSpec(readings, gyro, SpinTarget, false, false, Sensed(), old(polls));
        polls == t.polls && !isProgramComplete &&
        (progress == GyroStalled <==> t.outcome == Stalled) &&
        commands == old(commands) + [ResetGyro, Stop, Steer(100.0, SpinSpeed)] +
                    (if t.outcome == Stalled then [] else [Steer(0.0, ForwardSpeed), Stop])
      ensures !TickWhite(readings, old(Sensed())).verdict && TickGrey(readings, old(Sensed())).verdict &&
              old(greyLinesCrossed) > 0 ==>
        polls == old(polls) && isProgramComplete && commands == old(commands) + [Stop] && progress == Running
    {
      ghost var start := Current();
      var sensorValue := GetColor();
      var white := IsWhite();
      assert Probe(white, Sensed()) == TickWhite(readings, start.sensed);
      if white {
        isLineFollowed := false;
        progress := Running;
      } else {
        var grey := IsGrey();
        assert Probe(grey, Sensed()) == TickGrey(readings, start.sensed);
        if grey {
          assert Current() == start.(sensed := TickGrey(readings, start.sensed).after);
          progress := CrossGrey();
        } else {
          commands := commands + [Steer(Steering(sensorValue), ForwardSpeed)];
          progress := Running;
        }
      }
    }

    /** One iteration of the angle loop of `oscillated_search`. */
    method SweepAt(angle: int) returns (outcome: SearchOutcome)
      requires Valid()
      modifies this`recentValues, this`cursor, this`polls, this`commands, this`isLineFollowed
      ensures Valid()
      ensures isLineFollowed == (old(isLineFollowed) || outcome == Found)
      ensures Search(outcome, Sensed(), polls, commands)
           == SweepSpec(readings, gyro, angle, old(Sensed()), old(polls), old(commands))
    {
      ghost var start, log := Sensed(), commands;
      ghost var out := TurnSpec(readings, gyro, angle, true, true, start, polls);
      commands := commands + SwingOut(OscillationSpeed);
      var turn := PollUntil(angle, true, true);
      assert out == Turn(turn, Sensed(), polls);
      if turn == Reacquired {
        isLineFollowed := true;
        return Found;
      } else if turn == Stalled {
        return SearchStalled;
      }
      ghost var over := TurnSpec(readings, gyro, 2 * angle, false, true, Sensed(), polls);
      commands := commands + SwingOver(OscillationSpeed);
      turn := PollUntil(2 * angle, false, true);
      assert over == Turn(turn, Sensed(), polls);
      if turn == Reacquired {
        isLineFollowed := true;
        return Found;
      } else if turn == Stalled {
        return SearchStalled;
      }
      ghost var back := TurnSpec(readings, gyro, angle, true, false, Sensed(), polls);
      commands := commands + SwingBack(OscillationSpeed);
      turn := PollUntil(angle, true, false);
      assert back == Turn(turn, Sensed(), polls);
      if turn == Stalled {
        assert commands == log + SwingOut(OscillationSpeed) + SwingOver(OscillationSpeed) + SwingBack(OscillationSpeed);
        return SearchStalled;
      }
      commands := commands + [Stop];
      assert commands == Swept(log, OscillationSpeed);
      return Exhausted;
    }

    /** `oscillated_search`: sweep each angle in turn until the line is
        found; stop the motors when every angle has been swept. It never
        touches the crossing counter or the completion flag. */
    method OscillatedSearch() returns (outcome: SearchOutcome)
      requires Valid()
      modifies this`recentValues, this`cursor, this`polls, this`commands, this`isLineFollowed
      ensures Valid()
      ensures isLineFollowed == (old(isLineFollowed) || outcome == Found)
      ensures Search(outcome, Sensed(), polls, commands)
           == SearchSpec(readings, gyro, 0, old(Sensed()), old(polls), old(commands))
    {
      for i := 0 to |SearchAngles|
        invariant Valid()
        invariant isLineFollowed == old(isLineFollowed)
        invariant SearchSpec(readings, gyro, i, Sensed(), polls, commands)
               == SearchSpec(readings, gyro, 0, old(Sensed()), old(polls), old(commands))
      {
        var sweep := SweepAt(SearchAngles[i]);
        if sweep != Exhausted {
          return sweep;
        }
      }
      commands := commands + [Stop];
      return Exhausted;
    }

    /** The body of the main loop: follow the line while it is followed,
        search for it otherwise. */
    method Tick() returns (stalled: bool)
      requires Valid()
      modifies this`recentValues, this`cursor, this`polls, this`commands,
               this`isLineFollowed, this`greyLinesCrossed, this`isProgramComplete
      ensures Valid()
      ensures (stalled, Current()) == TickSpec(readings, gyro, old(Current()))
    {
      if isLineFollowed {
        var progress := FollowGreenLine();
        stalled := progress == GyroStalled;
      } else {
        var search := OscillatedSearch();
        stalled := search == SearchStalled;
      }
    }

    /** The main loop `while not is_program_complete`, bounded by a tick
        budget, followed by the final stop. */
    method Run(fuel: nat) returns (outcome: RunOutcome, ticks: nat)
      requires Valid()
      modifies this`recentValues, this`cursor, this`polls, this`commands,
               this`isLineFollowed, this`greyLinesCrossed, this`isProgramComplete
      ensures Valid()
      ensures RunResult(outcome, Current(), ticks) == RunFrom(readings, gyro, old(Current()), 0, fuel)
      ensures ticks <= fuel && (outcome == OutOfFuel ==> ticks == fuel)
      ensures greyLinesCrossed >= old(greyLinesCrossed) && polls >= old(polls) && old(commands) <= commands
      ensures outcome == Completed <==> isProgramComplete
      ensures outcome == Completed ==> greyLinesCrossed >= 2 && EndsWithStop(commands)
      ensures outcome == RunStalled ==> polls == |gyro|
    {
      ghost var start := Current();
      outcome, ticks := Completed, 0;
      while !isProgramComplete
        invariant Valid()
        invariant ticks <= fuel
        invariant RunFrom(readings, gyro, Current(), ticks, fuel) == RunFrom(readings, gyro, start, 0, fuel)
        decreases fuel - ticks
      {
        if ticks == fuel {
          outcome := OutOfFuel;
          break;
        }
        var stalled := Tick();
        if stalled {
          outcome := RunStalled;
          break;
        }
        ticks := ticks + 1;
      }
      if outcome == Completed {
        commands := commands + [Stop];
      }
      assert RunResult(outcome, Current(), ticks) == RunFrom(readings, gyro, start, 0, fuel);
      RunFromEnds(readings, gyro, start, 0, fuel);
      RunFromGrows(readings, gyro, start, 0, fuel);
    }

    /** `myrobot_2`'s program: `new_csv_file` takes one colour reading for
        its start-of-program log entry, then the same main loop runs. */
    method RunLogged(fuel: nat) returns (outcome: RunOutcome, ticks: nat)
      requires Valid()
      modifies this`recentValues, this`cursor, this`polls, this`commands,
               this`isLineFollowed, this`greyLinesCrossed, this`isProgramComplete
      ensures Valid()
      ensures RunResult(outcome, Current(), ticks)
           == RunFrom(readings, gyro, old(Current()).(sensed := Sample(readings, old(Sensed()))), 0, fuel)
      ensures ticks <= fuel && (outcome == OutOfFuel ==> ticks == fuel)
      ensures greyLinesCrossed >= old(greyLinesCrossed) && polls >= old(polls) && old(commands) <= commands
      ensures outcome == Completed <==> isProgramComplete
      ensures outcome == Completed ==> greyLinesCrossed >= 2 && EndsWithStop(commands)
      ensures outcome == RunStalled ==> polls == |gyro|
    {
      var _ := GetColor();
      outcome, ticks := Run(fuel);
    }
  }
}
