# Line-follower controllers of three LEGO EV3 robot scripts

This project models the control core of three Python scripts for an EV3
robot with a colour sensor, a gyro and a pair of steering motors, and
proves properties of that model.

- `myrobot/main.py` follows a green line. It debounces its colour
  predicates over a buffer of the last fifteen readings. It counts grey
  crossings: the first one makes the robot spin round on the spot, and
  the second one ends the program. When the line is lost, it searches
  for it by oscillating through growing angles.
- `myrobot_2/main.py` runs the same controller, with CSV logging and
  odometry added around it.
- `myrobot_3/main.py` follows a black line. Its predicates each use one
  fresh reading, and its steering law is real-valued. Its search calls
  an obstacle handler, and exhausting the search ends the program.

The modules are:

- `SampleBuffer` (`sample_buffer.dfy`): `get_color` and its fifteen-entry
  buffer. The colour sensor is an endless stream of readings, and the
  buffer is proved to always hold the latest readings taken.
- `Drive` (`drive.dfy`): motor and gyro-reset calls as a command log, the
  steering clamp, a generic gyro-bounded rotation loop with the lemmas
  about where it stops and which of its colour checks succeed, and the
  command blocks of one angle of an oscillated search, which the two
  scripts share with different speeds.
- `GreenLine` (`green_line.dfy`): `myrobot` and `myrobot_2`. Pure
  specification functions for the colour predicates, the rotation loops
  and the search. A `Controller` class holds the script's globals as
  fields, and its methods are proved against those functions.
- `BlackLine` (`black_line.dfy`): `myrobot_3`, in the same style.

How the environment is modelled:

- The gyro is a finite sequence of readings. A rotation loop that has
  used it up ends `Stalled`, and the run then ends `RunStalled`.
- The main loop `while not is_program_complete` runs for at most `fuel`
  ticks, and the run ends `OutOfFuel` if it is not complete by then.
  Each script's globals are also a value, `Globals`. One tick of the loop
  is `TickSpec`, and a bounded run is `RunFrom`. The controller's `Run`
  is proved to end exactly as `RunFrom` says.
- In `myrobot_3`, `check_obstacles` is opaque. Its only effect on the
  line follower that the model keeps is the colour readings its box
  manoeuvre takes: `box_skip` loops on `is_black`. So it is an input
  `detours: nat -> nat`: the `k`-th call takes `detours(k)` readings
  through `get_color`. That count is zero when no obstacle is in range.
  The call cannot change `is_line_followed` or `is_program_complete`:
  its `modifies` clause does not name them.

## Model

| member | source | states |
|---|---|---|
| SampleBuffer.Record | myrobot/main.py:37-39 | appending to the buffer grows it by one until it holds fifteen values, after which its length stays fifteen |
| SampleBuffer.Last | myrobot/main.py:47 | `s[-k:]` is the last `min(len(s), k)` elements of `s` |
| SampleBuffer.Readings | myrobot/main.py:34-40 | the readings number `from` to `to` in the order taken |
| SampleBuffer.Sample | myrobot/main.py:34-40 | one `get_color` consumes exactly one reading and records it in the buffer |
| SampleBuffer.SampleKeepsHistory | myrobot/main.py:34-40 | after `get_color` the buffer still holds exactly the latest readings, oldest first, at most fifteen |
| SampleBuffer.HistoryLength | myrobot/main.py:45 | the buffer is shorter than fifteen exactly while fewer than fifteen readings have been taken |
| SampleBuffer.WindowIsLatestReadings | myrobot/main.py:47 | the window `recent_values[-k:]` is the last `k` readings taken (all of them at start-up) |
| Drive.Clamp | myrobot/main.py:105 | `max(lo, min(hi, x))` lies in `[lo, hi]`, passes a value inside unchanged and saturates at the bound it crosses |
| Drive.Rotation | myrobot/main.py:122-127 | a gyro-bounded loop consumes gyro readings from its start position on and stalls only at the end of the gyro stream |
| Drive.RotationStallsShortOfBound | myrobot/main.py:122 | a rotation that stalls saw every remaining gyro reading short of its bound |
| Drive.RotationStopsAtBound | myrobot/main.py:122-127 | about the gyro readings only: a rotation that does not stall ends `Reached` exactly when its last gyro reading is past the bound, and every gyro reading before that one was short of it |
| Drive.RotationFirstSuccess | myrobot/main.py:122-127 | the checks of a rotation run one after another on the state each one leaves; every check but the last failed; the rotation ends `Reacquired` exactly when the last check succeeded, in the state that check left, and otherwise in the state after all of its checks; one gyro poll per check, plus one for a reading past the bound |
| GreenLine.GreyCount | myrobot/main.py:55 | the count of in-band values never exceeds the number of values counted |
| GreenLine.GreenProbe | myrobot/main.py:43-47 | `is_green` takes exactly one fresh reading while the buffer holds fewer than fifteen values, and takes none and leaves the buffer alone once it is full |
| GreenLine.WhiteProbe | myrobot/main.py:60-64 | `is_white` takes exactly one fresh reading while the buffer holds fewer than fifteen values, and takes none and leaves the buffer alone once it is full |
| GreenLine.GreyProbe | myrobot/main.py:50-57 | `is_grey` says grey only when its fresh reading is in `[30, 45]` and the buffer holds at least three values |
| GreenLine.GreenDebounce | myrobot/main.py:43-47 | `is_green`: before fifteen readings, one fresh reading at most 20; afterwards, the seven most recent readings are at most 20 and no reading is consumed |
| GreenLine.WhiteDebounce | myrobot/main.py:60-64 | `is_white`: before fifteen readings, one fresh reading at least 55; afterwards, the twelve most recent readings are at least 55 and no reading is consumed |
| GreenLine.GreyMajority | myrobot/main.py:50-57 | `is_grey` consumes one reading; grey iff that reading is in the band and at least three of the five most recent readings are; never grey before three readings have been taken |
| GreenLine.ReacquireProbe | myrobot/main.py:124 | `is_green() or is_grey()` takes at most two readings |
| GreenLine.ReacquireConsumption | myrobot/main.py:124 | `is_green() or is_grey()` short-circuits: between zero and two readings; two iff the buffer is filling and the first reading is not green; none iff the full buffer's green window holds |
| GreenLine.Steering | myrobot/main.py:71-72 | the steering value `clamp(v - 10)` lies in `[-80, 80]` and is exact for readings in `[-70, 90]` |
| GreenLine.TurnSpec | myrobot/main.py:122-127 | a rotation loop of the green controller stops within the gyro stream, stalling only at its end |
| GreenLine.TurnIsRotation | myrobot/main.py:122-145 | every rotation loop of the green controller is a `Rotation` with `is_green() or is_grey()` as its check, or none |
| GreenLine.TurnFirstSuccess | myrobot/main.py:122-127 | a watched rotation loop stops at the first `is_green() or is_grey()` that is true: every earlier answer was false, and the loop ends `Reacquired` exactly when its last answer is true |
| GreenLine.TurnVerdictsAreVerdicts | myrobot/main.py:122-127 | the answers of a watched rotation loop are those of the generic `Rotation` with `is_green() or is_grey()` as its check |
| GreenLine.UncheckedTurnReadsNoColour | myrobot/main.py:91-92 | a rotation loop without a colour check takes no colour reading and never ends `Reacquired` |
| GreenLine.SweepSpec | myrobot/main.py:117-146 | one angle of the search: a sweep that finds nothing issues the three rotations and their stops; one that finds the line stops in the first or second rotation; it only appends commands |
| GreenLine.SearchSpec | myrobot/main.py:109-149 | the search consumes gyro readings only within the gyro stream (which checks succeed is `SearchFirstSuccess`) |
| GreenLine.SearchStallsAtGyroEnd | myrobot/main.py:117-146 | a search that stalls has used up the gyro stream |
| GreenLine.SearchExtendsLog | myrobot/main.py:109-149 | the search only appends to the command log |
| GreenLine.SearchExhaustedSweepsAll | myrobot/main.py:117-149 | a search that finds nothing swept all six angles in full and then issued the final `off` |
| GreenLine.SearchFoundMidSweep | myrobot/main.py:117-137 | a search that finds the line did so in the first or second rotation of some angle, after full sweeps of the earlier angles |
| GreenLine.SweepFirstSuccess | myrobot/main.py:117-138 | one angle stops at the first true answer of `is_green() or is_grey()` over its two watched rotations: every earlier answer was false, and the angle finds the line exactly when its last answer is true |
| GreenLine.SearchFirstSuccess | myrobot/main.py:117-146 | the search stops at the first true answer over all its watched rotations and finds the line exactly when that answer exists; a search that does not find the line got only false answers, in every rotation of every angle it ran |
| GreenLine.SearchFoundOnFirstPoll | myrobot/main.py:119-126 | when the first gyro poll is short of the bound and the colour check succeeds, the search returns at once with the line found |
| GreenLine.TickWhite | myrobot/main.py:71-75 | the white check of a following tick comes after the steering reading: one or two readings in all |
| GreenLine.TickGrey | myrobot/main.py:71-80 | the grey check after a failed white check: two or three readings in all, and grey only when the last of them is in `[30, 45]` |
| GreenLine.CrossSpec | myrobot/main.py:80-102 | a grey crossing adds exactly one to the count and leaves the buffer and the line-followed flag alone; it only moves the gyro forward and only appends commands; it keeps "complete exactly after two crossings"; it stalls only on the first crossing and only at the end of the gyro stream |
| GreenLine.FollowSpec | myrobot/main.py:67-106 | a following tick only moves the gyro forward and only appends commands; it adds at most one to the crossing count; it keeps "complete exactly after two crossings"; it stalls only during the spin of the first crossing |
| GreenLine.TickSpec | myrobot/main.py:153-157 | one tick of the main loop, a follow or a search, only moves the gyro forward and only appends commands; it never lowers the crossing count; it stalls only at the end of the gyro stream; from an incomplete state it keeps "complete exactly after two crossings", and a stalled tick leaves the program incomplete |
| GreenLine.RunFromEnds | myrobot/main.py:152-160 | a bounded run ends within its budget; it runs out of fuel only after every tick of the budget, and then the program is not complete; it completes exactly when the completion flag is set, and then two grey lines were crossed and the last command is `off`; it stalls only at the end of the gyro stream |
| GreenLine.RunFromGrows | myrobot/main.py:152-160 | over a run, the gyro position and the crossing count never decrease, and commands are only appended |
| GreenLine.RunFromMoreFuel | myrobot/main.py:152-160 | the tick budget only cuts runs short: a run that ends within its budget ends the same way, in the same state, with any larger budget |
| GreenLine.Controller.constructor | myrobot/main.py:25-30 | the globals start with line following on, no crossings, not complete and an empty buffer |
| GreenLine.Controller.GetColor | myrobot/main.py:34-40 | returns the next reading and records it in the buffer |
| GreenLine.Controller.IsGreen | myrobot/main.py:43-47 | agrees with `GreenProbe` on verdict and readings consumed |
| GreenLine.Controller.IsGrey | myrobot/main.py:50-57 | agrees with `GreyProbe` on verdict and readings consumed |
| GreenLine.Controller.IsWhite | myrobot/main.py:60-64 | agrees with `WhiteProbe` on verdict and readings consumed |
| GreenLine.Controller.Reacquire | myrobot/main.py:124 | agrees with `ReacquireProbe`: `is_grey` is called only when `is_green` fails |
| GreenLine.Controller.PollGyro | myrobot/main.py:122 | consumes exactly the next gyro reading |
| GreenLine.Controller.PollUntil | myrobot/main.py:122-127 | the polling loop ends as `TurnSpec` says, with the same state |
| GreenLine.Controller.CrossGrey | myrobot/main.py:80-102 | behaves as `CrossSpec` on the globals; increments the crossing count by exactly one; the first crossing resets the gyro, spins until 345 degrees, steps forward and stops; a later one completes the program and stops; no colour reading is taken |
| GreenLine.Controller.FollowGreenLine | myrobot/main.py:67-106 | behaves as `FollowSpec` on the globals; one tick: the steering reading first; then white ends line following with no command, no grey check and nothing else changed; otherwise grey runs the crossing; otherwise one `Steer(clamp(v - 10), 35)` is issued |
| GreenLine.Controller.SweepAt | myrobot/main.py:117-146 | one angle of the search behaves as `SweepSpec`; the line-followed flag is set exactly when the line is found |
| GreenLine.Controller.OscillatedSearch | myrobot/main.py:109-149 | behaves as `SearchSpec`; sets line following exactly when found; never touches the crossing count or the completion flag |
| GreenLine.Controller.Tick | myrobot/main.py:153-157 | the body of the main loop behaves as `TickSpec` on the globals |
| GreenLine.Controller.Run | myrobot/main.py:152-160 | the loop ends exactly as `RunFrom` from the starting globals says: outcome, final globals and the number of ticks completed; no more ticks than the budget, and all of them when out of fuel; the crossing count, gyro position and command log only grow; the run completes iff the program is complete, and then at least two grey lines were crossed and the last command is `off` |
| GreenLine.Controller.RunLogged | myrobot_2/main.py:61-66 | the program of `myrobot_2/main.py:236-246`: ends exactly as `RunFrom` says from the starting globals with one colour reading taken, the one `new_csv_file` takes at line 66; then the same guarantees as `Run` |
| BlackLine.Samples | myrobot_3/main.py:67-68 | `n` calls of `get_color` consume exactly `n` readings |
| BlackLine.Detour | myrobot_3/main.py:74-99 | `check_obstacles` consumes the readings of its manoeuvre and counts one call |
| BlackLine.BlackProbe | myrobot_3/main.py:110-111 | `is_black` consumes one reading and is true iff it is at most 15 |
| BlackLine.WhiteProbe | myrobot_3/main.py:114-115 | `is_white` consumes one reading and is true iff it is at least 50 |
| BlackLine.Steering | myrobot_3/main.py:128-138 | the steering `clamp(-(v - 50.5) * 0.1)` lies in `[-80, 80]`, is exact for readings in `[-749, 850]`, and stays within `[-4.95, 5.05]` for sensor readings 0 to 100 |
| BlackLine.Step | myrobot_3/main.py:161-164 | one pass of a rotation loop's body counts one obstacle check and takes that check's readings plus one for `is_black` when watching; its answer is true iff it watches and that reading is at most 15 |
| BlackLine.TurnSpec | myrobot_3/main.py:158-165 | a rotation loop of the black controller stops within the gyro stream, stalling only at its end |
| BlackLine.TurnIsRotation | myrobot_3/main.py:158-185 | every rotation loop of the search is a `Rotation` whose check is `check_obstacles` followed by `is_black` (or by nothing on the return rotation) |
| BlackLine.TurnVerdictsAreVerdicts | myrobot_3/main.py:158-165 | the answers of a watched rotation loop are those of the generic `Rotation` with `check_obstacles(); is_black()` as its check |
| BlackLine.TurnFirstSuccess | myrobot_3/main.py:158-165 | a watched rotation loop stops at the first black answer: every earlier answer was not black, and the loop ends `Reacquired` exactly when its last answer is black |
| BlackLine.ReacquiredOnBlack | myrobot_3/main.py:161-164 | a rotation loop that finds the line has a colour check, and the last reading it took is black |
| BlackLine.SweepSpec | myrobot_3/main.py:153-186 | one angle of the search: a sweep that finds nothing issues the three rotations and their stops; it only appends commands |
| BlackLine.SweepsFrom | myrobot_3/main.py:153-186 | the angle loop consumes gyro readings only within the gyro stream |
| BlackLine.SearchSpec | myrobot_3/main.py:142-189 | the search, obstacle check first, consumes gyro readings only within the gyro stream (which checks succeed is `SweepsFirstSuccess`) |
| BlackLine.SweepsStallAtGyroEnd | myrobot_3/main.py:153-186 | a search that stalls has used up the gyro stream, and the search only appends to the command log |
| BlackLine.SweepsExhaustedSweepAll | myrobot_3/main.py:153-189 | a search that finds nothing swept all four angles in full and issued no `off` after the last sweep |
| BlackLine.SweepFirstSuccess | myrobot_3/main.py:158-178 | one angle stops at the first black answer over its two watched rotations: every earlier answer was not black, and the angle finds the line exactly when its last answer is black |
| BlackLine.SweepsFirstSuccess | myrobot_3/main.py:153-186 | the angle loop stops at the first black answer over all its watched rotations and finds the line exactly when that answer exists; an exhausted or stalled search saw no black reading in the first or second rotation of any angle it ran |
| BlackLine.SweepFoundOnBlack | myrobot_3/main.py:158-178 | a sweep that finds the line ends on a black reading |
| BlackLine.SweepsFoundOnBlack | myrobot_3/main.py:153-186 | a search that finds the line ends on a black reading |
| BlackLine.FollowSpec | myrobot_3/main.py:118-139 | a following tick counts one obstacle check, takes that check's readings plus two, leaves the gyro position and the completion flag alone and only appends commands |
| BlackLine.TickSpec | myrobot_3/main.py:193-197 | one tick of the main loop, a follow or a search, only moves the gyro forward and only appends commands; it stalls only at the end of the gyro stream, and then leaves the completion flag alone |
| BlackLine.RunFromEnds | myrobot_3/main.py:192-200 | a bounded run ends within its budget; it runs out of fuel only after every tick of the budget, and then the program is not complete; it completes exactly when the completion flag is set, and then the last command is `off`; it stalls only at the end of the gyro stream; the gyro position and the command log only grow |
| BlackLine.RunFromMoreFuel | myrobot_3/main.py:192-200 | the tick budget only cuts runs short: a run that ends within its budget ends the same way, in the same state, with any larger budget |
| BlackLine.Controller.constructor | myrobot_3/main.py:25-34 | the globals start with line following on, not complete and an empty buffer |
| BlackLine.Controller.GetColor | myrobot_3/main.py:102-107 | returns the next reading and records it in the buffer |
| BlackLine.Controller.IsBlack | myrobot_3/main.py:110-111 | agrees with `BlackProbe` |
| BlackLine.Controller.IsWhite | myrobot_3/main.py:114-115 | agrees with `WhiteProbe` |
| BlackLine.Controller.CheckObstacles | myrobot_3/main.py:74-99 | consumes the readings of the manoeuvre as `Detour` says and leaves both flags alone |
| BlackLine.Controller.PollGyro | myrobot_3/main.py:158 | consumes exactly the next gyro reading |
| BlackLine.Controller.PollUntil | myrobot_3/main.py:158-165 | the polling loop ends as `TurnSpec` says, with the same state |
| BlackLine.Controller.FollowBlackLine | myrobot_3/main.py:118-139 | behaves as `FollowSpec` on the globals; one tick: obstacle check, then the steering reading, then a separate white reading; white ends line following with no command; otherwise exactly one `Steer(clamp((50.5 - v) / 10), 40)` |
| BlackLine.Controller.SweepAt | myrobot_3/main.py:153-186 | one angle of the search behaves as `SweepSpec`; the line-followed flag is set exactly when the line is found |
| BlackLine.Controller.SweepAngles | myrobot_3/main.py:153-186 | the angle loop behaves as `SweepsFrom` from the first angle; line following is set exactly when black is found |
| BlackLine.Controller.OscillatedSearch | myrobot_3/main.py:142-189 | behaves as `SearchSpec`; sets line following exactly when found and the completion flag exactly when exhausted |
| BlackLine.Controller.Tick | myrobot_3/main.py:193-197 | the body of the main loop behaves as `TickSpec` on the globals |
| BlackLine.Controller.Run | myrobot_3/main.py:192-200 | the loop ends exactly as `RunFrom` from the starting globals says: outcome, final globals and the number of ticks completed; no more ticks than the budget, and all of them when out of fuel; the gyro position and command log only grow; the run completes iff the program is complete, and then the last command is `off` |

## Left out

- The EV3 drivers: the colour sensor and the gyro are input streams, and the motors and gyro resets are a command log. Motor physics is not modelled, so the gyro readings are independent of the commands.
- `time.sleep` calls and the real-time behaviour of the loops.
- The odometry and CSV logging of `myrobot_2` (`update`, `store`, `log`, `new_csv_file`'s file writing). Only the colour reading that `new_csv_file` takes is kept, in `RunLogged`.
- The obstacle manoeuvres of `myrobot_3` (`box_skip` and the wall turn in `check_obstacles`). Their motor commands, their gyro polls and `obstacle_count` are not modelled; their colour readings are kept as the `detours` input.
- The ultrasonic distance of `myrobot_3`. Whether `check_obstacles` runs in `follow_black_line`, and what it does, is folded into the `detours` count, which is zero when nothing happens.
- Floating-point arithmetic: steering values are exact reals.
- The unbounded main loop: `Run` takes a tick budget `fuel` and reports `OutOfFuel` when it runs out.
- A gyro that never reaches its bound: the finite gyro stream ends such a loop with `Stalled`.
- `myrobot_test/visualize.py`, which plots logged data and is not part of the controller.
- GreenLine.Controller.Run: does not state on its own that the colour cursor only grows; it follows from `RunFrom`, which it matches exactly, but no lemma states it.
- BlackLine.Controller.Run: does not state on its own that the colour cursor only grows, for the same reason.
