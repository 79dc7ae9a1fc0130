/** The colour-sensor sample buffer shared by the three robot scripts.
    `get_color` reads the reflected light intensity, appends it to the
    global list `recent_values` and drops the oldest entry once the list
    holds more than `BUFFER_SIZE` readings.

    The sensor is modelled as an endless stream `readings: nat -> int`:
    the k-th call of `get_color` in the whole run returns `readings(k)`.
    A `Percept` is the part of the controller state that `get_color`
    touches: the buffer and the number of readings taken so far. */
module SampleBuffer {

  /** BUFFER_SIZE */
  const Capacity := 15

  function Min(a: int, b: int): int {
    if a <= b then a else b
  }

  /** `recent_values.append(value)` followed by `pop(0)` when the list
      has grown beyond the capacity. */
  function Record(recent: seq<int>, v: int): (r: seq<int>)
    ensures |r| == if |recent| < Capacity then |recent| + 1 else |recent|
    ensures |recent| <= Capacity ==> |r| <= Capacity
  {
    var appended := recent + [v];
    if |appended| > Capacity then appended[1..] else appended
  }

  /** Python's slice `s[-k:]` for a positive `k`: the last `k` elements,
      or all of `s` when it is shorter. */
  function Last(s: seq<int>, k: nat): (r: seq<int>)
    requires k > 0
    ensures |r| == Min(|s|, k)
    ensures r == s[|s| - |r|..]
  {
    if |s| <= k then s else s[|s| - k..]
  }

  /** The readings number `from` up to, but excluding, number `to`, in
      the order they were taken. */
  function Readings(readings: nat -> int, from: nat, to: nat): (r: seq<int>)
    requires from <= to
    ensures |r| == to - from
    ensures forall i :: 0 <= i < |r| ==> r[i] == readings(from + i)
  {
    seq(to - from, i requires 0 <= i < to - from => readings(from + i))
  }

  datatype Percept = Percept(recent: seq<int>, cursor: nat)

  /** The result of a colour predicate: its verdict and the percept after
      the readings it consumed. */
  datatype Probe = Probe(verdict: bool, after: Percept)

  /** The buffer holds exactly the most recent readings, oldest first:
      all of them while fewer than `Capacity` have been taken, the last
      `Capacity` ones afterwards. */
  predicate Holds(readings: nat -> int, p: Percept) {
    |p.recent| == Min(p.cursor, Capacity) &&
    forall i :: 0 <= i < |p.recent| ==> p.recent[i] == readings(p.cursor - |p.recent| + i)
  }

  /** One call of `get_color`: consume the next reading and record it. */
  function Sample(readings: nat -> int, p: Percept): (q: Percept)
    ensures q.cursor == p.cursor + 1
    ensures q.recent == Record(p.recent, readings(p.cursor))
  {
    Percept(Record(p.recent, readings(p.cursor)), p.cursor + 1)
  }

  /** `get_color` keeps the buffer equal to the latest readings. */
  lemma {:induction false} SampleKeepsHistory(readings: nat -> int, p: Percept)
    requires Holds(readings, p)
    ensures Holds(readings, Sample(readings, p))
  {
    var q := Sample(readings, p);
    var v := readings(p.cursor);
    if |p.recent| < Capacity {
      assert q.recent == p.recent + [v];
      forall i | 0 <= i < |q.recent|
        ensures q.recent[i] == readings(q.cursor - |q.recent| + i)
      {
        if i < |p.recent| {
          assert q.recent[i] == p.recent[i];
        }
      }
    } else {
      assert q.recent == p.recent[1..] + [v];
      forall i | 0 <= i < |q.recent|
        ensures q.recent[i] == readings(q.cursor - |q.recent| + i)
      {
        if i < |p.recent| - 1 {
          assert q.recent[i] == p.recent[i + 1];
        }
      }
    }
  }

  /** A buffer that holds the reading history knows its length from the
      number of readings taken. */
  lemma {:induction false} HistoryLength(readings: nat -> int, p: Percept)
    requires Holds(readings, p)
    ensures |p.recent| == Min(p.cursor, Capacity)
    ensures |p.recent| < Capacity <==> p.cursor < Capacity
  {
  }

  /** The window `recent_values[-k:]` of a buffer that holds the history
      is the last `k` readings taken (fewer at start-up). */
  lemma {:induction false} WindowIsLatestReadings(readings: nat -> int, p: Percept, k: nat)
    requires Holds(readings, p)
    requires 0 < k <= Capacity
    ensures Last(p.recent, k) == Readings(readings, p.cursor - Min(p.cursor, k), p.cursor)
  {
    var w := Last(p.recent, k);
    var expected := Readings(readings, p.cursor - Min(p.cursor, k), p.cursor);
    assert |w| == Min(p.cursor, k) == |expected|;
    forall i | 0 <= i < |w|
      ensures w[i] == expected[i]
    {
      var j := |p.recent| - |w| + i;
      assert w[i] == p.recent[j];
      assert p.recent[j] == readings(p.cursor - |w| + i);
    }
  }
}
