/**
  The hand-written time-based operators of the flow practice suite
  (`distinctUntilTime`, `throttleFirst`, `throttleFirstV2`), the two test
  generators (`flowOfNumbers`, `flowOfAnimals`) and the two scenarios that
  exercise the operators.

  A flow is modelled by what reaches the operator: a sequence of values, each
  paired with the reading of the millisecond clock taken when the operator
  handles it. The clock itself, `delay` and the collector's printing are not
  modelled; the readings are inputs.
 */
module FlowPractice {
  import opened Streams

  datatype Animal = Cat | Dog | Fish | Bird

  /** One upstream value and the clock reading (ms) taken when it is handled. */
  datatype Timed<T> = Timed(clock: int, value: T)

  function Values<T>(xs: seq<Timed<T>>): (vs: seq<T>)
  {
    seq(|xs|, i requires 0 <= i < |xs| => xs[i].value)
  }

  // ---------------------------------------------------------------------------
  // distinctUntilTime
  // ---------------------------------------------------------------------------

  /**
    Whether `distinctUntilTime(time)` passes upstream element `i`. Both
    `lastValue` and `lastTime` are refreshed on every upstream element, so the
    reference point for element `i` is always element `i - 1`, emitted or not.
    The first element meets a `lastValue` of null and always passes.
   */
  predicate DistinctPasses<T(==)>(time: int, xs: seq<Timed<T>>, i: nat)
    requires i < |xs|
  {
    i == 0 || xs[i].value != xs[i - 1].value || xs[i].clock - xs[i - 1].clock >= time
  }

  function DistinctMask<T(==)>(time: int, xs: seq<Timed<T>>): (m: seq<bool>)
    ensures |m| == |xs|
  {
    seq(|xs|, i requires 0 <= i < |xs| => DistinctPasses(time, xs, i))
  }

  /**
    `distinctUntilTime(time)`: `start` is the clock read when collection
    begins. The result does not depend on it: the null `lastValue` lets the
    first element through before the clock is ever compared.
   */
  method DistinctUntilTime<T(==)>(start: int, time: int, upstream: seq<Timed<T>>) returns (out: seq<T>)
    ensures out == Select(Values(upstream), DistinctMask(time, upstream))
    ensures IsSubsequence(out, Values(upstream))
  {
    ghost var vs := Values(upstream);
    ghost var mask := DistinctMask(time, upstream);
    var lastTime := start;
    var lastValue: Option<T> := None;
    out := [];
    var i := 0;
    while i < |upstream|
      invariant 0 <= i <= |upstream|
      invariant i == 0 ==> lastValue == None
      invariant i > 0 ==> lastValue == Some(upstream[i - 1].value) && lastTime == upstream[i - 1].clock
      invariant out + Select(vs[i..], mask[i..]) == Select(vs, mask)
    {
      var value := upstream[i].value;
      var now := upstream[i].clock;
      SelectAfter(out, vs, mask, i);
      if Some(value) != lastValue || now - lastTime >= time {
        out := out + [value];
      }
      lastValue := Some(value);
      lastTime := now;
      i := i + 1;
    }
    assert vs[i..] == [] && mask[i..] == [];
    SelectIsSubsequence(vs, mask);
  }

  /** Whatever the clock readings, the first upstream value is emitted first. */
  lemma DistinctFirstPasses<T>(time: int, xs: seq<Timed<T>>)
    requires xs != []
    ensures var out := Select(Values(xs), DistinctMask(time, xs));
      out != [] && out[0] == xs[0].value
  {
    assert DistinctMask(time, xs)[0];
  }

  /**
    A value different from the upstream value just before it is always
    emitted, at the position that follows every earlier emission.
   */
  lemma {:induction false} DistinctEmitsChange<T>(time: int, xs: seq<Timed<T>>, i: nat)
    requires 0 < i < |xs| && xs[i].value != xs[i - 1].value
    ensures var m := DistinctMask(time, xs);
      Select(Values(xs)[..i + 1], m[..i + 1]) == Select(Values(xs)[..i], m[..i]) + [xs[i].value]
  {
    var vs, m := Values(xs), DistinctMask(time, xs);
    SelectSplit(vs[..i + 1], m[..i + 1], i);
    assert vs[..i + 1][..i] == vs[..i] && m[..i + 1][..i] == m[..i];
    assert vs[..i + 1][i..] == [xs[i].value] && m[..i + 1][i..] == [true];
  }

  /**
    A run of equal values, each arriving less than `time` after the one
    before it, contributes only its first element, however long the run
    lasts in total. The run may start anywhere its first element passes:
    at the start, at a change of value, or after a gap of at least `time`.
   */
  lemma {:induction false} DistinctSteadyRunPassesOnce<T>(time: int, xs: seq<Timed<T>>, a: nat, b: nat)
    requires a <= b < |xs|
    requires DistinctPasses(time, xs, a)
    requires forall k :: a < k <= b ==> xs[k].value == xs[a].value && xs[k].clock - xs[k - 1].clock < time
    ensures Select(Values(xs)[a..b + 1], DistinctMask(time, xs)[a..b + 1]) == [xs[a].value]
  {
    var vs, m := Values(xs), DistinctMask(time, xs);
    var run, flags := vs[a..b + 1], m[a..b + 1];
    assert flags[0] && run[0] == xs[a].value;
    assert forall k :: 0 <= k < |flags[1..]| ==> flags[1..][k] == m[a + 1 + k];
    SelectNone(run[1..], flags[1..]);
  }

  /**
    A run restarts after a gap: under a 300 ms window, v at 0, then v at
    400, 500 and 600 ms emits v twice, once for each run.
   */
  lemma DistinctRunRestartsAfterGap<T>(v: T)
    ensures var xs := [Timed(0, v), Timed(400, v), Timed(500, v), Timed(600, v)];
      Select(Values(xs), DistinctMask(300, xs)) == [v, v]
  {
    var xs := [Timed(0, v), Timed(400, v), Timed(500, v), Timed(600, v)];
    var vs, m := Values(xs), DistinctMask(300, xs);
    DistinctSteadyRunPassesOnce(300, xs, 1, 3);
    SelectSplit(vs, m, 1);
    assert vs[..1] == [v] && m[..1] == [true];
    assert vs[1..] == vs[1..4] && m[1..] == m[1..4];
  }

  /**
    The reference point moves on every upstream value, not only on emission:
    a value repeated every 200 ms under a 300 ms window is emitted once,
    although its third copy arrives 400 ms after the only emission.
   */
  lemma DistinctWindowFollowsUpstream<T>(v: T)
    ensures var xs := [Timed(0, v), Timed(200, v), Timed(400, v)];
      Select(Values(xs), DistinctMask(300, xs)) == [v]
  {
    var xs := [Timed(0, v), Timed(200, v), Timed(400, v)];
    DistinctSteadyRunPassesOnce(300, xs, 0, 2);
    assert Values(xs)[0..3] == Values(xs) && DistinctMask(300, xs)[0..3] == DistinctMask(300, xs);
  }

  // ---------------------------------------------------------------------------
  // throttleFirst and throttleFirstV2
  // ---------------------------------------------------------------------------

  /**
    The pass/drop decisions of `throttleFirst(period)` when the time of the
    last emission is `lastTime`: a value passes iff `now - lastTime >= period`,
    and only a passing value moves `lastTime`.
   */
  function ThrottleMask<T>(period: int, lastTime: int, xs: seq<Timed<T>>): (m: seq<bool>)
    ensures |m| == |xs|
    decreases |xs|
  {
    if xs == [] then []
    else
      var pass := xs[0].clock - lastTime >= period;
      [pass] + ThrottleMask(period, if pass then xs[0].clock else lastTime, xs[1..])
  }

  /** The decision at element `i` and the `lastTime` it leaves for the elements after it. */
  lemma ThrottleMaskStep<T>(period: int, lastTime: int, xs: seq<Timed<T>>, i: nat)
    requires i < |xs|
    ensures var pass := xs[i].clock - lastTime >= period;
      ThrottleMask(period, lastTime, xs[i..])
      == [pass] + ThrottleMask(period, if pass then xs[i].clock else lastTime, xs[i + 1..])
  {
    assert xs[i..][1..] == xs[i + 1..];
  }

  /**
    One step of `throttleFirst` at upstream element `i`, after the values
    already emitted: it is emitted iff it comes at least `period` after
    `lastTime`, and only then does it become the new `lastTime` for the
    elements after it.
   */
  lemma ThrottleStep<T>(period: int, lastTime: int, xs: seq<Timed<T>>, i: nat, sent: seq<T>)
    requires i < |xs|
    ensures var pass := xs[i].clock - lastTime >= period;
      sent + Select(Values(xs[i..]), ThrottleMask(period, lastTime, xs[i..]))
      == (if pass then sent + [xs[i].value] else sent)
         + Select(Values(xs[i + 1..]), ThrottleMask(period, if pass then xs[i].clock else lastTime, xs[i + 1..]))
  {
    assert xs[i..][1..] == xs[i + 1..];
    assert Values(xs[i..]) == [xs[i].value] + Values(xs[i + 1..]);
  }

  /** The clock of the last element before `j` that `m` marks, or `lastTime` when there is none. */
  function LastEmission<T>(xs: seq<Timed<T>>, m: seq<bool>, j: nat, lastTime: int): (clock: int)
    requires |m| == |xs| && j <= |xs|
  {
    if j == 0 then lastTime
    else if m[j - 1] then xs[j - 1].clock
    else LastEmission(xs, m, j - 1, lastTime)
  }

  lemma {:induction false} LastEmissionShift<T>(xs: seq<Timed<T>>, m: seq<bool>, j: nat, lastTime: int)
    requires |m| == |xs| && 1 <= j <= |xs|
    ensures LastEmission(xs, m, j, lastTime)
         == LastEmission(xs[1..], m[1..], j - 1, if m[0] then xs[0].clock else lastTime)
  {
    if j > 1 {
      LastEmissionShift(xs, m, j - 1, lastTime);
    }
  }

  /**
    The decision rule, stated per element: element `j` passes iff it comes at
    least `period` after the last element that passed before it (or after
    `lastTime` when none did).
   */
  lemma {:induction false} ThrottleDecision<T>(period: int, lastTime: int, xs: seq<Timed<T>>, j: nat)
    requires j < |xs|
    ensures var m := ThrottleMask(period, lastTime, xs);
      m[j] <==> xs[j].clock - LastEmission(xs, m, j, lastTime) >= period
    decreases j
  {
    if j > 0 {
      var m := ThrottleMask(period, lastTime, xs);
      var next := if m[0] then xs[0].clock else lastTime;
      assert m[1..] == ThrottleMask(period, next, xs[1..]);
      ThrottleDecision(period, next, xs[1..], j - 1);
      LastEmissionShift(xs, m, j, lastTime);
    }
  }

  lemma {:induction false} LastEmissionIsPrevious<T>(xs: seq<Timed<T>>, m: seq<bool>, i: nat, j: nat, lastTime: int)
    requires |m| == |xs| && i < j <= |xs| && m[i]
    requires forall k :: i < k < j ==> !m[k]
    ensures LastEmission(xs, m, j, lastTime) == xs[i].clock
  {
    if j > i + 1 {
      LastEmissionIsPrevious(xs, m, i, j - 1, lastTime);
    }
  }

  /** Two consecutive emissions are at least `period` apart. */
  lemma ThrottleSpacing<T>(period: int, lastTime: int, xs: seq<Timed<T>>, i: nat, j: nat)
    requires i < j < |xs|
    requires ThrottleMask(period, lastTime, xs)[i] && ThrottleMask(period, lastTime, xs)[j]
    requires forall k :: i < k < j ==> !ThrottleMask(period, lastTime, xs)[k]
    ensures xs[j].clock - xs[i].clock >= period
  {
    var m := ThrottleMask(period, lastTime, xs);
    ThrottleDecision(period, lastTime, xs, j);
    LastEmissionIsPrevious(xs, m, i, j, lastTime);
  }

  /**
    With `lastTime` starting at 0, a first value read at a clock of at least
    `period` always passes.
   */
  lemma ThrottleFirstValuePasses<T>(period: int, xs: seq<Timed<T>>)
    requires xs != [] && xs[0].clock >= period
    ensures var out := Select(Values(xs), ThrottleMask(period, 0, xs));
      out != [] && out[0] == xs[0].value
  {
  }

  /** `throttleFirst(period)`, collecting directly into the downstream flow. */
  method ThrottleFirst<T>(period: int, upstream: seq<Timed<T>>) returns (out: seq<T>)
    ensures out == Select(Values(upstream), ThrottleMask(period, 0, upstream))
    ensures IsSubsequence(out, Values(upstream))
  {
    ghost var spec := Select(Values(upstream), ThrottleMask(period, 0, upstream));
    var lastTime := 0;
    out := [];
    var i := 0;
    while i < |upstream|
      invariant 0 <= i <= |upstream|
      invariant out + Select(Values(upstream[i..]), ThrottleMask(period, lastTime, upstream[i..])) == spec
    {
      var value := upstream[i].value;
      var currentTime := upstream[i].clock;
      ThrottleStep(period, lastTime, upstream, i, out);
      if currentTime - lastTime >= period {
        lastTime := currentTime;
        out := out + [value];
      }
      i := i + 1;
    }
    assert upstream[i..] == [];
    SelectIsSubsequence(Values(upstream), ThrottleMask(period, 0, upstream));
  }

  /**
    `throttleFirstV2(period)`: the same decisions, but a passing value is
    sent into the channel of a `channelFlow`, and the downstream collector
    receives from that channel concurrently. `receives[i]` is how many
    buffered values the collector takes after the operator has handled
    upstream element `i` (none when the schedule is shorter); once upstream
    completes the channel is closed and the collector drains it. Whatever the
    schedule, the collector sees exactly what `throttleFirst` emits.
   */
  method ThrottleFirstV2<T>(period: int, upstream: seq<Timed<T>>, receives: seq<nat>) returns (out: seq<T>)
    ensures out == Select(Values(upstream), ThrottleMask(period, 0, upstream))
  {
    ghost var spec := Select(Values(upstream), ThrottleMask(period, 0, upstream));
    ghost var sent: seq<T> := [];
    var lastTime := 0;
    var channel: seq<T> := [];
    out := [];
    var i := 0;
    while i < |upstream|
      invariant 0 <= i <= |upstream|
      invariant sent + Select(Values(upstream[i..]), ThrottleMask(period, lastTime, upstream[i..])) == spec
      invariant out + channel == sent
    {
      var value := upstream[i].value;
      var currentTime := upstream[i].clock;
      ThrottleStep(period, lastTime, upstream, i, sent);
      if currentTime - lastTime >= period {
        lastTime := currentTime;
        channel := channel + [value];
        sent := sent + [value];
      }
      var k := if i < |receives| then receives[i] else 0;
      out, channel := Receive(out, channel, k);
      i := i + 1;
    }
    assert upstream[i..] == [];
    out := out + channel;
  }

  /**
    The collector receives up to `k` values from the channel, oldest first;
    together, what it has received and what is still buffered are unchanged.
   */
  method Receive<T>(received: seq<T>, channel: seq<T>, k: nat) returns (received': seq<T>, channel': seq<T>)
    ensures received' + channel' == received + channel
    ensures |channel'| == if k < |channel| then |channel| - k else 0
  {
    var n := if k < |channel| then k else |channel|;
    received', channel' := received + channel[..n], channel[n..];
    assert channel == channel[..n] + channel[n..];
  }

  // ---------------------------------------------------------------------------
  // Generators
  // ---------------------------------------------------------------------------

  /** How far the clock moves during `delay(ms)`: a non-positive delay returns at once. */
  function Pause(ms: int): (d: nat)
    ensures d == 0 <==> ms <= 0
    ensures ms > 0 ==> d == ms
  {
    if ms > 0 then ms else 0
  }

  /** `flowOfNumbers(n, delay)`: 1..n in order, each after a pause of `delay`. */
  method FlowOfNumbers(n: int, delay: int, start: int) returns (emitted: seq<Timed<int>>)
    ensures |emitted| == if n > 0 then n else 0
    ensures forall k :: 0 <= k < |emitted| ==> emitted[k] == Timed(start + Pause(delay) * (k + 1), k + 1)
  {
    emitted := [];
    var now := start;
    var i := 1;
    while i <= n
      invariant 1 <= i <= (if n > 0 then n + 1 else 1)
      invariant |emitted| == i - 1
      invariant now == start + Pause(delay) * (i - 1)
      invariant forall k :: 0 <= k < |emitted| ==> emitted[k] == Timed(start + Pause(delay) * (k + 1), k + 1)
    {
      now := now + Pause(delay);
      emitted := emitted + [Timed(now, i)];
      i := i + 1;
    }
  }

  /** `flowOfAnimals(delay)`: Cat, Dog, Fish, Bird, each after a pause of `delay`. */
  method FlowOfAnimals(delay: int, start: int) returns (emitted: seq<Timed<Animal>>)
    ensures Values(emitted) == [Cat, Dog, Fish, Bird]
    ensures forall k :: 0 <= k < |emitted| ==> emitted[k].clock == start + Pause(delay) * (k + 1)
  {
    var now := start + Pause(delay);
    emitted := [Timed(now, Cat)];
    now := now + Pause(delay);
    emitted := emitted + [Timed(now, Dog)];
    now := now + Pause(delay);
    emitted := emitted + [Timed(now, Fish)];
    now := now + Pause(delay);
    emitted := emitted + [Timed(now, Bird)];
  }

  // ---------------------------------------------------------------------------
  // Scenarios
  // ---------------------------------------------------------------------------

  /**
    `flow_customOperator`: Cat and Dog at the start clock `t0`, then, after a
    pause of 310 ms, Dog, Fish, Fish, Fish, Bird, through
    `distinctUntilTime(300)`.
   */
  method CustomOperator(t0: int) returns (collected: seq<Animal>)
    ensures collected == [Cat, Dog, Dog, Fish, Bird]
  {
    collected := DistinctUntilTime(t0, 300, CustomUpstream(t0));
    CustomOperatorPasses(t0);
  }

  /** The upstream of `flow_customOperator`, with the clock readings the operator takes. */
  function CustomUpstream(t0: int): seq<Timed<Animal>>
  {
    [Timed(t0, Cat), Timed(t0, Dog), Timed(t0 + 310, Dog), Timed(t0 + 310, Fish),
     Timed(t0 + 310, Fish), Timed(t0 + 310, Fish), Timed(t0 + 310, Bird)]
  }

  /**
    Cat, Dog (a change), Dog (310 ms later), Fish (a change) and Bird (a
    change) pass; the two repeated Fish come at once and are dropped.
   */
  lemma CustomOperatorPasses(t0: int)
    ensures Select(Values(CustomUpstream(t0)), DistinctMask(300, CustomUpstream(t0))) == [Cat, Dog, Dog, Fish, Bird]
  {
    CustomUpstreamValues(t0);
    CustomUpstreamMask(t0);
    SelectCustomAnimals();
  }

  lemma CustomUpstreamValues(t0: int)
    ensures Values(CustomUpstream(t0)) == [Cat, Dog, Dog, Fish, Fish, Fish, Bird]
  {
  }

  lemma CustomUpstreamMask(t0: int)
    ensures DistinctMask(300, CustomUpstream(t0)) == [true, true, true, true, false, false, true]
  {
  }

  lemma SelectCustomAnimals()
    ensures Select([Cat, Dog, Dog, Fish, Fish, Fish, Bird], [true, true, true, true, false, false, true])
         == [Cat, Dog, Dog, Fish, Bird]
  {
    SelectAppend([Cat, Dog, Dog, Fish], [Fish, Fish, Bird], [true, true, true, true], [false, false, true]);
    SelectAll([Cat, Dog, Dog, Fish], [true, true, true, true]);
    var xs, m := [Fish, Fish, Bird], [false, false, true];
    assert Select(xs[2..], m[2..]) == [Bird];
    assert Select(xs[1..], m[1..]) == [Bird];
    assert [Cat, Dog, Dog, Fish] + [Fish, Fish, Bird] == [Cat, Dog, Dog, Fish, Fish, Fish, Bird];
    assert [true, true, true, true] + [false, false, true] == [true, true, true, true, false, false, true];
  }

  /**
    `flow_customOperator_ver2`: `flowOfNumbers(10, 100)` through
    `throttleFirst(300)` on an idealised clock whose first reading is at
    least 300. Values 1, 4, 7 and 10 pass.
   */
  method CustomOperatorVer2(start: int) returns (processed: seq<int>)
    requires start >= 200
    ensures processed == [1, 4, 7, 10]
  {
    var numbers := FlowOfNumbers(10, 100, start);
    processed := ThrottleFirst(300, numbers);
    assert numbers == TenNumbers(start);
    TenNumbersThrottled(start);
  }

  /** The ten numbers of `flowOfNumbers(10, 100)`, read on an idealised clock starting at `t`. */
  function TenNumbers(t: int): seq<Timed<int>>
  {
    [Timed(t + 100, 1), Timed(t + 200, 2), Timed(t + 300, 3), Timed(t + 400, 4), Timed(t + 500, 5),
     Timed(t + 600, 6), Timed(t + 700, 7), Timed(t + 800, 8), Timed(t + 900, 9), Timed(t + 1000, 10)]
  }

  lemma TenNumbersThrottled(t: int)
    requires t >= 200
    ensures Select(Values(TenNumbers(t)), ThrottleMask(300, 0, TenNumbers(t))) == [1, 4, 7, 10]
  {
    TenNumbersMask(t);
    TenNumbersValues(t);
    SelectTenNumbers();
  }

  lemma TenNumbersValues(t: int)
    ensures Values(TenNumbers(t)) == [1, 2, 3, 4, 5, 6, 7, 8, 9, 10]
  {
  }

  lemma SelectTenNumbers()
    ensures Select([1, 2, 3, 4, 5, 6, 7, 8, 9, 10], [true, false, false, true, false, false, true, false, false, true])
         == [1, 4, 7, 10]
  {
    SelectAppend([1, 2, 3, 4, 5], [6, 7, 8, 9, 10], [true, false, false, true, false], [false, true, false, false, true]);
    ThrottledFirstHalf();
    ThrottledSecondHalf();
    assert [1, 2, 3, 4, 5] + [6, 7, 8, 9, 10] == [1, 2, 3, 4, 5, 6, 7, 8, 9, 10];
    assert [true, false, false, true, false] + [false, true, false, false, true]
        == [true, false, false, true, false, false, true, false, false, true];
  }

  lemma ThrottledFirstHalf()
    ensures Select([1, 2, 3, 4, 5], [true, false, false, true, false]) == [1, 4]
  {
    var xs, m := [1, 2, 3, 4, 5], [true, false, false, true, false];
    assert Select(xs[4..], m[4..]) == [];
    assert Select(xs[3..], m[3..]) == [4];
    assert Select(xs[2..], m[2..]) == [4];
    assert Select(xs[1..], m[1..]) == [4];
  }

  lemma ThrottledSecondHalf()
    ensures Select([6, 7, 8, 9, 10], [false, true, false, false, true]) == [7, 10]
  {
    var xs, m := [6, 7, 8, 9, 10], [false, true, false, false, true];
    assert Select(xs[4..], m[4..]) == [10];
    assert Select(xs[3..], m[3..]) == [10];
    assert Select(xs[2..], m[2..]) == [10];
    assert Select(xs[1..], m[1..]) == [7, 10];
  }

  lemma TenNumbersMask(t: int)
    requires t >= 200
    ensures ThrottleMask(300, 0, TenNumbers(t)) == [true, false, false, true, false, false, true, false, false, true]
  {
    TenNumbersFirstWindow(t);
    TenNumbersSecondWindow(t);
    TenNumbersLastWindow(t);
  }

  /** Value 1 passes; 2 and 3 come within 300 ms of it. */
  lemma TenNumbersFirstWindow(t: int)
    requires t >= 200
    ensures ThrottleMask(300, 0, TenNumbers(t))
         == [true, false, false] + ThrottleMask(300, t + 100, TenNumbers(t)[3..])
  {
    var xs := TenNumbers(t);
    ThrottleMaskStep(300, 0, xs, 0);
    ThrottleMaskStep(300, t + 100, xs, 1);
    ThrottleMaskStep(300, t + 100, xs, 2);
    assert xs[0..] == xs;
  }

  /** Values 4, 5, 6: 4 passes 300 ms after 1; 5 and 6 come within 300 ms of it. */
  lemma TenNumbersSecondWindow(t: int)
    ensures ThrottleMask(300, t + 100, TenNumbers(t)[3..])
         == [true, false, false] + ThrottleMask(300, t + 400, TenNumbers(t)[6..])
  {
    var xs := TenNumbers(t);
    ThrottleMaskStep(300, t + 100, xs, 3);
    ThrottleMaskStep(300, t + 400, xs, 4);
    ThrottleMaskStep(300, t + 400, xs, 5);
  }

  /** Values 7 to 10: 7 passes 300 ms after 4, then 10 passes 300 ms after 7. */
  lemma TenNumbersLastWindow(t: int)
    ensures ThrottleMask(300, t + 400, TenNumbers(t)[6..]) == [true, false, false, true]
  {
    var xs := TenNumbers(t);
    ThrottleMaskStep(300, t + 400, xs, 6);
    ThrottleMaskStep(300, t + 700, xs, 7);
    ThrottleMaskStep(300, t + 700, xs, 8);
    ThrottleMaskStep(300, t + 700, xs, 9);
    assert xs[10..] == [];
  }
}
