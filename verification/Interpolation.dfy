/** The remote-state buffer: a bounded, tick-ordered window of states with an adaptive render
    delay, sampled between the two states around the delayed tick. */
module Interpolations {
  import opened Common

  datatype InterpolationConfig = InterpolationConfig(
    tickRate: nat, capacity: nat, baseDelay: real, minDelay: real, maxDelay: real, smoothing: real,
    jitterMultiplier: real, latePenalty: real, maxAdjustment: real)

  datatype InterpolationError = ZeroTick | ArrivalMovedBackwards | InvalidEstimate | BufferEmpty

  datatype Disposition = Newest | Late | Replaced

  datatype State<S> = State(tick: nat, state: S)

  datatype Arrival = Arrival(tick: nat, at: nat)

  /** Arrival times are nanoseconds. */
  datatype Timing = Timing(lastArrival: Option<nat>, lastNewest: Option<Arrival>, jitter: real, pressure: real,
      delay: real)

  predicate ValidConfig(c: InterpolationConfig) {
    && 1 <= c.tickRate <= 240 && 2 <= c.capacity
    && 0.0 <= c.minDelay <= c.baseDelay <= c.maxDelay
    && 0.0 < c.smoothing <= 1.0
    && 0.0 <= c.jitterMultiplier && 0.0 <= c.latePenalty && 0.0 < c.maxAdjustment
  }

  // ---------------------------------------------------------------- the ordered window

  ghost predicate Ordered<S>(states: seq<State<S>>) {
    forall i, j :: 0 <= i < j < |states| ==> states[i].tick < states[j].tick
  }

  /** Where the binary search ends: the first state at or after `tick`. */
  function LowerBound<S>(states: seq<State<S>>, tick: nat): (n: nat)
    ensures n <= |states|
  {
    if states == [] || states[0].tick >= tick then 0 else 1 + LowerBound(states[1..], tick)
  }

  lemma {:induction false} LowerBoundSplits<S>(states: seq<State<S>>, tick: nat, i: nat)
    requires Ordered(states) && i < |states|
    ensures states[i].tick < tick <==> i < LowerBound(states, tick)
    decreases |states|
  {
    if states[0].tick < tick && i > 0 {
      assert Ordered(states[1..]) by {
        assert forall j :: 0 <= j < |states[1..]| ==> states[1..][j] == states[j + 1];
      }
      LowerBoundSplits(states[1..], tick, i - 1);
    }
  }

  predicate FoundAt<S>(states: seq<State<S>>, tick: nat, i: nat) {
    i < |states| && states[i].tick == tick
  }

  method BinarySearch<S>(states: seq<State<S>>, tick: nat) returns (i: nat)
    requires Ordered(states)
    ensures i == LowerBound(states, tick)
  {
    var low: nat, high: nat := 0, |states|;
    while low < high
      invariant low <= high <= |states|
      invariant forall k :: 0 <= k < low ==> states[k].tick < tick
      invariant forall k :: high <= k < |states| ==> tick <= states[k].tick
    {
      var middle := low + (high - low) / 2;
      if states[middle].tick < tick {
        low := middle + 1;
      } else {
        high := middle;
      }
    }
    i := low;
    if i > 0 {
      LowerBoundSplits(states, tick, i - 1);
    }
    if i < |states| {
      LowerBoundSplits(states, tick, i);
    }
  }

  function Placed<S>(states: seq<State<S>>, x: State<S>): (r: seq<State<S>>)
    ensures |states| <= |r| <= |states| + 1
  {
    var i := LowerBound(states, x.tick);
    if FoundAt(states, x.tick, i) then states[i := x] else states[..i] + [x] + states[i..]
  }

  function Kept<S>(capacity: nat, states: seq<State<S>>): seq<State<S>> {
    if |states| > capacity then states[1..] else states
  }

  function DispositionOf<S>(states: seq<State<S>>, tick: nat): Disposition {
    if FoundAt(states, tick, LowerBound(states, tick)) then Replaced
    else if states != [] && tick < states[|states| - 1].tick then Late
    else Newest
  }

  // ---------------------------------------------------------------- timing

  function Clamp(x: real, low: real, high: real): real {
    if x < low then low else if x > high then high else x
  }

  function Smooth(x: real, target: real, weight: real): real {
    x + (target - x) * weight
  }

  function Absolute(x: real): real {
    if x < 0.0 then -x else x
  }

  /** How far, in ticks, the spacing of two newest states differs from the tick rate's. */
  function Variation(c: InterpolationConfig, previous: Arrival, tick: nat, at: nat): real
    requires 0 < c.tickRate
  {
    var actual := SatSub(at, previous.at) as real / 1_000_000_000.0;
    var expected := SatSub(tick, previous.tick) as real / c.tickRate as real;
    Absolute(actual - expected) * c.tickRate as real
  }

  function NextJitter(c: InterpolationConfig, t: Timing, tick: nat, d: Disposition, at: nat): real
    requires 0 < c.tickRate
  {
    if d == Newest && t.lastNewest.Some? && SatSub(tick, t.lastNewest.value.tick) > 0
    then Smooth(t.jitter, Variation(c, t.lastNewest.value, tick, at), c.smoothing)
    else t.jitter
  }

  function Observed(c: InterpolationConfig, t: Timing, tick: nat, d: Disposition, at: nat): Timing
    requires 0 < c.tickRate
  {
    var pressure := Smooth(t.pressure, if d == Late then 1.0 else 0.0, c.smoothing);
    var jitter := NextJitter(c, t, tick, d, at);
    Timing(Some(at), if d == Newest then Some(Arrival(tick, at)) else t.lastNewest, jitter, pressure,
           t.delay + Clamp(TargetDelay(c, jitter, pressure) - t.delay, -c.maxAdjustment, c.maxAdjustment))
  }

  /** The delay that the measured jitter and lateness call for. */
  function TargetDelay(c: InterpolationConfig, jitter: real, pressure: real): real {
    Clamp(CalledFor(c, jitter, pressure), c.minDelay, c.maxDelay)
  }

  function CalledFor(c: InterpolationConfig, jitter: real, pressure: real): real {
    c.baseDelay + jitter * c.jitterMultiplier + pressure * c.latePenalty
  }

  // ---------------------------------------------------------------- operations

  datatype Window<S> = Window(states: seq<State<S>>, timing: Timing)

  function InsertState<S>(
      c: InterpolationConfig, w: Window<S>, x: State<S>, at: nat): Result<Window<S>, InterpolationError>
    requires 0 < c.tickRate
  {
    if x.tick == 0 then Err(ZeroTick)
    else if w.timing.lastArrival.Some? && at < w.timing.lastArrival.value then Err(ArrivalMovedBackwards)
    else Ok(Window(Kept(c.capacity, Placed(w.states, x)),
        Observed(c, w.timing, x.tick, DispositionOf(w.states, x.tick), at)))
  }

  datatype Sample<S> = Sample(renderTick: real, previous: State<S>, next: State<S>, alpha: real, holdingNewest: bool)

  /** The tick that a blend of two states stands for. */
  function Mixed(previous: nat, next: nat, alpha: real): real {
    previous as real + alpha * (next as real - previous as real)
  }

  /** What a sample at `render` must be: outside the buffer the end state, inside it the two
      neighbouring states around the render tick, blended so that they meet it. */
  ghost predicate Brackets<S>(states: seq<State<S>>, render: real, p: nat, n: nat, s: Sample<S>) {
    && p < |states| && n < |states|
    && s.renderTick == render && s.previous == states[p] && s.next == states[n]
    && 0.0 <= s.alpha <= 1.0
    && (render <= states[0].tick as real ==> p == n == 0 && !s.holdingNewest)
    && (states[0].tick as real < render && states[|states| - 1].tick as real <= render ==>
          p == n == |states| - 1 && (s.holdingNewest <==> states[|states| - 1].tick as real < render))
    && (states[0].tick as real < render < states[|states| - 1].tick as real ==>
          (s.previous.tick as real == render && n == p)
              || (s.previous.tick as real < render < s.next.tick as real && n == p + 1))
    && (states[0].tick as real < render < states[|states| - 1].tick as real ==>
          !s.holdingNewest && render == Mixed(s.previous.tick, s.next.tick, s.alpha))
  }

  function Ceiling(x: real): (r: int)
    ensures x <= r as real < x + 1.0
  {
    if x.Floor as real == x then x.Floor else x.Floor + 1
  }

  function Alpha(render: real, previous: nat, next: nat): real {
    var span := SatSub(next, previous);
    if span == 0 then 0.0 else Clamp((render - previous as real) / span as real, 0.0, 1.0)
  }

  function Render(estimated: real, delay: real): real {
    if estimated - delay < 0.0 then 0.0 else estimated - delay
  }

  class InterpolationBuffer<S(!new)> {
    const config: InterpolationConfig
    var states: seq<State<S>>
    var timing: Timing

    function View(): Window<S>
      reads this
    {
      Window(states, timing)
    }

    ghost predicate Valid()
      reads this
    {
      ValidConfig(config) && Ordered(states)
    }

    constructor (c: InterpolationConfig)
      requires ValidConfig(c)
      ensures Valid() && config == c && View() == Window([], Timing(None, None, 0.0, 0.0, c.baseDelay))
    {
      config, states, timing := c, [], Timing(None, None, 0.0, 0.0, c.baseDelay);
    }

    method Insert(tick: nat, state: S, at: nat) returns (r: Result<Disposition, InterpolationError>)
      requires Valid()
      modifies this
      ensures Valid()
      ensures r.Err? ==>
          InsertState(config, old(View()), State(tick, state), at) == Err(r.error) && View() == old(View())
      ensures r.Ok? ==> InsertState(config, old(View()), State(tick, state), at) == Ok(View())
      ensures r.Ok? <==> 0 < tick && (old(timing).lastArrival.Some? ==> old(timing).lastArrival.value <= at)
      ensures r == Err(ZeroTick) <==> tick == 0
      ensures r.Ok? ==> (r.value == Replaced <==> Present(old(states), tick))
      ensures r.Ok? ==> (r.value == Newest <==> AllBefore(old(states), tick))
    {
      DispositionExactly(states, tick);
      if tick == 0 {
        return Err(ZeroTick);
      }
      if timing.lastArrival.Some? && at < timing.lastArrival.value {
        return Err(ArrivalMovedBackwards);
      }
      hide Placed, Kept, LowerBound, Observed, Present, AllBefore;
      var i := BinarySearch(states, tick);
      var found := i < |states| && states[i].tick == tick;
      var disposition := if found then Replaced else if states != []
          && tick < states[|states| - 1].tick then Late else Newest;
      timing := Observed(config, timing, tick, disposition, at);
      Store(State(tick, state), i);
      r := Ok(disposition);
    }

    /** Puts a state where the search ended and drops the oldest when over capacity. */
    method Store(x: State<S>, i: nat)
      requires Valid() && i == LowerBound(states, x.tick)
      modifies this`states
      ensures Valid() && states == Kept(config.capacity, Placed(old(states), x))
    {
      PlacedIndex(states, x);
      KeptOrdered(config.capacity, Placed(states, x));
      hide LowerBound, Ordered;
      if i < |states| && states[i].tick == x.tick {
        states := states[i := x];
      } else {
        states := states[..i] + [x] + states[i..];
      }
      if |states| > config.capacity {
        states := states[1..];
      }
    }

    method Pick(estimated: Float) returns (r: Result<Sample<S>, InterpolationError>, ghost p: nat, ghost n: nat)
      requires Valid()
      ensures (estimated.NonFinite? || estimated.value < 0.0) ==> r == Err(InvalidEstimate)
      ensures estimated.Finite? && 0.0 <= estimated.value && states == [] ==> r == Err(BufferEmpty)
      ensures estimated.Finite? && 0.0 <= estimated.value && states != [] ==>
                r.Ok? && Brackets(states, Render(estimated.value, timing.delay), p, n, r.value)
      ensures r.Ok? && timing.delay <= estimated.value ==> r.value.renderTick + timing.delay == estimated.value
      ensures r.Ok? && timing.delay > estimated.value ==> r.value.renderTick == 0.0
    {
      p, n := 0, 0;
      if estimated.NonFinite? || estimated.value < 0.0 {
        r := Err(InvalidEstimate);
        return;
      }
      if states == [] {
        r := Err(BufferEmpty);
        return;
      }
      var oldest, newest := states[0], states[|states| - 1];
      var render := Render(estimated.value, timing.delay);
      if render <= oldest.tick as real {
        r := Ok(Sample(render, oldest, oldest, 0.0, false));
        return;
      }
      if render >= newest.tick as real {
        p, n := |states| - 1, |states| - 1;
        r := Ok(Sample(render, newest, newest, 0.0, render > newest.tick as real));
        return;
      }
      hide Ordered, Ceiling;
      r, p, n := PickInside(states, render);
    }

    method Reset()
      requires Valid()
      modifies this
      ensures Valid() && View() == Window([], Timing(None, None, 0.0, 0.0, config.baseDelay))
    {
      states, timing := [], Timing(None, None, 0.0, 0.0, config.baseDelay);
    }
  }

  // ---------------------------------------------------------------- sampling

  /** The sample strictly between the oldest and the newest state. */
  method PickInside<S>(
      states: seq<State<S>>, render: real)
    returns (r: Result<Sample<S>, InterpolationError>, ghost p: nat, ghost n: nat)
    requires Ordered(states) && states != [] && 0.0 <= render
    requires states[0].tick as real < render < states[|states| - 1].tick as real
    ensures r.Ok? && Brackets(states, render, p, n, r.value)
  {
    hide LowerBound, Ordered, Ceiling;
    var floor, ceiling := render.Floor, Ceiling(render);
    assert 0 <= ceiling;
    Neighbours(states, render);
    var first := BinarySearch(states, floor);
    var second := BinarySearch(states, ceiling);
    if !(first < |states| && states[first].tick == floor) {
      first := first - 1;
    }
    hide Alpha, Mixed;
    var alpha := Alpha(render, states[first].tick, states[second].tick);
    Blend(render, states[first].tick, states[second].tick);
    p, n := first, second;
    r := Ok(Sample(render, states[first], states[second], alpha, false));
  }

  /** Strictly inside the buffer the two searches land on existing neighbours around the
      render tick, or both on the state at the render tick. */
  lemma Neighbours<S>(states: seq<State<S>>, render: real)
    requires Ordered(states) && states != [] && 0.0 <= render
    requires states[0].tick as real < render < states[|states| - 1].tick as real
    ensures var q, n := LowerBound(states, render.Floor), LowerBound(states, Ceiling(render));
            && n < |states|
            && (FoundAt(states, render.Floor, q) || 0 < q)
            && var p := if FoundAt(states, render.Floor, q) then q else q - 1;
               (states[p].tick as real == render && n == p)
                   || ((states[p].tick as real) < render < states[n].tick as real && n == p + 1)
  {
    hide LowerBound;
    var floor, ceiling := render.Floor, Ceiling(render);
    var q, n := LowerBound(states, floor), LowerBound(states, ceiling);
    LowerBoundSplits(states, floor, 0);
    LowerBoundSplits(states, floor, |states| - 1);
    LowerBoundSplits(states, ceiling, |states| - 1);
    assert q < |states| && n < |states|;
    LowerBoundSplits(states, floor, q);
    LowerBoundSplits(states, ceiling, q);
    LowerBoundSplits(states, ceiling, n);
    if FoundAt(states, floor, q) {
      if floor < ceiling && q + 1 < |states| {
        LowerBoundSplits(states, ceiling, q + 1);
      }
    } else {
      LowerBoundSplits(states, floor, q - 1);
      LowerBoundSplits(states, ceiling, q - 1);
    }
  }

  lemma Blend(render: real, previous: nat, next: nat)
    requires previous as real <= render <= next as real
    ensures var alpha := Alpha(render, previous, next);
            0.0 <= alpha <= 1.0 && render == Mixed(previous, next, alpha)
  {
    if next > previous {
      var d, x := (next - previous) as real, render - previous as real;
      assert d == next as real - previous as real;
      Ratio(x, d);
    }
  }

  lemma Ratio(x: real, d: real)
    requires 0.0 <= x <= d && 0.0 < d
    ensures 0.0 <= x / d <= 1.0 && (x / d) * d == x
  {
    var q := x / d;
    assert q * d == x;
    Scaled(q, 0.0, d);
    Scaled(1.0, q, d);
  }

  lemma Scaled(a: real, b: real, d: real)
    requires 0.0 < d && b * d <= a * d
    ensures b <= a
  {
    var gap := b - a;
    assert gap * d == b * d - a * d;
    Positive(gap, d);
  }

  lemma Positive(gap: real, d: real)
    ensures 0.0 < gap && 0.0 < d ==> 0.0 < gap * d
  {
  }

  // ---------------------------------------------------------------- dispositions

  /** Every buffered state is older. */
  ghost predicate AllBefore<S>(states: seq<State<S>>, tick: nat) {
    forall k :: 0 <= k < |states| ==> states[k].tick < tick
  }

  /** A state replaces exactly a buffered one of its tick; otherwise it is the newest exactly when
      all others are older, and late when not. */
  lemma DispositionExactly<S>(states: seq<State<S>>, tick: nat)
    requires Ordered(states)
    ensures DispositionOf(states, tick) == Replaced <==> Present(states, tick)
    ensures DispositionOf(states, tick) == Newest <==> AllBefore(states, tick)
    ensures DispositionOf(states, tick) == Late <==> !Present(states, tick) && !AllBefore(states, tick)
  {
    var i := LowerBound(states, tick);
    forall k | 0 <= k < |states|
      ensures states[k].tick < tick <==> k < i
    {
      LowerBoundSplits(states, tick, k);
    }
    hide LowerBound;
    if Present(states, tick) {
      var k :| 0 <= k < |states| && states[k].tick == tick;
      assert i <= k && states[i].tick <= states[k].tick;
    }
  }

  /** Over a whole run the newest states are exactly those whose tick exceeds all before them. */
  lemma NewestExactly<S>(capacity: nat, log: seq<State<S>>, states: seq<State<S>>, tick: nat)
    requires HoldsNewest(capacity, log, states)
    ensures DispositionOf(states, tick) == Newest <==> forall i :: 0 <= i < |log| ==> log[i].tick < tick
  {
    DispositionExactly(states, tick);
    hide DispositionOf;
    forall i | 0 <= i < |log| && AllBefore(states, tick)
      ensures log[i].tick < tick
    {
      assert Present(states, log[i].tick) || CrowdedOut(capacity, states, log[i].tick);
    }
    if forall i :: 0 <= i < |log| ==> log[i].tick < tick {
      forall k | 0 <= k < |states|
        ensures states[k].tick < tick
      {
        assert Latest(log, states[k]);
      }
    }
  }

  /** Refusals, exactly. */
  lemma InsertExactly<S>(c: InterpolationConfig, w: Window<S>, x: State<S>, at: nat)
    requires 0 < c.tickRate
    ensures var r := InsertState(c, w, x, at);
            var backwards := w.timing.lastArrival.Some? && at < w.timing.lastArrival.value;
            && (r.Ok? <==> 0 < x.tick && !backwards)
            && (r == Err(ZeroTick) <==> x.tick == 0)
            && (r == Err(ArrivalMovedBackwards) <==> 0 < x.tick && backwards)
            && (r.Ok? ==> r.value.timing.lastArrival == Some(at))
  {
  }

  // ---------------------------------------------------------------- delay proofs

  /** Each arrival brings the delay closer to its target by the largest adjustment, or onto it. */
  lemma DelayApproaches(c: InterpolationConfig, t: Timing, tick: nat, d: Disposition, at: nat)
    requires ValidConfig(c)
    ensures var o := Observed(c, t, tick, d, at);
            var target := TargetDelay(c, o.jitter, o.pressure);
            var before, after := Absolute(target - t.delay), Absolute(target - o.delay);
            after == if before <= c.maxAdjustment then 0.0 else before - c.maxAdjustment
  {
    hide Smooth, NextJitter, TargetDelay;
  }

  /** The measured variation, free of divisions: how far the time between two newest states is
      from the ticks between them. */
  lemma VariationExactly(c: InterpolationConfig, previous: Arrival, tick: nat, at: nat)
    requires ValidConfig(c) && previous.tick <= tick && previous.at <= at
    ensures var elapsed, due := (at - previous.at) as real * c.tickRate as real, (tick - previous.tick) as real;
            Variation(c, previous, tick, at) * 1_000_000_000.0 == Absolute(elapsed - due * 1_000_000_000.0)
  {
    var rate, time, ticks := c.tickRate as real, (at - previous.at) as real, (tick - previous.tick) as real;
    var actual, expected := time / 1_000_000_000.0, ticks / rate;
    assert expected * rate == ticks;
    Stretched(actual - expected, rate);
    Stretched((actual - expected) * rate, 1_000_000_000.0);
    assert (actual - expected) * rate == actual * rate - expected * rate;
    assert (actual * rate) * 1_000_000_000.0 == time * rate;
  }

  lemma Stretched(x: real, d: real)
    requires 0.0 < d
    ensures Absolute(x) * d == Absolute(x * d)
  {
    Positive(x, d);
    Positive(-x, d);
    assert (-x) * d == -(x * d);
  }

  /** Jitter is measured exactly between newest states, by smoothing the variation in; a late or
      replacing state leaves it, and the last newest arrival, as they were. */
  lemma JitterExactly(c: InterpolationConfig, t: Timing, tick: nat, d: Disposition, at: nat)
    requires ValidConfig(c)
    ensures var o := Observed(c, t, tick, d, at);
            && (d != Newest ==> o.jitter == t.jitter && o.lastNewest == t.lastNewest)
            && (d == Newest ==> o.lastNewest == Some(Arrival(tick, at)))
            && (d == Newest && t.lastNewest.None? ==> o.jitter == t.jitter)
            && (d == Newest && t.lastNewest.Some? && t.lastNewest.value.tick < tick ==>
                  o.jitter == t.jitter + (Variation(c, t.lastNewest.value, tick, at) - t.jitter) * c.smoothing)
  {
    hide Variation, TargetDelay, Clamp;
  }

  /** A late state presses the delay up and any other lets it fall, strictly unless at the end. */
  lemma PressureFollows(c: InterpolationConfig, t: Timing, tick: nat, d: Disposition, at: nat)
    requires ValidConfig(c) && TimingInv(c, t)
    ensures var after := Observed(c, t, tick, d, at).pressure;
            && (d == Late ==> t.pressure < after || t.pressure == after == 1.0)
            && (d != Late ==> after < t.pressure || t.pressure == after == 0.0)
  {
    hide NextJitter, TargetDelay, Clamp;
    var gap := 1.0 - t.pressure;
    Positive(gap, c.smoothing);
    Positive(t.pressure, c.smoothing);
    assert Smooth(t.pressure, 1.0, c.smoothing) == t.pressure + gap * c.smoothing;
    assert Smooth(t.pressure, 0.0, c.smoothing) == t.pressure - t.pressure * c.smoothing;
  }

  /** More jitter or more lateness never calls for a shorter delay. */
  lemma TargetMonotone(c: InterpolationConfig, jitter: real, pressure: real, jitter': real, pressure': real)
    requires ValidConfig(c) && jitter <= jitter' && pressure <= pressure'
    ensures c.minDelay <= TargetDelay(c, jitter, pressure) <= TargetDelay(c, jitter', pressure') <= c.maxDelay
    ensures TargetDelay(c, 0.0, 0.0) == c.baseDelay
  {
    CalledForMonotone(c, jitter, pressure, jitter', pressure');
    assert CalledFor(c, 0.0, 0.0) == c.baseDelay;
    hide CalledFor;
  }

  lemma CalledForMonotone(c: InterpolationConfig, jitter: real, pressure: real, jitter': real, pressure': real)
    requires ValidConfig(c) && jitter <= jitter' && pressure <= pressure'
    ensures CalledFor(c, jitter, pressure) <= CalledFor(c, jitter', pressure')
  {
    Weighs(jitter, jitter', c.jitterMultiplier);
    Weighs(pressure, pressure', c.latePenalty);
  }

  lemma Weighs(x: real, y: real, weight: real)
    requires x <= y && 0.0 <= weight
    ensures x * weight <= y * weight
  {
    var gap := y - x;
    Positive(gap, weight);
    assert y * weight == x * weight + gap * weight;
  }

  lemma SmoothBetween(x: real, target: real, weight: real, low: real, high: real)
    requires low <= x <= high && low <= target <= high && 0.0 < weight <= 1.0
    ensures low <= Smooth(x, target, weight) <= high
  {
    assert Smooth(x, target, weight) == x * (1.0 - weight) + target * weight;
    Mix(x - low, target - low, weight);
    Mix(high - x, high - target, weight);
  }

  lemma Mix(a: real, b: real, weight: real)
    requires 0.0 <= a && 0.0 <= b && 0.0 < weight <= 1.0
    ensures 0.0 <= a * (1.0 - weight) + b * weight
  {
    assert 0.0 <= a * (1.0 - weight);
    assert 0.0 <= b * weight;
  }

  /** The measured quantities stay in range, and so does the delay. */
  ghost predicate TimingInv(c: InterpolationConfig, t: Timing) {
    0.0 <= t.jitter && 0.0 <= t.pressure <= 1.0 && c.minDelay <= t.delay <= c.maxDelay
  }

  lemma VariationIsPositive(c: InterpolationConfig, previous: Arrival, tick: nat, at: nat)
    requires ValidConfig(c)
    ensures 0.0 <= Variation(c, previous, tick, at)
  {
    var actual := SatSub(at, previous.at) as real / 1_000_000_000.0;
    var expected := SatSub(tick, previous.tick) as real / c.tickRate as real;
    Mix(Absolute(actual - expected), 0.0, 1.0);
    var a, d := Absolute(actual - expected), c.tickRate as real;
    assert 0.0 <= a && 0.0 < d;
    assert 0.0 <= a * d;
  }

  lemma ObservedInRange(c: InterpolationConfig, t: Timing, tick: nat, d: Disposition, at: nat)
    requires ValidConfig(c) && TimingInv(c, t)
    ensures TimingInv(c, Observed(c, t, tick, d, at))
    ensures Absolute(Observed(c, t, tick, d, at).delay - t.delay) <= c.maxAdjustment
  {
    SmoothBetween(t.pressure, if d == Late then 1.0 else 0.0, c.smoothing, 0.0, 1.0);
    if d == Newest && t.lastNewest.Some? && SatSub(tick, t.lastNewest.value.tick) > 0 {
      var v := Variation(c, t.lastNewest.value, tick, at);
      VariationIsPositive(c, t.lastNewest.value, tick, at);
      SmoothBetween(t.jitter, v, c.smoothing, 0.0, t.jitter + v);
    }
    hide Smooth, Variation;
  }

  // ---------------------------------------------------------------- whole runs

  /** `r` is `states` with `x` at index `i`, either in place of the state of that tick or
      between its neighbours. */
  ghost predicate PlacedAt<S>(states: seq<State<S>>, r: seq<State<S>>, x: State<S>, i: nat) {
    && i < |r| && r[i] == x
    && (if |r| == |states| then states[i].tick == x.tick && forall k :: 0 <= k < |r| && k != i ==> r[k] == states[k]
        else |r| == |states| + 1
             && (forall k :: 0 <= k < i ==> r[k] == states[k])
             && (forall k :: i < k < |r| ==> r[k] == states[k - 1]))
  }

  lemma PlacedIndex<S>(states: seq<State<S>>, x: State<S>)
    requires Ordered(states)
    ensures Ordered(Placed(states, x))
    ensures PlacedAt(states, Placed(states, x), x, LowerBound(states, x.tick))
  {
    var i := LowerBound(states, x.tick);
    var r := Placed(states, x);
    forall k | 0 <= k < |states|
      ensures states[k].tick < x.tick <==> k < i
    {
      LowerBoundSplits(states, x.tick, k);
    }
    hide LowerBound;
    assert PlacedAt(states, r, x, i);
    PlacedOrdered(states, r, x, i);
  }

  lemma PlacedOrdered<S>(states: seq<State<S>>, r: seq<State<S>>, x: State<S>, i: nat)
    requires Ordered(states) && PlacedAt(states, r, x, i)
    requires forall k :: 0 <= k < |states| ==> (states[k].tick < x.tick <==> k < i)
    requires |r| == |states| || (i < |states| ==> states[i].tick != x.tick)
    ensures Ordered(r)
  {
    if |r| != |states| {
      forall k | i < k < |r|
        ensures x.tick < r[k].tick
      {
        assert r[k] == states[k - 1];
      }
    }
  }

  lemma KeptOrdered<S>(capacity: nat, states: seq<State<S>>)
    requires Ordered(states)
    ensures Ordered(Kept(capacity, states))
  {
  }

  /** `x` is the last state inserted for its tick. */
  ghost predicate Latest<S>(log: seq<State<S>>, x: State<S>) {
    exists i :: 0 <= i < |log| && log[i] == x && forall j :: i < j < |log| ==> log[j].tick != x.tick
  }

  ghost predicate Present<S>(states: seq<State<S>>, tick: nat) {
    exists k :: 0 <= k < |states| && states[k].tick == tick
  }

  /** The buffer is full of newer ticks. */
  predicate CrowdedOut<S>(capacity: nat, states: seq<State<S>>, tick: nat) {
    0 < |states| == capacity && tick < states[0].tick
  }

  /** The buffer is the newest `capacity` ticks ever inserted, each with its latest state. */
  ghost predicate HoldsNewest<S>(capacity: nat, log: seq<State<S>>, states: seq<State<S>>) {
    && Ordered(states)
    && |states| <= capacity
    && (forall k :: 0 <= k < |states| ==> Latest(log, states[k]))
    && (forall i :: 0 <= i < |log| ==> Present(states, log[i].tick) || CrowdedOut(capacity, states, log[i].tick))
  }

  lemma LatestGrows<S(!new)>(log: seq<State<S>>, x: State<S>, y: State<S>)
    ensures Latest(log + [y], y)
    ensures Latest(log, x) && x.tick != y.tick ==> Latest(log + [y], x)
  {
    var more := log + [y];
    assert more[|log|] == y;
    if Latest(log, x) && x.tick != y.tick {
      var i :| 0 <= i < |log| && log[i] == x && forall j :: i < j < |log| ==> log[j].tick != x.tick;
      assert more[i] == x;
    }
  }

  lemma KeptHas<S>(capacity: nat, placed: seq<State<S>>, j: nat)
    requires Ordered(placed) && 0 < capacity && |placed| <= capacity + 1 && j < |placed|
    ensures Present(Kept(capacity, placed), placed[j].tick)
        || CrowdedOut(capacity, Kept(capacity, placed), placed[j].tick)
  {
    var kept := Kept(capacity, placed);
    if |placed| <= capacity {
      assert kept[j].tick == placed[j].tick;
    } else if j > 0 {
      assert kept[j - 1].tick == placed[j].tick;
    }
  }

  lemma Accounted<S>(capacity: nat, states: seq<State<S>>, placed: seq<State<S>>, x: State<S>, i: nat, tick: nat)
    requires Ordered(states) && Ordered(placed) && PlacedAt(states, placed, x, i) && 0 < capacity
        && |states| <= capacity
    requires tick == x.tick || Present(states, tick) || CrowdedOut(capacity, states, tick)
    ensures Present(Kept(capacity, placed), tick) || CrowdedOut(capacity, Kept(capacity, placed), tick)
  {
    if tick == x.tick {
      KeptHas(capacity, placed, i);
    } else if Present(states, tick) {
      var k :| 0 <= k < |states| && states[k].tick == tick;
      var j := if |placed| == |states| || k < i then k else k + 1;
      assert placed[j] == states[k];
      KeptHas(capacity, placed, j);
    } else if |placed| > capacity {
      assert Kept(capacity, placed)[0] == placed[1];
      assert placed[1] == (if i == 0 then states[0] else if i == 1 then x else states[1]);
    }
  }

  lemma InsertHoldsNewest<S(!new)>(capacity: nat, log: seq<State<S>>, states: seq<State<S>>, x: State<S>)
    requires 0 < capacity && HoldsNewest(capacity, log, states)
    ensures HoldsNewest(capacity, log + [x], Kept(capacity, Placed(states, x)))
  {
    PlacedIndex(states, x);
    var i, placed := LowerBound(states, x.tick), Placed(states, x);
    hide Placed, LowerBound, Latest, CrowdedOut, Present;
    KeptOrdered(capacity, placed);
    KeptLatest(log, states, placed, x, i);
    var kept, more := Kept(capacity, placed), log + [x];
    forall k | 0 <= k < |kept|
      ensures Latest(more, kept[k])
    {
      assert kept[k] == placed[if |placed| > capacity then k + 1 else k];
    }
    forall k | 0 <= k < |more|
      ensures Present(kept, more[k].tick) || CrowdedOut(capacity, kept, more[k].tick)
    {
      Accounted(capacity, states, placed, x, i, more[k].tick);
    }
  }

  lemma KeptLatest<S(!new)>(log: seq<State<S>>, states: seq<State<S>>, placed: seq<State<S>>, x: State<S>, i: nat)
    requires Ordered(placed) && PlacedAt(states, placed, x, i)
    requires forall k :: 0 <= k < |states| ==> Latest(log, states[k])
    ensures forall k :: 0 <= k < |placed| ==> Latest(log + [x], placed[k])
  {
    forall k | 0 <= k < |placed|
      ensures Latest(log + [x], placed[k])
    {
      if k != i {
        assert placed[k] == states[if |placed| == |states| || k < i then k else k - 1];
        assert placed[k].tick != placed[i].tick;
      }
      LatestGrows(log, placed[k], x);
    }
  }

  datatype Trace<S> = Trace(window: Window<S>, log: seq<State<S>>)

  datatype InterpolationStep<S> = InsertStep(state: State<S>, at: nat) | ResetStep

  function EmptyTrace<S>(c: InterpolationConfig): Trace<S> {
    Trace(Window([], Timing(None, None, 0.0, 0.0, c.baseDelay)), [])
  }

  function TraceExec<S>(c: InterpolationConfig, t: Trace<S>, step: InterpolationStep<S>): Trace<S>
    requires 0 < c.tickRate
  {
    match step
    case InsertStep(x, at) =>
      var r := InsertState(c, t.window, x, at);
      if r.Err? then t else Trace(r.value, t.log + [x])
    case ResetStep => EmptyTrace(c)
  }

  function TraceRun<S>(c: InterpolationConfig, t: Trace<S>, steps: seq<InterpolationStep<S>>): Trace<S>
    requires 0 < c.tickRate
    decreases |steps|
  {
    if steps == [] then t else TraceRun(c, TraceExec(c, t, steps[0]), steps[1..])
  }

  ghost predicate TraceInv<S>(c: InterpolationConfig, t: Trace<S>) {
    HoldsNewest(c.capacity, t.log, t.window.states) && TimingInv(c, t.window.timing)
  }

  lemma TraceStep<S(!new)>(c: InterpolationConfig, t: Trace<S>, step: InterpolationStep<S>)
    requires ValidConfig(c) && TraceInv(c, t)
    ensures TraceInv(c, TraceExec(c, t, step))
  {
    if step.InsertStep? {
      InsertHoldsNewest(c.capacity, t.log, t.window.states, step.state);
      ObservedInRange(c, t.window.timing, step.state.tick, DispositionOf(t.window.states, step.state.tick), step.at);
      hide HoldsNewest, TimingInv, Observed, DispositionOf;
    }
  }

  lemma {:induction false} TraceKeeps<S(!new)>(c: InterpolationConfig, t: Trace<S>, steps: seq<InterpolationStep<S>>)
    requires ValidConfig(c) && TraceInv(c, t)
    ensures TraceInv(c, TraceRun(c, t, steps))
    decreases |steps|
  {
    hide TraceInv, TraceExec;
    if steps != [] {
      TraceStep(c, t, steps[0]);
      TraceKeeps(c, TraceExec(c, t, steps[0]), steps[1..]);
    }
  }

  /** On every run, whatever the order of arrival: the buffer holds the newest ticks it has room
      for, each with the latest state inserted for it, and the adaptive delay keeps within its
      bounds. */
  lemma BufferHoldsNewest<S(!new)>(c: InterpolationConfig, steps: seq<InterpolationStep<S>>)
    requires ValidConfig(c)
    ensures var t := TraceRun(c, EmptyTrace(c), steps);
            HoldsNewest(c.capacity, t.log, t.window.states) && c.minDelay <= t.window.timing.delay <= c.maxDelay
  {
    TraceKeeps(c, EmptyTrace(c), steps);
  }
}
