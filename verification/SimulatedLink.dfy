/** A simulated one-way link: a bandwidth-limited transmitter feeding a delivery queue ordered
    by deadline. Times are nanoseconds; random draws are inputs. */
module SimulatedLinks {
  import opened Common

  const NANOS: nat := 1_000_000_000
  const DURATION_MAX: nat := U64_MAX * NANOS + 999_999_999

  datatype LinkConfig = LinkConfig(latency: nat, jitter: nat, maxReorder: nat, bandwidth: nat, maxQueued: nat)

  datatype Scheduled<T> = Scheduled(deliverAt: nat, order: nat, bytes: nat, payload: T)

  datatype Link<T> = Link(queue: seq<Scheduled<T>>, nextOrder: nat, available: nat, lastTime: nat)

  /** One copy's draws: the jitter's sign and size, and any reordering delay. */
  datatype CopyDraw = CopyDraw(early: bool, jitter: nat, reorder: Option<nat>)

  datatype Draws = Draws(lost: bool, duplicated: bool, copies: (CopyDraw, CopyDraw))

  datatype SendOutcome = DroppedByLoss | DroppedByQueue | Queued(copies: nat, firstDelivery: nat)

  datatype LinkError = TimeMovedBackwards

  function Clamp(n: nat): nat {
    if n > DURATION_MAX then DURATION_MAX else n
  }

  /** Rounded up to whole nanoseconds. */
  function Serialization(bytes: nat, bandwidth: nat): nat {
    if bandwidth == 0 || bytes == 0 then 0 else Clamp((bytes * NANOS + (bandwidth - 1)) / bandwidth)
  }

  function Propagation(c: LinkConfig, d: CopyDraw): nat {
    var jittered := if d.early then SatSub(c.latency, d.jitter) else Clamp(c.latency + d.jitter);
    if d.reorder.Some? then Clamp(jittered + d.reorder.value) else jittered
  }

  predicate DrawInRange(c: LinkConfig, d: CopyDraw) {
    d.jitter <= c.jitter && (d.reorder.Some? ==> d.reorder.value <= c.maxReorder)
  }

  // ---------------------------------------------------------------- queue

  /** The heap's order: earlier deadline first, then earlier arrival. */
  predicate NotAfter<T>(a: Scheduled<T>, b: Scheduled<T>) {
    a.deliverAt < b.deliverAt || (a.deliverAt == b.deliverAt && a.order <= b.order)
  }

  function Enqueue<T>(queue: seq<Scheduled<T>>, x: Scheduled<T>): seq<Scheduled<T>> {
    if queue == [] || !NotAfter(queue[0], x) then [x] + queue else [queue[0]] + Enqueue(queue[1..], x)
  }

  /** How many queued copies are due. */
  function Due<T>(queue: seq<Scheduled<T>>, now: nat): (n: nat)
    ensures n <= |queue|
  {
    if queue == [] || queue[0].deliverAt > now then 0 else 1 + Due(queue[1..], now)
  }

  // ---------------------------------------------------------------- operations

  function TransmitStart<T>(l: Link<T>, now: nat): nat {
    if now > l.available then now else l.available
  }

  function TransmitEnd<T>(c: LinkConfig, l: Link<T>, now: nat, bytes: nat): nat {
    Clamp(TransmitStart(l, now) + Serialization(bytes, c.bandwidth))
  }

  function CopyOf<T>(
      c: LinkConfig, l: Link<T>, now: nat, bytes: nat, payload: T, d: CopyDraw, copy: nat): Scheduled<T>
  {
    Scheduled(Clamp(Clamp(TransmitEnd(c, l, now, bytes) + Propagation(c, d)) + copy), SatAdd(l.nextOrder, 1), bytes,
        payload)
  }

  function PushCopy<T>(c: LinkConfig, l: Link<T>, now: nat, bytes: nat, payload: T, d: CopyDraw, copy: nat): Link<T> {
    var x := CopyOf(c, l, now, bytes, payload, d, copy);
    Link(Enqueue(l.queue, x), x.order, TransmitEnd(c, l, now, bytes), l.lastTime)
  }

  function Copies(draws: Draws): nat {
    if draws.duplicated then 2 else 1
  }

  predicate Admitted<T>(c: LinkConfig, l: Link<T>, draws: Draws) {
    !draws.lost && |l.queue| + Copies(draws) <= c.maxQueued
  }

  /** The link after the first `n` copies of a packet. */
  function AfterCopies<T>(c: LinkConfig, l: Link<T>, now: nat, bytes: nat, payload: T, draws: Draws, n: nat): Link<T>
    requires n <= 2
  {
    if n == 0 then l
    else PushCopy(c, AfterCopies(c, l, now, bytes, payload, draws, n - 1), now, bytes, payload,
        if n == 1 then draws.copies.0 else draws.copies.1, n - 1)
  }

  function AfterSend<T>(c: LinkConfig, l: Link<T>, now: nat, bytes: nat, payload: T, draws: Draws): Link<T> {
    var timed := l.(lastTime := now);
    if Admitted(c, l, draws) then AfterCopies(c, timed, now, bytes, payload, draws, Copies(draws)) else timed
  }

  function AfterReceive<T>(l: Link<T>, now: nat): Link<T> {
    l.(queue := l.queue[Due(l.queue, now)..], lastTime := now)
  }

  class SimulatedLink<T> {
    const config: LinkConfig
    var queue: seq<Scheduled<T>>
    var nextOrder: nat
    var available: nat
    var lastTime: nat

    function View(): Link<T>
      reads this
    {
      Link(queue, nextOrder, available, lastTime)
    }

    constructor (c: LinkConfig)
      requires 0 < c.maxQueued
      ensures config == c && View() == Link([], 0, 0, 0)
    {
      config, queue, nextOrder, available, lastTime := c, [], 0, 0, 0;
    }

    method Push(x: Scheduled<T>)
      modifies this`queue
      ensures queue == Enqueue(old(queue), x)
    {
      var i := 0;
      while i < |queue| && NotAfter(queue[i], x)
        invariant 0 <= i <= |queue|
        invariant queue[..i] + Enqueue(queue[i..], x) == Enqueue(queue, x)
      {
        ghost var done, rest := queue[..i], queue[i..];
        assert rest[0] == queue[i] && rest[1..] == queue[i + 1..];
        assert Enqueue(rest, x) == [queue[i]] + Enqueue(rest[1..], x);
        assert done + ([queue[i]] + Enqueue(rest[1..], x)) == (done + [queue[i]]) + Enqueue(rest[1..], x);
        assert queue[..i + 1] == done + [queue[i]];
        i := i + 1;
      }
      ghost var rest := queue[i..];
      assert Enqueue(rest, x) == [x] + rest;
      queue := queue[..i] + ([x] + queue[i..]);
    }

    method Receive(now: nat) returns (r: Result<seq<Scheduled<T>>, LinkError>)
      modifies this
      ensures now < old(lastTime) ==> r == Err(TimeMovedBackwards) && View() == old(View())
      ensures now >= old(lastTime) ==>
          r == Ok(old(queue)[..Due(old(queue), now)]) && View() == AfterReceive(old(View()), now)
    {
      if now < lastTime {
        return Err(TimeMovedBackwards);
      }
      lastTime := now;
      var delivered: seq<Scheduled<T>> := [];
      while queue != [] && queue[0].deliverAt <= now
        invariant |delivered| <= |old(queue)|
        invariant delivered == old(queue)[..|delivered|] && queue == old(queue)[|delivered|..]
        invariant Due(old(queue), now) == |delivered| + Due(queue, now)
        decreases |queue|
        modifies this`queue
      {
        delivered := delivered + [queue[0]];
        queue := queue[1..];
      }
      r := Ok(delivered);
    }

    /** Transmits one copy and files it for delivery. */
    method Transmit(now: nat, bytes: nat, payload: T, draw: CopyDraw, copy: nat) returns (at: nat)
      modifies this
      ensures View() == PushCopy(config, old(View()), now, bytes, payload, draw, copy)
      ensures at == CopyOf(config, old(View()), now, bytes, payload, draw, copy).deliverAt
    {
      hide Enqueue, Serialization, Propagation, Clamp;
      var begin := if now > available then now else available;
      available := Clamp(begin + Serialization(bytes, config.bandwidth));
      at := Clamp(Clamp(available + Propagation(config, draw)) + copy);
      nextOrder := SatAdd(nextOrder, 1);
      Push(Scheduled(at, nextOrder, bytes, payload));
    }

    method Send(now: nat, bytes: nat, payload: T, draws: Draws) returns (r: Result<SendOutcome, LinkError>)
      modifies this
      ensures now < old(lastTime) ==> r == Err(TimeMovedBackwards) && View() == old(View())
      ensures now >= old(lastTime) ==> r.Ok? && View() == AfterSend(config, old(View()), now, bytes, payload, draws)
      ensures now >= old(lastTime) && draws.lost ==> r == Ok(DroppedByLoss)
      ensures now >= old(lastTime) && !draws.lost && !Admitted(config, old(View()), draws) ==> r == Ok(DroppedByQueue)
      ensures now >= old(lastTime) && Admitted(config, old(View()), draws) ==>
                r.value.Queued? && r.value.copies == Copies(draws)
                && r.value.firstDelivery == FirstDelivery(config, old(View()).(lastTime := now), now, bytes, payload,
                    draws)
    {
      hide PushCopy, CopyOf;
      if now < lastTime {
        return Err(TimeMovedBackwards);
      }
      lastTime := now;
      if draws.lost {
        return Ok(DroppedByLoss);
      }
      var copies := Copies(draws);
      if |queue| + copies > config.maxQueued {
        return Ok(DroppedByQueue);
      }
      var first: Option<nat> := None;
      ghost var start := View();
      var copy: nat := 0;
      while copy < copies
        invariant copy <= copies
        invariant View() == AfterCopies(config, start, now, bytes, payload, draws, copy)
        invariant copy == 0 ==> first == None
        invariant copy == 1 ==> first == Some(CopyOf(config, start, now, bytes, payload, draws.copies.0, 0).deliverAt)
        invariant copy == 2 ==> first == Some(FirstDelivery(config, start, now, bytes, payload, draws))
      {
        var at := Transmit(now, bytes, payload, if copy == 0 then draws.copies.0 else draws.copies.1, copy);
        first := Some(if first.None? || at < first.value then at else first.value);
        copy := copy + 1;
      }
      r := Ok(Queued(copies, first.value));
    }
  }

  /** The earlier of the copies' deadlines. */
  function FirstDelivery<T>(c: LinkConfig, l: Link<T>, now: nat, bytes: nat, payload: T, draws: Draws): nat {
    var first := CopyOf(c, l, now, bytes, payload, draws.copies.0, 0).deliverAt;
    if !draws.duplicated then first
    else
      var second := CopyOf(c, AfterCopies(c, l, now, bytes, payload, draws, 1), now, bytes, payload, draws.copies.1,
          1).deliverAt;
      if second < first then second else first
  }

  // ---------------------------------------------------------------- queue facts

  ghost predicate Sorted<T>(s: seq<Scheduled<T>>) {
    forall i, j :: 0 <= i < j < |s| ==> NotAfter(s[i], s[j])
  }

  lemma {:induction false} EnqueueSorts<T>(queue: seq<Scheduled<T>>, x: Scheduled<T>)
    requires Sorted(queue)
    ensures Sorted(Enqueue(queue, x))
    ensures multiset(Enqueue(queue, x)) == multiset(queue) + multiset{x}
  {
    if queue != [] && NotAfter(queue[0], x) {
      var rest := queue[1..];
      EnqueueSorts(rest, x);
      var tail := Enqueue(rest, x);
      assert queue == [queue[0]] + rest;
      forall i | 0 <= i < |tail|
        ensures NotAfter(queue[0], tail[i])
      {
        assert tail[i] in multiset(tail);
        assert tail[i] in rest || tail[i] == x;
      }
    }
  }

  lemma {:induction false} DueSplits<T>(queue: seq<Scheduled<T>>, now: nat)
    requires Sorted(queue)
    ensures forall i :: 0 <= i < |queue| ==> (queue[i].deliverAt <= now <==> i < Due(queue, now))
  {
    if queue != [] && queue[0].deliverAt <= now {
      DueSplits(queue[1..], now);
      forall i | 0 <= i < |queue|
        ensures queue[i].deliverAt <= now <==> i < Due(queue, now)
      {
        if i > 0 {
          assert queue[1..][i - 1] == queue[i];
        }
      }
    }
  }

  // ---------------------------------------------------------------- whole runs

  datatype Transmission = Transmission(start: nat, end: nat, bytes: nat)

  /** `scheduled` is every copy ever queued, `delivered` every copy released, in order, and
      `wire` every transmission. */
  datatype Trace<T> = Trace(link: Link<T>, scheduled: seq<Scheduled<T>>, delivered: seq<Scheduled<T>>,
      wire: seq<Transmission>)

  datatype LinkStep<T> =
    | SendStep(now: nat, bytes: nat, payload: T, draws: Draws)
    | ReceiveStep(now: nat)

  function TraceCopy<T>(
      c: LinkConfig, t: Trace<T>, now: nat, bytes: nat, payload: T, d: CopyDraw, copy: nat): Trace<T>
  {
    Trace(PushCopy(c, t.link, now, bytes, payload, d, copy),
          t.scheduled + [CopyOf(c, t.link, now, bytes, payload, d, copy)],
          t.delivered,
          t.wire + [Transmission(TransmitStart(t.link, now), TransmitEnd(c, t.link, now, bytes), bytes)])
  }

  function TraceExec<T>(c: LinkConfig, t: Trace<T>, step: LinkStep<T>): Trace<T> {
    if step.now < t.link.lastTime then t
    else
      match step
      case SendStep(now, bytes, payload, draws) =>
        var timed := t.(link := t.link.(lastTime := now));
        if !Admitted(c, t.link, draws) then timed
        else
          var one := TraceCopy(c, timed, now, bytes, payload, draws.copies.0, 0);
          if draws.duplicated then TraceCopy(c, one, now, bytes, payload, draws.copies.1, 1) else one
      case ReceiveStep(now) =>
        t.(link := AfterReceive(t.link, now), delivered := t.delivered + t.link.queue[..Due(t.link.queue, now)])
  }

  /** The trace's link is the link: the bookkeeping beside it changes nothing. */
  lemma TraceTracksLink<T>(c: LinkConfig, t: Trace<T>, step: LinkStep<T>)
    requires step.now >= t.link.lastTime
    ensures TraceExec(c, t, step).link ==
            if step.SendStep? then AfterSend(c, t.link, step.now, step.bytes, step.payload, step.draws)
                else AfterReceive(t.link, step.now)
  {
    if step.SendStep? {
      var l := t.link.(lastTime := step.now);
      var one := PushCopy(c, l, step.now, step.bytes, step.payload, step.draws.copies.0, 0);
      assert AfterCopies(c, l, step.now, step.bytes, step.payload, step.draws, 0) == l;
      assert AfterCopies(c, l, step.now, step.bytes, step.payload, step.draws, 1) == one;
      assert AfterCopies(c, l, step.now, step.bytes, step.payload, step.draws, 2)
             == PushCopy(c, one, step.now, step.bytes, step.payload, step.draws.copies.1, 1);
    }
  }

  function TraceRun<T>(c: LinkConfig, t: Trace<T>, steps: seq<LinkStep<T>>): Trace<T>
    decreases |steps|
  {
    if steps == [] then t else TraceRun(c, TraceExec(c, t, steps[0]), steps[1..])
  }

  function TraceStart<T>(): Trace<T> {
    Trace(Link([], 0, 0, 0), [], [], [])
  }

  ghost predicate OrderInv<T>(t: Trace<T>) {
    && Sorted(t.delivered) && Sorted(t.link.queue)
    && (forall d, q :: 0 <= d < |t.delivered| && 0 <= q < |t.link.queue| ==> NotAfter(t.delivered[d], t.link.queue[q]))
    && (forall d :: 0 <= d < |t.delivered| ==>
        t.delivered[d].deliverAt <= t.link.lastTime && t.delivered[d].order <= t.link.nextOrder)
    && (forall q :: 0 <= q < |t.link.queue| ==> t.link.queue[q].order <= t.link.nextOrder)
    && t.link.nextOrder <= U64_MAX
  }

  ghost predicate CopiesInv<T>(t: Trace<T>) {
    multiset(t.scheduled) == multiset(t.delivered) + multiset(t.link.queue)
  }

  predicate Timed(c: LinkConfig, x: Transmission) {
    x.start <= x.end <= DURATION_MAX && x.end == Clamp(x.start + Serialization(x.bytes, c.bandwidth))
  }

  /** Each transmission takes its serialization time and starts when the one before has ended. */
  ghost predicate Consecutive(c: LinkConfig, wire: seq<Transmission>) {
    && (forall i :: 0 <= i < |wire| ==> Timed(c, wire[i]))
    && (forall i, j :: 0 <= i < j < |wire| ==> wire[i].end <= wire[j].start)
  }

  ghost predicate WireInv<T>(c: LinkConfig, t: Trace<T>) {
    && Consecutive(c, t.wire)
    && t.link.available == (if t.wire == [] then 0 else t.wire[|t.wire| - 1].end)
  }

  lemma CopyKeepsOrder<T>(c: LinkConfig, t: Trace<T>, now: nat, bytes: nat, payload: T, d: CopyDraw, copy: nat)
    requires OrderInv(t) && t.link.lastTime == now <= DURATION_MAX
    ensures OrderInv(TraceCopy(c, t, now, bytes, payload, d, copy))
  {
    var x := CopyOf(c, t.link, now, bytes, payload, d, copy);
    assert now <= x.deliverAt && x.order >= t.link.nextOrder;
    hide CopyOf;
    var after := Enqueue(t.link.queue, x);
    EnqueueSorts(t.link.queue, x);
    forall q | 0 <= q < |after|
      ensures after[q].order <= x.order
      ensures forall d :: 0 <= d < |t.delivered| ==> NotAfter(t.delivered[d], after[q])
    {
      EnqueueFrom(t.link.queue, x, q);
    }
  }

  lemma {:induction false} EnqueueFrom<T>(queue: seq<Scheduled<T>>, x: Scheduled<T>, q: nat)
    requires q < |Enqueue(queue, x)|
    ensures Enqueue(queue, x)[q] == x || exists k :: 0 <= k < |queue| && Enqueue(queue, x)[q] == queue[k]
    decreases |queue|
  {
    if queue == [] || !NotAfter(queue[0], x) {
      if q > 0 {
        assert Enqueue(queue, x)[q] == queue[q - 1];
      }
    } else if q > 0 {
      EnqueueFrom(queue[1..], x, q - 1);
      if Enqueue(queue, x)[q] != x {
        var k :| 0 <= k < |queue[1..]| && Enqueue(queue[1..], x)[q - 1] == queue[1..][k];
        assert Enqueue(queue, x)[q] == queue[k + 1];
      }
    } else {
      assert Enqueue(queue, x)[q] == queue[0];
    }
  }

  lemma ReceiveKeepsOrder<T>(t: Trace<T>, now: nat)
    requires OrderInv(t) && t.link.lastTime <= now
    ensures OrderInv(t.(link := AfterReceive(t.link, now),
        delivered := t.delivered + t.link.queue[..Due(t.link.queue, now)]))
  {
    DueSplits(t.link.queue, now);
    var n := Due(t.link.queue, now);
    hide Due;
    var gone, left := t.link.queue[..n], t.link.queue[n..];
    var all := t.delivered + gone;
    forall i, j | 0 <= i < j < |all|
      ensures NotAfter(all[i], all[j])
    {
      if i < |t.delivered| <= j {
        assert all[j] == t.link.queue[j - |t.delivered|];
      }
    }
    forall d, q | 0 <= d < |all| && 0 <= q < |left|
      ensures NotAfter(all[d], left[q])
    {
      assert left[q] == t.link.queue[n + q];
    }
  }

  lemma OrderStep<T>(c: LinkConfig, t: Trace<T>, step: LinkStep<T>)
    requires OrderInv(t) && step.now <= DURATION_MAX
    ensures OrderInv(TraceExec(c, t, step))
  {
    hide TraceCopy, AfterReceive;
    if step.now >= t.link.lastTime {
      if step.SendStep? {
        var timed := t.(link := t.link.(lastTime := step.now));
        if Admitted(c, t.link, step.draws) {
          CopyKeepsOrder(c, timed, step.now, step.bytes, step.payload, step.draws.copies.0, 0);
          var one := TraceCopy(c, timed, step.now, step.bytes, step.payload, step.draws.copies.0, 0);
          CopyKeepsTime(c, timed, step.now, step.bytes, step.payload, step.draws.copies.0, 0);
          CopyKeepsOrder(c, one, step.now, step.bytes, step.payload, step.draws.copies.1, 1);
        }
      } else {
        ReceiveKeepsOrder(t, step.now);
      }
    }
  }

  lemma CopyKeepsTime<T>(c: LinkConfig, t: Trace<T>, now: nat, bytes: nat, payload: T, d: CopyDraw, copy: nat)
    ensures TraceCopy(c, t, now, bytes, payload, d, copy).link.lastTime == t.link.lastTime
  {
  }

  lemma CopyKeepsCopies<T>(c: LinkConfig, t: Trace<T>, now: nat, bytes: nat, payload: T, d: CopyDraw, copy: nat)
    requires CopiesInv(t) && Sorted(t.link.queue)
    ensures CopiesInv(TraceCopy(c, t, now, bytes, payload, d, copy))
    ensures Sorted(TraceCopy(c, t, now, bytes, payload, d, copy).link.queue)
  {
    EnqueueSorts(t.link.queue, CopyOf(c, t.link, now, bytes, payload, d, copy));
    hide CopyOf, Enqueue, Sorted;
  }

  lemma CopiesStep<T>(c: LinkConfig, t: Trace<T>, step: LinkStep<T>)
    requires CopiesInv(t) && Sorted(t.link.queue)
    ensures CopiesInv(TraceExec(c, t, step))
  {
    if step.now >= t.link.lastTime {
      if step.SendStep? {
        hide TraceCopy;
        var timed := t.(link := t.link.(lastTime := step.now));
        if Admitted(c, t.link, step.draws) {
          CopyKeepsCopies(c, timed, step.now, step.bytes, step.payload, step.draws.copies.0, 0);
          var one := TraceCopy(c, timed, step.now, step.bytes, step.payload, step.draws.copies.0, 0);
          CopyKeepsCopies(c, one, step.now, step.bytes, step.payload, step.draws.copies.1, 1);
        }
      } else {
        var n := Due(t.link.queue, step.now);
        assert t.link.queue == t.link.queue[..n] + t.link.queue[n..];
      }
    }
  }

  lemma CopyKeepsWire<T>(c: LinkConfig, t: Trace<T>, now: nat, bytes: nat, payload: T, d: CopyDraw, copy: nat)
    requires WireInv(c, t) && now <= DURATION_MAX
    ensures WireInv(c, TraceCopy(c, t, now, bytes, payload, d, copy))
  {
    hide Serialization, CopyOf, Enqueue;
    var after := TraceCopy(c, t, now, bytes, payload, d, copy);
    assert Timed(c, after.wire[|t.wire|]);
    hide Timed, TransmitEnd;
  }

  lemma WireStep<T>(c: LinkConfig, t: Trace<T>, step: LinkStep<T>)
    requires WireInv(c, t) && step.now <= DURATION_MAX
    ensures WireInv(c, TraceExec(c, t, step))
  {
    if step.SendStep? && step.now >= t.link.lastTime && Admitted(c, t.link, step.draws) {
      hide TraceCopy, Serialization;
      var timed := t.(link := t.link.(lastTime := step.now));
      CopyKeepsWire(c, timed, step.now, step.bytes, step.payload, step.draws.copies.0, 0);
      var one := TraceCopy(c, timed, step.now, step.bytes, step.payload, step.draws.copies.0, 0);
      CopyKeepsWire(c, one, step.now, step.bytes, step.payload, step.draws.copies.1, 1);
    }
  }

  /** Every time handed to the link is a representable duration. */
  predicate Representable<T>(steps: seq<LinkStep<T>>) {
    forall i :: 0 <= i < |steps| ==> steps[i].now <= DURATION_MAX
  }

  lemma {:induction false} TraceKeeps<T>(c: LinkConfig, t: Trace<T>, steps: seq<LinkStep<T>>)
    requires OrderInv(t) && CopiesInv(t) && WireInv(c, t) && Representable(steps)
    ensures var n := TraceRun(c, t, steps);
            OrderInv(n) && CopiesInv(n) && WireInv(c, n)
    decreases |steps|
  {
    if steps != [] {
      assert Sorted(t.link.queue);
      hide TraceExec, OrderInv, CopiesInv, WireInv;
      OrderStep(c, t, steps[0]);
      CopiesStep(c, t, steps[0]);
      WireStep(c, t, steps[0]);
      assert Representable(steps[1..]);
      TraceKeeps(c, TraceExec(c, t, steps[0]), steps[1..]);
    }
  }

  /** Over every run and all draws, sends and receives at refused times included: what was
      queued is exactly what was delivered or still waits, and the deliveries of the whole run
      come in deadline order, ties in sending order. */
  lemma DeliveriesInOrder<T>(c: LinkConfig, steps: seq<LinkStep<T>>)
    requires Representable(steps)
    ensures var t := TraceRun(c, TraceStart(), steps);
            && multiset(t.scheduled) == multiset(t.delivered) + multiset(t.link.queue)
            && |t.scheduled| == |t.delivered| + |t.link.queue|
            && Sorted(t.delivered)
  {
    TraceKeeps(c, TraceStart(), steps);
    var t := TraceRun(c, TraceStart(), steps);
    assert |multiset(t.scheduled)| == |t.scheduled|;
    assert |multiset(t.delivered) + multiset(t.link.queue)| == |t.delivered| + |t.link.queue|;
  }

  // ---------------------------------------------------------------- bandwidth

  predicate Inside(x: Transmission, from: nat, to: nat) {
    from <= x.start && x.end <= to
  }

  /** The bytes of the transmissions that lie inside a span of time. */
  function BytesInside(wire: seq<Transmission>, from: nat, to: nat): nat {
    if wire == [] then 0
    else
      var last := wire[|wire| - 1];
      BytesInside(wire[..|wire| - 1], from, to) + (if Inside(last, from, to) then last.bytes else 0)
  }

  /** Rounding up never lets a transmission finish early. */
  lemma SerializationIsSlowEnough(bytes: nat, bandwidth: nat)
    requires 0 < bandwidth
    requires Serialization(bytes, bandwidth) < DURATION_MAX
    ensures bytes * NANOS <= Serialization(bytes, bandwidth) * bandwidth
  {
    if bytes > 0 {
      RoundUp(bytes * NANOS, bandwidth);
    }
  }

  lemma RoundUp(n: nat, d: nat)
    requires 0 < d
    ensures n <= ((n + (d - 1)) / d) * d
  {
    var q := (n + (d - 1)) / d;
    assert n + (d - 1) == q * d + (n + (d - 1)) % d;
  }

  lemma Distribute(a: nat, b: nat, d: nat)
    ensures (a + b) * d == a * d + b * d
  {
  }

  /** Where the transmitter stands in the span once `wire` is sent. */
  function Reached(wire: seq<Transmission>, from: nat, to: nat): (r: nat)
    requires from <= to
    ensures from <= r <= to
  {
    if wire == [] || wire[|wire| - 1].end <= from then from
    else if wire[|wire| - 1].end >= to then to
    else wire[|wire| - 1].end
  }

  /** A transmission takes at least its share of the bandwidth. */
  lemma TransmissionCost(c: LinkConfig, x: Transmission)
    requires Timed(c, x) && 0 < c.bandwidth && x.end < DURATION_MAX
    ensures x.bytes * NANOS <= (x.end - x.start) * c.bandwidth
  {
    SerializationIsSlowEnough(x.bytes, c.bandwidth);
  }

  lemma {:induction false} SpanCarries(c: LinkConfig, wire: seq<Transmission>, from: nat, to: nat)
    requires Consecutive(c, wire) && 0 < c.bandwidth && from <= to < DURATION_MAX
    ensures BytesInside(wire, from, to) * NANOS <= (Reached(wire, from, to) - from) * c.bandwidth
    decreases |wire|
  {
    if wire != [] {
      hide Timed;
      var front, last := wire[..|wire| - 1], wire[|wire| - 1];
      SpanCarries(c, front, from, to);
      var before, after := Reached(front, from, to) - from, Reached(wire, from, to) - from;
      Ordered(c, wire);
      if Inside(last, from, to) {
        TransmissionCost(c, last);
        CarriesMore(BytesInside(front, from, to), last.bytes, before, last.end - last.start, after, c.bandwidth);
      } else {
        MultiplyMonotone(before, after, c.bandwidth);
      }
    }
  }

  lemma CarriesMore(sent: nat, bytes: nat, before: nat, duration: nat, after: nat, bandwidth: nat)
    requires sent * NANOS <= before * bandwidth && bytes * NANOS <= duration * bandwidth
    requires before + duration <= after
    ensures (sent + bytes) * NANOS <= after * bandwidth
  {
    Distribute(sent, bytes, NANOS);
    Distribute(before, duration, bandwidth);
    MultiplyMonotone(before + duration, after, bandwidth);
  }

  lemma Ordered(c: LinkConfig, wire: seq<Transmission>)
    requires Consecutive(c, wire) && wire != []
    ensures var last := wire[|wire| - 1];
            last.start <= last.end && (|wire| > 1 ==> wire[|wire| - 2].end <= last.start)
  {
    assert Timed(c, wire[|wire| - 1]);
  }

  lemma MultiplyMonotone(a: nat, b: nat, d: nat)
    requires a <= b
    ensures a * d <= b * d
  {
  }

  /** On every run, within any span of time, the link carries no more than its bandwidth allows,
      rounding included, until the clock itself saturates. */
  lemma BandwidthHolds<T>(c: LinkConfig, steps: seq<LinkStep<T>>, from: nat, to: nat)
    requires Representable(steps) && 0 < c.bandwidth && from <= to < DURATION_MAX
    ensures BytesInside(TraceRun(c, TraceStart(), steps).wire, from, to) * NANOS <= (to - from) * c.bandwidth
  {
    hide *;
    TransmissionsDisjoint(c, steps);
    var wire := TraceRun(c, TraceStart(), steps).wire;
    SpanCarries(c, wire, from, to);
    MultiplyMonotone(Reached(wire, from, to) - from, to - from, c.bandwidth);
  }

  /** On every run, no two transmissions overlap. */
  lemma TransmissionsDisjoint<T>(c: LinkConfig, steps: seq<LinkStep<T>>)
    requires Representable(steps)
    ensures Consecutive(c, TraceRun(c, TraceStart(), steps).wire)
  {
    TraceKeeps(c, TraceStart(), steps);
  }

  // ---------------------------------------------------------------- delay

  /** Away from saturation, a copy arrives within latency plus or minus jitter, plus the
      reordering delay, of the end of its transmission. */
  lemma DelayBounds<T>(c: LinkConfig, l: Link<T>, now: nat, bytes: nat, payload: T, d: CopyDraw, copy: nat)
    requires DrawInRange(c, d)
    requires CopyOf(c, l, now, bytes, payload, d, copy).deliverAt < DURATION_MAX
    ensures var end, at := TransmitEnd(c, l, now, bytes), CopyOf(c, l, now, bytes, payload, d, copy).deliverAt;
            end + SatSub(c.latency, c.jitter) <= at - copy <= end + c.latency + c.jitter + c.maxReorder
  {
    hide TransmitEnd;
  }

  // ---------------------------------------------------------------- exact times

  /** Transmission takes the least whole number of nanoseconds that the bandwidth allows, and none
      at all without a limit or without bytes. */
  lemma SerializationExactly(bytes: nat, bandwidth: nat, n: nat)
    ensures bandwidth == 0 || bytes == 0 ==> Serialization(bytes, bandwidth) == 0
    ensures 0 < bandwidth && n <= DURATION_MAX ==>
              (Serialization(bytes, bandwidth) <= n <==> bytes * NANOS <= n * bandwidth || n == DURATION_MAX)
  {
    if 0 < bandwidth && 0 < bytes {
      var need := bytes * NANOS;
      var q := (need + (bandwidth - 1)) / bandwidth;
      LeastMultiple(need, bandwidth, q, n);
    }
  }

  lemma LeastMultiple(need: nat, d: nat, q: nat, n: nat)
    requires 0 < d && q == (need + (d - 1)) / d
    ensures q <= n <==> need <= n * d
  {
    RoundUp(need, d);
    assert q * d <= need + (d - 1);
    if q <= n {
      MultiplyMonotone(q, n, d);
    } else {
      MultiplyMonotone(n + 1, q, d);
      Distribute(n, 1, d);
    }
  }

  /** Away from saturation, the deadline is the end of the transmission plus latency, minus or plus
      the drawn jitter, plus the drawn reordering delay; a second copy is one nanosecond later. */
  lemma DeadlineExactly<T>(c: LinkConfig, l: Link<T>, now: nat, bytes: nat, payload: T, d: CopyDraw, copy: nat)
    requires CopyOf(c, l, now, bytes, payload, d, copy).deliverAt < DURATION_MAX
    ensures var x := CopyOf(c, l, now, bytes, payload, d, copy);
            var end := (if now > l.available then now else l.available) + Serialization(bytes, c.bandwidth);
            var reorder := if d.reorder.Some? then d.reorder.value else 0;
            && x.bytes == bytes && x.payload == payload
            && (!d.early ==> x.deliverAt == end + c.latency + d.jitter + reorder + copy)
            && (d.early && d.jitter <= c.latency ==> x.deliverAt == end + c.latency - d.jitter + reorder + copy)
            && (d.early && d.jitter > c.latency ==> x.deliverAt == end + reorder + copy)
  {
    hide Serialization;
  }

  /** A send transmits nothing exactly when it is lost or its copies do not fit; otherwise each copy
      goes on the wire as soon as the wire is free, one after the other. */
  lemma SendExactly<T>(c: LinkConfig, t: Trace<T>, step: LinkStep<T>)
    requires step.SendStep? && t.link.lastTime <= step.now
    ensures var n, copies := TraceExec(c, t, step), if step.draws.duplicated then 2 else 1;
            var w, free := |t.wire|, if step.now > t.link.available then step.now else t.link.available;
            if step.draws.lost || |t.link.queue| + copies > c.maxQueued
            then n == t.(link := t.link.(lastTime := step.now))
            else && t.wire <= n.wire && t.scheduled <= n.scheduled && n.delivered == t.delivered
                 && |n.wire| == w + copies && |n.scheduled| == |t.scheduled| + copies
                 && n.wire[w].start == free && n.link.available == n.wire[w + copies - 1].end
                 && (copies == 2 ==> n.wire[w + 1].start == Max(step.now, n.wire[w].end))
                 && (forall i :: w <= i < |n.wire| ==>
                       n.wire[i].bytes == step.bytes
                       && n.wire[i].end == Clamp(n.wire[i].start + Serialization(step.bytes, c.bandwidth)))
                 && (forall i :: |t.scheduled| <= i < |n.scheduled| ==>
                       n.scheduled[i].payload == step.payload && n.scheduled[i].bytes == step.bytes)
  {
    hide Serialization, Propagation, Enqueue, Clamp;
  }
}
