/** When the input channel delivers and when it loses: the exact condition under which one
    packet hands over the oldest unacknowledged input, and the states no run recovers from. */
module InputLosses {
  import opened Common
  import opened SequenceWindows
  import opened StableSort
  import opened InputChannel
  import opened InputRuns

  // ---------------------------------------------------------------- what a packet carries

  ghost predicate Consecutive<T>(frames: seq<InputFrame<T>>, first: nat) {
    forall i :: 0 <= i < |frames| ==> frames[i].sequence == first + i
  }

  /** How many inputs a packet can carry and still be read. */
  function Readable(c: StreamConfig): nat {
    if c.sender.redundancy <= c.receiver.maxInputs then c.sender.redundancy else c.receiver.maxInputs
  }

  /** In any reachable state a packet carries the newest unacknowledged inputs, as many as the
      redundancy allows, under the consecutive numbers that end at the last one issued. */
  lemma PacketCarriesNewest<T>(c: StreamConfig, s: Stream<T>, clientTick: nat)
    requires StreamInv(s)
    ensures var p := InputPacketOf(c.sender, s.sender, clientTick);
            var n := |s.sender.history|;
            && |p.inputs| == (if n <= c.sender.redundancy then n else c.sender.redundancy)
            && |p.inputs| <= |s.issued|
            && p.inputs == s.issued[|s.issued| - |p.inputs|..]
            && Consecutive(p.inputs, s.sender.next - |p.inputs|)
            && p.acknowledgedServerTick == s.sender.serverTick
  {
    hide Remembers, AllGenuine;
    var k := s.sender.acknowledged - s.base;
    var skip := SatSub(|s.sender.history|, c.sender.redundancy);
    assert s.issued[k..][skip..] == s.issued[k + skip..];
  }

  // ---------------------------------------------------------------- the exact condition of delivery

  predicate InTime(earliest: nat, latest: nat, target: nat) {
    target != 0 && earliest <= target <= latest
  }

  /** A target the receiver takes at server tick `t`. */
  predicate Admissible(c: ReceiverConfig, t: nat, target: nat) {
    InTime(SatSub(t, c.maxPast), SatAdd(t, c.maxFuture), target)
  }

  /** The next expected number closes the gap that stops the acknowledgement. */
  lemma NextClosesGap(w: Window, next: Window)
    requires ValidWindow(w) && ObserveWindow(w, w.acknowledged + 1) == Ok((next, Accepted))
    ensures ValidWindow(next) && w.acknowledged < next.acknowledged
    ensures forall s: nat :: Received(next, s) <==> Received(w, s) || s == w.acknowledged + 1
  {
    ObserveReceives(w, w.acknowledged + 1);
    hide ObserveWindow;
    assert Received(next, w.acknowledged + 1);
  }

  /** Consecutive frames that start no later than the next expected number are taken as a whole
      exactly when every new one is in time. */
  lemma {:induction false} ScanConsecutive<T>(
      earliest: nat, latest: nat, sc: InScan<T>, frames: seq<InputFrame<T>>, first: nat)
    requires ValidWindow(sc.window) && Consecutive(frames, first)
    requires 0 < first <= sc.window.acknowledged + 1 && first + |frames| <= U64_MAX + 1
    ensures var r := ScanInputs(earliest, latest, sc, frames);
            && (r.Ok? <==> forall i :: 0 <= i < |frames| ==>
                  Received(sc.window, frames[i].sequence) || InTime(earliest, latest, frames[i].targetTick))
            && (r.Ok? ==> first + |frames| <= r.value.window.acknowledged + 1)
    decreases |frames|
  {
    hide ObserveWindow, InTime;
    if frames != [] {
      var f, rest := frames[0], frames[1..];
      assert forall i :: 0 <= i < |rest| ==> rest[i] == frames[i + 1];
      ObserveReceives(sc.window, first);
      var o := ObserveWindow(sc.window, first);
      if first <= sc.window.acknowledged {
        ScanConsecutive(earliest, latest, sc.(duplicates := sc.duplicates + 1), rest, first + 1);
      } else {
        assert o.Ok? && o.value.1 == Accepted;
        NextClosesGap(sc.window, o.value.0);
        InTimeMeans(earliest, latest, f.targetTick);
        if InTime(earliest, latest, f.targetTick) {
          ScanConsecutive(earliest, latest, InScan(o.value.0, sc.accepted + [f], sc.duplicates), rest, first + 1);
        }
      }
      SplitFirst(earliest, latest, sc.window, frames);
    }
  }

  lemma InTimeMeans(earliest: nat, latest: nat, target: nat)
    ensures InTime(earliest, latest, target) <==> !(target == 0 || target < earliest || target > latest)
  {
  }

  lemma SplitFirst<T>(earliest: nat, latest: nat, w: Window, frames: seq<InputFrame<T>>)
    requires frames != []
    ensures (forall i :: 0 <= i < |frames| ==>
        Received(w, frames[i].sequence) || InTime(earliest, latest, frames[i].targetTick)) <==>
            (Received(w, frames[0].sequence) || InTime(earliest, latest, frames[0].targetTick)) &&
            (forall i :: 0 <= i < |frames[1..]| ==>
               Received(w, frames[1..][i].sequence) || InTime(earliest, latest, frames[1..][i].targetTick))
  {
    hide Received, InTime;
    var rest := frames[1..];
    forall i | 0 <= i < |rest|
      ensures rest[i] == frames[i + 1]
    {
    }
    forall i | 0 < i < |frames|
      ensures frames[i] == rest[i - 1]
    {
    }
  }

  /** Sends a packet and delivers it at server tick `t`. */
  function SendAndDeliver<T>(c: StreamConfig, s: Stream<T>, clientTick: nat, t: nat): Stream<T> {
    StreamExec(c, StreamExec(c, s, SendStep(clientTick)), DeliverStep(|s.packets|, t))
  }

  /** Every unacknowledged input that has not arrived has a target admissible at `t`. */
  ghost predicate AllTimely<T>(c: ReceiverConfig, s: Stream<T>, t: nat) {
    forall i :: 0 <= i < |s.sender.history| ==>
      Received(s.window, s.sender.history[i].sequence) || Admissible(c, t, s.sender.history[i].targetTick)
  }

  /** A packet that carries the whole history is taken exactly when it is short enough, does not
      claim a future server tick, and every new target is admissible; then nothing is missing. */
  lemma WholeHistory<T>(c: ReceiverConfig, s: Stream<T>, p: InputPacket<T>, t: nat)
    requires StreamInv(s) && p.inputs == s.sender.history && p.acknowledgedServerTick == s.sender.serverTick
    ensures var r := ReceiveInputs(c, s.window, t, p);
            && (r.Ok? <==>
                  && |s.sender.history| <= c.maxInputs
                  && s.sender.serverTick <= t
                  && AllTimely(c, s, t))
            && (r.Ok? ==> s.base + |s.issued| <= r.value.window.acknowledged)
  {
    hide ScanInputs, SortBy, InTime;
    var first := s.sender.acknowledged + 1;
    HistoryNumbers(s);
    WindowOf(s.window, s.base, s.delivered);
    assert Ascending(FrameSequence, p.inputs);
    SortOfAscending(FrameSequence, p.inputs);
    ScanConsecutive(SatSub(t, c.maxPast), SatAdd(t, c.maxFuture), InScan(s.window, [], 0), p.inputs, first);
  }

  lemma HistoryNumbers<T>(s: Stream<T>)
    requires StreamInv(s)
    ensures Consecutive(s.sender.history, s.sender.acknowledged + 1)
    ensures s.sender.acknowledged + |s.sender.history| == s.base + |s.issued| < U64_MAX
    ensures s.sender.acknowledged <= s.window.acknowledged
  {
    hide Remembers, AllGenuine;
  }

  /** The exact condition of delivery. From any reachable state in which the oldest
      unacknowledged input has not arrived, sending a packet and delivering it at server tick
      `t` hands that input over if and only if the history still fits one readable packet, the
      server has reached the tick the client acknowledges, and every unacknowledged input that
      has not arrived has a target admissible at `t`. Then everything recorded has arrived. */
  lemma DeliveryExactly<T>(c: StreamConfig, s: Stream<T>, clientTick: nat, t: nat)
    requires StreamInv(s) && s.sender.history != []
    requires !Received(s.window, s.sender.acknowledged + 1)
    ensures var after := SendAndDeliver(c, s, clientTick, t);
            && (Received(after.window, s.sender.acknowledged + 1) <==>
                  && |s.sender.history| <= Readable(c)
                  && s.sender.serverTick <= t
                  && AllTimely(c.receiver, s, t))
            && (Received(after.window, s.sender.acknowledged + 1) ==> s.base + |s.issued| <= after.window.acknowledged)
  {
    hide StreamInv, StreamExec, Received, AllTimely;
    if |s.sender.history| <= c.sender.redundancy {
      DeliveryOfAll(c, s, clientTick, t);
    } else {
      DeliveryOfSome(c, s, clientTick, t);
    }
  }

  lemma DeliveryOfAll<T>(c: StreamConfig, s: Stream<T>, clientTick: nat, t: nat)
    requires StreamInv(s) && |s.sender.history| <= c.sender.redundancy
    requires !Received(s.window, s.sender.acknowledged + 1) && s.sender.history != []
    ensures var after := SendAndDeliver(c, s, clientTick, t);
            var arrived := |s.sender.history| <= c.receiver.maxInputs && s.sender.serverTick <= t
                && AllTimely(c.receiver, s, t);
            && (arrived ==> s.base + |s.issued| <= after.window.acknowledged)
            && (Received(after.window, s.sender.acknowledged + 1) <==> arrived)
  {
    hide *;
    var p := InputPacketOf(c.sender, s.sender, clientTick);
    WholePacket(c.sender, s.sender, clientTick);
    WholeHistory(c.receiver, s, p, t);
    HistoryNumbers(s);
    DeliveredWindow(c, s, clientTick, t);
    var after := SendAndDeliver(c, s, clientTick, t).window;
    UpToAcknowledged(after, s.sender.acknowledged + 1);
  }

  lemma UpToAcknowledged(w: Window, n: nat)
    ensures n <= w.acknowledged ==> Received(w, n)
  {
  }

  lemma WholePacket<T>(c: SenderConfig, s: InSender<T>, clientTick: nat)
    requires |s.history| <= c.redundancy
    ensures var p := InputPacketOf(c, s, clientTick);
            p.inputs == s.history && p.acknowledgedServerTick == s.serverTick
  {
  }

  lemma DeliveredWindow<T>(c: StreamConfig, s: Stream<T>, clientTick: nat, t: nat)
    ensures var r := ReceiveInputs(c.receiver, s.window, t, InputPacketOf(c.sender, s.sender, clientTick));
            SendAndDeliver(c, s, clientTick, t).window == if r.Ok? then r.value.window else s.window
  {
    hide ReceiveInputs, InputPacketOf;
  }

  lemma DeliveryOfSome<T>(c: StreamConfig, s: Stream<T>, clientTick: nat, t: nat)
    requires StreamInv(s) && |s.sender.history| > c.sender.redundancy
    requires !Received(s.window, s.sender.acknowledged + 1)
    ensures !Received(SendAndDeliver(c, s, clientTick, t).window, s.sender.acknowledged + 1)
  {
    hide StreamInv, ReceiveInputs;
    var gap := s.sender.acknowledged + 1;
    SendKeeps(c, s, clientTick);
    HistoryNumbers(s);
    var sent := StreamExec(c, s, SendStep(clientTick));
    assert sent.window == s.window;
    assert !Handed(sent.packets[|s.packets|].inputs, gap);
    NotCarried(c, sent, |s.packets|, t, gap);
  }

  /** A packet that does not carry an input does not hand it over. */
  lemma NotCarried<T>(c: StreamConfig, s: Stream<T>, packet: nat, t: nat, n: nat)
    requires StreamInv(s) && packet < |s.packets|
    requires !Received(s.window, n) && !Handed(s.packets[packet].inputs, n)
    ensures !Received(StreamExec(c, s, DeliverStep(packet, t)).window, n)
  {
    hide ReceiveInputs;
    var p := s.packets[packet];
    ReceiveRemembers(c.receiver, s.window, t, p, s.base, s.delivered);
    var r := ReceiveInputs(c.receiver, s.window, t, p);
    if r.Ok? {
      NotHanded(p.inputs, s.delivered, r.value.accepted, n);
    }
  }

  lemma NotHanded<T>(inputs: seq<InputFrame<T>>, delivered: seq<InputFrame<T>>, accepted: seq<InputFrame<T>>, n: nat)
    requires !Handed(inputs, n) && !Handed(delivered, n)
    requires forall i :: 0 <= i < |accepted| ==> accepted[i] in inputs
    ensures !Handed(delivered + accepted, n)
  {
    var all := delivered + accepted;
    forall i | 0 <= i < |all|
      ensures all[i].sequence != n
    {
      if i < |delivered| {
        assert delivered[i].sequence != n;
      } else {
        var k :| 0 <= k < |inputs| && inputs[k] == accepted[i - |delivered|];
        assert inputs[k].sequence != n;
      }
    }
  }

  // ---------------------------------------------------------------- outgrown packets

  /** The oldest unacknowledged input has not arrived, the history no longer fits one readable
      packet, and every packet on the network that carries it is too long to be read. */
  ghost predicate Lost<T>(c: StreamConfig, s: Stream<T>) {
    var gap := s.sender.acknowledged + 1;
    && |s.sender.history| > Readable(c)
    && !Received(s.window, gap)
    && (forall p :: 0 <= p < |s.packets| && Handed(s.packets[p].inputs, gap) ==>
        |s.packets[p].inputs| > c.receiver.maxInputs)
  }

  lemma LostStep<T>(c: StreamConfig, s: Stream<T>, step: StreamStep<T>)
    requires StreamInv(s) && Lost(c, s)
    requires StreamEnabled(s, step)
    ensures var n := StreamExec(c, s, step);
            Lost(c, n) && n.sender.acknowledged == s.sender.acknowledged
  {
    var gap := s.sender.acknowledged + 1;
    assert s.window.acknowledged < gap;
    match step {
      case RecordStep(target, input) =>
      case SendStep(clientTick) =>
        HistoryNumbers(s);
        var p := InputPacketOf(c.sender, s.sender, clientTick);
        if |s.sender.history| > c.sender.redundancy {
          assert !Handed(p.inputs, gap);
        } else {
          assert p.inputs == s.sender.history;
        }
      case DeliverStep(packet, serverTick) =>
        if !Handed(s.packets[packet].inputs, gap) {
          NotCarried(c, s, packet, serverTick, gap);
        }
      case AcknowledgeStep(ack) =>
    }
  }

  /** The channel repeats only what fits one readable packet: from a lost state no continuation
      hands the input over, and the acknowledgement stays below it. */
  lemma {:induction false} LostForever<T>(c: StreamConfig, s: Stream<T>, steps: seq<StreamStep<T>>)
    requires StreamInv(s) && Lost(c, s)
    requires StreamLegal(c, s, steps)
    ensures var n := StreamRun(c, s, steps);
            && n.sender.acknowledged == s.sender.acknowledged
            && !Received(n.window, s.sender.acknowledged + 1)
    decreases |steps|
  {
    hide StreamInv, StreamExec;
    if steps != [] {
      StreamStepKeeps(c, s, steps[0]);
      LostStep(c, s, steps[0]);
      LostForever(c, StreamExec(c, s, steps[0]), steps[1..]);
    }
  }

  function RecordSteps<T>(inputs: seq<T>): seq<StreamStep<T>> {
    if inputs == [] then [] else [RecordStep(1, inputs[0])] + RecordSteps(inputs[1..])
  }

  lemma {:induction false} RecordAll<T>(c: StreamConfig, s: Stream<T>, inputs: seq<T>)
    requires |s.sender.history| + |inputs| <= c.sender.historyCapacity && s.sender.next + |inputs| <= U64_MAX
    ensures StreamLegal(c, s, RecordSteps(inputs))
    ensures var n := StreamRun(c, s, RecordSteps(inputs));
            && n.packets == s.packets && n.window == s.window
            && n.sender.acknowledged == s.sender.acknowledged
            && |n.sender.history| == |s.sender.history| + |inputs|
    decreases |inputs|
  {
    if inputs != [] {
      var steps := RecordSteps(inputs);
      assert steps[0] == RecordStep(1, inputs[0]) && steps[1..] == RecordSteps(inputs[1..]);
      RecordAll(c, StreamExec(c, s, steps[0]), inputs[1..]);
    }
  }

  /** Such a loss is reachable under every configuration whose history outgrows one readable
      packet: record that much before the first packet leaves. */
  lemma LossHappens<T>(c: StreamConfig, base: nat, inputs: seq<T>)
    requires Readable(c) < |inputs| <= c.sender.historyCapacity && base + 1 + |inputs| <= U64_MAX
    ensures StreamLegal(c, StreamStart(c, base), RecordSteps(inputs))
    ensures Lost(c, StreamRun(c, StreamStart(c, base), RecordSteps(inputs)))
  {
    RecordAll(c, StreamStart(c, base), inputs);
  }

  // ---------------------------------------------------------------- targets that aged out

  /** Input `n` was recorded, has not arrived, and its target is past what the server takes at
      tick `t`. */
  ghost predicate AgedOut<T>(c: StreamConfig, s: Stream<T>, n: nat, t: nat) {
    && s.base < n <= s.base + |s.issued|
    && !Received(s.window, n)
    && s.issued[n - s.base - 1].targetTick < SatSub(t, c.receiver.maxPast)
  }

  /** A scan that meets an overdue new frame is refused, whatever else it holds. */
  lemma {:induction false} ScanOverdue<T>(earliest: nat, latest: nat, sc: InScan<T>, frames: seq<InputFrame<T>>, n: nat)
    requires ValidWindow(sc.window) && !Received(sc.window, n) && Handed(frames, n)
    requires forall i :: 0 <= i < |frames| && frames[i].sequence == n ==> frames[i].targetTick < earliest
    ensures ScanInputs(earliest, latest, sc, frames).Err?
    decreases |frames|
  {
    hide ObserveWindow;
    var f, rest := frames[0], frames[1..];
    ObserveReceives(sc.window, f.sequence);
    var o := ObserveWindow(sc.window, f.sequence);
    if f.sequence != n {
      var k :| 0 <= k < |frames| && frames[k].sequence == n;
      assert rest[k - 1].sequence == n;
      if o.Ok? && o.value.1.Duplicate? {
        ScanOverdue(earliest, latest, sc.(duplicates := sc.duplicates + 1), rest, n);
      } else if o.Ok? {
        ScanOverdue(earliest, latest, InScan(o.value.0, sc.accepted + [f], sc.duplicates), rest, n);
      }
    }
  }

  /** An overdue input makes every genuine packet that carries it unreadable as a whole. */
  lemma OverdueRefused<T>(c: StreamConfig, s: Stream<T>, n: nat, t: nat, packet: nat, now: nat)
    requires StreamInv(s) && AgedOut(c, s, n, t) && t <= now
    requires packet < |s.packets| && Handed(s.packets[packet].inputs, n)
    ensures ReceiveInputs(c.receiver, s.window, now, s.packets[packet]).Err?
  {
    var p := s.packets[packet];
    var earliest := SatSub(now, c.receiver.maxPast);
    assert AllGenuine(s.base, s.issued, p.inputs);
    forall i | 0 <= i < |p.inputs| && p.inputs[i].sequence == n
      ensures p.inputs[i].targetTick < earliest
    {
      assert Genuine(s.base, s.issued, p.inputs[i]);
    }
    WindowOf(s.window, s.base, s.delivered);
    hide ScanInputs, SortBy, StreamInv;
    var sorted := SortBy(FrameSequence, p.inputs);
    SortIsPermutation(FrameSequence, p.inputs);
    OverdueSorted(p.inputs, sorted, n, earliest);
    ScanOverdue(earliest, SatAdd(now, c.receiver.maxFuture), InScan(s.window, [], 0), sorted, n);
  }

  lemma OverdueSorted<T>(frames: seq<InputFrame<T>>, sorted: seq<InputFrame<T>>, n: nat, earliest: nat)
    requires multiset(sorted) == multiset(frames) && Handed(frames, n)
    requires forall i :: 0 <= i < |frames| && frames[i].sequence == n ==> frames[i].targetTick < earliest
    ensures Handed(sorted, n)
    ensures forall i :: 0 <= i < |sorted| && sorted[i].sequence == n ==> sorted[i].targetTick < earliest
  {
    var k :| 0 <= k < |frames| && frames[k].sequence == n;
    assert frames[k] in multiset(sorted);
    forall i | 0 <= i < |sorted| && sorted[i].sequence == n
      ensures sorted[i].targetTick < earliest
    {
      assert sorted[i] in multiset(frames);
    }
  }

  lemma AgedOutStep<T>(c: StreamConfig, s: Stream<T>, n: nat, t: nat, step: StreamStep<T>)
    requires StreamInv(s) && AgedOut(c, s, n, t) && StreamEnabled(s, step)
    requires step.DeliverStep? ==> t <= step.serverTick
    ensures AgedOut(c, StreamExec(c, s, step), n, t)
  {
    match step {
      case RecordStep(target, input) =>
      case SendStep(clientTick) =>
      case DeliverStep(packet, serverTick) =>
        if Handed(s.packets[packet].inputs, n) {
          OverdueRefused(c, s, n, t, packet, serverTick);
        } else {
          NotCarried(c, s, packet, serverTick, n);
        }
        hide StreamInv, ReceiveInputs;
      case AcknowledgeStep(ack) =>
    }
  }

  /** The server's clock has reached `t`. */
  predicate ClockFrom<T>(steps: seq<StreamStep<T>>, t: nat) {
    forall i :: 0 <= i < |steps| && steps[i].DeliverStep? ==> t <= steps[i].serverTick
  }

  /** An input that ages out before it arrives never arrives, and the acknowledgement stays below
      it for ever, blocking everything behind it. */
  lemma {:induction false} AgedOutForever<T>(c: StreamConfig, s: Stream<T>, n: nat, t: nat, steps: seq<StreamStep<T>>)
    requires StreamInv(s) && AgedOut(c, s, n, t)
    requires StreamLegal(c, s, steps) && ClockFrom(steps, t)
    ensures var after := StreamRun(c, s, steps);
            !Received(after.window, n) && after.sender.acknowledged < n
    decreases |steps|
  {
    if steps == [] {
      assert s.window.acknowledged < n;
      hide Remembers;
    } else {
      hide StreamInv, StreamExec, AgedOut;
      StreamStepKeeps(c, s, steps[0]);
      AgedOutStep(c, s, n, t, steps[0]);
      assert ClockFrom(steps[1..], t);
      AgedOutForever(c, StreamExec(c, s, steps[0]), n, t, steps[1..]);
    }
  }
}
