/** Client input channel: a bounded history with redundant packets on one side, a
    de-duplicating receive window on the other. */
module InputChannel {
  import opened Common
  import opened SequenceWindows
  import opened StableSort

  datatype InputFrame<T> = InputFrame(sequence: nat, targetTick: nat, input: T)

  datatype InputPacket<T> = InputPacket(clientTick: nat, acknowledgedServerTick: nat, inputs: seq<InputFrame<T>>)

  function FrameSequence<T>(f: InputFrame<T>): nat {
    f.sequence
  }

  datatype InputAck = InputAck(serverTick: nat, sequence: nat)

  datatype SenderConfig = SenderConfig(historyCapacity: nat, redundancy: nat)

  datatype ReceiverConfig = ReceiverConfig(maxInputs: nat, reorderWindow: nat, maxPast: nat, maxFuture: nat)

  datatype InputError =
    | ZeroTarget | HistoryFull | SequenceExhausted | InvalidAcknowledgement
    | TooManyInputs | FutureAcknowledgement | BadSequence(window: WindowError) | TargetOutsideWindow

  predicate ValidSenderConfig(c: SenderConfig) {
    0 < c.redundancy <= c.historyCapacity
  }

  predicate ValidReceiverConfig(c: ReceiverConfig) {
    0 < c.maxInputs && 0 < c.reorderWindow && 0 < c.maxFuture
  }

  // ---------------------------------------------------------------- sender

  datatype InSender<T> = InSender(next: nat, acknowledged: nat, serverTick: nat, history: seq<InputFrame<T>>)

  function RecordInput<T>(c: SenderConfig, s: InSender<T>, target: nat, input: T): Result<InSender<T>, InputError> {
    if target == 0 then Err(ZeroTarget)
    else if |s.history| >= c.historyCapacity then Err(HistoryFull)
    else if s.next + 1 > U64_MAX then Err(SequenceExhausted)
    else Ok(s.(next := s.next + 1, history := s.history + [InputFrame(s.next, target, input)]))
  }

  function AcknowledgeInput<T>(s: InSender<T>, ack: InputAck): Result<InSender<T>, InputError> {
    if ack.sequence + 1 > s.next then Err(InvalidAcknowledgement)
    else
      var seen := s.(serverTick := if ack.serverTick > s.serverTick then ack.serverTick else s.serverTick);
      if ack.sequence <= s.acknowledged then Ok(seen)
      else Ok(seen.(acknowledged := ack.sequence, history := DropThrough(FrameSequence, s.history, ack.sequence)))
  }

  /** The newest unacknowledged inputs. */
  function InputPacketOf<T>(c: SenderConfig, s: InSender<T>, clientTick: nat): InputPacket<T> {
    InputPacket(clientTick, s.serverTick, s.history[SatSub(|s.history|, c.redundancy)..])
  }

  // ---------------------------------------------------------------- receiver

  datatype InScan<T> = InScan(window: Window, accepted: seq<InputFrame<T>>, duplicates: nat)

  function ScanInputs<T>(
      earliest: nat, latest: nat, sc: InScan<T>, frames: seq<InputFrame<T>>): Result<InScan<T>, InputError>
    decreases |frames|
  {
    if frames == [] then Ok(sc)
    else
      var f := frames[0];
      match ObserveWindow(sc.window, f.sequence)
      case Err(error) => Err(BadSequence(error))
      case Ok((_, Duplicate)) => ScanInputs(earliest, latest, sc.(duplicates := sc.duplicates + 1), frames[1..])
      case Ok((window, Accepted)) =>
        if f.targetTick == 0 || f.targetTick < earliest || f.targetTick > latest then Err(TargetOutsideWindow)
        else ScanInputs(earliest, latest, InScan(window, sc.accepted + [f], sc.duplicates), frames[1..])
  }

  function ReceiveInputs<T>(
      c: ReceiverConfig, w: Window, serverTick: nat, p: InputPacket<T>): Result<InScan<T>, InputError>
  {
    if |p.inputs| > c.maxInputs then Err(TooManyInputs)
    else if p.acknowledgedServerTick > serverTick then Err(FutureAcknowledgement)
    else ScanInputs(SatSub(serverTick, c.maxPast), SatAdd(serverTick, c.maxFuture), InScan(w, [], 0),
        SortBy(FrameSequence, p.inputs))
  }

  // ---------------------------------------------------------------- exactly once, for arbitrary packets

  ghost predicate Distinct<T>(frames: seq<InputFrame<T>>) {
    forall i, j :: 0 <= i < j < |frames| ==> frames[i].sequence != frames[j].sequence
  }

  ghost predicate Handed<T>(frames: seq<InputFrame<T>>, s: nat) {
    exists i :: 0 <= i < |frames| && frames[i].sequence == s
  }

  /** The window is the exact memory of what was handed to the game since it stood at `base`. */
  ghost predicate Remembers<T>(w: Window, base: nat, delivered: seq<InputFrame<T>>) {
    && ValidWindow(w)
    && base <= w.acknowledged
    && Distinct(delivered)
    && (forall s: nat :: Received(w, s) <==> s <= base || Handed(delivered, s))
    && (forall i :: 0 <= i < |delivered| ==> base < delivered[i].sequence)
  }

  lemma NothingHanded<T>(w: Window)
    requires ValidWindow(w) && w.pending == {}
    ensures Remembers<T>(w, w.acknowledged, [])
  {
    var none: seq<InputFrame<T>> := [];
    hide Handed;
    forall s: nat
      ensures Received(w, s) <==> s <= w.acknowledged || Handed(none, s)
    {
      NoneHanded<T>(s);
    }
  }

  lemma NoneHanded<T>(s: nat)
    ensures !Handed<T>([], s)
  {
  }

  lemma HandOver<T>(w: Window, base: nat, delivered: seq<InputFrame<T>>, f: InputFrame<T>, next: Window)
    requires Remembers(w, base, delivered)
    requires ObserveWindow(w, f.sequence) == Ok((next, Accepted))
    ensures Remembers(next, base, delivered + [f])
  {
    ObserveReceives(w, f.sequence);
    hide ObserveWindow;
    var more := delivered + [f];
    forall s: nat
      ensures Received(next, s) <==> s <= base || Handed(more, s)
    {
      if Handed(delivered, s) {
        var i :| 0 <= i < |delivered| && delivered[i].sequence == s;
        assert more[i].sequence == s;
      }
      if s == f.sequence {
        assert more[|delivered|].sequence == s;
      }
      if Handed(more, s) && s != f.sequence {
        var i :| 0 <= i < |more| && more[i].sequence == s;
        assert delivered[i].sequence == s;
      }
    }
    assert !Handed(delivered, f.sequence);
  }

  lemma {:induction false} ScanRemembers<T>(
      earliest: nat, latest: nat, sc: InScan<T>, frames: seq<InputFrame<T>>, base: nat, delivered: seq<InputFrame<T>>)
    requires Remembers(sc.window, base, delivered + sc.accepted)
    ensures var r := ScanInputs(earliest, latest, sc, frames);
            r.Ok? ==>
              && Remembers(r.value.window, base, delivered + r.value.accepted)
              && sc.accepted <= r.value.accepted
              && (forall i :: |sc.accepted| <= i < |r.value.accepted| ==> r.value.accepted[i] in frames)
    decreases |frames|
  {
    hide Remembers, ObserveWindow;
    if frames != [] {
      var f := frames[0];
      WindowOf(sc.window, base, delivered + sc.accepted);
      ObserveReceives(sc.window, f.sequence);
      var o := ObserveWindow(sc.window, f.sequence);
      if o.Ok? {
        if o.value.1.Duplicate? {
          ScanRemembers(earliest, latest, sc.(duplicates := sc.duplicates + 1), frames[1..], base, delivered);
        } else {
          HandOver(sc.window, base, delivered + sc.accepted, f, o.value.0);
          assert (delivered + sc.accepted) + [f] == delivered + (sc.accepted + [f]);
          ScanRemembers(earliest, latest, InScan(o.value.0, sc.accepted + [f], sc.duplicates), frames[1..], base,
              delivered);
        }
      }
    }
  }

  lemma WindowOf<T>(w: Window, base: nat, delivered: seq<InputFrame<T>>)
    requires Remembers(w, base, delivered)
    ensures ValidWindow(w)
  {
  }

  /** One packet of any origin: what it hands over was never handed over before, and an
      error hands over nothing. */
  lemma ReceiveRemembers<T>(
      c: ReceiverConfig, w: Window, serverTick: nat, p: InputPacket<T>, base: nat, delivered: seq<InputFrame<T>>)
    requires Remembers(w, base, delivered)
    ensures var r := ReceiveInputs(c, w, serverTick, p);
            r.Ok? ==>
              && Remembers(r.value.window, base, delivered + r.value.accepted)
              && (forall i :: 0 <= i < |r.value.accepted| ==> r.value.accepted[i] in p.inputs)
  {
    hide ScanInputs, Remembers, SortBy;
    if |p.inputs| <= c.maxInputs && p.acknowledgedServerTick <= serverTick {
      assert delivered + [] == delivered;
      var sorted := SortBy(FrameSequence, p.inputs);
      ScanRemembers(SatSub(serverTick, c.maxPast), SatAdd(serverTick, c.maxFuture), InScan(w, [], 0), sorted, base,
          delivered);
      SortIsPermutation(FrameSequence, p.inputs);
      var r := ReceiveInputs(c, w, serverTick, p);
      if r.Ok? {
        forall i | 0 <= i < |r.value.accepted|
          ensures r.value.accepted[i] in p.inputs
        {
          assert r.value.accepted[i] in multiset(sorted);
        }
      }
    }
  }

  lemma {:induction false} ScanAscends<T>(earliest: nat, latest: nat, sc: InScan<T>, frames: seq<InputFrame<T>>)
    requires Ascending(FrameSequence, sc.accepted + frames)
    ensures var r := ScanInputs(earliest, latest, sc, frames);
            r.Ok? ==> Ascending(FrameSequence, r.value.accepted)
    decreases |frames|
  {
    hide ObserveWindow;
    if frames == [] {
      assert sc.accepted + frames == sc.accepted;
    } else {
      var f := frames[0];
      var all := sc.accepted + frames;
      var o := ObserveWindow(sc.window, f.sequence);
      if o.Ok? && o.value.1.Duplicate? {
        var rest := sc.accepted + frames[1..];
        assert forall i :: 0 <= i < |rest| ==> rest[i] == all[if i < |sc.accepted| then i else i + 1];
        ScanAscends(earliest, latest, sc.(duplicates := sc.duplicates + 1), frames[1..]);
      } else if o.Ok? {
        assert (sc.accepted + [f]) + frames[1..] == all;
        ScanAscends(earliest, latest, InScan(o.value.0, sc.accepted + [f], sc.duplicates), frames[1..]);
      }
    }
  }

  /** Whatever order a packet lists its frames in, what it hands over is in sequence order. */
  lemma AcceptedInOrder<T>(c: ReceiverConfig, w: Window, serverTick: nat, p: InputPacket<T>)
    ensures var r := ReceiveInputs(c, w, serverTick, p);
            r.Ok? ==> Ascending(FrameSequence, r.value.accepted)
  {
    hide ScanInputs, SortBy;
    SortIsPermutation(FrameSequence, p.inputs);
    var sorted := SortBy(FrameSequence, p.inputs);
    assert [] + sorted == sorted;
    ScanAscends(SatSub(serverTick, c.maxPast), SatAdd(serverTick, c.maxFuture), InScan(w, [], 0), sorted);
  }

  /** What a history of packets, all of arbitrary content, hands to the game. */
  ghost function HandedBy<T>(
      c: ReceiverConfig, w: Window, packets: seq<InputPacket<T>>, ticks: seq<nat>): (Window, seq<InputFrame<T>>)
    requires |packets| == |ticks|
    decreases |packets|
  {
    if packets == [] then (w, [])
    else
      var n := |packets| - 1;
      var (before, delivered) := HandedBy(c, w, packets[..n], ticks[..n]);
      var r := ReceiveInputs(c, before, ticks[n], packets[n]);
      if r.Err? then (before, delivered) else (r.value.window, delivered + r.value.accepted)
  }

  /** Across any such history each sequence is handed over at most once, and the window knows
      exactly which ones were. */
  lemma AtMostOnce<T>(c: ReceiverConfig, w: Window, packets: seq<InputPacket<T>>, ticks: seq<nat>)
    requires |packets| == |ticks|
    requires ValidWindow(w) && w.pending == {}
    ensures var (after, delivered) := HandedBy(c, w, packets, ticks);
            && Distinct(delivered)
            && ValidWindow(after)
            && (forall s: nat :: Received(after, s) <==> s <= w.acknowledged || Handed(delivered, s))
  {
    AtMostOnceFrom(c, w, packets, ticks);
  }

  lemma {:induction false} AtMostOnceFrom<T>(
      c: ReceiverConfig, w: Window, packets: seq<InputPacket<T>>, ticks: seq<nat>)
    requires |packets| == |ticks|
    requires ValidWindow(w) && w.pending == {}
    ensures var (after, delivered) := HandedBy(c, w, packets, ticks);
            Remembers(after, w.acknowledged, delivered)
    decreases |packets|
  {
    hide ReceiveInputs;
    if packets == [] {
      NothingHanded<T>(w);
    } else {
      var n := |packets| - 1;
      AtMostOnceFrom(c, w, packets[..n], ticks[..n]);
      var (before, delivered) := HandedBy(c, w, packets[..n], ticks[..n]);
      hide Remembers;
      ReceiveRemembers(c, before, ticks[n], packets[n], w.acknowledged, delivered);
    }
  }

  // ---------------------------------------------------------------- the objects

  class InputSender<T(!new)> {
    const config: SenderConfig
    var next: nat
    var acknowledged: nat
    var serverTick: nat
    var history: seq<InputFrame<T>>

    function View(): InSender<T>
      reads this
    {
      InSender(next, acknowledged, serverTick, history)
    }

    constructor (c: SenderConfig, first: nat)
      requires ValidSenderConfig(c) && 0 < first
      ensures config == c && View() == InSender(first, first - 1, 0, [])
    {
      config, next, acknowledged, serverTick, history := c, first, first - 1, 0, [];
    }

    method Record(target: nat, input: T) returns (r: Result<nat, InputError>)
      modifies this`next, this`history
      ensures r.Err? ==> RecordInput(config, old(View()), target, input) == Err(r.error) && View() == old(View())
      ensures r.Ok? ==> RecordInput(config, old(View()), target, input) == Ok(View()) && r.value == old(next)
    {
      if target == 0 {
        return Err(ZeroTarget);
      }
      if |history| >= config.historyCapacity {
        return Err(HistoryFull);
      }
      var sequence := next;
      if next + 1 > U64_MAX {
        return Err(SequenceExhausted);
      }
      next := next + 1;
      history := history + [InputFrame(sequence, target, input)];
      r := Ok(sequence);
    }

    method Acknowledge(ack: InputAck) returns (r: Result<nat, InputError>)
      modifies this`acknowledged, this`serverTick, this`history
      ensures r.Err? ==> AcknowledgeInput(old(View()), ack) == Err(r.error) && View() == old(View())
      ensures r.Ok? ==> AcknowledgeInput(old(View()), ack) == Ok(View()) && r.value == |old(history)| - |history|
    {
      if ack.sequence + 1 > next {
        return Err(InvalidAcknowledgement);
      }
      if ack.serverTick > serverTick {
        serverTick := ack.serverTick;
      }
      if ack.sequence <= acknowledged {
        return Ok(0);
      }
      acknowledged := ack.sequence;
      var before := |history|;
      while history != [] && history[0].sequence <= acknowledged
        invariant DropThrough(FrameSequence, history, ack.sequence) ==
            DropThrough(FrameSequence, old(history), ack.sequence)
        invariant |history| <= before
        decreases |history|
        modifies this`history
      {
        history := history[1..];
      }
      r := Ok(before - |history|);
    }

    method BuildPacket(clientTick: nat) returns (p: InputPacket<T>)
      ensures p == InputPacketOf(config, View(), clientTick)
    {
      var skip := SatSub(|history|, config.redundancy);
      p := InputPacket(clientTick, serverTick, history[skip..]);
    }
  }

  datatype InputReport<T> = InputReport(accepted: seq<InputFrame<T>>, duplicates: nat, clientTick: nat,
      acknowledgedServerTick: nat, ack: InputAck)

  class InputReceiver {
    const config: ReceiverConfig
    var sequences: SequenceWindow

    ghost predicate Valid()
      reads this, sequences
    {
      sequences.Valid()
    }

    constructor (c: ReceiverConfig, acknowledged: nat)
      requires ValidReceiverConfig(c) && acknowledged <= U64_MAX
      ensures Valid() && fresh(sequences) && config == c
      ensures sequences.View() == Window(c.reorderWindow, acknowledged, {})
    {
      config := c;
      sequences := new SequenceWindow.FromView(Window(c.reorderWindow, acknowledged, {}));
    }

    /** Transactional: an error leaves the receive window as it was. */
    method Receive<T>(current: nat, packet: InputPacket<T>) returns (r: Result<InputReport<T>, InputError>)
      requires Valid()
      modifies this
      ensures Valid()
      ensures r.Err? ==>
          ReceiveInputs(config, old(sequences.View()), current, packet) == Err(r.error) && sequences == old(sequences)
      ensures r.Ok? ==>
          ReceiveInputs(config, old(sequences.View()), current, packet) ==
          Ok(InScan(sequences.View(), r.value.accepted, r.value.duplicates))
      ensures r.Ok? ==> fresh(sequences) && r.value.ack == InputAck(current, sequences.acknowledged)
      ensures r.Ok? ==>
          r.value.clientTick == packet.clientTick && r.value.acknowledgedServerTick == packet.acknowledgedServerTick
    {
      if |packet.inputs| > config.maxInputs {
        return Err(TooManyInputs);
      }
      if packet.acknowledgedServerTick > current {
        return Err(FutureAcknowledgement);
      }
      var next := new SequenceWindow.FromView(sequences.View());
      var earliest, latest := SatSub(current, config.maxPast), SatAdd(current, config.maxFuture);
      var scan := ScanFrames(next, earliest, latest, SortBy(FrameSequence, packet.inputs));
      if scan.Err? {
        return Err(scan.error);
      }
      sequences := next;
      r := Ok(InputReport(scan.value.accepted, scan.value.duplicates, packet.clientTick, packet.acknowledgedServerTick,
          InputAck(current, sequences.acknowledged)));
    }
  }

  method ScanFrames<T>(
      window: SequenceWindow, earliest: nat, latest: nat, frames: seq<InputFrame<T>>)
    returns (r: Result<InScan<T>, InputError>)
    requires window.Valid()
    modifies window
    ensures window.Valid()
    ensures r == ScanInputs(earliest, latest, InScan(old(window.View()), [], 0), frames)
    ensures r.Ok? ==> r.value.window == window.View()
  {
    hide ObserveWindow;
    var accepted: seq<InputFrame<T>> := [];
    var duplicates: nat := 0;
    var i := 0;
    while i < |frames|
      invariant 0 <= i <= |frames|
      invariant window.Valid()
      invariant ScanInputs(earliest, latest, InScan(window.View(), accepted, duplicates), frames[i..])
             == ScanInputs(earliest, latest, InScan(old(window.View()), [], 0), frames)
    {
      var frame := frames[i];
      assert frames[i..][0] == frame && frames[i..][1..] == frames[i + 1..];
      ObserveReceives(window.View(), frame.sequence);
      var observed := window.Observe(frame.sequence);
      if observed.Err? {
        return Err(BadSequence(observed.error));
      }
      if observed.value.Duplicate? {
        duplicates := duplicates + 1;
      } else {
        if frame.targetTick == 0 || frame.targetTick < earliest || frame.targetTick > latest {
          return Err(TargetOutsideWindow);
        }
        accepted := accepted + [frame];
      }
      i := i + 1;
    }
    r := Ok(InScan(window.View(), accepted, duplicates));
  }
}
