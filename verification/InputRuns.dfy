/** Whole runs of one input stream: a sender, a receiver, and a network that may lose,
    reorder and repeat packets and acknowledgements. */
module InputRuns {
  import opened Common
  import opened SequenceWindows
  import opened InputChannel

  /** `packets` and `acks` are everything ever put on the network; `issued` is every input the
      game recorded, `delivered` every input the server handed to the simulation. */
  datatype Stream<T> = Stream(
    base: nat, sender: InSender<T>, window: Window, packets: seq<InputPacket<T>>, acks: seq<InputAck>,
    issued: seq<InputFrame<T>>, delivered: seq<InputFrame<T>>)

  datatype StreamConfig = StreamConfig(sender: SenderConfig, receiver: ReceiverConfig)

  datatype StreamStep<T> =
    | RecordStep(target: nat, input: T)
    | SendStep(clientTick: nat)
    | DeliverStep(packet: nat, serverTick: nat)
    | AcknowledgeStep(ack: nat)

  function StreamStart<T>(c: StreamConfig, base: nat): Stream<T> {
    Stream(base, InSender(base + 1, base, 0, []), Window(c.receiver.reorderWindow, base, {}), [], [], [], [])
  }

  predicate StreamEnabled<T>(s: Stream<T>, step: StreamStep<T>) {
    match step
    case DeliverStep(packet, _) => packet < |s.packets|
    case AcknowledgeStep(ack) => ack < |s.acks|
    case _ => true
  }

  function StreamExec<T>(c: StreamConfig, s: Stream<T>, step: StreamStep<T>): Stream<T>
    requires StreamEnabled(s, step)
  {
    match step
    case RecordStep(target, input) =>
      var r := RecordInput(c.sender, s.sender, target, input);
      if r.Err? then s else s.(sender := r.value, issued := s.issued + [InputFrame(s.sender.next, target, input)])
    case SendStep(clientTick) =>
      s.(packets := s.packets + [InputPacketOf(c.sender, s.sender, clientTick)])
    case DeliverStep(packet, serverTick) =>
      var r := ReceiveInputs(c.receiver, s.window, serverTick, s.packets[packet]);
      if r.Err? then s
      else s.(window := r.value.window,
              delivered := s.delivered + r.value.accepted,
              acks := s.acks + [InputAck(serverTick, r.value.window.acknowledged)])
    case AcknowledgeStep(ack) =>
      var r := AcknowledgeInput(s.sender, s.acks[ack]);
      if r.Err? then s else s.(sender := r.value)
  }

  predicate StreamLegal<T>(c: StreamConfig, s: Stream<T>, steps: seq<StreamStep<T>>)
    decreases |steps|
  {
    steps == [] || (StreamEnabled(s, steps[0]) && StreamLegal(c, StreamExec(c, s, steps[0]), steps[1..]))
  }

  function StreamRun<T>(c: StreamConfig, s: Stream<T>, steps: seq<StreamStep<T>>): Stream<T>
    requires StreamLegal(c, s, steps)
    decreases |steps|
  {
    if steps == [] then s else StreamRun(c, StreamExec(c, s, steps[0]), steps[1..])
  }

  // ---------------------------------------------------------------- invariant

  /** `f` is an input the game really recorded. */
  predicate Genuine<T(==)>(base: nat, issued: seq<InputFrame<T>>, f: InputFrame<T>) {
    base < f.sequence <= base + |issued| && issued[f.sequence - base - 1] == f
  }

  ghost predicate AllGenuine<T>(base: nat, issued: seq<InputFrame<T>>, frames: seq<InputFrame<T>>) {
    forall i :: 0 <= i < |frames| ==> Genuine(base, issued, frames[i])
  }

  ghost predicate Numbered<T>(base: nat, issued: seq<InputFrame<T>>) {
    forall i :: 0 <= i < |issued| ==> issued[i].sequence == base + 1 + i
  }

  ghost predicate SenderHolds<T>(s: Stream<T>) {
    && s.sender.next == s.base + 1 + |s.issued| <= U64_MAX
    && s.base <= s.sender.acknowledged <= s.base + |s.issued|
    && s.sender.history == s.issued[s.sender.acknowledged - s.base..]
  }

  ghost predicate StreamInv<T>(s: Stream<T>) {
    && Numbered(s.base, s.issued)
    && SenderHolds(s)
    && Remembers(s.window, s.base, s.delivered)
    && s.sender.acknowledged <= s.window.acknowledged
    && AllGenuine(s.base, s.issued, s.delivered)
    && (forall p :: 0 <= p < |s.packets| ==> AllGenuine(s.base, s.issued, s.packets[p].inputs))
    && (forall a :: 0 <= a < |s.acks| ==> s.base <= s.acks[a].sequence <= s.window.acknowledged)
  }

  lemma StillGenuine<T>(base: nat, issued: seq<InputFrame<T>>, f: InputFrame<T>, frames: seq<InputFrame<T>>)
    requires AllGenuine(base, issued, frames)
    ensures AllGenuine(base, issued + [f], frames)
  {
    forall i | 0 <= i < |frames|
      ensures Genuine(base, issued + [f], frames[i])
    {
      assert Genuine(base, issued, frames[i]);
    }
  }

  lemma SuffixGenuine<T>(base: nat, issued: seq<InputFrame<T>>, k: nat)
    requires k <= |issued| && Numbered(base, issued)
    ensures AllGenuine(base, issued, issued[k..])
  {
  }

  /** Everything up to the receiver's acknowledgement was handed over, so it was recorded. */
  lemma AcknowledgedWasIssued<T>(s: Stream<T>)
    requires Remembers(s.window, s.base, s.delivered) && AllGenuine(s.base, s.issued, s.delivered)
    ensures s.window.acknowledged <= s.base + |s.issued|
  {
    if s.base < s.window.acknowledged {
      assert Received(s.window, s.window.acknowledged);
      var i :| 0 <= i < |s.delivered| && s.delivered[i].sequence == s.window.acknowledged;
      assert Genuine(s.base, s.issued, s.delivered[i]);
    }
  }

  lemma RecordKeeps<T>(c: StreamConfig, s: Stream<T>, target: nat, input: T)
    requires StreamInv(s)
    ensures StreamInv(StreamExec(c, s, RecordStep(target, input)))
  {
    hide Remembers, AllGenuine;
    var f := InputFrame(s.sender.next, target, input);
    StillGenuine(s.base, s.issued, f, s.delivered);
    forall p | 0 <= p < |s.packets|
      ensures AllGenuine(s.base, s.issued + [f], s.packets[p].inputs)
    {
      StillGenuine(s.base, s.issued, f, s.packets[p].inputs);
    }
    var k := s.sender.acknowledged - s.base;
    assert s.issued[k..] + [f] == (s.issued + [f])[k..];
  }

  lemma SendKeeps<T>(c: StreamConfig, s: Stream<T>, clientTick: nat)
    requires StreamInv(s)
    ensures StreamInv(StreamExec(c, s, SendStep(clientTick)))
  {
    hide Remembers, AllGenuine;
    var k := s.sender.acknowledged - s.base;
    var skip := SatSub(|s.sender.history|, c.sender.redundancy);
    assert s.issued[k..][skip..] == s.issued[k + skip..];
    SuffixGenuine(s.base, s.issued, k + skip);
  }

  lemma DeliverKeeps<T>(c: StreamConfig, s: Stream<T>, packet: nat, serverTick: nat)
    requires StreamInv(s)
    requires packet < |s.packets|
    ensures StreamInv(StreamExec(c, s, DeliverStep(packet, serverTick)))
    ensures s.window.acknowledged <= StreamExec(c, s, DeliverStep(packet, serverTick)).window.acknowledged
  {
    hide ReceiveInputs;
    var p := s.packets[packet];
    ReceiveRemembers(c.receiver, s.window, serverTick, p, s.base, s.delivered);
    var r := ReceiveInputs(c.receiver, s.window, serverTick, p);
    if r.Ok? {
      assert AllGenuine(s.base, s.issued, p.inputs);
      DeliveredGenuine(s.base, s.issued, p.inputs, s.delivered, r.value.accepted);
      MoreReceived(s.window, r.value.window, s.base, s.delivered, r.value.accepted);
    }
  }

  lemma DeliveredGenuine<T>(
      base: nat, issued: seq<InputFrame<T>>, inputs: seq<InputFrame<T>>, delivered: seq<InputFrame<T>>,
      accepted: seq<InputFrame<T>>)
    requires AllGenuine(base, issued, inputs) && AllGenuine(base, issued, delivered)
    requires forall i :: 0 <= i < |accepted| ==> accepted[i] in inputs
    ensures AllGenuine(base, issued, delivered + accepted)
  {
    var all := delivered + accepted;
    forall i | 0 <= i < |all|
      ensures Genuine(base, issued, all[i])
    {
      if i >= |delivered| {
        assert accepted[i - |delivered|] in inputs;
      }
    }
  }

  lemma MoreReceived<T>(w: Window, next: Window, base: nat, delivered: seq<InputFrame<T>>, accepted: seq<InputFrame<T>>)
    requires Remembers(w, base, delivered) && Remembers(next, base, delivered + accepted)
    ensures w.acknowledged <= next.acknowledged
  {
    forall s: nat | 1 <= s <= w.acknowledged
      ensures Received(next, s)
    {
      assert Received(w, s);
      if s > base {
        var i :| 0 <= i < |delivered| && delivered[i].sequence == s;
        assert (delivered + accepted)[i].sequence == s;
      }
    }
    AcknowledgementIsLargestPrefix(next, w.acknowledged);
  }

  lemma AcknowledgeKeeps<T>(c: StreamConfig, s: Stream<T>, ack: nat)
    requires StreamInv(s)
    requires ack < |s.acks|
    ensures StreamInv(StreamExec(c, s, AcknowledgeStep(ack)))
    ensures AcknowledgeInput(s.sender, s.acks[ack]).Ok?
  {
    AcknowledgedWasIssued(s);
    hide Remembers, AllGenuine, Numbered, SenderHolds, AcknowledgeInput;
    ReleaseKeeps(s, s.acks[ack]);
  }

  /** An acknowledgement of something issued is accepted and releases exactly what it covers. */
  lemma ReleaseKeeps<T>(s: Stream<T>, a: InputAck)
    requires Numbered(s.base, s.issued) && SenderHolds(s)
    requires s.base <= a.sequence <= s.base + |s.issued|
    ensures var r := AcknowledgeInput(s.sender, a);
            && r.Ok?
            && SenderHolds(s.(sender := r.value))
            && r.value.acknowledged == if a.sequence > s.sender.acknowledged then a.sequence else s.sender.acknowledged
  {
    if a.sequence > s.sender.acknowledged {
      var from := s.sender.acknowledged - s.base;
      DropThroughAt(FrameSequence, s.sender.history, s.sender.acknowledged, a.sequence);
      assert s.issued[from..][a.sequence - s.sender.acknowledged..] == s.issued[a.sequence - s.base..];
    }
    hide Numbered, DropThrough;
  }

  lemma StreamStepKeeps<T>(c: StreamConfig, s: Stream<T>, step: StreamStep<T>)
    requires StreamInv(s)
    requires StreamEnabled(s, step)
    ensures StreamInv(StreamExec(c, s, step))
  {
    hide StreamInv, StreamExec;
    match step
    case RecordStep(target, input) => RecordKeeps(c, s, target, input);
    case SendStep(clientTick) => SendKeeps(c, s, clientTick);
    case DeliverStep(packet, serverTick) => DeliverKeeps(c, s, packet, serverTick);
    case AcknowledgeStep(ack) => AcknowledgeKeeps(c, s, ack);
  }

  lemma {:induction false} StreamRunKeeps<T>(c: StreamConfig, s: Stream<T>, steps: seq<StreamStep<T>>)
    requires StreamInv(s)
    requires StreamLegal(c, s, steps)
    ensures StreamInv(StreamRun(c, s, steps))
    decreases |steps|
  {
    hide StreamInv, StreamExec;
    if steps != [] {
      StreamStepKeeps(c, s, steps[0]);
      StreamRunKeeps(c, StreamExec(c, s, steps[0]), steps[1..]);
    }
  }

  lemma StartInv<T>(c: StreamConfig, base: nat)
    requires ValidReceiverConfig(c.receiver) && base < U64_MAX
    ensures StreamInv<T>(StreamStart(c, base))
  {
    hide Remembers;
    NothingHanded<T>(Window(c.receiver.reorderWindow, base, {}));
  }

  /** The channel's promise, over every run with any loss, reordering and repetition: the
      simulation is handed only recorded inputs, none twice; every input the sender has
      released was handed over; and no acknowledgement is ever refused. */
  lemma ExactlyOnce<T>(c: StreamConfig, base: nat, steps: seq<StreamStep<T>>)
    requires ValidReceiverConfig(c.receiver) && base < U64_MAX
    requires StreamLegal(c, StreamStart(c, base), steps)
    ensures var s := StreamRun(c, StreamStart(c, base), steps);
            && Distinct(s.delivered)
            && AllGenuine(base, s.issued, s.delivered)
            && (forall k :: 0 <= k < |s.issued| ==> s.issued[k] in s.sender.history || s.issued[k] in s.delivered)
            && (forall a :: 0 <= a < |s.acks| ==> AcknowledgeInput(s.sender, s.acks[a]).Ok?)
  {
    hide StreamRun, StreamLegal, StreamInv, StreamStart, StreamExec, AcknowledgeInput, Distinct, AllGenuine;
    StartInv<T>(c, base);
    StreamRunKeeps(c, StreamStart(c, base), steps);
    BaseKept(c, StreamStart(c, base), steps);
    var s := StreamRun(c, StreamStart(c, base), steps);
    StartBase<T>(c, base);
    DeliveredOnce(s);
    forall k | 0 <= k < |s.issued|
      ensures s.issued[k] in s.sender.history || s.issued[k] in s.delivered
    {
      Settled(s, k);
    }
    forall a | 0 <= a < |s.acks|
      ensures AcknowledgeInput(s.sender, s.acks[a]).Ok?
    {
      AcknowledgeKeeps(c, s, a);
    }
  }

  lemma StartBase<T>(c: StreamConfig, base: nat)
    ensures StreamStart<T>(c, base).base == base
  {
  }

  lemma DeliveredOnce<T>(s: Stream<T>)
    requires StreamInv(s)
    ensures Distinct(s.delivered) && AllGenuine(s.base, s.issued, s.delivered)
  {
  }

  lemma Settled<T>(s: Stream<T>, k: nat)
    requires StreamInv(s)
    requires k < |s.issued|
    ensures s.issued[k] in s.sender.history || s.issued[k] in s.delivered
  {
    var released := s.sender.acknowledged - s.base;
    if k < released {
      var sequence := s.base + 1 + k;
      assert Received(s.window, sequence);
      var i :| 0 <= i < |s.delivered| && s.delivered[i].sequence == sequence;
      assert Genuine(s.base, s.issued, s.delivered[i]);
    } else {
      assert s.sender.history[k - released] == s.issued[k];
    }
  }

  lemma {:induction false} BaseKept<T>(c: StreamConfig, s: Stream<T>, steps: seq<StreamStep<T>>)
    requires StreamLegal(c, s, steps)
    ensures StreamRun(c, s, steps).base == s.base
    decreases |steps|
  {
    if steps != [] {
      BaseKept(c, StreamExec(c, s, steps[0]), steps[1..]);
    }
  }
}
