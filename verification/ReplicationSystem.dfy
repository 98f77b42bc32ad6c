/** Sender and receiver joined by a network that may drop, duplicate, delay and reorder
    anything: it remembers every packet ever built and every acknowledgement ever
    returned, and delivers any of them at any time, any number of times. */
module ReplicationSystem {
  import opened Common
  import opened SequenceWindows
  import opened StableSort
  import opened ReplicationProtocol
  import opened ReplicationSenders
  import opened ReplicationReceivers
  import opened ReplicationDiff

  /** `log` records every batch ever issued; no operation reads it. */
  datatype System<S, D> = System(
    sender: Sender<S, D>,
    receiver: Receiver<S, D>,
    packets: seq<Packet<S, D>>,
    acks: seq<Ack>,
    log: seq<Batch<S, D>>)

  datatype Step<!S, !D> =
    | Reconcile(tick: nat, visible: seq<Entry<S>>, encode: Encoder<S, D>)
    | ForceKeyframes
    | SendPacket
    | DeliverPacket(packet: nat)
    | DeliverAck(ack: nat)

  function Initial<S, D>(c: Config): System<S, D> {
    System(Sender(1, 0, 0, map[], [], false),
           Receiver(Window(c.reorderWindow, 0, {}), map[], map[], 0),
           [], [], [])
  }

  /** Steps that can happen: deliveries pick something that was really sent, and a
      reconciliation honours the application's contracts. */
  ghost predicate Enabled<S, D>(decode: Decoder<S, D>, s: System<S, D>, step: Step<S, D>) {
    match step
    case Reconcile(_, visible, encode) =>
      var desired := Collect(visible, map[]);
      desired.Some? ==> UpdateContract(decode, s.sender.projected, desired.value, s.sender.force, encode)
    case DeliverPacket(i) => i < |s.packets|
    case DeliverAck(i) => i < |s.acks|
    case _ => true
  }

  ghost function Exec<S, D>(c: Config, decode: Decoder<S, D>, s: System<S, D>, step: Step<S, D>): System<S, D>
    requires ValidConfig(c)
    requires Enabled(decode, s, step)
  {
    match step
    case Reconcile(tick, visible, encode) =>
      var r := UpdateSender(c, s.sender, tick, visible, encode);
      if r.Err? then s
      else s.(sender := r.value, log := s.log + r.value.pending[|s.sender.pending|..])
    case ForceKeyframes => s.(sender := s.sender.(force := true))
    case SendPacket => s.(packets := s.packets + [PacketOf(c, s.sender)])
    case DeliverPacket(i) =>
      var r := Receive(c, decode, s.receiver, s.packets[i]);
      if r.Err? then s else s.(receiver := r.value.receiver, acks := s.acks + [r.value.report.ack])
    case DeliverAck(i) =>
      var r := AcknowledgeSender(s.sender, s.acks[i]);
      if r.Err? then s else s.(sender := r.value.sender)
  }

  /** A run: its steps in order, each enabled where it happens. */
  ghost predicate LegalRun<S, D>(c: Config, decode: Decoder<S, D>, s: System<S, D>, steps: seq<Step<S, D>>)
    requires ValidConfig(c)
    decreases |steps|
  {
    steps != [] ==> Enabled(decode, s, steps[0]) && LegalRun(c, decode, Exec(c, decode, s, steps[0]), steps[1..])
  }

  ghost function Run<S, D>(c: Config, decode: Decoder<S, D>, s: System<S, D>, steps: seq<Step<S, D>>): System<S, D>
    requires ValidConfig(c)
    requires LegalRun(c, decode, s, steps)
    decreases |steps|
  {
    if steps == [] then s else Run(c, decode, Exec(c, decode, s, steps[0]), steps[1..])
  }

  // ---------------------------------------------------------------- the invariant

  ghost function TickAt<S, D>(log: seq<Batch<S, D>>, sequence: nat): nat
    requires sequence <= |log|
  {
    if sequence == 0 then 0 else log[sequence - 1].tick
  }

  ghost predicate LogInv<S, D>(c: Config, log: seq<Batch<S, D>>, lastTick: nat) {
    && (forall i :: 0 <= i < |log| ==>
        log[i].sequence == i + 1 && 0 < log[i].tick <= lastTick && |log[i].events| <= c.maxEventsPerBatch)
    && (forall i, j :: 0 <= i <= j < |log| ==> log[i].tick <= log[j].tick)
  }

  ghost predicate SenderInv<S, D>(c: Config, s: Sender<S, D>, log: seq<Batch<S, D>>) {
    && ValidSender(c, s)
    && |log| + 1 == s.nextSequence
    && s.pending == log[s.acknowledged..]
  }

  /** Replaying everything ever issued gives the sender's picture of the observer. */
  ghost predicate FoldInv<S, D>(c: Config, decode: Decoder<S, D>, s: Sender<S, D>, log: seq<Batch<S, D>>) {
    var folded := ApplyLog(c.maxEntities, decode, map[], log);
    folded.Ok? && SameView(folded.value, s.projected)
  }

  /** The receiver holds exactly the replay of batches `1..ack` and buffers only issued batches. */
  ghost predicate ReceiverInv<S, D>(c: Config, decode: Decoder<S, D>, r: Receiver<S, D>, log: seq<Batch<S, D>>) {
    && ValidReceiver(c, r)
    && r.window.acknowledged <= |log|
    && (forall s :: s in r.pending ==> 0 < s <= |log| && r.pending[s] == log[s - 1])
    && ApplyLog(c.maxEntities, decode, map[], log[..r.window.acknowledged]) == Ok(r.entities)
    && r.appliedTick == TickAt(log, r.window.acknowledged)
  }

  ghost predicate Genuine<S, D>(log: seq<Batch<S, D>>, bound: nat, b: Batch<S, D>) {
    0 < b.sequence <= |log| && b == log[b.sequence - 1] && b.sequence <= bound
  }

  /** A packet the sender built at some time; none of its batches is further ahead of the
      receiver's acknowledgement than the sender's history is long. */
  ghost predicate GenuinePacket<S, D>(c: Config, log: seq<Batch<S, D>>, ack: nat, p: Packet<S, D>) {
    && |p.batches| <= c.redundancy
    && Ascending(BatchSequence, p.batches)
    && (forall b :: b in p.batches ==> Genuine(log, ack + c.historyCapacity, b))
  }

  ghost predicate GenuineAck<S, D>(log: seq<Batch<S, D>>, ack: nat, a: Ack) {
    a.sequence <= ack && ack <= |log| && a.tick == TickAt(log, a.sequence)
  }

  ghost predicate NetworkInv<S, D>(c: Config, s: System<S, D>) {
    && s.sender.acknowledged <= s.receiver.window.acknowledged
    && (forall p :: p in s.packets ==> GenuinePacket(c, s.log, s.receiver.window.acknowledged, p))
    && (forall a :: a in s.acks ==> GenuineAck(s.log, s.receiver.window.acknowledged, a))
  }

  ghost predicate Inv<S, D>(c: Config, decode: Decoder<S, D>, s: System<S, D>) {
    && LogInv(c, s.log, s.sender.lastTick)
    && SenderInv(c, s.sender, s.log)
    && FoldInv(c, decode, s.sender, s.log)
    && ReceiverInv(c, decode, s.receiver, s.log)
    && NetworkInv(c, s)
  }

  // ---------------------------------------------------------------- reconciliation

  lemma LogExtends<S, D>(c: Config, log: seq<Batch<S, D>>, batches: seq<Batch<S, D>>, lastTick: nat, tick: nat)
    requires LogInv(c, log, lastTick)
    requires lastTick < tick
    requires forall i :: 0 <= i < |batches| ==>
               batches[i].sequence == |log| + 1 + i && batches[i].tick == tick
                   && |batches[i].events| <= c.maxEventsPerBatch
    ensures LogInv(c, log + batches, tick)
  {
  }

  lemma UpdateExtends<S, D>(
      c: Config, s: Sender<S, D>, tick: nat, visible: seq<Entry<S>>, encode: Encoder<S, D>, log: seq<Batch<S, D>>)
    returns (batches: seq<Batch<S, D>>, desired: World<S>, events: seq<Event<S, D>>)
    requires ValidConfig(c)
    requires LogInv(c, log, s.lastTick)
    requires SenderInv(c, s, log)
    requires UpdateSender(c, s, tick, visible, encode).Ok?
    ensures Collect(visible, map[]) == Some(desired) && |desired| <= c.maxEntities
    ensures Diff(s.projected, desired, s.force, encode) == Ok(events)
    ensures batches == Chunk(events, c.maxEventsPerBatch, s.nextSequence, tick)
    ensures var next := UpdateSender(c, s, tick, visible, encode).value;
            && next.pending == s.pending + batches
            && next.projected == desired
            && next.acknowledged == s.acknowledged
            && LogInv(c, log + batches, next.lastTick)
            && SenderInv(c, next, log + batches)
  {
    hide Collect, Diff, Chunk;
    desired := Collect(visible, map[]).value;
    events := Diff(s.projected, desired, s.force, encode).value;
    batches := Chunk(events, c.maxEventsPerBatch, s.nextSequence, tick);
    LogExtends(c, log, batches, s.lastTick, tick);
    assert s.pending + batches == (log + batches)[s.acknowledged..];
  }

  lemma FoldExtends<S, D>(c: Config, decode: Decoder<S, D>, s: Sender<S, D>, desired: World<S>, encode: Encoder<S, D>,
                          events: seq<Event<S, D>>, log: seq<Batch<S, D>>, tick: nat)
    requires ValidConfig(c)
    requires FoldInv(c, decode, s, log)
    requires UpdateContract(decode, s.projected, desired, s.force, encode)
    requires |desired| <= c.maxEntities
    requires Diff(s.projected, desired, s.force, encode) == Ok(events)
    ensures var folded := ApplyLog(c.maxEntities, decode, map[],
        log + Chunk(events, c.maxEventsPerBatch, s.nextSequence, tick));
            folded.Ok? && SameView(folded.value, desired)
  {
    hide ApplyLog, ApplyEvents, Diff, Chunk, UpdateContract;
    var batches := Chunk(events, c.maxEventsPerBatch, s.nextSequence, tick);
    var w := ApplyLog(c.maxEntities, decode, map[], log).value;
    DiffApplies(c.maxEntities, decode, w, s.projected, desired, s.force, encode);
    ChunksApply(c.maxEntities, decode, w, events, c.maxEventsPerBatch, s.nextSequence, tick);
    ApplyLogConcat(c.maxEntities, decode, map[], log, batches);
  }

  lemma ReceiverInvExtends<S, D>(
      c: Config, decode: Decoder<S, D>, r: Receiver<S, D>, log: seq<Batch<S, D>>, batches: seq<Batch<S, D>>)
    requires ReceiverInv(c, decode, r, log)
    ensures ReceiverInv(c, decode, r, log + batches)
  {
    hide ApplyLog, ValidReceiver;
    assert (log + batches)[..r.window.acknowledged] == log[..r.window.acknowledged];
  }

  lemma NetworkInvExtends<S, D>(c: Config, s: System<S, D>, s': System<S, D>, batches: seq<Batch<S, D>>)
    requires NetworkInv(c, s)
    requires s' == s.(sender := s'.sender, log := s.log + batches)
    requires s'.sender.acknowledged == s.sender.acknowledged
    ensures NetworkInv(c, s')
  {
    forall p | p in s'.packets
      ensures GenuinePacket(c, s'.log, s'.receiver.window.acknowledged, p)
    {
      assert GenuinePacket(c, s.log, s.receiver.window.acknowledged, p);
      assert forall b :: b in p.batches ==> Genuine(s.log, s.receiver.window.acknowledged + c.historyCapacity, b);
    }
    forall a | a in s'.acks
      ensures GenuineAck(s'.log, s'.receiver.window.acknowledged, a)
    {
      assert GenuineAck(s.log, s.receiver.window.acknowledged, a);
    }
  }

  lemma ReconcileKeepsInv<S, D>(
      c: Config, decode: Decoder<S, D>, s: System<S, D>, tick: nat, visible: seq<Entry<S>>, encode: Encoder<S, D>)
    requires ValidConfig(c)
    requires Inv(c, decode, s)
    requires Enabled(decode, s, Reconcile(tick, visible, encode))
    ensures Inv(c, decode, Exec(c, decode, s, Reconcile(tick, visible, encode)))
  {
    hide LogInv, SenderInv, ReceiverInv, NetworkInv, UpdateSender, UpdateContract;
    if UpdateSender(c, s.sender, tick, visible, encode).Ok? {
      var batches, desired, events := UpdateExtends(c, s.sender, tick, visible, encode, s.log);
      FoldExtends(c, decode, s.sender, desired, encode, events, s.log, tick);
      ReceiverInvExtends(c, decode, s.receiver, s.log, batches);
      var s' := Exec(c, decode, s, Reconcile(tick, visible, encode));
      assert s'.sender.pending[|s.sender.pending|..] == batches;
      NetworkInvExtends(c, s, s', batches);
    }
  }

  // ---------------------------------------------------------------- a genuine packet is never refused

  /** A scan in progress over genuine batches: everything new is an issued batch. */
  ghost predicate GenuineScan<S, D>(log: seq<Batch<S, D>>, sc: Scanned<S, D>) {
    forall s :: s in sc.accepted ==> 0 < s <= |log| && sc.accepted[s] == log[s - 1]
  }

  lemma {:induction false} GenuineScanned<S, D>(
      c: Config, w0: Window, sc: Scanned<S, D>, batches: seq<Batch<S, D>>, log: seq<Batch<S, D>>, lastTick: nat)
    requires ValidConfig(c)
    requires LogInv(c, log, lastTick) && |log| < U64_MAX
    requires ScanFrom(w0, sc) && w0.reorder == c.reorderWindow
    requires GenuineScan(log, sc)
    requires forall b :: b in batches ==> Genuine(log, w0.acknowledged + c.historyCapacity, b)
    ensures var r := Scan(c.maxEventsPerBatch, sc, batches);
            && r.Ok?
            && ScanFrom(w0, r.value)
            && GenuineScan(log, r.value)
            && (forall s: nat :: Received(sc.window, s) ==> Received(r.value.window, s))
            && (forall b :: b in batches ==> Received(r.value.window, b.sequence))
    decreases |batches|
  {
    hide ObserveWindow, ScanFrom, SatAdd;
    if batches != [] {
      var b := batches[0];
      assert b in batches;
      var next := GenuineObserved(c, w0, sc, b, log, lastTick);
      forall x | x in batches[1..]
        ensures x in batches
      {
      }
      GenuineScanned(c, w0, next, batches[1..], log, lastTick);
      assert forall x :: x in batches ==> x == b || x in batches[1..];
    }
  }

  /** One genuine batch moves the scan on without error. */
  lemma GenuineObserved<S, D>(
      c: Config, w0: Window, sc: Scanned<S, D>, b: Batch<S, D>, log: seq<Batch<S, D>>, lastTick: nat)
    returns (next: Scanned<S, D>)
    requires ValidConfig(c)
    requires LogInv(c, log, lastTick) && |log| < U64_MAX
    requires ScanFrom(w0, sc) && w0.reorder == c.reorderWindow
    requires GenuineScan(log, sc)
    requires Genuine(log, w0.acknowledged + c.historyCapacity, b)
    ensures b.tick != 0 && |b.events| <= c.maxEventsPerBatch
    ensures ObserveWindow(sc.window, b.sequence).Ok?
    ensures var (window, disposition) := ObserveWindow(sc.window, b.sequence).value;
            next == if disposition.Duplicate? then sc.(duplicates := sc.duplicates + 1)
                    else sc.(window := window, accepted := sc.accepted[b.sequence := b])
    ensures ScanFrom(w0, next) && GenuineScan(log, next)
    ensures forall s: nat :: Received(sc.window, s) ==> Received(next.window, s)
    ensures Received(next.window, b.sequence)
  {
    ObserveReceives(sc.window, b.sequence);
    hide ObserveWindow;
    var (window, disposition) := ObserveWindow(sc.window, b.sequence).value;
    next := if disposition.Duplicate? then sc.(duplicates := sc.duplicates + 1)
            else sc.(window := window, accepted := sc.accepted[b.sequence := b]);
  }

  /** The payloads at hand for a range of sequences are the issued ones. */
  ghost predicate PayloadsAre<S, D>(payload: map<nat, Batch<S, D>>, log: seq<Batch<S, D>>, first: nat, last: nat) {
    forall s :: first <= s <= last ==> 0 < s <= |log| && s in payload && payload[s] == log[s - 1]
  }

  /** Replaying issued batches onto a replay of their predecessors is a longer replay. */
  lemma {:induction false} GenuineRange<S, D>(
      c: Config, decode: Decoder<S, D>, payload: map<nat, Batch<S, D>>, a: Applied<S>,
      first: nat, last: nat, log: seq<Batch<S, D>>, lastTick: nat)
    requires 0 < first <= last + 1 <= |log| + 1
    requires LogInv(c, log, lastTick)
    requires ApplyLog(c.maxEntities, decode, map[], log).Ok?
    requires PayloadsAre(payload, log, first, last)
    requires ApplyLog(c.maxEntities, decode, map[], log[..first - 1]) == Ok(a.world)
    requires a.tick == TickAt(log, first - 1)
    ensures var r := ApplyRange(c.maxEntities, decode, payload, a, first, last);
            && r.Ok?
            && ApplyLog(c.maxEntities, decode, map[], log[..last]) == Ok(r.value.world)
            && r.value.tick == TickAt(log, last)
    decreases last + 1 - first
  {
    hide ApplyLog, ApplyBatch;
    if first <= last {
      var b := log[first - 1];
      assert TickAt(log, first - 1) <= b.tick;
      var next := NextPrefix(c, decode, log, first, a.world);
      GenuineRange(c, decode, payload, Applied(next, b.tick, a.events + |b.events|), first + 1, last, log, lastTick);
    }
  }

  lemma NextPrefix<S, D>(
      c: Config, decode: Decoder<S, D>, log: seq<Batch<S, D>>, k: nat, w: World<S>) returns (next: World<S>)
    requires 0 < k <= |log|
    requires ApplyLog(c.maxEntities, decode, map[], log).Ok?
    requires ApplyLog(c.maxEntities, decode, map[], log[..k - 1]) == Ok(w)
    ensures ApplyBatch(c.maxEntities, decode, w, log[k - 1]) == Ok(next)
    ensures ApplyLog(c.maxEntities, decode, map[], log[..k]) == Ok(next)
  {
    var b := log[k - 1];
    ApplyLogConcat(c.maxEntities, decode, map[], log[..k - 1], log[k - 1..]);
    assert log[..k - 1] + log[k - 1..] == log;
    ApplyOne(c.maxEntities, decode, w, log[k - 1..]);
    ApplyLogConcat(c.maxEntities, decode, map[], log[..k - 1], [b]);
    assert log[..k - 1] + [b] == log[..k];
    ApplyOne(c.maxEntities, decode, w, [b]);
    hide ApplyLog, ApplyBatch;
    next := ApplyBatch(c.maxEntities, decode, w, b).value;
    ApplyEmpty(c.maxEntities, decode, next);
  }

  lemma ApplyOne<S, D>(max: nat, decode: Decoder<S, D>, w: World<S>, log: seq<Batch<S, D>>)
    requires log != []
    ensures var r := ApplyBatch(max, decode, w, log[0]);
            ApplyLog(max, decode, w, log) == if r.Err? then Err(r.error) else ApplyLog(max, decode, r.value, log[1..])
  {
    hide ApplyBatch;
  }

  lemma ApplyEmpty<S, D>(max: nat, decode: Decoder<S, D>, w: World<S>)
    ensures ApplyLog<S, D>(max, decode, w, []) == Ok(w)
  {
  }

  /** An issued packet, delivered at any later time, is accepted; afterwards the receiver
      still holds a replay of the issued batches, and has received all of the packet. */
  lemma GenuineReceive<S, D>(c: Config, decode: Decoder<S, D>, s: System<S, D>, p: Packet<S, D>)
    requires ValidConfig(c)
    requires Inv(c, decode, s)
    requires GenuinePacket(c, s.log, s.receiver.window.acknowledged, p)
    ensures var r := Receive(c, decode, s.receiver, p);
            && r.Ok?
            && ReceiverInv(c, decode, r.value.receiver, s.log)
            && s.receiver.window.acknowledged <= r.value.receiver.window.acknowledged
            && r.value.report.ack == Ack(r.value.receiver.window.acknowledged, r.value.receiver.appliedTick)
            && (forall b :: b in p.batches ==> Received(r.value.receiver.window, b.sequence))
  {
    hide *;
    var sc := GenuinePhaseOne(c, decode, s, p);
    var a := GenuinePhaseTwo(c, decode, s, sc);
    GenuinePhaseThree(c, decode, s, p, sc, a);
  }

  /** The scan takes an issued packet whole. */
  lemma GenuinePhaseOne<S, D>(c: Config, decode: Decoder<S, D>, s: System<S, D>, p: Packet<S, D>)
    returns (sc: Scanned<S, D>)
    requires ValidConfig(c) && Inv(c, decode, s)
    requires GenuinePacket(c, s.log, s.receiver.window.acknowledged, p)
    ensures |p.batches| <= c.redundancy
    ensures Scan(c.maxEventsPerBatch, Scanned(s.receiver.window, map[], 0), SortBy(BatchSequence, p.batches)) == Ok(sc)
    ensures ScanFrom(s.receiver.window, sc) && GenuineScan(s.log, sc)
    ensures forall b :: b in p.batches ==> Received(sc.window, b.sequence)
  {
    hide Scan, SortBy, SenderInv, LogInv, NetworkInv, FoldInv;
    LogFitsSequences(c, s.sender, s.log);
    SortOfAscending(BatchSequence, p.batches);
    var sc0: Scanned<S, D> := Scanned(s.receiver.window, map[], 0);
    GenuineScanned(c, s.receiver.window, sc0, p.batches, s.log, s.sender.lastTick);
    sc := Scan(c.maxEventsPerBatch, sc0, p.batches).value;
  }

  /** What became contiguous applies, and extends the replay. */
  lemma GenuinePhaseTwo<S, D>(c: Config, decode: Decoder<S, D>, s: System<S, D>, sc: Scanned<S, D>)
    returns (a: Applied<S>)
    requires ValidConfig(c) && Inv(c, decode, s)
    requires ScanFrom(s.receiver.window, sc) && GenuineScan(s.log, sc)
    ensures s.receiver.window.acknowledged <= sc.window.acknowledged <= |s.log| < U64_MAX
    ensures var r := s.receiver;
            ApplyRange(c.maxEntities, decode, r.pending + sc.accepted, Applied(r.entities, r.appliedTick, 0),
                       r.window.acknowledged + 1, sc.window.acknowledged) == Ok(a)
    ensures ApplyLog(c.maxEntities, decode, map[], s.log[..sc.window.acknowledged]) == Ok(a.world)
    ensures a.tick == TickAt(s.log, sc.window.acknowledged)
  {
    hide *;
    ReplayFacts(c, decode, s);
    var r := s.receiver;
    GenuinePayloads(c, decode, r, sc, s.log);
    var payload, a0 := r.pending + sc.accepted, Applied(r.entities, r.appliedTick, 0);
    var first, last := r.window.acknowledged + 1, sc.window.acknowledged;
    GenuineRange(c, decode, payload, a0, first, last, s.log, s.sender.lastTick);
    a := ApplyRange(c.maxEntities, decode, payload, a0, first, last).value;
  }

  lemma ReplayFacts<S, D>(c: Config, decode: Decoder<S, D>, s: System<S, D>)
    requires Inv(c, decode, s)
    ensures LogInv(c, s.log, s.sender.lastTick) && ReceiverInv(c, decode, s.receiver, s.log)
    ensures s.receiver.window.acknowledged <= |s.log| < U64_MAX
    ensures ApplyLog(c.maxEntities, decode, map[], s.log).Ok?
    ensures ApplyLog(c.maxEntities, decode, map[], s.log[..s.receiver.window.acknowledged]) == Ok(s.receiver.entities)
    ensures s.receiver.appliedTick == TickAt(s.log, s.receiver.window.acknowledged)
  {
    hide ApplyLog, LogInv, NetworkInv, SenderInv;
    LogFitsSequences(c, s.sender, s.log);
  }

  /** Committing both keeps the receiver a replay of the log. */
  lemma GenuinePhaseThree<S, D>(
      c: Config, decode: Decoder<S, D>, s: System<S, D>, p: Packet<S, D>, sc: Scanned<S, D>, a: Applied<S>)
    requires ValidConfig(c) && Inv(c, decode, s)
    requires |p.batches| <= c.redundancy
    requires Scan(c.maxEventsPerBatch, Scanned(s.receiver.window, map[], 0), SortBy(BatchSequence, p.batches)) == Ok(sc)
    requires ScanFrom(s.receiver.window, sc) && GenuineScan(s.log, sc)
    requires s.receiver.window.acknowledged <= sc.window.acknowledged <= |s.log| < U64_MAX
    requires var r := s.receiver;
             ApplyRange(c.maxEntities, decode, r.pending + sc.accepted, Applied(r.entities, r.appliedTick, 0),
                        r.window.acknowledged + 1, sc.window.acknowledged) == Ok(a)
    requires ApplyLog(c.maxEntities, decode, map[], s.log[..sc.window.acknowledged]) == Ok(a.world)
    requires a.tick == TickAt(s.log, sc.window.acknowledged)
    ensures var r := Receive(c, decode, s.receiver, p);
            && r.Ok?
            && ReceiverInv(c, decode, r.value.receiver, s.log)
            && r.value.receiver.window == sc.window
            && r.value.report.ack == Ack(sc.window.acknowledged, r.value.receiver.appliedTick)
  {
    hide Scan, ApplyRange, Receive, SortBy, ApplyLog, Above, SenderInv, LogInv, NetworkInv, FoldInv, ScanFrom;
    var r := s.receiver;
    ReceiveCommitted(c, decode, r, p, sc, a);
    ReceiveKeepsValid(c, decode, r, p);
    GenuineKept(r, sc, s.log);
  }

  lemma LogFitsSequences<S, D>(c: Config, s: Sender<S, D>, log: seq<Batch<S, D>>)
    requires SenderInv(c, s, log)
    ensures |log| < U64_MAX
  {
  }

  lemma GenuinePayloads<S, D>(
      c: Config, decode: Decoder<S, D>, r: Receiver<S, D>, sc: Scanned<S, D>, log: seq<Batch<S, D>>)
    requires ReceiverInv(c, decode, r, log)
    requires ScanFrom(r.window, sc) && GenuineScan(log, sc)
    ensures r.window.acknowledged <= sc.window.acknowledged <= |log|
    ensures PayloadsAre(r.pending + sc.accepted, log, r.window.acknowledged + 1, sc.window.acknowledged)
  {
    assert Received(sc.window, sc.window.acknowledged);
    forall s | r.window.acknowledged + 1 <= s <= sc.window.acknowledged
      ensures s in r.pending + sc.accepted && (r.pending + sc.accepted)[s] == log[s - 1]
    {
      assert Received(sc.window, s);
    }
  }

  lemma GenuineKept<S, D>(r: Receiver<S, D>, sc: Scanned<S, D>, log: seq<Batch<S, D>>)
    requires forall s :: s in r.pending ==> 0 < s <= |log| && r.pending[s] == log[s - 1]
    requires GenuineScan(log, sc)
    ensures var kept := Above(r.pending + sc.accepted, sc.window.acknowledged);
            forall s :: s in kept ==> 0 < s <= |log| && kept[s] == log[s - 1]
  {
  }

  // ---------------------------------------------------------------- the remaining steps

  lemma NetworkInvAdvances<S, D>(c: Config, s: System<S, D>, s': System<S, D>)
    requires NetworkInv(c, s)
    requires s'.packets == s.packets && s'.log == s.log && s'.sender == s.sender
    requires s.receiver.window.acknowledged <= s'.receiver.window.acknowledged <= |s.log|
    requires s'.acks == s.acks + [Ack(s'.receiver.window.acknowledged, TickAt(s.log, s'.receiver.window.acknowledged))]
    ensures NetworkInv(c, s')
  {
    forall p | p in s'.packets
      ensures GenuinePacket(c, s'.log, s'.receiver.window.acknowledged, p)
    {
      assert GenuinePacket(c, s.log, s.receiver.window.acknowledged, p);
      assert forall b :: b in p.batches ==> Genuine(s.log, s.receiver.window.acknowledged + c.historyCapacity, b);
    }
    forall a | a in s'.acks
      ensures GenuineAck(s'.log, s'.receiver.window.acknowledged, a)
    {
      if a in s.acks {
        assert GenuineAck(s.log, s.receiver.window.acknowledged, a);
      }
    }
  }

  lemma DeliverPacketKeepsInv<S, D>(c: Config, decode: Decoder<S, D>, s: System<S, D>, i: nat)
    requires ValidConfig(c)
    requires Inv(c, decode, s)
    requires i < |s.packets|
    ensures Inv(c, decode, Exec(c, decode, s, DeliverPacket(i)))
  {
    hide Receive, LogInv, SenderInv, FoldInv, NetworkInv;
    PacketIsGenuine(c, s, i);
    GenuineReceive(c, decode, s, s.packets[i]);
    NetworkInvAdvances(c, s, Exec(c, decode, s, DeliverPacket(i)));
  }

  lemma PacketIsGenuine<S, D>(c: Config, s: System<S, D>, i: nat)
    requires NetworkInv(c, s) && i < |s.packets|
    ensures GenuinePacket(c, s.log, s.receiver.window.acknowledged, s.packets[i])
  {
  }

  /** An issued acknowledgement, delivered at any later time, is accepted. */
  lemma GenuineAcknowledge<S, D>(c: Config, s: Sender<S, D>, log: seq<Batch<S, D>>, ack: nat, a: Ack)
    requires SenderInv(c, s, log)
    requires GenuineAck(log, ack, a)
    ensures var r := AcknowledgeSender(s, a);
            && r.Ok?
            && SenderInv(c, r.value.sender, log)
            && r.value.sender == s.(acknowledged := Max(s.acknowledged, a.sequence), pending := r.value.sender.pending)
  {
    if s.acknowledged < a.sequence {
      FindTickAt(s.pending, s.acknowledged, a.sequence);
      DropThroughRetained(c, s, a.sequence);
      assert s.pending[a.sequence - s.acknowledged..] == log[a.sequence..];
    }
  }

  lemma DeliverAckKeepsInv<S, D>(c: Config, decode: Decoder<S, D>, s: System<S, D>, i: nat)
    requires ValidConfig(c)
    requires Inv(c, decode, s)
    requires i < |s.acks|
    ensures Inv(c, decode, Exec(c, decode, s, DeliverAck(i)))
  {
    hide AcknowledgeSender, LogInv, SenderInv, ReceiverInv, ApplyLog;
    assert GenuineAck(s.log, s.receiver.window.acknowledged, s.acks[i]);
    GenuineAcknowledge(c, s.sender, s.log, s.receiver.window.acknowledged, s.acks[i]);
  }

  lemma PacketOfIsGenuine<S, D>(c: Config, s: Sender<S, D>, log: seq<Batch<S, D>>, lastTick: nat, ack: nat)
    requires ValidConfig(c)
    requires LogInv(c, log, lastTick) && SenderInv(c, s, log)
    requires s.acknowledged <= ack
    ensures GenuinePacket(c, log, ack, PacketOf(c, s))
  {
    var p := PacketOf(c, s);
    forall b | b in p.batches
      ensures Genuine(log, ack + c.historyCapacity, b)
    {
      var i :| 0 <= i < |s.pending| && s.pending[i] == b;
      assert b == log[s.acknowledged + i];
    }
  }

  lemma SendPacketKeepsInv<S, D>(c: Config, decode: Decoder<S, D>, s: System<S, D>)
    requires ValidConfig(c)
    requires Inv(c, decode, s)
    ensures Inv(c, decode, Exec(c, decode, s, SendPacket))
  {
    hide LogInv, SenderInv, FoldInv, ReceiverInv, GenuinePacket, GenuineAck, PacketOf;
    PacketOfIsGenuine(c, s.sender, s.log, s.sender.lastTick, s.receiver.window.acknowledged);
  }

  lemma StepKeepsInv<S, D>(c: Config, decode: Decoder<S, D>, s: System<S, D>, step: Step<S, D>)
    requires ValidConfig(c)
    requires Inv(c, decode, s)
    requires Enabled(decode, s, step)
    ensures Inv(c, decode, Exec(c, decode, s, step))
  {
    match step {
      case Reconcile(tick, visible, encode) => ReconcileKeepsInv(c, decode, s, tick, visible, encode);
      case ForceKeyframes =>
      case SendPacket => SendPacketKeepsInv(c, decode, s);
      case DeliverPacket(i) => DeliverPacketKeepsInv(c, decode, s, i);
      case DeliverAck(i) => DeliverAckKeepsInv(c, decode, s, i);
    }
  }

  lemma InitialInv<S, D>(c: Config, decode: Decoder<S, D>)
    requires ValidConfig(c)
    ensures Inv(c, decode, Initial<S, D>(c))
  {
  }

  lemma {:induction false} RunKeepsInv<S, D>(c: Config, decode: Decoder<S, D>, s: System<S, D>, steps: seq<Step<S, D>>)
    requires ValidConfig(c)
    requires Inv(c, decode, s)
    requires LegalRun(c, decode, s, steps)
    ensures Inv(c, decode, Run(c, decode, s, steps))
    decreases |steps|
  {
    hide Inv, Exec, Enabled;
    if steps != [] {
      StepKeepsInv(c, decode, s, steps[0]);
      RunKeepsInv(c, decode, Exec(c, decode, s, steps[0]), steps[1..]);
    }
  }

  // ---------------------------------------------------------------- main results

  /** Convergence. In every reachable state the observer holds exactly the replay of the
      batches it acknowledges; and whenever it acknowledges the last issued batch, its
      entities, versions and states are those the sender projected. */
  lemma Convergence<S, D>(c: Config, decode: Decoder<S, D>, steps: seq<Step<S, D>>)
    requires ValidConfig(c)
    requires LegalRun(c, decode, Initial(c), steps)
    ensures var s := Run(c, decode, Initial(c), steps);
            var ack := s.receiver.window.acknowledged;
            && ack <= |s.log|
            && ApplyLog(c.maxEntities, decode, map[], s.log[..ack]) == Ok(s.receiver.entities)
            && (ack + 1 == s.sender.nextSequence ==> SameView(s.receiver.entities, s.sender.projected))
  {
    InitialInv<S, D>(c, decode);
    RunKeepsInv(c, decode, Initial(c), steps);
    hide Run, ApplyLog, LegalRun;
    var s := Run(c, decode, Initial(c), steps);
    if s.receiver.window.acknowledged + 1 == s.sender.nextSequence {
      assert s.log[..s.receiver.window.acknowledged] == s.log;
    }
  }

  /** No genuine traffic is ever refused: whatever the network did before, every packet ever
      built is accepted by the receiver and every acknowledgement ever returned is accepted
      by the sender, at any later point of the run. */
  lemma NothingGenuineIsRefused<S, D>(c: Config, decode: Decoder<S, D>, steps: seq<Step<S, D>>)
    requires ValidConfig(c)
    requires LegalRun(c, decode, Initial(c), steps)
    ensures var s := Run(c, decode, Initial(c), steps);
            && (forall i :: 0 <= i < |s.packets| ==> Receive(c, decode, s.receiver, s.packets[i]).Ok?)
            && (forall i :: 0 <= i < |s.acks| ==> AcknowledgeSender(s.sender, s.acks[i]).Ok?)
  {
    InitialInv<S, D>(c, decode);
    RunKeepsInv(c, decode, Initial(c), steps);
    hide Run, Receive, AcknowledgeSender, LegalRun;
    var s := Run(c, decode, Initial(c), steps);
    forall i | 0 <= i < |s.packets|
      ensures Receive(c, decode, s.receiver, s.packets[i]).Ok?
    {
      PacketIsGenuine(c, s, i);
      GenuineReceive(c, decode, s, s.packets[i]);
    }
    forall i | 0 <= i < |s.acks|
      ensures AcknowledgeSender(s.sender, s.acks[i]).Ok?
    {
      assert GenuineAck(s.log, s.receiver.window.acknowledged, s.acks[i]);
      GenuineAcknowledge(c, s.sender, s.log, s.receiver.window.acknowledged, s.acks[i]);
    }
  }

  /** One loss-free round: the current packet is delivered, and then the acknowledgement it produced. */
  ghost function Round<S, D>(s: System<S, D>): seq<Step<S, D>> {
    [SendPacket, DeliverPacket(|s.packets|), DeliverAck(|s.acks|)]
  }

  /** Progress: whenever batches are pending, one loss-free round releases at least one. */
  lemma RoundProgresses<S, D>(c: Config, decode: Decoder<S, D>, s: System<S, D>)
    requires ValidConfig(c)
    requires Inv(c, decode, s)
    ensures LegalRun(c, decode, s, Round(s))
    ensures var next := Run(c, decode, s, Round(s));
            && Inv(c, decode, next)
            && next.log == s.log && next.sender.projected == s.sender.projected
            && (s.sender.pending != [] ==> s.sender.acknowledged < next.sender.acknowledged)
            && (s.sender.pending != [] ==> |next.sender.pending| < |s.sender.pending|)
            && (s.sender.pending == [] ==> next.sender.pending == [])
  {
    hide Inv, Exec, Enabled, Run, LegalRun;
    var s1, s2, s3 := RoundStates(c, decode, s);
    var third: seq<Step<S, D>> := [DeliverAck(|s.acks|)];
    var second: seq<Step<S, D>> := [DeliverPacket(|s.packets|)] + third;
    assert third + [] == third && Round(s) == [SendPacket] + second;
    RunNone(c, decode, s3);
    RunOne(c, decode, s2, DeliverAck(|s.acks|), []);
    RunOne(c, decode, s1, DeliverPacket(|s.packets|), third);
    RunOne(c, decode, s, SendPacket, second);
  }

  lemma RunNone<S, D>(c: Config, decode: Decoder<S, D>, s: System<S, D>)
    requires ValidConfig(c)
    ensures LegalRun(c, decode, s, []) && Run(c, decode, s, []) == s
  {
  }

  lemma RunOne<S, D>(c: Config, decode: Decoder<S, D>, s: System<S, D>, step: Step<S, D>, rest: seq<Step<S, D>>)
    requires ValidConfig(c)
    requires Enabled(decode, s, step)
    requires rest == [] || LegalRun(c, decode, Exec(c, decode, s, step), rest)
    ensures LegalRun(c, decode, s, [step] + rest)
    ensures LegalRun(c, decode, Exec(c, decode, s, step), rest)
    ensures Run(c, decode, s, [step] + rest) == Run(c, decode, Exec(c, decode, s, step), rest)
  {
    hide Exec, Enabled;
    assert ([step] + rest)[1..] == rest;
  }

  lemma RoundStates<S, D>(
      c: Config, decode: Decoder<S, D>, s: System<S, D>) returns (s1: System<S, D>, s2: System<S, D>, s3: System<S, D>)
    requires ValidConfig(c)
    requires Inv(c, decode, s)
    ensures Enabled(decode, s, SendPacket) && s1 == Exec(c, decode, s, SendPacket)
    ensures Enabled(decode, s1, DeliverPacket(|s.packets|)) && s2 == Exec(c, decode, s1, DeliverPacket(|s.packets|))
    ensures Enabled(decode, s2, DeliverAck(|s.acks|)) && s3 == Exec(c, decode, s2, DeliverAck(|s.acks|))
    ensures Inv(c, decode, s3)
    ensures s3.log == s.log && s3.sender.projected == s.sender.projected
    ensures s.sender.pending != [] ==> s.sender.acknowledged < s3.sender.acknowledged
    ensures s.sender.pending != [] ==> |s3.sender.pending| < |s.sender.pending|
    ensures s.sender.pending == [] ==> s3.sender.pending == []
  {
    s1 := Exec(c, decode, s, SendPacket);
    StepKeepsInv(c, decode, s, SendPacket);
    assert s1.packets[|s.packets|] == PacketOf(c, s.sender);
    s2 := DeliveredState(c, decode, s1, |s.packets|);
    StepKeepsInv(c, decode, s1, DeliverPacket(|s.packets|));
    hide LogInv, FoldInv, ReceiverInv, Receive;
    s3 := AckedState(c, decode, s2, |s.acks|);
    StepKeepsInv(c, decode, s2, DeliverAck(|s.acks|));
    if s.sender.pending != [] {
      var oldest := s.sender.pending[0];
      assert oldest in PacketOf(c, s.sender).batches;
    }
  }

  lemma DeliveredState<S, D>(c: Config, decode: Decoder<S, D>, s: System<S, D>, i: nat) returns (next: System<S, D>)
    requires ValidConfig(c)
    requires Inv(c, decode, s)
    requires i < |s.packets|
    ensures next == Exec(c, decode, s, DeliverPacket(i))
    ensures next == s.(receiver := next.receiver, acks := next.acks)
    ensures |next.acks| == |s.acks| + 1 && next.acks[|s.acks|].sequence == next.receiver.window.acknowledged
    ensures forall b :: b in s.packets[i].batches ==> Received(next.receiver.window, b.sequence)
  {
    hide Receive, LogInv, SenderInv, FoldInv, ReceiverInv;
    PacketIsGenuine(c, s, i);
    GenuineReceive(c, decode, s, s.packets[i]);
    next := Exec(c, decode, s, DeliverPacket(i));
  }

  lemma AckedState<S, D>(c: Config, decode: Decoder<S, D>, s: System<S, D>, i: nat) returns (next: System<S, D>)
    requires ValidConfig(c)
    requires Inv(c, decode, s)
    requires i < |s.acks|
    ensures next == Exec(c, decode, s, DeliverAck(i))
    ensures next == s.(sender := next.sender)
    ensures next.sender == s.sender.(acknowledged := Max(s.sender.acknowledged, s.acks[i].sequence),
        pending := next.sender.pending)
  {
    hide AcknowledgeSender, LogInv, SenderInv, FoldInv, ReceiverInv;
    assert GenuineAck(s.log, s.receiver.window.acknowledged, s.acks[i]);
    GenuineAcknowledge(c, s.sender, s.log, s.receiver.window.acknowledged, s.acks[i]);
    next := Exec(c, decode, s, DeliverAck(i));
  }

  /** `n` loss-free rounds in a row. */
  ghost function AfterRounds<S, D>(c: Config, decode: Decoder<S, D>, s: System<S, D>, n: nat): System<S, D>
    requires ValidConfig(c)
    requires Inv(c, decode, s)
    decreases n
  {
    if n == 0 then s
    else
      RoundProgresses(c, decode, s);
      AfterRounds(c, decode, Run(c, decode, s, Round(s)), n - 1)
  }

  /** From any reachable state, as many loss-free rounds as there are pending batches release
      them all and leave the observer with exactly the sender's picture. */
  lemma {:induction false} RoundsDrain<S, D>(c: Config, decode: Decoder<S, D>, s: System<S, D>, n: nat)
    requires ValidConfig(c)
    requires Inv(c, decode, s)
    requires |s.sender.pending| <= n
    ensures var next := AfterRounds(c, decode, s, n);
            && next.sender.pending == []
            && next.sender.projected == s.sender.projected
            && SameView(next.receiver.entities, s.sender.projected)
    decreases n
  {
    hide Run, Inv, LegalRun, SameView;
    if n == 0 {
      DrainedAgrees(c, decode, s);
    } else {
      RoundProgresses(c, decode, s);
      RoundsDrain(c, decode, Run(c, decode, s, Round(s)), n - 1);
    }
  }

  lemma DrainedAgrees<S, D>(c: Config, decode: Decoder<S, D>, s: System<S, D>)
    requires Inv(c, decode, s)
    requires s.sender.pending == []
    ensures SameView(s.receiver.entities, s.sender.projected)
  {
    hide ApplyLog;
    assert s.log[..s.receiver.window.acknowledged] == s.log;
  }

  /** The same, for every legal run from the start. */
  lemma EveryRunCanDrain<S, D>(c: Config, decode: Decoder<S, D>, steps: seq<Step<S, D>>)
    requires ValidConfig(c)
    requires LegalRun(c, decode, Initial(c), steps)
    ensures var s := Run(c, decode, Initial(c), steps);
            && Inv(c, decode, s)
            && SameView(AfterRounds(c, decode, s, |s.sender.pending|).receiver.entities, s.sender.projected)
  {
    InitialInv<S, D>(c, decode);
    RunKeepsInv(c, decode, Initial(c), steps);
    hide Run, Inv, LegalRun, SameView;
    var s := Run(c, decode, Initial(c), steps);
    RoundsDrain(c, decode, s, |s.sender.pending|);
  }
}
