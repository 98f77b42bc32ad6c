/** What packets and acknowledgements of any origin lead to: the effect of every event, the
    refusal of everything malformed, and the exact gain of the sequence window. */
module ReplicationOutcomes {
  import opened Common
  import opened SequenceWindows
  import opened StableSort
  import opened ReplicationProtocol
  import opened ReplicationReceivers
  import opened ReplicationSenders
  import opened ReplicationSystem
  import opened ReplicationKeys

  // ---------------------------------------------------------------- one event

  /** What an event makes of its entity, `None` standing for its absence. */
  function Made<S, D>(decode: Decoder<S, D>, before: Option<Versioned<S>>, e: Event<S, D>): Option<Versioned<S>> {
    match e
    case Spawn(_, version, key, state) => Some(Versioned(version, key, state))
    case Keyframe(_, version, key, state) => Some(Versioned(version, key, state))
    case Despawn(_) => None
    case Update(entity, _, version, delta) =>
      if before.None? then None
      else
        var decoded := decode(entity, before.value.state, delta);
        if decoded.None? then None else Some(Versioned(version, before.value.key, decoded.value))
  }

  function Lookup<S>(w: World<S>, e: EntityId): Option<Versioned<S>> {
    if e in w then Some(w[e]) else None
  }

  /** The entity is as the event says it must be, room for one more apart. */
  predicate Fits<S, D>(decode: Decoder<S, D>, before: Option<Versioned<S>>, e: Event<S, D>) {
    match e
    case Spawn(_, _, _, _) => before.None?
    case Despawn(_) => before.Some?
    case Update(entity, base, version, delta) =>
      before.Some? && before.value.version == base < version && decode(entity, before.value.state, delta).Some?
    case Keyframe(_, _, _, _) => true
  }

  /** An event is applied if and only if its entity fits it and a new entity has room. It then
      makes of that entity what it says and touches no other. */
  lemma EventExactly<S, D>(max: nat, decode: Decoder<S, D>, w: World<S>, e: Event<S, D>)
    ensures var r, before := ApplyEvent(max, decode, w, e), Lookup(w, e.entity);
            var adds := before.None? && (e.Spawn? || e.Keyframe?);
            && (r.Ok? <==> Fits(decode, before, e) && (adds ==> |w| < max))
            && (r.Ok? ==> Lookup(r.value, e.entity) == Made(decode, before, e))
            && (r.Ok? ==> forall x :: x != e.entity ==> Lookup(r.value, x) == Lookup(w, x))
            && (r == Err(EntityLimitExceeded) <==> adds && |w| >= max)
            && (r == Err(InvalidPacket(SpawnedExists)) <==> e.Spawn? && before.Some?)
            && (r == Err(InvalidPacket(DespawnedMissing)) <==> e.Despawn? && before.None?)
            && (r == Err(BaselineMismatch) <==>
                  e.Update? && !(before.Some? && before.value.version == e.baseVersion < e.version))
  {
  }

  // ---------------------------------------------------------------- one batch

  ghost predicate DistinctEvents<S, D>(es: seq<Event<S, D>>) {
    forall i, j :: 0 <= i < j < |es| ==> es[i].entity != es[j].entity
  }

  /** No event is about `x`. */
  ghost predicate Untouched<S, D>(es: seq<Event<S, D>>, x: EntityId) {
    forall i :: 0 <= i < |es| ==> es[i].entity != x
  }

  lemma {:induction false} EventsMean<S, D>(
      max: nat, decode: Decoder<S, D>, w: World<S>, es: seq<Event<S, D>>, affected: set<EntityId>)
    requires ApplyEvents(max, decode, w, es, affected).Ok?
    ensures DistinctEvents(es)
    ensures forall i :: 0 <= i < |es| ==> es[i].entity !in affected
    ensures var n := ApplyEvents(max, decode, w, es, affected).value;
            && (forall x :: Untouched(es, x) ==> Lookup(n, x) == Lookup(w, x))
            && (forall i :: 0 <= i < |es| ==> Fits(decode, Lookup(w, es[i].entity), es[i]))
            && (forall i :: 0 <= i < |es| ==>
                  Lookup(n, es[i].entity) == Made(decode, Lookup(w, es[i].entity), es[i]))
    decreases |es|
  {
    hide ApplyEvent, Made, Fits, Lookup;
    if es != [] {
      EventExactly(max, decode, w, es[0]);
      var next, tail := ApplyEvent(max, decode, w, es[0]).value, es[1..];
      EventsMean(max, decode, next, tail, affected + {es[0].entity});
      var n := ApplyEvents(max, decode, w, es, affected).value;
      assert n == ApplyEvents(max, decode, next, tail, affected + {es[0].entity}).value;
      assert forall i :: 0 < i < |es| ==> es[i] == tail[i - 1];
      assert forall i :: 0 <= i < |tail| ==> tail[i].entity != es[0].entity;
      assert Untouched(tail, es[0].entity);
      forall x | Untouched(es, x)
        ensures Lookup(n, x) == Lookup(w, x)
      {
        assert es[0].entity != x && Untouched(tail, x);
      }
    }
  }

  /** A batch changes an entity at most once, so every event finds its entity as the batch found
      it; what no event is about stays. */
  lemma BatchMeans<S, D>(max: nat, decode: Decoder<S, D>, w: World<S>, b: Batch<S, D>)
    requires ApplyBatch(max, decode, w, b).Ok?
    ensures DistinctEvents(b.events)
    ensures var n := ApplyBatch(max, decode, w, b).value;
            && (forall x :: Untouched(b.events, x) ==> Lookup(n, x) == Lookup(w, x))
            && (forall i :: 0 <= i < |b.events| ==> Fits(decode, Lookup(w, b.events[i].entity), b.events[i]))
            && (forall i :: 0 <= i < |b.events| ==>
                  Lookup(n, b.events[i].entity) == Made(decode, Lookup(w, b.events[i].entity), b.events[i]))
  {
    hide Made, Fits, Lookup;
    EventsMean(max, decode, w, b.events, {});
  }

  // ---------------------------------------------------------------- one packet

  ghost predicate WellFormedBatch<S, D>(maxEvents: nat, b: Batch<S, D>) {
    0 < b.tick && |b.events| <= maxEvents && 0 < b.sequence
  }

  ghost predicate Carries<S, D>(batches: seq<Batch<S, D>>, s: nat) {
    exists i :: 0 <= i < |batches| && batches[i].sequence == s
  }

  /** A scan that succeeds met only well-formed batches, took exactly the numbers it had not
      received, and counts every other batch as a duplicate. */
  lemma {:induction false} ScanExactly<S, D>(maxEvents: nat, sc: Scanned<S, D>, batches: seq<Batch<S, D>>)
    requires ValidWindow(sc.window) && Scan(maxEvents, sc, batches).Ok?
    requires forall s :: s in sc.accepted ==> Received(sc.window, s)
    ensures var e := Scan(maxEvents, sc, batches).value;
            && (forall i :: 0 <= i < |batches| ==> WellFormedBatch(maxEvents, batches[i]))
            && (forall s: nat :: Received(e.window, s) <==> Received(sc.window, s) || Carries(batches, s))
            && |e.accepted| + e.duplicates == |sc.accepted| + sc.duplicates + |batches|
    decreases |batches|
  {
    hide Scan, ValidWindow, Received, Carries, WellFormedBatch;
    if batches == [] {
      NothingScanned(maxEvents, sc, batches);
    } else {
      var b, tail := batches[0], batches[1..];
      var next := ScanOne(maxEvents, sc, batches);
      ScanExactly(maxEvents, next, tail);
      assert forall i :: 0 < i < |batches| ==> batches[i] == tail[i - 1];
      CarriesSplit(b, tail);
      assert batches == [b] + tail;
    }
  }

  lemma NothingScanned<S, D>(maxEvents: nat, sc: Scanned<S, D>, batches: seq<Batch<S, D>>)
    requires batches == []
    ensures Scan(maxEvents, sc, batches) == Ok(sc)
    ensures forall s: nat :: !Carries(batches, s)
  {
  }

  lemma ScanOne<S, D>(maxEvents: nat, sc: Scanned<S, D>, batches: seq<Batch<S, D>>) returns (next: Scanned<S, D>)
    requires ValidWindow(sc.window) && batches != [] && Scan(maxEvents, sc, batches).Ok?
    requires forall s :: s in sc.accepted ==> Received(sc.window, s)
    ensures Scan(maxEvents, sc, batches) == Scan(maxEvents, next, batches[1..])
    ensures ValidWindow(next.window) && WellFormedBatch(maxEvents, batches[0])
    ensures forall s: nat :: Received(next.window, s) <==> Received(sc.window, s) || s == batches[0].sequence
    ensures forall s :: s in next.accepted ==> Received(next.window, s)
    ensures |next.accepted| + next.duplicates == |sc.accepted| + sc.duplicates + 1
  {
    hide ValidWindow, ObserveWindow, Scan;
    var b := batches[0];
    next := ScanHead(maxEvents, sc, batches);
    ObserveReceives(sc.window, b.sequence);
    if next.accepted != sc.accepted {
      assert next.accepted.Keys == sc.accepted.Keys + {b.sequence};
      assert |next.accepted.Keys| == |sc.accepted.Keys| + 1;
    }
  }

  lemma ScanHead<S, D>(maxEvents: nat, sc: Scanned<S, D>, batches: seq<Batch<S, D>>) returns (next: Scanned<S, D>)
    requires batches != [] && Scan(maxEvents, sc, batches).Ok?
    ensures var b, o := batches[0], ObserveWindow(sc.window, batches[0].sequence);
            && Scan(maxEvents, sc, batches) == Scan(maxEvents, next, batches[1..])
            && 0 < b.tick && |b.events| <= maxEvents && o.Ok?
            && next == if o.value.1.Duplicate? then sc.(duplicates := sc.duplicates + 1)
                       else sc.(window := o.value.0, accepted := sc.accepted[b.sequence := b])
  {
    hide ObserveWindow;
    var b, o := batches[0], ObserveWindow(sc.window, batches[0].sequence);
    next := if o.value.1.Duplicate? then sc.(duplicates := sc.duplicates + 1)
            else sc.(window := o.value.0, accepted := sc.accepted[b.sequence := b]);
  }

  lemma CarriesSplit<S, D>(b: Batch<S, D>, tail: seq<Batch<S, D>>)
    ensures forall s: nat :: Carries([b] + tail, s) <==> b.sequence == s || Carries(tail, s)
  {
    var all := [b] + tail;
    forall s: nat
      ensures Carries(all, s) <==> b.sequence == s || Carries(tail, s)
    {
      if Carries(all, s) {
        var i :| 0 <= i < |all| && all[i].sequence == s;
        assert i > 0 ==> tail[i - 1].sequence == s;
      }
      if Carries(tail, s) {
        var i :| 0 <= i < |tail| && tail[i].sequence == s;
        assert all[i + 1].sequence == s;
      }
      assert all[0].sequence == b.sequence;
    }
  }

  lemma SortedCarries<S, D>(batches: seq<Batch<S, D>>)
    ensures forall s: nat :: Carries(SortBy(BatchSequence, batches), s) <==> Carries(batches, s)
    ensures |SortBy(BatchSequence, batches)| == |batches|
    ensures forall b :: b in batches ==> b in SortBy(BatchSequence, batches)
  {
    SortIsPermutation(BatchSequence, batches);
    var sorted := SortBy(BatchSequence, batches);
    hide SortBy;
    assert |multiset(sorted)| == |multiset(batches)|;
    assert forall b :: b in sorted <==> b in multiset(sorted);
    assert forall b :: b in batches <==> b in multiset(batches);
    forall s: nat
      ensures Carries(sorted, s) <==> Carries(batches, s)
    {
      if Carries(sorted, s) {
        var i :| 0 <= i < |sorted| && sorted[i].sequence == s;
        assert sorted[i] in batches;
      }
      if Carries(batches, s) {
        var i :| 0 <= i < |batches| && batches[i].sequence == s;
        assert batches[i] in sorted;
      }
    }
  }

  /** Any packet that is accepted, whoever sent it, is short enough and well formed throughout;
      the receiver has then received exactly what it had and what the packet numbers, and
      reports the rest as duplicates. */
  lemma AcceptedPacketMeans<S, D>(c: Config, decode: Decoder<S, D>, r: Receiver<S, D>, p: Packet<S, D>)
    requires ValidReceiver(c, r) && Receive(c, decode, r, p).Ok?
    ensures var o := Receive(c, decode, r, p).value;
            && |p.batches| <= c.redundancy
            && (forall b :: b in p.batches ==> WellFormedBatch(c.maxEventsPerBatch, b))
            && (forall s: nat :: Received(o.receiver.window, s) <==>
                  Received(r.window, s) || Carries(p.batches, s))
            && o.report.duplicateBatches + |NewNumbers(r.window, p.batches)| == |p.batches|
  {
    hide Scan, ApplyRange, SortBy, Above, ValidWindow, Received;
    var sorted := SortBy(BatchSequence, p.batches);
    SortedCarries(p.batches);
    ScanExactly(c.maxEventsPerBatch, Scanned(r.window, map[], 0), sorted);
    forall b | b in p.batches
      ensures WellFormedBatch(c.maxEventsPerBatch, b)
    {
      assert b in sorted;
    }
    ScanKeeps(c.maxEventsPerBatch, r.window, Scanned(r.window, map[], 0), sorted);
    var sc := Scan(c.maxEventsPerBatch, Scanned(r.window, map[], 0), sorted).value;
    TakenNumbers(r.window, sc, p.batches);
  }

  /** The numbers of a packet that were not received before it. */
  ghost function NewNumbers<S, D>(w: Window, batches: seq<Batch<S, D>>): set<nat> {
    set b | b in batches && !Received(w, b.sequence) :: b.sequence
  }

  lemma TakenNumbers<S, D>(w: Window, sc: Scanned<S, D>, batches: seq<Batch<S, D>>)
    requires ScanFrom(w, sc)
    requires forall s: nat :: Received(sc.window, s) <==> Received(w, s) || Carries(batches, s)
    ensures |sc.accepted| == |NewNumbers(w, batches)|
  {
    hide ValidWindow, Received;
    forall s: nat
      ensures s in sc.accepted.Keys <==> s in NewNumbers(w, batches)
    {
      assert Received(sc.window, s) <==> Received(w, s) || s in sc.accepted;
      if Carries(batches, s) && !Received(w, s) {
        var i :| 0 <= i < |batches| && batches[i].sequence == s;
        assert batches[i] in batches;
      }
    }
    assert sc.accepted.Keys == NewNumbers(w, batches);
  }

  /** A packet with a malformed batch anywhere is refused whole. */
  lemma MalformedIsRefused<S, D>(c: Config, decode: Decoder<S, D>, r: Receiver<S, D>, p: Packet<S, D>, b: Batch<S, D>)
    requires ValidReceiver(c, r) && b in p.batches && !WellFormedBatch(c.maxEventsPerBatch, b)
    ensures Receive(c, decode, r, p).Err?
  {
    hide Receive, WellFormedBatch;
    if Receive(c, decode, r, p).Ok? {
      AcceptedPacketMeans(c, decode, r, p);
      assert false;
    }
  }

  // ---------------------------------------------------------------- reports

  lemma {:induction false} RangeCounts<S, D>(
      max: nat, decode: Decoder<S, D>, payload: map<nat, Batch<S, D>>, a: Applied<S>, first: nat, last: nat,
      log: seq<Batch<S, D>>)
    requires 0 < first <= last + 1 <= |log| + 1 && PayloadsAre(payload, log, first, last)
    requires ApplyRange(max, decode, payload, a, first, last).Ok?
    ensures ApplyRange(max, decode, payload, a, first, last).value.events ==
            a.events + |EventsOf(log[first - 1..last])|
    decreases last + 1 - first
  {
    hide ApplyBatch;
    if first <= last {
      var b := log[first - 1];
      var next := ApplyBatch(max, decode, a.world, b).value;
      RangeCounts(max, decode, payload, Applied(next, b.tick, a.events + |b.events|), first + 1, last, log);
      assert log[first - 1..last][1..] == log[first..last];
    }
  }

  /** The report of an issued packet counts exactly the batches, and their events, by which the
      acknowledgement advances. */
  lemma ReportExactly<S, D>(c: Config, decode: Decoder<S, D>, s: System<S, D>, p: Packet<S, D>)
    requires ValidConfig(c) && Inv(c, decode, s)
    requires GenuinePacket(c, s.log, s.receiver.window.acknowledged, p)
    ensures var r, from := Receive(c, decode, s.receiver, p), s.receiver.window.acknowledged;
            && r.Ok?
            && var to := r.value.receiver.window.acknowledged;
               && from <= to <= |s.log|
               && r.value.report.appliedBatches == to - from
               && r.value.report.appliedEvents == |EventsOf(s.log[from..to])|
  {
    hide *;
    var sc := GenuinePhaseOne(c, decode, s, p);
    var a := GenuinePhaseTwo(c, decode, s, sc);
    ReplayFacts(c, decode, s);
    var r := s.receiver;
    GenuinePayloads(c, decode, r, sc, s.log);
    var first, last := r.window.acknowledged + 1, sc.window.acknowledged;
    assert SatAdd(r.window.acknowledged, 1) == first by { NoSaturation(r.window.acknowledged); }
    ReceiveCommitted(c, decode, r, p, sc, a);
    RangeCounts(c.maxEntities, decode, r.pending + sc.accepted, Applied(r.entities, r.appliedTick, 0), first, last,
        s.log);
  }

  lemma NoSaturation(n: nat)
    requires n < U64_MAX
    ensures SatAdd(n, 1) == n + 1
  {
  }

  // ---------------------------------------------------------------- acknowledgements

  /** An acknowledgement of any origin is accepted if and only if it repeats one already given, or
      names a batch still retained together with that batch's tick. It then releases exactly
      the batches up to it. */
  lemma AcknowledgeExactly<S, D>(c: Config, s: Sender<S, D>, ack: Ack)
    requires ValidSender(c, s)
    ensures var r := AcknowledgeSender(s, ack);
            var stale := ack.sequence <= s.acknowledged;
            var named := s.acknowledged < ack.sequence < s.nextSequence
                         && s.pending[ack.sequence - s.acknowledged - 1].tick == ack.tick;
            && (r.Ok? <==> stale || named)
            && (r.Err? ==> r.error == InvalidAcknowledgement)
            && (stale ==> r.value == Acked(s, 0))
            && (named ==>
                  && r.value.released == ack.sequence - s.acknowledged
                  && r.value.sender == s.(acknowledged := ack.sequence,
                                          pending := s.pending[ack.sequence - s.acknowledged..]))
  {
    hide FindTick, DropThrough;
    FindTickAt(s.pending, s.acknowledged, ack.sequence);
    if s.acknowledged < ack.sequence < s.nextSequence {
      DropThroughRetained(c, s, ack.sequence);
    }
  }
}
