/** The observer side: buffers reordered batches, stages contiguous ones in an overlay
    over the entity map, and commits the whole packet or nothing. */
module ReplicationReceivers {
  import opened Common
  import opened SequenceWindows
  import opened ReplicationProtocol
  import opened StableSort

  datatype Report = Report(appliedBatches: nat, appliedEvents: nat, duplicateBatches: nat, ack: Ack)

  datatype Receiver<S, D> = Receiver(
    window: Window,
    pending: map<nat, Batch<S, D>>,
    entities: World<S>,
    appliedTick: nat)

  datatype Outcome<S, D> = Outcome(receiver: Receiver<S, D>, report: Report)

  // ---------------------------------------------------------------- reference semantics of one packet

  datatype Scanned<S, D> = Scanned(window: Window, accepted: map<nat, Batch<S, D>>, duplicates: nat)

  /** Runs every batch of a sorted packet through the sequence window. */
  function Scan<S, D>(maxEvents: nat, sc: Scanned<S, D>, batches: seq<Batch<S, D>>): Result<Scanned<S, D>, Error>
    decreases |batches|
  {
    if batches == [] then Ok(sc)
    else
      var b := batches[0];
      if b.tick == 0 || |b.events| > maxEvents then Err(InvalidPacket(InvalidBatch))
      else
        match ObserveWindow(sc.window, b.sequence)
        case Err(_) => Err(InvalidPacket(SequenceBeyondWindow))
        case Ok((_, Duplicate)) => Scan(maxEvents, sc.(duplicates := sc.duplicates + 1), batches[1..])
        case Ok((window, Accepted)) =>
          Scan(maxEvents, sc.(window := window, accepted := sc.accepted[b.sequence := b]), batches[1..])
  }

  datatype Applied<S> = Applied(world: World<S>, tick: nat, events: nat)

  /** Applies the payloads numbered `first..last` one event at a time. */
  function ApplyRange<S, D>(
      max: nat, decode: Decoder<S, D>, payload: map<nat, Batch<S, D>>, a: Applied<S>, first: nat, last: nat)
    : Result<Applied<S>, Error>
    decreases last + 1 - first
  {
    if first > last then Ok(a)
    else if first !in payload then Err(InvalidPacket(MissingPayload))
    else if payload[first].tick < a.tick then Err(InvalidOrder)
    else
      match ApplyBatch(max, decode, a.world, payload[first])
      case Err(error) => Err(error)
      case Ok(world) =>
        ApplyRange(max, decode, payload, Applied(world, payload[first].tick, a.events + |payload[first].events|),
            first + 1, last)
  }

  /** How a range of payloads can be refused at its first element, or is already done. */
  lemma RangeRefusals<S, D>(
      max: nat, decode: Decoder<S, D>, payload: map<nat, Batch<S, D>>, a: Applied<S>, first: nat, last: nat)
    ensures first > last ==> ApplyRange(max, decode, payload, a, first, last) == Ok(a)
    ensures first <= last && first !in payload ==>
        ApplyRange(max, decode, payload, a, first, last) == Err(InvalidPacket(MissingPayload))
    ensures first <= last && first in payload && payload[first].tick < a.tick ==>
        ApplyRange(max, decode, payload, a, first, last) == Err(InvalidOrder)
    ensures first <= last && first in payload && payload[first].tick >= a.tick ==>
              var applied := ApplyBatch(max, decode, a.world, payload[first]);
              applied.Err? ==> ApplyRange(max, decode, payload, a, first, last) == Err(applied.error)
  {
    hide ApplyBatch;
  }

  function Above<S, D>(payload: map<nat, Batch<S, D>>, ack: nat): map<nat, Batch<S, D>> {
    map s | s in payload && s > ack :: payload[s]
  }

  /** One packet, processed directly: no overlay, no running count, no clone of the window. */
  function Receive<S, D>(c: Config, decode: Decoder<S, D>, r: Receiver<S, D>, p: Packet<S, D>)
    : Result<Outcome<S, D>, Error>
  {
    if |p.batches| > c.redundancy then Err(InvalidPacket(TooManyBatches))
    else
      match Scan(c.maxEventsPerBatch, Scanned(r.window, map[], 0), SortBy(BatchSequence, p.batches))
      case Err(error) => Err(error)
      case Ok(sc) =>
        var first := SatAdd(r.window.acknowledged, 1);
        var last := sc.window.acknowledged;
        match ApplyRange(c.maxEntities, decode, r.pending + sc.accepted, Applied(r.entities, r.appliedTick, 0), first,
            last)
        case Err(error) => Err(error)
        case Ok(a) =>
          Ok(Outcome(Receiver(sc.window, Above(r.pending + sc.accepted, last), a.world, a.tick),
                     Report(if first <= last then last + 1 - first else 0, a.events, sc.duplicates, Ack(last, a.tick))))
  }

  /** How the outcome of a packet follows from its two phases. */
  lemma ReceiveScanRefused<S, D>(c: Config, decode: Decoder<S, D>, r: Receiver<S, D>, p: Packet<S, D>)
    requires |p.batches| <= c.redundancy
    requires Scan(c.maxEventsPerBatch, Scanned(r.window, map[], 0), SortBy(BatchSequence, p.batches)).Err?
    ensures Receive(c, decode, r, p) ==
        Err(Scan(c.maxEventsPerBatch, Scanned(r.window, map[], 0), SortBy(BatchSequence, p.batches)).error)
  {
    hide Scan, ApplyRange, SortBy, Above;
  }

  lemma ReceiveApplyRefused<S, D>(
      c: Config, decode: Decoder<S, D>, r: Receiver<S, D>, p: Packet<S, D>, sc: Scanned<S, D>, error: Error)
    requires |p.batches| <= c.redundancy
    requires Scan(c.maxEventsPerBatch, Scanned(r.window, map[], 0), SortBy(BatchSequence, p.batches)) == Ok(sc)
    requires ApplyRange(c.maxEntities, decode, r.pending + sc.accepted, Applied(r.entities, r.appliedTick, 0),
                        SatAdd(r.window.acknowledged, 1), sc.window.acknowledged) == Err(error)
    ensures Receive(c, decode, r, p) == Err(error)
  {
    hide Scan, ApplyRange, SortBy, Above;
  }

  lemma ReceiveCommitted<S, D>(
      c: Config, decode: Decoder<S, D>, r: Receiver<S, D>, p: Packet<S, D>, sc: Scanned<S, D>, a: Applied<S>)
    requires |p.batches| <= c.redundancy
    requires Scan(c.maxEventsPerBatch, Scanned(r.window, map[], 0), SortBy(BatchSequence, p.batches)) == Ok(sc)
    requires ApplyRange(c.maxEntities, decode, r.pending + sc.accepted, Applied(r.entities, r.appliedTick, 0),
                        SatAdd(r.window.acknowledged, 1), sc.window.acknowledged) == Ok(a)
    ensures var first, last := SatAdd(r.window.acknowledged, 1), sc.window.acknowledged;
            Receive(c, decode, r, p) ==
            Ok(Outcome(Receiver(sc.window, Above(r.pending + sc.accepted, last), a.world, a.tick),
                       Report(if first <= last then last + 1 - first
                           else 0, a.events, sc.duplicates, Ack(last, a.tick))))
  {
    hide Scan, ApplyRange, SortBy, Above;
  }

  /** What every receiver keeps, whatever packets it is given. */
  ghost predicate ValidReceiver<S, D>(c: Config, r: Receiver<S, D>) {
    && ValidWindow(r.window)
    && r.window.reorder == c.reorderWindow
    && r.pending.Keys == r.window.pending
    && (forall s :: s in r.pending ==> r.pending[s].sequence == s)
    && |r.entities| <= c.maxEntities
  }

  // ---------------------------------------------------------------- invariant over arbitrary packets

  /** Relates a scan in progress to where it started: the window gained exactly the accepted keys. */
  ghost predicate ScanFrom<S, D>(w0: Window, sc: Scanned<S, D>) {
    && ValidWindow(sc.window)
    && sc.window.reorder == w0.reorder
    && w0.acknowledged <= sc.window.acknowledged
    && (forall s :: s in sc.accepted ==> !Received(w0, s) && sc.accepted[s].sequence == s)
    && (forall s: nat :: Received(sc.window, s) <==> Received(w0, s) || s in sc.accepted)
  }

  lemma {:induction false} ScanKeeps<S, D>(maxEvents: nat, w0: Window, sc: Scanned<S, D>, batches: seq<Batch<S, D>>)
    requires ScanFrom(w0, sc)
    ensures Scan(maxEvents, sc, batches).Ok? ==> ScanFrom(w0, Scan(maxEvents, sc, batches).value)
    decreases |batches|
  {
    if batches != [] {
      var b := batches[0];
      ObserveReceives(sc.window, b.sequence);
      match ObserveWindow(sc.window, b.sequence) {
        case Err(_) =>
        case Ok((_, Duplicate)) =>
          ScanKeeps(maxEvents, w0, sc.(duplicates := sc.duplicates + 1), batches[1..]);
        case Ok((window, Accepted)) =>
          ScanKeeps(maxEvents, w0, sc.(window := window, accepted := sc.accepted[b.sequence := b]), batches[1..]);
      }
    }
  }

  lemma {:induction false} ApplyRangeBound<S, D>(
      max: nat, decode: Decoder<S, D>, payload: map<nat, Batch<S, D>>, a: Applied<S>, first: nat, last: nat)
    requires |a.world| <= max
    ensures var r := ApplyRange(max, decode, payload, a, first, last);
            r.Ok? ==> |r.value.world| <= max && a.tick <= r.value.tick
    decreases last + 1 - first
  {
    hide ApplyEvents, ApplyBatch;
    if first <= last && first in payload && payload[first].tick >= a.tick {
      var n := ApplyBatch(max, decode, a.world, payload[first]);
      if n.Ok? {
        ApplyRangeBound(max, decode, payload,
            Applied(n.value, payload[first].tick, a.events + |payload[first].events|), first + 1, last);
      }
    }
  }

  lemma {:induction false} ApplyRangeNeverMissing<S, D>(
      max: nat, decode: Decoder<S, D>, payload: map<nat, Batch<S, D>>, a: Applied<S>, first: nat, last: nat)
    requires forall s :: first <= s <= last ==> s in payload
    ensures ApplyRange(max, decode, payload, a, first, last) != Err(InvalidPacket(MissingPayload))
    decreases last + 1 - first
  {
    hide ApplyEvents;
    if first <= last {
      ApplyEventsNeverMissing(max, decode, a.world, payload[first].events, {});
      var n := ApplyBatch(max, decode, a.world, payload[first]);
      if n.Ok? {
        ApplyRangeNeverMissing(max, decode, payload,
            Applied(n.value, payload[first].tick, a.events + |payload[first].events|), first + 1, last);
      }
    }
  }

  lemma {:induction false} ApplyEventsNeverMissing<S, D>(
      max: nat, decode: Decoder<S, D>, w: World<S>, es: seq<Event<S, D>>, affected: set<EntityId>)
    ensures ApplyEvents(max, decode, w, es, affected) != Err(InvalidPacket(MissingPayload))
    decreases |es|
  {
    if es != [] && es[0].entity !in affected {
      var n := ApplyEvent(max, decode, w, es[0]);
      if n.Ok? {
        ApplyEventsNeverMissing(max, decode, n.value, es[1..], affected + {es[0].entity});
      }
    }
  }

  /** Every accepted packet, genuine or not, keeps the buffered payloads in step with the
      window, the entity map within its limit, and the acknowledgement and tick monotone. */
  lemma ReceiveKeepsValid<S, D>(c: Config, decode: Decoder<S, D>, r: Receiver<S, D>, p: Packet<S, D>)
    requires ValidReceiver(c, r)
    ensures match Receive(c, decode, r, p)
            case Ok(Outcome(next, report)) =>
              && ValidReceiver(c, next)
              && r.window.acknowledged <= next.window.acknowledged
              && r.appliedTick <= next.appliedTick
              && report.ack == Ack(next.window.acknowledged, next.appliedTick)
            case Err(_) => true
  {
    hide Scan, ApplyRange, ObserveWindow, SortBy, Above;
    var sorted := SortBy(BatchSequence, p.batches);
    var sc0 := Scanned(r.window, map[], 0);
    ScanKeeps(c.maxEventsPerBatch, r.window, sc0, sorted);
    var scan := Scan(c.maxEventsPerBatch, sc0, sorted);
    if scan.Ok? {
      var sc := scan.value;
      var payload := r.pending + sc.accepted;
      var first, last := SatAdd(r.window.acknowledged, 1), sc.window.acknowledged;
      ApplyRangeBound(c.maxEntities, decode, payload, Applied(r.entities, r.appliedTick, 0), first, last);
      AboveMatchesWindow(r, sc);
    }
  }

  lemma AboveMatchesWindow<S, D>(r: Receiver<S, D>, sc: Scanned<S, D>)
    requires ValidWindow(r.window)
    requires r.pending.Keys == r.window.pending
    requires forall s :: s in r.pending ==> r.pending[s].sequence == s
    requires ScanFrom(r.window, sc)
    ensures var kept := Above(r.pending + sc.accepted, sc.window.acknowledged);
            && kept.Keys == sc.window.pending
            && (forall s :: s in kept ==> kept[s].sequence == s)
  {
    var kept := Above(r.pending + sc.accepted, sc.window.acknowledged);
    forall s: nat
      ensures s in kept.Keys <==> s in sc.window.pending
    {
      assert Received(sc.window, s) <==> Received(r.window, s) || s in sc.accepted;
    }
  }

  /** The scanned window never acknowledges a batch whose payload is not at hand, so the
      "payload is missing" refusal needs a sequence space used up to its very end. */
  lemma PayloadNeverMissing<S, D>(c: Config, decode: Decoder<S, D>, r: Receiver<S, D>, p: Packet<S, D>)
    requires ValidReceiver(c, r)
    requires r.window.acknowledged < U64_MAX
    ensures Receive(c, decode, r, p) != Err(InvalidPacket(MissingPayload))
  {
    hide Scan, ApplyRange, ObserveWindow, SortBy, Receive;
    if |p.batches| > c.redundancy {
      PacketTooLong(c, decode, r, p);
      return;
    }
    var sorted := SortBy(BatchSequence, p.batches);
    var sc0 := Scanned(r.window, map[], 0);
    ScanKeeps(c.maxEventsPerBatch, r.window, sc0, sorted);
    ScanNeverMissing(c.maxEventsPerBatch, sc0, sorted);
    var scan := Scan(c.maxEventsPerBatch, sc0, sorted);
    if scan.Err? {
      ReceiveScanRefused(c, decode, r, p);
      return;
    }
    var sc := scan.value;
    var a0 := Applied(r.entities, r.appliedTick, 0);
    forall s | r.window.acknowledged + 1 <= s <= sc.window.acknowledged
      ensures s in r.pending + sc.accepted
    {
      assert Received(sc.window, s);
    }
    ApplyRangeNeverMissing(c.maxEntities, decode, r.pending + sc.accepted, a0, r.window.acknowledged + 1,
        sc.window.acknowledged);
    var applied := ApplyRange(c.maxEntities, decode, r.pending + sc.accepted, a0, r.window.acknowledged + 1,
        sc.window.acknowledged);
    if applied.Err? {
      ReceiveApplyRefused(c, decode, r, p, sc, applied.error);
    } else {
      ReceiveCommitted(c, decode, r, p, sc, applied.value);
    }
  }

  lemma {:induction false} ScanNeverMissing<S, D>(maxEvents: nat, sc: Scanned<S, D>, batches: seq<Batch<S, D>>)
    ensures Scan(maxEvents, sc, batches) != Err(InvalidPacket(MissingPayload))
    decreases |batches|
  {
    if batches != [] {
      var b := batches[0];
      match ObserveWindow(sc.window, b.sequence) {
        case Err(_) =>
        case Ok((_, Duplicate)) =>
          ScanNeverMissing(maxEvents, sc.(duplicates := sc.duplicates + 1), batches[1..]);
        case Ok((window, Accepted)) =>
          ScanNeverMissing(maxEvents, sc.(window := window, accepted := sc.accepted[b.sequence := b]), batches[1..]);
      }
    }
  }

  /** Past the last `u64` nothing is new. */
  lemma {:induction false} ScanExhausted<S, D>(maxEvents: nat, sc: Scanned<S, D>, batches: seq<Batch<S, D>>)
    requires sc.window.acknowledged == U64_MAX && sc.window.pending == {} && sc.accepted == map[]
    ensures var r := Scan(maxEvents, sc, batches);
            r.Ok? ==> r.value.window == sc.window && r.value.accepted == map[]
    decreases |batches|
  {
    if batches != [] && 0 < batches[0].sequence <= U64_MAX {
      ScanExhausted(maxEvents, sc.(duplicates := sc.duplicates + 1), batches[1..]);
    }
  }

  /** The other side of that boundary: once the acknowledgement is the last `u64`, every packet
      is refused, even an empty one or a repeated one, because the range of sequences to apply
      saturates instead of being empty. */
  lemma ExhaustedReceiverRefuses<S, D>(c: Config, decode: Decoder<S, D>, r: Receiver<S, D>, p: Packet<S, D>)
    requires ValidReceiver(c, r)
    requires r.window.acknowledged == U64_MAX
    ensures Receive(c, decode, r, p).Err?
    ensures p.batches == [] ==> Receive(c, decode, r, p) == Err(InvalidPacket(MissingPayload))
  {
    hide Scan, SortBy, Above;
    var sc: Scanned<S, D> := Scanned(r.window, map[], 0);
    var sorted := SortBy(BatchSequence, p.batches);
    assert r.window.pending == {};
    ScanExhausted(c.maxEventsPerBatch, sc, sorted);
    assert U64_MAX !in r.pending;
    if p.batches == [] {
      SortOfAscending(BatchSequence, p.batches);
      ScanNothing(c.maxEventsPerBatch, sc);
    }
  }

  lemma ScanNothing<S, D>(maxEvents: nat, sc: Scanned<S, D>)
    ensures Scan(maxEvents, sc, []) == Ok(sc)
  {
  }

  // ---------------------------------------------------------------- the overlay

  /** Entity changes staged by one packet; `None` marks a removal. */
  type Overlay<S> = map<EntityId, Option<Versioned<S>>>

  /** The entity map an overlay stands for. */
  function Merge<S>(base: World<S>, changes: Overlay<S>): World<S> {
    map e | e in base.Keys + changes.Keys && (e in changes ==> changes[e].Some?)
      :: if e in changes then changes[e].value else base[e]
  }

  /** `staged_entity`: looks through the overlay first. */
  function StagedEntity<S>(base: World<S>, changes: Overlay<S>, e: EntityId): (r: Option<Versioned<S>>)
    ensures r.Some? <==> e in Merge(base, changes)
    ensures r.Some? ==> r.value == Merge(base, changes)[e]
  {
    if e in changes then changes[e]
    else if e in base then Some(base[e]) else None
  }

  lemma StageSome<S>(base: World<S>, changes: Overlay<S>, e: EntityId, v: Versioned<S>)
    ensures Merge(base, changes[e := Some(v)]) == Merge(base, changes)[e := v]
  {
    var m, n := Merge(base, changes)[e := v], Merge(base, changes[e := Some(v)]);
    assert m.Keys == n.Keys;
    assert forall k :: k in m ==> m[k] == n[k];
  }

  lemma StageNone<S>(base: World<S>, changes: Overlay<S>, e: EntityId)
    ensures Merge(base, changes[e := None]) == Merge(base, changes) - {e}
  {
    var m, n := Merge(base, changes) - {e}, Merge(base, changes[e := None]);
    assert m.Keys == n.Keys;
    assert forall k :: k in m ==> m[k] == n[k];
  }

  lemma WorldSizes<S>(w: World<S>, e: EntityId, v: Versioned<S>)
    ensures |w[e := v]| == |w| + (if e in w then 0 else 1)
    ensures |w - {e}| == |w| - (if e in w then 1 else 0)
  {
    assert w[e := v].Keys == w.Keys + {e};
    assert (w - {e}).Keys == w.Keys - {e};
  }

  /** Entity changes staged so far together with the running entity count. */
  datatype Overlaid<S> = Overlaid(changes: Overlay<S>, count: nat)

  lemma Put<S>(base: World<S>, o: Overlaid<S>, e: EntityId, v: Versioned<S>, next: Overlaid<S>)
    requires o.count == |Merge(base, o.changes)|
    requires next.changes == o.changes[e := Some(v)]
    requires next.count == if e in Merge(base, o.changes) then o.count else o.count + 1
    ensures Merge(base, next.changes) == Merge(base, o.changes)[e := v]
    ensures next.count == |Merge(base, next.changes)|
  {
    hide Merge;
    StageSome(base, o.changes, e, v);
    WorldSizes(Merge(base, o.changes), e, v);
  }

  /** Stages one event: the overlay afterwards stands for the directly updated map, and the
      running count is that map's size (so the decrement never underflows). */
  method StageEvent<S, D>(base: World<S>, o: Overlaid<S>, e: Event<S, D>, max: nat, decode: Decoder<S, D>)
    returns (r: Result<Overlaid<S>, Error>)
    requires o.count == |Merge(base, o.changes)|
    ensures r.Err? ==> ApplyEvent(max, decode, Merge(base, o.changes), e) == Err(r.error)
    ensures r.Ok? ==> ApplyEvent(max, decode, Merge(base, o.changes), e) == Ok(Merge(base, r.value.changes))
    ensures r.Ok? ==> r.value.count == |Merge(base, r.value.changes)|
  {
    hide Merge;
    var current := StagedEntity(base, o.changes, e.entity);
    match e {
      case Spawn(entity, version, key, state) =>
        if current.Some? || o.count >= max {
          return Err(if current.Some? then InvalidPacket(SpawnedExists) else EntityLimitExceeded);
        }
        var next := Overlaid(o.changes[entity := Some(Versioned(version, key, state))], o.count + 1);
        Put(base, o, entity, Versioned(version, key, state), next);
        r := Ok(next);
      case Despawn(entity) =>
        if current.None? {
          return Err(InvalidPacket(DespawnedMissing));
        }
        StageNone(base, o.changes, entity);
        WorldSizes(Merge(base, o.changes), entity, current.value);
        r := Ok(Overlaid(o.changes[entity := None], o.count - 1));
      case Update(entity, baseVersion, version, delta) =>
        if current.None? {
          return Err(BaselineMismatch);
        }
        if current.value.version != baseVersion || version <= baseVersion {
          return Err(BaselineMismatch);
        }
        var state := decode(entity, current.value.state, delta);
        if state.None? {
          return Err(DeltaRejected);
        }
        var value := Versioned(version, current.value.key, state.value);
        var next := Overlaid(o.changes[entity := Some(value)], o.count);
        Put(base, o, entity, value, next);
        r := Ok(next);
      case Keyframe(entity, version, key, state) =>
        if current.None? && o.count >= max {
          return Err(EntityLimitExceeded);
        }
        var next := Overlaid(o.changes[entity := Some(Versioned(version, key, state))],
            if current.None? then o.count + 1 else o.count);
        Put(base, o, entity, Versioned(version, key, state), next);
        r := Ok(next);
    }
  }

  /** `stage_batch`: refines applying the batch's events one by one. */
  method StageBatch<S, D>(base: World<S>, o: Overlaid<S>, batch: Batch<S, D>, max: nat, decode: Decoder<S, D>)
    returns (r: Result<Overlaid<S>, Error>)
    requires o.count == |Merge(base, o.changes)|
    ensures r.Err? ==> ApplyBatch(max, decode, Merge(base, o.changes), batch) == Err(r.error)
    ensures r.Ok? ==> ApplyBatch(max, decode, Merge(base, o.changes), batch) == Ok(Merge(base, r.value.changes))
    ensures r.Ok? ==> r.value.count == |Merge(base, r.value.changes)|
  {
    hide Merge;
    hide ApplyEvent;
    var staged := o;
    var affected: set<EntityId> := {};
    var i := 0;
    while i < |batch.events|
      invariant 0 <= i <= |batch.events|
      invariant staged.count == |Merge(base, staged.changes)|
      invariant ApplyEvents(max, decode, Merge(base, staged.changes), batch.events[i..], affected)
             == ApplyEvents(max, decode, Merge(base, o.changes), batch.events, {})
    {
      var event := batch.events[i];
      assert batch.events[i..][0] == event && batch.events[i..][1..] == batch.events[i + 1..];
      if event.entity in affected {
        return Err(InvalidPacket(EntityChangedTwice));
      }
      affected := affected + {event.entity};
      var step := StageEvent(base, staged, event, max, decode);
      if step.Err? {
        return Err(step.error);
      }
      staged, i := step.value, i + 1;
    }
    r := Ok(staged);
  }

  /** `rest` is `all` with the keys in `from..to` taken out. */
  ghost predicate IsWithout<S, D>(rest: map<nat, Batch<S, D>>, all: map<nat, Batch<S, D>>, from: nat, to: nat) {
    && (forall k :: k in rest <==> k in all && !(from <= k < to))
    && (forall k :: k in rest ==> rest[k] == all[k])
  }

  /** Taking the next payload from the new batches first and the buffered ones second. */
  lemma TakePayload<S, D>(
      rest: map<nat, Batch<S, D>>, accepted: map<nat, Batch<S, D>>, pending: map<nat, Batch<S, D>>, from: nat, s: nat)
    requires from <= s
    requires IsWithout(rest, accepted, from, s)
    ensures s in pending + accepted <==> s in rest || s in pending
    ensures s in pending + accepted ==> (pending + accepted)[s] == if s in rest then rest[s] else pending[s]
    ensures IsWithout(rest - {s}, accepted, from, s + 1)
  {
  }

  lemma WithoutNone<S, D>(all: map<nat, Batch<S, D>>, from: nat)
    ensures IsWithout(all, all, from, from)
  {
  }

  lemma WithoutRange<S, D>(rest: map<nat, Batch<S, D>>, all: map<nat, Batch<S, D>>, from: nat, to: nat, last: nat)
    requires IsWithout(rest, all, from, to)
    requires to == last + 1 || (from > last && to == from)
    ensures IsWithout(rest, all, from, last + 1)
  {
  }

  datatype Staged<S, D> = Staged(overlaid: Overlaid<S>, tick: nat, events: nat, rest: map<nat, Batch<S, D>>)

  /** The directly applied state that a stage in progress stands for. */
  function StagedView<S, D>(entities: World<S>, g: Staged<S, D>): Applied<S> {
    Applied(Merge(entities, g.overlaid.changes), g.tick, g.events)
  }

  lemma StagedOne<S, D>(max: nat, decode: Decoder<S, D>, entities: World<S>, payload: map<nat, Batch<S, D>>,
                        g: Staged<S, D>, next: Staged<S, D>, s: nat, last: nat)
    requires s <= last && s in payload && payload[s].tick >= g.tick
    requires ApplyBatch(max, decode, Merge(entities, g.overlaid.changes), payload[s]) ==
        Ok(Merge(entities, next.overlaid.changes))
    requires next.tick == payload[s].tick && next.events == g.events + |payload[s].events|
    ensures ApplyRange(max, decode, payload, StagedView(entities, g), s, last)
         == ApplyRange(max, decode, payload, StagedView(entities, next), s + 1, last)
  {
    hide ApplyBatch, Merge;
  }

  /** Stages the batch with sequence `s`, taken from the new batches first. */
  method StageNext<S, D>(
      c: Config, decode: Decoder<S, D>, entities: World<S>, pending: map<nat, Batch<S, D>>, g: Staged<S, D>,
      s: nat, ghost accepted: map<nat, Batch<S, D>>, ghost first: nat, ghost last: nat)
    returns (r: Result<Staged<S, D>, Error>)
    requires first <= s <= last
    requires g.overlaid.count == |Merge(entities, g.overlaid.changes)|
    requires IsWithout(g.rest, accepted, first, s)
    ensures r.Err? ==>
        ApplyRange(c.maxEntities, decode, pending + accepted, StagedView(entities, g), s, last) == Err(r.error)
    ensures r.Ok? ==>
        r.value.overlaid.count == |Merge(entities, r.value.overlaid.changes)|
        && IsWithout(r.value.rest, accepted, first, s + 1)
    ensures r.Ok? ==> ApplyRange(c.maxEntities, decode, pending + accepted, StagedView(entities, g), s, last) ==
                      ApplyRange(c.maxEntities, decode, pending + accepted, StagedView(entities, r.value), s + 1, last)
  {
    hide ApplyBatch, Merge, ApplyRange, IsWithout;
    RangeRefusals(c.maxEntities, decode, pending + accepted, StagedView(entities, g), s, last);
    TakePayload(g.rest, accepted, pending, first, s);
    if s !in g.rest && s !in pending {
      return Err(InvalidPacket(MissingPayload));
    }
    var batch := if s in g.rest then g.rest[s] else pending[s];
    if batch.tick < g.tick {
      return Err(InvalidOrder);
    }
    var step := StageBatch(entities, g.overlaid, batch, c.maxEntities, decode);
    if step.Err? {
      return Err(step.error);
    }
    r := Ok(Staged(step.value, batch.tick, g.events + |batch.events|, g.rest - {s}));
    StagedOne(c.maxEntities, decode, entities, pending + accepted, g, r.value, s, last);
  }

  /** Stages every newly contiguous batch: refines `ApplyRange`. */
  method StageContiguous<S, D>(c: Config, decode: Decoder<S, D>, entities: World<S>, pending: map<nat, Batch<S, D>>,
                               accepted: map<nat, Batch<S, D>>, tick: nat, first: nat, last: nat)
    returns (r: Result<Staged<S, D>, Error>)
    ensures r.Err? ==>
        ApplyRange(c.maxEntities, decode, pending + accepted, Applied(entities, tick, 0), first, last) == Err(r.error)
    ensures r.Ok? ==>
        ApplyRange(c.maxEntities, decode, pending + accepted, Applied(entities, tick, 0), first, last) ==
        Ok(StagedView(entities, r.value))
    ensures r.Ok? ==> IsWithout(r.value.rest, accepted, first, last + 1)
  {
    hide ApplyBatch, Merge, ApplyRange, IsWithout;
    MergeEmpty(entities);
    WithoutNone(accepted, first);
    var g := Staged(Overlaid(map[], |entities|), tick, 0, accepted);
    var s := first;
    while s <= last
      invariant s == first || first < s <= last + 1
      invariant g.overlaid.count == |Merge(entities, g.overlaid.changes)|
      invariant IsWithout(g.rest, accepted, first, s)
      invariant ApplyRange(c.maxEntities, decode, pending + accepted, StagedView(entities, g), s, last)
             == ApplyRange(c.maxEntities, decode, pending + accepted, Applied(entities, tick, 0), first, last)
      decreases last + 1 - s
    {
      var step := StageNext(c, decode, entities, pending, g, s, accepted, first, last);
      if step.Err? {
        return Err(step.error);
      }
      g, s := step.value, s + 1;
    }
    RangeRefusals(c.maxEntities, decode, pending + accepted, StagedView(entities, g), s, last);
    WithoutRange(g.rest, accepted, first, s, last);
    r := Ok(g);
  }

  /** Writes the overlay through to the entity map. */
  method Commit<S>(entities: World<S>, changes: Overlay<S>) returns (next: World<S>)
    ensures next == Merge(entities, changes)
  {
    hide Merge;
    next := entities;
    var todo := changes.Keys;
    ghost var done: Overlay<S> := map[];
    MergeEmpty(entities);
    while todo != {}
      invariant changes.Keys == todo + done.Keys
      invariant forall e :: e in done ==> done[e] == changes[e]
      invariant next == Merge(entities, done)
      decreases todo
    {
      var e :| e in todo;
      if changes[e].Some? {
        StageSome(entities, done, e, changes[e].value);
        next := next[e := changes[e].value];
      } else {
        StageNone(entities, done, e);
        next := next - {e};
      }
      todo, done := todo - {e}, done[e := changes[e]];
    }
    assert done == changes;
  }

  lemma MergeEmpty<S>(base: World<S>)
    ensures Merge(base, map[]) == base
  {
  }

  /** Runs the sorted packet through a private copy of the window: refines `Scan`. */
  method ScanPacket<S, D>(c: Config, window: SequenceWindow, batches: seq<Batch<S, D>>)
    returns (r: Result<Scanned<S, D>, Error>)
    requires window.Valid()
    modifies window
    ensures window.Valid()
    ensures r.Err? ==> Scan(c.maxEventsPerBatch, Scanned(old(window.View()), map[], 0), batches) == Err(r.error)
    ensures r.Ok? ==>
        Scan(c.maxEventsPerBatch, Scanned(old(window.View()), map[], 0), batches) == Ok(r.value)
        && r.value.window == window.View()
  {
    hide ObserveWindow;
    var accepted: map<nat, Batch<S, D>> := map[];
    var duplicates: nat := 0;
    var i := 0;
    while i < |batches|
      invariant 0 <= i <= |batches|
      invariant window.Valid()
      invariant Scan(c.maxEventsPerBatch, Scanned(window.View(), accepted, duplicates), batches[i..])
             == Scan(c.maxEventsPerBatch, Scanned(old(window.View()), map[], 0), batches)
    {
      var batch := batches[i];
      assert batches[i..][0] == batch && batches[i..][1..] == batches[i + 1..];
      if batch.tick == 0 || |batch.events| > c.maxEventsPerBatch {
        return Err(InvalidPacket(InvalidBatch));
      }
      ObserveReceives(window.View(), batch.sequence);
      var observed := window.Observe(batch.sequence);
      match observed {
        case Err(_) => return Err(InvalidPacket(SequenceBeyondWindow));
        case Ok(Duplicate) => duplicates := duplicates + 1;
        case Ok(Accepted) => accepted := accepted[batch.sequence := batch];
      }
      i := i + 1;
    }
    r := Ok(Scanned(window.View(), accepted, duplicates));
  }

  /** Second phase of `receive`: stages the newly contiguous batches and commits them. */
  method ApplyScanned<S, D>(
      c: Config, decode: Decoder<S, D>, r: Receiver<S, D>, ghost packet: Packet<S, D>, sc: Scanned<S, D>)
    returns (o: Result<Outcome<S, D>, Error>)
    requires ValidWindow(r.window)
    requires |packet.batches| <= c.redundancy
    requires Scan(c.maxEventsPerBatch, Scanned(r.window, map[], 0), SortBy(BatchSequence, packet.batches)) == Ok(sc)
    ensures o == Receive(c, decode, r, packet)
  {
    hide Scan, ApplyRange, Merge, SortBy, Receive, Above, IsWithout, ValidWindow;
    var first, last := SatAdd(r.window.acknowledged, 1), sc.window.acknowledged;
    var staged := StageContiguous(c, decode, r.entities, r.pending, sc.accepted, r.appliedTick, first, last);
    if staged.Err? {
      ReceiveApplyRefused(c, decode, r, packet, sc, staged.error);
      return Err(staged.error);
    }
    var g := staged.value;
    ReceiveCommitted(c, decode, r, packet, sc, StagedView(r.entities, g));
    KeptPayloads(c, r, SortBy(BatchSequence, packet.batches), sc, g.rest);
    var entities := Commit(r.entities, g.overlaid.changes);
    o := Ok(Outcome(Receiver(sc.window, Above(r.pending, last) + g.rest, entities, g.tick),
                    Report(if first <= last then last + 1 - first else 0, g.events, sc.duplicates, Ack(last, g.tick))));
  }

  /** The working part of `receive`: everything happens on private copies until the commit. */
  method Process<S, D>(c: Config, decode: Decoder<S, D>, r: Receiver<S, D>, packet: Packet<S, D>)
    returns (o: Result<Outcome<S, D>, Error>)
    requires ValidReceiver(c, r)
    ensures o == Receive(c, decode, r, packet)
  {
    hide Scan, SortBy, Receive;
    if |packet.batches| > c.redundancy {
      PacketTooLong(c, decode, r, packet);
      return Err(InvalidPacket(TooManyBatches));
    }
    var next := new SequenceWindow.FromView(r.window);
    var scan := ScanPacket(c, next, SortBy(BatchSequence, packet.batches));
    if scan.Err? {
      ReceiveScanRefused(c, decode, r, packet);
      return Err(scan.error);
    }
    o := ApplyScanned(c, decode, r, packet, scan.value);
  }

  class ReplicationReceiver<S(!new), D(!new)> {
    const config: Config
    var sequences: SequenceWindow
    var pending: map<nat, Batch<S, D>>
    var entities: World<S>
    var appliedTick: nat

    function View(): Receiver<S, D>
      reads this, sequences
    {
      Receiver(sequences.View(), pending, entities, appliedTick)
    }

    ghost predicate Valid()
      reads this, sequences
    {
      ValidConfig(config) && ValidReceiver(config, View())
    }

    constructor (c: Config)
      requires ValidConfig(c)
      ensures Valid() && fresh(sequences) && config == c
      ensures View() == Receiver(Window(c.reorderWindow, 0, {}), map[], map[], 0)
    {
      config := c;
      sequences := new SequenceWindow.FromView(Window(c.reorderWindow, 0, {}));
      pending, entities, appliedTick := map[], map[], 0;
    }

    /** Processes one packet transactionally: the new state and the report are those of the
        direct reference semantics, and any refusal leaves the receiver as it was. */
    method ReceivePacket(packet: Packet<S, D>, decode: Decoder<S, D>) returns (r: Result<Report, Error>)
      requires Valid()
      modifies this
      ensures Valid()
      ensures sequences == old(sequences) || fresh(sequences)
      ensures r.Err? ==> Receive(config, decode, old(View()), packet) == Err(r.error) && View() == old(View())
      ensures r.Ok? ==> Receive(config, decode, old(View()), packet) == Ok(Outcome(View(), r.value))
    {
      hide Receive;
      ReceiveKeepsValid(config, decode, View(), packet);
      var processed := Process(config, decode, View(), packet);
      if processed.Err? {
        return Err(processed.error);
      }
      var next := processed.value.receiver;
      sequences := new SequenceWindow.FromView(next.window);
      pending, entities, appliedTick := next.pending, next.entities, next.appliedTick;
      r := Ok(processed.value.report);
    }
  }

  lemma PacketTooLong<S, D>(c: Config, decode: Decoder<S, D>, r: Receiver<S, D>, p: Packet<S, D>)
    requires |p.batches| > c.redundancy
    ensures Receive(c, decode, r, p) == Err(InvalidPacket(TooManyBatches))
  {
  }

  /** Retaining the buffered tail and adding the unapplied new batches is the same as keeping
      every payload above the acknowledgement. */
  lemma KeptPayloads<S, D>(
      c: Config, r: Receiver<S, D>, sorted: seq<Batch<S, D>>, sc: Scanned<S, D>, rest: map<nat, Batch<S, D>>)
    requires ValidWindow(r.window)
    requires Scan(c.maxEventsPerBatch, Scanned(r.window, map[], 0), sorted) == Ok(sc)
    requires IsWithout(rest, sc.accepted, SatAdd(r.window.acknowledged, 1), sc.window.acknowledged + 1)
    ensures Above(r.pending, sc.window.acknowledged) + rest == Above(r.pending + sc.accepted, sc.window.acknowledged)
  {
    var sc0: Scanned<S, D> := Scanned(r.window, map[], 0);
    ScanKeeps(c.maxEventsPerBatch, r.window, sc0, sorted);
    hide Scan;
    assert forall s :: s in sc.accepted ==> r.window.acknowledged < s;
    assert sc.window.acknowledged <= U64_MAX;
  }
}
