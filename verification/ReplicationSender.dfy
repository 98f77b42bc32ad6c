/** The authority side: reconciles the visible set into events, numbers them in batches
    and retains every batch until it is cumulatively acknowledged. */
module ReplicationSenders {
  import opened Common
  import opened ReplicationProtocol

  datatype Entry<S> = Entry(entity: EntityId, value: Versioned<S>)

  datatype Sender<S, D> = Sender(
    nextSequence: nat,
    acknowledged: nat,
    lastTick: nat,
    projected: World<S>,
    pending: seq<Batch<S, D>>,
    force: bool)

  datatype Acked<S, D> = Acked(sender: Sender<S, D>, released: nat)

  // ---------------------------------------------------------------- ordered iteration

  ghost predicate IsLeast(m: EntityId, s: set<EntityId>) {
    m in s && forall x :: x in s ==> m <= x
  }

  lemma LeastExists(s: set<EntityId>) returns (m: EntityId)
    requires s != {}
    ensures IsLeast(m, s)
  {
    var first :| first in s;
    m := first;
    if s != {first} {
      var rest := s - {first};
      var other := LeastExists(rest);
      m := if first <= other then first else other;
      forall x | x in s
        ensures m <= x
      {
        assert x == first || x in rest;
      }
    }
  }

  ghost function Least(s: set<EntityId>): (m: EntityId)
    requires s != {}
    ensures IsLeast(m, s)
  {
    assert exists m :: IsLeast(m, s) by {
      var m := LeastExists(s);
    }
    var m :| IsLeast(m, s);
    m
  }

  /** The order in which a B-tree map yields its keys. */
  ghost function SortedIds(s: set<EntityId>): (ids: seq<EntityId>)
    ensures forall x :: x in ids <==> x in s
  {
    if s == {} then [] else [Least(s)] + SortedIds(s - {Least(s)})
  }

  ghost predicate Increasing(ids: seq<EntityId>) {
    forall i, j :: 0 <= i < j < |ids| ==> ids[i] < ids[j]
  }

  lemma {:induction false} SortedIdsIncreasing(s: set<EntityId>)
    ensures Increasing(SortedIds(s))
  {
    if s != {} {
      var m := Least(s);
      var rest := SortedIds(s - {m});
      SortedIdsIncreasing(s - {m});
      forall i | 0 <= i < |rest|
        ensures m < rest[i]
      {
        assert rest[i] in rest;
      }
    }
  }

  // ---------------------------------------------------------------- the diff

  function DespawnEvents<S, D>(ids: seq<EntityId>, desired: World<S>): seq<Event<S, D>> {
    if ids == [] then []
    else if ids[0] in desired then DespawnEvents(ids[1..], desired)
    else [Despawn(ids[0])] + DespawnEvents(ids[1..], desired)
  }

  /** The event for one visible entity, if it needs one. */
  function ChangeFor<S, D>(e: EntityId, projected: World<S>, current: Versioned<S>, force: bool, encode: Encoder<S, D>)
    : Result<Option<Event<S, D>>, Error>
  {
    if e !in projected then Ok(Some(Spawn(e, current.version, current.key, current.state)))
    else
      var previous := projected[e];
      if current.version < previous.version then Err(VersionRegression)
      else if force then Ok(Some(Keyframe(e, current.version, current.key, current.state)))
      else if current.version == previous.version then Ok(None)
      else
        var delta := encode(e, previous, current);
        if delta.Some? then Ok(Some(Update(e, previous.version, current.version, delta.value)))
        else Ok(Some(Keyframe(e, current.version, current.key, current.state)))
  }

  function ChangeEvents<S, D>(
      ids: seq<EntityId>, projected: World<S>, desired: World<S>, force: bool, encode: Encoder<S, D>)
    : Result<seq<Event<S, D>>, Error>
    requires forall e :: e in ids ==> e in desired
    decreases |ids|
  {
    if ids == [] then Ok([])
    else
      var change := ChangeFor(ids[0], projected, desired[ids[0]], force, encode);
      if change.Err? then Err(change.error)
      else
        var rest := ChangeEvents(ids[1..], projected, desired, force, encode);
        if rest.Err? then rest
        else if change.value.None? then rest
        else Ok([change.value.value] + rest.value)
  }

  /** All events of one reconciliation: removals first, then visible entities in key order. */
  ghost function Diff<S, D>(
      projected: World<S>, desired: World<S>, force: bool, encode: Encoder<S, D>): Result<seq<Event<S, D>>, Error>
  {
    var changes := ChangeEvents(SortedIds(desired.Keys), projected, desired, force, encode);
    if changes.Err? then changes
    else Ok(DespawnEvents(SortedIds(projected.Keys), desired) + changes.value)
  }

  /** Splits events into consecutively numbered batches of at most `size` events. */
  function Chunk<S, D>(events: seq<Event<S, D>>, size: nat, first: nat, tick: nat): (batches: seq<Batch<S, D>>)
    requires 0 < size
    ensures forall i :: 0 <= i < |batches| ==>
              batches[i].sequence == first + i && batches[i].tick == tick && 0 < |batches[i].events| <= size
    decreases |events|
  {
    if events == [] then []
    else if |events| <= size then [Batch(first, tick, events)]
    else [Batch(first, tick, events[..size])] + Chunk(events[size..], size, first + 1, tick)
  }

  function DivCeil(a: nat, b: nat): nat
    requires 0 < b
  {
    if a % b == 0 then a / b else a / b + 1
  }

  lemma {:induction false} ChunkCount<S, D>(events: seq<Event<S, D>>, size: nat, first: nat, tick: nat)
    requires 0 < size
    ensures |Chunk(events, size, first, tick)| == DivCeil(|events|, size)
    decreases |events|
  {
    if events == [] {
    } else if |events| <= size {
      DivCeilSmall(|events|, size);
    } else {
      ChunkCount(events[size..], size, first + 1, tick);
      DivCeilStep(|events|, size);
    }
  }

  lemma DivCeilSmall(a: nat, b: nat)
    requires 0 < a <= b
    ensures DivCeil(a, b) == 1
  {
    if a < b {
      assert a / b == 0 && a % b == a;
    } else {
      assert a / b == 1 && a % b == 0;
    }
  }

  lemma QuotientGap(b: nat, q: int, d: int)
    requires 0 < d
    ensures b * (q + d) >= b * q + b
  {
    assert b * (q + d) == b * q + b + b * (d - 1);
    assert b * (d - 1) >= 0;
  }

  lemma QuotientUnique(b: nat, q: int, r: nat, q': int, r': nat)
    requires r < b && r' < b
    requires b * q + r == b * q' + r'
    ensures q == q'
  {
    if q < q' {
      QuotientGap(b, q, q' - q);
    } else if q' < q {
      QuotientGap(b, q', q - q');
    }
  }

  lemma DivCeilStep(a: nat, b: nat)
    requires 0 < b <= a
    ensures DivCeil(a, b) == 1 + DivCeil(a - b, b)
  {
    var q, r := (a - b) / b, (a - b) % b;
    assert b * (q + 1) + r == a;
    QuotientUnique(b, a / b, a % b, q + 1, r);
  }

  // ---------------------------------------------------------------- reference semantics of the three operations

  /** Collects the visible set; `None` when an entity is listed twice. */
  function Collect<S>(visible: seq<Entry<S>>, acc: World<S>): Option<World<S>>
    decreases |visible|
  {
    if visible == [] then Some(acc)
    else if visible[0].entity in acc then None
    else Collect(visible[1..], acc[visible[0].entity := visible[0].value])
  }

  ghost function UpdateSender<S, D>(
      c: Config, s: Sender<S, D>, tick: nat, visible: seq<Entry<S>>, encode: Encoder<S, D>)
    : (r: Result<Sender<S, D>, Error>)
    requires 0 < c.maxEventsPerBatch
    ensures r.Ok? ==> s.pending <= r.value.pending
  {
    if tick == 0 || tick <= s.lastTick then Err(InvalidOrder)
    else
      var desired := Collect(visible, map[]);
      if desired.None? then Err(InvalidPacket(DuplicateVisible))
      else if |desired.value| > c.maxEntities then Err(EntityLimitExceeded)
      else
        var events := Diff(s.projected, desired.value, s.force, encode);
        if events.Err? then Err(events.error)
        else
          var batches := Chunk(events.value, c.maxEventsPerBatch, s.nextSequence, tick);
          if |s.pending| + |batches| > c.historyCapacity then Err(HistoryFull)
          else if s.nextSequence + |batches| > U64_MAX then Err(SequenceExhausted)
          else Ok(Sender(s.nextSequence + |batches|, s.acknowledged, tick, desired.value, s.pending + batches, false))
  }

  /** The tick of the retained batch with this sequence. */
  function FindTick<S, D>(pending: seq<Batch<S, D>>, sequence: nat): Option<nat> {
    if pending == [] then None
    else if pending[0].sequence == sequence then Some(pending[0].tick)
    else FindTick(pending[1..], sequence)
  }

  function AcknowledgeSender<S, D>(s: Sender<S, D>, ack: Ack): Result<Acked<S, D>, Error> {
    if ack.sequence + 1 > s.nextSequence then Err(InvalidAcknowledgement)
    else if ack.sequence <= s.acknowledged then Ok(Acked(s, 0))
    else if FindTick(s.pending, ack.sequence) != Some(ack.tick) then Err(InvalidAcknowledgement)
    else
      var rest := DropThrough(BatchSequence, s.pending, ack.sequence);
      Ok(Acked(s.(acknowledged := ack.sequence, pending := rest), |s.pending| - |rest|))
  }

  /** The oldest unacknowledged batch together with the newest ones. */
  function PacketOf<S, D>(c: Config, s: Sender<S, D>): (p: Packet<S, D>)
    requires 0 < c.redundancy
    ensures |p.batches| <= c.redundancy
    ensures forall b :: b in p.batches ==> b in s.pending
    ensures s.pending != [] ==> p.batches != [] && p.batches[0] == s.pending[0]
  {
    if |s.pending| <= c.redundancy then Packet(s.pending)
    else Packet([s.pending[0]] + s.pending[|s.pending| - (c.redundancy - 1)..])
  }

  // ---------------------------------------------------------------- the object

  method KeysInOrder(keys: set<EntityId>) returns (ids: seq<EntityId>)
    ensures ids == SortedIds(keys)
  {
    ids := [];
    var rest := keys;
    while rest != {}
      invariant SortedIds(keys) == ids + SortedIds(rest)
      decreases rest
    {
      ghost var least := Least(rest);
      var m :| m in rest && forall x :: x in rest ==> m <= x;
      assert m == least;
      ghost var tail := SortedIds(rest - {m});
      assert SortedIds(rest) == [m] + tail;
      assert ids + ([m] + tail) == (ids + [m]) + tail;
      ids := ids + [m];
      rest := rest - {m};
    }
  }

  method CollectVisible<S>(visible: seq<Entry<S>>) returns (r: Option<World<S>>)
    ensures r == Collect(visible, map[])
  {
    var desired: World<S> := map[];
    for i := 0 to |visible|
      invariant Collect(visible[i..], desired) == Collect(visible, map[])
    {
      assert visible[i..][0] == visible[i] && visible[i..][1..] == visible[i + 1..];
      if visible[i].entity in desired {
        return None;
      }
      desired := desired[visible[i].entity := visible[i].value];
    }
    r := Some(desired);
  }

  method DespawnsOf<S, D>(ids: seq<EntityId>, desired: World<S>) returns (events: seq<Event<S, D>>)
    ensures events == DespawnEvents(ids, desired)
  {
    events := [];
    for i := 0 to |ids|
      invariant DespawnEvents(ids, desired) == events + DespawnEvents(ids[i..], desired)
    {
      assert ids[i..][0] == ids[i] && ids[i..][1..] == ids[i + 1..];
      ghost var tail: seq<Event<S, D>> := DespawnEvents(ids[i + 1..], desired);
      if ids[i] !in desired {
        assert events + ([Despawn(ids[i])] + tail) == (events + [Despawn(ids[i])]) + tail;
        events := events + [Despawn(ids[i])];
      }
    }
  }

  method ChangesOf<S, D>(ids: seq<EntityId>, projected: World<S>, desired: World<S>, force: bool, encode: Encoder<S, D>)
    returns (r: Result<seq<Event<S, D>>, Error>)
    requires forall e :: e in ids ==> e in desired
    ensures r == ChangeEvents(ids, projected, desired, force, encode)
  {
    hide ChangeFor;
    var events: seq<Event<S, D>> := [];
    var i := 0;
    PrependNone(ChangeEvents(ids, projected, desired, force, encode));
    assert ids[0..] == ids;
    while i < |ids|
      invariant 0 <= i <= |ids|
      invariant ChangeEvents(ids, projected, desired, force, encode)
             == Prepend(events, ChangeEvents(ids[i..], projected, desired, force, encode))
    {
      assert ids[i..][0] == ids[i] && ids[i..][1..] == ids[i + 1..];
      var change := ChangeFor(ids[i], projected, desired[ids[i]], force, encode);
      if change.Err? {
        return Err(change.error);
      }
      if change.value.Some? {
        PrependOne(events, change.value.value, ChangeEvents(ids[i + 1..], projected, desired, force, encode));
        events := events + [change.value.value];
      }
      i := i + 1;
    }
    assert ids[i..] == [] && events + [] == events;
    r := Ok(events);
  }

  ghost function Prepend<S, D>(
      events: seq<Event<S, D>>, r: Result<seq<Event<S, D>>, Error>): Result<seq<Event<S, D>>, Error>
  {
    if r.Err? then r else Ok(events + r.value)
  }

  lemma PrependNone<S, D>(r: Result<seq<Event<S, D>>, Error>)
    ensures Prepend([], r) == r
  {
    if r.Ok? {
      assert [] + r.value == r.value;
    }
  }

  lemma PrependOne<S, D>(events: seq<Event<S, D>>, e: Event<S, D>, r: Result<seq<Event<S, D>>, Error>)
    ensures Prepend(events + [e], r) == Prepend(events, if r.Err? then r else Ok([e] + r.value))
  {
    if r.Ok? {
      assert (events + [e]) + r.value == events + ([e] + r.value);
    }
  }

  method Batches<S, D>(events: seq<Event<S, D>>, size: nat, first: nat, tick: nat) returns (batches: seq<Batch<S, D>>)
    requires 0 < size
    ensures batches == Chunk(events, size, first, tick)
  {
    batches := [];
    var rest, sequence := events, first;
    while rest != []
      invariant Chunk(events, size, first, tick) == batches + Chunk(rest, size, sequence, tick)
      decreases |rest|
    {
      var take := if |rest| <= size then |rest| else size;
      assert take == |rest| ==> rest[..take] == rest && rest[take..] == [];
      ghost var tail: seq<Batch<S, D>> := Chunk(rest[take..], size, sequence + 1, tick);
      assert batches + ([Batch(sequence, tick, rest[..take])] + tail) ==
          (batches + [Batch(sequence, tick, rest[..take])]) + tail;
      batches := batches + [Batch(sequence, tick, rest[..take])];
      rest, sequence := rest[take..], sequence + 1;
    }
  }

  /** What every sender keeps about its own numbering. */
  ghost predicate ValidSender<S, D>(c: Config, s: Sender<S, D>) {
    && 0 < s.nextSequence <= U64_MAX
    && s.acknowledged + |s.pending| + 1 == s.nextSequence
    && |s.pending| <= c.historyCapacity
    && (forall i :: 0 <= i < |s.pending| ==> s.pending[i].sequence == s.acknowledged + 1 + i)
    && |s.projected| <= c.maxEntities
  }

  class ReplicationSender<S(!new), D(!new)> {
    const config: Config
    var nextSequence: nat
    var acknowledged: nat
    var lastTick: nat
    var projected: World<S>
    var pending: seq<Batch<S, D>>
    var force: bool

    function View(): Sender<S, D>
      reads this
    {
      Sender(nextSequence, acknowledged, lastTick, projected, pending, force)
    }

    ghost predicate Valid()
      reads this
    {
      ValidConfig(config) && ValidSender(config, View())
    }

    constructor (c: Config)
      requires ValidConfig(c)
      ensures Valid() && config == c
      ensures View() == Sender(1, 0, 0, map[], [], false)
    {
      config := c;
      nextSequence, acknowledged, lastTick, projected, pending, force := 1, 0, 0, map[], [], false;
    }

    /** Reconciles the visible set, or leaves the sender unchanged. */
    method Update(tick: nat, visible: seq<Entry<S>>, encode: Encoder<S, D>) returns (r: Result<nat, Error>)
      requires Valid()
      modifies this
      ensures Valid()
      ensures r.Err? ==>
          UpdateSender(config, old(View()), tick, visible, encode) == Err(r.error) && View() == old(View())
      ensures r.Ok? ==> UpdateSender(config, old(View()), tick, visible, encode) == Ok(View())
      ensures r.Ok? ==> r.value == nextSequence - old(nextSequence)
    {
      hide Diff, Chunk, Collect, ChangeEvents, DespawnEvents;
      if tick == 0 || tick <= lastTick {
        return Err(InvalidOrder);
      }
      var collected := CollectVisible(visible);
      if collected.None? {
        return Err(InvalidPacket(DuplicateVisible));
      }
      var desired := collected.value;
      if |desired| > config.maxEntities {
        return Err(EntityLimitExceeded);
      }
      var events := DiffOf(projected, desired, force, encode);
      if events.Err? {
        return Err(events.error);
      }
      var batchCount := DivCeil(|events.value|, config.maxEventsPerBatch);
      ChunkCount(events.value, config.maxEventsPerBatch, nextSequence, tick);
      if |pending| + batchCount > config.historyCapacity {
        return Err(HistoryFull);
      }
      if nextSequence + batchCount > U64_MAX {
        return Err(SequenceExhausted);
      }
      var batches := Batches(events.value, config.maxEventsPerBatch, nextSequence, tick);
      pending := pending + batches;
      nextSequence := nextSequence + batchCount;
      lastTick, projected, force := tick, desired, false;
      r := Ok(batchCount);
    }

    /** Applies a cumulative acknowledgement and releases exactly the batches it covers. */
    method Acknowledge(ack: Ack) returns (r: Result<nat, Error>)
      requires Valid()
      modifies this
      ensures Valid()
      ensures r.Err? ==> AcknowledgeSender(old(View()), ack) == Err(r.error) && View() == old(View())
      ensures r.Ok? ==> AcknowledgeSender(old(View()), ack) == Ok(Acked(View(), r.value))
    {
      if ack.sequence + 1 > nextSequence {
        return Err(InvalidAcknowledgement);
      }
      if ack.sequence <= acknowledged {
        return Ok(0);
      }
      var expected := TickOf(pending, ack.sequence);
      if expected != Some(ack.tick) {
        return Err(InvalidAcknowledgement);
      }
      DropThroughRetained(config, View(), ack.sequence);
      var before := |pending|;
      acknowledged := ack.sequence;
      while pending != [] && pending[0].sequence <= acknowledged
        invariant acknowledged == ack.sequence
        invariant DropThrough(BatchSequence, pending, ack.sequence) ==
            DropThrough(BatchSequence, old(pending), ack.sequence)
        invariant View() == old(View()).(acknowledged := ack.sequence, pending := pending)
        decreases |pending|
      {
        pending := pending[1..];
      }
      r := Ok(before - |pending|);
    }

    method ForceKeyframes()
      requires Valid()
      modifies this`force
      ensures Valid() && View() == old(View()).(force := true)
    {
      force := true;
    }

    /** Builds the next redundant packet without changing the sender. */
    method BuildPacket() returns (p: Packet<S, D>)
      requires Valid()
      ensures p == PacketOf(config, View())
    {
      if |pending| <= config.redundancy {
        return Packet(pending);
      }
      var selected := [pending[0]];
      var from := |pending| - (config.redundancy - 1);
      for index := from to |pending|
        invariant selected == [pending[0]] + pending[from..index]
      {
        selected := selected + [pending[index]];
      }
      assert pending[from..|pending|] == pending[from..];
      p := Packet(selected);
    }
  }

  method DiffOf<S, D>(projected: World<S>, desired: World<S>, force: bool, encode: Encoder<S, D>)
    returns (r: Result<seq<Event<S, D>>, Error>)
    ensures r == Diff(projected, desired, force, encode)
  {
    hide SortedIds, ChangeEvents, DespawnEvents;
    var gone := KeysInOrder(projected.Keys);
    var despawns: seq<Event<S, D>> := DespawnsOf(gone, desired);
    var present := KeysInOrder(desired.Keys);
    var changes := ChangesOf(present, projected, desired, force, encode);
    if changes.Err? {
      return changes;
    }
    r := Ok(despawns + changes.value);
  }

  method TickOf<S, D>(pending: seq<Batch<S, D>>, sequence: nat) returns (r: Option<nat>)
    ensures r == FindTick(pending, sequence)
  {
    for i := 0 to |pending|
      invariant FindTick(pending, sequence) == FindTick(pending[i..], sequence)
    {
      assert pending[i..][0] == pending[i] && pending[i..][1..] == pending[i + 1..];
      if pending[i].sequence == sequence {
        return Some(pending[i].tick);
      }
    }
    r := None;
  }

  // ---------------------------------------------------------------- facts about retained batches

  /** In a consecutively numbered history the batch is found at its own offset, or nowhere. */
  lemma {:induction false} FindTickAt<S, D>(pending: seq<Batch<S, D>>, base: nat, sequence: nat)
    requires forall i :: 0 <= i < |pending| ==> pending[i].sequence == base + 1 + i
    ensures FindTick(pending, sequence) ==
            if base < sequence <= base + |pending| then Some(pending[sequence - base - 1].tick) else None
    decreases |pending|
  {
    if pending != [] && pending[0].sequence != sequence {
      FindTickAt(pending[1..], base + 1, sequence);
    }
  }

  /** Popping through an acknowledged sequence leaves exactly the batches after it. */
  lemma DropThroughRetained<S, D>(c: Config, s: Sender<S, D>, sequence: nat)
    requires ValidSender(c, s)
    requires s.acknowledged < sequence < s.nextSequence
    ensures var rest := DropThrough(BatchSequence, s.pending, sequence);
            && rest == s.pending[sequence - s.acknowledged..]
            && ValidSender(c, s.(acknowledged := sequence, pending := rest))
  {
    DropThroughAt(BatchSequence, s.pending, s.acknowledged, sequence);
  }
}
