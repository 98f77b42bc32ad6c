/** Entity replication vocabulary, and the reference semantics of an event stream:
    applying events one by one to the observer's entity map. */
module ReplicationProtocol {
  import opened Common

  type EntityId = nat
  type PredictionKey = nat

  datatype Config = Config(
    historyCapacity: nat,
    redundancy: nat,
    maxEventsPerBatch: nat,
    maxEntities: nat,
    reorderWindow: nat)

  /** The bounds `ReplicationConfig::validate` enforces; the last one is what makes every
      retained batch fit the receiver's reorder window. */
  predicate ValidConfig(c: Config) {
    && 0 < c.historyCapacity
    && 0 < c.redundancy <= c.historyCapacity
    && 0 < c.maxEventsPerBatch
    && 0 < c.maxEntities
    && 0 < c.reorderWindow
    && c.historyCapacity <= c.reorderWindow
  }

  datatype PacketFault =
    | TooManyBatches
    | InvalidBatch
    | SequenceBeyondWindow
    | MissingPayload
    | EntityChangedTwice
    | SpawnedExists
    | DespawnedMissing
    | DuplicateVisible

  datatype Error =
    | InvalidConfig
    | InvalidOrder
    | InvalidPacket(fault: PacketFault)
    | HistoryFull
    | SequenceExhausted
    | InvalidAcknowledgement
    | EntityLimitExceeded
    | VersionRegression
    | BaselineMismatch
    | DeltaRejected

  datatype Versioned<S> = Versioned(version: nat, key: Option<PredictionKey>, state: S)

  type World<S> = map<EntityId, Versioned<S>>

  datatype Event<S, D> =
    | Spawn(entity: EntityId, version: nat, key: Option<PredictionKey>, state: S)
    | Despawn(entity: EntityId)
    | Update(entity: EntityId, baseVersion: nat, version: nat, delta: D)
    | Keyframe(entity: EntityId, version: nat, key: Option<PredictionKey>, state: S)

  datatype Batch<S, D> = Batch(sequence: nat, tick: nat, events: seq<Event<S, D>>)

  function BatchSequence<S, D>(b: Batch<S, D>): nat {
    b.sequence
  }

  datatype Packet<S, D> = Packet(batches: seq<Batch<S, D>>)

  datatype Ack = Ack(sequence: nat, tick: nat)

  /** Decodes a delta against the current full state; `None` rejects it. */
  type Decoder<!S, !D> = (EntityId, S, D) -> Option<S>

  /** Encodes the change between two versions; `None` asks for a keyframe. */
  type Encoder<!S, !D> = (EntityId, Versioned<S>, Versioned<S>) -> Option<D>

  // ---------------------------------------------------------------- reference semantics

  function ApplyEvent<S, D>(max: nat, decode: Decoder<S, D>, w: World<S>, e: Event<S, D>): (r: Result<World<S>, Error>)
    ensures r.Ok? && |w| <= max ==> |r.value| <= max
  {
    match e
    case Spawn(entity, version, key, state) =>
      if entity in w then Err(InvalidPacket(SpawnedExists))
      else if |w| >= max then Err(EntityLimitExceeded)
      else Ok(w[entity := Versioned(version, key, state)])
    case Despawn(entity) =>
      if entity !in w then Err(InvalidPacket(DespawnedMissing))
      else assert (w - {entity}).Keys == w.Keys - {entity}; Ok(w - {entity})
    case Update(entity, baseVersion, version, delta) =>
      if entity !in w then Err(BaselineMismatch)
      else if w[entity].version != baseVersion || version <= baseVersion then Err(BaselineMismatch)
      else
        var decoded := decode(entity, w[entity].state, delta);
        if decoded.None? then Err(DeltaRejected)
        else
          var next := w[entity := Versioned(version, w[entity].key, decoded.value)];
          assert next.Keys == w.Keys;
          Ok(next)
    case Keyframe(entity, version, key, state) =>
      if entity !in w && |w| >= max then Err(EntityLimitExceeded)
      else
        assert entity in w ==> w[entity := Versioned(version, key, state)].Keys == w.Keys;
        Ok(w[entity := Versioned(version, key, state)])
  }

  /** Applies the events of one batch in order; `affected` are the entities that earlier
      events of the batch already changed. */
  function ApplyEvents<S, D>(
      max: nat, decode: Decoder<S, D>, w: World<S>, es: seq<Event<S, D>>, affected: set<EntityId>)
    : (r: Result<World<S>, Error>)
    ensures r.Ok? && |w| <= max ==> |r.value| <= max
    decreases |es|
  {
    if es == [] then Ok(w)
    else if es[0].entity in affected then Err(InvalidPacket(EntityChangedTwice))
    else
      match ApplyEvent(max, decode, w, es[0])
      case Err(error) => Err(error)
      case Ok(next) => ApplyEvents(max, decode, next, es[1..], affected + {es[0].entity})
  }

  function ApplyBatch<S, D>(max: nat, decode: Decoder<S, D>, w: World<S>, b: Batch<S, D>): (r: Result<World<S>, Error>)
    ensures r.Ok? && |w| <= max ==> |r.value| <= max
  {
    ApplyEvents(max, decode, w, b.events, {})
  }

  /** Applies whole batches in order. */
  function ApplyLog<S, D>(
      max: nat, decode: Decoder<S, D>, w: World<S>, log: seq<Batch<S, D>>): (r: Result<World<S>, Error>)
    ensures r.Ok? && |w| <= max ==> |r.value| <= max
    decreases |log|
  {
    if log == [] then Ok(w)
    else
      match ApplyBatch(max, decode, w, log[0])
      case Err(error) => Err(error)
      case Ok(next) => ApplyLog(max, decode, next, log[1..])
  }

  lemma {:induction false} ApplyLogConcat<S, D>(
      max: nat, decode: Decoder<S, D>, w: World<S>, a: seq<Batch<S, D>>, b: seq<Batch<S, D>>)
    ensures ApplyLog(max, decode, w, a + b) ==
            match ApplyLog(max, decode, w, a)
            case Err(error) => Err(error)
            case Ok(mid) => ApplyLog(max, decode, mid, b)
    decreases |a|
  {
    hide ApplyBatch;
    if a == [] {
      assert a + b == b;
    } else {
      assert (a + b)[0] == a[0] && (a + b)[1..] == a[1..] + b;
      var r := ApplyBatch(max, decode, w, a[0]);
      if r.Ok? {
        ApplyLogConcat(max, decode, r.value, a[1..], b);
      }
    }
  }

  // ---------------------------------------------------------------- visible equivalence

  /** Two entity maps agree for an observer: same entities, versions and states. The
      prediction key is outside the comparison because a delta update keeps the old one. */
  ghost predicate SameView<S>(a: World<S>, b: World<S>) {
    && a.Keys == b.Keys
    && forall e :: e in a ==> a[e].version == b[e].version && a[e].state == b[e].state
  }
}
