/** Meaning of a reconciliation: replaying its events turns any copy of the previously
    projected set into a copy of the newly visible one, without ever being refused. */
module ReplicationDiff {
  import opened Common
  import opened ReplicationProtocol
  import opened ReplicationSenders

  // ---------------------------------------------------------------- application contracts

  /** What the application promises about one reconciliation: a delta it encodes decodes to
      the current state, and an entity whose version did not move did not change either
      (such an entity emits no event unless keyframes are forced). */
  ghost predicate EntityContract<S, D>(
      decode: Decoder<S, D>, e: EntityId, previous: Versioned<S>, current: Versioned<S>, force: bool,
      encode: Encoder<S, D>)
  {
    if force then true
    else if current.version == previous.version then current.state == previous.state
    else encode(e, previous, current).Some? ==>
        decode(e, previous.state, encode(e, previous, current).value) == Some(current.state)
  }

  ghost predicate UpdateContract<S, D>(
      decode: Decoder<S, D>, projected: World<S>, desired: World<S>, force: bool, encode: Encoder<S, D>)
  {
    forall e :: e in projected && e in desired ==> EntityContract(decode, e, projected[e], desired[e], force, encode)
  }

  ghost predicate SameEntity<S>(a: Versioned<S>, b: Versioned<S>) {
    a.version == b.version && a.state == b.state
  }

  // ---------------------------------------------------------------- despawns come first

  ghost function Gone<S>(ids: seq<EntityId>, desired: World<S>): set<EntityId> {
    set e | e in ids && e !in desired
  }

  ghost predicate Distinct(ids: seq<EntityId>) {
    forall i, j :: 0 <= i < j < |ids| ==> ids[i] != ids[j]
  }

  lemma GoneStep<S>(ids: seq<EntityId>, desired: World<S>, w: World<S>, affected: set<EntityId>)
    requires ids != []
    ensures ids[0] in desired ==> Gone(ids, desired) == Gone(ids[1..], desired)
    ensures ids[0] !in desired ==> (w - {ids[0]}) - Gone(ids[1..], desired) == w - Gone(ids, desired)
    ensures ids[0] !in desired ==> (affected + {ids[0]}) + Gone(ids[1..], desired) == affected + Gone(ids, desired)
  {
    assert forall e :: e in ids <==> e == ids[0] || e in ids[1..];
    if ids[0] !in desired {
      assert Gone(ids, desired) == Gone(ids[1..], desired) + {ids[0]};
    }
  }

  /** Replaying the removals leaves exactly the entities that stay visible. */
  lemma {:induction false} DespawnsApply<S, D>(
      max: nat, decode: Decoder<S, D>, w: World<S>, ids: seq<EntityId>, desired: World<S>,
      rest: seq<Event<S, D>>, affected: set<EntityId>)
    requires Distinct(ids)
    requires forall e :: e in ids ==> e in w && e !in affected
    ensures ApplyEvents(max, decode, w, DespawnEvents(ids, desired) + rest, affected)
         == ApplyEvents(max, decode, w - Gone(ids, desired), rest, affected + Gone(ids, desired))
    decreases |ids|
  {
    hide ApplyEvents, Distinct;
    var events: seq<Event<S, D>> := DespawnEvents(ids, desired);
    if ids == [] {
      assert events + rest == rest;
      assert Gone(ids, desired) == {};
      assert w - Gone(ids, desired) == w && affected + Gone(ids, desired) == affected;
    } else {
      hide Gone;
      var e, tail := ids[0], ids[1..];
      DistinctTail(ids);
      GoneStep(ids, desired, w, affected);
      if e in desired {
        DespawnsApply(max, decode, w, tail, desired, rest, affected);
      } else {
        var more: seq<Event<S, D>> := DespawnEvents(tail, desired);
        assert events + rest == [Despawn(e)] + (more + rest);
        DespawnOne(max, decode, w, e, more + rest, affected);
        DespawnsApply(max, decode, w - {e}, tail, desired, rest, affected + {e});
      }
    }
  }

  lemma DistinctTail(ids: seq<EntityId>)
    requires ids != [] && Distinct(ids)
    ensures Distinct(ids[1..]) && ids[0] !in ids[1..]
    ensures forall e :: e in ids[1..] ==> e in ids && e != ids[0]
  {
  }

  lemma ApplyFirst<S, D>(
      max: nat, decode: Decoder<S, D>, w: World<S>, event: Event<S, D>, next: World<S>, rest: seq<Event<S, D>>,
      affected: set<EntityId>)
    requires event.entity !in affected
    requires ApplyEvent(max, decode, w, event) == Ok(next)
    ensures ApplyEvents(max, decode, w, [event] + rest, affected) ==
        ApplyEvents(max, decode, next, rest, affected + {event.entity})
  {
    hide ApplyEvent;
    assert ([event] + rest)[1..] == rest;
  }

  lemma DespawnOne<S, D>(
      max: nat, decode: Decoder<S, D>, w: World<S>, e: EntityId, rest: seq<Event<S, D>>, affected: set<EntityId>)
    requires e in w && e !in affected
    ensures ApplyEvents(max, decode, w, [Despawn(e)] + rest, affected) ==
        ApplyEvents(max, decode, w - {e}, rest, affected + {e})
  {
    ApplyFirst(max, decode, w, Despawn(e), w - {e}, rest, affected);
  }

  // ---------------------------------------------------------------- visible entities, one by one

  /** Entities in `ids` are still as projected; all other desired ones are as desired already. */
  ghost predicate Midway<S>(w: World<S>, projected: World<S>, desired: World<S>, ids: seq<EntityId>) {
    && w.Keys <= desired.Keys
    && (forall e :: e in desired && e in ids ==> (e in w <==> e in projected))
    && (forall e :: e in w && e in ids ==> SameEntity(w[e], projected[e]))
    && (forall e :: e in desired && e !in ids ==> e in w && SameEntity(w[e], desired[e]))
  }

  /** One visible entity: applying its event (if any) brings it from its projected to its desired value. */
  lemma ChangeOne<S, D>(
      max: nat, decode: Decoder<S, D>, w: World<S>, e: EntityId, projected: World<S>, current: Versioned<S>,
      force: bool, encode: Encoder<S, D>)
    returns (v: Versioned<S>)
    requires |w| < max || e in w
    requires e in w <==> e in projected
    requires e in w ==> SameEntity(w[e], projected[e])
    requires e in projected ==> EntityContract(decode, e, projected[e], current, force, encode)
    requires ChangeFor(e, projected, current, force, encode).Ok?
    ensures SameEntity(v, current)
    ensures var event := ChangeFor(e, projected, current, force, encode).value;
            if event.None? then e in w && w[e] == v
            else event.value.entity == e && ApplyEvent(max, decode, w, event.value) == Ok(w[e := v])
  {
    var event := ChangeFor(e, projected, current, force, encode).value;
    if event.None? {
      v := w[e];
    } else if event.value.Update? {
      v := Versioned(current.version, w[e].key, current.state);
    } else {
      v := current;
    }
  }

  lemma MidwayStep<S>(w: World<S>, v: Versioned<S>, projected: World<S>, desired: World<S>, ids: seq<EntityId>)
    requires ids != [] && Distinct(ids)
    requires ids[0] in desired
    requires Midway(w, projected, desired, ids)
    requires SameEntity(v, desired[ids[0]])
    ensures Midway(w[ids[0] := v], projected, desired, ids[1..])
  {
    var e := ids[0];
    assert forall x :: x in ids <==> x == e || x in ids[1..];
    assert e !in ids[1..];
  }

  lemma MidwayAt<S>(w: World<S>, projected: World<S>, desired: World<S>, ids: seq<EntityId>)
    requires ids != [] && ids[0] in desired
    requires Midway(w, projected, desired, ids)
    ensures ids[0] in w <==> ids[0] in projected
    ensures ids[0] in w ==> SameEntity(w[ids[0]], projected[ids[0]])
  {
    assert ids[0] in ids;
  }

  lemma MidwayDone<S>(w: World<S>, projected: World<S>, desired: World<S>)
    requires Midway(w, projected, desired, [])
    ensures SameView(w, desired)
  {
  }

  lemma RoomForMore<S>(max: nat, w: World<S>, projected: World<S>, desired: World<S>, ids: seq<EntityId>)
    requires ids != [] && ids[0] in desired
    requires |desired| <= max
    requires Midway(w, projected, desired, ids)
    ensures |w| < max || ids[0] in w
  {
    if ids[0] !in w {
      SubsetSize(w.Keys, desired.Keys);
    }
  }

  /** Replaying the changes of the remaining visible entities completes the desired set. */
  lemma {:induction false} ChangesApply<S, D>(
      max: nat, decode: Decoder<S, D>, w: World<S>, ids: seq<EntityId>, projected: World<S>, desired: World<S>,
      force: bool, encode: Encoder<S, D>, affected: set<EntityId>)
    requires Distinct(ids)
    requires forall e :: e in ids ==> e in desired && e !in affected
    requires |desired| <= max
    requires Midway(w, projected, desired, ids)
    requires UpdateContract(decode, projected, desired, force, encode)
    requires ChangeEvents(ids, projected, desired, force, encode).Ok?
    ensures var r := ApplyEvents(max, decode, w, ChangeEvents(ids, projected, desired, force, encode).value, affected);
            r.Ok? && SameView(r.value, desired)
    decreases |ids|
  {
    hide ChangeFor, ApplyEvent, ApplyEvents, Distinct, Midway, SameView, EntityContract;
    if ids == [] {
      MidwayDone(w, projected, desired);
      ApplyNone(max, decode, w, [], affected);
    } else {
      var e, tail := ids[0], ids[1..];
      DistinctTail(ids);
      RoomForMore(max, w, projected, desired, ids);
      MidwayAt(w, projected, desired, ids);
      var v := ChangeOne(max, decode, w, e, projected, desired[e], force, encode);
      var change := ChangeFor(e, projected, desired[e], force, encode).value;
      MidwayStep(w, v, projected, desired, ids);
      if change.None? {
        assert w[e := v] == w;
        ChangesApply(max, decode, w, tail, projected, desired, force, encode, affected);
      } else {
        ChangesApply(max, decode, w[e := v], tail, projected, desired, force, encode, affected + {e});
        var rest := ChangeEvents(tail, projected, desired, force, encode).value;
        ApplyFirst(max, decode, w, change.value, w[e := v], rest, affected);
      }
    }
  }

  // ---------------------------------------------------------------- the whole reconciliation

  lemma KeptMidway<S>(w: World<S>, projected: World<S>, desired: World<S>, before: seq<EntityId>, after: seq<EntityId>)
    requires SameView(w, projected)
    requires forall e :: e in before <==> e in projected
    requires forall e :: e in after <==> e in desired
    ensures Midway(w - Gone(before, desired), projected, desired, after)
    ensures forall e :: e in after ==> e !in Gone(before, desired)
  {
  }

  /** Replaying a reconciliation on any copy of the projected set is never refused and
      yields a copy of the visible set, whatever mixture of events it chose. */
  lemma DiffApplies<S, D>(
      max: nat, decode: Decoder<S, D>, w: World<S>, projected: World<S>, desired: World<S>, force: bool,
      encode: Encoder<S, D>)
    requires SameView(w, projected)
    requires |desired| <= max
    requires UpdateContract(decode, projected, desired, force, encode)
    requires Diff(projected, desired, force, encode).Ok?
    ensures var r := ApplyEvents(max, decode, w, Diff(projected, desired, force, encode).value, {});
            r.Ok? && SameView(r.value, desired)
  {
    hide ApplyEvents, ChangeEvents, DespawnEvents, SortedIds, UpdateContract, Midway;
    var before, after := SortedIds(projected.Keys), SortedIds(desired.Keys);
    SortedIdsIncreasing(projected.Keys);
    SortedIdsIncreasing(desired.Keys);
    var changes := ChangeEvents(after, projected, desired, force, encode).value;
    var gone := Gone(before, desired);
    DespawnsApply(max, decode, w, before, desired, changes, {});
    assert {} + gone == gone;
    KeptMidway(w, projected, desired, before, after);
    ChangesApply(max, decode, w - gone, after, projected, desired, force, encode, gone);
  }

  // ---------------------------------------------------------------- the contract is also necessary

  /** Events about other entities leave an entity alone. */
  lemma {:induction false} Untouched<S, D>(
      max: nat, decode: Decoder<S, D>, w: World<S>, es: seq<Event<S, D>>, affected: set<EntityId>, e: EntityId)
    requires ApplyEvents(max, decode, w, es, affected).Ok?
    requires forall i :: 0 <= i < |es| ==> es[i].entity != e
    ensures var r := ApplyEvents(max, decode, w, es, affected).value;
            (e in r <==> e in w) && (e in r ==> r[e] == w[e])
    decreases |es|
  {
    if es != [] {
      var next := ApplyEvent(max, decode, w, es[0]).value;
      assert (e in next <==> e in w) && (e in next ==> next[e] == w[e]);
      hide ApplyEvent;
      Untouched(max, decode, next, es[1..], affected + {es[0].entity}, e);
    }
  }

  lemma {:induction false} ChangesAreAbout<S, D>(
      ids: seq<EntityId>, projected: World<S>, desired: World<S>, force: bool, encode: Encoder<S, D>)
    requires forall e :: e in ids ==> e in desired
    requires ChangeEvents(ids, projected, desired, force, encode).Ok?
    ensures var es := ChangeEvents(ids, projected, desired, force, encode).value;
            forall i :: 0 <= i < |es| ==> es[i].entity in ids
    decreases |ids|
  {
    if ids != [] {
      ChangesAreAbout(ids[1..], projected, desired, force, encode);
    }
  }

  /** If one entity's event produced its desired value, its contract was kept. */
  lemma OneNeedsContract<S, D>(
      max: nat, decode: Decoder<S, D>, w: World<S>, e: EntityId, projected: World<S>, current: Versioned<S>,
      force: bool, encode: Encoder<S, D>, after: World<S>)
    requires e in projected && e in w && SameEntity(w[e], projected[e])
    requires ChangeFor(e, projected, current, force, encode).Ok?
    requires var event := ChangeFor(e, projected, current, force, encode).value;
             if event.None? then after == w else ApplyEvent(max, decode, w, event.value) == Ok(after)
    requires e in after && SameEntity(after[e], current)
    ensures EntityContract(decode, e, projected[e], current, force, encode)
  {
  }

  lemma {:induction false} ChangesNeedContract<S, D>(
      max: nat, decode: Decoder<S, D>, w: World<S>, ids: seq<EntityId>, projected: World<S>, desired: World<S>,
      force: bool, encode: Encoder<S, D>, affected: set<EntityId>,
      e: EntityId)
    requires Distinct(ids)
    requires forall x :: x in ids ==> x in desired
    requires e in ids && e in projected && e in w && SameEntity(w[e], projected[e])
    requires ChangeEvents(ids, projected, desired, force, encode).Ok?
    requires var r := ApplyEvents(max, decode, w, ChangeEvents(ids, projected, desired, force, encode).value, affected);
             r.Ok? && e in r.value && SameEntity(r.value[e], desired[e])
    ensures EntityContract(decode, e, projected[e], desired[e], force, encode)
    decreases |ids|
  {
    hide ChangeFor, EntityContract, Distinct, ApplyEvents;
    DistinctTail(ids);
    var x, tail := ids[0], ids[1..];
    var change := ChangeFor(x, projected, desired[x], force, encode).value;
    var rest := ChangeEvents(tail, projected, desired, force, encode).value;
    ChangesAreAbout(tail, projected, desired, force, encode);
    var after, seen := w, affected;
    if change.Some? {
      ChangeIsAbout(x, projected, desired[x], force, encode);
      after := FirstOf(max, decode, w, change.value, rest, affected);
      seen := affected + {x};
    }
    if x == e {
      hide ApplyEvent;
      Untouched(max, decode, after, rest, seen, e);
      OneNeedsContract(max, decode, w, e, projected, desired[e], force, encode, after);
    } else {
      ChangesNeedContract(max, decode, after, tail, projected, desired, force, encode, seen, e);
    }
  }

  lemma ChangeIsAbout<S, D>(e: EntityId, projected: World<S>, current: Versioned<S>, force: bool, encode: Encoder<S, D>)
    requires ChangeFor(e, projected, current, force, encode).Ok?
    ensures var event := ChangeFor(e, projected, current, force, encode).value;
            event.Some? ==> event.value.entity == e
  {
  }

  lemma FirstOf<S, D>(
      max: nat, decode: Decoder<S, D>, w: World<S>, event: Event<S, D>, rest: seq<Event<S, D>>,
      affected: set<EntityId>)
    returns (next: World<S>)
    requires ApplyEvents(max, decode, w, [event] + rest, affected).Ok?
    ensures ApplyEvent(max, decode, w, event) == Ok(next)
    ensures ApplyEvents(max, decode, w, [event] + rest, affected) ==
        ApplyEvents(max, decode, next, rest, affected + {event.entity})
    ensures forall e :: e != event.entity ==> (e in next <==> e in w) && (e in next ==> next[e] == w[e])
  {
    assert ([event] + rest)[1..] == rest;
    next := ApplyEvent(max, decode, w, event).value;
  }

  /** The exact condition: replaying a reconciliation on a copy of the projected set yields
      a copy of the visible set if and only if the application kept its contracts. */
  lemma DiffMeansContract<S, D>(
      max: nat, decode: Decoder<S, D>, w: World<S>, projected: World<S>, desired: World<S>, force: bool,
      encode: Encoder<S, D>)
    requires SameView(w, projected)
    requires |desired| <= max
    requires Diff(projected, desired, force, encode).Ok?
    ensures var r := ApplyEvents(max, decode, w, Diff(projected, desired, force, encode).value, {});
            (r.Ok? && SameView(r.value, desired)) <==> UpdateContract(decode, projected, desired, force, encode)
  {
    hide ApplyEvents, ChangeEvents, DespawnEvents, SortedIds, EntityContract, Midway;
    var r := ApplyEvents(max, decode, w, Diff(projected, desired, force, encode).value, {});
    if UpdateContract(decode, projected, desired, force, encode) {
      DiffApplies(max, decode, w, projected, desired, force, encode);
    }
    if r.Ok? && SameView(r.value, desired) {
      var before, after := SortedIds(projected.Keys), SortedIds(desired.Keys);
      SortedIdsIncreasing(projected.Keys);
      SortedIdsIncreasing(desired.Keys);
      var gone := Gone(before, desired);
      DespawnsApply(max, decode, w, before, desired, ChangeEvents(after, projected, desired, force, encode).value, {});
      assert {} + gone == gone;
      forall e | e in projected && e in desired
        ensures EntityContract(decode, e, projected[e], desired[e], force, encode)
      {
        ChangesNeedContract(max, decode, w - gone, after, projected, desired, force, encode, gone, e);
      }
    }
  }

  // ---------------------------------------------------------------- batching keeps the meaning

  lemma {:induction false} FewerAffected<S, D>(
      max: nat, decode: Decoder<S, D>, w: World<S>, es: seq<Event<S, D>>, affected: set<EntityId>,
      fewer: set<EntityId>)
    requires fewer <= affected
    requires ApplyEvents(max, decode, w, es, affected).Ok?
    ensures ApplyEvents(max, decode, w, es, fewer) == ApplyEvents(max, decode, w, es, affected)
    decreases |es|
  {
    hide ApplyEvent;
    if es != [] {
      var next := ApplyEvent(max, decode, w, es[0]).value;
      FewerAffected(max, decode, next, es[1..], affected + {es[0].entity}, fewer + {es[0].entity});
    }
  }

  /** An event sequence that applies can be cut anywhere into two batches. */
  lemma {:induction false} CutEvents<S, D>(
      max: nat, decode: Decoder<S, D>, w: World<S>, es: seq<Event<S, D>>, k: nat, affected: set<EntityId>)
    requires k <= |es|
    requires ApplyEvents(max, decode, w, es, affected).Ok?
    ensures var head := ApplyEvents(max, decode, w, es[..k], affected);
            && head.Ok?
            && ApplyEvents(max, decode, head.value, es[k..], {}) == ApplyEvents(max, decode, w, es, affected)
    decreases |es|
  {
    hide ApplyEvent;
    if k == 0 {
      assert es[k..] == es && es[..k] == [];
      FewerAffected(max, decode, w, es, affected, {});
    } else {
      var next := ApplyEvent(max, decode, w, es[0]).value;
      CutEvents(max, decode, next, es[1..], k - 1, affected + {es[0].entity});
      assert es[..k][0] == es[0] && es[..k][1..] == es[1..][..k - 1] && es[1..][k - 1..] == es[k..];
    }
  }

  /** Chunking a reconciliation into batches does not change what it does. */
  lemma {:induction false} ChunksApply<S, D>(
      max: nat, decode: Decoder<S, D>, w: World<S>, es: seq<Event<S, D>>, size: nat, first: nat, tick: nat)
    requires 0 < size
    requires ApplyEvents(max, decode, w, es, {}).Ok?
    ensures ApplyLog(max, decode, w, Chunk(es, size, first, tick)) == ApplyEvents(max, decode, w, es, {})
    decreases |es|
  {
    hide ApplyEvents;
    if es == [] {
      ApplyNone(max, decode, w, es, {});
    } else if |es| <= size {
      var log := Chunk(es, size, first, tick);
      assert log == [Batch(first, tick, es)];
      assert log[1..] == [];
    } else {
      var log := Chunk(es, size, first, tick);
      CutEvents(max, decode, w, es, size, {});
      var mid := ApplyEvents(max, decode, w, es[..size], {}).value;
      ChunksApply(max, decode, mid, es[size..], size, first + 1, tick);
      assert log[0].events == es[..size] && log[1..] == Chunk(es[size..], size, first + 1, tick);
    }
  }

  lemma ApplyNone<S, D>(max: nat, decode: Decoder<S, D>, w: World<S>, es: seq<Event<S, D>>, affected: set<EntityId>)
    requires es == []
    ensures ApplyEvents(max, decode, w, es, affected) == Ok(w)
  {
  }
}
