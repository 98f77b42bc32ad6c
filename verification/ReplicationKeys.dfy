/** What each issued event says, and where an observer's prediction keys come from: a full
    state carries the key, a delta keeps the old one. */
module ReplicationKeys {
  import opened Common
  import opened ReplicationProtocol
  import opened ReplicationSenders
  import opened ReplicationDiff
  import opened ReplicationUpdates
  import opened ReplicationSystem

  // ---------------------------------------------------------------- what a reconciliation says

  /** A delta describes the change: not forced, another version, and the encoder offers one. */
  predicate ByDelta<S, D>(
      projected: World<S>, current: Versioned<S>, force: bool, encode: Encoder<S, D>, e: EntityId)
    requires e in projected
  {
    !force && projected[e].version != current.version && encode(e, projected[e], current).Some?
  }

  /** The event is the right one for its entity: a removal of what is gone, the visible entry in
      full for what is new, forced or without a delta, and the encoder's delta otherwise. */
  ghost predicate RightEvent<S, D>(
      event: Event<S, D>, projected: World<S>, desired: World<S>, force: bool, encode: Encoder<S, D>)
  {
    match event
    case Despawn(e) => e in projected && e !in desired
    case Spawn(e, version, key, state) =>
      e !in projected && e in desired && desired[e] == Versioned(version, key, state)
    case Keyframe(e, version, key, state) =>
      && e in projected && e in desired && desired[e] == Versioned(version, key, state)
      && Needs(projected, desired[e], force, e) && !ByDelta(projected, desired[e], force, encode, e)
    case Update(e, baseVersion, version, delta) =>
      && e in projected && e in desired && ByDelta(projected, desired[e], force, encode, e)
      && baseVersion == projected[e].version && version == desired[e].version
      && encode(e, projected[e], desired[e]) == Some(delta)
  }

  ghost predicate AllRight<S, D>(
      es: seq<Event<S, D>>, projected: World<S>, desired: World<S>, force: bool, encode: Encoder<S, D>)
  {
    forall i :: 0 <= i < |es| ==> RightEvent(es[i], projected, desired, force, encode)
  }

  ghost function About<S, D>(es: seq<Event<S, D>>): set<EntityId> {
    set i | 0 <= i < |es| :: es[i].entity
  }

  lemma AboutSplit<S, D>(first: Event<S, D>, rest: seq<Event<S, D>>)
    ensures About([first] + rest) == {first.entity} + About(rest)
  {
    var es := [first] + rest;
    forall e
      ensures e in About(es) <==> e == first.entity || e in About(rest)
    {
      if e in About(es) {
        var i :| 0 <= i < |es| && es[i].entity == e;
        assert i > 0 ==> rest[i - 1].entity == e;
      }
      if e in About(rest) {
        var i :| 0 <= i < |rest| && rest[i].entity == e;
        assert es[i + 1].entity == e;
      }
      assert es[0].entity == first.entity;
    }
  }

  lemma {:induction false} DespawnsAbout<S, D>(
      ids: seq<EntityId>, projected: World<S>, desired: World<S>, force: bool, encode: Encoder<S, D>)
    requires forall e :: e in ids ==> e in projected
    ensures AllRight(DespawnEvents(ids, desired), projected, desired, force, encode)
    ensures About<S, D>(DespawnEvents(ids, desired)) == Gone(ids, desired)
    decreases |ids|
  {
    if ids == [] {
      assert About<S, D>([]) == {};
    } else {
      DespawnsAbout(ids[1..], projected, desired, force, encode);
      assert forall e :: e in ids <==> e == ids[0] || e in ids[1..];
      var rest: seq<Event<S, D>> := DespawnEvents(ids[1..], desired);
      if ids[0] in desired {
        assert Gone(ids, desired) == Gone(ids[1..], desired);
      } else {
        AboutSplit(Despawn(ids[0]), rest);
        assert Gone(ids, desired) == {ids[0]} + Gone(ids[1..], desired);
      }
    }
  }

  lemma ChangeIsRight<S, D>(
      e: EntityId, projected: World<S>, desired: World<S>, force: bool, encode: Encoder<S, D>)
    requires e in desired && ChangeFor(e, projected, desired[e], force, encode).Ok?
    ensures var event := ChangeFor(e, projected, desired[e], force, encode).value;
            && (event.Some? <==> Needs(projected, desired[e], force, e))
            && (event.Some? ==> event.value.entity == e && RightEvent(event.value, projected, desired, force, encode))
  {
  }

  lemma {:induction false} ChangesAbout<S, D>(
      ids: seq<EntityId>, projected: World<S>, desired: World<S>, force: bool, encode: Encoder<S, D>)
    requires forall e :: e in ids ==> e in desired
    requires ChangeEvents(ids, projected, desired, force, encode).Ok?
    ensures var es := ChangeEvents(ids, projected, desired, force, encode).value;
            AllRight(es, projected, desired, force, encode) && About(es) == Touched(ids, projected, desired, force)
    decreases |ids|
  {
    hide ChangeFor, RightEvent, Needs;
    if ids == [] {
      assert About<S, D>([]) == {};
    } else {
      ChangesAbout(ids[1..], projected, desired, force, encode);
      ChangeIsRight(ids[0], projected, desired, force, encode);
      assert forall e :: e in ids <==> e == ids[0] || e in ids[1..];
      var rest := ChangeEvents(ids[1..], projected, desired, force, encode).value;
      var event := ChangeFor(ids[0], projected, desired[ids[0]], force, encode).value;
      if event.Some? {
        AboutSplit(event.value, rest);
        assert Touched(ids, projected, desired, force) == {ids[0]} + Touched(ids[1..], projected, desired, force);
      } else {
        assert Touched(ids, projected, desired, force) == Touched(ids[1..], projected, desired, force);
      }
    }
  }

  lemma AboutConcat<S, D>(a: seq<Event<S, D>>, b: seq<Event<S, D>>)
    ensures About(a + b) == About(a) + About(b)
  {
    forall e
      ensures e in About(a + b) <==> e in About(a) || e in About(b)
    {
      if e in About(a + b) {
        var i :| 0 <= i < |a + b| && (a + b)[i].entity == e;
        assert i < |a| ==> a[i].entity == e;
        assert i >= |a| ==> b[i - |a|].entity == e;
      }
      if e in About(a) {
        var i :| 0 <= i < |a| && a[i].entity == e;
        assert (a + b)[i].entity == e;
      }
      if e in About(b) {
        var i :| 0 <= i < |b| && b[i].entity == e;
        assert (a + b)[|a| + i].entity == e;
      }
    }
  }

  /** A reconciliation issues the right event for every entity gone or to be told about, each
      exactly once, and nothing else. */
  lemma DiffSaysExactly<S, D>(projected: World<S>, desired: World<S>, force: bool, encode: Encoder<S, D>)
    requires Diff(projected, desired, force, encode).Ok?
    ensures var es := Diff(projected, desired, force, encode).value;
            && AllRight(es, projected, desired, force, encode)
            && |es| == |About(es)|
            && (forall e :: e in About(es) <==>
                  (e in projected && e !in desired) || (e in desired && Needs(projected, desired[e], force, e)))
  {
    hide RightEvent, Needs, DespawnEvents, ChangeEvents, SortedIds, Distinct, AllRight, About, Gone, Touched;
    hide NoRegression;
    var gone, kept := SortedIds(projected.Keys), SortedIds(desired.Keys);
    DistinctSorted(projected.Keys);
    DistinctSorted(desired.Keys);
    DespawnsAbout(gone, projected, desired, force, encode);
    ChangesAbout(kept, projected, desired, force, encode);
    DespawnCount<S, D>(gone, desired);
    ChangeCount(kept, projected, desired, force, encode);
    var a: seq<Event<S, D>> := DespawnEvents(gone, desired);
    var b := ChangeEvents(kept, projected, desired, force, encode).value;
    AboutConcat(a, b);
    RightConcat(a, b, projected, desired, force, encode);
    WhoIsTold(gone, kept, projected, desired, force);
    DisjointSizes(About(a), About(b));
  }

  lemma RightConcat<S, D>(
      a: seq<Event<S, D>>, b: seq<Event<S, D>>, projected: World<S>, desired: World<S>, force: bool,
      encode: Encoder<S, D>)
    requires AllRight(a, projected, desired, force, encode) && AllRight(b, projected, desired, force, encode)
    ensures AllRight(a + b, projected, desired, force, encode)
  {
    hide RightEvent;
  }

  lemma WhoIsTold<S>(gone: seq<EntityId>, kept: seq<EntityId>, projected: World<S>, desired: World<S>, force: bool)
    requires forall e :: e in gone <==> e in projected
    requires forall e :: e in kept <==> e in desired
    ensures Gone(gone, desired) !! Touched(kept, projected, desired, force)
    ensures forall e :: e in Gone(gone, desired) <==> e in projected && e !in desired
    ensures forall e :: e in Touched(kept, projected, desired, force) <==>
              e in desired && Needs(projected, desired[e], force, e)
  {
    hide Needs;
  }

  lemma DisjointSizes(a: set<EntityId>, b: set<EntityId>)
    requires a !! b
    ensures |a + b| == |a| + |b|
  {
  }

  // ---------------------------------------------------------------- carried keys

  /** The key in the last full state sent for an entity. */
  ghost function CarriedKey<S, D>(es: seq<Event<S, D>>, e: EntityId): Option<Option<PredictionKey>> {
    if es == [] then None
    else
      var last := es[|es| - 1];
      if (last.Spawn? || last.Keyframe?) && last.entity == e then Some(last.key)
      else CarriedKey(es[..|es| - 1], e)
  }

  /** Every entity held has the key of the last full state sent for it. */
  ghost predicate KeysFrom<S, D>(w: World<S>, es: seq<Event<S, D>>) {
    forall e :: e in w ==> CarriedKey(es, e) == Some(w[e].key)
  }

  lemma CarriedLast<S, D>(es: seq<Event<S, D>>, event: Event<S, D>, e: EntityId)
    ensures CarriedKey(es + [event], e) ==
            if (event.Spawn? || event.Keyframe?) && event.entity == e then Some(event.key) else CarriedKey(es, e)
  {
    assert (es + [event])[..|es|] == es;
  }

  lemma EventKeepsKeys<S, D>(
      max: nat, decode: Decoder<S, D>, w: World<S>, event: Event<S, D>, es: seq<Event<S, D>>)
    requires KeysFrom(w, es) && ApplyEvent(max, decode, w, event).Ok?
    ensures KeysFrom(ApplyEvent(max, decode, w, event).value, es + [event])
  {
    var next := ApplyEvent(max, decode, w, event).value;
    forall e | e in next
      ensures CarriedKey(es + [event], e) == Some(next[e].key)
    {
      CarriedLast(es, event, e);
    }
  }

  lemma {:induction false} EventsKeepKeys<S, D>(
      max: nat, decode: Decoder<S, D>, w: World<S>, es: seq<Event<S, D>>, affected: set<EntityId>,
      before: seq<Event<S, D>>)
    requires KeysFrom(w, before) && ApplyEvents(max, decode, w, es, affected).Ok?
    ensures KeysFrom(ApplyEvents(max, decode, w, es, affected).value, before + es)
    decreases |es|
  {
    hide KeysFrom, ApplyEvent;
    if es == [] {
      assert before + es == before;
    } else {
      EventKeepsKeys(max, decode, w, es[0], before);
      var next := ApplyEvent(max, decode, w, es[0]).value;
      EventsKeepKeys(max, decode, next, es[1..], affected + {es[0].entity}, before + [es[0]]);
      assert (before + [es[0]]) + es[1..] == before + es;
    }
  }

  /** All events of a log, in order. */
  ghost function EventsOf<S, D>(log: seq<Batch<S, D>>): seq<Event<S, D>> {
    if log == [] then [] else log[0].events + EventsOf(log[1..])
  }

  lemma {:induction false} EventsOfConcat<S, D>(a: seq<Batch<S, D>>, b: seq<Batch<S, D>>)
    ensures EventsOf(a + b) == EventsOf(a) + EventsOf(b)
    decreases |a|
  {
    if a == [] {
      assert a + b == b;
    } else {
      assert (a + b)[1..] == a[1..] + b;
      EventsOfConcat(a[1..], b);
    }
  }

  lemma {:induction false} EventsOfChunk<S, D>(es: seq<Event<S, D>>, size: nat, first: nat, tick: nat)
    requires 0 < size
    ensures EventsOf(Chunk(es, size, first, tick)) == es
    decreases |es|
  {
    var batches := Chunk(es, size, first, tick);
    if es == [] {
    } else if |es| <= size {
      assert batches[1..] == [];
    } else {
      EventsOfChunk(es[size..], size, first + 1, tick);
      assert batches[1..] == Chunk(es[size..], size, first + 1, tick);
      assert es == es[..size] + es[size..];
    }
  }

  lemma {:induction false} LogKeepsKeys<S, D>(
      max: nat, decode: Decoder<S, D>, w: World<S>, log: seq<Batch<S, D>>, before: seq<Event<S, D>>)
    requires KeysFrom(w, before) && ApplyLog(max, decode, w, log).Ok?
    ensures KeysFrom(ApplyLog(max, decode, w, log).value, before + EventsOf(log))
    decreases |log|
  {
    hide KeysFrom, ApplyEvents;
    if log == [] {
      assert before + EventsOf(log) == before;
    } else {
      EventsKeepKeys(max, decode, w, log[0].events, {}, before);
      var next := ApplyBatch(max, decode, w, log[0]).value;
      LogKeepsKeys(max, decode, next, log[1..], before + log[0].events);
      assert (before + log[0].events) + EventsOf(log[1..]) == before + EventsOf(log);
    }
  }

  /** In every reachable state, an entity the receiver holds has the key carried by the last
      full state for it among the batches the receiver acknowledges. */
  lemma KeysFollowLog<S, D>(c: Config, decode: Decoder<S, D>, steps: seq<Step<S, D>>)
    requires ValidConfig(c)
    requires LegalRun(c, decode, Initial(c), steps)
    ensures var s := Run(c, decode, Initial(c), steps);
            && s.receiver.window.acknowledged <= |s.log|
            && KeysFrom(s.receiver.entities, EventsOf(s.log[..s.receiver.window.acknowledged]))
  {
    hide Run, LegalRun, ApplyLog, Initial;
    Convergence(c, decode, steps);
    var s := Run(c, decode, Initial(c), steps);
    var acked := s.log[..s.receiver.window.acknowledged];
    var none: seq<Event<S, D>> := [];
    LogKeepsKeys(c.maxEntities, decode, map[], acked, none);
    assert none + EventsOf(acked) == EventsOf(acked);
  }

  // ---------------------------------------------------------------- agreement of keys

  lemma {:induction false} CarriedConcat<S, D>(a: seq<Event<S, D>>, b: seq<Event<S, D>>, e: EntityId)
    ensures CarriedKey(a + b, e) == if CarriedKey(b, e).Some? then CarriedKey(b, e) else CarriedKey(a, e)
    decreases |b|
  {
    if b == [] {
      assert a + b == a;
    } else {
      var front, last := b[..|b| - 1], b[|b| - 1];
      assert a + b == (a + front) + [last] && b == front + [last];
      CarriedLast(a + front, last, e);
      CarriedLast(front, last, e);
      CarriedConcat(a, front, e);
    }
  }

  /** A reconciliation sends this entity in full. */
  predicate InFull<S, D>(
      projected: World<S>, current: Versioned<S>, force: bool, encode: Encoder<S, D>, e: EntityId)
  {
    e !in projected || (Needs(projected, current, force, e) && !ByDelta(projected, current, force, encode, e))
  }

  lemma {:induction false} RightKeys<S, D>(
      es: seq<Event<S, D>>, projected: World<S>, desired: World<S>, force: bool, encode: Encoder<S, D>, e: EntityId)
    requires AllRight(es, projected, desired, force, encode) && e in desired
    ensures CarriedKey(es, e).Some? ==>
              CarriedKey(es, e) == Some(desired[e].key) && InFull(projected, desired[e], force, encode, e)
    ensures e in About(es) && InFull(projected, desired[e], force, encode, e) ==> CarriedKey(es, e).Some?
    decreases |es|
  {
    if es != [] {
      var front, last := es[..|es| - 1], es[|es| - 1];
      assert es == front + [last];
      RightKeys(front, projected, desired, force, encode, e);
      AboutConcat(front, [last]);
      CarriedLast(front, last, e);
      assert RightEvent(last, projected, desired, force, encode);
      assert About([last]) == {last.entity};
    }
  }

  /** An entity that is not sent in full keeps its key. */
  ghost predicate KeyStable<S, D>(projected: World<S>, desired: World<S>, force: bool, encode: Encoder<S, D>) {
    forall e :: e in desired && !InFull(projected, desired[e], force, encode, e) ==>
      e in projected && projected[e].key == desired[e].key
  }

  /** The exact condition: after a reconciliation the carried keys are the visible ones if and only
      if every entity that was not sent in full kept its key. */
  lemma KeysAfterDiff<S, D>(
      projected: World<S>, desired: World<S>, force: bool, encode: Encoder<S, D>, before: seq<Event<S, D>>)
    requires KeysFrom(projected, before) && Diff(projected, desired, force, encode).Ok?
    ensures KeysFrom(desired, before + Diff(projected, desired, force, encode).value) <==>
            KeyStable(projected, desired, force, encode)
  {
    hide Diff, InFull, AllRight, About;
    DiffSaysExactly(projected, desired, force, encode);
    var es := Diff(projected, desired, force, encode).value;
    forall e | e in desired
      ensures CarriedKey(before + es, e) == Some(desired[e].key) <==>
              (!InFull(projected, desired[e], force, encode, e) ==>
                e in projected && projected[e].key == desired[e].key)
    {
      CarriedConcat(before, es, e);
      RightKeys(es, projected, desired, force, encode, e);
      FullIsTold(projected, desired[e], force, encode, e);
    }
  }

  /** The condition is needed: an entity whose key changes while its state goes out as a delta, or does
      not go out at all because its version stands, leaves the carried keys behind. */
  lemma KeyLags<S, D>(
      e: EntityId, before: Versioned<S>, after: Versioned<S>, encode: Encoder<S, D>, log: seq<Event<S, D>>)
    requires before.key != after.key && KeysFrom(map[e := before], log)
    requires before.version == after.version || encode(e, before, after).Some?
    requires Diff(map[e := before], map[e := after], false, encode).Ok?
    ensures !KeysFrom(map[e := after], log + Diff(map[e := before], map[e := after], false, encode).value)
  {
    hide Diff, KeysFrom;
    var projected, desired := map[e := before], map[e := after];
    KeysAfterDiff(projected, desired, false, encode, log);
    assert !InFull(projected, desired[e], false, encode, e);
  }

  lemma FullIsTold<S, D>(
      projected: World<S>, current: Versioned<S>, force: bool, encode: Encoder<S, D>, e: EntityId)
    ensures InFull(projected, current, force, encode, e) ==> Needs(projected, current, force, e)
    ensures !InFull(projected, current, force, encode, e) ==> e in projected
  {
  }

  ghost predicate StepKeyStable<S, D>(s: System<S, D>, step: Step<S, D>) {
    step.Reconcile? ==>
      var desired := Collect(step.visible, map[]);
      desired.Some? ==> KeyStable(s.sender.projected, desired.value, s.sender.force, step.encode)
  }

  ghost predicate RunKeyStable<S, D>(c: Config, decode: Decoder<S, D>, s: System<S, D>, steps: seq<Step<S, D>>)
    requires ValidConfig(c) && LegalRun(c, decode, s, steps)
    decreases |steps|
  {
    steps != [] ==> StepKeyStable(s, steps[0]) && RunKeyStable(c, decode, Exec(c, decode, s, steps[0]), steps[1..])
  }

  lemma StepKeepsKeys<S, D>(c: Config, decode: Decoder<S, D>, s: System<S, D>, step: Step<S, D>)
    requires ValidConfig(c) && Inv(c, decode, s) && Enabled(decode, s, step)
    requires KeysFrom(s.sender.projected, EventsOf(s.log)) && StepKeyStable(s, step)
    ensures var n := Exec(c, decode, s, step); KeysFrom(n.sender.projected, EventsOf(n.log))
  {
    hide KeysFrom, KeyStable, Collect, Diff, Chunk, UpdateContract;
    hide PacketOf, FindTick, DropThrough, ReceiverInv, NetworkInv, FoldInv, LogInv;
    match step {
      case Reconcile(tick, visible, encode) =>
        var r := UpdateSender(c, s.sender, tick, visible, encode);
        if r.Ok? {
          var batches, desired, events := UpdateExtends(c, s.sender, tick, visible, encode, s.log);
          KeysAfterDiff(s.sender.projected, desired, s.sender.force, encode, EventsOf(s.log));
          EventsOfChunk(events, c.maxEventsPerBatch, s.sender.nextSequence, tick);
          EventsOfConcat(s.log, batches);
          assert r.value.pending[|s.sender.pending|..] == batches;
        }
      case ForceKeyframes =>
      case SendPacket =>
      case DeliverPacket(_) =>
      case DeliverAck(_) =>
    }
  }

  lemma {:induction false} RunKeepsKeys<S, D>(
      c: Config, decode: Decoder<S, D>, s: System<S, D>, steps: seq<Step<S, D>>)
    requires ValidConfig(c) && Inv(c, decode, s) && LegalRun(c, decode, s, steps)
    requires KeysFrom(s.sender.projected, EventsOf(s.log)) && RunKeyStable(c, decode, s, steps)
    ensures var n := Run(c, decode, s, steps); KeysFrom(n.sender.projected, EventsOf(n.log))
    decreases |steps|
  {
    hide Inv, Exec, Enabled, KeysFrom, StepKeyStable;
    if steps != [] {
      StepKeepsInv(c, decode, s, steps[0]);
      StepKeepsKeys(c, decode, s, steps[0]);
      RunKeepsKeys(c, decode, Exec(c, decode, s, steps[0]), steps[1..]);
    }
  }

  /** Full convergence: where keys change only with a state sent in full, a receiver that
      acknowledges the last issued batch holds exactly the sender's projected map, keys included. */
  lemma KeysConverge<S, D>(c: Config, decode: Decoder<S, D>, steps: seq<Step<S, D>>)
    requires ValidConfig(c)
    requires LegalRun(c, decode, Initial(c), steps) && RunKeyStable(c, decode, Initial(c), steps)
    ensures var s := Run(c, decode, Initial(c), steps);
            s.receiver.window.acknowledged + 1 == s.sender.nextSequence ==> s.receiver.entities == s.sender.projected
  {
    var first: System<S, D> := Initial(c);
    InitialInv<S, D>(c, decode);
    assert KeysFrom(first.sender.projected, EventsOf(first.log));
    RunKeepsKeys(c, decode, first, steps);
    RunKeepsInv(c, decode, first, steps);
    Convergence(c, decode, steps);
    KeysFollowLog(c, decode, steps);
    var s := Run(c, decode, first, steps);
    hide Run, LegalRun, RunKeyStable, Initial, EventsOf;
    if s.receiver.window.acknowledged + 1 == s.sender.nextSequence {
      LastIssued(c, decode, s);
      assert s.log[..s.receiver.window.acknowledged] == s.log;
      SameMaps(s.receiver.entities, s.sender.projected, EventsOf(s.log));
    }
  }

  lemma LastIssued<S, D>(c: Config, decode: Decoder<S, D>, s: System<S, D>)
    requires Inv(c, decode, s)
    ensures s.sender.nextSequence == |s.log| + 1
  {
    hide LogInv, FoldInv, ReceiverInv, NetworkInv;
  }

  lemma SameMaps<S, D>(a: World<S>, b: World<S>, es: seq<Event<S, D>>)
    requires SameView(a, b) && KeysFrom(a, es) && KeysFrom(b, es)
    ensures a == b
  {
    forall e | e in a
      ensures a[e] == b[e]
    {
      assert CarriedKey(es, e) == Some(a[e].key) == Some(b[e].key);
    }
  }
}
