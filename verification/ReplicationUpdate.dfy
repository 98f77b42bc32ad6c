/** When a reconciliation succeeds and what it then says, read off the visible entries and the
    sender's fields. */
module ReplicationUpdates {
  import opened Common
  import opened ReplicationProtocol
  import opened ReplicationSenders
  import opened ReplicationDiff

  // ---------------------------------------------------------------- the visible entries

  ghost predicate DistinctEntries<S>(visible: seq<Entry<S>>) {
    forall i, j :: 0 <= i < j < |visible| ==> visible[i].entity != visible[j].entity
  }

  ghost function Ids<S>(visible: seq<Entry<S>>): set<EntityId> {
    set i | 0 <= i < |visible| :: visible[i].entity
  }

  /** `w` holds exactly the visible entries. */
  ghost predicate Holds<S>(w: World<S>, visible: seq<Entry<S>>) {
    w.Keys == Ids(visible) && forall i :: 0 <= i < |visible| ==> w[visible[i].entity] == visible[i].value
  }

  lemma IdsSplit<S>(visible: seq<Entry<S>>)
    requires visible != []
    ensures Ids(visible) == {visible[0].entity} + Ids(visible[1..])
  {
    var rest := visible[1..];
    forall e
      ensures e in Ids(visible) <==> e == visible[0].entity || e in Ids(rest)
    {
      if e in Ids(visible) {
        var i :| 0 <= i < |visible| && visible[i].entity == e;
        if i > 0 {
          assert rest[i - 1].entity == e;
        }
      }
      if e in Ids(rest) {
        var i :| 0 <= i < |rest| && rest[i].entity == e;
        assert visible[i + 1].entity == e;
      }
    }
  }

  lemma {:induction false} IdsCount<S>(visible: seq<Entry<S>>)
    requires DistinctEntries(visible)
    ensures |Ids(visible)| == |visible|
    decreases |visible|
  {
    if visible == [] {
      assert Ids(visible) == {};
    } else {
      IdsSplit(visible);
      IdsCount(visible[1..]);
      assert visible[0].entity !in Ids(visible[1..]);
    }
  }

  /** Collecting fails exactly when an entity is listed twice or known already, and otherwise adds
      exactly the listed entries. */
  lemma {:induction false} CollectExactly<S>(visible: seq<Entry<S>>, acc: World<S>)
    ensures var r := Collect(visible, acc);
            && (r.Some? <==> DistinctEntries(visible) && Ids(visible) !! acc.Keys)
            && (r.Some? ==>
                  && r.value.Keys == acc.Keys + Ids(visible)
                  && (forall i :: 0 <= i < |visible| ==> r.value[visible[i].entity] == visible[i].value)
                  && (forall e :: e in acc ==> r.value[e] == acc[e]))
    decreases |visible|
  {
    if visible == [] {
      assert Ids(visible) == {};
    } else {
      var first, rest := visible[0], visible[1..];
      IdsSplit(visible);
      DistinctSplit(visible);
      if first.entity !in acc {
        var more := acc[first.entity := first.value];
        CollectExactly(rest, more);
        assert more.Keys == acc.Keys + {first.entity};
      }
    }
  }

  lemma DistinctSplit<S>(visible: seq<Entry<S>>)
    requires visible != []
    ensures DistinctEntries(visible) <==> DistinctEntries(visible[1..]) && visible[0].entity !in Ids(visible[1..])
  {
    var rest := visible[1..];
    if DistinctEntries(rest) && visible[0].entity !in Ids(rest) {
      forall i, j | 0 <= i < j < |visible|
        ensures visible[i].entity != visible[j].entity
      {
        assert visible[j] == rest[j - 1];
      }
    }
    if DistinctEntries(visible) {
      assert forall i :: 0 <= i < |rest| ==> rest[i] == visible[i + 1];
    }
  }

  // ---------------------------------------------------------------- how many events

  /** The entity must be told about: new, forced, or at another version. */
  predicate Needs<S>(projected: World<S>, current: Versioned<S>, force: bool, e: EntityId) {
    e !in projected || force || projected[e].version != current.version
  }

  ghost function Touched<S>(ids: seq<EntityId>, projected: World<S>, desired: World<S>, force: bool): set<EntityId> {
    set e | e in ids && e in desired && Needs(projected, desired[e], force, e)
  }

  lemma {:induction false} DespawnCount<S, D>(ids: seq<EntityId>, desired: World<S>)
    requires Distinct(ids)
    ensures |DespawnEvents<S, D>(ids, desired)| == |Gone(ids, desired)|
    decreases |ids|
  {
    if ids == [] {
      assert Gone(ids, desired) == {};
    } else {
      DistinctTail(ids);
      DespawnCount<S, D>(ids[1..], desired);
      assert forall e :: e in ids <==> e == ids[0] || e in ids[1..];
      if ids[0] in desired {
        assert Gone(ids, desired) == Gone(ids[1..], desired);
      } else {
        assert Gone(ids, desired) == Gone(ids[1..], desired) + {ids[0]};
      }
    }
  }

  /** No entity goes back to a lower version. */
  ghost predicate NoRegression<S>(ids: seq<EntityId>, projected: World<S>, desired: World<S>) {
    forall e :: e in ids && e in projected && e in desired ==> projected[e].version <= desired[e].version
  }

  lemma ChangeFate<S, D>(e: EntityId, projected: World<S>, current: Versioned<S>, force: bool, encode: Encoder<S, D>)
    ensures var r := ChangeFor(e, projected, current, force, encode);
            && (r.Err? <==> e in projected && current.version < projected[e].version)
            && (r.Err? ==> r.error == VersionRegression)
            && (r.Ok? ==> (r.value.Some? <==> Needs(projected, current, force, e)))
  {
  }

  lemma RegressionSplit<S>(ids: seq<EntityId>, projected: World<S>, desired: World<S>)
    requires ids != [] && ids[0] in desired
    ensures NoRegression(ids, projected, desired) <==>
            && NoRegression(ids[1..], projected, desired)
            && (ids[0] in projected ==> projected[ids[0]].version <= desired[ids[0]].version)
  {
    assert forall e :: e in ids <==> e == ids[0] || e in ids[1..];
  }

  lemma {:induction false} ChangeCount<S, D>(
      ids: seq<EntityId>, projected: World<S>, desired: World<S>, force: bool, encode: Encoder<S, D>)
    requires Distinct(ids) && forall e :: e in ids ==> e in desired
    ensures var r := ChangeEvents(ids, projected, desired, force, encode);
            && (r.Ok? <==> NoRegression(ids, projected, desired))
            && (r.Err? ==> r.error == VersionRegression)
            && (r.Ok? ==> |r.value| == |Touched(ids, projected, desired, force)|)
    decreases |ids|
  {
    hide ChangeFor, Needs, NoRegression, Distinct, Touched;
    if ids == [] {
      NothingTouched(projected, desired, force);
    } else {
      DistinctTail(ids);
      ChangeCount(ids[1..], projected, desired, force, encode);
      ChangeFate(ids[0], projected, desired[ids[0]], force, encode);
      RegressionSplit(ids, projected, desired);
      TouchedSplit(ids, projected, desired, force);
    }
  }

  lemma NothingTouched<S>(projected: World<S>, desired: World<S>, force: bool)
    ensures |Touched([], projected, desired, force)| == 0 && NoRegression([], projected, desired)
  {
    assert Touched([], projected, desired, force) == {};
  }

  lemma TouchedSplit<S>(ids: seq<EntityId>, projected: World<S>, desired: World<S>, force: bool)
    requires ids != [] && Distinct(ids) && ids[0] in desired
    ensures |Touched(ids, projected, desired, force)| ==
            |Touched(ids[1..], projected, desired, force)|
            + (if Needs(projected, desired[ids[0]], force, ids[0]) then 1 else 0)
  {
    hide Needs;
    var before := Touched(ids[1..], projected, desired, force);
    assert forall e :: e in ids <==> e == ids[0] || e in ids[1..];
    assert ids[0] !in before;
    if Needs(projected, desired[ids[0]], force, ids[0]) {
      assert Touched(ids, projected, desired, force) == before + {ids[0]};
    } else {
      assert Touched(ids, projected, desired, force) == before;
    }
  }

  /** The entities gone, plus those that must be told about. */
  ghost function EventCount<S>(projected: World<S>, visible: seq<Entry<S>>, force: bool): nat {
    |projected.Keys - Ids(visible)| +
    |set i | 0 <= i < |visible| && Needs(projected, visible[i].value, force, visible[i].entity) :: visible[i].entity|
  }

  lemma DistinctSorted(ids: set<EntityId>)
    ensures Distinct(SortedIds(ids))
  {
    SortedIdsIncreasing(ids);
  }

  lemma SameCounts<S>(projected: World<S>, desired: World<S>, visible: seq<Entry<S>>, force: bool)
    requires Holds(desired, visible)
    ensures Gone(SortedIds(projected.Keys), desired) == projected.Keys - Ids(visible)
    ensures Touched(SortedIds(desired.Keys), projected, desired, force) ==
            set i | 0 <= i < |visible| && Needs(projected, visible[i].value, force, visible[i].entity)
              :: visible[i].entity
  {
    hide Needs, SortedIds;
    var told := set i |
      0 <= i < |visible| && Needs(projected, visible[i].value, force, visible[i].entity) :: visible[i].entity;
    var touched := Touched(SortedIds(desired.Keys), projected, desired, force);
    forall e
      ensures e in told <==> e in touched
    {
      if e in touched {
        assert e in Ids(visible);
        var i :| 0 <= i < |visible| && visible[i].entity == e;
        assert desired[visible[i].entity] == visible[i].value;
      }
      if e in told {
        var i :| && 0 <= i < |visible| && visible[i].entity == e
                 && Needs(projected, visible[i].value, force, visible[i].entity);
        assert e in Ids(visible) && desired[visible[i].entity] == visible[i].value;
      }
    }
  }

  /** The reconciliation's events: refused exactly on a version going back, otherwise as many as
      there are entities gone or to be told about. */
  lemma DiffCount<S, D>(
      projected: World<S>, desired: World<S>, visible: seq<Entry<S>>, force: bool, encode: Encoder<S, D>)
    requires Holds(desired, visible)
    ensures var r := Diff(projected, desired, force, encode);
            && (r.Ok? <==> !Regresses(projected, visible))
            && (r.Err? ==> r.error == VersionRegression)
            && (r.Ok? ==> |r.value| == EventCount(projected, visible, force))
  {
    hide DespawnEvents, ChangeEvents, SortedIds;
    DistinctSorted(projected.Keys);
    DistinctSorted(desired.Keys);
    DespawnCount<S, D>(SortedIds(projected.Keys), desired);
    ChangeCount(SortedIds(desired.Keys), projected, desired, force, encode);
    SameCounts(projected, desired, visible, force);
    SameRegression(projected, desired, visible);
  }

  /** Some visible entity is listed below the version already projected. */
  ghost predicate Regresses<S>(projected: World<S>, visible: seq<Entry<S>>) {
    exists i :: 0 <= i < |visible| && visible[i].entity in projected
      && visible[i].value.version < projected[visible[i].entity].version
  }

  lemma SameRegression<S>(projected: World<S>, desired: World<S>, visible: seq<Entry<S>>)
    requires Holds(desired, visible)
    ensures NoRegression(SortedIds(desired.Keys), projected, desired) <==> !Regresses(projected, visible)
  {
    hide SortedIds;
    if Regresses(projected, visible) {
      var i :| 0 <= i < |visible| && visible[i].entity in projected
        && visible[i].value.version < projected[visible[i].entity].version;
      assert visible[i].entity in Ids(visible) && desired[visible[i].entity] == visible[i].value;
    }
    if !NoRegression(SortedIds(desired.Keys), projected, desired) {
      var e :| e in desired && e in projected && !(projected[e].version <= desired[e].version);
      assert e in Ids(visible);
      var i :| 0 <= i < |visible| && visible[i].entity == e;
      assert desired[visible[i].entity] == visible[i].value;
    }
  }

  // ---------------------------------------------------------------- the exact condition

  lemma RoundedUp(a: nat, b: nat)
    requires 0 < b
    ensures DivCeil(a, b) == (a + (b - 1)) / b
  {
    var q, r := a / b, a % b;
    assert a == b * q + r;
    if r == 0 {
      QuotientUnique(b, (a + (b - 1)) / b, (a + (b - 1)) % b, q, b - 1);
    } else {
      QuotientUnique(b, (a + (b - 1)) / b, (a + (b - 1)) % b, q + 1, r - 1);
    }
  }

  /** How many batches a reconciliation takes. */
  ghost function BatchCount<S, D>(c: Config, s: Sender<S, D>, visible: seq<Entry<S>>): nat
    requires 0 < c.maxEventsPerBatch
  {
    (EventCount(s.projected, visible, s.force) + (c.maxEventsPerBatch - 1)) / c.maxEventsPerBatch
  }

  /** The first reason to refuse an update, in the order the sender looks for them. */
  ghost function UpdateFault<S, D>(c: Config, s: Sender<S, D>, tick: nat, visible: seq<Entry<S>>): Option<Error>
    requires 0 < c.maxEventsPerBatch
  {
    if tick == 0 || tick <= s.lastTick then Some(InvalidOrder)
    else if !DistinctEntries(visible) then Some(InvalidPacket(DuplicateVisible))
    else if |visible| > c.maxEntities then Some(EntityLimitExceeded)
    else if Regresses(s.projected, visible) then Some(VersionRegression)
    else if |s.pending| + BatchCount(c, s, visible) > c.historyCapacity then Some(HistoryFull)
    else if s.nextSequence + BatchCount(c, s, visible) > U64_MAX then Some(SequenceExhausted)
    else None
  }

  /** `n` batches of the tick, numbered on from the sender's next one, joined its history. */
  ghost predicate Extended<S, D>(c: Config, s: Sender<S, D>, pending: seq<Batch<S, D>>, tick: nat, n: nat) {
    && |pending| == |s.pending| + n
    && pending[..|s.pending|] == s.pending
    && (forall j :: |s.pending| <= j < |pending| ==>
          && pending[j].sequence == s.nextSequence + (j - |s.pending|)
          && pending[j].tick == tick
          && 0 < |pending[j].events| <= c.maxEventsPerBatch)
  }

  lemma ChunksExtend<S, D>(c: Config, s: Sender<S, D>, events: seq<Event<S, D>>, tick: nat)
    requires 0 < c.maxEventsPerBatch
    ensures var batches := Chunk(events, c.maxEventsPerBatch, s.nextSequence, tick);
            && |batches| == (|events| + (c.maxEventsPerBatch - 1)) / c.maxEventsPerBatch
            && Extended(c, s, s.pending + batches, tick, |batches|)
  {
    hide Chunk;
    ChunkCount(events, c.maxEventsPerBatch, s.nextSequence, tick);
    RoundedUp(|events|, c.maxEventsPerBatch);
  }

  lemma CollectVisibleExactly<S>(visible: seq<Entry<S>>)
    ensures var r := Collect(visible, map[]);
            && (r.Some? <==> DistinctEntries(visible))
            && (r.Some? ==> Holds(r.value, visible) && |r.value| == |visible|)
  {
    hide Collect;
    CollectExactly(visible, map[]);
    if DistinctEntries(visible) {
      IdsCount(visible);
    }
  }

  /** An update succeeds if and only if the tick is new, the visible entities are distinct, few
      enough and at no lower version, and history and sequence space have room for the batches;
      otherwise it gives the first reason not to. What the encoder does plays no part. Then the
      visible entries are projected, the flag is cleared, and exactly that many batches of the
      tick join the history under the next numbers. */
  lemma UpdateExactly<S, D>(c: Config, s: Sender<S, D>, tick: nat, visible: seq<Entry<S>>, encode: Encoder<S, D>)
    requires 0 < c.maxEventsPerBatch
    ensures var r, n := UpdateSender(c, s, tick, visible, encode), BatchCount(c, s, visible);
            && (r.Err? ==> UpdateFault(c, s, tick, visible) == Some(r.error))
            && (r.Ok? ==>
                  && UpdateFault(c, s, tick, visible) == None
                  && Holds(r.value.projected, visible)
                  && r.value.lastTick == tick && !r.value.force && r.value.acknowledged == s.acknowledged
                  && r.value.nextSequence == s.nextSequence + n
                  && Extended(c, s, r.value.pending, tick, n))
  {
    hide Diff, Chunk, Collect, EventCount, Extended, Holds, DistinctEntries, Regresses;
    CollectVisibleExactly(visible);
    var desired := Collect(visible, map[]);
    if desired.Some? {
      DiffCount(s.projected, desired.value, visible, s.force, encode);
      var events := Diff(s.projected, desired.value, s.force, encode);
      if events.Ok? {
        ChunksExtend(c, s, events.value, tick);
      }
    }
  }
}
