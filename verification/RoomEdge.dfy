/** The exact edge of the rollback window: what a submission does that was validated against
    one horizon and is drained at a later one. */
module RoomEdges {
  import opened Common
  import opened Rooms
  import opened RoomReplay

  /** Whatever was submitted, draining never adds or drops a record, and the earliest late
      target is one of the recorded ticks. */
  lemma {:induction false} LateIsRecorded<C, P>(c: RoomConfig, current: nat, d: Drained<C, P>, queue: seq<Submitted<C>>)
    requires d.late.Some? ==> d.late.value in d.runtime.history
    ensures var e := Drain(c, current, d, queue);
            && e.runtime.history.Keys == d.runtime.history.Keys
            && (e.late.Some? ==> e.late.value in e.runtime.history)
    decreases |queue|
  {
    if queue != [] {
      var e := DrainOne(c, current, d, queue[0]);
      assert e.runtime.history.Keys == d.runtime.history.Keys;
      LateIsRecorded(c, current, e, queue[1..]);
    }
  }

  lemma {:induction false} ReplayTicksNeverLacksCheckpoint<G, C, P>(
      game: Game<G, C, P>, r: Resimulated<G, C, P>, from: nat, through: nat)
    ensures ReplayTicks(game, r, from, through) != Err(MissingCheckpoint)
    decreases through + 1 - from
  {
    hide ApplyAll, Capture;
    if from <= through && from in r.history {
      var commands := r.history[from].commands;
      var applied := ApplyAll(game, r.game, commands);
      if applied.Some? && game.step(applied.value, from).Some? {
        var stepped := game.step(applied.value, from).value;
        var captured := Capture(game, stepped, from);
        if captured.Some? {
          var record := Record(commands, captured.value.snapshot, captured.value.hash);
          ReplayTicksNeverLacksCheckpoint(game, Resimulated(stepped, r.history[from := record]), from + 1, through);
        }
      }
    }
  }

  // ---------------------------------------------------------------- draining, seen from the end

  lemma {:induction false} DrainLast<C, P>(
      c: RoomConfig, current: nat, d: Drained<C, P>, queue: seq<Submitted<C>>, input: Submitted<C>)
    ensures Drain(c, current, d, queue + [input]) == DrainOne(c, current, Drain(c, current, d, queue), input)
    decreases |queue|
  {
    hide DrainOne;
    if queue == [] {
      assert (queue + [input])[1..] == [];
    } else {
      assert (queue + [input])[1..] == queue[1..] + [input];
      DrainLast(c, current, DrainOne(c, current, d, queue[0]), queue[1..], input);
    }
  }

  /** Submission `i` targets tick `f` and is newer than anything taken from its player before. */
  ghost predicate FreshAt<C, P>(
      c: RoomConfig, current: nat, d: Drained<C, P>, queue: seq<Submitted<C>>, f: nat, i: nat)
  {
    && i < |queue|
    && queue[i].target == f
    && queue[i].command.sequence >
       LastSequence(Drain(c, current, d, queue[..i]).runtime.sequences, queue[i].command.player)
  }

  /** One more submission, when `f` is the oldest recorded tick. */
  lemma LateOne<C, P>(c: RoomConfig, current: nat, d: Drained<C, P>, input: Submitted<C>, f: nat)
    requires f in d.runtime.history && f <= current
    requires forall t :: t in d.runtime.history ==> f <= t
    requires d.late.Some? ==> d.late.value in d.runtime.history
    ensures var e := DrainOne(c, current, d, input);
            && (e.late == Some(f) <==>
                  d.late == Some(f) ||
                  (&& |d.runtime.history[f].commands| < c.maxPerTick
                   && input.target == f
                   && input.command.sequence > LastSequence(d.runtime.sequences, input.command.player)))
            && (e.late != Some(f) ==> e.runtime.history[f].commands == d.runtime.history[f].commands)
  {
  }

  /** With `f` the oldest recorded tick: a rollback to it is asked for if and only if its record
      has room and some submission for it is fresh when its turn comes. */
  lemma {:induction false} LateExactly<C, P>(
      c: RoomConfig, current: nat, d: Drained<C, P>, queue: seq<Submitted<C>>, f: nat)
    requires d.late == None && f in d.runtime.history && f <= current
    requires forall t :: t in d.runtime.history ==> f <= t
    ensures var e := Drain(c, current, d, queue);
            && e.runtime.history.Keys == d.runtime.history.Keys
            && (e.late == Some(f) <==>
                  |d.runtime.history[f].commands| < c.maxPerTick
                      && exists i: nat :: FreshAt(c, current, d, queue, f, i))
            && (e.late != Some(f) ==> e.runtime.history[f].commands == d.runtime.history[f].commands)
    decreases |queue|
  {
    hide DrainOne, LastSequence;
    LateIsRecorded(c, current, d, queue);
    if queue == [] {
      assert !exists i: nat :: FreshAt(c, current, d, queue, f, i);
    } else {
      var n := |queue| - 1;
      var front, input := queue[..n], queue[n];
      assert queue == front + [input];
      LateExactly(c, current, d, front, f);
      DrainLast(c, current, d, front, input);
      LateIsRecorded(c, current, d, front);
      LateOne(c, current, Drain(c, current, d, front), input, f);
      FreshSplits(c, current, d, front, input, f);
    }
  }

  lemma FreshSplits<C, P>(
      c: RoomConfig, current: nat, d: Drained<C, P>, front: seq<Submitted<C>>, input: Submitted<C>, f: nat)
    ensures var queue := front + [input];
            (exists i: nat :: FreshAt(c, current, d, queue, f, i)) <==>
            (exists i: nat :: FreshAt(c, current, d, front, f, i)) || FreshAt(c, current, d, queue, f, |front|)
  {
    hide Drain, LastSequence;
    var queue := front + [input];
    forall i: nat | i < |front|
      ensures FreshAt(c, current, d, queue, f, i) <==> FreshAt(c, current, d, front, f, i)
    {
      assert queue[..i] == front[..i];
    }
    if i: nat :| FreshAt(c, current, d, front, f, i) {
      assert FreshAt(c, current, d, queue, f, i);
    }
    if i: nat :| FreshAt(c, current, d, queue, f, i) {
      assert i < |front| ==> FreshAt(c, current, d, front, f, i);
    }
  }

  // ---------------------------------------------------------------- the edge

  /** The rollback lacks its checkpoint if and only if some queued submission names the finalized
      tick itself, is fresh when its turn comes, and finds room in that tick's record: the
      record is still retained while the checkpoint below it is gone. */
  lemma MissingCheckpointExactly<G, C, P>(c: RoomConfig, game: Game<G, C, P>, g0: G, r: Room<G, C, P>)
    requires ReplayInv(c, game, g0, r)
    requires 0 < r.finalized
    ensures var d := Drained(r.runtime, r.trace, None);
            Settle(c, game, r) == Err(MissingCheckpoint) <==>
            && |r.runtime.history[r.finalized].commands| < c.maxPerTick
            && exists i: nat :: FreshAt(c, r.current, d, r.queue, r.finalized, i)
  {
    hide Drain, ReplayTicks, Replay, Good, FreshAt;
    var d0 := Drained(r.runtime, r.trace, None);
    LateIsRecorded(c, r.current, d0, r.queue);
    LateExactly(c, r.current, d0, r.queue, r.finalized);
    var d := Drain(c, r.current, d0, r.queue);
    if d.late.Some? {
      var from := d.late.value;
      assert from in r.runtime.history;
      var base := RestoreBase(game, r.game, d.runtime.history, from);
      if base.Ok? {
        ReplayTicksNeverLacksCheckpoint(game, Resimulated(base.value, d.runtime.history), from, r.current);
      }
    }
  }

  /** A first submission for the finalized tick is fresh if its number is. */
  lemma StraySubmission<G, C, P>(c: RoomConfig, game: Game<G, C, P>, g0: G, r: Room<G, C, P>, input: Submitted<C>)
    requires ReplayInv(c, game, g0, r)
    requires 0 < r.finalized
    requires r.queue == [input]
    ensures Settle(c, game, r) == Err(MissingCheckpoint) <==>
            && input.target == r.finalized
            && input.command.sequence > LastSequence(r.runtime.sequences, input.command.player)
            && |r.runtime.history[r.finalized].commands| < c.maxPerTick
  {
    hide Settle, Good, Replay, HistoryInv, CheckpointInv;
    MissingCheckpointExactly(c, game, g0, r);
    var d := Drained(r.runtime, r.trace, None);
    assert r.queue[..0] == [];
    assert FreshAt(c, r.current, d, r.queue, r.finalized, 0) <==>
           input.target == r.finalized
           && input.command.sequence > LastSequence(r.runtime.sequences, input.command.player);
  }

  /** The edge is met: from any reachable room whose horizon moves with the next advance, a
      submission for the tick just above the horizon passes validation, but once the advance is
      over that tick is the finalized one, validation would refuse it, and draining it fails. */
  lemma StrayHappens<G(!new), C(!new), P(!new)>(
      c: RoomConfig, game: Game<G, C, P>, g0: G, r: Room<G, C, P>, command: Command<C>)
    requires RestoreInverts(game) && ReplayInv(c, game, g0, r) && QueueInv(c, r)
    requires 0 < c.window <= r.current <= U64_MAX && Advance(c, game, r).Ok?
    requires ValidPlayer(command.player) && 0 < command.sequence
    requires var a := Advance(c, game, r).value;
             && command.sequence > LastSequence(a.runtime.sequences, command.player)
             && r.finalized < |a.trace.log| && |a.trace.log[r.finalized]| < c.maxPerTick
    ensures var a, target := Advance(c, game, r).value, r.finalized + 1;
            && Validate(c, r.current, r.finalized, target, command) == None
            && a.finalized == target
            && Validate(c, a.current, a.finalized, target, command) == Some(TargetFixed)
            && Settle(c, game, a.(queue := [Submitted(target, command)])) == Err(MissingCheckpoint)
  {
    hide RestoreInverts, Advance, Settle, CheckpointInv, Replay;
    AdvanceKeepsReplay(c, game, g0, r);
    var a := Advance(c, game, r).value;
    assert a.current == r.current + 1 && a.finalized == r.finalized + 1;
    var late := a.(queue := [Submitted(a.finalized, command)]);
    assert ReplayInv(c, game, g0, late);
    StraySubmission(c, game, g0, late, Submitted(a.finalized, command));
  }
}
