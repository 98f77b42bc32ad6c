/** Rollback correctness: the live state and every retained checkpoint are those of a
    from-scratch replay of the final command log. */
module RoomReplay {
  import opened Common
  import opened Rooms

  // ---------------------------------------------------------------- invariants

  /** `record` is the checkpoint that a from-scratch replay takes after tick `t`. */
  ghost predicate Good<G, C, P>(game: Game<G, C, P>, g0: G, log: seq<seq<Command<C>>>, t: nat, record: Record<C, P>)
    requires t <= |log|
  {
    var replayed := Replay(game, g0, log[..t]);
    replayed.Some? && Capture(game, replayed.value, t) == Some(Captured(record.snapshot, record.hash))
  }

  /** History covers exactly the ticks from the finalization horizon to the present, with
      the logged commands, none above the per-tick limit. */
  ghost predicate HistoryInv<C, P>(
      c: RoomConfig, current: nat, finalized: nat, history: map<nat, Record<C, P>>, log: seq<seq<Command<C>>>)
  {
    && |log| == current
    && finalized == SatSub(current, c.window)
    && (forall t :: t in history <==> finalized <= t <= current)
    && (forall t :: t in history && 0 < t ==> history[t].commands == log[t - 1])
    && (forall i :: 0 <= i < |log| ==> |log[i]| <= c.maxPerTick)
  }

  ghost predicate CheckpointInv<G, C, P>(
      game: Game<G, C, P>, g0: G, history: map<nat, Record<C, P>>, log: seq<seq<Command<C>>>)
  {
    forall t :: t in history ==> t <= |log| && Good(game, g0, log, t, history[t])
  }

  /** Rollback correctness of an initialized room. */
  ghost predicate ReplayInv<G, C, P>(c: RoomConfig, game: Game<G, C, P>, g0: G, r: Room<G, C, P>) {
    && r.initialized
    && HistoryInv(c, r.current, r.finalized, r.runtime.history, r.trace.log)
    && CheckpointInv(game, g0, r.runtime.history, r.trace.log)
    && Replay(game, g0, r.trace.log) == Some(r.game)
  }

  ghost predicate Pristine<G, C, P>(g0: G, r: Room<G, C, P>) {
    !r.initialized && r.current == 0 && r.finalized == 0 && r.runtime.history == map[] && r.trace.log == []
        && r.game == g0
  }

  /** Records and log in step: what every room keeps, whatever its game does. */
  ghost predicate RecordsInv<G, C, P>(c: RoomConfig, r: Room<G, C, P>) {
    if r.initialized then HistoryInv(c, r.current, r.finalized, r.runtime.history, r.trace.log)
    else r.current == 0 && r.finalized == 0 && r.runtime.history == map[] && r.trace.log == []
  }

  /** Every queued submission was validated against the present ticks. */
  ghost predicate QueueInv<G, C, P>(c: RoomConfig, r: Room<G, C, P>) {
    forall i :: 0 <= i < |r.queue| ==> Validate(c, r.current, r.finalized, r.queue[i].target, r.queue[i].command).None?
  }

  /** What a validated submission's target may be. */
  ghost predicate Admissible(current: nat, finalized: nat, target: nat) {
    0 < target && (target <= current ==> finalized < target)
  }

  // ---------------------------------------------------------------- initialization

  lemma InitializeEstablishes<G, C, P>(c: RoomConfig, game: Game<G, C, P>, g0: G, r: Room<G, C, P>)
    requires Pristine(g0, r) || ReplayInv(c, game, g0, r)
    ensures var i := Initialize(game, r);
            && (i.Err? ==> i.error == CaptureFailed)
            && (i.Ok? ==> ReplayInv(c, game, g0, i.value) && i.value.trace == r.trace && i.value.queue == r.queue
                          && i.value.current == r.current && i.value.finalized == r.finalized
                          && i.value.runtime.pending == r.runtime.pending
                              && i.value.runtime.sequences == r.runtime.sequences
                          && i.value.runtime.order == r.runtime.order)
  {
    if Pristine(g0, r) && Initialize(game, r).Ok? {
      var i := Initialize(game, r).value;
      assert i.trace.log[..0] == [];
      assert Good(game, g0, i.trace.log, 0, i.runtime.history[0]);
    }
  }

  // ---------------------------------------------------------------- draining

  ghost function Bound(late: Option<nat>, current: nat): nat {
    if late.Some? then late.value else current + 1
  }

  /** While draining: checkpoints untouched, logs and records in step, and nothing changed
      below the earliest late target, which lies above the finalization horizon. */
  ghost predicate DrainInv<C, P>(
      c: RoomConfig, current: nat, finalized: nat, history: map<nat, Record<C, P>>, log: seq<seq<Command<C>>>,
      d: Drained<C, P>)
  {
    && HistoryInv(c, current, finalized, d.runtime.history, d.trace.log)
    && |log| == current
    && d.runtime.history.Keys == history.Keys
    && (forall t :: t in history ==>
        d.runtime.history[t].snapshot == history[t].snapshot && d.runtime.history[t].hash == history[t].hash)
    && (d.late.Some? ==> finalized < d.late.value <= current)
    && (forall i :: 0 <= i < |log| && i + 1 < Bound(d.late, current) ==> d.trace.log[i] == log[i])
  }

  lemma InsertKeeps<C, P>(
      c: RoomConfig, current: nat, finalized: nat, history: map<nat, Record<C, P>>, log: seq<seq<Command<C>>>,
      d: Drained<C, P>, target: nat, command: Command<C>)
    requires DrainInv(c, current, finalized, history, log, d)
    requires finalized < target <= current
    requires target in d.runtime.history && |d.runtime.history[target].commands| < c.maxPerTick
    ensures DrainInv(c, current, finalized, history, log, Insert(c, d, target, command))
  {
    var e := Insert(c, d, target, command);
    assert e.runtime.history.Keys == d.runtime.history.Keys;
    assert forall i :: 0 <= i < |d.trace.log| && i != target - 1 ==> e.trace.log[i] == d.trace.log[i];
    assert e.trace.log[target - 1] == e.runtime.history[target].commands;
  }

  lemma DrainOneKeeps<C, P>(
      c: RoomConfig, current: nat, finalized: nat, history: map<nat, Record<C, P>>, log: seq<seq<Command<C>>>,
      d: Drained<C, P>, input: Submitted<C>)
    requires DrainInv(c, current, finalized, history, log, d)
    requires Admissible(current, finalized, input.target)
    ensures DrainInv(c, current, finalized, history, log, DrainOne(c, current, d, input))
  {
    var d1 := d.(trace := d.trace.(received := d.trace.received + [input.command]));
    assert DrainInv(c, current, finalized, history, log, d1);
    if input.command.sequence > LastSequence(d.runtime.sequences, input.command.player) && input.target <= current
       && input.target in d.runtime.history && |d.runtime.history[input.target].commands| < c.maxPerTick {
      InsertKeeps(c, current, finalized, history, log, d1, input.target, input.command);
    }
  }

  lemma {:induction false} DrainKeeps<C, P>(
      c: RoomConfig, current: nat, finalized: nat, history: map<nat, Record<C, P>>, log: seq<seq<Command<C>>>,
      d: Drained<C, P>, queue: seq<Submitted<C>>)
    requires DrainInv(c, current, finalized, history, log, d)
    requires forall i :: 0 <= i < |queue| ==> Admissible(current, finalized, queue[i].target)
    ensures DrainInv(c, current, finalized, history, log, Drain(c, current, d, queue))
    decreases |queue|
  {
    hide DrainInv, DrainOne;
    if queue != [] {
      DrainOneKeeps(c, current, finalized, history, log, d, queue[0]);
      DrainKeeps(c, current, finalized, history, log, DrainOne(c, current, d, queue[0]), queue[1..]);
    }
  }

  // ---------------------------------------------------------------- rollback

  lemma ReplayStep<G, C, P>(game: Game<G, C, P>, g0: G, log: seq<seq<Command<C>>>, t: nat, g: G)
    requires 0 < t <= |log|
    requires Replay(game, g0, log[..t - 1]) == Some(g)
    ensures Replay(game, g0, log[..t]) == PlayTick(game, g, log[t - 1], t)
  {
    hide PlayTick;
    assert log[..t][..t - 1] == log[..t - 1];
  }

  /** The checkpoint below any admissible target is intact and restores the replayed state:
      no rollback is ever refused for want of a checkpoint or a corrupted one. */
  lemma RestoreSucceeds<G(!new), C(!new), P(!new)>(
      game: Game<G, C, P>, g0: G, g: G, history: map<nat, Record<C, P>>, log: seq<seq<Command<C>>>, from: nat)
    requires RestoreInverts(game)
    requires 0 < from <= |log|
    requires from - 1 in history
    requires Good(game, g0, log, from - 1, history[from - 1])
    ensures var base := RestoreBase(game, g, history, from);
            && (base.Err? ==> base.error == RestoreFailed)
            && (base.Ok? ==> Replay(game, g0, log[..from - 1]) == Some(base.value))
  {
    hide Replay;
  }

  /** The replay of ticks `from..through`, record by record. */
  lemma {:induction false} ReplayTicksSound<G, C, P>(
      game: Game<G, C, P>, g0: G, r: Resimulated<G, C, P>, log: seq<seq<Command<C>>>, from: nat, through: nat)
    requires 0 < from <= through + 1 <= |log| + 1
    requires forall t :: from <= t <= through ==> t in r.history && r.history[t].commands == log[t - 1]
    requires Replay(game, g0, log[..from - 1]) == Some(r.game)
    ensures var s := ReplayTicks(game, r, from, through);
            && (s.Err? ==> s.error in {ApplyFailed, StepFailed, CaptureFailed})
            && (s.Ok? ==>
                  && Replay(game, g0, log[..through]) == Some(s.value.game)
                  && s.value.history.Keys == r.history.Keys
                  && (forall t :: t in r.history ==> s.value.history[t].commands == r.history[t].commands)
                  && (forall t :: t in r.history && !(from <= t <= through) ==> s.value.history[t] == r.history[t])
                  && (forall t :: from <= t <= through ==> Good(game, g0, log, t, s.value.history[t])))
    decreases through + 1 - from
  {
    hide Replay, Capture, ApplyAll;
    if from <= through {
      ReplayStep(game, g0, log, from, r.game);
      var applied := ApplyAll(game, r.game, log[from - 1]);
      if applied.Some? {
        var stepped := game.step(applied.value, from);
        if stepped.Some? {
          var captured := Capture(game, stepped.value, from);
          if captured.Some? {
            var record := Record(log[from - 1], captured.value.snapshot, captured.value.hash);
            var next := Resimulated(stepped.value, r.history[from := record]);
            assert next.history.Keys == r.history.Keys;
            ReplayTicksSound(game, g0, next, log, from + 1, through);
          }
        }
      }
    }
  }

  lemma PrefixesAgree<C>(a: seq<seq<Command<C>>>, b: seq<seq<Command<C>>>, t: nat)
    requires t <= |a| == |b|
    requires forall i :: 0 <= i < t ==> a[i] == b[i]
    ensures a[..t] == b[..t]
  {
  }

  /** After draining, checkpoints below the earliest late target are still good. */
  lemma UntouchedCheckpoints<G, C, P>(
      c: RoomConfig, game: Game<G, C, P>, g0: G, r: Room<G, C, P>, d: Drained<C, P>, t: nat)
    requires ReplayInv(c, game, g0, r)
    requires DrainInv(c, r.current, r.finalized, r.runtime.history, r.trace.log, d)
    requires t in d.runtime.history && t < Bound(d.late, r.current)
    ensures t <= |d.trace.log| && Good(game, g0, d.trace.log, t, d.runtime.history[t])
  {
    hide Replay, Capture;
    PrefixesAgree(d.trace.log, r.trace.log, t);
    assert Good(game, g0, r.trace.log, t, r.runtime.history[t]);
  }

  lemma Rewound<G(!new), C(!new), P(!new)>(
      c: RoomConfig, game: Game<G, C, P>, g0: G, r: Room<G, C, P>, d: Drained<C, P>)
    requires RestoreInverts(game)
    requires ReplayInv(c, game, g0, r)
    requires DrainInv(c, r.current, r.finalized, r.runtime.history, r.trace.log, d)
    requires d.late.Some?
    ensures var s := Resimulate(game, r.game, d.runtime.history, d.late.value, r.current);
            && (s.Err? ==> s.error in {ApplyFailed, StepFailed, CaptureFailed, RestoreFailed})
            && (s.Ok? ==>
                  && Replay(game, g0, d.trace.log) == Some(s.value.game)
                  && HistoryInv(c, r.current, r.finalized, s.value.history, d.trace.log)
                  && CheckpointInv(game, g0, s.value.history, d.trace.log))
  {
    hide RestoreInverts, RestoreBase, ReplayTicks, Replay, Good;
    var from := d.late.value;
    UntouchedCheckpoints(c, game, g0, r, d, from - 1);
    RestoreSucceeds(game, g0, r.game, d.runtime.history, d.trace.log, from);
    var base := RestoreBase(game, r.game, d.runtime.history, from);
    if base.Ok? {
      var start := Resimulated(base.value, d.runtime.history);
      ReplayTicksSound(game, g0, start, d.trace.log, from, r.current);
      var s := ReplayTicks(game, start, from, r.current);
      if s.Ok? {
        assert d.trace.log[..r.current] == d.trace.log;
        forall t | t in s.value.history
          ensures t <= |d.trace.log| && Good(game, g0, d.trace.log, t, s.value.history[t])
        {
          if t < from {
            UntouchedCheckpoints(c, game, g0, r, d, t);
          }
        }
      }
    }
  }

  lemma SettleKeeps<G(!new), C(!new), P(!new)>(c: RoomConfig, game: Game<G, C, P>, g0: G, r: Room<G, C, P>)
    requires RestoreInverts(game)
    requires ReplayInv(c, game, g0, r)
    requires forall i :: 0 <= i < |r.queue| ==> Admissible(r.current, r.finalized, r.queue[i].target)
    ensures var s := Settle(c, game, r);
            && (s.Err? ==> s.error in {ApplyFailed, StepFailed, CaptureFailed, RestoreFailed})
            && (s.Ok? ==> ReplayInv(c, game, g0, s.value))
  {
    hide RestoreInverts, Drain, Resimulate, Replay;
    var d0 := Drained(r.runtime, r.trace, None);
    assert DrainInv(c, r.current, r.finalized, r.runtime.history, r.trace.log, d0);
    DrainKeeps(c, r.current, r.finalized, r.runtime.history, r.trace.log, d0, r.queue);
    var d := Drain(c, r.current, d0, r.queue);
    if d.late.Some? {
      Rewound(c, game, g0, r, d);
    } else {
      PrefixesAgree(d.trace.log, r.trace.log, r.current);
      assert d.trace.log[..r.current] == d.trace.log && r.trace.log[..r.current] == r.trace.log;
      forall t | t in d.runtime.history
        ensures t <= |d.trace.log| && Good(game, g0, d.trace.log, t, d.runtime.history[t])
      {
        UntouchedCheckpoints(c, game, g0, r, d, t);
      }
    }
  }

  // ---------------------------------------------------------------- the next tick

  lemma {:induction false} ApplyAllAppend<G, C, P>(
      game: Game<G, C, P>, g: G, commands: seq<Command<C>>, command: Command<C>, mid: G)
    requires ApplyAll(game, g, commands) == Some(mid)
    ensures ApplyAll(game, g, commands + [command]) == game.apply(mid, command)
    decreases |commands|
  {
    if commands == [] {
      assert (commands + [command])[1..] == [];
    } else {
      assert (commands + [command])[1..] == commands[1..] + [command];
      ApplyAllAppend(game, game.apply(g, commands[0]).value, commands[1..], command, mid);
    }
  }

  /** The executed commands, applied in order to the state before the tick, give its state. */
  lemma {:induction false} ExecuteDueApplies<G, C, P>(
      game: Game<G, C, P>, g: G, k: Ticked<G, C>, tick: nat, budget: nat)
    requires ApplyAll(game, g, k.commands) == Some(k.game)
    ensures var r := ExecuteDue(game, k, tick, budget);
            && ApplyAll(game, g, r.commands) == Some(r.game)
            && |r.commands| <= |k.commands| + budget
    decreases budget
  {
    hide ApplyAll;
    if budget != 0 && k.pending != [] && k.pending[0].target <= tick {
      ApplyAllAppend(game, g, k.commands, k.pending[0].command, k.game);
      ExecuteDueApplies(game, g, PopDue(game, k, tick), tick, budget - 1);
    }
  }

  lemma LoggedTick<G, C, P>(
      game: Game<G, C, P>, g0: G, log: seq<seq<Command<C>>>, g: G, commands: seq<Command<C>>, applied: G, stepped: G)
    requires Replay(game, g0, log) == Some(g)
    requires ApplyAll(game, g, commands) == Some(applied)
    requires game.step(applied, |log| + 1) == Some(stepped)
    ensures Replay(game, g0, log + [commands]) == Some(stepped)
  {
    hide ApplyAll;
    assert (log + [commands])[..|log|] == log;
  }

  lemma RetainedHistory<C, P>(
      c: RoomConfig, current: nat, finalized: nat, history: map<nat, Record<C, P>>, log: seq<seq<Command<C>>>,
      record: Record<C, P>)
    requires HistoryInv(c, current, finalized, history, log)
    requires |record.commands| <= c.maxPerTick
    ensures var through := SatSub(current + 1, c.window);
            && HistoryInv(c, current + 1, through, Retain(history[current + 1 := record], through),
                log + [record.commands])
            && finalized <= through
  {
  }

  lemma NextTickKeeps<G, C, P>(c: RoomConfig, game: Game<G, C, P>, g0: G, r: Room<G, C, P>)
    requires ReplayInv(c, game, g0, r)
    ensures var n := NextTick(c, game, r);
            && (n.Err? ==> n.error in {StepFailed, CaptureFailed})
            && (n.Ok? ==> ReplayInv(c, game, g0, n.value) && n.value.current == r.current + 1)
  {
    hide ExecuteDue, ApplyAll, Replay, Capture, HistoryInv, Good;
    var n := NextTick(c, game, r);
    if n.Ok? {
      var number := r.current + 1;
      var k0 := Ticked(r.game, r.runtime.pending, [], [], []);
      NoCommands(game, r.game);
      ExecuteDueApplies(game, r.game, k0, number, c.maxPerTick);
      var k := ExecuteDue(game, k0, number, c.maxPerTick);
      LogLength(c, r);
      LoggedTick(game, g0, r.trace.log, r.game, k.commands, k.game, n.value.game);
      var captured := Capture(game, n.value.game, number).value;
      var record := Record(k.commands, captured.snapshot, captured.hash);
      RetainedHistory(c, r.current, r.finalized, r.runtime.history, r.trace.log, record);
      NewCheckpoints(game, g0, r.runtime.history, r.trace.log, record, n.value.game, SatSub(number, c.window));
    }
  }

  lemma LogLength<G, C, P>(c: RoomConfig, r: Room<G, C, P>)
    requires HistoryInv(c, r.current, r.finalized, r.runtime.history, r.trace.log)
    ensures |r.trace.log| == r.current
  {
  }

  lemma NoCommands<G, C, P>(game: Game<G, C, P>, g: G)
    ensures ApplyAll(game, g, []) == Some(g)
  {
  }

  lemma NewCheckpoints<G, C, P>(
      game: Game<G, C, P>, g0: G, history: map<nat, Record<C, P>>, log: seq<seq<Command<C>>>, record: Record<C, P>,
      stepped: G, through: nat)
    requires CheckpointInv(game, g0, history, log)
    requires Replay(game, g0, log + [record.commands]) == Some(stepped)
    requires Capture(game, stepped, |log| + 1) == Some(Captured(record.snapshot, record.hash))
    ensures CheckpointInv(game, g0, Retain(history[|log| + 1 := record], through), log + [record.commands])
  {
    hide Replay, Capture;
    var longer := log + [record.commands];
    var kept := Retain(history[|log| + 1 := record], through);
    forall t | t in kept
      ensures t <= |longer| && Good(game, g0, longer, t, kept[t])
    {
      if t == |log| + 1 {
        assert longer[..t] == longer;
      } else {
        assert Good(game, g0, log, t, history[t]);
        assert longer[..t] == log[..t];
      }
    }
  }

  /** After every successful advance the room is again what a from-scratch replay of its
      final command log produces, and an advance fails only where the game itself fails. */
  lemma AdvanceKeepsReplay<G(!new), C(!new), P(!new)>(c: RoomConfig, game: Game<G, C, P>, g0: G, r: Room<G, C, P>)
    requires RestoreInverts(game)
    requires Pristine(g0, r) || ReplayInv(c, game, g0, r)
    requires QueueInv(c, r)
    ensures var a := Advance(c, game, r);
            && (a.Err? ==> a.error in {ApplyFailed, StepFailed, CaptureFailed, RestoreFailed})
            && (a.Ok? ==> ReplayInv(c, game, g0, a.value) && a.value.current == r.current + 1)
  {
    hide RestoreInverts, Initialize, Settle, NextTick;
    InitializeEstablishes(c, game, g0, r);
    var i := Initialize(game, r);
    if i.Ok? {
      forall k | 0 <= k < |r.queue|
        ensures Admissible(r.current, r.finalized, r.queue[k].target)
      {
        assert Validate(c, r.current, r.finalized, r.queue[k].target, r.queue[k].command).None?;
      }
      SettleKeeps(c, game, g0, i.value);
      var s := Settle(c, game, i.value);
      if s.Ok? {
        NextTickKeeps(c, game, g0, s.value);
        SettleKeepsClock(c, game, i.value);
      }
    }
  }

  lemma SettleKeepsClock<G, C, P>(c: RoomConfig, game: Game<G, C, P>, r: Room<G, C, P>)
    ensures var s := Settle(c, game, r);
            s.Ok? ==> s.value.current == r.current && s.value.finalized == r.finalized && s.value.queue == []
  {
    hide Drain, Resimulate;
  }

  // ---------------------------------------------------------------- finalized ticks never change

  lemma FinalizedPrefix<C, P>(
      c: RoomConfig, current: nat, finalized: nat, history: map<nat, Record<C, P>>, log: seq<seq<Command<C>>>,
      d: Drained<C, P>)
    requires DrainInv(c, current, finalized, history, log, d)
    ensures finalized <= |log| == |d.trace.log|
    ensures d.trace.log[..finalized] == log[..finalized]
  {
    PrefixesAgree(d.trace.log, log, finalized);
  }

  /** Replaying, even from a wrongly restored state, neither adds, drops nor edits a record. */
  lemma {:induction false} ReplayTicksKeepsRecords<G, C, P>(
      game: Game<G, C, P>, r: Resimulated<G, C, P>, from: nat, through: nat)
    ensures var s := ReplayTicks(game, r, from, through);
            s.Ok? ==>
              && s.value.history.Keys == r.history.Keys
              && (forall t :: t in r.history ==> s.value.history[t].commands == r.history[t].commands)
    decreases through + 1 - from
  {
    hide ApplyAll, Capture;
    if ReplayTicks(game, r, from, through).Ok? && from <= through {
      var commands := r.history[from].commands;
      var stepped := game.step(ApplyAll(game, r.game, commands).value, from).value;
      var captured := Capture(game, stepped, from).value;
      var history := r.history[from := Record(commands, captured.snapshot, captured.hash)];
      assert history.Keys == r.history.Keys;
      ReplayTicksKeepsRecords(game, Resimulated(stepped, history), from + 1, through);
    }
  }

  lemma InitializeKeepsRecords<G, C, P>(c: RoomConfig, game: Game<G, C, P>, r: Room<G, C, P>)
    requires RecordsInv(c, r) && Initialize(game, r).Ok?
    ensures var i := Initialize(game, r).value;
            && i.initialized && RecordsInv(c, i)
            && i.trace == r.trace && i.queue == r.queue && i.current == r.current && i.finalized == r.finalized
            && i.runtime.pending == r.runtime.pending && i.runtime.sequences == r.runtime.sequences
            && i.runtime.order == r.runtime.order
  {
    hide Capture;
  }

  lemma SettleKeepsRecords<G, C, P>(c: RoomConfig, game: Game<G, C, P>, r: Room<G, C, P>)
    requires r.initialized && RecordsInv(c, r) && QueueInv(c, r) && Settle(c, game, r).Ok?
    ensures var s := Settle(c, game, r).value;
            && s.initialized && RecordsInv(c, s)
            && s.current == r.current && s.finalized == r.finalized
            && r.finalized <= |r.trace.log| == |s.trace.log|
            && s.trace.log[..r.finalized] == r.trace.log[..r.finalized]
  {
    hide Drain, RestoreBase, ReplayTicks;
    forall k | 0 <= k < |r.queue|
      ensures Admissible(r.current, r.finalized, r.queue[k].target)
    {
      assert Validate(c, r.current, r.finalized, r.queue[k].target, r.queue[k].command).None?;
    }
    var d0 := Drained(r.runtime, r.trace, None);
    assert DrainInv(c, r.current, r.finalized, r.runtime.history, r.trace.log, d0);
    DrainKeeps(c, r.current, r.finalized, r.runtime.history, r.trace.log, d0, r.queue);
    var d := Drain(c, r.current, d0, r.queue);
    FinalizedPrefix(c, r.current, r.finalized, r.runtime.history, r.trace.log, d);
    if d.late.Some? {
      var base := RestoreBase(game, r.game, d.runtime.history, d.late.value).value;
      ReplayTicksKeepsRecords(game, Resimulated(base, d.runtime.history), d.late.value, r.current);
    }
  }

  lemma NextTickKeepsRecords<G, C, P>(c: RoomConfig, game: Game<G, C, P>, r: Room<G, C, P>)
    requires r.initialized && RecordsInv(c, r) && NextTick(c, game, r).Ok?
    ensures var n := NextTick(c, game, r).value;
            && n.initialized && RecordsInv(c, n) && n.current == r.current + 1
            && r.finalized <= n.finalized
            && |n.trace.log| == |r.trace.log| + 1
            && n.trace.log[..|r.trace.log|] == r.trace.log
  {
    hide ExecuteDue, ApplyAll, Capture, HistoryInv, Retain;
    var number := r.current + 1;
    var k0 := Ticked(r.game, r.runtime.pending, [], [], []);
    NoCommands(game, r.game);
    ExecuteDueApplies(game, r.game, k0, number, c.maxPerTick);
    var k := ExecuteDue(game, k0, number, c.maxPerTick);
    var captured := Capture(game, game.step(k.game, number).value, number).value;
    RetainedHistory(c, r.current, r.finalized, r.runtime.history, r.trace.log,
                    Record(k.commands, captured.snapshot, captured.hash));
  }

  /** Whatever the game does, an advance keeps records and log in step, never touches the
      commands of a tick at or below the finalization horizon, and moves the horizon forward. */
  lemma AdvanceKeepsFinalized<G, C, P>(c: RoomConfig, game: Game<G, C, P>, r: Room<G, C, P>)
    requires RecordsInv(c, r) && QueueInv(c, r)
    requires Advance(c, game, r).Ok?
    ensures var a := Advance(c, game, r).value;
            && RecordsInv(c, a)
            && r.finalized <= |r.trace.log| < |a.trace.log|
            && r.finalized <= a.finalized
            && a.trace.log[..r.finalized] == r.trace.log[..r.finalized]
  {
    hide Initialize, Settle, NextTick, RecordsInv, Validate;
    InitializeKeepsRecords(c, game, r);
    var i := Initialize(game, r).value;
    SettleKeepsRecords(c, game, i);
    var s := Settle(c, game, i).value;
    NextTickKeepsRecords(c, game, s);
    var a := NextTick(c, game, s).value;
    assert a.trace.log[..r.finalized] == a.trace.log[..|s.trace.log|][..r.finalized];
  }
}
