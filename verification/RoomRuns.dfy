/** Whole runs of a room: any interleaving of validated submissions with advances that
    succeed, starting from a fresh room. */
module RoomRuns {
  import opened Common
  import opened Rooms
  import opened RoomReplay
  import opened RoomSchedule

  datatype RoomStep<C> = DoSubmit(target: nat, command: Command<C>) | DoAdvance

  /** An advance belongs to a run only if it succeeds; a refused submission changes nothing. */
  ghost predicate RoomEnabled<G, C, P>(c: RoomConfig, game: Game<G, C, P>, r: Room<G, C, P>, step: RoomStep<C>) {
    step.DoAdvance? ==> Advance(c, game, r).Ok?
  }

  ghost function RoomExec<G, C, P>(
      c: RoomConfig, game: Game<G, C, P>, r: Room<G, C, P>, step: RoomStep<C>): Room<G, C, P>
    requires RoomEnabled(c, game, r, step)
  {
    match step
    case DoSubmit(target, command) =>
      var s := Submit(c, r, target, command);
      if s.Err? then r else s.value
    case DoAdvance => Advance(c, game, r).value
  }

  ghost predicate RoomLegal<G, C, P>(c: RoomConfig, game: Game<G, C, P>, r: Room<G, C, P>, steps: seq<RoomStep<C>>)
    decreases |steps|
  {
    steps != [] ==> RoomEnabled(c, game, r, steps[0]) && RoomLegal(c, game, RoomExec(c, game, r, steps[0]), steps[1..])
  }

  ghost function RoomRun<G, C, P>(
      c: RoomConfig, game: Game<G, C, P>, r: Room<G, C, P>, steps: seq<RoomStep<C>>): Room<G, C, P>
    requires RoomLegal(c, game, r, steps)
    decreases |steps|
  {
    if steps == [] then r else RoomRun(c, game, RoomExec(c, game, r, steps[0]), steps[1..])
  }

  /** What every room keeps, whatever its game does. */
  ghost predicate BookInv<G, C, P>(c: RoomConfig, r: Room<G, C, P>) {
    RecordsInv(c, r) && QueueInv(c, r) && ScheduleInv(c, r) && ConservationInv(r)
  }

  ghost predicate RoomInv<G, C, P>(c: RoomConfig, game: Game<G, C, P>, g0: G, r: Room<G, C, P>) {
    BookInv(c, r) && (Pristine(g0, r) || ReplayInv(c, game, g0, r))
  }

  lemma SubmitKeepsBooks<G, C, P>(c: RoomConfig, r: Room<G, C, P>, target: nat, command: Command<C>)
    requires BookInv(c, r) && Submit(c, r, target, command).Ok?
    ensures BookInv(c, Submit(c, r, target, command).value)
  {
    hide Validate, OrderInv, AccountInv, TakenInv, HistoryInv;
  }

  lemma SubmitKeepsInv<G, C, P>(
      c: RoomConfig, game: Game<G, C, P>, g0: G, r: Room<G, C, P>, target: nat, command: Command<C>)
    requires RoomInv(c, game, g0, r)
    requires Submit(c, r, target, command).Ok?
    ensures RoomInv(c, game, g0, Submit(c, r, target, command).value)
  {
    hide BookInv, Validate, HistoryInv, CheckpointInv, Replay;
    SubmitKeepsBooks(c, r, target, command);
  }

  lemma LoggedFollows<G, C, P>(c: RoomConfig, r: Room<G, C, P>)
    requires RecordsInv(c, r)
    ensures LoggedInv(r) && r.finalized <= |r.trace.log|
  {
  }

  lemma QueuedTargets<G, C, P>(c: RoomConfig, r: Room<G, C, P>)
    requires QueueInv(c, r)
    ensures forall i :: 0 <= i < |r.queue| ==> 0 < r.queue[i].target
  {
    forall i | 0 <= i < |r.queue|
      ensures 0 < r.queue[i].target
    {
      assert Validate(c, r.current, r.finalized, r.queue[i].target, r.queue[i].command).None?;
    }
  }

  lemma AdvanceEmptiesQueue<G, C, P>(c: RoomConfig, game: Game<G, C, P>, r: Room<G, C, P>)
    requires Advance(c, game, r).Ok?
    ensures QueueInv(c, Advance(c, game, r).value)
  {
    hide Drain, Resimulate, ExecuteDue, Capture, Retain, Validate;
    assert Advance(c, game, r).value.queue == [];
  }

  lemma AdvanceKeepsBooks<G, C, P>(c: RoomConfig, game: Game<G, C, P>, r: Room<G, C, P>)
    requires BookInv(c, r) && Advance(c, game, r).Ok?
    ensures BookInv(c, Advance(c, game, r).value)
  {
    hide Advance, RecordsInv, QueueInv, ScheduleInv, ConservationInv, LoggedInv;
    AdvanceKeepsFinalized(c, game, r);
    AdvanceKeepsSchedule(c, game, r);
    LoggedFollows(c, r);
    QueuedTargets(c, r);
    AdvanceConserves(c, game, r);
    AdvanceEmptiesQueue(c, game, r);
  }

  lemma AdvanceKeepsInv<G(!new), C(!new), P(!new)>(c: RoomConfig, game: Game<G, C, P>, g0: G, r: Room<G, C, P>)
    requires RestoreInverts(game)
    requires RoomInv(c, game, g0, r)
    requires Advance(c, game, r).Ok?
    ensures RoomInv(c, game, g0, Advance(c, game, r).value)
  {
    hide Advance, RestoreInverts, Pristine, ReplayInv, QueueInv, ScheduleInv, ConservationInv, RecordsInv;
    AdvanceKeepsReplay(c, game, g0, r);
    AdvanceKeepsBooks(c, game, r);
  }

  lemma NewRoomInv<G, C, P>(c: RoomConfig, game: Game<G, C, P>, g0: G)
    ensures RoomInv(c, game, g0, NewRoom(g0))
  {
  }

  lemma {:induction false} RoomRunKeepsInv<G(!new), C(!new), P(!new)>(
      c: RoomConfig, game: Game<G, C, P>, g0: G, r: Room<G, C, P>, steps: seq<RoomStep<C>>)
    requires RestoreInverts(game)
    requires RoomInv(c, game, g0, r)
    requires RoomLegal(c, game, r, steps)
    ensures RoomInv(c, game, g0, RoomRun(c, game, r, steps))
    decreases |steps|
  {
    hide RestoreInverts, RoomInv, Advance, Submit;
    if steps != [] {
      match steps[0] {
        case DoSubmit(target, command) =>
          if Submit(c, r, target, command).Ok? {
            SubmitKeepsInv(c, game, g0, r, target, command);
          }
        case DoAdvance => AdvanceKeepsInv(c, game, g0, r);
      }
      RoomRunKeepsInv(c, game, g0, RoomExec(c, game, r, steps[0]), steps[1..]);
    }
  }

  lemma StepFinal<G, C, P>(c: RoomConfig, game: Game<G, C, P>, r: Room<G, C, P>, step: RoomStep<C>)
    requires BookInv(c, r)
    requires RoomEnabled(c, game, r, step)
    ensures var next := RoomExec(c, game, r, step);
            && BookInv(c, next)
            && r.finalized <= next.finalized
            && r.finalized <= |r.trace.log| <= |next.trace.log|
            && next.trace.log[..r.finalized] == r.trace.log[..r.finalized]
  {
    hide Advance, RecordsInv, QueueInv, ScheduleInv, ConservationInv;
    LoggedFollows(c, r);
    match step {
      case DoSubmit(target, command) =>
        if Submit(c, r, target, command).Ok? {
          SubmitKeepsBooks(c, r, target, command);
        }
      case DoAdvance =>
        AdvanceKeepsBooks(c, game, r);
        AdvanceKeepsFinalized(c, game, r);
    }
  }

  lemma {:induction false} RunKeepsBooks<G, C, P>(
      c: RoomConfig, game: Game<G, C, P>, r: Room<G, C, P>, steps: seq<RoomStep<C>>)
    requires BookInv(c, r)
    requires RoomLegal(c, game, r, steps)
    ensures BookInv(c, RoomRun(c, game, r, steps))
    decreases |steps|
  {
    hide BookInv, RoomExec, RoomEnabled;
    if steps != [] {
      StepFinal(c, game, r, steps[0]);
      RunKeepsBooks(c, game, RoomExec(c, game, r, steps[0]), steps[1..]);
    }
  }

  // ---------------------------------------------------------------- main results

  /** Rollback correctness. On every run with late commands the live state is the
      from-scratch replay of the final per-tick command log, and every retained checkpoint
      is the one that replay takes at its tick; the retained ticks are exactly those from
      the finalization horizon to the present. */
  lemma EveryRunReplays<G(!new), C(!new), P(!new)>(c: RoomConfig, game: Game<G, C, P>, g0: G, steps: seq<RoomStep<C>>)
    requires RestoreInverts(game)
    requires RoomLegal(c, game, NewRoom(g0), steps)
    ensures var r := RoomRun(c, game, NewRoom(g0), steps);
            && Replay(game, g0, r.trace.log) == Some(r.game)
            && |r.trace.log| == r.current
            && (forall i :: 0 <= i < |r.trace.log| ==> |r.trace.log[i]| <= c.maxPerTick)
            && (r.initialized ==>
                  && r.finalized == SatSub(r.current, c.window)
                  && (forall t :: t in r.runtime.history <==> r.finalized <= t <= r.current)
                  && (forall t :: t in r.runtime.history ==>
                      t <= |r.trace.log| && Good(game, g0, r.trace.log, t, r.runtime.history[t])))
  {
    hide RestoreInverts, RoomRun, RoomLegal, Good;
    NewRoomInv<G, C, P>(c, game, g0);
    RoomRunKeepsInv(c, game, g0, NewRoom(g0), steps);
  }

  /** Rollback is always possible. At any point of a run an advance can fail only because the
      game itself refused something: never for a missing or corrupted checkpoint, a missing
      record, or a restored state that does not match. */
  lemma RollbackAlwaysPossible<G(!new), C(!new), P(!new)>(
      c: RoomConfig, game: Game<G, C, P>, g0: G, steps: seq<RoomStep<C>>)
    requires RestoreInverts(game)
    requires RoomLegal(c, game, NewRoom(g0), steps)
    ensures var a := Advance(c, game, RoomRun(c, game, NewRoom(g0), steps));
            a.Err? ==> a.error in {ApplyFailed, StepFailed, CaptureFailed, RestoreFailed}
  {
    hide RestoreInverts, RoomRun, RoomLegal, Advance;
    NewRoomInv<G, C, P>(c, game, g0);
    RoomRunKeepsInv(c, game, g0, NewRoom(g0), steps);
    AdvanceKeepsReplay(c, game, g0, RoomRun(c, game, NewRoom(g0), steps));
  }

  /** Scheduling and conservation over every run of every game: each (player, sequence) is taken at most
      once, every received command is booked exactly once, and execution follows
      (target, arrival) order without ever running early. */
  lemma EveryRunAccounts<G, C, P>(c: RoomConfig, game: Game<G, C, P>, g0: G, steps: seq<RoomStep<C>>)
    requires RoomLegal(c, game, NewRoom(g0), steps)
    ensures var r := RoomRun(c, game, NewRoom(g0), steps);
            var t := r.trace;
            && multiset(t.received) == multiset(t.duplicates) + multiset(t.refused)
                                       + (multiset(CommandsOf(r.runtime.pending)) + multiset(Flatten(t.log)) +
                                           multiset(t.failed))
            && multiset(t.taken) == multiset(CommandsOf(r.runtime.pending)) + multiset(Flatten(t.log)) +
                multiset(t.failed)
            && (forall i, j :: 0 <= i < j < |t.taken| ==>
                  t.taken[i].player != t.taken[j].player || t.taken[i].sequence < t.taken[j].sequence)
            && (forall i, j :: 0 <= i < j < |t.executed| ==> Before(t.executed[i].item, t.executed[j].item))
            && (forall i :: 0 <= i < |t.executed| ==> t.executed[i].item.target <= t.executed[i].tick)
  {
    hide RoomRun, RoomLegal, CommandsOf, Flatten, RecordsInv, QueueInv;
    NewRoomBooks<G, C, P>(c, g0);
    RunKeepsBooks(c, game, NewRoom(g0), steps);
  }

  lemma NewRoomBooks<G, C, P>(c: RoomConfig, g0: G)
    ensures BookInv<G, C, P>(c, NewRoom(g0))
  {
  }

  /** Finality: whatever the game does and whatever happens later in a run, the commands of
      every tick that was finalized at some point stay what they were. */
  lemma {:induction false} FinalizedForever<G, C, P>(
      c: RoomConfig, game: Game<G, C, P>, r: Room<G, C, P>, steps: seq<RoomStep<C>>)
    requires BookInv(c, r)
    requires RoomLegal(c, game, r, steps)
    ensures var s := RoomRun(c, game, r, steps);
            && r.finalized <= |r.trace.log| <= |s.trace.log|
            && r.finalized <= s.finalized
            && s.trace.log[..r.finalized] == r.trace.log[..r.finalized]
    decreases |steps|
  {
    hide RecordsInv, QueueInv, ScheduleInv, ConservationInv, LoggedInv, RoomExec, RoomEnabled;
    LoggedFollows(c, r);
    if steps != [] {
      var next := RoomExec(c, game, r, steps[0]);
      StepFinal(c, game, r, steps[0]);
      FinalizedForever(c, game, next, steps[1..]);
      var s := RoomRun(c, game, r, steps);
      assert s.trace.log[..r.finalized] == s.trace.log[..next.finalized][..r.finalized];
      assert next.trace.log[..r.finalized] == next.trace.log[..next.finalized][..r.finalized];
    }
  }
}
