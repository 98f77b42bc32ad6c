/** The authoritative room: schedules commands by (target tick, arrival), advances ticks,
    keeps a checkpoint per tick, and rolls back to insert late commands. */
module Rooms {
  import opened Common

  // ---------------------------------------------------------------- vocabulary

  datatype Command<C> = Command(player: PlayerKey, sequence: nat, value: C)

  datatype Submitted<C> = Submitted(target: nat, command: Command<C>)

  datatype Scheduled<C> = Scheduled(target: nat, order: nat, command: Command<C>)

  datatype Executed<C> = Executed(item: Scheduled<C>, tick: nat)

  /** The commands executed at a tick and the checkpoint taken after it. */
  datatype Record<C, P> = Record(commands: seq<Command<C>>, snapshot: P, hash: nat)

  datatype RoomConfig = RoomConfig(maxFuture: nat, capacity: nat, maxPending: nat, maxPerTick: nat, window: nat)

  datatype RoomError =
    | InvalidCommand | TargetFixed | QueueFull
    | RollbackTarget | MissingCheckpoint | CorruptedCheckpoint | RestoreMismatch | MissingHistory
    | ApplyFailed | StepFailed | CaptureFailed | RestoreFailed

  /** The game as deterministic functions. `apply` failing means the state is unchanged;
      `hash` is the digest of the canonical encoding, absent when encoding is refused. */
  datatype Game<!G, !C, !P> = Game(
    apply: (G, Command<C>) -> Option<G>,
    step: (G, nat) -> Option<G>,
    snapshot: (G, nat) -> Option<P>,
    hash: P -> Option<nat>,
    restore: (G, nat, P) -> Option<G>)

  /** A successful restore brings back the state the snapshot was taken from. */
  ghost predicate RestoreInverts<G(!new), C(!new), P(!new)>(game: Game<G, C, P>) {
    forall g, t, p, any {:trigger game.snapshot(g, t), game.restore(any, t, p)} ::
      game.snapshot(g, t) == Some(p) && game.restore(any, t, p).Some? ==> game.restore(any, t, p) == Some(g)
  }

  /** Scheduler and history. `pending` is the priority queue, listed in pop order. */
  datatype Runtime<C, P> = Runtime(
    pending: seq<Scheduled<C>>,
    history: map<nat, Record<C, P>>,
    sequences: map<PlayerKey, nat>,
    order: nat)

  /** Bookkeeping of a whole run, which no operation reads: the final command log per tick,
      and what became of every command that was drained. */
  datatype Trace<C> = Trace(
    log: seq<seq<Command<C>>>,
    received: seq<Command<C>>,
    duplicates: seq<Command<C>>,
    refused: seq<Command<C>>,
    failed: seq<Command<C>>,
    taken: seq<Command<C>>,
    executed: seq<Executed<C>>)

  datatype Room<G, C, P> = Room(
    game: G,
    queue: seq<Submitted<C>>,
    runtime: Runtime<C, P>,
    current: nat,
    finalized: nat,
    initialized: bool,
    trace: Trace<C>)

  function NewRoom<G, C, P>(g: G): Room<G, C, P> {
    Room(g, [], Runtime([], map[], map[], 0), 0, 0, false,
         Trace([], [], [], [], [], [], []))
  }

  // ---------------------------------------------------------------- submission

  function Validate<C>(
      c: RoomConfig, current: nat, finalized: nat, target: nat, command: Command<C>): Option<RoomError>
  {
    if target == 0 || !ValidPlayer(command.player) || command.sequence == 0
        || target > SatAdd(current, c.maxFuture) then Some(InvalidCommand)
    else if target <= current && (c.window == 0 || target <= finalized) then Some(TargetFixed)
    else None
  }

  function Submit<G, C, P>(
      c: RoomConfig, r: Room<G, C, P>, target: nat, command: Command<C>): Result<Room<G, C, P>, RoomError>
  {
    var refusal := Validate(c, r.current, r.finalized, target, command);
    if refusal.Some? then Err(refusal.value)
    else if |r.queue| >= c.capacity then Err(QueueFull)
    else Ok(r.(queue := r.queue + [Submitted(target, command)]))
  }

  // ---------------------------------------------------------------- scheduling order

  predicate Before<C>(a: Scheduled<C>, b: Scheduled<C>) {
    a.target < b.target || (a.target == b.target && a.order < b.order)
  }

  /** Pushing onto the priority queue. */
  function Schedule<C>(item: Scheduled<C>, pending: seq<Scheduled<C>>): seq<Scheduled<C>> {
    if pending == [] || Before(item, pending[0]) then [item] + pending
    else [pending[0]] + Schedule(item, pending[1..])
  }

  // ---------------------------------------------------------------- draining the submission queue

  datatype Drained<C, P> = Drained(runtime: Runtime<C, P>, trace: Trace<C>, late: Option<nat>)

  function LastSequence(sequences: map<PlayerKey, nat>, player: PlayerKey): nat {
    if player in sequences then sequences[player] else 0
  }

  function Earlier(late: Option<nat>, target: nat): Option<nat> {
    if late.None? || target < late.value then Some(target) else late
  }

  function Insert<C, P>(c: RoomConfig, d: Drained<C, P>, target: nat, command: Command<C>): Drained<C, P>
    requires target in d.runtime.history
  {
    var record := d.runtime.history[target];
    var commands := record.commands + [command];
    Drained(
      d.runtime.(sequences := d.runtime.sequences[command.player := command.sequence],
                 history := d.runtime.history[target := record.(commands := commands)]),
      d.trace.(log := if 0 < target <= |d.trace.log| then d.trace.log[target - 1 := commands] else d.trace.log,
               taken := d.trace.taken + [command]),
      Earlier(d.late, target))
  }

  function Enqueue<C, P>(d: Drained<C, P>, target: nat, command: Command<C>): Drained<C, P> {
    var order := d.runtime.order + 1;
    d.(runtime := d.runtime.(sequences := d.runtime.sequences[command.player := command.sequence],
                             order := order,
                             pending := Schedule(Scheduled(target, order, command), d.runtime.pending)),
       trace := d.trace.(taken := d.trace.taken + [command]))
  }

  function DrainOne<C, P>(c: RoomConfig, current: nat, d0: Drained<C, P>, input: Submitted<C>): Drained<C, P> {
    var command := input.command;
    var d := d0.(trace := d0.trace.(received := d0.trace.received + [command]));
    if command.sequence <= LastSequence(d.runtime.sequences, command.player) then
      d.(trace := d.trace.(duplicates := d.trace.duplicates + [command]))
    else if input.target <= current then
      if input.target in d.runtime.history && |d.runtime.history[input.target].commands| < c.maxPerTick then
        Insert(c, d, input.target, command)
      else d.(trace := d.trace.(refused := d.trace.refused + [command]))
    else if |d.runtime.pending| >= c.maxPending then
      d.(trace := d.trace.(refused := d.trace.refused + [command]))
    else Enqueue(d, input.target, command)
  }

  function Drain<C, P>(c: RoomConfig, current: nat, d: Drained<C, P>, queue: seq<Submitted<C>>): Drained<C, P>
    decreases |queue|
  {
    if queue == [] then d else Drain(c, current, DrainOne(c, current, d, queue[0]), queue[1..])
  }

  // ---------------------------------------------------------------- one tick of the game

  function ApplyAll<G, C, P>(game: Game<G, C, P>, g: G, commands: seq<Command<C>>): Option<G>
    decreases |commands|
  {
    if commands == [] then Some(g)
    else
      var next := game.apply(g, commands[0]);
      if next.None? then None else ApplyAll(game, next.value, commands[1..])
  }

  /** All commands of a tick must apply, then the tick steps. */
  function PlayTick<G, C, P>(game: Game<G, C, P>, g: G, commands: seq<Command<C>>, tick: nat): Option<G> {
    var applied := ApplyAll(game, g, commands);
    if applied.None? then None else game.step(applied.value, tick)
  }

  /** From scratch: plays ticks `1..|log|` of a command log. */
  function Replay<G, C, P>(game: Game<G, C, P>, g0: G, log: seq<seq<Command<C>>>): Option<G>
    decreases |log|
  {
    if log == [] then Some(g0)
    else
      var before := Replay(game, g0, log[..|log| - 1]);
      if before.None? then None else PlayTick(game, before.value, log[|log| - 1], |log|)
  }

  datatype Captured<P> = Captured(snapshot: P, hash: nat)

  function Capture<G, C, P>(game: Game<G, C, P>, g: G, tick: nat): Option<Captured<P>> {
    var snapshot := game.snapshot(g, tick);
    if snapshot.None? then None
    else
      var hash := game.hash(snapshot.value);
      if hash.None? then None else Some(Captured(snapshot.value, hash.value))
  }

  // ---------------------------------------------------------------- rollback

  datatype Resimulated<G, C, P> = Resimulated(game: G, history: map<nat, Record<C, P>>)

  /** Replays recorded ticks `from..through`, refreshing their checkpoints. */
  function ReplayTicks<G, C, P>(
      game: Game<G, C, P>, r: Resimulated<G, C, P>, from: nat, through: nat): Result<Resimulated<G, C, P>, RoomError>
    decreases through + 1 - from
  {
    if from > through then Ok(r)
    else if from !in r.history then Err(MissingHistory)
    else
      var commands := r.history[from].commands;
      var applied := ApplyAll(game, r.game, commands);
      if applied.None? then Err(ApplyFailed)
      else
        var stepped := game.step(applied.value, from);
        if stepped.None? then Err(StepFailed)
        else
          var captured := Capture(game, stepped.value, from);
          if captured.None? then Err(CaptureFailed)
          else
            var record := Record(commands, captured.value.snapshot, captured.value.hash);
            ReplayTicks(game, Resimulated(stepped.value, r.history[from := record]), from + 1, through)
  }

  /** Verifies and restores the checkpoint below `from`. */
  function RestoreBase<G, C, P>(
      game: Game<G, C, P>, g: G, history: map<nat, Record<C, P>>, from: nat): Result<G, RoomError>
  {
    if from == 0 then Err(RollbackTarget)
    else if from - 1 !in history then Err(MissingCheckpoint)
    else
      var checkpoint := history[from - 1];
      var stored := game.hash(checkpoint.snapshot);
      if stored.None? then Err(CaptureFailed)
      else if stored.value != checkpoint.hash then Err(CorruptedCheckpoint)
      else
        var restored := game.restore(g, from - 1, checkpoint.snapshot);
        if restored.None? then Err(RestoreFailed)
        else
          var verified := Capture(game, restored.value, from - 1);
          if verified.None? then Err(CaptureFailed)
          else if verified.value.hash != checkpoint.hash then Err(RestoreMismatch)
          else Ok(restored.value)
  }

  function Resimulate<G, C, P>(
      game: Game<G, C, P>, g: G, history: map<nat, Record<C, P>>, from: nat, through: nat)
  : Result<Resimulated<G, C, P>, RoomError>
  {
    var base := RestoreBase(game, g, history, from);
    if base.Err? then Err(base.error)
    else ReplayTicks(game, Resimulated(base.value, history), from, through)
  }

  // ---------------------------------------------------------------- executing due commands

  datatype Ticked<G, C> = Ticked(game: G, pending: seq<Scheduled<C>>, commands: seq<Command<C>>,
      failed: seq<Command<C>>, executed: seq<Executed<C>>)

  /** Pops and tries the next scheduled command. */
  function PopDue<G, C, P>(game: Game<G, C, P>, k: Ticked<G, C>, tick: nat): Ticked<G, C>
    requires k.pending != []
  {
    var item := k.pending[0];
    var next := game.apply(k.game, item.command);
    var executed := k.executed + [Executed(item, tick)];
    if next.None? then Ticked(k.game, k.pending[1..], k.commands, k.failed + [item.command], executed)
    else Ticked(next.value, k.pending[1..], k.commands + [item.command], k.failed, executed)
  }

  /** Executes due commands in schedule order, at most `budget` of them. */
  function ExecuteDue<G, C, P>(game: Game<G, C, P>, k: Ticked<G, C>, tick: nat, budget: nat): Ticked<G, C>
    decreases budget
  {
    if budget == 0 || k.pending == [] || k.pending[0].target > tick then k
    else ExecuteDue(game, PopDue(game, k, tick), tick, budget - 1)
  }

  function Retain<C, P>(history: map<nat, Record<C, P>>, through: nat): map<nat, Record<C, P>> {
    map t | t in history && t >= through :: history[t]
  }

  // ---------------------------------------------------------------- advancing one tick

  /** Takes the checkpoint of tick zero once. */
  function Initialize<G, C, P>(game: Game<G, C, P>, r: Room<G, C, P>): Result<Room<G, C, P>, RoomError> {
    if r.initialized then Ok(r)
    else
      var captured := Capture(game, r.game, 0);
      if captured.None? then Err(CaptureFailed)
      else
        var record := Record([], captured.value.snapshot, captured.value.hash);
        Ok(r.(runtime := r.runtime.(history := r.runtime.history[0 := record]), initialized := true))
  }

  /** Drains the queue and, when a late command was taken, rolls back and resimulates. */
  function Settle<G, C, P>(c: RoomConfig, game: Game<G, C, P>, r: Room<G, C, P>): Result<Room<G, C, P>, RoomError> {
    var d := Drain(c, r.current, Drained(r.runtime, r.trace, None), r.queue);
    if d.late.None? then Ok(r.(queue := [], runtime := d.runtime, trace := d.trace))
    else
      var s := Resimulate(game, r.game, d.runtime.history, d.late.value, r.current);
      if s.Err? then Err(s.error)
      else Ok(r.(queue := [], game := s.value.game, runtime := d.runtime.(history := s.value.history),
          trace := d.trace))
  }

  /** Executes the next tick, takes its checkpoint and moves the finalization horizon. */
  function NextTick<G, C, P>(c: RoomConfig, game: Game<G, C, P>, r: Room<G, C, P>): Result<Room<G, C, P>, RoomError> {
    var number := r.current + 1;
    var k := ExecuteDue(game, Ticked(r.game, r.runtime.pending, [], [], []), number, c.maxPerTick);
    var stepped := game.step(k.game, number);
    if stepped.None? then Err(StepFailed)
    else
      var captured := Capture(game, stepped.value, number);
      if captured.None? then Err(CaptureFailed)
      else
        var record := Record(k.commands, captured.value.snapshot, captured.value.hash);
        var through := SatSub(number, c.window);
        Ok(Room(stepped.value, r.queue,
                r.runtime.(pending := k.pending, history := Retain(r.runtime.history[number := record], through)),
                number,
                if through > r.finalized then through else r.finalized,
                r.initialized,
                r.trace.(log := r.trace.log + [k.commands],
                         failed := r.trace.failed + k.failed,
                         executed := r.trace.executed + k.executed)))
  }

  function Advance<G, C, P>(c: RoomConfig, game: Game<G, C, P>, r: Room<G, C, P>): Result<Room<G, C, P>, RoomError> {
    var initialized := Initialize(game, r);
    if initialized.Err? then initialized
    else
      var settled := Settle(c, game, initialized.value);
      if settled.Err? then settled else NextTick(c, game, settled.value)
  }
}
