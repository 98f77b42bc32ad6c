/** The room as an object: the loops of `drain`, `resimulate` and `advance_inner` working on
    mutable fields, each proved to refine the corresponding function of `Rooms`. */
module RoomObjects {
  import opened Common
  import opened Rooms

  /** Applies recorded commands in order; stops at the first refusal. */
  method ApplyCommands<G, C, P>(rules: Game<G, C, P>, g: G, commands: seq<Command<C>>) returns (r: Option<G>)
    ensures r == ApplyAll(rules, g, commands)
  {
    var state := g;
    for i := 0 to |commands|
      invariant ApplyAll(rules, state, commands[i..]) == ApplyAll(rules, g, commands)
    {
      assert commands[i..][0] == commands[i] && commands[i..][1..] == commands[i + 1..];
      var next := rules.apply(state, commands[i]);
      if next.None? {
        return None;
      }
      state := next.value;
    }
    r := Some(state);
  }

  class RoomObject<G(!new), C(!new), P(!new)> {
    const config: RoomConfig
    const rules: Game<G, C, P>
    var game: G
    var queue: seq<Submitted<C>>
    var pending: seq<Scheduled<C>>
    var history: map<nat, Record<C, P>>
    var sequences: map<PlayerKey, nat>
    var order: nat
    var current: nat
    var finalized: nat
    var initialized: bool
    ghost var trace: Trace<C>

    ghost function RuntimeView(): Runtime<C, P>
      reads this
    {
      Runtime(pending, history, sequences, order)
    }

    ghost function View(): Room<G, C, P>
      reads this
    {
      Room(game, queue, RuntimeView(), current, finalized, initialized, trace)
    }

    constructor (c: RoomConfig, rules: Game<G, C, P>, g: G)
      ensures config == c && this.rules == rules
      ensures View() == NewRoom(g)
    {
      config, this.rules, game := c, rules, g;
      queue, pending, history, sequences, order := [], [], map[], map[], 0;
      current, finalized, initialized := 0, 0, false;
      trace := Trace([], [], [], [], [], [], []);
    }

    /** `try_submit_at`: queues a validated command. */
    method TrySubmitAt(target: nat, command: Command<C>) returns (r: Option<RoomError>)
      modifies this`queue
      ensures r.Some? ==> Submit(config, old(View()), target, command) == Err(r.value) && View() == old(View())
      ensures r.None? ==> Submit(config, old(View()), target, command) == Ok(View())
    {
      var refusal := Validate(config, current, finalized, target, command);
      if refusal.Some? {
        return refusal;
      }
      if |queue| >= config.capacity {
        return Some(QueueFull);
      }
      queue := queue + [Submitted(target, command)];
      r := None;
    }

    /** One turn of the drain loop. */
    method DrainInput(input: Submitted<C>, late: Option<nat>) returns (next: Option<nat>)
      modifies this`pending, this`history, this`sequences, this`order, this`trace
      ensures Drained(RuntimeView(), trace, next) ==
          DrainOne(config, current, Drained(old(RuntimeView()), old(trace), late), input)
    {
      var command := input.command;
      next := late;
      trace := trace.(received := trace.received + [command]);
      if command.sequence <= LastSequence(sequences, command.player) {
        trace := trace.(duplicates := trace.duplicates + [command]);
      } else if input.target <= current {
        if input.target in history && |history[input.target].commands| < config.maxPerTick {
          sequences := sequences[command.player := command.sequence];
          var record := history[input.target];
          history := history[input.target := record.(commands := record.commands + [command])];
          trace := trace.(log := if 0 < input.target <= |trace.log|
              then trace.log[input.target - 1 := record.commands + [command]] else trace.log,
                          taken := trace.taken + [command]);
          next := Earlier(late, input.target);
        } else {
          trace := trace.(refused := trace.refused + [command]);
        }
      } else if |pending| >= config.maxPending {
        trace := trace.(refused := trace.refused + [command]);
      } else {
        sequences := sequences[command.player := command.sequence];
        order := order + 1;
        pending := Schedule(Scheduled(input.target, order, command), pending);
        trace := trace.(taken := trace.taken + [command]);
      }
    }

    /** `drain`: empties the submission queue and reports the earliest late target. */
    method DrainQueue() returns (late: Option<nat>)
      modifies this`queue, this`pending, this`history, this`sequences, this`order, this`trace
      ensures queue == []
      ensures Drained(RuntimeView(), trace, late) ==
          Drain(config, current, Drained(old(RuntimeView()), old(trace), None), old(queue))
    {
      hide DrainOne;
      late := None;
      while queue != []
        invariant Drain(config, current, Drained(RuntimeView(), trace, late), queue)
               == Drain(config, current, Drained(old(RuntimeView()), old(trace), None), old(queue))
        decreases |queue|
      {
        var input := queue[0];
        queue := queue[1..];
        late := DrainInput(input, late);
      }
    }

    /** Captures a checkpoint of the live state. */
    method TakeCheckpoint(tick: nat) returns (r: Option<Captured<P>>)
      ensures r == Capture(rules, game, tick)
    {
      var snapshot := rules.snapshot(game, tick);
      if snapshot.None? {
        return None;
      }
      var hash := rules.hash(snapshot.value);
      if hash.None? {
        return None;
      }
      r := Some(Captured(snapshot.value, hash.value));
    }

    /** Verifies and restores the checkpoint below `from`. */
    method RestoreCheckpoint(from: nat) returns (r: Option<RoomError>)
      modifies this`game
      ensures r.Some? ==> RestoreBase(rules, old(game), history, from) == Err(r.value)
      ensures r.None? ==> RestoreBase(rules, old(game), history, from) == Ok(game)
    {
      if from == 0 {
        return Some(RollbackTarget);
      }
      if from - 1 !in history {
        return Some(MissingCheckpoint);
      }
      var checkpoint := history[from - 1];
      var stored := rules.hash(checkpoint.snapshot);
      if stored.None? {
        return Some(CaptureFailed);
      }
      if stored.value != checkpoint.hash {
        return Some(CorruptedCheckpoint);
      }
      var restored := rules.restore(game, from - 1, checkpoint.snapshot);
      if restored.None? {
        return Some(RestoreFailed);
      }
      game := restored.value;
      var verified := TakeCheckpoint(from - 1);
      if verified.None? {
        return Some(CaptureFailed);
      }
      if verified.value.hash != checkpoint.hash {
        return Some(RestoreMismatch);
      }
      r := None;
    }

    /** Replays one recorded tick and refreshes its checkpoint. */
    method ReplayRecorded(number: nat, ghost through: nat) returns (r: Option<RoomError>)
      requires number <= through
      modifies this`game, this`history
      ensures r.Some? ==> ReplayTicks(rules, Resimulated(old(game), old(history)), number, through) == Err(r.value)
      ensures r.None? ==> ReplayTicks(rules, Resimulated(old(game), old(history)), number, through) ==
                          ReplayTicks(rules, Resimulated(game, history), number + 1, through)
    {
      hide ApplyAll, Capture;
      if number !in history {
        return Some(MissingHistory);
      }
      var commands := history[number].commands;
      var applied := ApplyCommands(rules, game, commands);
      if applied.None? {
        return Some(ApplyFailed);
      }
      var stepped := rules.step(applied.value, number);
      if stepped.None? {
        return Some(StepFailed);
      }
      game := stepped.value;
      var captured := TakeCheckpoint(number);
      if captured.None? {
        return Some(CaptureFailed);
      }
      history := history[number := Record(commands, captured.value.snapshot, captured.value.hash)];
      r := None;
    }

    /** `resimulate`: rolls back below `from` and replays through the present. */
    method ResimulateFrom(from: nat, through: nat) returns (r: Option<RoomError>)
      modifies this`game, this`history
      ensures r.Some? ==> Resimulate(rules, old(game), old(history), from, through) == Err(r.value)
      ensures r.None? ==> Resimulate(rules, old(game), old(history), from, through) == Ok(Resimulated(game, history))
    {
      hide ReplayTicks, RestoreBase;
      r := RestoreCheckpoint(from);
      if r.Some? {
        return;
      }
      ghost var start := Resimulated(game, history);
      var number := from;
      while number <= through
        invariant number == from || from < number <= through + 1
        invariant ReplayTicks(rules, Resimulated(game, history), number, through) ==
            ReplayTicks(rules, start, from, through)
        decreases through + 1 - number
      {
        r := ReplayRecorded(number, through);
        if r.Some? {
          return;
        }
        number := number + 1;
      }
      ReplayedAll(rules, Resimulated(game, history), number, through);
      r := None;
    }

    /** Executes the due commands of a tick in schedule order. */
    method ExecuteCommands(number: nat) returns (commands: seq<Command<C>>)
      modifies this`game, this`pending, this`trace
      ensures var k := ExecuteDue(rules, Ticked(old(game), old(pending), [], [], []), number, config.maxPerTick);
              && game == k.game && pending == k.pending && commands == k.commands
              && trace == old(trace).(failed := old(trace).failed + k.failed,
                  executed := old(trace).executed + k.executed)
    {
      commands := [];
      ghost var failed: seq<Command<C>>, executed: seq<Executed<C>> := [], [];
      var budget := config.maxPerTick;
      while budget != 0 && pending != [] && pending[0].target <= number
        invariant ExecuteDue(rules, Ticked(game, pending, commands, failed, executed), number, budget)
               == ExecuteDue(rules, Ticked(old(game), old(pending), [], [], []), number, config.maxPerTick)
        invariant trace == old(trace)
        decreases budget
      {
        var item := pending[0];
        pending, budget := pending[1..], budget - 1;
        executed := executed + [Executed(item, number)];
        var next := rules.apply(game, item.command);
        if next.Some? {
          game, commands := next.value, commands + [item.command];
        } else {
          failed := failed + [item.command];
        }
      }
      trace := trace.(failed := trace.failed + failed, executed := trace.executed + executed);
    }

    /** The last part of `advance_inner`: the new tick itself. */
    method RunTick() returns (r: Option<RoomError>)
      modifies this
      ensures r.Some? ==> NextTick(config, rules, old(View())) == Err(r.value)
      ensures r.None? ==> NextTick(config, rules, old(View())) == Ok(View())
    {
      hide ExecuteDue, Capture, Retain;
      var number := current + 1;
      var commands := ExecuteCommands(number);
      var stepped := rules.step(game, number);
      if stepped.None? {
        return Some(StepFailed);
      }
      game := stepped.value;
      var captured := TakeCheckpoint(number);
      if captured.None? {
        return Some(CaptureFailed);
      }
      CommitTick(number, Record(commands, captured.value.snapshot, captured.value.hash));
      r := None;
    }

    /** Records the tick and moves the finalization horizon. */
    method CommitTick(number: nat, record: Record<C, P>)
      modifies this`history, this`trace, this`current, this`finalized
      ensures history == Retain(old(history)[number := record], SatSub(number, config.window))
      ensures current == number
      ensures finalized == if SatSub(number, config.window) > old(finalized) then SatSub(number, config.window)
          else old(finalized)
      ensures trace == old(trace).(log := old(trace).log + [record.commands])
    {
      history := history[number := record];
      trace := trace.(log := trace.log + [record.commands]);
      current := number;
      var through := SatSub(number, config.window);
      if through > finalized {
        finalized := through;
      }
      history := Retain(history, through);
    }

    method InitializeOnce() returns (r: Option<RoomError>)
      modifies this`history, this`initialized
      ensures r.Some? ==> Initialize(rules, old(View())) == Err(r.value)
      ensures r.None? ==> Initialize(rules, old(View())) == Ok(View())
    {
      hide Capture;
      if initialized {
        return None;
      }
      var captured := TakeCheckpoint(0);
      if captured.None? {
        return Some(CaptureFailed);
      }
      history := history[0 := Record([], captured.value.snapshot, captured.value.hash)];
      initialized := true;
      r := None;
    }

    method SettleQueue() returns (r: Option<RoomError>)
      modifies this
      ensures r.Some? ==> Settle(config, rules, old(View())) == Err(r.value)
      ensures r.None? ==> Settle(config, rules, old(View())) == Ok(View())
    {
      hide Drain, Resimulate;
      var late := DrainQueue();
      if late.Some? {
        r := ResimulateFrom(late.value, current);
        return;
      }
      r := None;
    }

    /** `advance_inner`: one tick, with rollback when late commands arrived. */
    method AdvanceOne() returns (r: Option<RoomError>)
      modifies this
      ensures r.Some? ==> Advance(config, rules, old(View())) == Err(r.value)
      ensures r.None? ==> Advance(config, rules, old(View())) == Ok(View())
    {
      hide Initialize, Settle, NextTick;
      r := InitializeOnce();
      if r.Some? {
        return;
      }
      r := SettleQueue();
      if r.Some? {
        return;
      }
      r := RunTick();
    }
  }

  lemma ReplayedAll<G, C, P>(rules: Game<G, C, P>, r: Resimulated<G, C, P>, number: nat, through: nat)
    requires number > through
    ensures ReplayTicks(rules, r, number, through) == Ok(r)
  {
  }
}
