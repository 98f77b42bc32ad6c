/** Scheduling order and conservation of commands over whole runs of a room. */
module RoomSchedule {
  import opened Common
  import opened Rooms

  // ---------------------------------------------------------------- execution order

  ghost predicate Sorted<C>(s: seq<Scheduled<C>>) {
    forall i, j :: 0 <= i < j < |s| ==> Before(s[i], s[j])
  }

  /** Everything executed so far, followed by everything still pending, is in strict
      (target, arrival) order, and nothing ran before its target. */
  ghost predicate OrderInv<C>(pending: seq<Scheduled<C>>, order: nat, executed: seq<Executed<C>>, current: nat) {
    && Sorted(pending)
    && (forall i :: 0 <= i < |pending| ==> pending[i].order <= order)
    && (forall i, j :: 0 <= i < j < |executed| ==> Before(executed[i].item, executed[j].item))
    && (forall i, j :: 0 <= i < |executed| && 0 <= j < |pending| ==> Before(executed[i].item, pending[j]))
    && (forall i :: 0 <= i < |executed| ==> executed[i].item.target <= executed[i].tick <= current)
  }

  lemma {:induction false} ScheduleAdds<C>(item: Scheduled<C>, pending: seq<Scheduled<C>>)
    ensures |Schedule(item, pending)| == |pending| + 1
    ensures forall i :: 0 <= i < |pending| + 1 ==>
              || Schedule(item, pending)[i] == item
              || exists j :: 0 <= j < |pending| && pending[j] == Schedule(item, pending)[i]
  {
    if pending != [] && !Before(item, pending[0]) {
      var tail := pending[1..];
      ScheduleAdds(item, tail);
      var after := Schedule(item, pending);
      forall i | 0 <= i < |after|
        ensures after[i] == item || exists j :: 0 <= j < |pending| && pending[j] == after[i]
      {
        if i == 0 {
          assert pending[0] == after[0];
        } else if after[i] != item {
          assert after[i] == Schedule(item, tail)[i - 1];
          var j :| 0 <= j < |tail| && tail[j] == after[i];
          assert pending[j + 1] == after[i];
        }
      }
    } else {
      var after := Schedule(item, pending);
      forall i | 0 <= i < |after|
        ensures after[i] == item || exists j :: 0 <= j < |pending| && pending[j] == after[i]
      {
        if 0 < i {
          assert pending[i - 1] == after[i];
        }
      }
    }
  }

  lemma {:induction false} ScheduleSorts<C>(item: Scheduled<C>, pending: seq<Scheduled<C>>)
    requires Sorted(pending)
    requires forall i :: 0 <= i < |pending| ==> pending[i].order < item.order
    ensures Sorted(Schedule(item, pending))
  {
    if pending == [] {
    } else if Before(item, pending[0]) {
      assert forall i :: 0 <= i < |pending| ==> Before(item, pending[i]);
    } else {
      var tail := pending[1..];
      ScheduleSorts(item, tail);
      ScheduleAdds(item, tail);
      var rest := Schedule(item, tail);
      forall i | 0 <= i < |rest|
        ensures Before(pending[0], rest[i])
      {
        if rest[i] != item {
          var j :| 0 <= j < |tail| && tail[j] == rest[i];
          assert pending[j + 1] == rest[i];
        }
      }
    }
  }

  /** A command scheduled for a future tick fits behind everything already executed. */
  lemma EnqueueKeepsOrder<C>(
      pending: seq<Scheduled<C>>, order: nat, executed: seq<Executed<C>>, current: nat, target: nat,
      command: Command<C>)
    requires OrderInv(pending, order, executed, current)
    requires current < target
    ensures OrderInv(Schedule(Scheduled(target, order + 1, command), pending), order + 1, executed, current)
  {
    var item := Scheduled(target, order + 1, command);
    ScheduleSorts(item, pending);
    ScheduleAdds(item, pending);
    var after := Schedule(item, pending);
    forall j | 0 <= j < |after|
      ensures after[j].order <= order + 1
      ensures forall i :: 0 <= i < |executed| ==> Before(executed[i].item, after[j])
    {
      if after[j] != item {
        var m :| 0 <= m < |pending| && pending[m] == after[j];
      }
    }
  }

  lemma {:induction false} DrainKeepsOrder<C, P>(
      c: RoomConfig, current: nat, d: Drained<C, P>, queue: seq<Submitted<C>>)
    requires OrderInv(d.runtime.pending, d.runtime.order, d.trace.executed, current)
    ensures var e := Drain(c, current, d, queue);
            && OrderInv(e.runtime.pending, e.runtime.order, e.trace.executed, current)
            && e.trace.executed == d.trace.executed
            && (|d.runtime.pending| <= c.maxPending ==> |e.runtime.pending| <= c.maxPending)
    decreases |queue|
  {
    hide OrderInv;
    if queue != [] {
      var input := queue[0];
      if input.target > current {
        EnqueueKeepsOrder(d.runtime.pending, d.runtime.order, d.trace.executed, current, input.target, input.command);
        ScheduleAdds(Scheduled(input.target, d.runtime.order + 1, input.command), d.runtime.pending);
      }
      DrainKeepsOrder(c, current, DrainOne(c, current, d, input), queue[1..]);
    }
  }

  /** Popping moves commands from the head of the schedule to the tail of the execution. */
  lemma {:induction false} ExecuteKeepsOrder<G, C, P>(
      game: Game<G, C, P>, k: Ticked<G, C>, order: nat, executed: seq<Executed<C>>, tick: nat, budget: nat)
    requires OrderInv(k.pending, order, executed + k.executed, tick)
    ensures var r := ExecuteDue(game, k, tick, budget);
            && OrderInv(r.pending, order, executed + r.executed, tick)
            && |r.pending| <= |k.pending|
            && |r.executed| <= |k.executed| + budget
            && (|r.executed| == |k.executed| + budget || r.pending == [] || r.pending[0].target > tick)
    decreases budget
  {
    if budget != 0 && k.pending != [] && k.pending[0].target <= tick {
      var next := PopDue(game, k, tick);
      PopKeepsOrder(k.pending, order, executed + k.executed, tick);
      assert executed + next.executed == (executed + k.executed) + [Executed(k.pending[0], tick)];
      hide OrderInv;
      ExecuteKeepsOrder(game, next, order, executed, tick, budget - 1);
    }
  }

  lemma PopKeepsOrder<C>(pending: seq<Scheduled<C>>, order: nat, executed: seq<Executed<C>>, tick: nat)
    requires pending != [] && pending[0].target <= tick
    requires OrderInv(pending, order, executed, tick)
    ensures OrderInv(pending[1..], order, executed + [Executed(pending[0], tick)], tick)
  {
    var after := executed + [Executed(pending[0], tick)];
    forall i, j | 0 <= i < j < |after|
      ensures Before(after[i].item, after[j].item)
    {
    }
  }

  /** A later clock reading keeps the order facts. */
  lemma ClockKeepsOrder<C>(pending: seq<Scheduled<C>>, order: nat, executed: seq<Executed<C>>, current: nat)
    requires OrderInv(pending, order, executed, current)
    ensures OrderInv(pending, order, executed, current + 1)
  {
  }

  ghost predicate ScheduleInv<G, C, P>(c: RoomConfig, r: Room<G, C, P>) {
    OrderInv(r.runtime.pending, r.runtime.order, r.trace.executed, r.current) && |r.runtime.pending| <= c.maxPending
  }

  /** Over a whole run commands execute in (target, arrival) order and never early; within a
      tick, due commands are left behind only when the per-tick limit was reached. */
  lemma AdvanceKeepsSchedule<G, C, P>(c: RoomConfig, game: Game<G, C, P>, r: Room<G, C, P>)
    requires ScheduleInv(c, r)
    requires Advance(c, game, r).Ok?
    ensures var a := Advance(c, game, r).value;
            && ScheduleInv(c, a)
            && r.trace.executed <= a.trace.executed
            && |a.trace.executed| - |r.trace.executed| <= c.maxPerTick
            && (|a.trace.executed| - |r.trace.executed| == c.maxPerTick
                || forall i :: 0 <= i < |a.runtime.pending| ==> a.runtime.pending[i].target > a.current)
  {
    hide Drain, Resimulate, ExecuteDue, Capture, Retain, OrderInv;
    var i := Initialize(game, r).value;
    var d0 := Drained(i.runtime, i.trace, None);
    DrainKeepsOrder(c, i.current, d0, i.queue);
    var s := Settle(c, game, i).value;
    ClockKeepsOrder(s.runtime.pending, s.runtime.order, s.trace.executed, s.current);
    assert s.trace.executed + [] == s.trace.executed;
    var k0 := Ticked(s.game, s.runtime.pending, [], [], []);
    ExecuteKeepsOrder(game, k0, s.runtime.order, s.trace.executed, s.current + 1, c.maxPerTick);
    var k := ExecuteDue(game, k0, s.current + 1, c.maxPerTick);
    LeftBehind(k.pending, s.runtime.order, s.trace.executed + k.executed, s.current + 1);
  }

  lemma LeftBehind<C>(pending: seq<Scheduled<C>>, order: nat, executed: seq<Executed<C>>, tick: nat)
    requires OrderInv(pending, order, executed, tick)
    ensures pending == [] || pending[0].target > tick ==> forall i :: 0 <= i < |pending| ==> pending[i].target > tick
  {
  }

  // ---------------------------------------------------------------- conservation

  function CommandsOf<C>(pending: seq<Scheduled<C>>): seq<Command<C>> {
    if pending == [] then [] else [pending[0].command] + CommandsOf(pending[1..])
  }

  function Flatten<C>(log: seq<seq<Command<C>>>): seq<Command<C>> {
    if log == [] then [] else Flatten(log[..|log| - 1]) + log[|log| - 1]
  }

  /** Taken commands of one player carry strictly increasing sequences, so no
      (player, sequence) pair is taken twice. */
  ghost predicate TakenInv<C>(taken: seq<Command<C>>, sequences: map<PlayerKey, nat>) {
    && (forall i, j :: 0 <= i < j < |taken| && taken[i].player == taken[j].player ==>
        taken[i].sequence < taken[j].sequence)
    && (forall i :: 0 <= i < |taken| ==>
        taken[i].player in sequences && taken[i].sequence <= sequences[taken[i].player])
  }

  /** Every drained command is a duplicate, refused, or taken; every taken command is still
      pending, logged at some tick, or was turned down by the game when its turn came. */
  ghost predicate AccountInv<C>(pending: seq<Scheduled<C>>, t: Trace<C>) {
    && multiset(t.received) == multiset(t.duplicates) + multiset(t.refused) + multiset(t.taken)
    && multiset(t.taken) == multiset(CommandsOf(pending)) + multiset(Flatten(t.log)) + multiset(t.failed)
  }

  lemma {:induction false} ScheduledCommands<C>(item: Scheduled<C>, pending: seq<Scheduled<C>>)
    ensures multiset(CommandsOf(Schedule(item, pending))) == multiset(CommandsOf(pending)) + multiset{item.command}
  {
    if pending != [] && !Before(item, pending[0]) {
      ScheduledCommands(item, pending[1..]);
      var after := Schedule(item, pending);
      assert after[1..] == Schedule(item, pending[1..]);
    } else {
      var after := Schedule(item, pending);
      assert after[1..] == pending;
    }
  }

  lemma {:induction false} FlattenInsert<C>(log: seq<seq<Command<C>>>, i: nat, command: Command<C>)
    requires i < |log|
    ensures multiset(Flatten(log[i := log[i] + [command]])) == multiset(Flatten(log)) + multiset{command}
    decreases |log|
  {
    var n := |log| - 1;
    var after := log[i := log[i] + [command]];
    if i == n {
      assert after[..n] == log[..n];
    } else {
      FlattenInsert(log[..n], i, command);
      assert after[..n] == log[..n][i := log[..n][i] + [command]];
    }
  }

  lemma FlattenAppend<C>(log: seq<seq<Command<C>>>, commands: seq<Command<C>>)
    ensures Flatten(log + [commands]) == Flatten(log) + commands
  {
    assert (log + [commands])[..|log|] == log;
  }

  lemma TakeKeeps<C>(taken: seq<Command<C>>, sequences: map<PlayerKey, nat>, command: Command<C>)
    requires TakenInv(taken, sequences)
    requires LastSequence(sequences, command.player) < command.sequence
    ensures TakenInv(taken + [command], sequences[command.player := command.sequence])
  {
  }

  /** The three ways a received command can be booked. */
  lemma BookTaken<C>(
      t: Trace<C>, pending: seq<Scheduled<C>>, after: seq<Scheduled<C>>, log: seq<seq<Command<C>>>,
      command: Command<C>)
    requires AccountInv(pending, t)
    requires multiset(CommandsOf(after)) + multiset(Flatten(log)) ==
        multiset(CommandsOf(pending)) + multiset(Flatten(t.log)) + multiset{command}
    ensures AccountInv(after, t.(received := t.received + [command], taken := t.taken + [command], log := log))
  {
    hide CommandsOf, Flatten;
    SumGrows(multiset(t.received), multiset(t.duplicates) + multiset(t.refused), multiset(t.taken), multiset{command});
    var kept := multiset(CommandsOf(pending)) + multiset(Flatten(t.log));
    Shuffle(kept, multiset(t.failed), multiset{command});
  }

  lemma BookDuplicate<C>(t: Trace<C>, pending: seq<Scheduled<C>>, command: Command<C>)
    requires AccountInv(pending, t)
    ensures AccountInv(pending, t.(received := t.received + [command], duplicates := t.duplicates + [command]))
  {
    hide CommandsOf, Flatten;
    var rest := multiset(t.refused) + multiset(t.taken);
    assert multiset(t.received) == multiset(t.duplicates) + rest;
    Shuffle(multiset(t.duplicates), rest, multiset{command});
  }

  lemma BookRefused<C>(t: Trace<C>, pending: seq<Scheduled<C>>, command: Command<C>)
    requires AccountInv(pending, t)
    ensures AccountInv(pending, t.(received := t.received + [command], refused := t.refused + [command]))
  {
    hide CommandsOf, Flatten;
    Shuffle(multiset(t.duplicates) + multiset(t.refused), multiset(t.taken), multiset{command});
  }

  lemma BookInserted<C>(t: Trace<C>, pending: seq<Scheduled<C>>, i: nat, command: Command<C>)
    requires i < |t.log|
    requires AccountInv(pending, t)
    ensures AccountInv(pending, t.(received := t.received + [command], taken := t.taken + [command],
        log := t.log[i := t.log[i] + [command]]))
  {
    hide CommandsOf, Flatten, AccountInv;
    FlattenInsert(t.log, i, command);
    SumGrows(multiset(CommandsOf(pending)) + multiset(Flatten(t.log)), multiset(CommandsOf(pending)),
        multiset(Flatten(t.log)), multiset{command});
    BookTaken(t, pending, pending, t.log[i := t.log[i] + [command]], command);
  }

  lemma BookEnqueued<C>(t: Trace<C>, pending: seq<Scheduled<C>>, item: Scheduled<C>)
    requires AccountInv(pending, t)
    ensures AccountInv(Schedule(item, pending),
        t.(received := t.received + [item.command], taken := t.taken + [item.command]))
  {
    hide CommandsOf, Flatten, AccountInv, Schedule;
    ScheduledCommands(item, pending);
    Shuffle(multiset(CommandsOf(pending)), multiset(Flatten(t.log)), multiset{item.command});
    BookTaken(t, pending, Schedule(item, pending), t.log, item.command);
  }

  lemma SumGrows<T>(total: multiset<T>, a: multiset<T>, b: multiset<T>, x: multiset<T>)
    requires total == a + b
    ensures total + x == a + (b + x)
  {
  }

  lemma Shuffle<T>(a: multiset<T>, b: multiset<T>, x: multiset<T>)
    ensures (a + b) + x == (a + x) + b
  {
  }

  /** Draining one input keeps the books, whatever the input is, provided it is not for tick zero. */
  lemma DrainOneAccounts<C, P>(c: RoomConfig, current: nat, d: Drained<C, P>, input: Submitted<C>)
    requires 0 < input.target
    requires |d.trace.log| == current
    requires forall t :: t in d.runtime.history && 0 < t ==>
        t <= current && d.runtime.history[t].commands == d.trace.log[t - 1]
    requires AccountInv(d.runtime.pending, d.trace)
    requires TakenInv(d.trace.taken, d.runtime.sequences)
    ensures var e := DrainOne(c, current, d, input);
            && AccountInv(e.runtime.pending, e.trace)
            && TakenInv(e.trace.taken, e.runtime.sequences)
            && |e.trace.log| == current
            && (forall t :: t in e.runtime.history && 0 < t ==>
                t <= current && e.runtime.history[t].commands == e.trace.log[t - 1])
  {
    hide TakenInv, Schedule, AccountInv;
    var command, t := input.command, d.trace;
    BookDuplicate(t, d.runtime.pending, command);
    BookRefused(t, d.runtime.pending, command);
    if LastSequence(d.runtime.sequences, command.player) < command.sequence {
      TakeKeeps(t.taken, d.runtime.sequences, command);
      if input.target <= current {
        BookInserted(t, d.runtime.pending, input.target - 1, command);
      } else {
        BookEnqueued(t, d.runtime.pending, Scheduled(input.target, d.runtime.order + 1, command));
      }
    }
  }

  lemma {:induction false} DrainAccounts<C, P>(c: RoomConfig, current: nat, d: Drained<C, P>, queue: seq<Submitted<C>>)
    requires forall i :: 0 <= i < |queue| ==> 0 < queue[i].target
    requires |d.trace.log| == current
    requires forall t :: t in d.runtime.history && 0 < t ==>
        t <= current && d.runtime.history[t].commands == d.trace.log[t - 1]
    requires AccountInv(d.runtime.pending, d.trace)
    requires TakenInv(d.trace.taken, d.runtime.sequences)
    ensures var e := Drain(c, current, d, queue);
            && AccountInv(e.runtime.pending, e.trace)
            && TakenInv(e.trace.taken, e.runtime.sequences)
    decreases |queue|
  {
    hide AccountInv, TakenInv, DrainOne;
    if queue != [] {
      DrainOneAccounts(c, current, d, queue[0]);
      DrainAccounts(c, current, DrainOne(c, current, d, queue[0]), queue[1..]);
    }
  }

  /** Popped commands end up logged or failed. */
  lemma {:induction false} ExecuteAccounts<G, C, P>(game: Game<G, C, P>, k: Ticked<G, C>, tick: nat, budget: nat)
    ensures var r := ExecuteDue(game, k, tick, budget);
            Held(r) == Held(k)
    decreases budget
  {
    if budget != 0 && k.pending != [] && k.pending[0].target <= tick {
      HeldPop(game, k, tick);
      hide Held, PopDue;
      ExecuteAccounts(game, PopDue(game, k, tick), tick, budget - 1);
    }
  }

  ghost function Held<G, C>(k: Ticked<G, C>): multiset<Command<C>> {
    multiset(CommandsOf(k.pending)) + (multiset(k.commands) + multiset(k.failed))
  }

  lemma HeldPop<G, C, P>(game: Game<G, C, P>, k: Ticked<G, C>, tick: nat)
    requires k.pending != []
    ensures Held(PopDue(game, k, tick)) == Held(k)
  {
    var x := multiset{k.pending[0].command};
    var rest, done, failed := multiset(CommandsOf(k.pending[1..])), multiset(k.commands), multiset(k.failed);
    assert multiset(CommandsOf(k.pending)) == x + rest;
    hide CommandsOf;
    Regroup(x, rest, done, failed);
  }

  lemma Regroup<T>(x: multiset<T>, rest: multiset<T>, done: multiset<T>, failed: multiset<T>)
    ensures (x + rest) + (done + failed) == rest + (done + (failed + x))
    ensures (x + rest) + (done + failed) == rest + ((done + x) + failed)
  {
  }

  lemma Restock<T>(
      taken: multiset<T>, pending: multiset<T>, log: multiset<T>, failed: multiset<T>, pending': multiset<T>,
      commands: multiset<T>, more: multiset<T>)
    requires taken == pending + log + failed
    requires pending == pending' + (commands + more)
    ensures taken == pending' + (log + commands) + (failed + more)
  {
  }

  ghost predicate ConservationInv<G, C, P>(r: Room<G, C, P>) {
    AccountInv(r.runtime.pending, r.trace) && TakenInv(r.trace.taken, r.runtime.sequences)
  }

  /** Records and log agree; tick zero has no log entry. */
  ghost predicate LoggedInv<G, C, P>(r: Room<G, C, P>) {
    && |r.trace.log| == r.current
    && (forall t :: t in r.runtime.history && 0 < t ==>
        t <= r.current && r.runtime.history[t].commands == r.trace.log[t - 1])
  }

  lemma NextTickAccounts<G, C, P>(c: RoomConfig, game: Game<G, C, P>, r: Room<G, C, P>)
    requires ConservationInv(r)
    requires NextTick(c, game, r).Ok?
    ensures ConservationInv(NextTick(c, game, r).value)
  {
    hide ExecuteDue, Capture, Retain, TakenInv, Flatten, CommandsOf;
    var k0 := Ticked(r.game, r.runtime.pending, [], [], []);
    ExecuteAccounts(game, k0, r.current + 1, c.maxPerTick);
    var k := ExecuteDue(game, k0, r.current + 1, c.maxPerTick);
    FlattenAppend(r.trace.log, k.commands);
    Restock(multiset(r.trace.taken), multiset(CommandsOf(r.runtime.pending)), multiset(Flatten(r.trace.log)),
        multiset(r.trace.failed),
            multiset(CommandsOf(k.pending)), multiset(k.commands), multiset(k.failed));
  }

  lemma SettleAccounts<G, C, P>(c: RoomConfig, game: Game<G, C, P>, r: Room<G, C, P>)
    requires ConservationInv(r) && LoggedInv(r)
    requires forall i :: 0 <= i < |r.queue| ==> 0 < r.queue[i].target
    requires Settle(c, game, r).Ok?
    ensures ConservationInv(Settle(c, game, r).value)
  {
    hide Drain, Resimulate, AccountInv, TakenInv;
    DrainAccounts(c, r.current, Drained(r.runtime, r.trace, None), r.queue);
  }

  /** Conservation and at-most-once over every successful advance. */
  lemma AdvanceConserves<G, C, P>(c: RoomConfig, game: Game<G, C, P>, r: Room<G, C, P>)
    requires ConservationInv(r) && LoggedInv(r)
    requires forall i :: 0 <= i < |r.queue| ==> 0 < r.queue[i].target
    requires Advance(c, game, r).Ok?
    ensures ConservationInv(Advance(c, game, r).value)
  {
    hide Settle, NextTick, AccountInv, TakenInv, Capture;
    var i := Initialize(game, r).value;
    SettleAccounts(c, game, i);
    NextTickAccounts(c, game, Settle(c, game, i).value);
  }
}
