/** What becomes of one submission: when it is refused, where it waits, at which tick it runs,
    and when the game turned it down. */
module RoomFates {
  import opened Common
  import opened Rooms
  import opened RoomEdges
  import opened RoomReplay
  import opened RoomRuns
  import opened RoomSchedule

  // ---------------------------------------------------------------- accepting a submission

  /** A submission is queued if and only if its fields are sound, its tick is not too far ahead,
      a past tick is still open, and the queue has room. */
  lemma SubmitExactly<G, C, P>(c: RoomConfig, r: Room<G, C, P>, target: nat, command: Command<C>)
    ensures var result := Submit(c, r, target, command);
            var sound := 0 < target <= SatAdd(r.current, c.maxFuture) && ValidPlayer(command.player)
                         && 0 < command.sequence;
            var open := target > r.current || (0 < c.window && target > r.finalized);
            && (result.Ok? <==> sound && open && |r.queue| < c.capacity)
            && (result == Err(InvalidCommand) <==> !sound)
            && (result == Err(TargetFixed) <==> sound && !open)
            && (result == Err(QueueFull) <==> sound && open && |r.queue| >= c.capacity)
            && (result.Ok? ==> result.value == r.(queue := r.queue + [Submitted(target, command)]))
  {
  }

  /** In a reachable room, past ticks are open exactly while both their record and the checkpoint
      below it are retained, so that a rollback to them is possible. */
  lemma OpenMeansRetained<G, C, P>(
      c: RoomConfig, game: Game<G, C, P>, g0: G, r: Room<G, C, P>, target: nat, command: Command<C>)
    requires ReplayInv(c, game, g0, r)
    requires 0 < target <= r.current <= U64_MAX && ValidPlayer(command.player) && 0 < command.sequence
    ensures Validate(c, r.current, r.finalized, target, command).None? <==>
            target in r.runtime.history && target - 1 in r.runtime.history
  {
    hide CheckpointInv, Replay;
  }

  // ---------------------------------------------------------------- draining one submission

  /** The tick has no room for another command. */
  predicate Blocked<C, P>(c: RoomConfig, current: nat, runtime: Runtime<C, P>, target: nat) {
    if target <= current then
      target !in runtime.history || |runtime.history[target].commands| >= c.maxPerTick
    else |runtime.pending| >= c.maxPending
  }

  /** `after` is `before` with `x` placed behind everything due no later and before all else. */
  ghost predicate PlacedAt<C>(before: seq<Scheduled<C>>, x: Scheduled<C>, after: seq<Scheduled<C>>, k: nat) {
    && k <= |before|
    && after == before[..k] + [x] + before[k..]
    && (forall i :: 0 <= i < k ==> before[i].target <= x.target)
    && (forall i :: k <= i < |before| ==> x.target < before[i].target)
  }

  ghost predicate Placed<C>(before: seq<Scheduled<C>>, x: Scheduled<C>, after: seq<Scheduled<C>>) {
    exists k: nat :: PlacedAt(before, x, after, k)
  }

  lemma {:induction false} ScheduleExactly<C>(item: Scheduled<C>, pending: seq<Scheduled<C>>) returns (k: nat)
    requires Sorted(pending)
    requires forall i :: 0 <= i < |pending| ==> pending[i].order < item.order
    ensures PlacedAt(pending, item, Schedule(item, pending), k)
    decreases |pending|
  {
    if pending == [] || Before(item, pending[0]) {
      k := 0;
      assert forall i :: 0 < i < |pending| ==> Before(pending[0], pending[i]);
    } else {
      var tail := pending[1..];
      k := ScheduleExactly(item, tail);
      PlacedBehind(pending[0], tail, item, Schedule(item, tail), k);
      assert pending == [pending[0]] + tail;
      k := k + 1;
    }
  }

  lemma PlacedBehind<C>(
      first: Scheduled<C>, before: seq<Scheduled<C>>, x: Scheduled<C>, after: seq<Scheduled<C>>, k: nat)
    requires PlacedAt(before, x, after, k) && first.target <= x.target
    ensures PlacedAt([first] + before, x, [first] + after, k + 1)
  {
    var longer := [first] + before;
    assert longer[..k + 1] == [first] + before[..k] && longer[k + 1..] == before[k..];
    assert [first] + after == longer[..k + 1] + [x] + longer[k + 1..];
  }

  /** The late part: the command joins its tick's record and log entry, nothing waits. */
  ghost predicate JoinsRecord<C, P>(d: Drained<C, P>, e: Drained<C, P>, target: nat, command: Command<C>) {
    && target in d.runtime.history && e.runtime.history.Keys == d.runtime.history.Keys
    && e.runtime.history[target] ==
       d.runtime.history[target].(commands := d.runtime.history[target].commands + [command])
    && (forall t :: t in d.runtime.history && t != target ==> e.runtime.history[t] == d.runtime.history[t])
    && e.runtime.pending == d.runtime.pending && e.runtime.order == d.runtime.order
    && e.late.Some? && e.late.value <= target
    && (d.late.Some? ==> e.late.value <= d.late.value)
    && (e.late == Some(target) || e.late == d.late)
    && |e.trace.log| == |d.trace.log|
    && (forall i :: 0 <= i < |d.trace.log| && i + 1 != target ==> e.trace.log[i] == d.trace.log[i])
    && (0 < target <= |d.trace.log| ==> e.trace.log[target - 1] == e.runtime.history[target].commands)
  }

  /** The early part: the command waits under its target and a new largest arrival number. */
  ghost predicate JoinsSchedule<C, P>(d: Drained<C, P>, e: Drained<C, P>, target: nat, command: Command<C>) {
    && e.runtime.history == d.runtime.history && e.trace.log == d.trace.log && e.late == d.late
    && e.runtime.order == d.runtime.order + 1
    && Placed(d.runtime.pending, Scheduled(target, d.runtime.order + 1, command), e.runtime.pending)
  }

  /** The fate of a submission, given what the submissions before it led to. It is a duplicate
      exactly when its player had a number as high taken; otherwise it is refused exactly when its
      tick is unrecorded or full, or, for a future tick, when enough commands already wait. */
  lemma SubmissionFate<C, P>(
      c: RoomConfig, current: nat, d0: Drained<C, P>, queue: seq<Submitted<C>>, input: Submitted<C>)
    requires OrderInv(d0.runtime.pending, d0.runtime.order, d0.trace.executed, current)
    ensures var d := Drain(c, current, d0, queue);
            var e := Drain(c, current, d0, queue + [input]);
            var x := input.command;
            var isNew := x.sequence > LastSequence(d.runtime.sequences, x.player);
            var blocked := Blocked(c, current, d.runtime, input.target);
            var seen := d.trace.(received := d.trace.received + [x]);
            && (!isNew ==> e == d.(trace := seen.(duplicates := seen.duplicates + [x])))
            && (isNew && blocked ==> e == d.(trace := seen.(refused := seen.refused + [x])))
            && (isNew && !blocked ==>
                  && e.trace == seen.(taken := seen.taken + [x], log := e.trace.log)
                  && e.runtime.sequences == d.runtime.sequences[x.player := x.sequence]
                  && if input.target <= current then JoinsRecord(d, e, input.target, x)
                     else JoinsSchedule(d, e, input.target, x))
  {
    hide Drain, JoinsRecord, JoinsSchedule, OrderInv;
    DrainLast(c, current, d0, queue, input);
    DrainKeepsOrder(c, current, d0, queue);
    FateOfOne(c, current, Drain(c, current, d0, queue), input);
  }

  lemma FateOfOne<C, P>(c: RoomConfig, current: nat, d: Drained<C, P>, input: Submitted<C>)
    requires OrderInv(d.runtime.pending, d.runtime.order, d.trace.executed, current)
    ensures var e := DrainOne(c, current, d, input);
            var x := input.command;
            var isNew := x.sequence > LastSequence(d.runtime.sequences, x.player);
            var blocked := Blocked(c, current, d.runtime, input.target);
            var seen := d.trace.(received := d.trace.received + [x]);
            && (!isNew ==> e == d.(trace := seen.(duplicates := seen.duplicates + [x])))
            && (isNew && blocked ==> e == d.(trace := seen.(refused := seen.refused + [x])))
            && (isNew && !blocked ==>
                  && e.trace == seen.(taken := seen.taken + [x], log := e.trace.log)
                  && e.runtime.sequences == d.runtime.sequences[x.player := x.sequence]
                  && if input.target <= current then JoinsRecord(d, e, input.target, x)
                     else JoinsSchedule(d, e, input.target, x))
  {
    hide PlacedAt;
    if input.target > current {
      var k := ScheduleExactly(Scheduled(input.target, d.runtime.order + 1, input.command), d.runtime.pending);
    }
  }

  // ---------------------------------------------------------------- the numbers already taken

  /** The number of the last command taken from a player, zero when there is none. */
  ghost function LastTaken<C>(taken: seq<Command<C>>, player: PlayerKey): nat {
    if taken == [] then 0
    else
      var last := taken[|taken| - 1];
      if last.player == player then last.sequence else LastTaken(taken[..|taken| - 1], player)
  }

  ghost predicate NumbersInv<C>(sequences: map<PlayerKey, nat>, taken: seq<Command<C>>) {
    forall p: PlayerKey :: LastSequence(sequences, p) == LastTaken(taken, p)
  }

  lemma TakingKeepsNumbers<C>(sequences: map<PlayerKey, nat>, taken: seq<Command<C>>, x: Command<C>)
    requires NumbersInv(sequences, taken)
    ensures NumbersInv(sequences[x.player := x.sequence], taken + [x])
  {
    assert (taken + [x])[..|taken|] == taken;
    var next := sequences[x.player := x.sequence];
    forall p: PlayerKey
      ensures LastSequence(next, p) == LastTaken(taken + [x], p)
    {
      assert LastSequence(sequences, p) == LastTaken(taken, p);
    }
  }

  lemma {:induction false} DrainKeepsNumbers<C, P>(
      c: RoomConfig, current: nat, d: Drained<C, P>, queue: seq<Submitted<C>>)
    requires NumbersInv(d.runtime.sequences, d.trace.taken)
    ensures var e := Drain(c, current, d, queue); NumbersInv(e.runtime.sequences, e.trace.taken)
    decreases |queue|
  {
    hide NumbersInv, LastSequence;
    if queue != [] {
      TakingKeepsNumbers(d.runtime.sequences, d.trace.taken, queue[0].command);
      DrainKeepsNumbers(c, current, DrainOne(c, current, d, queue[0]), queue[1..]);
    }
  }

  lemma AdvanceKeepsNumbers<G, C, P>(c: RoomConfig, game: Game<G, C, P>, r: Room<G, C, P>)
    requires NumbersInv(r.runtime.sequences, r.trace.taken) && Advance(c, game, r).Ok?
    ensures var a := Advance(c, game, r).value; NumbersInv(a.runtime.sequences, a.trace.taken)
  {
    hide NumbersInv, Drain, Resimulate, ExecuteDue, Capture, Retain;
    var i := Initialize(game, r).value;
    DrainKeepsNumbers(c, i.current, Drained(i.runtime, i.trace, None), i.queue);
  }

  /** On every run, the number a submission must exceed is that of the last command taken from
      its player. */
  lemma {:induction false} RunKeepsNumbers<G, C, P>(
      c: RoomConfig, game: Game<G, C, P>, r: Room<G, C, P>, steps: seq<RoomStep<C>>)
    requires NumbersInv(r.runtime.sequences, r.trace.taken) && RoomLegal(c, game, r, steps)
    ensures var s := RoomRun(c, game, r, steps); NumbersInv(s.runtime.sequences, s.trace.taken)
    decreases |steps|
  {
    hide NumbersInv, Advance, Submit;
    if steps != [] {
      if steps[0].DoAdvance? {
        AdvanceKeepsNumbers(c, game, r);
      } else {
        SubmitExactly(c, r, steps[0].target, steps[0].command);
      }
      RunKeepsNumbers(c, game, RoomExec(c, game, r, steps[0]), steps[1..]);
    }
  }

  // ---------------------------------------------------------------- executing a tick

  /** The state after trying commands in turn; the game passes over those it refuses. */
  ghost function After<G, C, P>(game: Game<G, C, P>, g: G, items: seq<Scheduled<C>>): G {
    if items == [] then g
    else
      var before := After(game, g, items[..|items| - 1]);
      var next := game.apply(before, items[|items| - 1].command);
      if next.Some? then next.value else before
  }

  /** The commands that the game applies, each in the state reached so far. */
  ghost function Passed<G, C, P>(game: Game<G, C, P>, g: G, items: seq<Scheduled<C>>): seq<Command<C>> {
    if items == [] then []
    else
      var front, x := items[..|items| - 1], items[|items| - 1].command;
      Passed(game, g, front) + if game.apply(After(game, g, front), x).Some? then [x] else []
  }

  /** The commands that the game turns down, each in the state reached so far. */
  ghost function Refusals<G, C, P>(game: Game<G, C, P>, g: G, items: seq<Scheduled<C>>): seq<Command<C>> {
    if items == [] then []
    else
      var front, x := items[..|items| - 1], items[|items| - 1].command;
      Refusals(game, g, front) + if game.apply(After(game, g, front), x).None? then [x] else []
  }

  ghost predicate Stamped<C>(executed: seq<Executed<C>>, items: seq<Scheduled<C>>, tick: nat) {
    |executed| == |items| && forall i :: 0 <= i < |items| ==> executed[i] == Executed(items[i], tick)
  }

  /** `k` is what executing the first `n` of `waiting` leads to. */
  ghost predicate Ran<G, C, P>(
      game: Game<G, C, P>, g: G, waiting: seq<Scheduled<C>>, tick: nat, n: nat, k: Ticked<G, C>)
  {
    && n <= |waiting|
    && k.game == After(game, g, waiting[..n])
    && k.pending == waiting[n..]
    && k.commands == Passed(game, g, waiting[..n])
    && k.failed == Refusals(game, g, waiting[..n])
    && Stamped(k.executed, waiting[..n], tick)
  }

  lemma RanOne<G, C, P>(
      game: Game<G, C, P>, g: G, waiting: seq<Scheduled<C>>, tick: nat, n: nat, k: Ticked<G, C>)
    requires Ran(game, g, waiting, tick, n, k) && k.pending != []
    ensures Ran(game, g, waiting, tick, n + 1, PopDue(game, k, tick))
  {
    var next := waiting[..n + 1];
    assert next[..n] == waiting[..n] && next[n] == waiting[n];
  }

  lemma NoneDue<C>(waiting: seq<Scheduled<C>>, from: nat, tick: nat)
    requires Sorted(waiting) && from < |waiting| && waiting[from].target > tick
    ensures forall i :: from <= i < |waiting| ==> waiting[i].target > tick
  {
    assert forall i :: from < i < |waiting| ==> Before(waiting[from], waiting[i]);
  }

  /** Exactly the due commands run, earliest first, up to the limit. */
  lemma {:induction false} ExecutesExactly<G, C, P>(
      game: Game<G, C, P>, g: G, waiting: seq<Scheduled<C>>, tick: nat, from: nat, k: Ticked<G, C>, budget: nat)
    returns (n: nat)
    requires Sorted(waiting) && Ran(game, g, waiting, tick, from, k)
    ensures from <= n <= |waiting| && n <= from + budget
    ensures Ran(game, g, waiting, tick, n, ExecuteDue(game, k, tick, budget))
    ensures forall i :: from <= i < |waiting| ==> (i < n <==> waiting[i].target <= tick && i < from + budget)
    decreases budget
  {
    if budget == 0 || k.pending == [] || k.pending[0].target > tick {
      n := from;
      if 0 < budget && k.pending != [] {
        NoneDue(waiting, from, tick);
      }
      hide Ran;
    } else {
      RanOne(game, g, waiting, tick, from, k);
      hide Ran, PopDue, Sorted;
      n := ExecutesExactly(game, g, waiting, tick, from + 1, PopDue(game, k, tick), budget - 1);
    }
  }

  /** The room as its next advance finds it, with the checkpoint of tick zero taken. */
  ghost function Started<G, C, P>(game: Game<G, C, P>, r: Room<G, C, P>): Room<G, C, P> {
    var i := Initialize(game, r);
    if i.Ok? then i.value else r
  }

  /** The commands that wait once the submission queue is drained. */
  ghost function Waiting<G, C, P>(c: RoomConfig, game: Game<G, C, P>, r: Room<G, C, P>): seq<Scheduled<C>> {
    var s := Started(game, r);
    Drain(c, s.current, Drained(s.runtime, s.trace, None), s.queue).runtime.pending
  }

  lemma WaitingSorted<G, C, P>(c: RoomConfig, game: Game<G, C, P>, r: Room<G, C, P>)
    requires ScheduleInv(c, r)
    ensures Sorted(Waiting(c, game, r))
  {
    hide Drain;
    var s := Started(game, r);
    DrainKeepsOrder(c, s.current, Drained(s.runtime, s.trace, None), s.queue);
  }

  /** One tick, exactly: of the commands waiting in order, number `i` runs if and only if it is
      due and within the limit. The log gains what the game applied, `failed` what it turned
      down in the state reached so far, and the state steps from there. */
  lemma TickExactly<G, C, P>(c: RoomConfig, game: Game<G, C, P>, r: Room<G, C, P>) returns (n: nat)
    requires ScheduleInv(c, r) && Advance(c, game, r).Ok?
    ensures var s, a := Settle(c, game, Started(game, r)).value, Advance(c, game, r).value;
            var w := Waiting(c, game, r);
            && n <= |w| && a.current == r.current + 1 && a.runtime.pending == w[n..]
            && (forall j :: 0 <= j < |w| ==> (j < n <==> w[j].target <= a.current && j < c.maxPerTick))
            && a.trace.log == s.trace.log + [Passed(game, s.game, w[..n])]
            && a.trace.failed == r.trace.failed + Refusals(game, s.game, w[..n])
            && r.trace.executed <= a.trace.executed
            && Stamped(a.trace.executed[|r.trace.executed|..], w[..n], a.current)
            && game.step(After(game, s.game, w[..n]), a.current) == Some(a.game)
  {
    hide Drain, Resimulate, ExecuteDue, Capture, Retain, Sorted, Ran;
    WaitingSorted(c, game, r);
    var i := Started(game, r);
    var s, w := Settle(c, game, i).value, Waiting(c, game, r);
    DrainKeepsFailed(c, i.current, Drained(i.runtime, i.trace, None), i.queue);
    var k := Ticked(s.game, s.runtime.pending, [], [], []);
    assert s.runtime.pending == w;
    RanNone(game, s.game, w, s.current + 1);
    n := ExecutesExactly(game, s.game, w, s.current + 1, 0, k, c.maxPerTick);
    RanMeans(game, s.game, w, s.current + 1, n, ExecuteDue(game, k, s.current + 1, c.maxPerTick));
    var ran := ExecuteDue(game, k, s.current + 1, c.maxPerTick);
    assert (r.trace.executed + ran.executed)[|r.trace.executed|..] == ran.executed;
  }

  lemma RanNone<G, C, P>(game: Game<G, C, P>, g: G, w: seq<Scheduled<C>>, tick: nat)
    ensures Ran(game, g, w, tick, 0, Ticked(g, w, [], [], []))
  {
  }

  lemma RanMeans<G, C, P>(game: Game<G, C, P>, g: G, w: seq<Scheduled<C>>, tick: nat, n: nat, k: Ticked<G, C>)
    requires Ran(game, g, w, tick, n, k)
    ensures n <= |w|
    ensures k.game == After(game, g, w[..n])
    ensures k.pending == w[n..]
    ensures k.commands == Passed(game, g, w[..n])
    ensures k.failed == Refusals(game, g, w[..n])
    ensures Stamped(k.executed, w[..n], tick)
  {
  }

  lemma {:induction false} DrainKeepsFailed<C, P>(
      c: RoomConfig, current: nat, d: Drained<C, P>, queue: seq<Submitted<C>>)
    ensures var e := Drain(c, current, d, queue);
            e.trace.failed == d.trace.failed && e.trace.executed == d.trace.executed
    decreases |queue|
  {
    if queue != [] {
      DrainKeepsFailed(c, current, DrainOne(c, current, d, queue[0]), queue[1..]);
    }
  }

  // ---------------------------------------------------------------- the tick at which a command runs

  /** How many waiting commands come before `x`. */
  ghost function Ahead<C>(waiting: seq<Scheduled<C>>, x: Scheduled<C>): nat {
    if waiting == [] then 0 else Ahead(waiting[1..], x) + if Before(waiting[0], x) then 1 else 0
  }

  lemma {:induction false} AheadIsIndex<C>(waiting: seq<Scheduled<C>>, x: Scheduled<C>, i: nat)
    requires Sorted(waiting) && i <= |waiting|
    requires forall j :: 0 <= j < |waiting| ==> (Before(waiting[j], x) <==> j < i)
    ensures Ahead(waiting, x) == i
    decreases |waiting|
  {
    if waiting != [] {
      assert Before(waiting[0], x) <==> 0 < i;
      AheadIsIndex(waiting[1..], x, if i == 0 then 0 else i - 1);
    }
  }

  lemma AheadAt<C>(waiting: seq<Scheduled<C>>, i: nat)
    requires Sorted(waiting) && i < |waiting|
    ensures Ahead(waiting, waiting[i]) == i
  {
    AheadIsIndex(waiting, waiting[i], i);
  }

  /** The next tick is the command's turn: its target has come and fewer commands than the
      per-tick limit are ahead of it. */
  ghost predicate Turn<G, C, P>(c: RoomConfig, game: Game<G, C, P>, r: Room<G, C, P>, x: Scheduled<C>) {
    x.target <= r.current + 1 && Ahead(Waiting(c, game, r), x) < c.maxPerTick
  }

  /** The first tick of the run that is the command's turn. */
  ghost function FirstTurn<G, C, P>(
      c: RoomConfig, game: Game<G, C, P>, r: Room<G, C, P>, steps: seq<RoomStep<C>>, x: Scheduled<C>): Option<nat>
    requires RoomLegal(c, game, r, steps)
    decreases |steps|
  {
    if steps == [] then None
    else if steps[0].DoAdvance? && Turn(c, game, r, x) then Some(r.current + 1)
    else FirstTurn(c, game, RoomExec(c, game, r, steps[0]), steps[1..], x)
  }

  lemma {:induction false} ScheduleKeeps<C>(item: Scheduled<C>, pending: seq<Scheduled<C>>, x: Scheduled<C>)
    requires x in pending
    ensures x in Schedule(item, pending)
    decreases |pending|
  {
    if !Before(item, pending[0]) && x != pending[0] {
      ScheduleKeeps(item, pending[1..], x);
    }
  }

  /** A waiting command runs in the next advance exactly when it is its turn; otherwise it goes
      on waiting. */
  lemma RunsInTurn<G, C, P>(c: RoomConfig, game: Game<G, C, P>, r: Room<G, C, P>, x: Scheduled<C>)
    requires ScheduleInv(c, r) && Advance(c, game, r).Ok? && x in Waiting(c, game, r)
    ensures var a := Advance(c, game, r).value;
            if Turn(c, game, r, x) then Executed(x, r.current + 1) in a.trace.executed
            else x in a.runtime.pending
  {
    hide Settle, NextTick, Drain, After, Passed, Refusals, Sorted, Ahead;
    var n := TickExactly(c, game, r);
    var w := Waiting(c, game, r);
    var j: nat :| j < |w| && w[j] == x;
    WaitingSorted(c, game, r);
    AheadAt(w, j);
    var a := Advance(c, game, r).value;
    if j < n {
      assert a.trace.executed[|r.trace.executed|..][j] == Executed(w[..n][j], a.current);
    } else {
      assert a.runtime.pending[j - n] == x;
    }
  }

  lemma {:induction false} ExecutedStays<G, C, P>(
      c: RoomConfig, game: Game<G, C, P>, r: Room<G, C, P>, steps: seq<RoomStep<C>>)
    requires BookInv(c, r) && RoomLegal(c, game, r, steps)
    ensures r.trace.executed <= RoomRun(c, game, r, steps).trace.executed
    decreases |steps|
  {
    hide BookInv, Advance, Submit;
    if steps != [] {
      var next := RoomExec(c, game, r, steps[0]);
      if steps[0].DoAdvance? {
        AdvanceKeepsBooks(c, game, r);
        BooksSchedule(c, r);
        AdvanceKeepsSchedule(c, game, r);
      } else {
        SubmitExactly(c, r, steps[0].target, steps[0].command);
        SubmitStepKeepsBooks(c, r, steps[0].target, steps[0].command);
      }
      ExecutedStays(c, game, next, steps[1..]);
    }
  }

  lemma BooksSchedule<G, C, P>(c: RoomConfig, r: Room<G, C, P>)
    requires BookInv(c, r)
    ensures ScheduleInv(c, r)
  {
  }

  lemma SubmitStepKeepsBooks<G, C, P>(c: RoomConfig, r: Room<G, C, P>, target: nat, command: Command<C>)
    requires BookInv(c, r)
    ensures Submit(c, r, target, command).Ok? ==> BookInv(c, Submit(c, r, target, command).value)
  {
    hide BookInv, Submit;
    if Submit(c, r, target, command).Ok? {
      SubmitKeepsBooks(c, r, target, command);
    }
  }

  /** Another submission displaces nothing that waits. */
  lemma SubmitKeepsWaiting<G, C, P>(
      c: RoomConfig, game: Game<G, C, P>, r: Room<G, C, P>, input: Submitted<C>, x: Scheduled<C>)
    requires x in Waiting(c, game, r)
    ensures x in Waiting(c, game, r.(queue := r.queue + [input]))
  {
    hide Drain, Capture;
    var s := Started(game, r);
    var d := Drained(s.runtime, s.trace, None);
    DrainLast(c, s.current, d, s.queue, input);
    var e := Drain(c, s.current, d, s.queue);
    ScheduleKeeps(Scheduled(input.target, e.runtime.order + 1, input.command), e.runtime.pending, x);
  }

  lemma StillWaiting<G, C, P>(c: RoomConfig, game: Game<G, C, P>, r: Room<G, C, P>)
    requires Advance(c, game, r).Ok?
    ensures var a := Advance(c, game, r).value; Waiting(c, game, a) == a.runtime.pending
  {
    hide Resimulate, ExecuteDue, Capture, Retain;
    assert Advance(c, game, r).value.queue == [];
  }

  /** Over every run, a waiting command runs at the first tick that is its turn, and waits on
      where no tick of the run was. */
  lemma {:induction false} RunsAtFirstTurn<G, C, P>(
      c: RoomConfig, game: Game<G, C, P>, r: Room<G, C, P>, steps: seq<RoomStep<C>>, x: Scheduled<C>)
    requires BookInv(c, r) && RoomLegal(c, game, r, steps) && x in Waiting(c, game, r)
    ensures var s := RoomRun(c, game, r, steps);
            match FirstTurn(c, game, r, steps, x)
            case Some(t) => Executed(x, t) in s.trace.executed
            case None => x in Waiting(c, game, s)
    decreases |steps|
  {
    hide BookInv, Advance, Submit, Turn, Waiting;
    if steps != [] {
      var next := RoomExec(c, game, r, steps[0]);
      if steps[0].DoAdvance? {
        AdvanceKeepsBooks(c, game, r);
        BooksSchedule(c, r);
        RunsInTurn(c, game, r, x);
        StillWaiting(c, game, r);
        if Turn(c, game, r, x) {
          ExecutedStays(c, game, next, steps[1..]);
        } else {
          RunsAtFirstTurn(c, game, next, steps[1..], x);
        }
      } else {
        SubmitExactly(c, r, steps[0].target, steps[0].command);
        SubmitStepKeepsBooks(c, r, steps[0].target, steps[0].command);
        SubmitKeepsWaiting(c, game, r, Submitted(steps[0].target, steps[0].command), x);
        RunsAtFirstTurn(c, game, next, steps[1..], x);
      }
    }
  }

  /** From acceptance to execution: a fresh submission for a future tick, accepted while fewer than
      the limit wait, waits under its target with the largest arrival number. */
  lemma AcceptedWaits<G, C, P>(
      c: RoomConfig, game: Game<G, C, P>, r: Room<G, C, P>, target: nat, command: Command<C>)
    requires ScheduleInv(c, r) && r.queue == [] && r.current < target
    requires Submit(c, r, target, command).Ok?
    ensures var next := Submit(c, r, target, command).value;
            var isNew := command.sequence > LastSequence(r.runtime.sequences, command.player);
            var x := Scheduled(target, r.runtime.order + 1, command);
            if isNew && |r.runtime.pending| < c.maxPending
            then Placed(r.runtime.pending, x, Waiting(c, game, next)) && x in Waiting(c, game, next)
            else Waiting(c, game, next) == r.runtime.pending
  {
    hide Capture, OrderInv, PlacedAt;
    var next := Submit(c, r, target, command).value;
    var s := Started(game, next);
    var input := Submitted(target, command);
    assert s.queue == [] + [input];
    SubmissionFate(c, s.current, Drained(s.runtime, s.trace, None), [], input);
    PlacedIsIn(r.runtime.pending, Scheduled(target, r.runtime.order + 1, command), Waiting(c, game, next));
  }

  lemma PlacedIsIn<C>(before: seq<Scheduled<C>>, x: Scheduled<C>, after: seq<Scheduled<C>>)
    ensures Placed(before, x, after) ==> x in after
  {
    if Placed(before, x, after) {
      var k: nat :| PlacedAt(before, x, after, k);
      assert after[k] == x;
    }
  }

  // ---------------------------------------------------------------- checkpoints that are not what they say

  /** A rollback restores only a checkpoint whose stored hash is that of its snapshot, and keeps
      only a state whose own snapshot has that hash again. */
  lemma RestoreExactly<G, C, P>(game: Game<G, C, P>, g: G, history: map<nat, Record<C, P>>, from: nat)
    requires 0 < from && from - 1 in history
    ensures var base, t := RestoreBase(game, g, history, from), from - 1;
            var digest := game.hash(history[t].snapshot);
            var restored := game.restore(g, t, history[t].snapshot);
            && (base == Err(CorruptedCheckpoint) <==> digest.Some? && digest.value != history[t].hash)
            && (base.Ok? <==>
                  && digest == Some(history[t].hash) && restored.Some?
                  && Capture(game, restored.value, t).Some?
                  && Capture(game, restored.value, t).value.hash == history[t].hash)
            && (base.Ok? ==> base.value == restored.value)
            && (base == Err(RestoreMismatch) <==>
                  && digest == Some(history[t].hash) && restored.Some?
                  && Capture(game, restored.value, t).Some?
                  && Capture(game, restored.value, t).value.hash != history[t].hash)
  {
  }
}
