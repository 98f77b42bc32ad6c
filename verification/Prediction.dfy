/** Client prediction: a bounded history of local inputs and predicted states, corrected by
    replaying the unconfirmed inputs from an authoritative state. */
module Predictions {
  import opened Common

  datatype PredictionConfig = PredictionConfig(historyCapacity: nat, maxReplaySteps: nat)

  datatype Entry<I> = Entry(tick: nat, input: I)

  datatype PredictionFrame<I, S> = PredictionFrame(entry: Entry<I>, state: S)

  datatype PredictionError = TickNotIncreasing | HistoryFull | TickMovedBackwards | ReplayLimitExceeded

  datatype Report<S> = Report(tick: nat, predicted: Option<S>, corrected: S, replayed: nat, current: nat)

  datatype Buffer<I, S> = Buffer(frames: seq<PredictionFrame<I, S>>, confirmed: nat)

  /** The game's rules: the state after one tick with one input. */
  type Simulate<!I, !S> = (S, nat, I) -> S

  // ---------------------------------------------------------------- operations

  function NewestTick<I, S>(b: Buffer<I, S>): nat {
    if b.frames == [] then b.confirmed else b.frames[|b.frames| - 1].entry.tick
  }

  function RecordFrame<I, S>(
      c: PredictionConfig, b: Buffer<I, S>, entry: Entry<I>, state: S): Result<Buffer<I, S>, PredictionError>
  {
    if entry.tick == 0 || entry.tick <= NewestTick(b) then Err(TickNotIncreasing)
    else if |b.frames| >= c.historyCapacity then Err(HistoryFull)
    else Ok(b.(frames := b.frames + [PredictionFrame(entry, state)]))
  }

  function Entries<I, S>(frames: seq<PredictionFrame<I, S>>): (r: seq<Entry<I>>)
    ensures |r| == |frames|
    ensures forall i :: 0 <= i < |r| ==> r[i] == frames[i].entry
  {
    seq(|frames|, i requires 0 <= i < |frames| => frames[i].entry)
  }

  /** How many leading entries an authoritative tick confirms. */
  function Confirmed<I>(entries: seq<Entry<I>>, tick: nat): (n: nat)
    ensures n <= |entries|
  {
    if entries == [] || entries[0].tick > tick then 0 else 1 + Confirmed(entries[1..], tick)
  }

  function Replayed<I, S>(
      simulate: Simulate<I, S>, state: S, frames: seq<PredictionFrame<I, S>>): (r: seq<PredictionFrame<I, S>>)
    ensures |r| == |frames|
    decreases |frames|
  {
    if frames == [] then []
    else
      var next := simulate(state, frames[0].entry.tick, frames[0].entry.input);
      [PredictionFrame(frames[0].entry, next)] + Replayed(simulate, next, frames[1..])
  }

  lemma NothingReplayed<I, S>(simulate: Simulate<I, S>, state: S)
    ensures Replayed(simulate, state, []) == []
  {
  }

  lemma ReplayedNext<I, S>(
      simulate: Simulate<I, S>, done: seq<PredictionFrame<I, S>>, state: S, rest: seq<PredictionFrame<I, S>>)
    requires rest != []
    ensures var next := simulate(state, rest[0].entry.tick, rest[0].entry.input);
            done + Replayed(simulate, state, rest) ==
            (done + [PredictionFrame(rest[0].entry, next)]) + Replayed(simulate, next, rest[1..])
  {
    var next := simulate(state, rest[0].entry.tick, rest[0].entry.input);
    var x, tail := PredictionFrame(rest[0].entry, next), Replayed(simulate, next, rest[1..]);
    assert done + ([x] + tail) == (done + [x]) + tail;
  }

  function Newest<I, S>(state: S, frames: seq<PredictionFrame<I, S>>): S {
    if frames == [] then state else frames[|frames| - 1].state
  }

  datatype Reconciled<I, S> = Reconciled(buffer: Buffer<I, S>, report: Report<S>)

  function Reconcile<I, S>(
      c: PredictionConfig, simulate: Simulate<I, S>, b: Buffer<I, S>, tick: nat, state: S)
  : Result<Reconciled<I, S>, PredictionError>
  {
    var n := Confirmed(Entries(b.frames), tick);
    if tick < b.confirmed then Err(TickMovedBackwards)
    else if |b.frames| - n > c.maxReplaySteps then Err(ReplayLimitExceeded)
    else
      var after := Buffer(Replayed(simulate, state, b.frames[n..]), tick);
      Ok(Reconciled(after, Report(
        tick,
        if n > 0 && b.frames[n - 1].entry.tick == tick then Some(b.frames[n - 1].state) else None,
        Newest(state, after.frames),
        |b.frames| - n,
        NewestTick(after))))
  }

  class PredictionBuffer<I, S> {
    const config: PredictionConfig
    var frames: seq<PredictionFrame<I, S>>
    var confirmed: nat

    function View(): Buffer<I, S>
      reads this
    {
      Buffer(frames, confirmed)
    }

    constructor (c: PredictionConfig)
      requires 0 < c.maxReplaySteps <= c.historyCapacity
      ensures config == c && View() == Buffer([], 0)
    {
      config, frames, confirmed := c, [], 0;
    }

    method Record(tick: nat, input: I, state: S) returns (r: Result<(), PredictionError>)
      modifies this`frames
      ensures r.Err? ==>
          RecordFrame(config, old(View()), Entry(tick, input), state) == Err(r.error) && View() == old(View())
      ensures r.Ok? ==> RecordFrame(config, old(View()), Entry(tick, input), state) == Ok(View())
    {
      var previous := confirmed;
      if frames != [] {
        previous := frames[|frames| - 1].entry.tick;
      }
      if tick == 0 || tick <= previous {
        return Err(TickNotIncreasing);
      }
      if |frames| >= config.historyCapacity {
        return Err(HistoryFull);
      }
      frames := frames + [PredictionFrame(Entry(tick, input), state)];
      r := Ok(());
    }

    method Position(tick: nat) returns (n: nat)
      ensures n == Confirmed(Entries(frames), tick)
    {
      n := 0;
      ghost var entries := Entries(frames);
      while n < |frames| && frames[n].entry.tick <= tick
        invariant n <= |frames|
        invariant Confirmed(entries, tick) == n + Confirmed(entries[n..], tick)
      {
        assert entries[n..][1..] == entries[n + 1..];
        n := n + 1;
      }
    }

    /** Rewrites every retained prediction in place. */
    method Replay(simulate: Simulate<I, S>, state: S) returns (corrected: S)
      modifies this`frames
      ensures frames == Replayed(simulate, state, old(frames))
      ensures corrected == Newest(state, frames)
    {
      hide Replayed;
      corrected := state;
      var i := 0;
      ghost var before := frames;
      assert before[0..] == before;
      assert frames[..0] + Replayed(simulate, state, before[0..]) == Replayed(simulate, state, before);
      while i < |frames|
        invariant 0 <= i <= |frames| == |before|
        invariant frames[i..] == before[i..]
        invariant frames[..i] + Replayed(simulate, corrected, before[i..]) == Replayed(simulate, state, before)
        invariant corrected == Newest(state, frames[..i])
      {
        ghost var done, rest := frames[..i], before[i..];
        var frame := frames[i];
        assert rest[0] == frame && rest[1..] == before[i + 1..];
        ReplayedNext(simulate, done, corrected, rest);
        corrected := simulate(corrected, frame.entry.tick, frame.entry.input);
        frames := frames[i := PredictionFrame(frame.entry, corrected)];
        assert frames[..i + 1] == done + [PredictionFrame(frame.entry, corrected)];
        assert frames[i + 1..] == before[i + 1..];
        i := i + 1;
      }
      assert frames[..i] == frames && before[i..] == [];
      NothingReplayed(simulate, corrected);
    }

    method ReconcileWith(simulate: Simulate<I, S>, tick: nat, state: S) returns (r: Result<Report<S>, PredictionError>)
      modifies this
      ensures var spec := Reconcile(config, simulate, old(View()), tick, state);
              && (spec.Err? ==> r == Err(spec.error) && View() == old(View()))
              && (spec.Ok? ==> r == Ok(spec.value.report) && View() == spec.value.buffer)
    {
      hide Replayed, Confirmed;
      if tick < confirmed {
        return Err(TickMovedBackwards);
      }
      var n := Position(tick);
      var replayed := |frames| - n;
      if replayed > config.maxReplaySteps {
        return Err(ReplayLimitExceeded);
      }
      var predicted := if n > 0 && frames[n - 1].entry.tick == tick then Some(frames[n - 1].state) else None;
      frames := frames[n..];
      var corrected := Replay(simulate, state);
      confirmed := tick;
      r := Ok(Report(tick, predicted, corrected, replayed, if frames == [] then tick
          else frames[|frames| - 1].entry.tick));
    }

    method Reset(tick: nat)
      modifies this
      ensures View() == Buffer([], tick)
    {
      frames, confirmed := [], tick;
    }
  }

  // ---------------------------------------------------------------- replay

  /** Replaying looks at ticks and inputs only, never at the states it replaces. */
  lemma {:induction false} ReplayIgnoresStates<I, S>(
      simulate: Simulate<I, S>, state: S, a: seq<PredictionFrame<I, S>>, b: seq<PredictionFrame<I, S>>)
    requires Entries(a) == Entries(b)
    ensures Replayed(simulate, state, a) == Replayed(simulate, state, b)
    decreases |a|
  {
    assert |a| == |Entries(a)| == |b|;
    if a != [] {
      assert a[0].entry == Entries(a)[0] == Entries(b)[0] == b[0].entry;
      assert Entries(a[1..]) == Entries(a)[1..] == Entries(b[1..]);
      ReplayIgnoresStates(simulate, simulate(state, a[0].entry.tick, a[0].entry.input), a[1..], b[1..]);
    }
  }

  lemma {:induction false} ReplayKeepsEntry<I, S>(
      simulate: Simulate<I, S>, state: S, frames: seq<PredictionFrame<I, S>>, i: nat)
    requires i < |frames|
    ensures Replayed(simulate, state, frames)[i].entry == frames[i].entry
    decreases |frames|
  {
    if i > 0 {
      ReplayKeepsEntry(simulate, simulate(state, frames[0].entry.tick, frames[0].entry.input), frames[1..], i - 1);
    }
  }

  lemma ReplayKeepsEntries<I, S>(simulate: Simulate<I, S>, state: S, frames: seq<PredictionFrame<I, S>>)
    ensures Entries(Replayed(simulate, state, frames)) == Entries(frames)
  {
    hide Replayed;
    forall i | 0 <= i < |frames|
      ensures Replayed(simulate, state, frames)[i].entry == frames[i].entry
    {
      ReplayKeepsEntry(simulate, state, frames, i);
    }
  }

  /** The frames are what the rules give from `state`: each follows from the one before. */
  predicate Follows<I, S(==)>(simulate: Simulate<I, S>, state: S, frames: seq<PredictionFrame<I, S>>)
    decreases |frames|
  {
    frames == [] ||
    (&& frames[0].state == simulate(state, frames[0].entry.tick, frames[0].entry.input)
     && Follows(simulate, frames[0].state, frames[1..]))
  }

  lemma {:induction false} FollowsIsReplayed<I, S>(
      simulate: Simulate<I, S>, state: S, frames: seq<PredictionFrame<I, S>>)
    ensures Follows(simulate, state, frames) <==> frames == Replayed(simulate, state, frames)
    decreases |frames|
  {
    if frames != [] {
      var next := simulate(state, frames[0].entry.tick, frames[0].entry.input);
      FollowsIsReplayed(simulate, next, frames[1..]);
      var rest := Replayed(simulate, next, frames[1..]);
      assert frames == [frames[0]] + frames[1..];
      assert Replayed(simulate, state, frames)[0] == PredictionFrame(frames[0].entry, next);
      assert Replayed(simulate, state, frames)[1..] == rest;
    }
  }

  lemma {:induction false} ReplayedFollows<I, S>(simulate: Simulate<I, S>, state: S, frames: seq<PredictionFrame<I, S>>)
    ensures Follows(simulate, state, Replayed(simulate, state, frames))
    decreases |frames|
  {
    if frames != [] {
      ReplayedFollows(simulate, simulate(state, frames[0].entry.tick, frames[0].entry.input), frames[1..]);
    }
  }

  lemma {:induction false} FollowsSuffix<I, S>(
      simulate: Simulate<I, S>, state: S, frames: seq<PredictionFrame<I, S>>, n: nat)
    requires Follows(simulate, state, frames) && n <= |frames|
    ensures Follows(simulate, Newest(state, frames[..n]), frames[n..])
    decreases n
  {
    if n == 0 {
      assert frames[0..] == frames;
    } else {
      FollowsSuffix(simulate, state, frames, n - 1);
      assert frames[n - 1..][0] == frames[n - 1] && frames[n - 1..][1..] == frames[n..];
    }
  }

  lemma {:induction false} FollowsAppend<I, S>(
      simulate: Simulate<I, S>, state: S, frames: seq<PredictionFrame<I, S>>, entry: Entry<I>)
    requires Follows(simulate, state, frames)
    ensures Follows(simulate, state,
        frames + [PredictionFrame(entry, simulate(Newest(state, frames), entry.tick, entry.input))])
    decreases |frames|
  {
    var f := PredictionFrame(entry, simulate(Newest(state, frames), entry.tick, entry.input));
    if frames != [] {
      FollowsAppend(simulate, frames[0].state, frames[1..], entry);
      assert (frames + [f])[1..] == frames[1..] + [f];
    }
  }

  // ---------------------------------------------------------------- confirmed prefixes

  /** Confirming twice leaves what confirming once at the later tick does. */
  lemma {:induction false} ConfirmedTwice<I>(entries: seq<Entry<I>>, first: nat, second: nat)
    requires first <= second
    ensures Confirmed(entries, first) <= Confirmed(entries, second)
    ensures Confirmed(entries[Confirmed(entries, first)..], second) ==
        Confirmed(entries, second) - Confirmed(entries, first)
    decreases |entries|
  {
    if entries != [] && entries[0].tick <= first {
      ConfirmedTwice(entries[1..], first, second);
      assert entries[1..][Confirmed(entries[1..], first)..] == entries[Confirmed(entries, first)..];
    } else {
      assert entries[0..] == entries;
    }
  }

  lemma {:induction false} ConfirmedAppend<I>(entries: seq<Entry<I>>, entry: Entry<I>, tick: nat)
    requires entry.tick > tick
    ensures Confirmed(entries + [entry], tick) == Confirmed(entries, tick)
    decreases |entries|
  {
    if entries != [] {
      assert (entries + [entry])[1..] == entries[1..] + [entry];
      ConfirmedAppend(entries[1..], entry, tick);
    }
  }

  ghost predicate Increasing<I>(log: seq<Entry<I>>) {
    forall i, j :: 0 <= i < j < |log| ==> log[i].tick < log[j].tick
  }

  /** In an increasing log the confirmed prefix is exactly the entries up to the tick. */
  lemma {:induction false} ConfirmedExactly<I>(log: seq<Entry<I>>, tick: nat, i: nat)
    requires Increasing(log) && i < |log|
    ensures log[i].tick <= tick <==> i < Confirmed(log, tick)
    decreases |log|
  {
    if log[0].tick <= tick && i > 0 {
      assert Increasing(log[1..]) by {
        assert forall j :: 0 <= j < |log[1..]| ==> log[1..][j] == log[j + 1];
      }
      ConfirmedExactly(log[1..], tick, i - 1);
    }
  }

  // ---------------------------------------------------------------- reconciliation

  /** A right prediction costs nothing: if the authoritative state is the one predicted at its
      tick, the later frames and the present state are what they were. */
  lemma RightPredictionStands<I, S>(
      c: PredictionConfig, simulate: Simulate<I, S>, b: Buffer<I, S>, base: S, tick: nat, n: nat)
    requires Follows(simulate, base, b.frames)
    requires n == Confirmed(Entries(b.frames), tick) && n > 0 && b.frames[n - 1].entry.tick == tick
    requires Reconcile(c, simulate, b, tick, b.frames[n - 1].state).Ok?
    ensures var r := Reconcile(c, simulate, b, tick, b.frames[n - 1].state).value;
            && r.buffer.frames == b.frames[n..]
            && r.report.predicted == Some(b.frames[n - 1].state)
            && r.report.corrected == Newest(base, b.frames)
  {
    FollowsSuffix(simulate, base, b.frames, n);
    FollowsIsReplayed(simulate, b.frames[n - 1].state, b.frames[n..]);
  }

  /** Only the newest authoritative state matters: an earlier reconciliation that went through
      leaves no trace in the result, or in the refusal, of a later one. */
  lemma LaterReconciliationWins<I, S>(
      c: PredictionConfig, simulate: Simulate<I, S>, b: Buffer<I, S>, t1: nat, s1: S, t2: nat, s2: S)
    requires t1 <= t2
    requires Reconcile(c, simulate, b, t1, s1).Ok?
    ensures var once := Reconcile(c, simulate, b, t2, s2);
            var twice := Reconcile(c, simulate, Reconcile(c, simulate, b, t1, s1).value.buffer, t2, s2);
            && (once.Ok? <==> twice.Ok?)
            && (once.Err? ==> once == twice)
            && (once.Ok? ==>
                  && once.value.buffer == twice.value.buffer
                  && once.value.report.corrected == twice.value.report.corrected
                  && once.value.report.replayed == twice.value.report.replayed)
  {
    hide Replayed, Confirmed;
    var entries := Entries(b.frames);
    var n, m := Confirmed(entries, t1), Confirmed(entries, t2);
    var middle := Replayed(simulate, s1, b.frames[n..]);
    assert Reconcile(c, simulate, b, t1, s1).value.buffer == Buffer(middle, t1);
    ReplayTwice(simulate, b.frames, t1, s1, t2, s2);
    assert Confirmed(Entries(middle), t2) == m - n;
  }

  lemma ReplayTwice<I, S>(simulate: Simulate<I, S>, frames: seq<PredictionFrame<I, S>>, t1: nat, s1: S, t2: nat, s2: S)
    requires t1 <= t2
    ensures var n, m := Confirmed(Entries(frames), t1), Confirmed(Entries(frames), t2);
            var middle := Replayed(simulate, s1, frames[n..]);
            && n <= m
            && Confirmed(Entries(middle), t2) == m - n
            && Replayed(simulate, s2, middle[m - n..]) == Replayed(simulate, s2, frames[m..])
  {
    hide Replayed, Confirmed;
    var entries := Entries(frames);
    var n, m := Confirmed(entries, t1), Confirmed(entries, t2);
    var rest := frames[n..];
    var middle := Replayed(simulate, s1, rest);
    ReplayKeepsEntries(simulate, s1, rest);
    assert Entries(rest) == entries[n..];
    ConfirmedTwice(entries, t1, t2);
    assert Entries(middle[m - n..]) == Entries(middle)[m - n..] == entries[m..] == Entries(frames[m..]);
    ReplayIgnoresStates(simulate, s2, middle[m - n..], frames[m..]);
  }

  // ---------------------------------------------------------------- whole runs

  /** `base` is the newest authoritative state, `log` every input recorded since the last reset,
      and `recorded` the states that came with the inputs since the last correction. */
  datatype Client<I, S> = Client(buffer: Buffer<I, S>, base: S, log: seq<Entry<I>>, recorded: seq<S>)

  /** A recorded state is whatever the application says it simulated. */
  datatype ClientStep<I, S> =
    | PredictStep(entry: Entry<I>, predicted: S)
    | ReconcileStep(tick: nat, state: S)
    | ResetStep(tick: nat, state: S)

  function ClientExec<I, S>(
      c: PredictionConfig, simulate: Simulate<I, S>, k: Client<I, S>, step: ClientStep<I, S>): Client<I, S>
  {
    match step
    case PredictStep(entry, predicted) =>
      var r := RecordFrame(c, k.buffer, entry, predicted);
      if r.Err? then k else k.(buffer := r.value, log := k.log + [entry], recorded := k.recorded + [predicted])
    case ReconcileStep(tick, state) =>
      var r := Reconcile(c, simulate, k.buffer, tick, state);
      if r.Err? then k else k.(buffer := r.value.buffer, base := state, recorded := [])
    case ResetStep(tick, state) => Client(Buffer([], tick), state, [], [])
  }

  function ClientRun<I, S>(
      c: PredictionConfig, simulate: Simulate<I, S>, k: Client<I, S>, steps: seq<ClientStep<I, S>>): Client<I, S>
    decreases |steps|
  {
    if steps == [] then k else ClientRun(c, simulate, ClientExec(c, simulate, k, steps[0]), steps[1..])
  }

  /** The frames replayed by the last correction follow the rules; the ones since are as recorded. */
  ghost predicate Faithful<I, S>(simulate: Simulate<I, S>, k: Client<I, S>) {
    var frames, n := k.buffer.frames, |k.buffer.frames| - |k.recorded|;
    && 0 <= n
    && Follows(simulate, k.base, frames[..n])
    && (forall i :: 0 <= i < |k.recorded| ==> frames[n + i].state == k.recorded[i])
  }

  ghost predicate ClientInv<I, S>(c: PredictionConfig, simulate: Simulate<I, S>, k: Client<I, S>) {
    && Increasing(k.log)
    && Entries(k.buffer.frames) == k.log[Confirmed(k.log, k.buffer.confirmed)..]
    && |k.buffer.frames| <= c.historyCapacity
    && Faithful(simulate, k)
  }

  /** The newest tick the buffer knows is past everything recorded and confirmed. */
  lemma NewestBounds<I, S>(b: Buffer<I, S>, log: seq<Entry<I>>)
    requires Increasing(log) && Entries(b.frames) == log[Confirmed(log, b.confirmed)..]
    ensures b.confirmed <= NewestTick(b)
    ensures log != [] ==> log[|log| - 1].tick <= NewestTick(b)
  {
    if log != [] {
      ConfirmedExactly(log, b.confirmed, |log| - 1);
      if b.frames != [] {
        assert Entries(b.frames)[|b.frames| - 1] == log[|log| - 1];
      }
    }
  }

  lemma PredictKeeps<I, S>(
      c: PredictionConfig, simulate: Simulate<I, S>, k: Client<I, S>, entry: Entry<I>, predicted: S)
    requires ClientInv(c, simulate, k)
    ensures ClientInv(c, simulate, ClientExec(c, simulate, k, PredictStep(entry, predicted)))
  {
    hide Follows, Confirmed;
    var b := k.buffer;
    NewestBounds(b, k.log);
    var frame := PredictionFrame(entry, predicted);
    var r := RecordFrame(c, b, entry, predicted);
    if r.Ok? {
      LogGrows(b, k.log, frame);
      var n := |b.frames| - |k.recorded|;
      assert (b.frames + [frame])[..n] == b.frames[..n];
    }
  }

  /** Recording adds the same entry to the log and to the unconfirmed history. */
  lemma LogGrows<I, S>(b: Buffer<I, S>, log: seq<Entry<I>>, frame: PredictionFrame<I, S>)
    requires Increasing(log) && Entries(b.frames) == log[Confirmed(log, b.confirmed)..]
    requires b.confirmed < frame.entry.tick && (log != [] ==> log[|log| - 1].tick < frame.entry.tick)
    ensures Increasing(log + [frame.entry])
    ensures Entries(b.frames + [frame]) == (log + [frame.entry])[Confirmed(log + [frame.entry], b.confirmed)..]
  {
    hide Confirmed, Increasing;
    IncreasingGrows(log, frame.entry);
    ConfirmedAppend(log, frame.entry, b.confirmed);
    EntriesGrow(b.frames, frame);
    var n := Confirmed(log, b.confirmed);
    assert (log + [frame.entry])[n..] == log[n..] + [frame.entry];
  }

  lemma EntriesGrow<I, S>(frames: seq<PredictionFrame<I, S>>, frame: PredictionFrame<I, S>)
    ensures Entries(frames + [frame]) == Entries(frames) + [frame.entry]
  {
  }

  lemma IncreasingGrows<I>(log: seq<Entry<I>>, entry: Entry<I>)
    requires Increasing(log) && (log != [] ==> log[|log| - 1].tick < entry.tick)
    ensures Increasing(log + [entry])
  {
    forall i | 0 <= i < |log|
      ensures log[i].tick < entry.tick
    {
      if i < |log| - 1 {
        assert log[i].tick < log[|log| - 1].tick;
      }
    }
  }

  lemma ReconcileKeeps<I, S>(c: PredictionConfig, simulate: Simulate<I, S>, k: Client<I, S>, tick: nat, state: S)
    requires ClientInv(c, simulate, k)
    ensures ClientInv(c, simulate, ClientExec(c, simulate, k, ReconcileStep(tick, state)))
  {
    hide Follows, Confirmed, Replayed;
    var b := k.buffer;
    var entries := Entries(b.frames);
    var n := Confirmed(entries, tick);
    if tick >= b.confirmed && |b.frames| - n <= c.maxReplaySteps {
      ReplayedFollows(simulate, state, b.frames[n..]);
      ReplayKeepsEntries(simulate, state, b.frames[n..]);
      ConfirmedTwice(k.log, b.confirmed, tick);
      var replayed := Replayed(simulate, state, b.frames[n..]);
      assert replayed[..|replayed|] == replayed;
      assert Entries(b.frames[n..]) == entries[n..] == k.log[Confirmed(k.log, tick)..];
    }
  }

  lemma ClientStepKeeps<I, S>(c: PredictionConfig, simulate: Simulate<I, S>, k: Client<I, S>, step: ClientStep<I, S>)
    requires ClientInv(c, simulate, k)
    ensures ClientInv(c, simulate, ClientExec(c, simulate, k, step))
  {
    hide Reconcile, RecordFrame;
    match step
    case PredictStep(entry, predicted) => PredictKeeps(c, simulate, k, entry, predicted);
    case ReconcileStep(tick, state) => ReconcileKeeps(c, simulate, k, tick, state);
    case ResetStep(tick, state) =>
  }

  lemma {:induction false} ClientRunKeeps<I, S>(
      c: PredictionConfig, simulate: Simulate<I, S>, k: Client<I, S>, steps: seq<ClientStep<I, S>>)
    requires ClientInv(c, simulate, k)
    ensures ClientInv(c, simulate, ClientRun(c, simulate, k, steps))
    decreases |steps|
  {
    hide ClientInv, ClientExec;
    if steps != [] {
      ClientStepKeeps(c, simulate, k, steps[0]);
      ClientRunKeeps(c, simulate, ClientExec(c, simulate, k, steps[0]), steps[1..]);
    }
  }

  /** On every run, whatever states are recorded, however predictions and corrections interleave
      and whichever are refused: the history holds exactly the recorded inputs after the
      confirmed tick, in order; the frames the last correction replayed are the rules applied to
      them from the newest authoritative state; and the frames since are as they were recorded. */
  lemma HistoryIsReplay<I, S>(c: PredictionConfig, simulate: Simulate<I, S>, start: S, steps: seq<ClientStep<I, S>>)
    ensures var k := ClientRun(c, simulate, Client(Buffer([], 0), start, [], []), steps);
            var frames := k.buffer.frames;
            && Increasing(k.log)
            && |frames| <= |k.log|
            && Entries(frames) == k.log[|k.log| - |frames|..]
            && (forall i :: 0 <= i < |k.log| ==> (i >= |k.log| - |frames| <==> k.log[i].tick > k.buffer.confirmed))
            && Faithful(simulate, k)
            && |frames| <= c.historyCapacity
  {
    var first: Client<I, S> := Client(Buffer([], 0), start, [], []);
    assert first.buffer.frames[..0] == [];
    ClientRunKeeps(c, simulate, first, steps);
    var k := ClientRun(c, simulate, first, steps);
    hide ClientRun, Faithful;
    forall i | 0 <= i < |k.log|
      ensures i >= |k.log| - |k.buffer.frames| <==> k.log[i].tick > k.buffer.confirmed
    {
      ConfirmedExactly(k.log, k.buffer.confirmed, i);
    }
  }

  /** Each frame from `n` on was recorded with the state the rules give from the one before. */
  ghost predicate RecordedByRules<I, S>(
      simulate: Simulate<I, S>, base: S, frames: seq<PredictionFrame<I, S>>, n: nat)
  {
    forall i :: n <= i < |frames| ==>
      frames[i].state == simulate(Newest(base, frames[..i]), frames[i].entry.tick, frames[i].entry.input)
  }

  /** The whole history is a replay exactly when the application records what its rules give. */
  lemma {:induction false} FollowsExactly<I, S>(
      simulate: Simulate<I, S>, base: S, frames: seq<PredictionFrame<I, S>>, n: nat)
    requires n <= |frames| && Follows(simulate, base, frames[..n])
    ensures Follows(simulate, base, frames) <==> RecordedByRules(simulate, base, frames, n)
    decreases |frames| - n
  {
    hide Follows;
    if n == |frames| {
      assert frames[..n] == frames;
    } else {
      var f := frames[n];
      FollowsSplit(simulate, base, frames, n);
      if f.state == simulate(Newest(base, frames[..n]), f.entry.tick, f.entry.input) {
        FollowsAppend(simulate, base, frames[..n], f.entry);
        assert frames[..n + 1] == frames[..n] + [f];
        FollowsExactly(simulate, base, frames, n + 1);
      }
    }
  }

  lemma FollowsSplit<I, S>(simulate: Simulate<I, S>, base: S, frames: seq<PredictionFrame<I, S>>, n: nat)
    requires n < |frames|
    ensures Follows(simulate, base, frames) ==>
            frames[n].state == simulate(Newest(base, frames[..n]), frames[n].entry.tick, frames[n].entry.input)
  {
    if Follows(simulate, base, frames) {
      FollowsSuffix(simulate, base, frames, n);
      assert frames[n..][0] == frames[n];
    }
  }

  // ---------------------------------------------------------------- when an operation succeeds

  /** On every reachable client an input is recorded if and only if its tick is after everything
      recorded and everything confirmed, and the history has room. */
  lemma RecordExactly<I, S>(
      c: PredictionConfig, simulate: Simulate<I, S>, k: Client<I, S>, entry: Entry<I>, predicted: S)
    requires ClientInv(c, simulate, k)
    ensures var r := RecordFrame(c, k.buffer, entry, predicted);
            var newer := 0 < entry.tick && k.buffer.confirmed < entry.tick
                         && forall i :: 0 <= i < |k.log| ==> k.log[i].tick < entry.tick;
            && (r.Ok? <==> newer && |k.buffer.frames| < c.historyCapacity)
            && (r == Err(TickNotIncreasing) <==> !newer)
            && (r == Err(HistoryFull) <==> newer && |k.buffer.frames| == c.historyCapacity)
            && (r.Ok? ==> r.value == k.buffer.(frames := k.buffer.frames + [PredictionFrame(entry, predicted)]))
  {
    hide Confirmed, Faithful;
    NewestBounds(k.buffer, k.log);
    if k.buffer.frames != [] {
      assert Entries(k.buffer.frames)[|k.buffer.frames| - 1] == k.log[|k.log| - 1];
    }
  }

  /** The recorded inputs that an authoritative tick leaves unconfirmed. */
  ghost function Unconfirmed<I>(log: seq<Entry<I>>, tick: nat): nat {
    if log == [] then 0
    else Unconfirmed(log[..|log| - 1], tick) + if log[|log| - 1].tick > tick then 1 else 0
  }

  lemma {:induction false} UnconfirmedIsRest<I>(log: seq<Entry<I>>, tick: nat, n: nat)
    requires n <= |log| && forall i :: 0 <= i < |log| ==> (log[i].tick <= tick <==> i < n)
    ensures Unconfirmed(log, tick) == |log| - n
    decreases |log|
  {
    if log != [] {
      UnconfirmedIsRest(log[..|log| - 1], tick, if n == |log| then n - 1 else n);
    }
  }

  /** On every reachable client a correction is taken if and only if its tick is not before the last
      one confirmed and no more inputs than the limit are left to replay; it reports that
      number, and the prediction made for its tick if there is one. */
  lemma ReconcileExactly<I, S>(
      c: PredictionConfig, simulate: Simulate<I, S>, k: Client<I, S>, tick: nat, state: S)
    requires ClientInv(c, simulate, k)
    ensures var r, left := Reconcile(c, simulate, k.buffer, tick, state), Unconfirmed(k.log, tick);
            var frames := k.buffer.frames;
            && (r.Ok? <==> k.buffer.confirmed <= tick && left <= c.maxReplaySteps)
            && (r == Err(TickMovedBackwards) <==> tick < k.buffer.confirmed)
            && (r == Err(ReplayLimitExceeded) <==> k.buffer.confirmed <= tick && left > c.maxReplaySteps)
            && (r.Ok? ==>
                  && r.value.report.tick == r.value.buffer.confirmed == tick
                  && r.value.report.replayed == |r.value.buffer.frames| == left
                  && r.value.report.current == (if left == 0 then tick else k.log[|k.log| - 1].tick)
                  && (forall i :: 0 <= i < |frames| && frames[i].entry.tick == tick ==>
                        r.value.report.predicted == Some(frames[i].state))
                  && (r.value.report.predicted.Some? ==>
                        exists i :: 0 <= i < |frames| && frames[i].entry.tick == tick))
  {
    hide Replayed, Faithful, Confirmed, Unconfirmed, Increasing;
    var n := Confirmed(Entries(k.buffer.frames), tick);
    if k.buffer.confirmed <= tick {
      LeftToReplay(k.buffer.frames, k.log, k.buffer.confirmed, tick);
      PredictedAt(k.buffer.frames, k.log, k.buffer.confirmed, tick);
      ReplayKeepsEntries(simulate, state, k.buffer.frames[n..]);
      ReplayedLast(simulate, state, k.buffer.frames, n, k.log);
    }
  }

  lemma ReplayedLast<I, S>(
      simulate: Simulate<I, S>, state: S, frames: seq<PredictionFrame<I, S>>, n: nat, log: seq<Entry<I>>)
    requires n <= |frames| <= |log| && Entries(frames) == log[|log| - |frames|..]
    ensures var after := Replayed(simulate, state, frames[n..]);
            after != [] ==> log != [] && after[|after| - 1].entry.tick == log[|log| - 1].tick
  {
    hide Replayed;
    var after := Replayed(simulate, state, frames[n..]);
    if after != [] {
      ReplayKeepsEntries(simulate, state, frames[n..]);
      assert Entries(after)[|after| - 1] == Entries(frames[n..])[|after| - 1] == frames[|frames| - 1].entry;
      assert Entries(frames)[|frames| - 1] == log[|log| - 1];
    }
  }

  lemma LeftToReplay<I, S>(frames: seq<PredictionFrame<I, S>>, log: seq<Entry<I>>, confirmed: nat, tick: nat)
    requires Increasing(log) && Entries(frames) == log[Confirmed(log, confirmed)..] && confirmed <= tick
    ensures |frames| - Confirmed(Entries(frames), tick) == Unconfirmed(log, tick)
  {
    forall i | 0 <= i < |log|
      ensures log[i].tick <= tick <==> i < Confirmed(log, tick)
    {
      ConfirmedExactly(log, tick, i);
    }
    hide Confirmed;
    UnconfirmedIsRest(log, tick, Confirmed(log, tick));
    ConfirmedTwice(log, confirmed, tick);
    assert |frames| == |Entries(frames)|;
  }

  /** A frame is the last confirmed one exactly when it was predicted for that tick. */
  lemma PredictedAt<I, S>(frames: seq<PredictionFrame<I, S>>, log: seq<Entry<I>>, confirmed: nat, tick: nat)
    requires Increasing(log) && Entries(frames) == log[Confirmed(log, confirmed)..]
    ensures var n := Confirmed(Entries(frames), tick);
            forall i :: 0 <= i < |frames| && frames[i].entry.tick == tick ==> i == n - 1
  {
    var entries := Entries(frames);
    hide Confirmed;
    assert forall i :: 0 <= i < |entries| ==> entries[i] == log[|log| - |entries| + i];
    assert Increasing(entries);
    forall i | 0 <= i < |frames| && frames[i].entry.tick == tick
      ensures i == Confirmed(entries, tick) - 1
    {
      ConfirmedExactly(entries, tick, i);
      if i + 1 < |frames| {
        ConfirmedExactly(entries, tick, i + 1);
      }
    }
  }
}
