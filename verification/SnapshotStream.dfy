/** Whole-room snapshot replication: keyframes, and exclusive-or deltas against the previous
    snapshot with their trailing zeros cut off. */
module SnapshotStreams {
  import opened Common
  import opened Bytes

  datatype SnapshotError = BadTickOrSize | StateTooLarge | BadPacket | MissingBase | BaseMismatch | InvalidKeyframe
      | ShortDelta | HashMismatch

  // ---------------------------------------------------------------- deltas

  function At(s: seq<Byte>, i: nat): Byte {
    if i < |s| then s[i] else 0
  }

  function Differences(base: seq<Byte>, now: seq<Byte>): (r: seq<Byte>)
    ensures |r| == |now|
    ensures forall i :: 0 <= i < |now| ==> r[i] == Xor(now[i], At(base, i))
  {
    seq(|now|, i requires 0 <= i < |now| => Xor(now[i], At(base, i)))
  }

  function Trim(s: seq<Byte>): (r: seq<Byte>)
    ensures |r| <= |s|
  {
    if s != [] && s[|s| - 1] == 0 then Trim(s[..|s| - 1]) else s
  }

  /** Cutting trailing zeros loses nothing to a reader that pads with zeros. */
  lemma {:induction false} TrimReadsSame(s: seq<Byte>, i: nat)
    ensures At(Trim(s), i) == At(s, i)
  {
    if s != [] && s[|s| - 1] == 0 {
      TrimReadsSame(s[..|s| - 1], i);
    }
  }

  function Delta(base: seq<Byte>, now: seq<Byte>): Result<seq<Byte>, SnapshotError> {
    if |now| >= 0x1_0000_0000 then Err(StateTooLarge)
    else Ok(BigEndian(|now|, 4) + Trim(Differences(base, now)))
  }

  function Restored(base: seq<Byte>, length: nat, changes: seq<Byte>): (r: seq<Byte>)
    ensures |r| == length
    ensures forall i :: 0 <= i < length ==> r[i] == Xor(At(base, i), At(changes, i))
  {
    seq(length, i requires 0 <= i < length => Xor(At(base, i), At(changes, i)))
  }

  function Patch(base: seq<Byte>, delta: seq<Byte>): Result<seq<Byte>, SnapshotError> {
    if |delta| < 4 then Err(ShortDelta) else Ok(Restored(base, FromBigEndian(delta[..4]), delta[4..]))
  }

  /** A delta taken against a base and applied to that base gives the snapshot, for any two
      snapshots of any lengths that fit the length prefix. */
  lemma PatchOfDelta(base: seq<Byte>, now: seq<Byte>)
    requires Delta(base, now).Ok?
    ensures Patch(base, Delta(base, now).value) == Ok(now)
  {
    var diff := Differences(base, now);
    var prefix := BigEndian(|now|, 4);
    var delta := prefix + Trim(diff);
    assert delta[..4] == prefix && delta[4..] == Trim(diff);
    Widths();
    ReadBack(|now|, 4);
    var back := Restored(base, |now|, Trim(diff));
    forall i | 0 <= i < |now|
      ensures back[i] == now[i]
    {
      TrimReadsSame(diff, i);
      XorUndoes(now[i], At(base, i));
    }
    assert back == now;
  }

  /** The trimming loop stops at the last octet that differs: an unchanged tail costs nothing. */
  lemma {:induction false} TrimLength(s: seq<Byte>, n: nat)
    requires n <= |s|
    ensures |Trim(s)| <= n <==> forall i :: n <= i < |s| ==> s[i] == 0
  {
    if s != [] && s[|s| - 1] == 0 {
      var front := s[..|s| - 1];
      if n < |s| {
        TrimLength(front, n);
        assert forall i :: n <= i < |s| ==> s[i] == (if i < |front| then front[i] else 0);
        assert forall i :: n <= i < |front| ==> front[i] == s[i];
      }
    }
  }

  lemma DeltaLength(base: seq<Byte>, now: seq<Byte>, n: nat)
    requires Delta(base, now).Ok? && n <= |now|
    ensures |Delta(base, now).value| <= 4 + n <==> forall i :: n <= i < |now| ==> now[i] == At(base, i)
  {
    var diff := Differences(base, now);
    TrimLength(diff, n);
    forall i | n <= i < |now|
      ensures diff[i] == 0 <==> now[i] == At(base, i)
    {
      XorUndoes(now[i], At(base, i));
    }
    if forall i :: n <= i < |now| ==> now[i] == At(base, i) {
      assert forall i :: n <= i < |diff| ==> diff[i] == 0;
    } else {
      var i :| n <= i < |now| && now[i] != At(base, i);
      assert diff[i] != 0;
    }
  }

  method XorDelta(base: seq<Byte>, now: seq<Byte>) returns (r: Result<seq<Byte>, SnapshotError>)
    ensures r == Delta(base, now)
  {
    if |now| >= 0x1_0000_0000 {
      return Err(StateTooLarge);
    }
    var prefix := BigEndian(|now|, 4);
    var out: seq<Byte> := prefix;
    var i := 0;
    while i < |now|
      invariant 0 <= i <= |now|
      invariant out == prefix + Differences(base, now)[..i]
    {
      out := out + [Xor(now[i], At(base, i))];
      i := i + 1;
    }
    ghost var tail := out[4..];
    assert tail == Differences(base, now);
    while |out| > 4 && out[|out| - 1] == 0
      invariant |out| >= 4
      invariant out == prefix + tail
      invariant Trim(tail) == Trim(Differences(base, now))
    {
      tail := tail[..|tail| - 1];
      out := out[..|out| - 1];
    }
    r := Ok(out);
  }

  method XorApply(base: seq<Byte>, delta: seq<Byte>) returns (r: Result<seq<Byte>, SnapshotError>)
    ensures r == Patch(base, delta)
  {
    if |delta| < 4 {
      return Err(ShortDelta);
    }
    var length := FromBigEndian(delta[..4]);
    var out: seq<Byte> := [];
    var i := 0;
    while i < length
      invariant 0 <= i <= length
      invariant out == Restored(base, length, delta[4..])[..i]
    {
      assert At(delta, i + 4) == At(delta[4..], i);
      out := out + [Xor(At(base, i), At(delta, i + 4))];
      i := i + 1;
    }
    assert out == Restored(base, length, delta[4..]);
    r := Ok(out);
  }

  // ---------------------------------------------------------------- packets

  datatype Snapshot = Snapshot(tick: nat, state: seq<Byte>)

  datatype PacketKind = Keyframe | DeltaFrame

  datatype Packet<H> = Packet(room: string, tick: nat, baseTick: nat, kind: PacketKind, payload: seq<Byte>, hash: H)

  datatype StreamConfig = StreamConfig(room: string, keyframeInterval: nat, maxPayload: nat)

  datatype Sender = Sender(previous: Option<Snapshot>, force: bool)

  predicate ValidStreamConfig(c: StreamConfig) {
    c.room != "" && 0 < c.keyframeInterval && 0 < c.maxPayload
  }

  function Whole<H>(c: StreamConfig, s: Snapshot, digest: seq<Byte> -> H): Packet<H> {
    Packet(c.room, s.tick, 0, Keyframe, s.state, digest(s.state))
  }

  function Difference<H>(
      c: StreamConfig, base: Snapshot, delta: seq<Byte>, s: Snapshot, digest: seq<Byte> -> H): Packet<H>
  {
    Packet(c.room, s.tick, base.tick, DeltaFrame, delta, digest(s.state))
  }

  function PacketFor<H>(
      c: StreamConfig, sender: Sender, s: Snapshot, digest: seq<Byte> -> H): Result<Packet<H>, SnapshotError>
    requires ValidStreamConfig(c)
  {
    if s.tick == 0 || |s.state| > c.maxPayload
        || (sender.previous.Some? && s.tick <= sender.previous.value.tick) then Err(BadTickOrSize)
    else if sender.previous.None? || sender.force || s.tick % c.keyframeInterval == 0 then Ok(Whole(c, s, digest))
    else
      var delta := Delta(sender.previous.value.state, s.state);
      if delta.Err? then Err(delta.error)
      else if |delta.value| < |s.state| then Ok(Difference(c, sender.previous.value, delta.value, s, digest))
      else Ok(Whole(c, s, digest))
  }

  datatype ReceiverConfig = ReceiverConfig(room: string, max: nat)

  function PatchPacket<H>(current: Option<Snapshot>, p: Packet<H>): Result<seq<Byte>, SnapshotError> {
    if p.kind == Keyframe then
      if p.baseTick == 0 then Ok(p.payload) else Err(InvalidKeyframe)
    else if current.None? then Err(MissingBase)
    else if current.value.tick != p.baseTick then Err(BaseMismatch)
    else Patch(current.value.state, p.payload)
  }

  function ApplyPacket<H(==)>(
      c: ReceiverConfig, current: Option<Snapshot>, p: Packet<H>, digest: seq<Byte> -> H)
    : Result<Snapshot, SnapshotError>
  {
    if p.room != c.room || p.tick == 0 || |p.payload| > c.max
        || (current.Some? && p.tick <= current.value.tick) then Err(BadPacket)
    else
      var state := PatchPacket(current, p);
      if state.Err? then Err(state.error)
      else if |state.value| > c.max || digest(state.value) != p.hash then Err(HashMismatch)
      else Ok(Snapshot(p.tick, state.value))
  }

  class ReplicationStream {
    const config: StreamConfig
    var previous: Option<Snapshot>
    var force: bool

    function View(): Sender
      reads this
    {
      Sender(previous, force)
    }

    constructor (c: StreamConfig)
      requires ValidStreamConfig(c)
      ensures config == c && View() == Sender(None, true)
    {
      config, previous, force := c, None, true;
    }

    method ForceKeyframe()
      modifies this`force
      ensures force
    {
      force := true;
    }

    method BuildPacket<H>(s: Snapshot, digest: seq<Byte> -> H) returns (r: Result<Packet<H>, SnapshotError>)
      requires ValidStreamConfig(config)
      modifies this
      ensures r == PacketFor(config, old(View()), s, digest)
      ensures View() == if r.Ok? then Sender(Some(s), false) else old(View())
    {
      if s.tick == 0 || |s.state| > config.maxPayload || (previous.Some? && s.tick <= previous.value.tick) {
        return Err(BadTickOrSize);
      }
      var packet := Whole(config, s, digest);
      if previous.Some? && !force && s.tick % config.keyframeInterval != 0 {
        var delta := XorDelta(previous.value.state, s.state);
        if delta.Err? {
          return Err(delta.error);
        }
        if |delta.value| < |s.state| {
          packet := Difference(config, previous.value, delta.value, s, digest);
        }
      }
      previous, force := Some(s), false;
      r := Ok(packet);
    }
  }

  class SnapshotReceiver {
    const config: ReceiverConfig
    var current: Option<Snapshot>

    constructor (c: ReceiverConfig)
      requires 0 < c.max
      ensures config == c && current == None
    {
      config, current := c, None;
    }

    method Apply<H(==)>(p: Packet<H>, digest: seq<Byte> -> H) returns (r: Result<seq<Byte>, SnapshotError>)
      modifies this
      ensures var spec := ApplyPacket(config, old(current), p, digest);
              && (spec.Err? ==> r == Err(spec.error) && current == old(current))
              && (spec.Ok? ==> r == Ok(spec.value.state) && current == Some(spec.value))
    {
      if p.room != config.room || p.tick == 0 || |p.payload| > config.max
          || (current.Some? && p.tick <= current.value.tick) {
        return Err(BadPacket);
      }
      var state := p.payload;
      if p.kind == Keyframe {
        if p.baseTick != 0 {
          return Err(InvalidKeyframe);
        }
      } else {
        if current.None? {
          return Err(MissingBase);
        }
        if current.value.tick != p.baseTick {
          return Err(BaseMismatch);
        }
        var patched := XorApply(current.value.state, p.payload);
        if patched.Err? {
          return Err(patched.error);
        }
        state := patched.value;
      }
      if |state| > config.max || digest(state) != p.hash {
        return Err(HashMismatch);
      }
      current := Some(Snapshot(p.tick, state));
      r := Ok(state);
    }
  }

  // ---------------------------------------------------------------- whole runs

  /** `log[i]` is the snapshot behind `packets[i]`; every packet ever built stays on the network
      and may arrive any number of times in any order, or never. */
  datatype Feed<H> = Feed(sender: Sender, log: seq<Snapshot>, packets: seq<Packet<H>>, current: Option<Snapshot>)

  datatype FeedStep = Publish(snapshot: Snapshot) | ForceNext | Arrive(packet: nat)

  function FeedStart<H>(): Feed<H> {
    Feed(Sender(None, true), [], [], None)
  }

  predicate FeedEnabled<H>(f: Feed<H>, step: FeedStep) {
    step.Arrive? ==> step.packet < |f.packets|
  }

  function FeedExec<H(==)>(
      c: StreamConfig, rc: ReceiverConfig, digest: seq<Byte> -> H, f: Feed<H>, step: FeedStep): Feed<H>
    requires ValidStreamConfig(c) && FeedEnabled(f, step)
  {
    match step
    case Publish(s) =>
      var p := PacketFor(c, f.sender, s, digest);
      if p.Err? then f else Feed(Sender(Some(s), false), f.log + [s], f.packets + [p.value], f.current)
    case ForceNext => f.(sender := f.sender.(force := true))
    case Arrive(i) =>
      var r := ApplyPacket(rc, f.current, f.packets[i], digest);
      if r.Err? then f else f.(current := Some(r.value))
  }

  predicate FeedLegal<H(==)>(
      c: StreamConfig, rc: ReceiverConfig, digest: seq<Byte> -> H, f: Feed<H>, steps: seq<FeedStep>)
    requires ValidStreamConfig(c)
    decreases |steps|
  {
    steps == [] || (FeedEnabled(f, steps[0])
        && FeedLegal(c, rc, digest, FeedExec(c, rc, digest, f, steps[0]), steps[1..]))
  }

  function FeedRun<H(==)>(
      c: StreamConfig, rc: ReceiverConfig, digest: seq<Byte> -> H, f: Feed<H>, steps: seq<FeedStep>): Feed<H>
    requires ValidStreamConfig(c) && FeedLegal(c, rc, digest, f, steps)
    decreases |steps|
  {
    if steps == [] then f else FeedRun(c, rc, digest, FeedExec(c, rc, digest, f, steps[0]), steps[1..])
  }

  ghost predicate Increasing(log: seq<Snapshot>) {
    && (forall i :: 0 <= i < |log| ==> 0 < log[i].tick)
    && (forall i, j :: 0 <= i < j < |log| ==> log[i].tick < log[j].tick)
  }

  /** Packet `i` says what its snapshot is: itself, or a delta against the one before it. */
  ghost predicate Tells<H>(c: StreamConfig, digest: seq<Byte> -> H, log: seq<Snapshot>, i: nat, p: Packet<H>)
    requires i < |log|
  {
    && p.room == c.room && p.tick == log[i].tick && p.hash == digest(log[i].state)
    && |log[i].state| <= c.maxPayload
    && |p.payload| <= |log[i].state|
    && (p.kind == Keyframe ==> p.baseTick == 0 && p.payload == log[i].state)
    && (p.kind == DeltaFrame ==>
        0 < i && p.baseTick == log[i - 1].tick && Patch(log[i - 1].state, p.payload) == Ok(log[i].state))
  }

  ghost predicate FeedInv<H>(c: StreamConfig, digest: seq<Byte> -> H, f: Feed<H>) {
    && Increasing(f.log)
    && |f.packets| == |f.log|
    && f.sender.previous == (if f.log == [] then None else Some(f.log[|f.log| - 1]))
    && (f.log == [] ==> f.sender.force)
    && (forall i :: 0 <= i < |f.log| ==> Tells(c, digest, f.log, i, f.packets[i]))
    && (f.current.Some? ==> exists i :: 0 <= i < |f.log| && f.log[i] == f.current.value)
  }

  lemma PublishTells<H>(c: StreamConfig, digest: seq<Byte> -> H, f: Feed<H>, s: Snapshot)
    requires ValidStreamConfig(c) && FeedInv(c, digest, f)
    requires PacketFor(c, f.sender, s, digest).Ok?
    ensures Tells(c, digest, f.log + [s], |f.log|, PacketFor(c, f.sender, s, digest).value)
  {
    hide Delta, Patch;
    var p := PacketFor(c, f.sender, s, digest).value;
    if p.kind == DeltaFrame {
      PatchOfDelta(f.sender.previous.value.state, s.state);
    }
  }

  /** A genuine packet is accepted exactly when it is newer than what the receiver shows, fits,
      and is a keyframe or builds on exactly what the receiver shows; it then yields the
      snapshot that was published at its tick. */
  lemma GenuineApply<H>(c: StreamConfig, rc: ReceiverConfig, digest: seq<Byte> -> H, f: Feed<H>, i: nat)
    requires FeedInv(c, digest, f) && i < |f.packets|
    requires rc.room == c.room
    ensures var p, r := f.packets[i], ApplyPacket(rc, f.current, f.packets[i], digest);
            && (r.Ok? ==> r.value == f.log[i])
            && (r.Ok? <==>
                  && |f.log[i].state| <= rc.max
                  && (f.current.None? || f.current.value.tick < p.tick)
                  && (p.kind == Keyframe || (f.current.Some? && f.current.value.tick == p.baseTick)))
  {
    hide Patch;
    var p := f.packets[i];
    assert Tells(c, digest, f.log, i, p);
    if p.kind == DeltaFrame && f.current.Some? && f.current.value.tick == p.baseTick {
      var j :| 0 <= j < |f.log| && f.log[j] == f.current.value;
      assert j == i - 1;
    }
  }

  lemma FeedStepKeeps<H>(c: StreamConfig, rc: ReceiverConfig, digest: seq<Byte> -> H, f: Feed<H>, step: FeedStep)
    requires ValidStreamConfig(c) && rc.room == c.room && FeedInv(c, digest, f) && FeedEnabled(f, step)
    ensures FeedInv(c, digest, FeedExec(c, rc, digest, f, step))
  {
    hide Patch, PacketFor, ApplyPacket;
    match step
    case Publish(s) => PublishKeeps(c, rc, digest, f, s);
    case ForceNext =>
    case Arrive(i) => GenuineApply(c, rc, digest, f, i);
  }

  lemma PublishKeeps<H>(c: StreamConfig, rc: ReceiverConfig, digest: seq<Byte> -> H, f: Feed<H>, s: Snapshot)
    requires ValidStreamConfig(c) && FeedInv(c, digest, f)
    ensures FeedInv(c, digest, FeedExec(c, rc, digest, f, Publish(s)))
  {
    var p := PacketFor(c, f.sender, s, digest);
    if p.Ok? {
      PublishTells(c, digest, f, s);
      assert 0 < s.tick && (f.log != [] ==> f.log[|f.log| - 1].tick < s.tick);
      hide Tells, PacketFor;
      var g := FeedExec(c, rc, digest, f, Publish(s));
      assert g == Feed(Sender(Some(s), false), f.log + [s], f.packets + [p.value], f.current);
      forall i | 0 <= i < |g.log|
        ensures Tells(c, digest, g.log, i, g.packets[i])
      {
        if i < |f.log| {
          StillTells(c, digest, f.log, s, i, f.packets[i]);
        }
      }
      LogGrows(f.log, s);
      hide Increasing, FeedExec;
      if f.current.Some? {
        var i :| 0 <= i < |f.log| && f.log[i] == f.current.value;
        assert g.log[i] == f.current.value;
      }
    }
  }

  lemma LogGrows(log: seq<Snapshot>, s: Snapshot)
    requires Increasing(log)
    requires 0 < s.tick && (log != [] ==> log[|log| - 1].tick < s.tick)
    ensures Increasing(log + [s])
  {
  }

  lemma StillTells<H>(c: StreamConfig, digest: seq<Byte> -> H, log: seq<Snapshot>, s: Snapshot, i: nat, p: Packet<H>)
    requires i < |log| && Tells(c, digest, log, i, p)
    ensures Tells(c, digest, log + [s], i, p)
  {
  }

  lemma {:induction false} FeedRunKeeps<H>(
      c: StreamConfig, rc: ReceiverConfig, digest: seq<Byte> -> H, f: Feed<H>, steps: seq<FeedStep>)
    requires ValidStreamConfig(c) && rc.room == c.room && FeedInv(c, digest, f)
    requires FeedLegal(c, rc, digest, f, steps)
    ensures FeedInv(c, digest, FeedRun(c, rc, digest, f, steps))
    decreases |steps|
  {
    hide FeedInv, FeedExec;
    if steps != [] {
      FeedStepKeeps(c, rc, digest, f, steps[0]);
      FeedRunKeeps(c, rc, digest, FeedExec(c, rc, digest, f, steps[0]), steps[1..]);
    }
  }

  /** Whatever subset of the packets arrives, in whatever order and however often, and whatever
      hash is used: what the receiver shows is what was published at that tick. */
  lemma ShowsWhatWasPublished<H>(c: StreamConfig, rc: ReceiverConfig, digest: seq<Byte> -> H, steps: seq<FeedStep>)
    requires ValidStreamConfig(c) && rc.room == c.room
    requires FeedLegal(c, rc, digest, FeedStart(), steps)
    ensures var f := FeedRun(c, rc, digest, FeedStart(), steps);
            && Increasing(f.log)
            && (f.current.Some? ==> exists i :: 0 <= i < |f.log| && f.log[i] == f.current.value)
  {
    FeedRunKeeps(c, rc, digest, FeedStart(), steps);
  }

  /** After any run and any losses, the next snapshot published under force (or at a periodic
      tick) brings the receiver up to date. */
  lemma KeyframeRepairs<H>(
      c: StreamConfig, rc: ReceiverConfig, digest: seq<Byte> -> H, steps: seq<FeedStep>, s: Snapshot)
    requires ValidStreamConfig(c) && rc.room == c.room && rc.max == c.maxPayload
    requires FeedLegal(c, rc, digest, FeedStart(), steps)
    requires var f := FeedRun(c, rc, digest, FeedStart(), steps);
             && 0 < s.tick && |s.state| <= c.maxPayload
             && (f.log != [] ==> f.log[|f.log| - 1].tick < s.tick)
             && (f.sender.force || s.tick % c.keyframeInterval == 0)
    ensures var f := FeedRun(c, rc, digest, FeedStart(), steps);
            var g := FeedExec(c, rc, digest, f, Publish(s));
            FeedEnabled(g, Arrive(|f.log|)) && FeedExec(c, rc, digest, g, Arrive(|f.log|)).current == Some(s)
  {
    FeedRunKeeps(c, rc, digest, FeedStart(), steps);
    var f := FeedRun(c, rc, digest, FeedStart(), steps);
    hide FeedRun, FeedLegal, Patch;
    var g := FeedExec(c, rc, digest, f, Publish(s));
    assert PacketFor(c, f.sender, s, digest) == Ok(Whole(c, s, digest));
    PublishKeeps(c, rc, digest, f, s);
    if f.current.Some? {
      var i :| 0 <= i < |f.log| && f.log[i] == f.current.value;
      assert f.log[i].tick <= f.log[|f.log| - 1].tick;
    }
    GenuineApply(c, rc, digest, g, |f.log|);
  }

  /** Without loss the deltas chain: a receiver showing the previous snapshot always accepts
      the next packet. */
  lemma NextPacketAccepted<H>(c: StreamConfig, rc: ReceiverConfig, digest: seq<Byte> -> H, f: Feed<H>, i: nat)
    requires FeedInv(c, digest, f) && i < |f.packets|
    requires rc.room == c.room && rc.max == c.maxPayload
    requires f.current == if i == 0 then None else Some(f.log[i - 1])
    ensures ApplyPacket(rc, f.current, f.packets[i], digest) == Ok(f.log[i])
  {
    assert Tells(c, digest, f.log, i, f.packets[i]);
    GenuineApply(c, rc, digest, f, i);
  }

  // ---------------------------------------------------------------- what is published and accepted

  /** The snapshot must be sent whole. */
  predicate MustBeWhole(c: StreamConfig, sender: Sender, s: Snapshot)
    requires ValidStreamConfig(c)
  {
    sender.previous.None? || sender.force || s.tick % c.keyframeInterval == 0
  }

  /** The last five octets are those of the base: then cutting them off pays for the length. */
  ghost predicate TailUnchanged(base: seq<Byte>, now: seq<Byte>) {
    5 <= |now| && forall i :: |now| - 5 <= i < |now| ==> now[i] == At(base, i)
  }

  /** A snapshot is published if and only if its tick is new and it fits; it goes out as a delta
      exactly when it need not be whole and its last five octets did not change. */
  lemma PublishExactly<H>(c: StreamConfig, sender: Sender, s: Snapshot, digest: seq<Byte> -> H)
    requires ValidStreamConfig(c)
    ensures var p := PacketFor(c, sender, s, digest);
            var sound := && 0 < s.tick && |s.state| <= c.maxPayload
                         && (sender.previous.Some? ==> sender.previous.value.tick < s.tick);
            && (p.Ok? <==> sound && (MustBeWhole(c, sender, s) || |s.state| < 0x1_0000_0000))
            && (p == Err(BadTickOrSize) <==> !sound)
            && (p.Ok? ==>
                  && p.value.room == c.room && p.value.tick == s.tick && p.value.hash == digest(s.state)
                  && (p.value.kind == DeltaFrame <==>
                        !MustBeWhole(c, sender, s) && TailUnchanged(sender.previous.value.state, s.state))
                  && (p.value.kind == Keyframe ==> p.value.baseTick == 0 && p.value.payload == s.state)
                  && (p.value.kind == DeltaFrame ==> p.value.baseTick == sender.previous.value.tick))
  {
    if !MustBeWhole(c, sender, s) && |s.state| < 0x1_0000_0000 {
      var base := sender.previous.value.state;
      if 5 <= |s.state| {
        DeltaLength(base, s.state, |s.state| - 5);
      } else {
        assert 4 <= |Delta(base, s.state).value|;
        assert |Delta(base, s.state).value| == 4 ==> |s.state| <= 4;
      }
    }
    hide Delta;
  }

  /** Any snapshot with a new tick that fits reaches a receiver that shows the last one published:
      published, it is accepted and shown. */
  lemma OrdinaryTickArrives<H>(
      c: StreamConfig, rc: ReceiverConfig, digest: seq<Byte> -> H, f: Feed<H>, s: Snapshot)
    requires ValidStreamConfig(c) && rc.room == c.room && rc.max == c.maxPayload && FeedInv(c, digest, f)
    requires f.current == f.sender.previous
    requires 0 < s.tick && |s.state| <= c.maxPayload && |s.state| < 0x1_0000_0000
    requires f.log != [] ==> f.log[|f.log| - 1].tick < s.tick
    ensures var g := FeedExec(c, rc, digest, f, Publish(s));
            FeedEnabled(g, Arrive(|f.log|)) && FeedExec(c, rc, digest, g, Arrive(|f.log|)).current == Some(s)
  {
    PublishExactly(c, f.sender, s, digest);
    PublishKeeps(c, rc, digest, f, s);
    var g := FeedExec(c, rc, digest, f, Publish(s));
    assert g.log == f.log + [s];
    hide PacketFor, ApplyPacket, FeedInv;
    NextPacketAccepted(c, rc, digest, g, |f.log|);
  }

  /** Packets of any origin: what makes the receiver show a state, exactly. */
  lemma AcceptedExactly<H>(
      c: ReceiverConfig, current: Option<Snapshot>, p: Packet<H>, digest: seq<Byte> -> H, shown: Snapshot)
    ensures ApplyPacket(c, current, p, digest) == Ok(shown) <==>
            && p.room == c.room && 0 < p.tick && |p.payload| <= c.max
            && (current.Some? ==> current.value.tick < p.tick)
            && shown.tick == p.tick && |shown.state| <= c.max && digest(shown.state) == p.hash
            && if p.kind == Keyframe then p.baseTick == 0 && shown.state == p.payload
               else && current.Some? && current.value.tick == p.baseTick && 4 <= |p.payload|
                    && |shown.state| == FromBigEndian(p.payload[..4])
                    && forall i :: 0 <= i < |shown.state| ==>
                         shown.state[i] == Xor(At(current.value.state, i), At(p.payload[4..], i))
  {
    hide FromBigEndian, Xor;
    if p.kind == DeltaFrame && current.Some? && 4 <= |p.payload| {
      var restored := Restored(current.value.state, FromBigEndian(p.payload[..4]), p.payload[4..]);
      assert (&& |shown.state| == |restored|
              && forall i :: 0 <= i < |restored| ==> shown.state[i] == restored[i]) ==> shown.state == restored;
    }
  }
}
