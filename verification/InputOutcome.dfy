/** What each operation of the input channel leads to: when an input is recorded, what an
    acknowledgement releases, and what a packet of any origin hands over. */
module InputOutcomes {
  import opened Common
  import opened SequenceWindows
  import opened StableSort
  import opened InputChannel
  import opened InputRuns

  // ---------------------------------------------------------------- the sender

  /** In a reachable stream an input is recorded if and only if it has a target, fewer inputs than
      the capacity are unacknowledged, and a number is left; it is then the last one issued. */
  lemma RecordExactly<T>(c: StreamConfig, s: Stream<T>, target: nat, input: T)
    requires StreamInv(s)
    ensures var n, last := StreamExec(c, s, RecordStep(target, input)), s.base + |s.issued|;
            var recorded := && 0 < target && last + 1 < U64_MAX
                            && last - s.sender.acknowledged < c.sender.historyCapacity;
            && n.issued == (if recorded then s.issued + [InputFrame(last + 1, target, input)] else s.issued)
            && n.sender.history == n.issued[s.sender.acknowledged - s.base..]
            && n.window == s.window && n.delivered == s.delivered && n.packets == s.packets && n.acks == s.acks
  {
    hide Remembers, AllGenuine, Numbered;
  }

  /** Which condition gives which error, the first one counting. */
  lemma RecordErrors<T>(c: SenderConfig, s: InSender<T>, target: nat, input: T)
    ensures var r := RecordInput(c, s, target, input);
            && (r == Err(ZeroTarget) <==> target == 0)
            && (r == Err(HistoryFull) <==> 0 < target && |s.history| >= c.historyCapacity)
            && (r == Err(SequenceExhausted) <==>
                  0 < target && |s.history| < c.historyCapacity && s.next >= U64_MAX)
  {
  }

  /** An acknowledgement of any origin is accepted if and only if it names a number already issued.
      The sender then keeps exactly the inputs after the highest one acknowledged, and the
      latest server tick it was told of. */
  lemma AcknowledgeExactly<T>(s: Stream<T>, ack: InputAck)
    requires StreamInv(s)
    ensures var r := AcknowledgeInput(s.sender, ack);
            && (r.Ok? <==> ack.sequence <= s.base + |s.issued|)
            && (r.Err? ==> r.error == InvalidAcknowledgement)
            && (r.Ok? ==>
                  && r.value.acknowledged == Max(s.sender.acknowledged, ack.sequence)
                  && r.value.history == s.issued[r.value.acknowledged - s.base..]
                  && r.value.serverTick == Max(s.sender.serverTick, ack.serverTick)
                  && r.value.next == s.sender.next)
  {
    hide Remembers, AllGenuine, DropThrough;
    if s.sender.acknowledged < ack.sequence <= s.base + |s.issued| {
      var history := s.sender.history;
      assert forall i :: 0 <= i < |history| ==> FrameSequence(history[i]) == s.sender.acknowledged + 1 + i;
      DropThroughAt(FrameSequence, history, s.sender.acknowledged, ack.sequence);
    }
  }

  // ---------------------------------------------------------------- the receiver

  /** The target lies in the span the server still takes at `tick`. */
  predicate Timely(c: ReceiverConfig, tick: nat, target: nat) {
    0 < target && tick <= target + c.maxPast && target <= SatAdd(tick, c.maxFuture)
  }

  lemma {:induction false} ScanInputsExactly<T>(
      earliest: nat, latest: nat, sc: InScan<T>, frames: seq<InputFrame<T>>)
    requires ValidWindow(sc.window) && ScanInputs(earliest, latest, sc, frames).Ok?
    ensures var e := ScanInputs(earliest, latest, sc, frames).value;
            && sc.accepted <= e.accepted
            && |e.accepted| + e.duplicates == |sc.accepted| + sc.duplicates + |frames|
            && (forall s: nat :: Received(e.window, s) <==> Received(sc.window, s) || Handed(frames, s))
            && (forall i :: 0 <= i < |frames| ==> 0 < frames[i].sequence)
            && (forall i :: |sc.accepted| <= i < |e.accepted| ==>
                  0 < e.accepted[i].targetTick && earliest <= e.accepted[i].targetTick <= latest)
    decreases |frames|
  {
    hide ScanInputs, ValidWindow, Received, Handed;
    if frames == [] {
      NoInputs(earliest, latest, sc, frames);
    } else {
      var f, tail := frames[0], frames[1..];
      var next := ScanInput(earliest, latest, sc, frames);
      ScanInputsExactly(earliest, latest, next, tail);
      assert forall i :: 0 < i < |frames| ==> frames[i] == tail[i - 1];
      HandedSplit(f, tail);
      assert frames == [f] + tail;
    }
  }

  lemma NoInputs<T>(earliest: nat, latest: nat, sc: InScan<T>, frames: seq<InputFrame<T>>)
    requires frames == []
    ensures ScanInputs(earliest, latest, sc, frames) == Ok(sc)
    ensures forall s: nat :: !Handed(frames, s)
  {
  }

  lemma ScanInput<T>(
      earliest: nat, latest: nat, sc: InScan<T>, frames: seq<InputFrame<T>>) returns (next: InScan<T>)
    requires ValidWindow(sc.window) && frames != [] && ScanInputs(earliest, latest, sc, frames).Ok?
    ensures ScanInputs(earliest, latest, sc, frames) == ScanInputs(earliest, latest, next, frames[1..])
    ensures ValidWindow(next.window) && sc.accepted <= next.accepted && 0 < frames[0].sequence
    ensures forall s: nat :: Received(next.window, s) <==> Received(sc.window, s) || s == frames[0].sequence
    ensures |next.accepted| + next.duplicates == |sc.accepted| + sc.duplicates + 1
    ensures forall i :: |sc.accepted| <= i < |next.accepted| ==>
              0 < next.accepted[i].targetTick && earliest <= next.accepted[i].targetTick <= latest
  {
    var f := frames[0];
    ObserveReceives(sc.window, f.sequence);
    var r := ObserveWindow(sc.window, f.sequence).value;
    hide ValidWindow, ObserveWindow;
    if r.1.Duplicate? {
      next := sc.(duplicates := sc.duplicates + 1);
    } else {
      next := InScan(r.0, sc.accepted + [f], sc.duplicates);
    }
  }

  lemma HandedSplit<T>(f: InputFrame<T>, tail: seq<InputFrame<T>>)
    ensures forall s: nat :: Handed([f] + tail, s) <==> f.sequence == s || Handed(tail, s)
  {
    var all := [f] + tail;
    forall s: nat
      ensures Handed(all, s) <==> f.sequence == s || Handed(tail, s)
    {
      if Handed(all, s) {
        var i :| 0 <= i < |all| && all[i].sequence == s;
        assert i > 0 ==> tail[i - 1].sequence == s;
      }
      if Handed(tail, s) {
        var i :| 0 <= i < |tail| && tail[i].sequence == s;
        assert all[i + 1].sequence == s;
      }
      assert all[0].sequence == f.sequence;
    }
  }

  lemma SortedHands<T>(frames: seq<InputFrame<T>>)
    ensures |SortBy(FrameSequence, frames)| == |frames|
    ensures forall s: nat :: Handed(SortBy(FrameSequence, frames), s) <==> Handed(frames, s)
    ensures forall f :: f in frames ==> f in SortBy(FrameSequence, frames)
  {
    SortIsPermutation(FrameSequence, frames);
    var sorted := SortBy(FrameSequence, frames);
    hide SortBy;
    assert |multiset(sorted)| == |multiset(frames)|;
    assert forall f :: f in sorted <==> f in multiset(sorted);
    assert forall f :: f in frames <==> f in multiset(frames);
    forall s: nat
      ensures Handed(sorted, s) <==> Handed(frames, s)
    {
      if Handed(sorted, s) {
        var i :| 0 <= i < |sorted| && sorted[i].sequence == s;
        assert sorted[i] in frames;
      }
      if Handed(frames, s) {
        var i :| 0 <= i < |frames| && frames[i].sequence == s;
        assert frames[i] in sorted;
      }
    }
  }

  /** Any packet that is accepted, whoever sent it: it is short enough and claims no future server
      tick; everything it hands over has a target in the span; every input of the packet is
      then received, and is either handed over or counted as a duplicate. */
  lemma AcceptedPacketMeans<T>(c: ReceiverConfig, w: Window, tick: nat, p: InputPacket<T>)
    requires ValidWindow(w) && ReceiveInputs(c, w, tick, p).Ok?
    ensures var e := ReceiveInputs(c, w, tick, p).value;
            && |p.inputs| <= c.maxInputs && p.acknowledgedServerTick <= tick
            && (forall i :: 0 <= i < |e.accepted| ==> Timely(c, tick, e.accepted[i].targetTick))
            && (forall s: nat :: Received(e.window, s) <==> Received(w, s) || Handed(p.inputs, s))
            && |e.accepted| + e.duplicates == |p.inputs|
            && (forall f :: f in p.inputs ==> 0 < f.sequence)
  {
    hide ScanInputs, SortBy, ValidWindow, Received, Handed;
    SortedHands(p.inputs);
    var sorted := SortBy(FrameSequence, p.inputs);
    ScanInputsExactly(SatSub(tick, c.maxPast), SatAdd(tick, c.maxFuture), InScan(w, [], 0), sorted);
  }

  /** The two refusals that look at the packet as a whole. */
  lemma PacketErrors<T>(c: ReceiverConfig, w: Window, tick: nat, p: InputPacket<T>)
    ensures |p.inputs| > c.maxInputs ==> ReceiveInputs(c, w, tick, p) == Err(TooManyInputs)
    ensures |p.inputs| <= c.maxInputs && p.acknowledgedServerTick > tick ==>
              ReceiveInputs(c, w, tick, p) == Err(FutureAcknowledgement)
    ensures p.inputs == [] && p.acknowledgedServerTick <= tick ==>
              ReceiveInputs(c, w, tick, p) == Ok(InScan(w, [], 0))
  {
  }
}
