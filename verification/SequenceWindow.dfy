/** The bounded cumulative-acknowledgement window that both the input channel and
    entity replication use to de-duplicate out-of-order sequence numbers. */
module SequenceWindows {
  import opened Common

  datatype Disposition = Accepted | Duplicate

  datatype WindowError = ZeroSequence | BeyondReorderWindow | ZeroReorderWindow

  datatype Window = Window(reorder: nat, acknowledged: nat, pending: set<nat>)

  /** `s` was received: covered by the cumulative acknowledgement or buffered above it. */
  predicate Received(w: Window, s: nat) {
    s <= w.acknowledged || s in w.pending
  }

  /** Buffered sequences lie strictly above the gap that stops the acknowledgement and
      within the reorder window. Hence `acknowledged` is the largest `n` such that
      everything up to `n` was received, and `pending` is all the rest. */
  ghost predicate ValidWindow(w: Window) {
    && 0 < w.reorder
    && w.acknowledged <= U64_MAX
    && (forall s :: s in w.pending ==> w.acknowledged + 1 < s <= SatAdd(w.acknowledged, w.reorder))
  }

  /** The cumulative acknowledgement after closing every gap: moves up while the next
      sequence is buffered. */
  function Settle(ack: nat, pending: set<nat>): (r: (nat, set<nat>))
    decreases pending
  {
    if ack < U64_MAX && ack + 1 in pending then Settle(ack + 1, pending - {ack + 1}) else (ack, pending)
  }

  function ObserveWindow(w: Window, sequence: nat): (r: Result<(Window, Disposition), WindowError>)
  {
    if sequence == 0 then Err(ZeroSequence)
    else if sequence <= w.acknowledged || sequence in w.pending then Ok((w, Duplicate))
    else if sequence > SatAdd(w.acknowledged, w.reorder) then Err(BeyondReorderWindow)
    else
      var (ack, pending) := Settle(w.acknowledged, w.pending + {sequence});
      Ok((w.(acknowledged := ack, pending := pending), Accepted))
  }

  /** Closing gaps neither loses nor invents a received sequence, and stops only at a real gap. */
  lemma {:induction false} SettleReceives(ack: nat, pending: set<nat>)
    requires ack <= U64_MAX
    requires forall s :: s in pending ==> ack < s
    ensures var (a, p) := Settle(ack, pending);
            && ack <= a <= U64_MAX
            && p <= pending
            && (forall s: nat :: (s <= a || s in p) <==> (s <= ack || s in pending))
            && (forall s :: s in p ==> a < s)
            && (a < U64_MAX ==> a + 1 !in p)
    decreases pending
  {
    if ack < U64_MAX && ack + 1 in pending {
      var rest := pending - {ack + 1};
      SettleReceives(ack + 1, rest);
      var (a, p) := Settle(ack + 1, rest);
      forall s: nat
        ensures (s <= a || s in p) <==> (s <= ack || s in pending)
      {
        assert s in pending <==> s in rest || s == ack + 1;
      }
    }
  }

  /** One accepted observation adds exactly the observed sequence to what was received,
      and keeps the window cumulative. */
  lemma ObserveReceives(w: Window, sequence: nat)
    requires ValidWindow(w)
    ensures match ObserveWindow(w, sequence)
            case Ok((next, Accepted)) =>
              && ValidWindow(next)
              && next.reorder == w.reorder
              && w.acknowledged <= next.acknowledged
              && 0 < sequence <= SatAdd(w.acknowledged, w.reorder)
              && !Received(w, sequence)
              && (forall s: nat :: Received(next, s) <==> Received(w, s) || s == sequence)
            case Ok((next, Duplicate)) => next == w && 0 < sequence && Received(w, sequence)
            case Err(error) =>
              if sequence == 0 then error == ZeroSequence
              else && error == BeyondReorderWindow && !Received(w, sequence)
                   && sequence > SatAdd(w.acknowledged, w.reorder)
  {
    var r := ObserveWindow(w, sequence);
    if r.Ok? && r.value.1.Accepted? {
      SettleReceives(w.acknowledged, w.pending + {sequence});
    }
  }

  /** A cumulative window is determined by the set of received sequences: the
      acknowledgement is the largest `n` with everything up to `n` received. */
  lemma AcknowledgementIsLargestPrefix(w: Window, n: nat)
    requires ValidWindow(w)
    requires n <= U64_MAX
    ensures n <= w.acknowledged <==> forall s: nat :: 1 <= s <= n ==> Received(w, s)
  {
    if n > w.acknowledged {
      assert !Received(w, w.acknowledged + 1);
    }
  }

  class SequenceWindow {
    const reorderWindow: nat
    var acknowledged: nat
    var pending: set<nat>

    function View(): Window
      reads this
    {
      Window(reorderWindow, acknowledged, pending)
    }

    ghost predicate Valid()
      reads this
    {
      ValidWindow(View())
    }

    constructor FromView(w: Window)
      ensures View() == w
    {
      reorderWindow := w.reorder;
      acknowledged := w.acknowledged;
      pending := w.pending;
    }

    static method WithAcknowledged(reorder: nat, ack: nat) returns (r: Result<SequenceWindow, WindowError>)
      requires ack <= U64_MAX
      ensures r.Err? <==> reorder == 0
      ensures r.Ok? ==> fresh(r.value) && r.value.Valid() && r.value.View() == Window(reorder, ack, {})
    {
      if reorder == 0 {
        return Err(ZeroReorderWindow);
      }
      var w := new SequenceWindow.FromView(Window(reorder, ack, {}));
      r := Ok(w);
    }

    method Observe(sequence: nat) returns (r: Result<Disposition, WindowError>)
      requires Valid()
      modifies this
      ensures Valid()
      ensures match ObserveWindow(old(View()), sequence)
              case Ok((next, disposition)) => r == Ok(disposition) && View() == next
              case Err(error) => r == Err(error) && View() == old(View())
    {
      ObserveReceives(View(), sequence);
      if sequence == 0 {
        return Err(ZeroSequence);
      }
      if sequence <= acknowledged || sequence in pending {
        return Ok(Duplicate);
      }
      if sequence > SatAdd(acknowledged, reorderWindow) {
        return Err(BeyondReorderWindow);
      }
      pending := pending + {sequence};
      while acknowledged < U64_MAX && acknowledged + 1 in pending
        invariant Settle(acknowledged, pending) == Settle(old(acknowledged), old(pending) + {sequence})
        decreases pending
      {
        pending := pending - {acknowledged + 1};
        acknowledged := acknowledged + 1;
      }
      r := Ok(Accepted);
    }
  }
}
