/** Congestion control: `handle_success_ack` (src/kernel.c) and `handle_loss_ack` (src/timer.c). The
    float quotient of congestion avoidance is its exact value, cut to an integer. */
module Congestion {
  const SMSS: nat := 1400
  const IW: nat := 3 * 1400

  datatype Mode = SlowStart | Avoidance | Recovery

  datatype Window = Window(mode: Mode, cwnd: nat, ssthresh: nat, timeouts: nat)

  datatype Event = Acked | Lost

  const INITIAL := Window(SlowStart, SMSS, IW, 0)

  /** The growth per acknowledgement in avoidance, `(int)(SMSS * ((float)SMSS / cwnd))`. */
  function Growth(cwnd: nat): nat
    requires cwnd > 0
  {
    SMSS * SMSS / cwnd
  }

  function OnAck(w: Window): Window
    requires w.cwnd > 0
  {
    match w.mode
    case SlowStart =>
      var c := w.cwnd + SMSS;
      w.(cwnd := c, mode := if c > w.ssthresh then Avoidance else SlowStart)
    case Avoidance => w.(cwnd := w.cwnd + Growth(w.cwnd))
    case Recovery => w.(cwnd := w.cwnd + SMSS)
  }

  /** A loss, with the retransmission counter the caller then advances. */
  function OnLoss(w: Window): Window {
    var half := (w.cwnd + 1) / 2;
    var z :=
      if w.mode.SlowStart? then
        w.(ssthresh := half, cwnd := SMSS, mode := if SMSS > half then Avoidance else SlowStart)
      else if w.mode.Avoidance? && w.timeouts % 4 == 3 then
        w.(ssthresh := half, cwnd := half + 3 * SMSS, mode := Recovery)
      else if w.mode.Recovery? then
        w.(ssthresh := half, cwnd := 1, mode := SlowStart)
      else w;
    z.(timeouts := w.timeouts + 1)
  }

  ghost predicate Inv(w: Window) {
    && w.cwnd >= 1 && w.ssthresh >= 1
    && (w.mode.SlowStart? <==> w.cwnd <= w.ssthresh)
    && (w.mode.Avoidance? ==> w.cwnd >= SMSS)
  }

  ghost function After(w: Window, events: seq<Event>): Window
    requires Inv(w)
    decreases |events|
  {
    if events == [] then w else
    OneEvent(w, events[0]);
    After(if events[0].Acked? then OnAck(w) else OnLoss(w), events[1..])
  }

  lemma OneEvent(w: Window, e: Event)
    requires Inv(w)
    ensures Inv(if e.Acked? then OnAck(w) else OnLoss(w))
  {
  }

  lemma {:induction false} EventsKeep(w: Window, events: seq<Event>)
    requires Inv(w)
    ensures Inv(After(w, events))
    decreases |events|
  {
    if events != [] {
      OneEvent(w, events[0]);
      EventsKeep(if events[0].Acked? then OnAck(w) else OnLoss(w), events[1..]);
    }
  }

  lemma InitialKept()
    ensures Inv(INITIAL)
  {
  }

  /** The window after any acknowledgements and losses on a new socket. */
  ghost function FromStart(events: seq<Event>): Window {
    InitialKept();
    After(INITIAL, events)
  }

  /** Slow start exactly while the window is within the threshold, a threshold of at least one, and
      at least one full segment in congestion avoidance (section 3.1 of RFC 5681). */
  lemma AlwaysKept(events: seq<Event>)
    ensures var z := FromStart(events);
      && z.cwnd >= 1 && z.ssthresh >= 1
      && (z.mode.SlowStart? <==> z.cwnd <= z.ssthresh)
      && (z.mode.Avoidance? ==> z.cwnd >= SMSS)
  {
    InitialKept();
    EventsKeep(INITIAL, events);
  }

  /** One acknowledgement in avoidance adds at most three squared segments to the squared window. */
  lemma GrowthSquared(c: nat)
    requires c >= SMSS
    ensures (c + Growth(c)) * (c + Growth(c)) <= c * c + 3 * (SMSS * SMSS)
    ensures Growth(c) <= SMSS
  {
    var g := Growth(c);
    assert g * c <= SMSS * SMSS;
    assert g <= SMSS;
    assert g * g <= g * c by { assert g <= c; }
    assert (c + g) * (c + g) == c * c + 2 * (g * c) + g * g;
  }

  ghost function Acks(k: nat): seq<Event> { seq(k, _ => Acked) }

  /** Linear growth of the square: after k consecutive acknowledgements in avoidance the window is
      still in avoidance, has not shrunk, and its square grew by at most 3 k SMSS^2. */
  lemma {:induction false} AvoidanceGrowth(w: Window, k: nat)
    requires Inv(w) && w.mode.Avoidance?
    ensures var z := After(w, Acks(k));
      && z.mode.Avoidance? && z.cwnd >= w.cwnd && z.ssthresh == w.ssthresh
      && z.cwnd * z.cwnd <= w.cwnd * w.cwnd + 3 * k * (SMSS * SMSS)
    decreases k
  {
    if k > 0 {
      assert Acks(k)[1..] == Acks(k - 1);
      OneEvent(w, Acked);
      GrowthSquared(w.cwnd);
      AvoidanceGrowth(OnAck(w), k - 1);
    }
  }

  ghost function Losses(k: nat): seq<Event> { seq(k, _ => Lost) }

  /** Slow start: every acknowledgement adds a segment of 1400 bytes, up to and with the one that passes
      the threshold. */
  lemma {:induction false} SlowStartExactly(w: Window, k: nat)
    requires Inv(w) && w.mode.SlowStart? && (k > 0 ==> w.cwnd + 1400 * (k - 1) <= w.ssthresh)
    ensures var z := After(w, Acks(k));
      && z.cwnd == w.cwnd + 1400 * k && z.ssthresh == w.ssthresh && z.timeouts == w.timeouts
      && z.mode == if w.cwnd + 1400 * k <= w.ssthresh then SlowStart else Avoidance
    decreases k
  {
    if k > 0 {
      assert Acks(k)[1..] == Acks(k - 1);
      OneEvent(w, Acked);
      if k == 1 {
        assert Acks(0) == [];
      } else {
        SlowStartExactly(OnAck(w), k - 1);
      }
    }
  }

  /** A new socket leaves slow start with its third acknowledgement. */
  lemma FirstAcks(k: nat)
    requires k <= 3
    ensures var z := FromStart(Acks(k));
      z.cwnd == 1400 * (k + 1) && z.ssthresh == 4200 && z.mode == if k == 3 then Avoidance else SlowStart
  {
    InitialKept();
    SlowStartExactly(INITIAL, k);
  }

  /** Recovery: a segment for each acknowledgement, without end. */
  lemma {:induction false} RecoveryExactly(w: Window, k: nat)
    requires Inv(w) && w.mode.Recovery?
    ensures After(w, Acks(k)) == w.(cwnd := w.cwnd + 1400 * k)
    decreases k
  {
    if k > 0 {
      assert Acks(k)[1..] == Acks(k - 1);
      OneEvent(w, Acked);
      RecoveryExactly(OnAck(w), k - 1);
    }
  }

  /** Avoidance: the window times its growth is the squared segment, as nearly as whole bytes allow. */
  lemma AvoidanceExactly(w: Window)
    requires Inv(w) && w.mode.Avoidance?
    ensures var z := After(w, Acks(1)); var g := z.cwnd - w.cwnd;
      g >= 0 && g * w.cwnd <= 1400 * 1400 < (g + 1) * w.cwnd && z == w.(cwnd := w.cwnd + g)
  {
    assert Acks(1)[1..] == [];
    OneEvent(w, Acked);
    assert After(w, Acks(1)) == OnAck(w);
    Quotient(1400 * 1400, w.cwnd);
  }

  lemma Quotient(n: nat, m: nat)
    requires m > 0
    ensures n / m * m <= n < (n / m + 1) * m
  {
    assert n == n / m * m + n % m;
  }

  /** Half of a window, rounded up. */
  predicate HalfOf(half: nat, cwnd: nat) { cwnd <= 2 * half <= cwnd + 1 }

  /** Losses in slow start: back to one segment, with half the window as the threshold. */
  lemma SlowStartLoss(w: Window)
    requires Inv(w) && w.mode.SlowStart?
    ensures var z := After(w, Losses(1));
      && HalfOf(z.ssthresh, w.cwnd) && z.cwnd == 1400 && z.timeouts == w.timeouts + 1
      && z.mode == if z.ssthresh < 1400 then Avoidance else SlowStart
  {
    OneLoss(w);
  }

  lemma OneLoss(w: Window)
    requires Inv(w)
    ensures After(w, Losses(1)) == OnLoss(w) && Inv(OnLoss(w))
  {
    assert Losses(1)[1..] == [];
    OneEvent(w, Lost);
  }

  lemma OneLossMore(w: Window, k: nat)
    requires Inv(w) && k > 0
    ensures Inv(OnLoss(w)) && After(w, Losses(k)) == After(OnLoss(w), Losses(k - 1))
  {
    assert Losses(k)[1..] == Losses(k - 1);
    OneEvent(w, Lost);
  }

  /** Losses in avoidance: up to three of them in a row change nothing but the count, until it is a
      multiple of four after the next; that one halves the threshold and inflates the window by three
      segments; and the one after that leaves a window of one byte. */
  lemma {:induction false} AvoidanceLosses(w: Window, k: nat)
    requires Inv(w) && w.mode.Avoidance? && w.timeouts % 4 + k == 3
    ensures After(w, Losses(k)) == w.(timeouts := w.timeouts + k)
    ensures var z := After(w, Losses(k + 1));
      && HalfOf(z.ssthresh, w.cwnd) && z.cwnd == z.ssthresh + 3 * 1400 && z.mode == Recovery
      && z.timeouts == w.timeouts + k + 1 && z.timeouts % 4 == 0
    ensures var z, y := After(w, Losses(k + 1)), After(w, Losses(k + 2));
      HalfOf(y.ssthresh, z.cwnd) && y.cwnd == 1 && y.mode == SlowStart && y.timeouts == z.timeouts + 1
    decreases k
  {
    OneLossMore(w, k + 1);
    OneLossMore(w, k + 2);
    if k > 0 {
      OneLossMore(w, k);
      AvoidanceLosses(OnLoss(w), k - 1);
    } else {
      OneLossMore(OnLoss(w), 1);
      assert Losses(0) == [];
    }
  }

  /** The window fields of `tju_tcp_t`. */
  class Controller {
    var conStatus: Mode
    var cwnd: nat
    var ssthresh: nat
    var timeoutCounts: nat

    ghost function Val(): Window
      reads this
    {
      Window(conStatus, cwnd, ssthresh, timeoutCounts)
    }

    /** The initial values of `tcp_socket`. */
    constructor ()
      ensures Val() == INITIAL && Inv(Val())
    {
      conStatus, cwnd, ssthresh, timeoutCounts := SlowStart, SMSS, IW, 0;
    }

    method HandleSuccessAck()
      requires Inv(Val())
      modifies this
      ensures Val() == OnAck(old(Val())) && Inv(Val())
    {
      OneEvent(Val(), Acked);
      if conStatus == SlowStart {
        cwnd := cwnd + SMSS;
        if cwnd > ssthresh {
          conStatus := Avoidance;
        }
      } else if conStatus == Avoidance {
        cwnd := cwnd + SMSS * SMSS / cwnd;
      } else {
        cwnd := cwnd + SMSS;
      }
    }

    /** `handle_loss_ack` and the count that follows it in the timer's callback. */
    method HandleLossAck()
      requires Inv(Val())
      modifies this
      ensures Val() == OnLoss(old(Val())) && Inv(Val())
    {
      OneEvent(Val(), Lost);
      var counts := timeoutCounts % 4;
      if conStatus == SlowStart {
        ssthresh := (cwnd + 1) / 2;
        cwnd := 1 * SMSS;
        if cwnd > ssthresh {
          conStatus := Avoidance;
        }
      } else if conStatus == Avoidance && counts == 3 {
        ssthresh := (cwnd + 1) / 2;
        cwnd := ssthresh + 3 * SMSS;
        conStatus := Recovery;
      } else if conStatus == Recovery {
        ssthresh := (cwnd + 1) / 2;
        cwnd := 1;
        conStatus := SlowStart;
      }
      timeoutCounts := timeoutCounts + 1;
    }
  }
}
