/** The code of src/chan.c: `chan_t` and the stretches under `m_mu`, each proved to take one step of the
    machine in `BufferedChannel` or `UnbufferedChannel`. */
module ChannelHeap {
  import opened Common
  import opened RingQueue
  import B = BufferedChannel
  import U = UnbufferedChannel

  type Value = nat

  /** `chan_t`. `woken` tells a stretch that starts a call from one that comes back from a wait. */
  class Chan {
    var closed: bool
    var rWaiting: int
    var wWaiting: int
    var data: Value
    const queue: Queue?<Value>

    /** The shared fields are those of the buffered machine. */
    ghost predicate Shows(b: B.Chan)
      reads this, queue, if queue == null then {} else {queue.data}
    {
      && queue != null && queue.Valid() && queue.capacity == b.capacity && queue.Contents() == b.ring
      && closed == b.closed && rWaiting == b.rWaiting && wWaiting == b.wWaiting
    }

    /** The shared fields are those of the rendezvous machine. */
    ghost predicate ShowsDirect(u: U.Chan)
      reads this
    {
      queue == null && closed == u.closed && rWaiting == u.rWaiting && wWaiting == u.wWaiting && data == u.data
    }

    /** A fresh channel around a ring, or without one. */
    constructor (queue: Queue?<Value>)
      ensures this.queue == queue && !closed && rWaiting == 0 && wWaiting == 0 && data == 0
    {
      this.queue := queue;
      closed, rWaiting, wWaiting, data := false, 0, 0, 0;
    }

    /** `chan_close`: 0, or -1 when it was closed already. `broadcast` is for both conditions. */
    method Close() returns (rc: int, broadcast: bool)
      modifies this`closed
      ensures closed && rc == (if old(closed) then -1 else 0) && broadcast == !old(closed)
      ensures forall b: B.Chan :: old(Shows(b)) ==> Shows(B.Next(b, B.Close))
      ensures forall u: U.Chan :: old(ShowsDirect(u)) ==> ShowsDirect(U.Next(u, U.Close))
    {
      if closed {
        rc, broadcast := -1, false;
      } else {
        closed := true;
        rc, broadcast := 0, true;
      }
    }

    /** One pass of `buffered_chan_send`: sent, or back to sleep. `signal` is for `r_cond`. */
    method BufferedSend(woken: bool, x: Value, ghost b: B.Chan, ghost i: nat, ghost wake: Option<nat>)
      returns (sent: bool, signal: bool)
      requires Shows(b) && B.Inv(b) && B.Can(b, B.TrySend(i, wake))
      requires b.senders[i] == if woken then B.Woken(x) else B.Ready(x)
      modifies this, queue, if queue == null then {} else {queue.data}
      ensures Shows(B.Next(b, B.TrySend(i, wake)))
      ensures sent <==> B.Next(b, B.TrySend(i, wake)).senders[i].Outside?
      ensures signal <==> sent && b.rWaiting > 0
    {
      if woken {
        wWaiting := wWaiting - 1;
      }
      if queue.size == queue.capacity {
        wWaiting := wWaiting + 1;
        return false, false;
      }
      var success := queue.Add(x);
      assert success == 0;
      sent, signal := true, rWaiting > 0;
    }

    /** One pass of `buffered_chan_recv`: a value, -1 on an empty closed channel, or asleep. */
    method BufferedRecv(woken: bool, ghost b: B.Chan, ghost j: nat, ghost wake: Option<nat>)
      returns (msg: Option<Value>, failed: bool, signal: bool)
      requires Shows(b) && B.Inv(b) && B.Can(b, B.TryRecv(j, wake))
      requires b.receivers[j] == if woken then B.Roused else B.AtTest
      modifies this, queue
      ensures Shows(B.Next(b, B.TryRecv(j, wake)))
      ensures msg.Some? ==> B.Next(b, B.TryRecv(j, wake)).received == b.received + [msg.value]
      ensures failed <==> b.ring == [] && b.closed
      ensures msg.None? && !failed <==> B.Next(b, B.TryRecv(j, wake)).receivers[j] == B.Dozing
      ensures signal <==> msg.Some? && b.wWaiting > 0
    {
      msg, failed, signal := None, false, false;
      if woken {
        rWaiting := rWaiting - 1;
      }
      if queue.size == 0 {
        if closed {
          failed := true;
          return;
        }
        rWaiting := rWaiting + 1;
        return;
      }
      msg := queue.Remove();
      signal := wWaiting > 0;
    }

    /** `unbuffered_chan_send` up to its wait; false when the channel is closed. */
    method UnbufferedSend(x: Value, ghost u: U.Chan) returns (sent: bool, signal: bool)
      requires ShowsDirect(u) && U.Can(u, U.Put) && u.offered == x
      modifies this
      ensures ShowsDirect(U.Next(u, U.Put))
      ensures sent <==> U.Next(u, U.Put).sender == U.Asleep
      ensures signal <==> sent && u.rWaiting > 0
    {
      if closed {
        return false, false;
      }
      data := x;
      wWaiting := wWaiting + 1;
      sent, signal := true, rWaiting > 0;
    }

    /** One pass of `unbuffered_chan_recv`: a value, -1 on a closed channel, or asleep. `signal` is for
        `w_cond`. */
    method UnbufferedRecv(woken: bool, ghost u: U.Chan) returns (msg: Option<Value>, failed: bool, signal: bool)
      requires ShowsDirect(u) && U.Can(u, U.Take) && (woken <==> u.receiver == U.Roused)
      modifies this
      ensures ShowsDirect(U.Next(u, U.Take))
      ensures msg.Some? ==> U.Next(u, U.Take).received == u.received + [msg.value]
      ensures failed <==> u.closed
      ensures msg.None? && !failed <==> U.Next(u, U.Take).receiver == U.Dozing
      ensures signal <==> msg.Some?
    {
      msg, failed, signal := None, false, false;
      if woken {
        rWaiting := rWaiting - 1;
      }
      if !closed && wWaiting == 0 {
        rWaiting := rWaiting + 1;
        return;
      }
      if closed {
        failed := true;
        return;
      }
      msg := Some(data);
      wWaiting := wWaiting - 1;
      signal := true;
    }
  }

  /** `chan_init`: buffered for a positive capacity, null for one that no ring can have. */
  method ChanInit(capacity: nat) returns (chan: Chan?)
    ensures chan == null <==> capacity > MAX_CAPACITY
    ensures chan != null && capacity > 0 ==> fresh(chan) && forall n: nat, m: nat :: chan.Shows(B.Init(capacity, n, m))
    ensures chan != null && capacity > 0 ==>
      chan.queue != null && fresh(chan.queue) && fresh(chan.queue.data)
    ensures chan != null && capacity == 0 ==> fresh(chan) && chan.ShowsDirect(U.INITIAL)
  {
    if capacity > 0 {
      var queue := QueueInit(capacity);
      if queue == null {
        return null;
      }
      chan := new Chan(queue);
    } else {
      chan := new Chan(null);
    }
  }

  /** A value through a new channel: what is sent is received. */
  method SendAndReceive(capacity: nat, x: Value) returns (msg: Option<Value>)
    requires 0 < capacity <= MAX_CAPACITY
    ensures msg == Some(x)
  {
    var chan := ChanInit(capacity);
    ghost var b := B.Init(capacity, 1, 1);
    assert chan.Shows(b);
    B.InitInv(capacity, 1, 1);
    b := StepOf(b, B.StartSend(0, x));
    var sent, signal := chan.BufferedSend(false, x, b, 0, None);
    b := StepOf(b, B.TrySend(0, None));
    b := StepOf(b, B.StartRecv(0));
    var failed;
    msg, failed, signal := chan.BufferedRecv(false, b, 0, None);
  }

  /** Two values through a new channel with room for both: they are received in the order they were sent. */
  method SendTwoReceiveTwo(capacity: nat, x: Value, y: Value) returns (first: Option<Value>, second: Option<Value>)
    requires 1 < capacity <= MAX_CAPACITY
    ensures first == Some(x) && second == Some(y)
  {
    var chan := ChanInit(capacity);
    ghost var b := B.Init(capacity, 1, 1);
    assert chan.Shows(b);
    B.InitInv(capacity, 1, 1);
    b := SendOne(chan, x, b);
    b := SendOne(chan, y, b);
    var failed, signal;
    b := StepOf(b, B.StartRecv(0));
    first, failed, signal := chan.BufferedRecv(false, b, 0, None);
    b := StepOf(b, B.TryRecv(0, None));
    b := StepOf(b, B.StartRecv(0));
    second, failed, signal := chan.BufferedRecv(false, b, 0, None);
  }

  /** A send by the only sender, with nobody waiting and room in the ring. */
  method SendOne(chan: Chan, x: Value, ghost b: B.Chan) returns (ghost c: B.Chan)
    requires chan.Shows(b) && B.Inv(b) && !b.closed && !B.Full(b) && b.rWaiting == 0
    requires |b.senders| == 1 && b.senders[0].Outside?
    modifies chan, chan.queue, if chan.queue == null then {} else {chan.queue.data}
    ensures chan.Shows(c) && B.Inv(c)
    ensures c == b.(ring := b.ring + [x], added := b.added + [x])
  {
    c := StepOf(b, B.StartSend(0, x));
    var sent, signal := chan.BufferedSend(false, x, c, 0, None);
    c := StepOf(c, B.TrySend(0, None));
  }

  lemma StepOf(b: B.Chan, a: B.Action) returns (c: B.Chan)
    requires B.Inv(b) && B.Can(b, a)
    ensures c == B.Next(b, a) && B.Inv(c)
  {
    B.StepKeepsInv(b, a);
    c := B.Next(b, a);
  }
}
