/** The transfer fields of `tju_tcp_t` as an object: the code of `tcp_send`, `tcp_recv`, one round of
    `tcp_send_stream`, `tju_handle_packet` and the timer callback, proved against `Gbn`. */
module GbnSocket {
  import opened Common
  import opened Gbn
  import Congestion

  class Socket {
    const sendingBuf: array<Byte>
    var sendingLen: nat
    const sendWindows: array<Byte>
    var base: nat
    var nextSeq: nat
    var expectSeq: nat
    var receivedBuf: seq<Byte>
    var started: bool
    var armed: bool
    var finishedHandshake: bool
    const congestion: Congestion.Controller
    var sendLocked: bool
    var closing: bool
    var exited: bool

    ghost predicate Fits()
      reads this
    {
      && sendingBuf.Length == SEND_BUFFER && sendingLen <= SEND_BUFFER && sendingBuf != sendWindows
      && nextSeq <= sendWindows.Length
    }

    /** The window fields and the retry count. */
    ghost predicate Steady()
      reads this, congestion
    {
      Congestion.Inv(congestion.Val())
    }

    ghost function Snd(): Sender
      reads this, sendingBuf, sendWindows, congestion
      requires Fits()
    {
      Sender(sendingBuf[..sendingLen], sendWindows[..], base, nextSeq, started, armed, finishedHandshake,
             congestion.timeoutCounts, sendLocked, closing, exited)
    }

    ghost function Rcv(): Receiver
      reads this
    {
      Receiver(expectSeq, receivedBuf)
    }

    /** The transfer state that `tcp_socket` and the end of `tcp_connect` leave. */
    constructor (capacity: nat, handshake: bool)
      ensures Fits() && fresh(sendingBuf) && fresh(sendWindows) && sendWindows.Length == capacity
      ensures Steady() && fresh(congestion) && congestion.Val() == Congestion.INITIAL
      ensures Snd() == Sender([], sendWindows[..], 0, 0, false, false, handshake, 0, false, false, false)
      ensures Rcv() == Receiver(0, [])
    {
      sendingBuf := new Byte[SEND_BUFFER];
      sendWindows := new Byte[capacity];
      sendingLen, base, nextSeq, expectSeq, receivedBuf := 0, 0, 0, 0, [];
      started, armed, finishedHandshake := false, false, handshake;
      congestion := new Congestion.Controller();
      sendLocked, closing, exited := false, false, false;
    }

    /** `tcp_send`: 0, or -1 when the buffer is full (the lock is then never released). */
    method TcpSendCall(data: seq<Byte>) returns (rc: int)
      requires Fits() && !sendLocked
      modifies this`sendingLen, this`sendLocked, sendingBuf
      ensures Fits() && Snd() == TcpSend(old(Snd()), data) && Rcv() == old(Rcv())
      ensures rc == if sendLocked then -1 else 0
    {
      sendLocked := true;
      if sendingLen + |data| <= SEND_BUFFER {
        forall i | 0 <= i < |data| { sendingBuf[sendingLen + i] := data[i]; }
        sendingLen := sendingLen + |data|;
      } else {
        return -1;
      }
      sendLocked := false;
      rc := 0;
    }

    /** `tcp_recv` once something is there. */
    method TcpRecvCall(len: nat) returns (bytes: seq<Byte>)
      requires |receivedBuf| > 0
      modifies this`receivedBuf
      ensures (Rcv(), bytes) == TcpRecv(old(Rcv()), len)
    {
      var readLen := if |receivedBuf| >= len then len else |receivedBuf|;
      bytes := receivedBuf[..readLen];
      if readLen < |receivedBuf| {
        receivedBuf := receivedBuf[readLen..];
      } else {
        assert receivedBuf[readLen..] == [];
        receivedBuf := [];
      }
    }

    method TcpStartTimer()
      modifies this`started, this`armed
      ensures started && armed
    {
      if started {
        TcpStopTimer();
      }
      started, armed := true, true;
    }

    method TcpStopTimer()
      modifies this`started, this`armed
      ensures !started && (old(started) ==> !armed) && (!old(started) ==> armed == old(armed))
    {
      if !started {
        return;
      }
      started, armed := false, false;
    }

    /** One round of `tcp_send_stream` with something to send. */
    method SendStreamRound() returns (sent: Option<Packet>)
      requires Fits() && CanSend(Snd())
      modifies this`sendingLen, this`started, this`armed, this`nextSeq, sendWindows
      ensures Fits() && (Snd(), sent) == SendRound(old(Snd())) && Rcv() == old(Rcv())
    {
      var len := sendingLen;
      var buf := sendingBuf[..len];
      sendingLen := 0;
      var at := nextSeq;
      sent := None;
      if at < base + WINDOW_SIZE {
        forall i | 0 <= i < len { sendWindows[at + i] := buf[i]; }
        sent := Transmit(at, buf);
        if at == base {
          TcpStartTimer();
        }
        nextSeq := nextSeq + len;
        assert sendWindows[..] == old(sendWindows[..at]) + buf + old(sendWindows[at + len..]);
      }
      assert sendingBuf[..0] == [];
    }

    /** `tju_handle_packet` on an acknowledgement; `len` is `plen - hlen`, which is 0 in all that
        `tcp_send_ack` makes. Less exits; more is data taken without looking at its number. */
    method HandleAckPacket(at: nat, len: int, data: seq<Byte>)
      requires Fits() && Steady() && (len > 0 ==> |data| == len)
      modifies this`base, this`started, this`armed, this`exited, this`receivedBuf, congestion
      ensures Fits() && Steady() && congestion.Val() == Congestion.OnAck(old(congestion.Val()))
      ensures var s := HandleAck(old(Snd()), at); Snd() == if len < 0 then s.(exited := true) else s
      ensures Rcv() == if len > 0 then old(Rcv()).(buf := old(receivedBuf) + data) else old(Rcv())
    {
      ghost var s := Snd();
      congestion.HandleSuccessAck();
      assert Snd() == s;
      base := at;
      if base == nextSeq {
        TcpStopTimer();
      } else {
        TcpStartTimer();
      }
      if len < 0 {
        exited := true;
      } else if len > 0 {
        receivedBuf := receivedBuf + data;
      }
    }

    /** `tju_handle_packet` on data. */
    method HandleDataPacket(p: Packet) returns (answer: Option<Packet>)
      requires p.Data?
      modifies this`expectSeq, this`receivedBuf
      ensures (Rcv(), answer) == HandleData(old(Rcv()), p)
    {
      if p.at > expectSeq {
        return None;
      } else if p.at == expectSeq {
        expectSeq := expectSeq + |p.data|;
        answer := Some(Ack(expectSeq));
      } else {
        return Some(Ack(expectSeq));
      }
      receivedBuf := receivedBuf + p.data;
    }

    /** `tcp_write_timer_handler` in ESTABLISHED, when the waiting timer thread calls back. `acks` says
        that it sends an acknowledgement instead. */
    method WriteTimerHandler() returns (sent: Option<Packet>, acks: bool)
      requires Fits() && Steady() && armed
      modifies this`armed, this`started, this`finishedHandshake, this`closing, this`exited, congestion
      ensures Fits() && (Snd(), sent) == Timeout(old(Snd())) && Rcv() == old(Rcv())
      ensures acks <==> !old(finishedHandshake)
      ensures Steady() && congestion.Val() ==
        if old(finishedHandshake) && old(congestion.timeoutCounts) <= RETRANSMIT_LIMIT
        then Congestion.OnLoss(old(congestion.Val())) else old(congestion.Val())
    {
      armed := false;
      sent, acks := None, false;
      if !finishedHandshake {
        finishedHandshake := true;
        acks := true;
        return;
      }
      if congestion.timeoutCounts > RETRANSMIT_LIMIT {
        closing := true;
      } else {
        congestion.HandleLossAck();
        sent := RetransmitTimer();
      }
    }

    /** `tcp_retransmit_timer` */
    method RetransmitTimer() returns (sent: Option<Packet>)
      requires Fits()
      modifies this`armed, this`started, this`exited
      ensures Fits() && Rcv() == old(Rcv())
      ensures var s := old(Snd()); var len := nextSeq as int - base as int;
        if len < 0 || len > MAX_LEN then sent == None && Snd() == s.(exited := true)
        else Snd() == StartTimer(s) && sent == Transmit(s.base, s.win[s.base..s.next])
    {
      var len := nextSeq as int - base as int;
      sent := None;
      if len < 0 {
        exited := true;
        return;
      }
      if len > MAX_LEN {
        exited := true;
        return;
      }
      var buf := sendWindows[base..base + len];
      TcpStartTimer();
      sent := Transmit(base, buf);
    }
  }

  /** Two calls of `tcp_send` and one round of the stream thread. */
  method TwoSends(a: seq<Byte>, b: seq<Byte>) returns (x: Socket, sent: Packet)
    requires 0 < |a + b| <= 1400 - 22
    ensures fresh(x) && fresh(x.congestion) && x.Fits() && x.Steady() && sent == Data(0, a + b)
    ensures x.sendingLen == 0 && x.nextSeq == |a + b| && x.started
  {
    x := new Socket(|a + b|, true);
    var rc := x.TcpSendCall(a);
    rc := x.TcpSendCall(b);
    assert x.Snd().buf == a + b;
    var p := x.SendStreamRound();
    assert p == Some(Data(0, a + b)) by { assert (a + b)[..|a + b|] == a + b; }
    sent := p.value;
  }

  /** A client of two sockets: two calls of `tcp_send`, one round, one `tcp_recv`. The first bytes arrive
      before the second, and afterwards nothing is outstanding. */
  method TwoSendsOneReceive(a: seq<Byte>, b: seq<Byte>) returns (got: seq<Byte>, x: Socket)
    requires 0 < |a + b| <= 1400 - 22
    ensures got == a + b && x.base == x.nextSeq == |a + b| && !x.started && x.sendingLen == 0
  {
    var sent, answer;
    x, sent := TwoSends(a, b);
    var y := new Socket(0, true);
    answer := y.HandleDataPacket(sent);
    x.HandleAckPacket(answer.value.at, 0, []);
    got := y.TcpRecvCall(|a + b|);
  }
}
