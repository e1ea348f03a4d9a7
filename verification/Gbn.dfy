/** Go-back-N transfer between two established endpoints (src/kernel.c, src/tju_tcp.c, src/timer.c,
    src/api.c): one direction of data, with a network that loses, duplicates and reorders.

    A network is the set of packets that may still arrive: delivering leaves a packet there, losing
    takes it away. A send of the stream thread is one step. */
module Gbn {
  import opened Common

  const MAX_LEN: nat := 1400
  const MAX_DLEN: nat := 1375
  const SEND_BUFFER: nat := 128 * MAX_DLEN
  const WINDOW_SIZE: nat := 128 * MAX_DLEN % 0x1_0000   // kept in a uint16_t
  const RETRANSMIT_LIMIT: nat := 10

  datatype Packet =
    | Data(at: nat, data: seq<Byte>)
    | Ack(at: nat)

  /** The sending half of a socket. `buf` is `sending_buf`, `win` is `send_windows`. `started` is the
      timer's flag and `armed` says that a timer thread is waiting to call back. `locked` is the send
      lock left locked by a failed `tcp_send`. */
  datatype Sender = Sender(buf: seq<Byte>, win: seq<Byte>, base: nat, next: nat,
                           started: bool, armed: bool, handshake: bool, timeouts: nat,
                           locked: bool, closing: bool, exited: bool)

  /** The receiving half; `buf` is `received_buf`. */
  datatype Receiver = Receiver(wanted: nat, buf: seq<Byte>)

  // ---------- One endpoint ----------

  /** `tcp_send`. A full buffer is an error that leaves the lock locked. */
  function TcpSend(s: Sender, data: seq<Byte>): Sender {
    if s.locked then s
    else if |s.buf| + |data| <= SEND_BUFFER then s.(buf := s.buf + data)
    else s.(locked := true)
  }

  /** `tcp_recv` when there is something: what is returned, and what stays. */
  function TcpRecv(r: Receiver, len: nat): (Receiver, seq<Byte>) {
    var n := if |r.buf| >= len then len else |r.buf|;
    (r.(buf := r.buf[n..]), r.buf[..n])
  }

  /** The length that a uint16_t holds. */
  function PacketLen(len: nat): nat { (HEADER_LEN + len) % 0x1_0000 }

  /** What `sendToLayer3` puts on the network for `data` at sequence number `at`: nothing if the packet is too
      long, and no more bytes than `plen` says. */
  function Transmit(at: nat, data: seq<Byte>): Option<Packet>
    requires PacketLen(|data|) >= HEADER_LEN
  {
    var plen := PacketLen(|data|);
    if plen > MAX_LEN then None else Some(Data(at, data[..plen - HEADER_LEN]))
  }

  function StartTimer(s: Sender): Sender { s.(started := true, armed := true) }

  function StopTimer(s: Sender): Sender {
    if s.started then s.(started := false, armed := false) else s
  }

  /** The stream thread can take a round: something is buffered, and it fits the window buffer.
      (The header arithmetic must not wrap below the header's length.) */
  predicate CanSend(s: Sender) {
    && |s.buf| > 0 && !s.locked && !s.exited
    && s.next + |s.buf| <= |s.win| && PacketLen(|s.buf|) >= HEADER_LEN
  }

  predicate InWindow(s: Sender) { s.next < s.base + WINDOW_SIZE }

  /** One round of `tcp_send_stream`. */
  function SendRound(s: Sender): (Sender, Option<Packet>)
    requires CanSend(s)
  {
    var data := s.buf;
    var s0 := s.(buf := []);
    if !InWindow(s) then (s0, None) else
    var s1 := s0.(win := s.win[..s.next] + data + s.win[s.next + |data|..]);
    var s2 := if s.next == s.base then StartTimer(s1) else s1;
    (s2.(next := s.next + |data|), Transmit(s.next, data))
  }

  /** `tju_handle_packet` on an acknowledgement. */
  function HandleAck(s: Sender, at: nat): Sender {
    var s1 := s.(base := at);
    if s1.base == s1.next then StopTimer(s1) else StartTimer(s1)
  }

  /** `tju_handle_packet` on data. */
  function HandleData(r: Receiver, p: Packet): (Receiver, Option<Packet>)
    requires p.Data?
  {
    if p.at > r.wanted then (r, None)
    else if p.at == r.wanted then
      var e := r.wanted + |p.data|;
      (Receiver(e, r.buf + p.data), Some(Ack(e)))
    else (r, Some(Ack(r.wanted)))
  }

  /** The timer's callback in ESTABLISHED, `tcp_write_timer_handler` with `tcp_retransmit_timer`. */
  function Timeout(s: Sender): (Sender, Option<Packet>)
    requires s.armed && s.next <= |s.win|
  {
    var s0 := s.(armed := false);
    if !s.handshake then (s0.(handshake := true), None)
    else if s.timeouts > RETRANSMIT_LIMIT then (s0.(closing := true), None)
    else
      var s1 := s0.(timeouts := s.timeouts + 1);
      var len := s.next as int - s.base as int;
      if len < 0 || len > MAX_LEN then (s1.(exited := true), None)
      else (StartTimer(s1), Transmit(s.base, s.win[s.base..s.next]))
  }

  // ---------- Both endpoints and the network ----------

  /** `stream` is what passed the window guard so far, and `got` what `tcp_recv` returned so far. */
  datatype State = State(s: Sender, r: Receiver, net: set<Packet>, stream: seq<Byte>, got: seq<Byte>)

  /** The sender's process acts only until it exits or starts closing; the receiver goes on. */
  datatype Action =
    | AppSend(data: seq<Byte>)
    | AppRecv(len: nat)
    | Send
    | Arrive(p: Packet)
    | Lose(p: Packet)
    | Fire
    | AckAgain   // the receiver's own timer calls back for the first time

  predicate Enabled(st: State, a: Action) {
    var up := !st.s.exited && !st.s.closing;
    match a
    case AppSend(_) => up
    case AppRecv(_) => |st.r.buf| > 0
    case Send => up && CanSend(st.s)
    case Arrive(p) => p in st.net && (p.Ack? ==> up)
    case Lose(p) => p in st.net
    case Fire => up && st.s.armed && st.s.next <= |st.s.win|
    case AckAgain => true
  }

  function Put(net: set<Packet>, p: Option<Packet>): set<Packet> {
    if p.None? then net else net + {p.value}
  }

  function Step(st: State, a: Action): State
    requires Enabled(st, a)
  {
    match a
    case AppSend(data) => st.(s := TcpSend(st.s, data))
    case AppRecv(len) =>
      var (r, bytes) := TcpRecv(st.r, len);
      st.(r := r, got := st.got + bytes)
    case Send =>
      var (s, p) := SendRound(st.s);
      st.(s := s, net := Put(st.net, p), stream := if InWindow(st.s) then st.stream + st.s.buf else st.stream)
    case Arrive(p) =>
      if p.Ack? then st.(s := HandleAck(st.s, p.at)) else
      var (r, q) := HandleData(st.r, p);
      st.(r := r, net := Put(st.net, q))
    case Lose(p) => st.(net := st.net - {p})
    case Fire =>
      var (s, p) := Timeout(st.s);
      st.(s := s, net := Put(st.net, p))
    case AckAgain => st.(net := st.net + {Ack(st.r.wanted)})
  }

  /** Just after the handshake, with a window buffer of some capacity. Copies of the handshake's own
      packets may still be in flight: without data, or acknowledgements of any number. */
  ghost predicate Init(st: State) {
    && st.s.base == st.s.next == st.r.wanted == 0 && st.s.buf == [] && st.r.buf == []
    && !st.s.armed && !st.s.started && st.s.timeouts == 0 && !st.s.closing && !st.s.exited && !st.s.locked
    && (forall p :: p in st.net && p.Data? ==> p.data == []) && st.stream == [] && st.got == []
  }

  /** A packet of the handshake, or one that carries the stream's bytes or the receiver's knowledge. */
  ghost predicate PacketOk(st: State, p: Packet, left: set<Packet>) {
    match p
    case Data(at, data) => data == [] || (at + |data| <= |st.stream| && st.stream[at..at + |data|] == data)
    case Ack(at) => at <= st.r.wanted || p in left
  }

  /** `left` are the packets left over from the handshake. */
  ghost predicate Inv(st: State, left: set<Packet>) {
    && st.s.next == |st.stream| && st.s.next <= |st.s.win| && st.s.win[..st.s.next] == st.stream
    && st.r.wanted <= st.s.next && (st.s.base <= st.r.wanted || Ack(st.s.base) in left)
    && st.got + st.r.buf == st.stream[..st.r.wanted]
    && (forall p :: p in st.net ==> PacketOk(st, p, left))
    && (st.s.armed ==> st.s.started)
  }

  lemma InitInv(st: State)
    requires Init(st)
    ensures Inv(st, st.net)
  {
  }

  lemma StepKeepsInv(st: State, a: Action, left: set<Packet>)
    requires Inv(st, left) && Enabled(st, a)
    ensures Inv(Step(st, a), left)
  {
    match a
    case AppRecv(len) => RecvKeepsInv(st, len, left);
    case Send => SendKeepsInv(st, left);
    case Arrive(p) => ArriveKeepsInv(st, p, left);
    case Fire => FireKeepsInv(st, left);
    case _ => QuietKeepsInv(st, a, left);
  }

  lemma RecvKeepsInv(st: State, len: nat, left: set<Packet>)
    requires Inv(st, left) && Enabled(st, AppRecv(len))
    ensures Inv(Step(st, AppRecv(len)), left)
  {
    var z := Step(st, AppRecv(len));
    var (r, bytes) := TcpRecv(st.r, len);
    assert z.got + z.r.buf == st.got + (bytes + r.buf);
    assert st.r.buf == bytes + r.buf;
    forall p | p in z.net ensures PacketOk(z, p, left) {
      assert PacketOk(st, p, left);
    }
  }

  /** The steps that touch neither the stream nor what was received. */
  lemma QuietKeepsInv(st: State, a: Action, left: set<Packet>)
    requires Inv(st, left) && Enabled(st, a) && (a.AppSend? || a.Lose? || a.AckAgain?)
    ensures Inv(Step(st, a), left)
  {
    var z := Step(st, a);
    forall p | p in z.net ensures PacketOk(z, p, left) {
      if p in st.net { assert PacketOk(st, p, left); }
    }
  }

  lemma SendKeepsInv(st: State, left: set<Packet>)
    requires Inv(st, left) && Enabled(st, Send)
    ensures Inv(Step(st, Send), left)
  {
    var z := Step(st, Send);
    if InWindow(st.s) {
      assert z.s.win[..z.s.next] == z.stream;
      assert z.stream[..st.r.wanted] == st.stream[..st.r.wanted];
      forall p | p in z.net ensures PacketOk(z, p, left) {
        if p in st.net {
          assert PacketOk(st, p, left);
          if p.Data? && p.data != [] { assert z.stream[p.at..p.at + |p.data|] == st.stream[p.at..p.at + |p.data|]; }
        } else {
          assert z.stream[p.at..p.at + |p.data|] == st.s.buf[..|p.data|];
        }
      }
    }
  }

  lemma ArriveKeepsInv(st: State, p: Packet, left: set<Packet>)
    requires Inv(st, left) && Enabled(st, Arrive(p))
    ensures Inv(Step(st, Arrive(p)), left)
  {
    var z := Step(st, Arrive(p));
    assert PacketOk(st, p, left);
    if p.Data? && p.at == st.r.wanted {
      assert z.got + z.r.buf == (st.got + st.r.buf) + p.data;
      assert z.stream[..z.r.wanted] == st.stream[..st.r.wanted] + st.stream[p.at..p.at + |p.data|];
    }
    forall q | q in z.net ensures PacketOk(z, q, left) {
      if q in st.net { assert PacketOk(st, q, left); }
    }
  }

  lemma FireKeepsInv(st: State, left: set<Packet>)
    requires Inv(st, left) && Enabled(st, Fire)
    ensures Inv(Step(st, Fire), left)
  {
    var z := Step(st, Fire);
    forall p | p in z.net ensures PacketOk(z, p, left) {
      if p in st.net {
        assert PacketOk(st, p, left);
      } else {
        assert st.s.win[st.s.base..st.s.next] == st.stream[st.s.base..];
        assert p.data == st.stream[p.at..p.at + |p.data|];
      }
    }
  }

  // ---------- Safety over whole runs ----------

  predicate IsRun(states: seq<State>, acts: seq<Action>) {
    && |states| == |acts| + 1
    && forall i :: 0 <= i < |acts| ==> Follows(states, acts, i)
  }

  predicate Follows(states: seq<State>, acts: seq<Action>, i: nat)
    requires i < |acts| && i + 1 < |states|
  {
    Enabled(states[i], acts[i]) && states[i + 1] == Step(states[i], acts[i])
  }

  lemma {:induction false} RunKeepsInv(states: seq<State>, acts: seq<Action>, n: nat)
    requires IsRun(states, acts) && Init(states[0]) && n <= |acts|
    ensures Inv(states[n], states[0].net)
    decreases n
  {
    if n == 0 {
      InitInv(states[0]);
    } else {
      RunKeepsInv(states, acts, n - 1);
      assert Follows(states, acts, n - 1);
      StepKeepsInv(states[n - 1], acts[n - 1], states[0].net);
    }
  }

  // ---------- What the application gave ----------

  /** What one round of the stream thread took out of the buffer, and whether the window let it pass. */
  datatype Chunk = Chunk(bytes: seq<Byte>, passed: bool)

  /** An account of the calls and acknowledgements alone. `jammed`: a call has found the buffer full. */
  datatype Account = Account(chunks: seq<Chunk>, waiting: seq<Byte>, jammed: bool, acked: nat)

  ghost function Bytes(chunks: seq<Chunk>): seq<Byte> {
    if chunks == [] then [] else Bytes(chunks[..|chunks| - 1]) + chunks[|chunks| - 1].bytes
  }

  ghost function Passed(chunks: seq<Chunk>): seq<Byte> {
    if chunks == [] then [] else
    Passed(chunks[..|chunks| - 1]) + if chunks[|chunks| - 1].passed then chunks[|chunks| - 1].bytes else []
  }

  /** A call of `tcp_send` that returns 0: there is room for its bytes behind those still waiting. */
  predicate Taken(k: Account, a: Action) {
    a.AppSend? && !k.jammed && |k.waiting| + |a.data| <= 128 * 1375
  }

  /** A round of the stream thread passes while fewer than `128 * 1375 % 65536` bytes are beyond the last
      acknowledgement. */
  ghost function NextChunk(k: Account): Chunk { Chunk(k.waiting, |Passed(k.chunks)| < k.acked + 44928) }

  ghost function Told(k: Account, a: Action): Account {
    match a
    case AppSend(data) => if Taken(k, a) then k.(waiting := k.waiting + data) else k.(jammed := true)
    case Send => k.(chunks := k.chunks + [NextChunk(k)], waiting := [])
    case Arrive(p) => if p.Ack? then k.(acked := p.at) else k
    case _ => k
  }

  ghost function AccountOf(acts: seq<Action>, n: nat): Account
    requires n <= |acts|
  {
    if n == 0 then Account([], [], false, 0) else
    Told(AccountOf(acts, n - 1), acts[n - 1])
  }

  /** The bytes given to `tcp_send` in the calls that returned 0, in order. */
  ghost function GivenBytes(acts: seq<Action>, n: nat): seq<Byte>
    requires n <= |acts|
  {
    if n == 0 then [] else
    GivenBytes(acts, n - 1) + if Taken(AccountOf(acts, n - 1), acts[n - 1]) then acts[n - 1].data else []
  }

  lemma OneChunkMore(chunks: seq<Chunk>, c: Chunk)
    ensures Bytes(chunks + [c]) == Bytes(chunks) + c.bytes
    ensures Passed(chunks + [c]) == Passed(chunks) + if c.passed then c.bytes else []
  {
    assert (chunks + [c])[..|chunks|] == chunks;
  }

  /** Every byte given is in one chunk or still waiting. */
  lemma {:induction false} GivenInChunks(acts: seq<Action>, n: nat)
    requires n <= |acts|
    ensures var k := AccountOf(acts, n); GivenBytes(acts, n) == Bytes(k.chunks) + k.waiting
    decreases n
  {
    if n > 0 {
      GivenInChunks(acts, n - 1);
      GivenMore(GivenBytes(acts, n - 1), AccountOf(acts, n - 1), acts[n - 1]);
    }
  }

  lemma GivenMore(given: seq<Byte>, k: Account, a: Action)
    requires given == Bytes(k.chunks) + k.waiting
    ensures var z := Told(k, a); given + (if Taken(k, a) then a.data else []) == Bytes(z.chunks) + z.waiting
  {
    if a.Send? { OneChunkMore(k.chunks, NextChunk(k)); }
  }

  lemma {:induction false} AllPassed(chunks: seq<Chunk>)
    requires forall i :: 0 <= i < |chunks| ==> chunks[i].passed
    ensures Passed(chunks) == Bytes(chunks)
  {
    if chunks != [] { AllPassed(chunks[..|chunks| - 1]); }
  }

  ghost predicate Agrees(st: State, k: Account) {
    && st.stream == Passed(k.chunks) && st.s.next == |st.stream| && st.s.buf == k.waiting
    && st.s.locked == k.jammed && st.s.base == k.acked
  }

  lemma {:induction false} RunAgrees(states: seq<State>, acts: seq<Action>, n: nat)
    requires IsRun(states, acts) && Init(states[0]) && n <= |acts|
    ensures Agrees(states[n], AccountOf(acts, n))
    decreases n
  {
    if n > 0 {
      RunAgrees(states, acts, n - 1);
      assert Follows(states, acts, n - 1);
      AccountStep(states[n - 1], acts[n - 1], AccountOf(acts, n - 1));
    }
  }

  lemma AccountStep(st: State, a: Action, k: Account)
    requires Agrees(st, k) && Enabled(st, a)
    ensures Agrees(Step(st, a), Told(k, a))
  {
    if a.Send? { AccountSend(st, k); }
  }

  lemma AccountSend(st: State, k: Account)
    requires Agrees(st, k) && Enabled(st, Send)
    ensures Agrees(Step(st, Send), Told(k, Send))
  {
    OneChunkMore(k.chunks, NextChunk(k));
  }

  /** No acknowledgement of the handshake in flight counts further than the data does. */
  ghost predicate NoStrayAck(st: State) { forall at: nat :: Ack(at) in st.net ==> at == 0 }

  /** In every run, at every moment: what the application got and what waits for it is exactly a
      prefix of what `tcp_send` was given, without the chunks that met a full window; and
      `expect_seq <= nextseq`; also `base <= nextseq`, unless an acknowledgement of the handshake was
      left over. */
  lemma StreamDelivered(states: seq<State>, acts: seq<Action>, n: nat)
    requires IsRun(states, acts) && Init(states[0]) && n <= |acts|
    ensures var st := states[n];
      && st.r.wanted <= st.s.next == |st.stream|
      && st.got + st.r.buf == st.stream[..st.r.wanted]
      && st.got <= st.stream
      && (NoStrayAck(states[0]) ==> st.s.base <= st.s.next)
    ensures var st, k := states[n], AccountOf(acts, n);
      && st.stream == Passed(k.chunks) && st.s.buf == k.waiting
      && GivenBytes(acts, n) == Bytes(k.chunks) + k.waiting
      && ((forall i :: 0 <= i < |k.chunks| ==> k.chunks[i].passed) ==>
            st.stream + st.s.buf == GivenBytes(acts, n) && st.got <= GivenBytes(acts, n))
  {
    RunKeepsInv(states, acts, n);
    var st, k := states[n], AccountOf(acts, n);
    RunAgrees(states, acts, n);
    GivenInChunks(acts, n);
    if forall i :: 0 <= i < |k.chunks| ==> k.chunks[i].passed { AllPassed(k.chunks); }
    assert st.got == (st.got + st.r.buf)[..|st.got|];
  }

  /** A call of `tcp_recv` gets the next bytes of the stream, as many as it asked for or as have arrived. */
  lemma ReceivesNext(states: seq<State>, acts: seq<Action>, n: nat)
    requires IsRun(states, acts) && Init(states[0]) && n < |acts| && acts[n].AppRecv?
    ensures var st, len := states[n], acts[n].len;
      && |st.got| <= st.r.wanted <= |st.stream|
      && states[n + 1].got == st.stream[..if |st.got| + len <= st.r.wanted then |st.got| + len else st.r.wanted]
  {
    RunKeepsInv(states, acts, n);
    assert Follows(states, acts, n);
    var st := states[n];
    var (_, bytes) := TcpRecv(st.r, acts[n].len);
    assert st.got + bytes == (st.got + st.r.buf)[..|st.got| + |bytes|];
  }

  // ---------- The exits of the retransmission ----------

  /** Some run from here exits because `nextseq - base` is negative. */
  ghost predicate ExitsNegative(st: State) {
    exists states: seq<State>, acts: seq<Action>, n: nat :: ExitsAt(states, acts, n) && states[0] == st
  }

  ghost predicate ExitsAt(states: seq<State>, acts: seq<Action>, n: nat) {
    && IsRun(states, acts) && n < |acts| && acts[n] == Fire
    && !states[n].s.exited && states[n + 1].s.exited && states[n].s.next < states[n].s.base
  }

  /** The negative-length exit can be reached if and only if an acknowledgement of the handshake, with
      a number above zero, is in flight at the start. */
  lemma NegativeExitExactly(st: State)
    requires Init(st)
    ensures ExitsNegative(st) <==> !NoStrayAck(st)
  {
    if NoStrayAck(st) {
      forall states: seq<State>, acts: seq<Action>, n: nat | ExitsAt(states, acts, n) && states[0] == st
        ensures false
      {
        RunKeepsInv(states, acts, n);
      }
    } else {
      var at: nat :| Ack(at) in st.net && at != 0;
      StrayAckExits(st, at);
    }
  }

  lemma StrayAckExits(st: State, at: nat)
    requires Init(st) && Ack(at) in st.net && at > 0
    ensures ExitsNegative(st)
  {
    var s1 := Step(st, Arrive(Ack(at)));
    var s2 := Step(s1, Fire);
    if st.s.handshake {
      var states, acts := [st, s1, s2], [Arrive(Ack(at)), Fire];
      assert Follows(states, acts, 0) && Follows(states, acts, 1);
      assert ExitsAt(states, acts, 1);
    } else {
      var s3 := Step(s2, Arrive(Ack(at)));
      var states := [st, s1, s2, s3, Step(s3, Fire)];
      var acts := [Arrive(Ack(at)), Fire, Arrive(Ack(at)), Fire];
      assert Follows(states, acts, 0) && Follows(states, acts, 1);
      assert Follows(states, acts, 2) && Follows(states, acts, 3);
      assert ExitsAt(states, acts, 3);
    }
  }

  /** Without such an acknowledgement, the process exits only when more than MAX_LEN bytes are
      outstanding. */
  lemma ExitOnlyWhenTooLong(states: seq<State>, acts: seq<Action>, n: nat)
    requires IsRun(states, acts) && Init(states[0]) && n < |acts|
    requires !states[n].s.exited && states[n + 1].s.exited
    ensures acts[n] == Fire
    ensures states[n].s.next - states[n].s.base > MAX_LEN || states[n].s.next < states[n].s.base
    ensures NoStrayAck(states[0]) ==> states[n].s.next - states[n].s.base > MAX_LEN
  {
    RunKeepsInv(states, acts, n);
    assert Follows(states, acts, n);
  }

  // ---------- Without loss ----------

  /** Everything arrived and was acknowledged, and the timer is off. */
  predicate Done(st: State) {
    st.s.base == st.r.wanted == st.s.next && !st.s.started && !st.s.armed
  }

  /** Where nothing is outstanding, one packet's worth of bytes goes through by its own packet and the
      acknowledgement of that. */
  lemma GoesThrough(st: State, data: seq<Byte>) returns (states: seq<State>, acts: seq<Action>)
    requires Done(st) && !st.s.closing && !st.s.exited && !st.s.locked && st.s.buf == []
    requires 0 < |data| <= 1400 - 22 && st.s.next + |data| <= |st.s.win|
    ensures acts == [AppSend(data), Send, Arrive(Data(st.s.next, data)), Arrive(Ack(st.s.next + |data|))]
    ensures IsRun(states, acts) && states[0] == st
    ensures var z := states[4];
      && Done(z) && z.s.next == st.s.next + |data| && z.s.buf == []
      && z.stream == st.stream + data && z.got == st.got && z.r.buf == st.r.buf + data
  {
    acts := [AppSend(data), Send, Arrive(Data(st.s.next, data)), Arrive(Ack(st.s.next + |data|))];
    var s1 := Step(st, acts[0]);
    assert s1 == st.(s := st.s.(buf := data)) by { assert [] + data == data; }
    var s2 := SendsAll(s1);
    var s3 := Step(s2, acts[2]);
    assert s3.r == Receiver(st.s.next + |data|, st.r.buf + data);
    var s4 := Step(s3, acts[3]);
    states := [st, s1, s2, s3, s4];
    FourSteps(states, acts);
  }

  lemma SendsAll(st: State) returns (z: State)
    requires Enabled(st, Send) && st.s.base == st.s.next && 0 < |st.s.buf| <= 1400 - 22
    ensures z == Step(st, Send) && z.net == st.net + {Data(st.s.next, st.s.buf)} && z.r == st.r
    ensures z.stream == st.stream + st.s.buf && z.got == st.got && z.s.buf == [] && z.s.next == st.s.next + |st.s.buf|
    ensures !z.s.closing && !z.s.exited && z.s.started && z.s.armed
    ensures z.s.base == st.s.base && z.s.handshake == st.s.handshake && |z.s.win| == |st.s.win|
  {
    z := Step(st, Send);
    assert st.s.buf[..|st.s.buf|] == st.s.buf;
  }

  lemma FourSteps(states: seq<State>, acts: seq<Action>)
    requires |states| == 5 && |acts| == 4
    requires Enabled(states[0], acts[0]) && states[1] == Step(states[0], acts[0])
    requires Enabled(states[1], acts[1]) && states[2] == Step(states[1], acts[1])
    requires Enabled(states[2], acts[2]) && states[3] == Step(states[2], acts[2])
    requires Enabled(states[3], acts[3]) && states[4] == Step(states[3], acts[3])
    ensures IsRun(states, acts)
  {
    assert Follows(states, acts, 0) && Follows(states, acts, 1);
    assert Follows(states, acts, 2) && Follows(states, acts, 3);
  }

  // ---------- Recovery ----------

  /** One timeout round without loss on an empty network: the timer fires if it can, what it sends
      arrives, and so does the answer. */
  function Round(st: State): State {
    if !Enabled(st, Fire) then st else
    var st1 := Step(st, Fire);
    var p := Timeout(st.s).1;
    if p.None? || !Enabled(st1, Arrive(p.value)) || p.value.Ack? then st1 else
    var st2 := Step(st1, Arrive(p.value));
    var q := HandleData(st1.r, p.value).1;
    var st3 := st2.(net := st2.net - {p.value});
    if q.None? || !Enabled(st3, Arrive(q.value)) then st3 else
    var st4 := Step(st3, Arrive(q.value));
    st4.(net := st4.net - {q.value})
  }

  function Rounds(st: State, k: nat): State
    decreases k
  {
    if k == 0 then st else Rounds(Round(st), k - 1)
  }

  /** Some number of rounds finishes the transfer. */
  ghost predicate Finishes(st: State) { exists k: nat :: Done(Rounds(st, k)) }

  lemma FinishesIn(st: State, k: nat)
    requires Done(Rounds(st, k))
    ensures Finishes(st)
  {
  }

  /** What can be read off before: the timer runs, the handshake flag is set, `base` is not beyond
      what arrived, what is outstanding fits one packet, and enough retries are left. */
  predicate Recoverable(st: State) {
    && !st.s.exited && !st.s.closing && st.s.armed && st.s.handshake && st.s.base <= st.r.wanted
    && st.s.next as int - st.s.base + HEADER_LEN <= MAX_LEN
    && st.s.timeouts <= (if st.s.base < st.r.wanted < st.s.next then RETRANSMIT_LIMIT - 1 else RETRANSMIT_LIMIT)
  }

  /** What one round does from a recoverable state. */
  lemma RoundAdvances(st: State, left: set<Packet>)
    requires Inv(st, left) && st.net == {} && Recoverable(st)
    ensures var z := Round(st);
      && Inv(z, left) && z.net == {} && z.s.next == st.s.next && z.stream == st.stream
      && if st.s.base < st.r.wanted < st.s.next then
           z.s.base == z.r.wanted == st.r.wanted && Recoverable(z)
         else Done(z)
  {
    var st1, p := FiresOne(st, left);
    StepKeepsInv(st1, Arrive(p), left);
    var st2 := Step(st1, Arrive(p));
    var q := HandleData(st1.r, p).1.value;
    var st3 := st2.(net := st2.net - {p});
    assert st3.net == {q};
    StepKeepsInv(st3, Arrive(q), left);
    assert Step(st3, Arrive(q)).net - {q} == {};
  }

  /** The timer fires and what is outstanding is in flight. */
  lemma FiresOne(st: State, left: set<Packet>) returns (z: State, p: Packet)
    requires Inv(st, left) && st.net == {} && Recoverable(st)
    ensures Enabled(st, Fire) && z == Step(st, Fire) && Inv(z, left) && Timeout(st.s).1 == Some(p) && z.net == {p}
    ensures p.Data? && p.at == st.s.base && |p.data| == st.s.next - st.s.base
    ensures z.r == st.r && z.stream == st.stream
    ensures z.s == StartTimer(st.s.(timeouts := st.s.timeouts + 1))
  {
    z := Step(st, Fire);
    StepKeepsInv(st, Fire, left);
    p := Timeout(st.s).1.value;
    assert p.data == st.s.win[st.s.base..st.s.next];
  }

  /** The other direction, one round at a time: what cannot recover stays so. */
  lemma StuckStaysStuck(st: State, left: set<Packet>)
    requires Inv(st, left) && st.net == {} && !Done(st) && !Recoverable(st)
    ensures var z := Round(st);
      Inv(z, left) && z.net == {} && !Done(z) && !Recoverable(z)
  {
    if Enabled(st, Fire) {
      var st1 := Step(st, Fire);
      StepKeepsInv(st, Fire, left);
      var t := Timeout(st.s).1;
      if t.Some? {
        StuckRound(st, t.value, left);
      }
    }
  }

  /** A round that does transmit, beyond what arrived or beyond the retries. */
  lemma StuckRound(st: State, p: Packet, left: set<Packet>)
    requires Inv(st, left) && st.net == {} && !Done(st) && !Recoverable(st)
    requires Enabled(st, Fire) && Timeout(st.s).1 == Some(p)
    ensures var z := Round(st);
      Inv(z, left) && z.net == {} && !Done(z) && !Recoverable(z)
  {
    var st1 := Step(st, Fire);
    StepKeepsInv(st, Fire, left);
    assert p.data == st.s.win[st.s.base..st.s.next];
    StepKeepsInv(st1, Arrive(p), left);
    var st2 := Step(st1, Arrive(p));
    var st3 := st2.(net := st2.net - {p});
    var t := HandleData(st1.r, p).1;
    if t.Some? {
      var q := t.value;
      assert st3.net == {q};
      StepKeepsInv(st3, Arrive(q), left);
      assert Step(st3, Arrive(q)).net - {q} == {};
    } else {
      assert st3.net == {};
    }
  }

  lemma {:induction false} StuckForever(st: State, k: nat, left: set<Packet>)
    requires Inv(st, left) && st.net == {} && !Done(st) && !Recoverable(st)
    ensures !Done(Rounds(st, k))
    decreases k
  {
    if k > 0 {
      StuckStaysStuck(st, left);
      StuckForever(Round(st), k - 1, left);
    }
  }

  lemma NeverFinishes(st: State, left: set<Packet>)
    requires Inv(st, left) && st.net == {} && !Done(st) && !Recoverable(st)
    ensures !Finishes(st)
  {
    forall k: nat ensures !Done(Rounds(st, k)) { StuckForever(st, k, left); }
  }

  /** From any reachable state with an empty network that is not finished, and with no new sends:
      loss-free timeout rounds finish the transfer if and only if the state is recoverable, and then
      two rounds are enough. */
  lemma RecoversExactly(st: State, left: set<Packet>)
    requires Inv(st, left) && st.net == {} && !Done(st)
    ensures Finishes(st) <==> Recoverable(st)
    ensures Recoverable(st) ==> Done(Rounds(st, 2))
  {
    if Recoverable(st) {
      TwoRounds(st, left);
      FinishesIn(st, 2);
    } else {
      NeverFinishes(st, left);
    }
  }

  lemma TwoRounds(st: State, left: set<Packet>)
    requires Inv(st, left) && st.net == {} && Recoverable(st)
    ensures Done(Rounds(st, 2))
  {
    RoundAdvances(st, left);
    var z := Round(st);
    if Done(z) {
      DoneRests(z);
    } else {
      RoundAdvances(z, left);
    }
    assert Rounds(z, 1) == Rounds(Round(z), 0) == Round(z);
    assert Rounds(st, 2) == Rounds(z, 1);
  }

  lemma DoneRests(st: State)
    requires Done(st)
    ensures Round(st) == st
  {
  }

  /** The timer fires, and what it sends is lost. */
  function FireLost(st: State): State {
    if Enabled(st, Fire) then Step(st, Fire).(net := {}) else st
  }

  function FiresLost(st: State, k: nat): State
    decreases k
  {
    if k == 0 then st else FiresLost(FireLost(st), k - 1)
  }

  /** When nothing gets through any more, the sender tries eleven times, and with the twelfth callback in
      a row it closes. */
  lemma {:induction false} GivesUp(st: State, left: set<Packet>, k: nat)
    requires Inv(st, left) && st.net == {} && st.s.armed && st.s.handshake && !st.s.exited && !st.s.closing
    requires 0 <= st.s.next - st.s.base <= 1400 && st.s.timeouts <= 11 && st.s.timeouts + k <= 12
    ensures var z := FiresLost(st, k).s;
      if st.s.timeouts + k <= 11 then z == st.s.(timeouts := st.s.timeouts + k, started := z.started)
      else z.closing && !z.exited && z.timeouts == 11
    decreases k
  {
    if k > 0 {
      var z := FireLost(st);
      StepKeepsInv(st, Fire, left);
      LessInFlight(Step(st, Fire), left);
      if st.s.timeouts <= 10 {
        GivesUp(z, left, k - 1);
      } else {
        assert FiresLost(z, 0) == z;
      }
    }
  }

  lemma LessInFlight(st: State, left: set<Packet>)
    requires Inv(st, left)
    ensures Inv(st.(net := {}), left)
  {
  }

  /** With the handshake flag set, a timer runs whenever something is outstanding, until the socket
      closes or the process exits. */
  ghost predicate TimerKept(st: State) {
    st.s.handshake && (st.s.base != st.s.next ==> st.s.armed || st.s.closing || st.s.exited)
  }

  lemma {:induction false} TimerStaysKept(states: seq<State>, acts: seq<Action>, n: nat)
    requires IsRun(states, acts) && Init(states[0]) && states[0].s.handshake && n <= |acts|
    ensures TimerKept(states[n])
    decreases n
  {
    if n > 0 {
      TimerStaysKept(states, acts, n - 1);
      assert Follows(states, acts, n - 1);
    }
  }

  /** In every run that starts with the flag set and without a stray acknowledgement, from every moment
      with an empty network and data outstanding: rounds finish the transfer if and only if what is
      outstanding fits one packet and retries are left. The timer need not be asked for. */
  lemma RunRecoversExactly(states: seq<State>, acts: seq<Action>, n: nat)
    requires IsRun(states, acts) && Init(states[0]) && states[0].s.handshake && NoStrayAck(states[0]) && n <= |acts|
    requires states[n].net == {} && states[n].s.base < states[n].s.next
    requires !states[n].s.closing && !states[n].s.exited
    ensures var st := states[n];
      Finishes(st) <==> (
        && st.s.next - st.s.base + HEADER_LEN <= MAX_LEN
        && st.s.timeouts <= if st.s.base < st.r.wanted < st.s.next then RETRANSMIT_LIMIT - 1 else RETRANSMIT_LIMIT)
  {
    RunKeepsInv(states, acts, n);
    TimerStaysKept(states, acts, n);
    RecoversExactly(states[n], states[0].net);
  }

  // ---------- The first callback ----------

  /** The timer is off with the head of the stream missing, and nothing on its way could help. */
  ghost predicate Silent(st: State) {
    && !st.s.armed && st.r.wanted < st.s.next && st.s.base < st.s.next
    && (forall p :: p in st.net ==> p.Data? && p.at > st.r.wanted)
  }

  lemma SilentStep(st: State, a: Action)
    requires Silent(st) && Enabled(st, a) && a != AckAgain
    ensures Silent(Step(st, a)) && Step(st, a).r.wanted == st.r.wanted
    ensures Step(st, a).got + Step(st, a).r.buf == st.got + st.r.buf
  {
    if a.AppRecv? {
      var (r, bytes) := TcpRecv(st.r, a.len);
      assert st.r.buf == bytes + r.buf;
    }
  }

  /** Whatever is sent, lost, duplicated or delivered afterwards, short of the receiver's own timer:
      nothing more is ever received. */
  lemma {:induction false} SilentForever(states: seq<State>, acts: seq<Action>, n: nat)
    requires IsRun(states, acts) && Silent(states[0]) && n <= |acts| && AckAgain !in acts
    ensures Silent(states[n]) && states[n].r.wanted == states[0].r.wanted
    ensures states[n].got + states[n].r.buf == states[0].got + states[0].r.buf
    decreases n
  {
    if n > 0 {
      SilentForever(states, acts, n - 1);
      assert Follows(states, acts, n - 1) && acts[n - 1] in acts;
      SilentStep(states[n - 1], acts[n - 1]);
    }
  }

  /** Some run from here, without the receiver's own timer, delivers more. */
  ghost predicate DeliversMore(st: State) {
    exists states: seq<State>, acts: seq<Action> ::
      IsRun(states, acts) && AckAgain !in acts && states[0] == st && states[|acts|].r.wanted > st.r.wanted
  }

  /** The stream thread can take one more byte. */
  predicate HasRoom(s: Sender) {
    !s.locked && !s.closing && !s.exited && s.buf == [] && s.next < |s.win| && InWindow(s)
  }

  /** The first callback after connecting only sets the handshake flag; the timer is not armed again.
      When the packets outstanding then are gone: timeouts alone never finish the transfer, and even
      with new sends, as long as the receiver's own timer stays quiet, anything more is ever delivered
      if and only if the receiver was missing nothing. */
  lemma FirstTimeoutIsLost(st: State, left: set<Packet>)
    requires Inv(st, left) && Enabled(st, Fire) && !st.s.handshake && st.net == {} && st.s.base < st.s.next
    ensures var z := Step(st, Fire);
      && z.s.handshake && !z.s.armed && !Finishes(z)
      && (st.r.wanted < st.s.next ==> !DeliversMore(z))
      && (st.r.wanted == st.s.next && HasRoom(st.s) ==> DeliversMore(z))
  {
    var z := Step(st, Fire);
    StepKeepsInv(st, Fire, left);
    NeverFinishes(z, left);
    if st.r.wanted < st.s.next {
      forall states: seq<State>, acts: seq<Action> | IsRun(states, acts) && AckAgain !in acts && states[0] == z
        ensures states[|acts|].r.wanted == z.r.wanted
      {
        SilentForever(states, acts, |acts|);
      }
    } else if HasRoom(st.s) {
      OneMore(z);
    }
  }

  /** The receiver's own timer acknowledges once more, that arrives, and no copy is left. */
  function AckedAgain(z: State): State
    requires !z.s.exited && !z.s.closing
  {
    var ack := Ack(z.r.wanted);
    var z1 := Step(z, AckAgain);
    assert ack in z1.net;
    var z2 := Step(z1, Arrive(ack));
    z2.(net := z2.net - {ack})
  }

  /** What the receiver's own timer repairs after the first callback: rounds finish the transfer then
      if and only if nothing was missing, or what was missing fits one packet and retries are left. */
  lemma AckAgainRepairs(st: State, left: set<Packet>)
    requires Inv(st, left) && Enabled(st, Fire) && !st.s.handshake && st.net == {} && st.s.base < st.s.next
    ensures var y := AckedAgain(Step(st, Fire));
      Finishes(y) <==> (
        || st.r.wanted == st.s.next
        || (st.s.next - st.r.wanted + HEADER_LEN <= MAX_LEN && st.s.timeouts <= RETRANSMIT_LIMIT))
  {
    var z := Step(st, Fire);
    StepKeepsInv(st, Fire, left);
    var y := AckedAgain(z);
    AckedAgainIs(z, left);
    if st.r.wanted == st.s.next {
      FinishesIn(y, 0);
    } else {
      RecoversExactly(y, left);
    }
  }

  lemma AckedAgainIs(z: State, left: set<Packet>)
    requires Inv(z, left) && z.net == {} && !z.s.exited && !z.s.closing && !z.s.armed
    ensures var y := AckedAgain(z);
      && Inv(y, left) && y.net == {} && y.r == z.r
      && if z.r.wanted == z.s.next then Done(y)
         else y.s == z.s.(base := z.r.wanted, started := true, armed := true)
  {
    var ack := Ack(z.r.wanted);
    StepKeepsInv(z, AckAgain, left);
    var z1 := Step(z, AckAgain);
    assert z1.net == {ack};
    StepKeepsInv(z1, Arrive(ack), left);
  }

  lemma SendsOne(st: State)
    requires Enabled(st, Send) && |st.s.buf| == 1 && InWindow(st.s)
    ensures Step(st, Send).net == st.net + {Data(st.s.next, st.s.buf)} && Step(st, Send).r == st.r
  {
    assert st.s.buf[..1] == st.s.buf;
  }

  lemma OneMore(z: State)
    requires HasRoom(z.s) && z.r.wanted == z.s.next
    ensures DeliversMore(z)
  {
    var byte: seq<Byte> := [0];
    var z1 := Buffers(z, byte);
    SendsOne(z1);
    DeliversNow(Step(z1, Send), Data(z.s.next, byte));
    DeliversBefore(z1, Send);
    DeliversBefore(z, AppSend(byte));
  }

  lemma Buffers(z: State, byte: seq<Byte>) returns (y: State)
    requires HasRoom(z.s) && |byte| == 1
    ensures Enabled(z, AppSend(byte)) && y == Step(z, AppSend(byte)) && y == z.(s := z.s.(buf := byte))
    ensures Enabled(y, Send)
  {
    y := Step(z, AppSend(byte));
    assert y.s == z.s.(buf := byte);
  }

  lemma DeliversNow(z: State, p: Packet)
    requires p in z.net && p.Data? && p.at == z.r.wanted && |p.data| > 0
    ensures DeliversMore(z)
  {
    var y := Step(z, Arrive(p));
    var states, acts := [z, y], [Arrive(p)];
    assert Follows(states, acts, 0);
    assert IsRun(states, acts) && AckAgain !in acts && states[0] == z && states[|acts|].r.wanted > z.r.wanted;
  }

  lemma DeliversBefore(z: State, a: Action)
    requires Enabled(z, a) && a != AckAgain && Step(z, a).r.wanted == z.r.wanted && DeliversMore(Step(z, a))
    ensures DeliversMore(z)
  {
    var y := Step(z, a);
    var states: seq<State>, acts: seq<Action> :|
      IsRun(states, acts) && AckAgain !in acts && states[0] == y && states[|acts|].r.wanted > y.r.wanted;
    Prepended(z, a, y, states, acts);
  }

  lemma Prepended(z: State, a: Action, y: State, states: seq<State>, acts: seq<Action>)
    requires Enabled(z, a) && y == Step(z, a) && IsRun(states, acts) && states[0] == y
    requires a != AckAgain && AckAgain !in acts && states[|acts|].r.wanted > z.r.wanted
    ensures DeliversMore(z)
  {
    var more, all := [z] + states, [a] + acts;
    forall i | 0 <= i < |all| ensures Follows(more, all, i) {
      assert i > 0 ==> Follows(states, acts, i - 1);
    }
    assert IsRun(more, all) && AckAgain !in all && more[0] == z && more[|all|].r.wanted > z.r.wanted;
  }

  /** That callback does come: one byte sent and lost after a handshake. */
  lemma FirstTimeoutHappens(st: State) returns (states: seq<State>, acts: seq<Action>)
    requires Init(st) && st.net == {} && !st.s.handshake && |st.s.win| > 0
    ensures IsRun(states, acts) && states[0] == st
    ensures var z := states[|acts|];
      && Enabled(z, Fire) && !z.s.handshake && z.net == {} && z.s.base < z.s.next && z.r.wanted < z.s.next
      && !DeliversMore(Step(z, Fire))
  {
    states, acts := OneByteLost(st);
    RunKeepsInv(states, acts, |acts|);
    FirstTimeoutIsLost(states[|acts|], st.net);
  }

  lemma OneByteLost(st: State) returns (states: seq<State>, acts: seq<Action>)
    requires Init(st) && st.net == {} && |st.s.win| > 0
    ensures IsRun(states, acts) && states[0] == st
    ensures var z := states[|acts|];
      && Enabled(z, Fire) && z.s.handshake == st.s.handshake && z.net == {}
      && z.s.base < z.s.next && z.r.wanted < z.s.next
  {
    var byte: seq<Byte> := [0];
    var s1 := Buffers(st, byte);
    var s2 := SendsAll(s1);
    var s3 := LosesOnly(s2, Data(0, byte));
    states, acts := [st], [];
    states, acts := RunOn(states, acts, AppSend(byte));
    states, acts := RunOn(states, acts, Send);
    states, acts := RunOn(states, acts, Lose(Data(0, byte)));
  }

  lemma RunOn(states: seq<State>, acts: seq<Action>, a: Action) returns (more: seq<State>, all: seq<Action>)
    requires IsRun(states, acts) && Enabled(states[|acts|], a)
    ensures IsRun(more, all) && more[0] == states[0] && |all| == |acts| + 1
    ensures more[|all|] == Step(states[|acts|], a)
  {
    more, all := states + [Step(states[|acts|], a)], acts + [a];
    forall i | 0 <= i < |all| ensures Follows(more, all, i) {
      assert i < |acts| ==> Follows(states, acts, i);
    }
  }

  lemma LosesOnly(st: State, p: Packet) returns (z: State)
    requires st.net == {p}
    ensures Enabled(st, Lose(p)) && z == Step(st, Lose(p)) && z == st.(net := {})
  {
    z := Step(st, Lose(p));
    assert z.net == {};
  }
}
