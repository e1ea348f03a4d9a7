/** The buffered channel of src/chan.c: any number of senders and receivers around one ring, as a
    machine whose steps are the stretches between taking and giving up `m_mu`. Waking up for no reason
    is allowed everywhere. */
module BufferedChannel {
  import opened Common
  import opened Threads

  type Value = nat

  /** Where a thread is in `chan_send`. */
  datatype Sender =
    | Outside
    | Ready(x: Value)      // saw the channel open, about to test the ring
    | Asleep(x: Value)
    | Woken(x: Value)

  /** Where a thread is in `buffered_chan_recv`. */
  datatype Receiver = Away | AtTest | Dozing | Roused

  /** `added` and `received` are history. */
  datatype Chan = Chan(ring: seq<Value>, capacity: nat, closed: bool, wWaiting: int, rWaiting: int,
                       senders: seq<Sender>, receivers: seq<Receiver>, added: seq<Value>, received: seq<Value>)

  datatype Action =
    | StartSend(i: nat, x: Value)
    | TrySend(i: nat, wake: Option<nat>)
    | StartRecv(j: nat)
    | TryRecv(j: nat, wake: Option<nat>)
    | Close
    | SpuriousSend(i: nat)
    | SpuriousRecv(j: nat)

  predicate MayWakeSender(ss: seq<Sender>, wake: Option<nat>) {
    match wake
    case None => forall i :: 0 <= i < |ss| ==> !ss[i].Asleep?
    case Some(i) => i < |ss| && ss[i].Asleep?
  }

  function WakeSender(ss: seq<Sender>, wake: Option<nat>): seq<Sender>
    requires MayWakeSender(ss, wake)
  {
    if wake.None? then ss else ss[wake.value := Woken(ss[wake.value].x)]
  }

  predicate MayWakeReceiver(rs: seq<Receiver>, wake: Option<nat>) {
    match wake
    case None => forall j :: 0 <= j < |rs| ==> rs[j] != Dozing
    case Some(j) => j < |rs| && rs[j] == Dozing
  }

  function WakeReceiver(rs: seq<Receiver>, wake: Option<nat>): seq<Receiver>
    requires MayWakeReceiver(rs, wake)
  {
    if wake.None? then rs else rs[wake.value := Roused]
  }

  /** `pthread_cond_broadcast` on both conditions. */
  function WakeSenders(ss: seq<Sender>): seq<Sender> {
    seq(|ss|, i requires 0 <= i < |ss| => if ss[i].Asleep? then Woken(ss[i].x) else ss[i])
  }

  function WakeReceivers(rs: seq<Receiver>): seq<Receiver> {
    seq(|rs|, j requires 0 <= j < |rs| => if rs[j] == Dozing then Roused else rs[j])
  }

  predicate Full(c: Chan) { |c.ring| == c.capacity }

  /** The waiting count once thread `i` has run again. */
  function SendersAround(c: Chan, i: nat): int
    requires i < |c.senders|
  {
    if c.senders[i].Woken? then c.wWaiting - 1 else c.wWaiting
  }

  function ReceiversAround(c: Chan, j: nat): int
    requires j < |c.receivers|
  {
    if c.receivers[j] == Roused then c.rWaiting - 1 else c.rWaiting
  }

  predicate Can(c: Chan, a: Action) {
    match a
    case StartSend(i, _) => i < |c.senders| && c.senders[i].Outside?
    case TrySend(i, wake) =>
      i < |c.senders| && (c.senders[i].Ready? || c.senders[i].Woken?)
      && if !Full(c) && c.rWaiting > 0 then MayWakeReceiver(c.receivers, wake) else wake == None
    case StartRecv(j) => j < |c.receivers| && c.receivers[j] == Away
    case TryRecv(j, wake) =>
      j < |c.receivers| && (c.receivers[j] == AtTest || c.receivers[j] == Roused)
      && if c.ring != [] && c.wWaiting > 0 then MayWakeSender(c.senders, wake) else wake == None
    case Close => true
    case SpuriousSend(i) => i < |c.senders| && c.senders[i].Asleep?
    case SpuriousRecv(j) => j < |c.receivers| && c.receivers[j] == Dozing
  }

  function Next(c: Chan, a: Action): Chan
    requires Can(c, a)
  {
    match a
    case StartSend(i, x) => if c.closed then c else c.(senders := c.senders[i := Ready(x)])
    case TrySend(i, wake) =>
      var around := SendersAround(c, i);
      var x := c.senders[i].x;
      if Full(c) then c.(wWaiting := around + 1, senders := c.senders[i := Asleep(x)])
      else c.(ring := c.ring + [x], wWaiting := around, added := c.added + [x],
              senders := c.senders[i := Outside],
              receivers := if c.rWaiting > 0 then WakeReceiver(c.receivers, wake) else c.receivers)
    case StartRecv(j) => c.(receivers := c.receivers[j := AtTest])
    case TryRecv(j, wake) =>
      var around := ReceiversAround(c, j);
      if c.ring == [] then
        if c.closed then c.(rWaiting := around, receivers := c.receivers[j := Away])
        else c.(rWaiting := around + 1, receivers := c.receivers[j := Dozing])
      else c.(ring := c.ring[1..], rWaiting := around, received := c.received + [c.ring[0]],
              receivers := c.receivers[j := Away],
              senders := if c.wWaiting > 0 then WakeSender(c.senders, wake) else c.senders)
    case Close =>
      if c.closed then c
      else c.(closed := true, senders := WakeSenders(c.senders), receivers := WakeReceivers(c.receivers))
    case SpuriousSend(i) => c.(senders := c.senders[i := Woken(c.senders[i].x)])
    case SpuriousRecv(j) => c.(receivers := c.receivers[j := Roused])
  }

  function Init(capacity: nat, senders: nat, receivers: nat): Chan {
    Chan([], capacity, false, 0, 0, seq(senders, _ => Outside), seq(receivers, _ => Away), [], [])
  }

  // ---------- The invariant ----------

  function SendWait(s: Sender): nat { if s.Asleep? || s.Woken? then 1 else 0 }

  function SendWoken(s: Sender): nat { if s.Woken? then 1 else 0 }

  function RecvWait(r: Receiver): nat { if r == Dozing || r == Roused then 1 else 0 }

  function RecvRoused(r: Receiver): nat { if r == Roused then 1 else 0 }

  /** First in, first out: what was received and what is in the ring is what was added. */
  ghost predicate Order(c: Chan) { c.received + c.ring == c.added && |c.ring| <= c.capacity }

  ghost predicate Counters(c: Chan) {
    c.wWaiting == Sum(c.senders, SendWait) && c.rWaiting == Sum(c.receivers, RecvWait)
  }

  /** A sleeper with something to do has enough others on their way. */
  ghost predicate NoLostReceiver(c: Chan) {
    && (SomeDozing(c) ==> |c.ring| <= Sum(c.receivers, RecvRoused))
    && (c.closed ==> !SomeDozing(c))
  }

  ghost predicate NoLostSender(c: Chan) {
    SomeAsleep(c) ==> c.capacity - |c.ring| <= Sum(c.senders, SendWoken)
  }

  ghost predicate SomeDozing(c: Chan) { exists j :: 0 <= j < |c.receivers| && c.receivers[j] == Dozing }

  ghost predicate SomeAsleep(c: Chan) { exists i :: 0 <= i < |c.senders| && c.senders[i].Asleep? }

  ghost predicate Inv(c: Chan) { Order(c) && Counters(c) && NoLostReceiver(c) && NoLostSender(c) }

  lemma OrderKept(c: Chan, a: Action)
    requires Order(c) && Can(c, a)
    ensures Order(Next(c, a))
  {
  }

  lemma {:induction false} BroadcastSame(ss: seq<Sender>)
    ensures Sum(WakeSenders(ss), SendWait) == Sum(ss, SendWait)
    ensures Sum(WakeSenders(ss), SendWoken) >= Sum(ss, SendWoken)
  {
    if ss != [] {
      BroadcastSame(ss[1..]);
      assert WakeSenders(ss)[1..] == WakeSenders(ss[1..]);
    }
  }

  lemma {:induction false} BroadcastSameReceivers(rs: seq<Receiver>)
    ensures Sum(WakeReceivers(rs), RecvWait) == Sum(rs, RecvWait)
  {
    if rs != [] {
      BroadcastSameReceivers(rs[1..]);
      assert WakeReceivers(rs)[1..] == WakeReceivers(rs[1..]);
    }
  }

  /** What a step does to the sums over the senders. */
  lemma SenderSums(c: Chan, a: Action, weight: Sender -> nat)
    requires Can(c, a) && !a.Close?
    ensures var ss := Next(c, a).senders;
      if (a.StartSend? && !c.closed) || a.TrySend? || a.SpuriousSend? then
        Sum(ss, weight) == Sum(c.senders, weight) - weight(c.senders[a.i]) + weight(ss[a.i])
      else if a.TryRecv? && c.ring != [] && c.wWaiting > 0 && a.wake.Some? then
        Sum(ss, weight) == Sum(c.senders, weight) - weight(c.senders[a.wake.value]) + weight(ss[a.wake.value])
      else ss == c.senders
  {
    var ss := Next(c, a).senders;
    if (a.StartSend? && !c.closed) || a.TrySend? || a.SpuriousSend? {
      SumUpdate(c.senders, weight, a.i, ss[a.i]);
    } else if a.TryRecv? && c.ring != [] && c.wWaiting > 0 && a.wake.Some? {
      SumUpdate(c.senders, weight, a.wake.value, ss[a.wake.value]);
    }
  }

  lemma ReceiverSums(c: Chan, a: Action, weight: Receiver -> nat)
    requires Can(c, a) && !a.Close?
    ensures var rs := Next(c, a).receivers;
      if a.StartRecv? || a.TryRecv? || a.SpuriousRecv? then
        Sum(rs, weight) == Sum(c.receivers, weight) - weight(c.receivers[a.j]) + weight(rs[a.j])
      else if a.TrySend? && !Full(c) && c.rWaiting > 0 && a.wake.Some? then
        Sum(rs, weight) == Sum(c.receivers, weight) - weight(c.receivers[a.wake.value]) + weight(rs[a.wake.value])
      else rs == c.receivers
  {
    var rs := Next(c, a).receivers;
    if a.StartRecv? || a.TryRecv? || a.SpuriousRecv? {
      SumUpdate(c.receivers, weight, a.j, rs[a.j]);
    } else if a.TrySend? && !Full(c) && c.rWaiting > 0 && a.wake.Some? {
      SumUpdate(c.receivers, weight, a.wake.value, rs[a.wake.value]);
    }
  }

  lemma CountersKept(c: Chan, a: Action)
    requires Counters(c) && Can(c, a)
    ensures Counters(Next(c, a))
  {
    if a.Close? {
      BroadcastSame(c.senders);
      BroadcastSameReceivers(c.receivers);
    } else {
      SenderSums(c, a, SendWait);
      ReceiverSums(c, a, RecvWait);
    }
  }

  lemma NoLostReceiverKept(c: Chan, a: Action)
    requires Order(c) && Counters(c) && NoLostReceiver(c) && Can(c, a)
    ensures NoLostReceiver(Next(c, a))
  {
    var t := Next(c, a);
    if !a.Close? && SomeDozing(t) {
      var j :| 0 <= j < |t.receivers| && t.receivers[j] == Dozing;
      ReceiverSums(c, a, RecvRoused);
      if c.receivers[j] == Dozing {
        assert SomeDozing(c);
        SumBounds(c.receivers, RecvWait, j);
      }
    }
  }

  lemma NoLostSenderKept(c: Chan, a: Action)
    requires Order(c) && Counters(c) && NoLostSender(c) && Can(c, a)
    ensures NoLostSender(Next(c, a))
  {
    var t := Next(c, a);
    if !a.Close? && SomeAsleep(t) {
      var i :| 0 <= i < |t.senders| && t.senders[i].Asleep?;
      SenderSums(c, a, SendWoken);
      if c.senders[i].Asleep? {
        assert SomeAsleep(c);
        SumBounds(c.senders, SendWait, i);
      }
    } else if a.Close? && c.closed {
      assert t == c;
    }
  }

  lemma StepKeepsInv(c: Chan, a: Action)
    requires Inv(c) && Can(c, a)
    ensures Inv(Next(c, a))
    ensures var t := Next(c, a);
      |t.senders| == |c.senders| && |t.receivers| == |c.receivers| && t.capacity == c.capacity
  {
    OrderKept(c, a);
    CountersKept(c, a);
    NoLostReceiverKept(c, a);
    NoLostSenderKept(c, a);
  }

  // ---------- Runs ----------

  ghost predicate Runs(c: Chan, acts: seq<Action>, t: Chan)
    decreases |acts|
  {
    if acts == [] then c == t else Can(c, acts[0]) && Runs(Next(c, acts[0]), acts[1..], t)
  }

  lemma {:induction false} RunsKeep(c: Chan, acts: seq<Action>, t: Chan)
    requires Inv(c) && Runs(c, acts, t)
    ensures Inv(t) && |t.senders| == |c.senders| && |t.receivers| == |c.receivers| && t.capacity == c.capacity
    decreases |acts|
  {
    if acts != [] {
      StepKeepsInv(c, acts[0]);
      RunsKeep(Next(c, acts[0]), acts[1..], t);
    }
  }

  lemma InitInv(capacity: nat, senders: nat, receivers: nat)
    ensures Inv(Init(capacity, senders, receivers))
  {
    var c := Init(capacity, senders, receivers);
    SumZero(c.senders, SendWait);
    SumZero(c.receivers, RecvWait);
  }

  // ---------- What was sent ----------

  /** The values of the calls of `chan_send` by thread `i` that found the channel open, in order. */
  function SentBy(acts: seq<Action>, i: nat, closed: bool): seq<Value>
    decreases |acts|
  {
    if acts == [] then [] else
    (if acts[0].StartSend? && acts[0].i == i && !closed then [acts[0].x] else [])
    + SentBy(acts[1..], i, closed || acts[0].Close?)
  }

  /** The same for all threads. */
  function Sent(acts: seq<Action>, closed: bool): seq<Value>
    decreases |acts|
  {
    if acts == [] then [] else
    (if acts[0].StartSend? && !closed then [acts[0].x] else []) + Sent(acts[1..], closed || acts[0].Close?)
  }

  /** What a step puts into the ring. */
  ghost function AddedNow(c: Chan, a: Action): seq<Value>
    requires Can(c, a)
  {
    var z := Next(c, a);
    if |c.added| <= |z.added| then z.added[|c.added|..] else []
  }

  /** What the steps of thread `i` put into the ring. */
  ghost function AddedBy(c: Chan, acts: seq<Action>, t: Chan, i: nat): seq<Value>
    requires Runs(c, acts, t)
    decreases |acts|
  {
    if acts == [] then [] else
    (if acts[0].TrySend? && acts[0].i == i then AddedNow(c, acts[0]) else [])
    + AddedBy(Next(c, acts[0]), acts[1..], t, i)
  }

  function Holding(s: Sender): seq<Value> { if s.Outside? then [] else [s.x] }

  function Bag(s: Sender): multiset<Value> { if s.Outside? then multiset{} else multiset{s.x} }

  /** The values of the senders inside. */
  function Held(ss: seq<Sender>): multiset<Value> { if ss == [] then multiset{} else Bag(ss[0]) + Held(ss[1..]) }

  lemma HoldingMoves(c: Chan, a: Action, i: nat)
    requires Can(c, a) && i < |c.senders|
    ensures i < |Next(c, a).senders|
    ensures Holding(c.senders[i]) + (if a.StartSend? && a.i == i && !c.closed then [a.x] else [])
         == (if a.TrySend? && a.i == i then AddedNow(c, a) else []) + Holding(Next(c, a).senders[i])
    ensures Next(c, a).closed == (c.closed || a.Close?)
  {
  }

  lemma {:induction false} SentInOrder(c: Chan, acts: seq<Action>, t: Chan, i: nat)
    requires Runs(c, acts, t) && i < |c.senders|
    ensures i < |t.senders|
    ensures Holding(c.senders[i]) + SentBy(acts, i, c.closed) == AddedBy(c, acts, t, i) + Holding(t.senders[i])
    decreases |acts|
  {
    if acts != [] {
      var a, z := acts[0], Next(c, acts[0]);
      HoldingMoves(c, a, i);
      SentInOrder(z, acts[1..], t, i);
      var now := if a.StartSend? && a.i == i && !c.closed then [a.x] else [];
      var put := if a.TrySend? && a.i == i then AddedNow(c, a) else [];
      Shift(Holding(c.senders[i]), now, SentBy(acts[1..], i, z.closed), put, Holding(z.senders[i]),
            AddedBy(z, acts[1..], t, i), Holding(t.senders[i]));
    }
  }

  lemma Shift(h: seq<Value>, now: seq<Value>, rest: seq<Value>, put: seq<Value>, h': seq<Value>,
              later: seq<Value>, last: seq<Value>)
    requires h + now == put + h' && h' + rest == later + last
    ensures h + (now + rest) == (put + later) + last
  {
    assert h + (now + rest) == (h + now) + rest;
    assert put + (h' + rest) == (put + h') + rest;
  }

  lemma AddBoth(b: multiset<Value>, h: multiset<Value>, x: multiset<Value>, k: multiset<Value>, y: multiset<Value>)
    requires h + x == k + y
    ensures (b + h) + x == (b + k) + y
  {
    assert (b + h) + x == b + (h + x);
    assert (b + k) + y == b + (k + y);
  }

  lemma {:induction false} HeldUpdate(ss: seq<Sender>, i: nat, s: Sender)
    requires i < |ss|
    ensures Held(ss[i := s]) + Bag(ss[i]) == Held(ss) + Bag(s)
  {
    if i == 0 {
      assert ss[0 := s][1..] == ss[1..];
    } else {
      HeldUpdate(ss[1..], i - 1, s);
      assert ss[i := s][1..] == ss[1..][i - 1 := s];
      AddBoth(Bag(ss[0]), Held(ss[1..][i - 1 := s]), Bag(ss[i]), Held(ss[1..]), Bag(s));
    }
  }

  lemma WokenRest(ss: seq<Sender>)
    requires ss != []
    ensures WakeSenders(ss)[1..] == WakeSenders(ss[1..]) && Bag(WakeSenders(ss)[0]) == Bag(ss[0])
  {
  }

  lemma {:induction false} HeldByWoken(ss: seq<Sender>)
    ensures Held(WakeSenders(ss)) == Held(ss)
  {
    if ss != [] {
      HeldByWoken(ss[1..]);
      WokenRest(ss);
    }
  }

  lemma {:induction false} HeldByNobody(ss: seq<Sender>)
    requires forall i :: 0 <= i < |ss| ==> ss[i].Outside?
    ensures Held(ss) == multiset{}
  {
    if ss != [] { HeldByNobody(ss[1..]); }
  }

  /** One sender changes: nothing is lost between it and what it put. */
  lemma SenderChanges(ss: seq<Sender>, i: nat, s: Sender, put: multiset<Value>, now: multiset<Value>)
    requires i < |ss| && Bag(ss[i]) + now == Bag(s) + put
    ensures put + Held(ss[i := s]) == Held(ss) + now
  {
    HeldUpdate(ss, i, s);
    Cancel(Held(ss[i := s]), Bag(ss[i]), Held(ss), Bag(s), put, now);
  }

  lemma Cancel(h: multiset<Value>, x: multiset<Value>, k: multiset<Value>, y: multiset<Value>,
               put: multiset<Value>, now: multiset<Value>)
    requires h + x == k + y && x + now == y + put
    ensures put + h == k + now
  {
    forall v ensures (put + h)[v] == (k + now)[v] {
      assert (h + x)[v] == (k + y)[v] && (x + now)[v] == (y + put)[v];
    }
  }

  lemma AddedMore(c: Chan, a: Action)
    requires Can(c, a)
    ensures Next(c, a).added == c.added + AddedNow(c, a)
    ensures a.TrySend? && !Full(c) ==> AddedNow(c, a) == [c.senders[a.i].x]
    ensures !a.TrySend? || Full(c) ==> AddedNow(c, a) == []
  {
  }

  lemma ValuePut(c: Chan, i: nat, wake: Option<nat>)
    requires Can(c, TrySend(i, wake))
    ensures multiset(AddedNow(c, TrySend(i, wake))) + Held(Next(c, TrySend(i, wake)).senders) == Held(c.senders)
  {
    var x := c.senders[i].x;
    AddedMore(c, TrySend(i, wake));
    if Full(c) {
      SenderChanges(c.senders, i, Asleep(x), multiset{}, multiset{});
    } else {
      SenderChanges(c.senders, i, Outside, multiset{x}, multiset{});
    }
  }

  /** One step moves a value from its call into a sender, or from a sender into the ring. */
  lemma ValuesMove(c: Chan, a: Action)
    requires Can(c, a)
    ensures var now := if a.StartSend? && !c.closed then multiset{a.x} else multiset{};
      multiset(AddedNow(c, a)) + Held(Next(c, a).senders) == Held(c.senders) + now
  {
    var z := Next(c, a);
    AddedMore(c, a);
    match a
    case Close => HeldByWoken(c.senders);
    case TrySend(i, wake) => ValuePut(c, i, wake);
    case StartSend(i, x) =>
      if !c.closed { SenderChanges(c.senders, i, z.senders[i], multiset{}, multiset{x}); }
    case SpuriousSend(i) => SenderChanges(c.senders, i, z.senders[i], multiset{}, multiset{});
    case TryRecv(_, wake) =>
      if c.ring != [] && c.wWaiting > 0 && wake.Some? {
        SenderChanges(c.senders, wake.value, z.senders[wake.value], multiset{}, multiset{});
      }
    case _ =>
  }

  lemma {:induction false} ValuesKept(c: Chan, acts: seq<Action>, t: Chan)
    requires Runs(c, acts, t)
    ensures multiset(t.added) + Held(t.senders)
         == multiset(c.added) + Held(c.senders) + multiset(Sent(acts, c.closed))
    decreases |acts|
  {
    if acts != [] {
      var a, z := acts[0], Next(c, acts[0]);
      AddedMore(c, a);
      ValuesMove(c, a);
      ValuesKept(z, acts[1..], t);
      var now := if a.StartSend? && !c.closed then [a.x] else [];
      assert Sent(acts, c.closed) == now + Sent(acts[1..], z.closed) by { assert z.closed == (c.closed || a.Close?); }
      Regroup(multiset(c.added), multiset(AddedNow(c, a)), Held(z.senders), Held(c.senders), multiset(now),
              multiset(Sent(acts[1..], z.closed)));
    }
  }

  lemma Regroup(a: multiset<Value>, put: multiset<Value>, h: multiset<Value>, k: multiset<Value>,
                now: multiset<Value>, rest: multiset<Value>)
    requires put + h == k + now
    ensures ((a + put) + h) + rest == (a + k) + (now + rest)
  {
    forall v ensures (((a + put) + h) + rest)[v] == ((a + k) + (now + rest))[v] {
      assert (put + h)[v] == (k + now)[v];
    }
  }

  /** Every run: the values given to `chan_send` on the open channel are those in the ring, those
      received, and those of senders still inside, each as often as it was given; each thread's values
      go in in the order of its calls; values come out once each and in the order they went in; and the
      ring never overflows, so that `queue_add` never fails. */
  lemma FirstInFirstOut(capacity: nat, senders: nat, receivers: nat, acts: seq<Action>, t: Chan)
    requires Runs(Init(capacity, senders, receivers), acts, t)
    ensures t.added == t.received + t.ring && |t.ring| <= capacity
    ensures multiset(t.received + t.ring) + Held(t.senders) == multiset(Sent(acts, false))
    ensures |t.senders| == senders
    ensures forall i: nat :: i < senders ==>
      SentBy(acts, i, false) == AddedBy(Init(capacity, senders, receivers), acts, t, i) + Holding(t.senders[i])
  {
    var c := Init(capacity, senders, receivers);
    InitInv(capacity, senders, receivers);
    RunsKeep(c, acts, t);
    ValuesKept(c, acts, t);
    HeldByNobody(c.senders);
    forall i: nat | i < senders
      ensures SentBy(acts, i, false) == AddedBy(c, acts, t, i) + Holding(t.senders[i])
    {
      SentInOrder(c, acts, t, i);
      assert [] + SentBy(acts, i, false) == SentBy(acts, i, false);
    }
  }

  /** No wakeup is lost. When no woken thread is still to run, a receiver sleeps only on an empty open
      channel and a sender only on a full one, so not both. */
  lemma SleepersAreRight(capacity: nat, senders: nat, receivers: nat, acts: seq<Action>, t: Chan)
    requires Runs(Init(capacity, senders, receivers), acts, t)
    requires forall i :: 0 <= i < |t.senders| ==> !t.senders[i].Woken?
    requires forall j :: 0 <= j < |t.receivers| ==> t.receivers[j] != Roused
    ensures SomeDozing(t) ==> t.ring == [] && !t.closed
    ensures SomeAsleep(t) ==> |t.ring| == capacity
    ensures capacity > 0 ==> !(SomeDozing(t) && SomeAsleep(t))
  {
    InitInv(capacity, senders, receivers);
    RunsKeep(Init(capacity, senders, receivers), acts, t);
    SumZero(t.senders, SendWoken);
    SumZero(t.receivers, RecvRoused);
  }

  // ---------- Coming to rest ----------

  /** The steps of threads that are inside a call and awake. */
  predicate Internal(a: Action) { a.TrySend? || a.TryRecv? }

  function SendWork(s: Sender): nat { if s.Outside? then 0 else if s.Asleep? then 1 else 2 }

  function RecvWork(r: Receiver): nat { if r == Away then 0 else if r == Dozing then 1 else 2 }

  /** How many such steps there can be at most. */
  ghost function Work(c: Chan): nat { Sum(c.senders, SendWork) + Sum(c.receivers, RecvWork) }

  lemma WorkDrops(c: Chan, a: Action)
    requires Can(c, a) && Internal(a)
    ensures Work(Next(c, a)) < Work(c)
  {
    SenderSums(c, a, SendWork);
    ReceiverSums(c, a, RecvWork);
  }

  lemma WorkBounded(c: Chan)
    ensures Work(c) <= 2 * |c.senders| + 2 * |c.receivers|
  {
    SumAtMost(c.senders, SendWork, 2);
    SumAtMost(c.receivers, RecvWork, 2);
  }

  ghost predicate InternalRun(c: Chan, acts: seq<Action>, t: Chan) {
    Runs(c, acts, t) && forall i :: 0 <= i < |acts| ==> Internal(acts[i])
  }

  lemma {:induction false} WorkPays(c: Chan, acts: seq<Action>, t: Chan)
    requires InternalRun(c, acts, t)
    ensures |acts| + Work(t) <= Work(c)
    decreases |acts|
  {
    if acts != [] {
      WorkDrops(c, acts[0]);
      WorkPays(Next(c, acts[0]), acts[1..], t);
    }
  }

  /** Nobody inside a call is awake. */
  predicate AtRest(c: Chan) {
    && (forall i :: 0 <= i < |c.senders| ==> c.senders[i].Outside? || c.senders[i].Asleep?)
    && forall j :: 0 <= j < |c.receivers| ==> c.receivers[j] == Away || c.receivers[j] == Dozing
  }

  /** Until the channel is at rest somebody can go on: no thread inside a call is ever blocked but by
      sleeping. */
  lemma RestsExactly(c: Chan)
    ensures AtRest(c) <==> forall a :: Internal(a) ==> !Can(c, a)
  {
    if i :| 0 <= i < |c.senders| && !c.senders[i].Outside? && !c.senders[i].Asleep? {
      var wake := SomeReceiver(c.receivers);
      assert Can(c, TrySend(i, if !Full(c) && c.rWaiting > 0 then wake else None));
    } else if j :| 0 <= j < |c.receivers| && c.receivers[j] != Away && c.receivers[j] != Dozing {
      var wake := SomeSender(c.senders);
      assert Can(c, TryRecv(j, if c.ring != [] && c.wWaiting > 0 then wake else None));
    }
  }

  /** Left alone, a channel in any run comes to rest: there are at most two steps for each thread, and when
      no more can be taken, whoever sleeps has a reason. So no value stays in the ring, and no close
      goes unnoticed, while a receiver sleeps; and no slot stays free while a sender sleeps. */
  lemma ComesToRest(capacity: nat, senders: nat, receivers: nat, before: seq<Action>, c: Chan,
                    acts: seq<Action>, t: Chan)
    requires Runs(Init(capacity, senders, receivers), before, c) && InternalRun(c, acts, t)
    ensures |acts| <= 2 * senders + 2 * receivers
    ensures (forall a :: Internal(a) ==> !Can(t, a)) ==>
      && (t.ring != [] || t.closed ==> !SomeDozing(t))
      && (|t.ring| < capacity ==> !SomeAsleep(t))
  {
    InitInv(capacity, senders, receivers);
    RunsKeep(Init(capacity, senders, receivers), before, c);
    RunsKeep(c, acts, t);
    WorkPays(c, acts, t);
    WorkBounded(c);
    RestsExactly(t);
    if AtRest(t) {
      SumZero(t.senders, SendWoken);
      SumZero(t.receivers, RecvRoused);
    }
  }

  // ---------- Sending around a close ----------

  predicate AllOutside(c: Chan) { forall i :: 0 <= i < |c.senders| ==> c.senders[i].Outside? }

  /** Nobody is past the test for closed, or the ring is full with nobody or nothing to empty it. */
  predicate Shut(c: Chan) {
    AllOutside(c) || (Full(c) && (c.ring == [] || c.receivers == []))
  }

  lemma {:induction false} ClosedForGood(c: Chan, acts: seq<Action>, t: Chan)
    requires c.closed && Shut(c) && Runs(c, acts, t)
    ensures t.added == c.added
    decreases |acts|
  {
    if acts != [] {
      ClosedForGood(Next(c, acts[0]), acts[1..], t);
    }
  }

  /** Some run from here adds another value. */
  ghost predicate AddsMore(c: Chan) {
    exists acts: seq<Action>, t: Chan :: Runs(c, acts, t) && |t.added| > |c.added|
  }

  /** A closed channel still takes a value if and only if a sender was past its test for closed, and
      there is a free slot or somebody who may empty one. */
  lemma LateSendExactly(c: Chan)
    requires Inv(c) && c.closed
    ensures AddsMore(c) <==> !AllOutside(c) && (!Full(c) || (c.ring != [] && c.receivers != []))
  {
    if Shut(c) {
      forall acts: seq<Action>, t: Chan | Runs(c, acts, t) ensures |t.added| <= |c.added| {
        ClosedForGood(c, acts, t);
      }
    } else {
      LateSend(c);
    }
  }

  /** It happens: a sender that found the channel open, a close, and the value is added. */
  lemma LateSendHappens(capacity: nat, senders: nat, receivers: nat, x: Value)
    returns (acts: seq<Action>, c: Chan, late: Chan)
    requires capacity > 0 && senders > 0
    ensures Runs(Init(capacity, senders, receivers), acts, c) && c.closed && c.added == []
    ensures Runs(c, [TrySend(0, None)], late) && late.added == [x]
  {
    var c0 := Init(capacity, senders, receivers);
    acts, c := [], c0;
    acts, c := Extend(c0, acts, c, StartSend(0, x));
    acts, c := Extend(c0, acts, c, Close);
    var none: seq<Action> := [];
    none, late := Extend(c, none, c, TrySend(0, None));
  }

  lemma SomeReceiver(rs: seq<Receiver>) returns (wake: Option<nat>)
    ensures MayWakeReceiver(rs, wake)
  {
    if j :| 0 <= j < |rs| && rs[j] == Dozing {
      wake := Some(j);
    } else {
      wake := None;
    }
  }

  lemma SomeSender(ss: seq<Sender>) returns (wake: Option<nat>)
    ensures MayWakeSender(ss, wake)
  {
    if i :| 0 <= i < |ss| && ss[i].Asleep? {
      wake := Some(i);
    } else {
      wake := None;
    }
  }

  lemma {:induction false} Extend(c: Chan, acts: seq<Action>, t: Chan, a: Action) returns (more: seq<Action>, u: Chan)
    requires Runs(c, acts, t) && Can(t, a)
    ensures Runs(c, more, u) && u == Next(t, a)
    decreases |acts|
  {
    if acts == [] {
      more, u := [a], Next(t, a);
      assert more[1..] == [];
    } else {
      var rest: seq<Action>;
      rest, u := Extend(Next(c, acts[0]), acts[1..], t, a);
      more := [acts[0]] + rest;
      assert more[1..] == rest;
    }
  }

  /** Receiver 0 of a closed channel makes a free slot; whoever was sending still is. */
  lemma MakeRoom(c: Chan, i: nat) returns (acts: seq<Action>, t: Chan)
    requires Inv(c) && c.closed && (!Full(c) || (c.ring != [] && c.receivers != []))
    requires i < |c.senders| && !c.senders[i].Outside?
    ensures Runs(c, acts, t) && !Full(t) && t.added == c.added && t.capacity == c.capacity
    ensures i < |t.senders| && !t.senders[i].Outside?
  {
    acts, t := [], c;
    if Full(c) {
      assert c.receivers[0] == Dozing ==> SomeDozing(c);
      if c.receivers[0] == Away {
        acts, t := Extend(c, acts, t, StartRecv(0));
      }
      var wake := SomeSender(t.senders);
      acts, t := Extend(c, acts, t, TryRecv(0, if t.wWaiting > 0 then wake else None));
    }
  }

  lemma LateSend(c: Chan)
    requires Inv(c) && c.closed && !Shut(c)
    ensures AddsMore(c)
  {
    var i :| 0 <= i < |c.senders| && !c.senders[i].Outside?;
    var acts, t := MakeRoom(c, i);
    if t.senders[i].Asleep? {
      acts, t := Extend(c, acts, t, SpuriousSend(i));
    }
    var wake := SomeReceiver(t.receivers);
    acts, t := Extend(c, acts, t, TrySend(i, if t.rWaiting > 0 then wake else None));
  }
}
