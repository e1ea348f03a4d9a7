/** The rendezvous channel of src/chan.c. `w_mu` lets in one sender at a time and `r_mu` one receiver, each
    for its whole call, so the machine has one place for each; its steps are the stretches between
    taking and giving up `m_mu`. */
module UnbufferedChannel {
  type Value = nat

  /** The sender holding `w_mu`. */
  datatype Sender = NoSender | Entered | Asleep | Woken

  /** The receiver holding `r_mu`. */
  datatype Receiver = NoReceiver | AtTest | Dozing | Roused

  /** `offered` is the argument of the sender inside. `sent`, `received` and `returned` are history:
      the values put into `data`, those taken out of it, and how many sends returned 0. */
  datatype Chan = Chan(data: Value, wWaiting: int, rWaiting: int, closed: bool,
                       sender: Sender, offered: Value, receiver: Receiver,
                       sent: seq<Value>, received: seq<Value>, returned: nat)

  datatype Action =
    | EnterSend(x: Value)   // found the channel open some time ago, took w_mu
    | Put
    | Return
    | EnterRecv
    | Take
    | Close
    | SpuriousSend
    | SpuriousRecv

  predicate Can(c: Chan, a: Action) {
    match a
    case EnterSend(_) => c.sender == NoSender
    case Put => c.sender == Entered
    case Return => c.sender == Woken
    case EnterRecv => c.receiver == NoReceiver
    case Take => c.receiver == AtTest || c.receiver == Roused
    case Close => true
    case SpuriousSend => c.sender == Asleep
    case SpuriousRecv => c.receiver == Dozing
  }

  function WakeSender(s: Sender): Sender { if s == Asleep then Woken else s }

  function WakeReceiver(r: Receiver): Receiver { if r == Dozing then Roused else r }

  function Next(c: Chan, a: Action): Chan
    requires Can(c, a)
  {
    match a
    case EnterSend(x) => c.(sender := Entered, offered := x)
    case Put =>
      if c.closed then c.(sender := NoSender)
      else c.(data := c.offered, wWaiting := c.wWaiting + 1, sender := Asleep, sent := c.sent + [c.offered],
              receiver := if c.rWaiting > 0 then WakeReceiver(c.receiver) else c.receiver)
    case Return => c.(sender := NoSender, returned := c.returned + 1)
    case EnterRecv => c.(receiver := AtTest)
    case Take =>
      var around := if c.receiver == Roused then c.rWaiting - 1 else c.rWaiting;
      if !c.closed && c.wWaiting == 0 then c.(rWaiting := around + 1, receiver := Dozing)
      else if c.closed then c.(rWaiting := around, receiver := NoReceiver)
      else c.(rWaiting := around, receiver := NoReceiver, received := c.received + [c.data],
              wWaiting := c.wWaiting - 1, sender := WakeSender(c.sender))
    case Close =>
      if c.closed then c
      else c.(closed := true, sender := WakeSender(c.sender), receiver := WakeReceiver(c.receiver))
    case SpuriousSend => c.(sender := Woken)
    case SpuriousRecv => c.(receiver := Roused)
  }

  const INITIAL := Chan(0, 0, 0, false, NoSender, 0, NoReceiver, [], [], 0)

  /** Who has put a value and not had it taken. */
  function Pending(c: Chan): seq<Value> { if c.sender == Asleep then [c.data] else [] }

  /** One value at a time changes hands, and no receiver sleeps while a sender waits. */
  ghost predicate Inv(c: Chan) {
    && c.wWaiting == |Pending(c)|
    && c.sent == c.received + Pending(c)
    && |c.sent| == c.returned + (if c.sender == Asleep || c.sender == Woken then 1 else 0)
    && c.rWaiting == (if c.receiver == Dozing || c.receiver == Roused then 1 else 0)
    && (c.receiver == Dozing ==> c.wWaiting == 0 && !c.closed)
    && (c.closed ==> c.sender != Asleep)
  }

  /** The only steps that can break the rendezvous: a sender asleep over its value is woken by
      something else than a receive. */
  predicate WakesEmptyHanded(c: Chan, a: Action) {
    c.sender == Asleep && (a == SpuriousSend || a == Close)
  }

  /** A step keeps the rendezvous if and only if it does not wake the sender empty-handed. */
  lemma StepKeepsExactly(c: Chan, a: Action)
    requires Inv(c) && Can(c, a)
    ensures Inv(Next(c, a)) <==> !WakesEmptyHanded(c, a)
  {
    if a == Put && !c.closed {
      assert c.received + [] == c.received;
    }
  }

  ghost predicate Runs(c: Chan, acts: seq<Action>, t: Chan)
    decreases |acts|
  {
    if acts == [] then c == t else Can(c, acts[0]) && Runs(Next(c, acts[0]), acts[1..], t)
  }

  /** Every sleeping sender is woken by a receive. */
  ghost predicate Calm(c: Chan, acts: seq<Action>)
    decreases |acts|
  {
    acts == [] || (Can(c, acts[0]) && !WakesEmptyHanded(c, acts[0]) && Calm(Next(c, acts[0]), acts[1..]))
  }

  lemma {:induction false} CalmKeeps(c: Chan, acts: seq<Action>, t: Chan)
    requires Inv(c) && Runs(c, acts, t) && Calm(c, acts)
    ensures Inv(t)
    decreases |acts|
  {
    if acts != [] {
      StepKeepsExactly(c, acts[0]);
      CalmKeeps(Next(c, acts[0]), acts[1..], t);
    }
  }

  /** The values of the sends that found the channel open when they came to put them. */
  function Given(acts: seq<Action>, offered: Value, closed: bool): seq<Value>
    decreases |acts|
  {
    if acts == [] then [] else
    (if acts[0].Put? && !closed then [offered] else [])
    + Given(acts[1..], if acts[0].EnterSend? then acts[0].x else offered, closed || acts[0].Close?)
  }

  lemma {:induction false} SentIsGiven(c: Chan, acts: seq<Action>, t: Chan)
    requires Runs(c, acts, t)
    ensures t.sent == c.sent + Given(acts, c.offered, c.closed)
    decreases |acts|
  {
    if acts != [] {
      var a, z := acts[0], Next(c, acts[0]);
      SentMore(c, a);
      SentIsGiven(z, acts[1..], t);
      var now := if a.Put? && !c.closed then [c.offered] else [];
      assert c.sent + (now + Given(acts[1..], z.offered, z.closed)) == z.sent + Given(acts[1..], z.offered, z.closed);
    }
  }

  lemma SentMore(c: Chan, a: Action)
    requires Can(c, a)
    ensures var z := Next(c, a);
      && z.sent == c.sent + (if a.Put? && !c.closed then [c.offered] else [])
      && z.offered == (if a.EnterSend? then a.x else c.offered) && z.closed == (c.closed || a.Close?)
  {
  }

  /** Every calm run: the values received are the values sent, in order, but for the one whose sender
      is still asleep; the values sent are those of the calls of `chan_send`, in order; each send that
      returned 0 had its value received; `w_waiting` is 1 exactly while such a sender sleeps; and a
      sleeping receiver means that none does. */
  lemma Rendezvous(acts: seq<Action>, t: Chan)
    requires Runs(INITIAL, acts, t) && Calm(INITIAL, acts)
    ensures t.sent == t.received + (if t.sender == Asleep then [t.data] else [])
    ensures t.sent == Given(acts, 0, false)
    ensures t.returned <= |t.received| <= t.returned + 1
    ensures t.sender == Woken ==> |t.received| == t.returned + 1 == |t.sent|
    ensures t.wWaiting == if t.sender == Asleep then 1 else 0
    ensures t.receiver == Dozing ==> t.sender != Asleep && !t.closed
  {
    CalmKeeps(INITIAL, acts, t);
    SentIsGiven(INITIAL, acts, t);
  }

  /** A run in which sends that returned outnumber the values received. */
  ghost predicate SendsForNothing(c: Chan) {
    exists acts: seq<Action>, t: Chan :: Runs(c, acts, t) && t.returned > |t.received|
  }

  lemma {:induction false} Extend(c: Chan, acts: seq<Action>, t: Chan, a: Action) returns (more: seq<Action>, u: Chan)
    requires Runs(c, acts, t) && Can(t, a)
    ensures Runs(c, more, u) && u == Next(t, a)
    decreases |acts|
  {
    if acts == [] {
      more, u := [a], Next(t, a);
      assert more[1..] == [];
    } else {
      var rest: seq<Action>;
      rest, u := Extend(Next(c, acts[0]), acts[1..], t, a);
      more := [acts[0]] + rest;
      assert more[1..] == rest;
    }
  }

  /** The documented promise, that a send blocks until its value is received, can still be broken from
      a state that has kept it if and only if the channel is open: a close, or a wakeup for no
      reason, may find a sender asleep. On a closed channel every send fails properly. */
  lemma SendsForNothingExactly(c: Chan)
    requires Inv(c)
    ensures SendsForNothing(c) <==> !c.closed
  {
    if c.closed {
      forall acts: seq<Action>, t: Chan | Runs(c, acts, t) ensures t.returned <= |t.received| {
        ClosedIsCalm(c, acts, t);
      }
    } else {
      BreakOpen(c);
    }
  }

  lemma {:induction false} ClosedIsCalm(c: Chan, acts: seq<Action>, t: Chan)
    requires Inv(c) && c.closed && Runs(c, acts, t)
    ensures t.returned <= |t.received|
    decreases |acts|
  {
    if acts != [] {
      StepKeepsExactly(c, acts[0]);
      ClosedIsCalm(Next(c, acts[0]), acts[1..], t);
    }
  }

  /** Close the channel over a sleeping sender: it returns 0 with its value in nobody's hands. */
  lemma BreakOpen(c: Chan)
    requires Inv(c) && !c.closed
    ensures SendsForNothing(c)
  {
    var acts: seq<Action>, t := [], c;
    if t.sender == Woken { acts, t := Extend(c, acts, t, Return); }
    if t.sender == NoSender { acts, t := Extend(c, acts, t, EnterSend(0)); }
    if t.sender == Entered { acts, t := Extend(c, acts, t, Put); }
    acts, t := Extend(c, acts, t, Close);
    acts, t := Extend(c, acts, t, Return);
  }

  /** A value left behind like that is lost: a closed channel gives no more values. */
  lemma {:induction false} ClosedGivesNothing(c: Chan, acts: seq<Action>, t: Chan)
    requires c.closed && Runs(c, acts, t)
    ensures t.received == c.received
    decreases |acts|
  {
    if acts != [] {
      ClosedGivesNothing(Next(c, acts[0]), acts[1..], t);
    }
  }

  /** A sender woken for no reason also corrupts an open channel: the next value is sent over the
      first, and is then received twice. */
  lemma SpuriousDuplicates(x: Value, y: Value)
    ensures exists acts: seq<Action>, t: Chan :: Runs(INITIAL, acts, t) && t.sent == [x, y] && t.received == [y, y]
  {
    var acts, t := Abandon(x);
    acts, t := Extend(INITIAL, acts, t, EnterSend(y));
    acts, t := Extend(INITIAL, acts, t, Put);
    acts, t := Extend(INITIAL, acts, t, EnterRecv);
    acts, t := Extend(INITIAL, acts, t, Take);
    acts, t := Extend(INITIAL, acts, t, EnterRecv);
    acts, t := Extend(INITIAL, acts, t, Take);
    assert t.received == [y, y];
  }

  lemma Abandon(x: Value) returns (acts: seq<Action>, t: Chan)
    ensures Runs(INITIAL, acts, t)
    ensures t == INITIAL.(data := x, wWaiting := 1, offered := x, sent := [x], returned := 1)
  {
    acts, t := [], INITIAL;
    acts, t := Extend(INITIAL, acts, t, EnterSend(x));
    acts, t := Extend(INITIAL, acts, t, Put);
    acts, t := Extend(INITIAL, acts, t, SpuriousSend);
    acts, t := Extend(INITIAL, acts, t, Return);
  }
}
