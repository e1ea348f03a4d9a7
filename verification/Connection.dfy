/** Opening and closing a connection (src/tju_tcp.c, src/timer.c, src/api.c) as two joint state
    machines over networks that lose, duplicate and reorder: a client with its listener, and a
    closing side with the other side. Only packet flags matter here.

    A network is the set of flags that may still arrive; delivering leaves a flag there. */
module Connection {
  import opened Common

  datatype Flag = Syn | SynAck | PlainAck | FinAck | Rst | NoFlag

  datatype TcpState = Closed | Listen | SynSent | SynRecv | Established
                    | FinWait1 | FinWait2 | CloseWait | LastAck | TimeWait

  function Put(net: set<Flag>, f: Option<Flag>): set<Flag> {
    if f.None? then net else net + {f.value}
  }

  // ---------- What one side does with a packet ----------

  /** `tcp_rcv_state_server` for one client: its state, the two queues, and the answer. */
  datatype Listener = Listener(state: TcpState, synQueue: nat, acceptQueue: nat)

  function ListenerOn(l: Listener, f: Flag): (Listener, Option<Flag>) {
    if l.state == Listen && f == Syn then
      (Listener(SynRecv, l.synQueue + 1, l.acceptQueue), Some(SynAck))
    else if l.state == SynRecv && f == PlainAck && l.synQueue > 0 then
      (Listener(Established, l.synQueue - 1, l.acceptQueue + 1), None)
    else (l, None)
  }

  /** `tcp_rcv_state_client` */
  function ClientOn(c: TcpState, f: Flag): (TcpState, Option<Flag>) {
    if f == SynAck && c == SynSent then (Established, Some(PlainAck)) else (c, None)
  }

  /** `tcp_state_close`. The passive side goes on from CLOSE_WAIT by itself; see `PassiveWakes`. */
  function CloseOn(s: TcpState, f: Flag): (TcpState, Option<Flag>) {
    match s
    case Established => if f == FinAck then (CloseWait, Some(PlainAck)) else (s, None)
    case FinWait1 => if f == PlainAck then (FinWait2, None) else (s, None)
    case FinWait2 => if f == FinAck then (TimeWait, Some(PlainAck)) else (s, None)
    case LastAck => if f == PlainAck then (Closed, None) else (s, None)
    case _ => (s, None)
  }

  // ---------- Opening ----------

  /** `finished` is `finished_handshake`; `accepted` counts what `tcp_accept` took. */
  datatype Opening = Opening(client: TcpState, finished: bool, server: Listener, accepted: nat,
                             toServer: set<Flag>, toClient: set<Flag>)

  /** After `tcp_listen` and the start of `tcp_connect`. */
  const OPENING_INIT := Opening(SynSent, false, Listener(Listen, 0, 0), 0, {Syn}, {})

  datatype OpenAction =
    | ServerGets(f: Flag)
    | ClientGets(f: Flag, answers: bool)
    | ClientTimer
    | ClientSends
    | Accept
    | AcceptedSends(f: Flag)
    | LoseToServer(f: Flag)
    | LoseToClient(f: Flag)

  predicate CanOpen(o: Opening, a: OpenAction) {
    match a
    case ServerGets(f) => f in o.toServer
    case ClientGets(f, _) => f in o.toClient
    case ClientTimer => true
    case ClientSends => o.client == Established
    case Accept => o.server.acceptQueue > 0
    case AcceptedSends(f) => o.accepted > 0 && f in {PlainAck, NoFlag}
    case LoseToServer(f) => f in o.toServer
    case LoseToClient(f) => f in o.toClient
  }

  function OpenStep(o: Opening, a: OpenAction): Opening
    requires CanOpen(o, a)
  {
    match a
    case ServerGets(f) =>
      var (l, q) := ListenerOn(o.server, f);
      o.(server := l, toClient := Put(o.toClient, q))
    case ClientGets(f, answers) =>
      // in ESTABLISHED anything goes through the data path, which may acknowledge
      if o.client == Established then
        if answers then o.(toServer := o.toServer + {PlainAck}) else o
      else
        var (c, q) := ClientOn(o.client, f);
        o.(client := c, toServer := Put(o.toServer, q))
    case ClientTimer =>
      if o.client == SynSent then o.(toServer := o.toServer + {Syn})
      else if !o.finished then o.(finished := true, toServer := o.toServer + {PlainAck})
      else o.(toServer := o.toServer + {NoFlag})
    case ClientSends => o.(toServer := o.toServer + {NoFlag})
    case Accept => o.(server := o.server.(acceptQueue := o.server.acceptQueue - 1), accepted := o.accepted + 1)
    case AcceptedSends(f) => o.(toClient := o.toClient + {f})
    case LoseToServer(f) => o.(toServer := o.toServer - {f})
    case LoseToClient(f) => o.(toClient := o.toClient - {f})
  }

  ghost predicate OpenInv(o: Opening) {
    && o.client in {SynSent, Established}
    && o.server.state in {Listen, SynRecv, Established}
    && (o.client == Established ==> o.server.state != Listen)
    && (o.server.state == Established ==> o.client == Established)
    && (SynAck in o.toClient ==> o.server.state != Listen)
    && (PlainAck in o.toServer ==> o.client == Established)
    && o.server.synQueue == (if o.server.state == SynRecv then 1 else 0)
    && o.server.acceptQueue + o.accepted == (if o.server.state == Established then 1 else 0)
  }

  lemma OpenKeeps(o: Opening, a: OpenAction)
    requires OpenInv(o) && CanOpen(o, a)
    ensures OpenInv(OpenStep(o, a))
  {
  }

  predicate IsOpenRun(os: seq<Opening>, acts: seq<OpenAction>) {
    |os| == |acts| + 1 && forall i :: 0 <= i < |acts| ==> OpenFollows(os, acts, i)
  }

  predicate OpenFollows(os: seq<Opening>, acts: seq<OpenAction>, i: nat)
    requires i < |acts| && i + 1 < |os|
  {
    CanOpen(os[i], acts[i]) && os[i + 1] == OpenStep(os[i], acts[i])
  }

  lemma {:induction false} OpenRunKeeps(os: seq<Opening>, acts: seq<OpenAction>, n: nat)
    requires IsOpenRun(os, acts) && n <= |acts| && os[0] == OPENING_INIT
    ensures OpenInv(os[n])
  {
    if n > 0 {
      OpenRunKeeps(os, acts, n - 1);
      assert OpenFollows(os, acts, n - 1);
      OpenKeeps(os[n - 1], acts[n - 1]);
    }
  }

  ghost predicate Reachable(o: Opening) {
    exists os: seq<Opening>, acts: seq<OpenAction> ::
      IsOpenRun(os, acts) && os[0] == OPENING_INIT && os[|acts|] == o
  }

  lemma InitReachable()
    ensures Reachable(OPENING_INIT)
  {
    var none: seq<OpenAction> := [];
    assert IsOpenRun([OPENING_INIT], none) && [OPENING_INIT][|none|] == OPENING_INIT;
  }

  lemma Reach(o: Opening, a: OpenAction) returns (t: Opening)
    requires Reachable(o) && CanOpen(o, a)
    ensures t == OpenStep(o, a) && Reachable(t) && OpenInv(t)
  {
    t := OpenStep(o, a);
    var os: seq<Opening>, acts: seq<OpenAction> :|
      IsOpenRun(os, acts) && os[0] == OPENING_INIT && os[|acts|] == o;
    var more, all := os + [t], acts + [a];
    forall i | 0 <= i < |all| ensures OpenFollows(more, all, i) {
      assert i < |acts| ==> OpenFollows(os, acts, i);
    }
    assert IsOpenRun(more, all) && more[0] == OPENING_INIT && more[|all|] == t;
    OpenRunKeeps(more, all, |all|);
  }

  /** Section 3.4 of RFC 793 for every run: an established client has a listener that answered it,
      the listener establishes only with an established client, and the pair is queued for accept
      exactly once. */
  lemma HandshakeAgrees(os: seq<Opening>, acts: seq<OpenAction>, n: nat)
    requires IsOpenRun(os, acts) && n <= |acts| && os[0] == OPENING_INIT
    ensures var o := os[n];
      && (o.client == Established ==> o.server.state in {SynRecv, Established})
      && (o.server.state == Established ==> o.client == Established)
      && o.server.acceptQueue + o.accepted == (if o.server.state == Established then 1 else 0)
  {
    OpenRunKeeps(os, acts, n);
  }

  /** Some run from here establishes the client. */
  ghost predicate Establishes(o: Opening) {
    exists os: seq<Opening>, acts: seq<OpenAction> ::
      IsOpenRun(os, acts) && os[0] == o && os[|acts|].client == Established
  }

  /** What can be read off the state. */
  predicate StillPossible(o: Opening) {
    o.client == Established || o.server.state == Listen || SynAck in o.toClient
  }

  lemma {:induction false} LostForGood(os: seq<Opening>, acts: seq<OpenAction>, n: nat)
    requires IsOpenRun(os, acts) && n <= |acts| && OpenInv(os[0]) && !StillPossible(os[0])
    ensures OpenInv(os[n]) && !StillPossible(os[n])
  {
    if n > 0 {
      LostForGood(os, acts, n - 1);
      assert OpenFollows(os, acts, n - 1);
      OpenKeeps(os[n - 1], acts[n - 1]);
    }
  }

  /** The listener answers one SYN only: a client can still get through if and only if it is through,
      or the listener has not answered yet, or that one answer is still on its way. */
  lemma EstablishedExactly(o: Opening)
    requires OpenInv(o)
    ensures Establishes(o) <==> StillPossible(o)
  {
    if StillPossible(o) {
      WayToEstablished(o);
    } else {
      forall os: seq<Opening>, acts: seq<OpenAction> | IsOpenRun(os, acts) && os[0] == o
        ensures os[|acts|].client != Established
      {
        LostForGood(os, acts, |acts|);
      }
    }
  }

  lemma WayToEstablished(o: Opening)
    requires OpenInv(o) && StillPossible(o)
    ensures Establishes(o)
  {
    if o.client == Established {
      var none: seq<OpenAction> := [];
      var os := [o];
      assert IsOpenRun(os, none) && os[0] == o && os[|none|].client == Established;
    } else if SynAck in o.toClient {
      var a := ClientGets(SynAck, false);
      var os := [o, OpenStep(o, a)];
      assert OpenFollows(os, [a], 0);
      assert IsOpenRun(os, [a]) && os[0] == o && os[|[a]|].client == Established;
    } else {
      var o1 := OpenStep(o, ClientTimer);
      var o2 := OpenStep(o1, ServerGets(Syn));
      var o3 := OpenStep(o2, ClientGets(SynAck, false));
      var os, acts := [o, o1, o2, o3], [ClientTimer, ServerGets(Syn), ClientGets(SynAck, false)];
      assert OpenFollows(os, acts, 0) && OpenFollows(os, acts, 1) && OpenFollows(os, acts, 2);
      assert IsOpenRun(os, acts) && os[0] == o && os[|acts|].client == Established;
    }
  }

  /** Some run from here establishes the listener's side. */
  ghost predicate ListenerEstablishes(o: Opening) {
    exists os: seq<Opening>, acts: seq<OpenAction> ::
      IsOpenRun(os, acts) && os[0] == o && os[|acts|].server.state == Established
  }

  /** Its answer is still to come, or on its way to a waiting client; or the client got it, and has an
      acknowledgement in flight, or its first timer callback to come, or anything to answer. */
  predicate ListenerStillPossible(o: Opening) {
    || o.server.state != SynRecv
    || (o.client == SynSent && SynAck in o.toClient)
    || (o.client == Established && (PlainAck in o.toServer || !o.finished || o.toClient != {}))
  }

  lemma {:induction false} ListenerLostForGood(os: seq<Opening>, acts: seq<OpenAction>, n: nat)
    requires IsOpenRun(os, acts) && n <= |acts| && OpenInv(os[0]) && !ListenerStillPossible(os[0])
    ensures OpenInv(os[n]) && !ListenerStillPossible(os[n])
  {
    if n > 0 {
      ListenerLostForGood(os, acts, n - 1);
      assert OpenFollows(os, acts, n - 1);
      OpenKeeps(os[n - 1], acts[n - 1]);
    }
  }

  lemma ListenerStepBefore(o: Opening, a: OpenAction)
    requires CanOpen(o, a) && ListenerEstablishes(OpenStep(o, a))
    ensures ListenerEstablishes(o)
  {
    var os: seq<Opening>, acts: seq<OpenAction> :|
      IsOpenRun(os, acts) && os[0] == OpenStep(o, a) && os[|acts|].server.state == Established;
    var more, all := [o] + os, [a] + acts;
    forall i | 0 <= i < |all| ensures OpenFollows(more, all, i) {
      assert i > 0 ==> OpenFollows(os, acts, i - 1);
    }
    assert IsOpenRun(more, all) && more[0] == o && more[|all|].server.state == Established;
  }

  lemma ListenerIsThrough(o: Opening)
    requires o.server.state == Established
    ensures ListenerEstablishes(o)
  {
    var none: seq<OpenAction> := [];
    assert IsOpenRun([o], none) && [o][0] == o && [o][|none|].server.state == Established;
  }

  function StepsLeft(o: Opening): nat {
    match o.server.state
    case Listen => if Syn in o.toServer then 4 else 5
    case SynRecv => if o.client == SynSent then 3 else if PlainAck in o.toServer then 1 else 2
    case _ => 0
  }

  lemma WayToListener(o: Opening)
    requires OpenInv(o) && ListenerStillPossible(o)
    ensures ListenerEstablishes(o)
    decreases StepsLeft(o)
  {
    if o.server.state == Established {
      ListenerIsThrough(o);
    } else {
      var a :=
        if o.server.state == Listen then if Syn in o.toServer then ServerGets(Syn) else ClientTimer
        else if o.client == SynSent then ClientGets(SynAck, false)
        else if PlainAck in o.toServer then ServerGets(PlainAck)
        else if !o.finished then ClientTimer
        else var f :| f in o.toClient; ClientGets(f, true);
      OpenKeeps(o, a);
      WayToListener(OpenStep(o, a));
      ListenerStepBefore(o, a);
    }
  }

  /** Once the third packet is lost the listener depends on the client: it can still establish if and
      only if it has not answered, or its answer can still reach a waiting client, or the established
      client has an acknowledgement in flight, its first timer callback to come, or something to answer. */
  lemma ListenerExactly(o: Opening)
    requires OpenInv(o)
    ensures ListenerEstablishes(o) <==> ListenerStillPossible(o)
  {
    if ListenerStillPossible(o) {
      WayToListener(o);
    } else {
      forall os: seq<Opening>, acts: seq<OpenAction> | IsOpenRun(os, acts) && os[0] == o
        ensures os[|acts|].server.state != Established
      {
        ListenerLostForGood(os, acts, |acts|);
      }
    }
  }

  /** The client has answered the listener's answer. */
  lemma ThirdSent() returns (o: Opening)
    ensures Reachable(o) && o == Opening(Established, false, Listener(SynRecv, 1, 0), 0, {Syn, PlainAck}, {SynAck})
  {
    InitReachable();
    o := Reach(OPENING_INIT, ServerGets(Syn));
    o := Reach(o, ClientGets(SynAck, false));
  }

  /** It happens: the client is established, and the listener never will be. */
  lemma HalfOpenHappens() returns (half: Opening)
    ensures Reachable(half) && half.client == Established && !ListenerEstablishes(half)
  {
    half := ThirdSent();
    half := Reach(half, LoseToServer(PlainAck));
    half := Reach(half, ClientTimer);
    half := Reach(half, LoseToServer(PlainAck));
    half := Reach(half, LoseToClient(SynAck));
    ListenerExactly(half);
  }

  // ---------- Closing ----------

  /** One side called `tcp_close`; the other, `passive`, was established. */
  datatype Closing = Closing(active: TcpState, passive: TcpState, toPassive: set<Flag>, toActive: set<Flag>)

  /** When the closing side has just sent its FIN, with whatever else was in flight; the other side
      has sent none. */
  predicate CloseStarts(c: Closing) {
    c.active == FinWait1 && c.passive == Established && FinAck in c.toPassive && FinAck !in c.toActive
  }

  datatype CloseAction =
    | ActiveGets(f: Flag)
    | PassiveGets(f: Flag, answers: bool)
    | PassiveWakes
    | ActiveSends
    | PassiveSends(f: Flag)
    | LoseToPassive(f: Flag)
    | LoseToActive(f: Flag)

  predicate CanClose(c: Closing, a: CloseAction) {
    match a
    case ActiveGets(f) => f in c.toActive && c.active != TimeWait
    case PassiveGets(f, _) => f in c.toPassive && c.passive !in {CloseWait, Closed}  // asleep in CLOSE_WAIT
    case PassiveWakes => c.passive == CloseWait
    case ActiveSends => true
    case PassiveSends(f) => c.passive != Closed && f in {PlainAck, NoFlag}
    case LoseToPassive(f) => f in c.toPassive
    case LoseToActive(f) => f in c.toActive
  }

  function CloseStep(c: Closing, a: CloseAction): Closing
    requires CanClose(c, a)
  {
    match a
    case ActiveGets(f) =>
      var (s, q) := CloseOn(c.active, f);
      c.(active := s, toPassive := Put(c.toPassive, q))
    case PassiveGets(f, answers) =>
      if c.passive == Established && f != FinAck then
        if answers then c.(toActive := c.toActive + {PlainAck}) else c
      else
        var (s, q) := CloseOn(c.passive, f);
        c.(passive := s, toActive := Put(c.toActive, q))
    case PassiveWakes => c.(passive := LastAck, toActive := c.toActive + {FinAck})
    case ActiveSends => c.(toPassive := c.toPassive + {NoFlag})
    case PassiveSends(f) => c.(toActive := c.toActive + {f})
    case LoseToPassive(f) => c.(toPassive := c.toPassive - {f})
    case LoseToActive(f) => c.(toActive := c.toActive - {f})
  }

  predicate IsCloseRun(cs: seq<Closing>, acts: seq<CloseAction>) {
    |cs| == |acts| + 1 && forall i :: 0 <= i < |acts| ==> CloseFollows(cs, acts, i)
  }

  predicate CloseFollows(cs: seq<Closing>, acts: seq<CloseAction>, i: nat)
    requires i < |acts| && i + 1 < |cs|
  {
    CanClose(cs[i], acts[i]) && cs[i + 1] == CloseStep(cs[i], acts[i])
  }

  /** `stale`: an acknowledgement was on its way to the passive side when the close started. */
  ghost predicate CloseInv(c: Closing, stale: bool) {
    && c.active in {FinWait1, FinWait2, TimeWait}
    && c.passive in {Established, CloseWait, LastAck, Closed}
    && (FinAck in c.toActive || c.active == TimeWait ==> c.passive in {LastAck, Closed})
    && (!stale && (PlainAck in c.toPassive || c.passive == Closed) ==> c.active == TimeWait)
  }

  lemma {:induction false} CloseRunKeeps(cs: seq<Closing>, acts: seq<CloseAction>, n: nat)
    requires IsCloseRun(cs, acts) && n <= |acts| && CloseStarts(cs[0])
    ensures CloseInv(cs[n], PlainAck in cs[0].toPassive)
  {
    if n > 0 {
      CloseRunKeeps(cs, acts, n - 1);
      assert CloseFollows(cs, acts, n - 1);
    }
  }

  /** Section 3.5 of RFC 793 for every run: the closing side reaches TIME_WAIT only after the other
      side has sent its own FIN. */
  lemma TimeWaitIsLate(cs: seq<Closing>, acts: seq<CloseAction>, n: nat)
    requires IsCloseRun(cs, acts) && n <= |acts| && CloseStarts(cs[0])
    ensures cs[n].active == TimeWait ==> cs[n].passive in {LastAck, Closed}
  {
    CloseRunKeeps(cs, acts, n);
  }

  /** Some run from here closes the passive side before the closing side is in TIME_WAIT. */
  ghost predicate ClosesEarly(c: Closing) {
    exists cs: seq<Closing>, acts: seq<CloseAction> ::
      IsCloseRun(cs, acts) && cs[0] == c && cs[|acts|].passive == Closed && cs[|acts|].active != TimeWait
  }

  /** The passive side can be closed before the closing side is in TIME_WAIT if and only if an old
      acknowledgement was in flight towards it when the close started. */
  lemma ClosedEarlyExactly(c: Closing)
    requires CloseStarts(c)
    ensures ClosesEarly(c) <==> PlainAck in c.toPassive
  {
    if PlainAck in c.toPassive {
      var acts := [PassiveGets(FinAck, false), PassiveWakes, PassiveGets(PlainAck, false)];
      var c1 := CloseStep(c, acts[0]);
      var c2 := CloseStep(c1, acts[1]);
      var cs := [c, c1, c2, CloseStep(c2, acts[2])];
      assert CloseFollows(cs, acts, 0) && CloseFollows(cs, acts, 1) && CloseFollows(cs, acts, 2);
      assert IsCloseRun(cs, acts) && cs[0] == c && cs[|acts|].passive == Closed && cs[|acts|].active != TimeWait;
    } else {
      forall cs: seq<Closing>, acts: seq<CloseAction> | IsCloseRun(cs, acts) && cs[0] == c
        ensures cs[|acts|].passive == Closed ==> cs[|acts|].active == TimeWait
      {
        CloseRunKeeps(cs, acts, |acts|);
      }
    }
  }

  /** Some run from here ends with the closing side in TIME_WAIT and the other side closed. */
  ghost predicate ClosesDown(c: Closing) {
    exists cs: seq<Closing>, acts: seq<CloseAction> ::
      IsCloseRun(cs, acts) && cs[0] == c && cs[|acts|].active == TimeWait && cs[|acts|].passive == Closed
  }

  /** No FIN and no acknowledgement is sent twice: what the two sides still need must be on its way,
      or yet to be sent. */
  predicate CloseStillPossible(c: Closing) {
    match c.passive
    case Established => FinAck in c.toPassive
    case CloseWait => true
    case LastAck => if c.active == TimeWait then PlainAck in c.toPassive else FinAck in c.toActive
    case _ =>
      c.active == TimeWait || (FinAck in c.toActive && (c.active == FinWait2 || PlainAck in c.toActive))
  }

  lemma {:induction false} CloseLostForGood(cs: seq<Closing>, acts: seq<CloseAction>, n: nat)
    requires IsCloseRun(cs, acts) && n <= |acts| && CloseInv(cs[0], true) && !CloseStillPossible(cs[0])
    ensures CloseInv(cs[n], true) && !CloseStillPossible(cs[n])
  {
    if n > 0 {
      CloseLostForGood(cs, acts, n - 1);
      assert CloseFollows(cs, acts, n - 1);
    }
  }

  lemma CloseStepBefore(c: Closing, a: CloseAction)
    requires CanClose(c, a) && ClosesDown(CloseStep(c, a))
    ensures ClosesDown(c)
  {
    var cs: seq<Closing>, acts: seq<CloseAction> :|
      IsCloseRun(cs, acts) && cs[0] == CloseStep(c, a) && cs[|acts|].active == TimeWait && cs[|acts|].passive == Closed;
    var more, all := [c] + cs, [a] + acts;
    forall i | 0 <= i < |all| ensures CloseFollows(more, all, i) {
      assert i > 0 ==> CloseFollows(cs, acts, i - 1);
    }
    assert IsCloseRun(more, all) && more[0] == c && more[|all|].active == TimeWait && more[|all|].passive == Closed;
  }

  lemma ClosedDown(c: Closing)
    requires c.active == TimeWait && c.passive == Closed
    ensures ClosesDown(c)
  {
    var none: seq<CloseAction> := [];
    assert IsCloseRun([c], none) && [c][0] == c && [c][|none|].active == TimeWait && [c][|none|].passive == Closed;
  }

  /** What is still to happen on either side. */
  function CloseStepsLeft(c: Closing): nat {
    (match c.passive case Established => 3 case CloseWait => 2 case LastAck => 1 case _ => 0)
    + (match c.active case FinWait1 => if PlainAck in c.toActive then 2 else 3 case FinWait2 => 1 case _ => 0)
  }

  lemma WayToClosed(c: Closing)
    requires CloseInv(c, true) && CloseStillPossible(c)
    ensures ClosesDown(c)
    decreases CloseStepsLeft(c)
  {
    if c.active == TimeWait && c.passive == Closed {
      ClosedDown(c);
    } else {
      var a :=
        if c.passive == Established then PassiveGets(FinAck, false)
        else if c.passive == CloseWait then PassiveWakes
        else if c.active == TimeWait then PassiveGets(PlainAck, false)
        else if c.active == FinWait2 then ActiveGets(FinAck)
        else if PlainAck in c.toActive then ActiveGets(PlainAck)
        else PassiveSends(PlainAck);
      WayToClosed(CloseStep(c, a));
      CloseStepBefore(c, a);
    }
  }

  /** A close can still be finished on both sides if and only if what is missing can still arrive. */
  lemma ClosesDownExactly(c: Closing)
    requires CloseInv(c, true)
    ensures ClosesDown(c) <==> CloseStillPossible(c)
  {
    if CloseStillPossible(c) {
      WayToClosed(c);
    } else {
      forall cs: seq<Closing>, acts: seq<CloseAction> | IsCloseRun(cs, acts) && cs[0] == c
        ensures !(cs[|acts|].active == TimeWait && cs[|acts|].passive == Closed)
      {
        CloseLostForGood(cs, acts, |acts|);
      }
    }
  }

  /** From the moment the FIN is sent, with or without old packets in flight, it can. */
  lemma CloseCanFinish(c: Closing)
    requires CloseStarts(c)
    ensures ClosesDown(c)
  {
    ClosesDownExactly(c);
  }

  /** When nothing else is in flight or sent, the answers of the two sides are enough: in five steps both
      are done, through the states of section 3.5 of RFC 793. */
  lemma PlainClose(c: Closing) returns (cs: seq<Closing>)
    requires CloseStarts(c) && c.toPassive == {FinAck} && c.toActive == {}
    ensures IsCloseRun(cs, [PassiveGets(FinAck, false), ActiveGets(PlainAck), PassiveWakes, ActiveGets(FinAck),
                            PassiveGets(PlainAck, false)])
    ensures cs[0] == c && cs[1].passive == CloseWait && cs[2].active == FinWait2 && cs[3].passive == LastAck
    ensures cs[4].active == TimeWait && cs[5].passive == Closed && cs[5].active == TimeWait
  {
    var c1 := CloseStep(c, PassiveGets(FinAck, false));
    var c2 := CloseStep(c1, ActiveGets(PlainAck));
    var c3 := CloseStep(c2, PassiveWakes);
    var c4 := CloseStep(c3, ActiveGets(FinAck));
    var c5 := CloseStep(c4, PassiveGets(PlainAck, false));
    cs := [c, c1, c2, c3, c4, c5];
    FiveSteps(cs, [PassiveGets(FinAck, false), ActiveGets(PlainAck), PassiveWakes, ActiveGets(FinAck),
                   PassiveGets(PlainAck, false)]);
  }

  lemma FiveSteps(cs: seq<Closing>, acts: seq<CloseAction>)
    requires |cs| == 6 && |acts| == 5
    requires CloseFollows(cs, acts, 0) && CloseFollows(cs, acts, 1) && CloseFollows(cs, acts, 2)
    requires CloseFollows(cs, acts, 3) && CloseFollows(cs, acts, 4)
    ensures IsCloseRun(cs, acts)
  {
  }

  /** The client closes on an established pair that `tcp_accept` took: until then the code sends what
      arrives to the listener. */
  function ClientCloses(o: Opening): Closing
    requires o.accepted > 0
  {
    Closing(FinWait1, Established, o.toServer + {FinAck}, o.toClient)
  }

  /** A lost answer leaves a client that never gets through. */
  lemma LostHappens() returns (lost: Opening)
    ensures Reachable(lost) && lost.client == SynSent && !Establishes(lost)
  {
    InitReachable();
    lost := Reach(OPENING_INIT, ServerGets(Syn));
    lost := Reach(lost, LoseToClient(SynAck));
    EstablishedExactly(lost);
  }

  /** A copy of the handshake's last acknowledgement is enough to close the other side early. */
  lemma EarlyHappens() returns (late: Opening)
    ensures Reachable(late) && late.client == late.server.state == Established && late.accepted == 1
    ensures CloseStarts(ClientCloses(late)) && ClosesEarly(ClientCloses(late))
  {
    late := ThirdSent();
    late := Reach(late, ServerGets(PlainAck));
    late := Reach(late, Accept);
    ClosedEarlyExactly(ClientCloses(late));
  }

  // ---------- The code ----------

  /** The state fields of `tju_tcp_t`, on a listening socket for one client, or on a connected one. */
  class Socket {
    var state: TcpState
    var listenState: TcpState
    var synQueue: nat
    var acceptQueue: nat
    var timerOn: bool
    var expectSeq: int
    var freed: bool

    ghost function Listening(): Listener
      reads this
    {
      Listener(listenState, synQueue, acceptQueue)
    }

    constructor ()
      ensures state == Closed && Listening() == Listener(Closed, 0, 0) && !timerOn && !freed
    {
      state, listenState, synQueue, acceptQueue := Closed, Closed, 0, 0;
      timerOn, expectSeq, freed := false, 0, false;
    }

    method TcpListen()
      modifies this
      ensures state == Listen && Listening() == old(Listening()).(state := Listen)
    {
      state := Listen;
      listenState := Listen;
    }

    /** `tcp_update_expected_seq` */
    method UpdateExpectedSeq(seqNum: nat, plen: nat, hlen: nat)
      modifies this`expectSeq
      ensures expectSeq == seqNum + plen - hlen
    {
      expectSeq := seqNum + plen - hlen;
    }

    /** `tcp_rcv_state_server`; the result is 0 or -1. Answering starts the timer, and the third packet
        stops it; both take over the packet's number. */
    method RcvStateServer(flags: Flag, seqNum: nat, plen: nat, hlen: nat) returns (rc: int, answer: Option<Flag>)
      requires listenState == SynRecv ==> synQueue > 0
      modifies this`listenState, this`synQueue, this`acceptQueue, this`timerOn, this`expectSeq
      ensures (Listening(), answer) == ListenerOn(old(Listening()), flags)
      ensures rc == if Listening() != old(Listening()) || (old(listenState) == Listen && flags == Rst) then 0 else -1
      ensures Listening() != old(Listening()) ==>
        expectSeq == seqNum + plen - hlen && timerOn == (listenState == SynRecv)
      ensures Listening() == old(Listening()) ==> expectSeq == old(expectSeq) && timerOn == old(timerOn)
    {
      answer := None;
      match listenState
      case Listen =>
        if flags == Syn {
          UpdateExpectedSeq(seqNum, plen, hlen);
          listenState := SynRecv;
          synQueue := synQueue + 1;
          timerOn := true;
          return 0, Some(SynAck);
        } else if flags == Rst {
          return 0, None;
        }
        rc := -1;
      case SynRecv =>
        if flags == PlainAck {
          timerOn := false;
          listenState := Established;
          UpdateExpectedSeq(seqNum, plen, hlen);
          synQueue := synQueue - 1;
          acceptQueue := acceptQueue + 1;
          return 0, None;
        }
        rc := -1;
      case _ =>
        rc := -1;
    }

    /** `tcp_rcv_state_client`; `ackSeq` is the number of the answer. */
    method RcvStateClient(flags: Flag, seqNum: nat, plen: nat, hlen: nat)
      returns (rc: int, answer: Option<Flag>, ackSeq: nat)
      modifies this`state, this`timerOn, this`expectSeq
      ensures (state, answer) == ClientOn(old(state), flags)
      ensures rc == if state != old(state) then 0 else -1
      ensures rc == 0 ==> !timerOn && expectSeq == seqNum + plen - hlen && ackSeq == seqNum + 1
      ensures rc == -1 ==> timerOn == old(timerOn) && expectSeq == old(expectSeq)
    {
      answer, rc, ackSeq := None, -1, 0;
      if flags == SynAck {
        if state == SynSent {
          timerOn := false;
          UpdateExpectedSeq(seqNum, plen, hlen);
          ackSeq := seqNum + 1;
          answer := Some(PlainAck);
          state := Established;
          rc := 0;
        }
      }
    }

    /** `tcp_state_close` up to where it sleeps. `sleeps` says that it does: the passive side before
        LAST_ACK, the active side in TIME_WAIT before it is freed. */
    method StateClose(flags: Flag) returns (rc: int, answer: Option<Flag>, sleeps: bool)
      modifies this`state, this`freed
      ensures (state, answer) == CloseOn(old(state), flags)
      ensures rc == if state != old(state) then 0 else -1
      ensures sleeps <==> rc == 0 && state in {CloseWait, TimeWait}
      ensures freed == (old(freed) || (rc == 0 && state == Closed))
    {
      answer, rc, sleeps := None, -1, false;
      match state
      case Established =>
        if flags == FinAck {
          state := CloseWait;
          answer, rc, sleeps := Some(PlainAck), 0, true;
        }
      case FinWait1 =>
        if flags == PlainAck {
          state := FinWait2;
          rc := 0;
        }
      case FinWait2 =>
        if flags == FinAck {
          answer := Some(PlainAck);
          state := TimeWait;
          rc, sleeps := 0, true;
        }
      case LastAck =>
        if flags == PlainAck {
          state := Closed;
          freed := true;
          rc := 0;
        }
      case _ =>
    }

    /** The end of the active side, after its sleep. */
    method ActiveWake()
      requires state == TimeWait
      modifies this`freed
      ensures freed
    {
      freed := true;
    }

    /** The rest of the passive side's step, after its sleep. */
    method PassiveWake() returns (answer: Flag)
      requires state == CloseWait
      modifies this`state
      ensures state == LastAck && answer == FinAck
    {
      state := LastAck;
      answer := FinAck;
    }

    /** `tcp_close` up to the wait for CLOSED. */
    method TcpClose() returns (sent: Flag)
      modifies this`state
      ensures state == FinWait1 && sent == FinAck
    {
      state := FinWait1;
      sent := FinAck;
    }
  }
}
