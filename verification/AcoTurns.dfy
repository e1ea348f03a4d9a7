/** Coroutines that take turns on one share stack, as a client of `AcoSystem` sees them: what each of
    them left there is what it finds again, whoever used the stack in between. */
module AcoTurns {
  import opened Common
  import opened AcoLayout
  import opened AcoMachine
  import opened AcoHeap
  import opened AcoSystem

  /** Nobody runs, and every coroutine stopped where eviction accepts it. */
  ghost predicate Polite(s: Sys) {
    && Inv(s) && s.running.None?
    && (forall k :: k in s.stacks ==> |s.stacks[k].mem| <= WORD / 2)
    && forall i :: i in s.cos ==> Stopped(s, i)
  }

  ghost predicate Stopped(s: Sys, i: int)
    requires i in s.cos
  {
    !s.cos[i].ended && s.cos[i].stk in s.stacks && Accepts(s.stacks[s.cos[i].stk], s.cos[i].sp)
  }

  /** The same coroutines on the same stacks. */
  ghost predicate SameShape(s: Sys, t: Sys) {
    && t.cos.Keys == s.cos.Keys && t.stacks.Keys == s.stacks.Keys
    && (forall i :: i in s.cos ==> t.cos[i].stk == s.cos[i].stk && t.cos[i].ended == s.cos[i].ended)
    && forall k :: k in s.stacks ==>
         t.stacks[k].ret == s.stacks[k].ret && t.stacks[k].limit == s.stacks[k].limit
         && |t.stacks[k].mem| == |s.stacks[k].mem|
  }

  /** Then nothing aborts, and only the one resumed can have moved. */
  lemma PoliteResumes(s: Sys, id: int)
    requires Polite(s) && id in s.cos
    ensures Step(s, Resume(id)).Some?
    ensures var t := Step(s, Resume(id)).value;
      && Inv(t) && SameShape(s, t) && t.running == Some(id) && Abs(t).frames == Abs(s).frames
      && forall i :: i in s.cos ==> t.cos[i].sp == s.cos[i].sp
  {
    AbortsExactly(s, Resume(id));
    NobodyRejected(s, id);
    StepRefines(s, Resume(id));
    var k := s.stacks[s.cos[id].stk];
    assert CoOk(s, id) && OwnerOk(s, s.cos[id].stk);
    if k.owner.Some? { assert CoOk(s, k.owner.value); }
  }

  lemma NobodyRejected(s: Sys, id: int)
    requires Polite(s) && id in s.cos
    ensures !OwnerRejected(s, id) && !OwnerTooLong(s, id) && !s.cos[id].ended
  {
    var k := s.stacks[s.cos[id].stk];
    assert Stopped(s, id) && CoOk(s, id) && OwnerOk(s, s.cos[id].stk);
    if k.owner.Some? { assert Stopped(s, k.owner.value) && CoOk(s, k.owner.value); }
    if OwnerTooLong(s, id) { TooLongIsHuge(s, id); }
  }

  lemma YieldIsPolite(t: Sys, id: int, mem: seq<Byte>, sp: int)
    requires Inv(t) && t.running == Some(id) && Allowed(t, Yield(mem, sp)) && Accepts(t.stacks[t.cos[id].stk], sp)
    requires forall k :: k in t.stacks ==> |t.stacks[k].mem| <= WORD / 2
    requires forall i :: i in t.cos ==> Stopped(t, i)
    ensures var z := Step(t, Yield(mem, sp)).value;
      Polite(z) && SameShape(t, z)
  {
    StepKeepsInv(t, Yield(mem, sp));
    var z := Step(t, Yield(mem, sp)).value;
    forall i | i in z.cos ensures Stopped(z, i) { assert Stopped(t, i); }
  }

  lemma ResumedIsPolite(s: Sys, t: Sys)
    requires Polite(s) && SameShape(s, t) && (forall i :: i in s.cos ==> t.cos[i].sp == s.cos[i].sp)
    ensures forall k :: k in t.stacks ==> |t.stacks[k].mem| <= WORD / 2
    ensures forall i :: i in t.cos ==> Stopped(t, i)
  {
    forall i | i in t.cos ensures Stopped(t, i) { assert Stopped(s, i); }
  }

  lemma SameShapeTwice(s: Sys, t: Sys, z: Sys)
    requires SameShape(s, t) && SameShape(t, z)
    ensures SameShape(s, z)
  {
  }

  /** What the runner leaves is what its private stack becomes. */
  lemma PoliteYields(s: Sys, id: int, t: Sys, mem: seq<Byte>, sp: int)
    requires Polite(s) && id in s.cos && Some(t) == Step(s, Resume(id)) && Inv(t) && Allowed(t, Yield(mem, sp))
    requires id in t.cos && t.cos[id].stk in t.stacks && Accepts(t.stacks[t.cos[id].stk], sp)
    ensures var z := Step(t, Yield(mem, sp)).value;
      && Polite(z) && SameShape(s, z)
      && Abs(z).frames == Abs(s).frames[id := Private(sp, mem[sp..t.stacks[t.cos[id].stk].ret], false)]
  {
    PoliteResumes(s, id);
    ResumedIsPolite(s, t);
    YieldIsPolite(t, id, mem, sp);
    SameShapeTwice(s, t, Step(t, Yield(mem, sp)).value);
    StepRefines(t, Yield(mem, sp));
  }

  /** With `mem` and `sp` the coroutine leaves `bytes` next to the protector word. */
  ghost predicate Left(t: Sys, id: int, bytes: seq<Byte>, mem: seq<Byte>, sp: int) {
    && id in t.cos && t.cos[id].stk in t.stacks
    && var k := t.stacks[t.cos[id].stk];
       Accepts(k, sp) && 0 <= sp && k.ret == sp + |bytes| <= |mem| && mem[sp..k.ret] == bytes
  }

  /** The state after the coroutine was resumed, left `bytes` on its stack and yielded. */
  ghost predicate Turned(s: Sys, id: int, bytes: seq<Byte>, z: Sys) {
    && Inv(s) && id in s.cos && s.cos[id].stk in s.stacks
    && Polite(z) && SameShape(s, z)
    && Abs(z).frames == Abs(s).frames[id := Private(s.stacks[s.cos[id].stk].ret - |bytes|, bytes, false)]
  }

  lemma TurnIs(s: Sys, id: int, bytes: seq<Byte>, t: Sys, mem: seq<Byte>, sp: int)
    requires Polite(s) && id in s.cos && Some(t) == Step(s, Resume(id)) && Inv(t) && Allowed(t, Yield(mem, sp))
    requires Left(t, id, bytes, mem, sp)
    ensures Turned(s, id, bytes, Step(t, Yield(mem, sp)).value)
  {
    PoliteResumes(s, id);
    assert CoOk(s, id);
    PoliteYields(s, id, t, mem, sp);
  }

  lemma RoomLeft(s: Sys, id: int, bytes: seq<Byte>)
    requires Polite(s) && id in s.cos
    requires s.cos[id].stk in s.stacks && |bytes| <= s.stacks[s.cos[id].stk].limit - 8
    ensures Allowed(s, Resume(id)) && Step(s, Resume(id)).Some?
    ensures var t := Step(s, Resume(id)).value;
      && Inv(t) && t.running == Some(id) && id in t.cos && t.cos[id].stk in t.stacks
      && |bytes| <= t.stacks[t.cos[id].stk].limit - 8
  {
    PoliteResumes(s, id);
  }

  /** The coroutine is resumed, leaves `bytes` on its stack and yields. */
  method Turn(sys: System, id: int, bytes: seq<Byte>, ghost p: Picture) returns (ghost q: Picture)
    requires sys.Shows(p) && Polite(p.s) && id in p.s.cos
    requires p.s.cos[id].stk in p.s.stacks && |bytes| <= p.s.stacks[p.s.cos[id].stk].limit - 8
    modifies sys`running, sys.cos.Values, sys.stacks.Values
    modifies set i | i in p.saves :: p.saves[i]
    modifies set k | k in sys.stacks :: sys.stacks[k].mem
    ensures sys.Shows(q) && Turned(p.s, id, bytes, q.s) && sys.cos == old(sys.cos) && sys.stacks == old(sys.stacks)
    ensures forall i :: i in q.saves ==> i in p.saves && (q.saves[i] == p.saves[i] || fresh(q.saves[i]))
  {
    RoomLeft(p.s, id, bytes);
    var ok;
    ok, q := sys.Resume(id, true, true, p);
    ghost var t := q.s;
    ghost var mem, sp;
    q, mem, sp := Leave(sys, id, bytes, q);
    TurnIs(p.s, id, bytes, t, mem, sp);
  }

  /** The running coroutine writes `bytes` next to the protector word and yields. */
  method Leave(sys: System, id: int, bytes: seq<Byte>, ghost r: Picture)
    returns (ghost q: Picture, mem: seq<Byte>, sp: int)
    requires sys.Shows(r) && r.s.running == Some(id) && id in r.s.cos && r.s.cos[id].stk in r.s.stacks
    requires |bytes| <= r.s.stacks[r.s.cos[id].stk].limit - 8
    modifies sys`running, sys.cos.Values, sys.stacks.Values
    modifies set k | k in sys.stacks :: sys.stacks[k].mem
    ensures Allowed(r.s, Yield(mem, sp)) && Left(r.s, id, bytes, mem, sp)
    ensures sys.Shows(q) && Some(q.s) == Step(r.s, Yield(mem, sp)) && q.saves == r.saves
    ensures sys.cos == old(sys.cos) && sys.stacks == old(sys.stacks)
  {
    mem, sp := Written(sys, id, bytes, r);
    q := sys.Stop(mem, sp, false, r);
  }

  method Written(sys: System, id: int, bytes: seq<Byte>, ghost r: Picture) returns (mem: seq<Byte>, sp: int)
    requires sys.Shows(r) && r.s.running == Some(id) && id in r.s.cos && r.s.cos[id].stk in r.s.stacks
    requires |bytes| <= r.s.stacks[r.s.cos[id].stk].limit - 8
    ensures Allowed(r.s, Yield(mem, sp)) && Left(r.s, id, bytes, mem, sp)
  {
    var share := sys.cos[id].share;
    assert CoOk(r.s, id) && OwnerOk(r.s, r.s.cos[id].stk);
    assert share.Val() == r.s.stacks[r.s.cos[id].stk];
    sp := share.ret - |bytes|;
    mem := share.mem[..sp] + bytes + share.mem[share.ret..];
  }

  /** `id` runs, and the bytes from its stack pointer to the protector word are `bytes`. */
  ghost predicate Sees(t: Sys, id: int, bytes: seq<Byte>) {
    && t.running == Some(id) && id in t.cos && t.cos[id].stk in t.stacks && !t.cos[id].ended
    && var k := t.stacks[t.cos[id].stk];
       0 <= t.cos[id].sp <= k.ret <= |k.mem| && View(k, t.cos[id].sp) == bytes
  }

  /** The private stack of `id` holds `bytes`. */
  ghost predicate Holds(s: Sys, id: int, bytes: seq<Byte>) {
    Inv(s) && id in s.cos && Abs(s).frames[id].bytes == bytes
  }

  lemma ResumedLooks(s: Sys, id: int, bytes: seq<Byte>) returns (t: Sys)
    requires Polite(s) && Holds(s, id, bytes)
    ensures Allowed(s, Resume(id)) && Step(s, Resume(id)) == Some(t) && Sees(t, id, bytes)
  {
    PoliteResumes(s, id);
    ResumedSees(s, id);
    NobodyRejected(s, id);
    t := Step(s, Resume(id)).value;
  }

  /** The coroutine is resumed and looks at its stack. */
  method See(sys: System, id: int, ghost bytes: seq<Byte>, ghost p: Picture)
    returns (seen: seq<Byte>, ghost q: Picture)
    requires sys.Shows(p) && Polite(p.s) && Holds(p.s, id, bytes)
    modifies sys`running, sys.cos.Values, sys.stacks.Values
    modifies set i | i in p.saves :: p.saves[i]
    modifies set k | k in sys.stacks :: sys.stacks[k].mem
    ensures seen == bytes && sys.Shows(q)
  {
    ghost var t := ResumedLooks(p.s, id, bytes);
    var ok;
    ok, q := sys.Resume(id, true, true, p);
    seen := Look(sys, id, bytes, q);
  }

  method Look(sys: System, id: int, ghost bytes: seq<Byte>, ghost q: Picture) returns (seen: seq<Byte>)
    requires sys.Shows(q) && Sees(q.s, id, bytes)
    ensures seen == bytes && sys.Shows(q)
  {
    var c := sys.cos[id];
    assert c.Val() == q.s.cos[id] && c.share.Val() == q.s.stacks[c.share.key];
    seen := c.share.mem[c.sp..c.share.ret];
  }

  /** The coroutines `ids`, all on one stack of the default size. */
  ghost predicate OnOneStack(s: Sys, ids: set<int>) {
    && Polite(s) && s.cos.Keys == ids && (forall i :: i in s.cos ==> s.cos[i].stk == 0)
    && 0 in s.stacks && s.stacks[0].limit == 0x20_0000 - 32
  }

  lemma OneStack(k: Stack)
    requires StackOk(k) && k.owner.None? && k.limit == 0x20_0000 - 32
    ensures var s := Sys(map[], map[], None);
      Inv(s) && Allowed(s, NewStack(0, k)) && OnOneStack(Step(s, NewStack(0, k)).value, {})
  {
  }

  lemma OneMore(s: Sys, ids: set<int>, id: int)
    requires OnOneStack(s, ids) && id !in ids
    ensures Allowed(s, Create(id, 0, 0)) && OnOneStack(Step(s, Create(id, 0, 0)).value, ids + {id})
  {
    assert OwnerOk(s, 0);
    StepKeepsInv(s, Create(id, 0, 0));
    var z := Step(s, Create(id, 0, 0)).value;
    forall i | i in z.cos ensures Stopped(z, i) {
      if i in s.cos { assert Stopped(s, i); }
    }
  }

  lemma StillOnOneStack(s: Sys, ids: set<int>, id: int, bytes: seq<Byte>, z: Sys)
    requires OnOneStack(s, ids) && Turned(s, id, bytes, z)
    ensures OnOneStack(z, ids) && Holds(z, id, bytes)
  {
  }

  lemma StillHeld(s: Sys, i: int, held: seq<Byte>, id: int, bytes: seq<Byte>, z: Sys)
    requires Holds(s, i, held) && Turned(s, id, bytes, z) && i != id
    ensures Holds(z, i, held)
  {
  }

  /** A stack, and a coroutine on it. */
  method One() returns (sys: System, ghost p: Picture)
    ensures fresh(sys) && sys.Shows(p)
    ensures fresh(sys.cos.Values)
    ensures fresh(sys.stacks.Values)
    ensures forall i :: i in p.saves ==> fresh(p.saves[i])
    ensures forall k :: k in sys.stacks ==> fresh(sys.stacks[k].mem)
    ensures OnOneStack(p.s, {1})
  {
    sys, p := Empty();
    p := Join(sys, {}, 1, {1}, p);
  }

  method Join(sys: System, ghost ids: set<int>, id: int, ghost all: set<int>, ghost p: Picture)
    returns (ghost q: Picture)
    requires sys.Shows(p) && OnOneStack(p.s, ids) && id !in ids && all == ids + {id}
    modifies sys`cos
    ensures sys.Shows(q) && OnOneStack(q.s, all) && sys.stacks == old(sys.stacks)
    ensures forall c :: c in sys.cos.Values ==> c in old(sys.cos.Values) || fresh(c)
    ensures forall i :: i in q.saves ==> (i in p.saves && q.saves[i] == p.saves[i]) || fresh(q.saves[i])
  {
    OneMore(p.s, ids, id);
    q := sys.Create(id, 0, 0, p);
  }

  method Empty() returns (sys: System, ghost p: Picture)
    ensures fresh(sys) && sys.cos == map[] && sys.Shows(p) && p.saves == map[]
    ensures fresh(sys.stacks.Values)
    ensures forall k :: k in sys.stacks ==> fresh(sys.stacks[k].mem)
    ensures OnOneStack(p.s, {})
  {
    sys := new System();
    p := Picture(Sys(map[], map[], None), map[], map[]);
    var share := DefaultShareStack(0);
    OneStack(share.Val());
    p := sys.Add(share, p);
  }

  /** Turns of others than `i`, each leaving what fits on its stack. */
  ghost predicate OthersTurns(s: Sys, i: int, turns: seq<(int, seq<Byte>)>) {
    forall n :: 0 <= n < |turns| ==> CanTurn(s, i, turns[n].0, turns[n].1)
  }

  ghost predicate CanTurn(s: Sys, i: int, id: int, bytes: seq<Byte>) {
    id != i && id in s.cos && s.cos[id].stk in s.stacks && |bytes| <= s.stacks[s.cos[id].stk].limit - 8
  }

  lemma RestOfTurns(s: Sys, i: int, turns: seq<(int, seq<Byte>)>, z: Sys)
    requires |turns| > 0 && OthersTurns(s, i, turns) && SameShape(s, z)
    ensures OthersTurns(z, i, turns[1..])
  {
    forall n | 0 <= n < |turns[1..]| ensures CanTurn(z, i, turns[1..][n].0, turns[1..][n].1) {
      assert CanTurn(s, i, turns[n + 1].0, turns[n + 1].1);
    }
  }

  /** Whoever uses the stacks in between, and however often: coroutine `i` finds its bytes again. */
  method FindAgain(sys: System, i: int, ghost held: seq<Byte>, turns: seq<(int, seq<Byte>)>, ghost p: Picture)
    returns (seen: seq<Byte>, ghost q: Picture)
    requires sys.Shows(p) && Polite(p.s) && Holds(p.s, i, held) && OthersTurns(p.s, i, turns)
    modifies sys`running, sys.cos.Values, sys.stacks.Values
    modifies set i | i in p.saves :: p.saves[i]
    modifies set k | k in sys.stacks :: sys.stacks[k].mem
    ensures seen == held && sys.Shows(q)
    decreases |turns|
  {
    if turns == [] {
      seen, q := See(sys, i, held, p);
    } else {
      assert CanTurn(p.s, i, turns[0].0, turns[0].1);
      q := Turn(sys, turns[0].0, turns[0].1, p);
      StillHeld(p.s, i, held, turns[0].0, turns[0].1, q.s);
      RestOfTurns(p.s, i, turns, q.s);
      seen, q := FindAgain(sys, i, held, turns[1..], q);
    }
  }

  method TurnOnOne(sys: System, ghost ids: set<int>, id: int, bytes: seq<Byte>, ghost p: Picture)
    returns (ghost q: Picture)
    requires sys.Shows(p) && OnOneStack(p.s, ids) && id in ids && |bytes| <= 0x20_0000 - 40
    modifies sys`running, sys.cos.Values, sys.stacks.Values
    modifies set i | i in p.saves :: p.saves[i]
    modifies set k | k in sys.stacks :: sys.stacks[k].mem
    ensures sys.Shows(q) && OnOneStack(q.s, ids) && Holds(q.s, id, bytes)
    ensures sys.cos == old(sys.cos) && sys.stacks == old(sys.stacks)
    ensures forall i :: i in q.saves ==> i in p.saves && (q.saves[i] == p.saves[i] || fresh(q.saves[i]))
  {
    q := Turn(sys, id, bytes, p);
    StillOnOneStack(p.s, ids, id, bytes, q.s);
  }

  lemma OneOther(s: Sys, ids: set<int>, i: int, id: int, bytes: seq<Byte>)
    requires OnOneStack(s, ids) && i in ids && id in ids && i != id && |bytes| <= 0x20_0000 - 40
    ensures OthersTurns(s, i, [(id, bytes)])
  {
    assert CanTurn(s, i, id, bytes);
  }

  /** The first coroutine leaves `one`, the second `two`, and the first looks again. */
  method TurnsOnOne(sys: System, one: seq<Byte>, two: seq<Byte>, ghost p: Picture)
    returns (seen: seq<Byte>, ghost q: Picture)
    requires sys.Shows(p) && OnOneStack(p.s, {1, 2})
    requires |one| <= 0x20_0000 - 40 && |two| <= 0x20_0000 - 40
    modifies sys`running, sys.cos.Values, sys.stacks.Values
    modifies set i | i in p.saves :: p.saves[i]
    modifies set k | k in sys.stacks :: sys.stacks[k].mem
    ensures seen == one && sys.Shows(q)
  {
    q := TurnOnOne(sys, {1, 2}, 1, one, p);
    OneOther(q.s, {1, 2}, 1, 2, two);
    seen, q := FindAgain(sys, 1, one, [(2, two)], q);
  }

  method JoinAndTurn(sys: System, one: seq<Byte>, two: seq<Byte>, ghost p: Picture)
    returns (seen: seq<Byte>, ghost q: Picture)
    requires sys.Shows(p) && OnOneStack(p.s, {1})
    requires |one| <= 0x20_0000 - 40 && |two| <= 0x20_0000 - 40
    modifies sys`running, sys`cos, sys.cos.Values, sys.stacks.Values
    modifies set i | i in p.saves :: p.saves[i]
    modifies set k | k in sys.stacks :: sys.stacks[k].mem
    ensures seen == one && sys.Shows(q)
  {
    q := Join(sys, {1}, 2, {1, 2}, p);
    seen, q := TurnsOnOne(sys, one, two, q);
  }

  /** Two coroutines on one stack, resumed in turn: the first finds its bytes as it left them. */
  method TakeTurns(one: seq<Byte>, two: seq<Byte>) returns (seen: seq<Byte>)
    requires |one| <= 0x20_0000 - 40 && |two| <= 0x20_0000 - 40
    ensures seen == one
  {
    var sys; ghost var p;
    sys, p := One();
    seen, p := JoinAndTurn(sys, one, two, p);
  }
}
