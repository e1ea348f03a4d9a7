/** Coroutines on shared stacks (libaco/aco.c, libaco/aco.h): the copying implementation as a
    machine over values, and the proof that it behaves as if every coroutine had a private stack.

    `acosw` is the step "store the leaver's stack pointer, give control to the other side". While a
    coroutine runs it may write anything below `align_retptr` of its share stack. */
module AcoMachine {
  import opened Common
  import opened AcoLayout

  // ---------- The implementation ----------

  /** A share stack. Positions are offsets from its first byte; `ret` is where the protector word is. */
  datatype Stack = Stack(mem: seq<Byte>, ret: nat, limit: nat, owner: Option<int>, validsz: nat)

  /** A coroutine: `saved` is the valid part of its save buffer, `cap` the buffer's size. */
  datatype Co = Co(stk: int, sp: int, ended: bool, saved: seq<Byte>, cap: nat,
                   maxCopy: nat, saves: nat, restores: nat)

  datatype Sys = Sys(cos: map<int, Co>, stacks: map<int, Stack>, running: Option<int>)

  /** A laid-out stack, in offsets. */
  ghost predicate StackOk(k: Stack) {
    && k.limit + 32 == |k.mem| && k.limit > 8
    && |k.mem| - 40 < k.ret <= |k.mem| - 24
    && |k.mem| < WORD
  }

  /** Offsets from the layout of `ShareStackNew2`. */
  lemma LayoutIsOk(l: Layout, k: Stack)
    requires Placed(l) && l.sz >= MIN_STACK
    requires k.ret == l.ret - l.ptr && k.limit == l.limit && |k.mem| == l.sz < WORD
    ensures StackOk(k)
    ensures forall sp: int :: SpAccepted(l, l.ptr + sp) <==> Accepts(k, sp)
  {
  }

  /** The eviction assertion. */
  predicate Accepts(k: Stack, sp: int) {
    k.ret >= sp && k.ret + 8 - k.limit <= sp
  }

  /** What a coroutine's stack pointer and the bytes above it amount to. */
  function View(k: Stack, sp: int): (r: seq<Byte>)
    requires 0 <= sp <= k.ret <= |k.mem|
    ensures |r| == k.ret - sp
  {
    k.mem[sp..k.ret]
  }

  /** Eviction: the owner's bytes go to its save buffer. */
  function Evict(k: Stack, o: Co): (r: Option<(Stack, Co)>)
    requires StackOk(k) && 0 < o.cap < WORD
  {
    if !Accepts(k, o.sp) then None else
    var valid := k.ret - o.sp;
    var cap := Grown(o.cap, valid);
    if cap.None? then None else
    var c := o.(saved := View(k, o.sp), cap := cap.value,
                saves := if valid > 0 then o.saves + 1 else o.saves,
                maxCopy := if valid > o.maxCopy then valid else o.maxCopy);
    Some((k.(owner := None, validsz := 0), c))
  }

  /** Restore: the saved bytes go back below the protector word. */
  function Restore(k: Stack, id: int, c: Co): (r: Option<(Stack, Co)>)
    requires StackOk(k)
  {
    var valid := |c.saved|;
    if valid > k.limit - 8 then None else
    Some((k.(mem := k.mem[..k.ret - valid] + c.saved + k.mem[k.ret..], owner := Some(id), validsz := valid + 8),
          c.(restores := if valid > 0 then c.restores + 1 else c.restores,
             maxCopy := if valid > c.maxCopy then valid else c.maxCopy)))
  }

  datatype Action =
    | NewStack(k: int, stack: Stack)
    | Create(id: int, stk: int, saveSize: nat)
    | Resume(id: int)
    | Yield(mem: seq<Byte>, sp: int)   // what the running coroutine wrote, and where it stopped
    | Exit(mem: seq<Byte>, sp: int)
    | Destroy(id: int)

  /** What the main coroutine and the running coroutine may do. */
  ghost predicate Allowed(s: Sys, a: Action) {
    match a
    case NewStack(k, stack) => s.running.None? && k !in s.stacks && StackOk(stack) && stack.owner.None?
    case Create(id, stk, size) => s.running.None? && id !in s.cos && stk in s.stacks && size < WORD
    case Resume(id) => s.running.None? && id in s.cos
    case Yield(mem, sp) => Writes(s, mem, sp)
    case Exit(mem, sp) => Writes(s, mem, sp)
    case Destroy(id) => s.running.None? && id in s.cos
  }

  /** The running coroutine wrote below `align_retptr` only, and its stack pointer is in its stack. */
  ghost predicate Writes(s: Sys, mem: seq<Byte>, sp: int) {
    && s.running.Some? && s.running.value in s.cos && s.cos[s.running.value].stk in s.stacks
    && var k := s.stacks[s.cos[s.running.value].stk];
       |mem| == |k.mem| && k.ret <= |mem| && mem[k.ret..] == k.mem[k.ret..] && 0 <= sp <= k.ret
  }

  /** The first half of `aco_resume`: the owner, if it is another coroutine, is evicted. */
  ghost function EvictOwner(s: Sys, id: int): Option<Sys>
    requires Inv(s) && id in s.cos && s.running.None?
  {
    var k := s.stacks[s.cos[id].stk];
    if k.owner.None? || k.owner == Some(id) then Some(s) else
    assert CoOk(s, k.owner.value) && OwnerOk(s, s.cos[id].stk);
    var r := Evict(k, s.cos[k.owner.value]);
    if r.None? then None else
    Some(s.(cos := s.cos[k.owner.value := r.value.1], stacks := s.stacks[s.cos[id].stk := r.value.0]))
  }

  /** The second half, up to the switch. */
  ghost function TakeStack(s: Sys, id: int): Option<Sys>
    requires Inv(s) && id in s.cos && s.running.None?
  {
    var c := s.cos[id];
    var k := s.stacks[c.stk];
    if k.owner == Some(id) then Some(s.(running := Some(id))) else
    var r := Restore(k, id, c);
    if r.None? then None else
    Some(Sys(s.cos[id := r.value.1], s.stacks[c.stk := r.value.0], Some(id)))
  }

  /** `aco_resume` up to the switch; None is a failed assertion (abort). */
  ghost function ResumeStep(s: Sys, id: int): Option<Sys>
    requires Inv(s) && id in s.cos && s.running.None?
  {
    if s.cos[id].ended then None else
    var e := EvictOwner(s, id);
    if e.None? then None else
    EvictKeepsInv(s, id);
    TakeStack(e.value, id)
  }

  lemma EvictKeepsInv(s: Sys, id: int)
    requires Inv(s) && id in s.cos && s.running.None? && EvictOwner(s, id).Some?
    ensures var e := EvictOwner(s, id).value;
      && Inv(e) && e.running.None? && e.cos.Keys == s.cos.Keys && e.cos[id].stk == s.cos[id].stk
      && e.cos[id].ended == s.cos[id].ended
      && var o := e.stacks[s.cos[id].stk].owner; o.None? || o == Some(id)
  {
  }

  lemma TakeKeepsInv(s: Sys, id: int)
    requires Inv(s) && id in s.cos && s.running.None? && TakeStack(s, id).Some? && !s.cos[id].ended
    requires var o := s.stacks[s.cos[id].stk].owner; o.None? || o == Some(id)
    ensures Inv(TakeStack(s, id).value)
  {
  }

  ghost function Step(s: Sys, a: Action): Option<Sys>
    requires Inv(s) && Allowed(s, a)
  {
    match a
    case NewStack(k, stack) => Some(s.(stacks := s.stacks[k := stack]))
    case Create(id, stk, size) =>
      Some(s.(cos := s.cos[id := Co(stk, s.stacks[stk].ret, false, [], if size == 0 then 64 else size, 0, 0, 0)]))
    case Resume(id) => ResumeStep(s, id)
    case Yield(mem, sp) =>
      var id := s.running.value;
      var c := s.cos[id];
      Some(Sys(s.cos[id := c.(sp := sp)], s.stacks[c.stk := s.stacks[c.stk].(mem := mem)], None))
    case Exit(mem, sp) =>
      // is_end, the ownership assertion, owner and align_validsz, then the switch
      var id := s.running.value;
      var c := s.cos[id];
      var k := s.stacks[c.stk].(mem := mem);
      if k.owner != Some(id) then None else
      Some(Sys(s.cos[id := c.(sp := sp, ended := true)], s.stacks[c.stk := k.(owner := None, validsz := 0)], None))
    case Destroy(id) =>
      var c := s.cos[id];
      var k := s.stacks[c.stk];
      Some(s.(cos := s.cos - {id},
              stacks := if k.owner == Some(id) then s.stacks[c.stk := k.(owner := None, validsz := 0)] else s.stacks))
  }

  // ---------- The invariant ----------

  ghost predicate CoOk(s: Sys, id: int)
    requires id in s.cos
  {
    var c := s.cos[id];
    && c.stk in s.stacks && 0 < c.cap < WORD
    && (!c.ended ==> 0 <= c.sp <= s.stacks[c.stk].ret)
    && (!c.ended && s.stacks[c.stk].owner != Some(id) ==>
          |c.saved| == s.stacks[c.stk].ret - c.sp && |c.saved| <= s.stacks[c.stk].limit - 8)
    && (c.ended ==> s.stacks[c.stk].owner != Some(id))
  }

  ghost predicate OwnerOk(s: Sys, k: int)
    requires k in s.stacks
  {
    var o := s.stacks[k].owner;
    StackOk(s.stacks[k]) && (o.Some? ==> o.value in s.cos && s.cos[o.value].stk == k)
  }

  ghost predicate Inv(s: Sys) {
    && (forall id :: id in s.cos ==> CoOk(s, id))
    && (forall k :: k in s.stacks ==> OwnerOk(s, k))
    && (s.running.Some? ==>
          && s.running.value in s.cos && !s.cos[s.running.value].ended
          && s.cos[s.running.value].stk in s.stacks
          && s.stacks[s.cos[s.running.value].stk].owner == s.running)
  }

  lemma TableKeepsInv(s: Sys, a: Action)
    requires Inv(s) && Allowed(s, a) && (a.NewStack? || a.Create? || a.Destroy?)
    ensures Inv(Step(s, a).value)
  {
    var z := Step(s, a).value;
    forall id | id in z.cos ensures CoOk(z, id) {
      if id in s.cos { assert CoOk(s, id); }
    }
    forall k | k in z.stacks ensures OwnerOk(z, k) {
      if k in s.stacks { assert OwnerOk(s, k); }
    }
  }

  lemma SwitchKeepsInv(s: Sys, a: Action)
    requires Inv(s) && Allowed(s, a) && (a.Yield? || a.Exit?) && Step(s, a).Some?
    ensures Inv(Step(s, a).value)
  {
    var z := Step(s, a).value;
    forall id | id in z.cos ensures CoOk(z, id) { assert CoOk(s, id); }
    forall k | k in z.stacks ensures OwnerOk(z, k) { assert OwnerOk(s, k); }
  }

  /** Every step keeps the invariant. */
  lemma StepKeepsInv(s: Sys, a: Action)
    requires Inv(s) && Allowed(s, a) && Step(s, a).Some?
    ensures Inv(Step(s, a).value)
  {
    if a.Resume? {
      EvictKeepsInv(s, a.id);
      TakeKeepsInv(EvictOwner(s, a.id).value, a.id);
    } else if a.Yield? || a.Exit? {
      SwitchKeepsInv(s, a);
    } else {
      TableKeepsInv(s, a);
    }
  }

  // ---------- One private stack each ----------

  /** The specification: every coroutine has a stack of its own, of which only the stack pointer and
      the bytes above it matter. */
  datatype Private = Private(sp: int, bytes: seq<Byte>, ended: bool)

  datatype Spec = Spec(frames: map<int, Private>, running: Option<int>)

  datatype SpecAction =
    | SpecNothing
    | SpecCreate(id: int, sp: int)
    | SpecResume(id: int)
    | SpecYield(sp: int, bytes: seq<Byte>)
    | SpecExit
    | SpecDestroy(id: int)

  function SpecStep(p: Spec, a: SpecAction): Spec {
    match a
    case SpecNothing => p
    case SpecCreate(id, sp) => p.(frames := p.frames[id := Private(sp, [], false)])
    case SpecResume(id) => p.(running := Some(id))
    case SpecYield(sp, bytes) =>
      if p.running.None? then p else Spec(p.frames[p.running.value := Private(sp, bytes, false)], None)
    case SpecExit =>
      if p.running.None? then p else Spec(p.frames[p.running.value := Private(0, [], true)], None)
    case SpecDestroy(id) => p.(frames := p.frames - {id})
  }

  ghost function Frame(s: Sys, id: int): Private
    requires Inv(s) && id in s.cos
  {
    assert CoOk(s, id) && OwnerOk(s, s.cos[id].stk);
    var c := s.cos[id];
    if c.ended then Private(0, [], true)
    else Private(c.sp, if s.stacks[c.stk].owner == Some(id) then View(s.stacks[c.stk], c.sp) else c.saved, false)
  }

  ghost function Abs(s: Sys): Spec
    requires Inv(s)
  {
    Spec(map id | id in s.cos :: Frame(s, id), s.running)
  }

  ghost function AbsAction(s: Sys, a: Action): SpecAction
    requires Inv(s) && Allowed(s, a)
  {
    match a
    case NewStack(_, _) => SpecNothing
    case Create(id, stk, _) => SpecCreate(id, s.stacks[stk].ret)
    case Resume(id) => SpecResume(id)
    case Yield(mem, sp) => SpecYield(sp, mem[sp..s.stacks[s.cos[s.running.value].stk].ret])
    case Exit(_, _) => SpecExit
    case Destroy(id) => SpecDestroy(id)
  }

  lemma SameMap<T>(a: map<int, T>, b: map<int, T>)
    requires a.Keys == b.Keys
    requires forall id :: id in a ==> a[id] == b[id]
    ensures a == b
  {
    assert forall id :: id in a.Keys ==> a[id] == b[id];
  }

  lemma SameSpec(p: Spec, q: Spec)
    requires p.running == q.running && p.frames.Keys == q.frames.Keys
    requires forall id :: id in p.frames ==> p.frames[id] == q.frames[id]
    ensures p == q
  {
    SameMap(p.frames, q.frames);
  }

  /** Evicting moves the owner's bytes without changing what anyone's private stack holds. */
  lemma EvictRefines(s: Sys, id: int)
    requires Inv(s) && id in s.cos && s.running.None? && EvictOwner(s, id).Some?
    ensures Inv(EvictOwner(s, id).value)
    ensures Abs(EvictOwner(s, id).value) == Abs(s)
  {
    EvictKeepsInv(s, id);
    var e := EvictOwner(s, id).value;
    forall i | i in s.cos ensures Frame(e, i) == Frame(s, i) {
      assert CoOk(s, i) && OwnerOk(s, s.cos[i].stk);
    }
    SameSpec(Abs(e), Abs(s));
  }

  /** Restoring puts back exactly the bytes that were saved. */
  lemma TakeRefines(s: Sys, id: int)
    requires Inv(s) && id in s.cos && s.running.None? && TakeStack(s, id).Some? && !s.cos[id].ended
    requires var o := s.stacks[s.cos[id].stk].owner; o.None? || o == Some(id)
    ensures Inv(TakeStack(s, id).value)
    ensures Abs(TakeStack(s, id).value) == SpecStep(Abs(s), SpecResume(id))
    ensures TakeStack(s, id).value.stacks[s.cos[id].stk].owner == Some(id)
  {
    TakeKeepsInv(s, id);
    var z := TakeStack(s, id).value;
    forall i | i in s.cos ensures Frame(z, i) == Frame(s, i) {
      assert CoOk(s, i) && OwnerOk(s, s.cos[i].stk);
      if i == id && s.stacks[s.cos[id].stk].owner.None? {
        var c, k := s.cos[id], z.stacks[s.cos[id].stk];
        assert View(k, c.sp) == c.saved;
      }
    }
    SameSpec(Abs(z), SpecStep(Abs(s), SpecResume(id)));
  }

  lemma SwitchRefines(s: Sys, a: Action)
    requires Inv(s) && Allowed(s, a) && (a.Yield? || a.Exit?) && Step(s, a).Some?
    ensures Inv(Step(s, a).value)
    ensures Abs(Step(s, a).value) == SpecStep(Abs(s), AbsAction(s, a))
  {
    StepKeepsInv(s, a);
    var z := Step(s, a).value;
    var p := SpecStep(Abs(s), AbsAction(s, a));
    assert z.cos.Keys == p.frames.Keys;
    forall i | i in z.cos ensures Frame(z, i) == p.frames[i] {
      assert CoOk(z, i) && OwnerOk(z, z.cos[i].stk);
      assert CoOk(s, i) && OwnerOk(s, s.cos[i].stk);
    }
    SameSpec(Abs(z), p);
  }

  lemma TableRefines(s: Sys, a: Action)
    requires Inv(s) && Allowed(s, a) && (a.NewStack? || a.Create? || a.Destroy?)
    ensures Inv(Step(s, a).value)
    ensures Abs(Step(s, a).value) == SpecStep(Abs(s), AbsAction(s, a))
  {
    TableKeepsInv(s, a);
    var z := Step(s, a).value;
    var p := SpecStep(Abs(s), AbsAction(s, a));
    assert z.cos.Keys == p.frames.Keys;
    forall i | i in z.cos ensures Frame(z, i) == p.frames[i] {
      if i in s.cos {
        OldFrame(s, a, i);
      } else {
        assert CoOk(z, i) && OwnerOk(z, z.cos[i].stk);
      }
    }
    SameSpec(Abs(z), p);
  }

  lemma OldFrame(s: Sys, a: Action, i: int)
    requires Inv(s) && Allowed(s, a) && (a.NewStack? || a.Create? || a.Destroy?)
    requires Inv(Step(s, a).value) && i in s.cos && i in Step(s, a).value.cos
    ensures Frame(Step(s, a).value, i) == Frame(s, i)
  {
    assert CoOk(s, i) && OwnerOk(s, s.cos[i].stk);
  }

  /** The copying implementation does what private stacks would. */
  lemma StepRefines(s: Sys, a: Action)
    requires Inv(s) && Allowed(s, a) && Step(s, a).Some?
    ensures Inv(Step(s, a).value)
    ensures Abs(Step(s, a).value) == SpecStep(Abs(s), AbsAction(s, a))
  {
    if a.Resume? {
      EvictRefines(s, a.id);
      EvictKeepsInv(s, a.id);
      TakeRefines(EvictOwner(s, a.id).value, a.id);
    } else if a.Yield? || a.Exit? {
      SwitchRefines(s, a);
    } else {
      TableRefines(s, a);
    }
  }

  /** A resumed coroutine sees the stack pointer and exactly the bytes its private stack holds. */
  lemma ResumedSees(s: Sys, id: int)
    requires Inv(s) && Allowed(s, Resume(id)) && Step(s, Resume(id)).Some?
    ensures var z := Step(s, Resume(id)).value;
      && id in z.cos && z.cos[id].stk in z.stacks && z.cos[id].sp == Abs(s).frames[id].sp
      && 0 <= z.cos[id].sp <= z.stacks[z.cos[id].stk].ret <= |z.stacks[z.cos[id].stk].mem|
      && View(z.stacks[z.cos[id].stk], z.cos[id].sp) == Abs(s).frames[id].bytes
  {
    StepRefines(s, Resume(id));
    var z := Step(s, Resume(id)).value;
    assert CoOk(z, id) && OwnerOk(z, z.cos[id].stk);
    assert Frame(z, id) == Abs(z).frames[id] == Abs(s).frames[id] == Frame(s, id);
  }

  /** The owner in the way of `id` stopped with more on its stack than a restore would take. */
  ghost predicate OwnerRejected(s: Sys, id: int)
    requires Inv(s) && id in s.cos
  {
    assert CoOk(s, id) && OwnerOk(s, s.cos[id].stk);
    var k := s.stacks[s.cos[id].stk];
    k.owner.Some? && k.owner != Some(id) && k.ret - s.cos[k.owner.value].sp > k.limit - 8
  }

  lemma RejectedBelow(s: Sys, o: int)
    requires Inv(s) && o in s.cos && !s.cos[o].ended
    ensures s.cos[o].stk in s.stacks
    ensures var k := s.stacks[s.cos[o].stk]; Accepts(k, s.cos[o].sp) <==> k.ret - s.cos[o].sp <= k.limit - 8
  {
    assert CoOk(s, o);
  }

  /** The owner in the way of `id` has more to save than its buffer can be doubled to. */
  ghost predicate OwnerTooLong(s: Sys, id: int)
    requires Inv(s) && id in s.cos
  {
    assert CoOk(s, id) && OwnerOk(s, s.cos[id].stk);
    var k := s.stacks[s.cos[id].stk];
    k.owner.Some? && k.owner != Some(id)
    && (assert CoOk(s, k.owner.value); Grown(s.cos[k.owner.value].cap, k.ret - s.cos[k.owner.value].sp).None?)
  }

  /** That takes more than half the address space. */
  lemma TooLongIsHuge(s: Sys, id: int)
    requires Inv(s) && id in s.cos && OwnerTooLong(s, id)
    ensures s.stacks[s.cos[id].stk].ret > WORD / 2
  {
    var k := s.stacks[s.cos[id].stk];
    assert CoOk(s, id) && OwnerOk(s, s.cos[id].stk) && CoOk(s, k.owner.value);
    var c := s.cos[k.owner.value];
    if k.ret - c.sp <= WORD / 2 { GrownSmall(c.cap, k.ret - c.sp); }
  }

  /** A step aborts in exactly three cases, all in `aco_resume`: the coroutine has ended, or the
      owner to be evicted stopped with its stack pointer outside the accepted range, or its bytes are
      more than its buffer can grow to. The restore's size assertion and the ownership assertion of
      `aco_exit1` never fail. */
  lemma AbortsExactly(s: Sys, a: Action)
    requires Inv(s) && Allowed(s, a)
    ensures Step(s, a).None? <==> (a.Resume? && (s.cos[a.id].ended || OwnerRejected(s, a.id) || OwnerTooLong(s, a.id)))
  {
    if a.Resume? {
      var k := s.stacks[s.cos[a.id].stk];
      assert CoOk(s, a.id) && OwnerOk(s, s.cos[a.id].stk);
      if k.owner.Some? && k.owner != Some(a.id) { RejectedBelow(s, k.owner.value); }
    }
  }

  // ---------- Runs ----------

  /** A run: states, and the actions between them. */
  ghost predicate IsRun(states: seq<Sys>, acts: seq<Action>) {
    && |states| == |acts| + 1
    && states[0] == Sys(map[], map[], None)
    && (forall i :: 0 <= i < |states| ==> Inv(states[i]))
    && forall i :: 0 <= i < |acts| ==> Follows(states, acts, i)
  }

  ghost predicate Follows(states: seq<Sys>, acts: seq<Action>, i: int)
    requires 0 <= i < |acts| && i + 1 < |states| && Inv(states[i])
  {
    Allowed(states[i], acts[i]) && Step(states[i], acts[i]) == Some(states[i + 1])
  }

  /** Asking the invariant of the states of a run asks nothing: it always holds. */
  lemma {:induction false} RunsAreWellKept(states: seq<Sys>, acts: seq<Action>, a: Action)
    requires IsRun(states, acts) && Allowed(states[|acts|], a) && Step(states[|acts|], a).Some?
    ensures IsRun(states + [Step(states[|acts|], a).value], acts + [a])
  {
    StepKeepsInv(states[|acts|], a);
    var more, all := states + [Step(states[|acts|], a).value], acts + [a];
    forall i | 0 <= i < |all| ensures Follows(more, all, i) {
      assert i < |acts| ==> Follows(states, acts, i);
    }
  }

  /** Whether action `i` of a run leaves the private stack of `id` alone. */
  ghost predicate Leaves(states: seq<Sys>, acts: seq<Action>, i: nat, id: int)
    requires IsRun(states, acts) && i < |acts|
  {
    match acts[i]
    case Create(j, _, _) => j != id
    case Destroy(j) => j != id
    case Yield(_, _) => states[i].running != Some(id)
    case Exit(_, _) => states[i].running != Some(id)
    case _ => true
  }

  lemma {:induction false} Undisturbed(states: seq<Sys>, acts: seq<Action>, i: nat, j: nat, id: int)
    requires IsRun(states, acts) && i <= j <= |acts| && id in states[i].cos
    requires forall k: nat :: i <= k < j ==> Leaves(states, acts, k, id)
    ensures id in states[j].cos && Frame(states[j], id) == Frame(states[i], id)
    decreases j - i
  {
    if i < j {
      Undisturbed(states, acts, i, j - 1, id);
      assert Leaves(states, acts, j - 1, id) && Follows(states, acts, j - 1);
      LeavesFrame(states[j - 1], acts[j - 1], id);
    }
  }

  lemma LeavesFrame(s: Sys, a: Action, id: int)
    requires Inv(s) && Allowed(s, a) && Step(s, a).Some? && id in s.cos
    requires (a.Create? || a.Destroy?) ==> a.id != id
    requires (a.Yield? || a.Exit?) ==> s.running != Some(id)
    ensures var z := Step(s, a).value;
      Inv(z) && id in z.cos && Frame(z, id) == Frame(s, id)
  {
    StepRefines(s, a);
    var z := Step(s, a).value;
    assert id in Abs(z).frames && Abs(z).frames[id] == Abs(s).frames[id];
    assert Abs(z).frames[id] == Frame(z, id);
  }

  /** In every run, whatever the other coroutines did in between on the same stack: a resumed
      coroutine sees exactly the bytes, at the same place, that it had when it last yielded. */
  lemma SeesLastYield(states: seq<Sys>, acts: seq<Action>, i: nat, j: nat, id: int)
    requires IsRun(states, acts) && i < j < |acts|
    requires acts[i].Yield? && states[i].running == Some(id)
    requires acts[j] == Resume(id)
    requires forall k: nat :: i < k < j ==> Leaves(states, acts, k, id)
    ensures id in states[i].cos && states[i].cos[id].stk in states[i].stacks
    ensures id in states[j + 1].cos && states[j + 1].cos[id].stk in states[j + 1].stacks
    ensures var k, z := states[i].stacks[states[i].cos[id].stk], states[j + 1].stacks[states[j + 1].cos[id].stk];
      && 0 <= acts[i].sp <= k.ret <= |acts[i].mem| && states[j + 1].cos[id].sp == acts[i].sp
      && acts[i].sp <= z.ret <= |z.mem| && z.mem[acts[i].sp..z.ret] == acts[i].mem[acts[i].sp..k.ret]
  {
    assert Follows(states, acts, i) && Follows(states, acts, j);
    StepRefines(states[i], acts[i]);
    Undisturbed(states, acts, i + 1, j, id);
    ResumedSees(states[j], id);
    assert Abs(states[i + 1]).frames[id] == Frame(states[i + 1], id);
    assert Abs(states[j]).frames[id] == Frame(states[j], id);
  }
}
