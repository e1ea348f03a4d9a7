/** The counters that libaco keeps with each coroutine: what they count over whole runs. */
module AcoCounts {
  import opened Common
  import opened AcoLayout
  import opened AcoMachine

  function Larger(a: nat, b: nat): nat { if a > b then a else b }

  /** How many bytes the private stack of `id` holds. */
  ghost function Size(s: Sys, id: int): nat
    requires Inv(s) && id in s.cos
  {
    |Abs(s).frames[id].bytes|
  }

  /** A resume of `j` finds `id` in the way. */
  ghost predicate CopiesOut(s: Sys, j: int, id: int) {
    j in s.cos && j != id && s.cos[j].stk in s.stacks && s.stacks[s.cos[j].stk].owner == Some(id)
  }

  ghost predicate CopiesBack(s: Sys, id: int) {
    id in s.cos && s.cos[id].stk in s.stacks && s.stacks[s.cos[id].stk].owner != Some(id)
  }

  /** What one resume does to the counters of every coroutine. */
  lemma ResumeCounts(s: Sys, j: int, id: int)
    requires Inv(s) && Allowed(s, Resume(j)) && Step(s, Resume(j)).Some? && id in s.cos
    ensures id in Step(s, Resume(j)).value.cos
    ensures var c, d, n := s.cos[id], Step(s, Resume(j)).value.cos[id], Size(s, id);
      if CopiesOut(s, j, id) then
        d.saves == (if n > 0 then c.saves + 1 else c.saves) && d.restores == c.restores
        && d.maxCopy == Larger(c.maxCopy, n)
      else if j == id && CopiesBack(s, id) then
        d.restores == (if n > 0 then c.restores + 1 else c.restores) && d.saves == c.saves
        && d.maxCopy == Larger(c.maxCopy, n)
      else d == c
  {
    assert CoOk(s, id) && OwnerOk(s, s.cos[id].stk);
    assert CoOk(s, j) && OwnerOk(s, s.cos[j].stk);
    EvictKeepsInv(s, j);
  }

  /** The sizes copied for a coroutine since it was created, out and back. */
  datatype Copies = Copies(out: seq<nat>, back: seq<nat>)

  ghost function SizesCopied(states: seq<Sys>, acts: seq<Action>, n: nat, id: int): Copies
    requires IsRun(states, acts) && n <= |acts|
  {
    if n == 0 then Copies([], []) else
    var c, s := SizesCopied(states, acts, n - 1, id), states[n - 1];
    match acts[n - 1]
    case Create(i, _, _) => if i == id then Copies([], []) else c
    case Resume(j) =>
      if id !in s.cos then c
      else if CopiesOut(s, j, id) then c.(out := c.out + [Size(s, id)])
      else if j == id && CopiesBack(s, id) then c.(back := c.back + [Size(s, id)])
      else c
    case _ => c
  }

  function NonEmpty(sizes: seq<nat>): nat {
    if sizes == [] then 0 else NonEmpty(sizes[..|sizes| - 1]) + if sizes[|sizes| - 1] > 0 then 1 else 0
  }

  function Largest(sizes: seq<nat>): nat {
    if sizes == [] then 0 else Larger(Largest(sizes[..|sizes| - 1]), sizes[|sizes| - 1])
  }

  ghost predicate Counted(c: Co, k: Copies) {
    && c.saves == NonEmpty(k.out) && c.restores == NonEmpty(k.back)
    && c.maxCopy == Larger(Largest(k.out), Largest(k.back))
  }

  lemma CountMore(c: Co, d: Co, k: Copies, n: nat)
    requires Counted(c, k) && d.maxCopy == Larger(c.maxCopy, n)
    ensures d.saves == (if n > 0 then c.saves + 1 else c.saves) && d.restores == c.restores ==>
      Counted(d, k.(out := k.out + [n]))
    ensures d.restores == (if n > 0 then c.restores + 1 else c.restores) && d.saves == c.saves ==>
      Counted(d, k.(back := k.back + [n]))
  {
    assert (k.out + [n])[..|k.out|] == k.out;
    assert (k.back + [n])[..|k.back|] == k.back;
  }

  lemma OthersCountNothing(s: Sys, a: Action, id: int)
    requires Inv(s) && Allowed(s, a) && Step(s, a).Some? && !a.Resume? && !(a.Create? && a.id == id)
    requires id in Step(s, a).value.cos
    ensures id in s.cos
    ensures var c, d := s.cos[id], Step(s, a).value.cos[id];
      d.saves == c.saves && d.restores == c.restores && d.maxCopy == c.maxCopy
  {
  }

  lemma ResumeCounted(s: Sys, j: int, id: int, k: Copies)
    requires Inv(s) && Allowed(s, Resume(j)) && Step(s, Resume(j)).Some?
    requires id in Step(s, Resume(j)).value.cos && id in s.cos && Counted(s.cos[id], k)
    ensures var d, n := Step(s, Resume(j)).value.cos[id], Size(s, id);
      if CopiesOut(s, j, id) then Counted(d, k.(out := k.out + [n]))
      else if j == id && CopiesBack(s, id) then Counted(d, k.(back := k.back + [n]))
      else Counted(d, k)
  {
    ResumeCounts(s, j, id);
    if CopiesOut(s, j, id) || (j == id && CopiesBack(s, id)) {
      CountMore(s.cos[id], Step(s, Resume(j)).value.cos[id], k, Size(s, id));
    }
  }

  /** In every run `ct_save` and `ct_restore` are how often a coroutine's stack was copied out and back
      and not empty, and `max_cpsz` is the largest of those copies. */
  lemma {:induction false} CountersTell(states: seq<Sys>, acts: seq<Action>, n: nat, id: int)
    requires IsRun(states, acts) && n <= |acts| && id in states[n].cos
    ensures Counted(states[n].cos[id], SizesCopied(states, acts, n, id))
  {
    if n > 0 {
      var s, a := states[n - 1], acts[n - 1];
      assert Follows(states, acts, n - 1);
      if a.Resume? {
        ResumeKnows(s, a.id, id);
        CountersTell(states, acts, n - 1, id);
        ResumeCounted(s, a.id, id, SizesCopied(states, acts, n - 1, id));
      } else if !(a.Create? && a.id == id) {
        OthersCountNothing(s, a, id);
        CountersTell(states, acts, n - 1, id);
      }
    }
  }

  lemma ResumeKnows(s: Sys, j: int, id: int)
    requires Inv(s) && Allowed(s, Resume(j)) && Step(s, Resume(j)).Some?
    ensures id in s.cos <==> id in Step(s, Resume(j)).value.cos
  {
    EvictKeepsInv(s, j);
  }

  /** `align_validsz` of a free stack. */
  ghost predicate FreeIsEmpty(s: Sys) {
    forall k :: k in s.stacks && s.stacks[k].owner.None? ==> s.stacks[k].validsz == 0
  }

  ghost predicate ValidSize(s: Sys, stk: int, n: nat) { stk in s.stacks && s.stacks[stk].validsz == n }

  lemma FreeStaysEmpty(s: Sys, a: Action)
    requires Inv(s) && Allowed(s, a) && Step(s, a).Some? && FreeIsEmpty(s)
    requires a.NewStack? ==> a.stack.validsz == 0
    ensures FreeIsEmpty(Step(s, a).value)
  {
    if a.Resume? { TakenFreeIsEmpty(s, a.id); }
  }

  lemma TakenFreeIsEmpty(s: Sys, j: int)
    requires Inv(s) && Allowed(s, Resume(j)) && Step(s, Resume(j)).Some? && FreeIsEmpty(s)
    ensures FreeIsEmpty(Step(s, Resume(j)).value)
    ensures CopiesBack(s, j) ==> ValidSize(Step(s, Resume(j)).value, s.cos[j].stk, Size(s, j) + 8)
  {
    assert CoOk(s, j) && OwnerOk(s, s.cos[j].stk);
    EvictKeepsInv(s, j);
  }

  /** In every run `align_validsz` is zero on a free stack, and after a copy back the size of that copy
      and the protector word. */
  lemma {:induction false} ValidSizeTells(states: seq<Sys>, acts: seq<Action>, n: nat)
    requires IsRun(states, acts) && n <= |acts|
    requires forall i :: 0 <= i < |acts| && acts[i].NewStack? ==> acts[i].stack.validsz == 0
    ensures FreeIsEmpty(states[n])
    ensures n < |acts| && acts[n].Resume? && CopiesBack(states[n], acts[n].id) ==>
      ValidSize(states[n + 1], states[n].cos[acts[n].id].stk, Size(states[n], acts[n].id) + 8)
  {
    if n > 0 {
      ValidSizeTells(states, acts, n - 1);
      assert Follows(states, acts, n - 1);
      FreeStaysEmpty(states[n - 1], acts[n - 1]);
    }
    if n < |acts| && acts[n].Resume? {
      assert Follows(states, acts, n);
      TakenFreeIsEmpty(states[n], acts[n].id);
    }
  }
}
