/** All coroutines and share stacks of a thread as objects: every call of the library keeps them apart
    from each other, and takes the step of the machine in `AcoMachine`. */
module AcoSystem {
  import opened Common
  import opened AcoLayout
  import opened AcoMachine
  import opened AcoHeap

  /** What the share stack and the coroutine become when nobody has to make way. */
  ghost function Handed(k: Stack, id: int, c: Co): Option<(Stack, Co)>
    requires StackOk(k)
  {
    if c.ended then None else if k.owner == Some(id) then Some((k, c)) else Restore(k, id, c)
  }

  /** The state after that, the stack being `k` and the coroutines `cos` just before. */
  ghost function Taken(s: Sys, id: int, k: Stack, cos: map<int, Co>): Option<Sys>
    requires id in s.cos && StackOk(k)
  {
    var r := Handed(k, id, s.cos[id]);
    if r.None? then None else Some(Sys(cos[id := r.value.1], s.stacks[s.cos[id].stk := r.value.0], Some(id)))
  }

  /** The state after `oid` made way on the stack `k` for `id`. */
  ghost function Replaced(s: Sys, id: int, oid: int, k: Stack): Option<Sys>
    requires id in s.cos && oid in s.cos && StackOk(k) && 0 < s.cos[oid].cap < WORD
  {
    var e := Evict(k, s.cos[oid]);
    if s.cos[id].ended || e.None? then None else Taken(s, id, e.value.0, s.cos[oid := e.value.1])
  }

  /** `aco_resume` with nobody else on the stack. */
  lemma ResumeInPlaceIs(s: Sys, id: int)
    requires Inv(s) && Allowed(s, Resume(id))
    ensures id in s.cos && s.cos[id].stk in s.stacks && StackOk(s.stacks[s.cos[id].stk])
    ensures var k := s.stacks[s.cos[id].stk];
      k.owner == None || k.owner == Some(id) ==> Step(s, Resume(id)) == Taken(s, id, k, s.cos)
  {
    assert CoOk(s, id) && OwnerOk(s, s.cos[id].stk);
    if s.stacks[s.cos[id].stk].owner == Some(id) {
      assert s.cos[id := s.cos[id]] == s.cos;
      assert s.stacks[s.cos[id].stk := s.stacks[s.cos[id].stk]] == s.stacks;
    }
  }

  /** `aco_resume` with somebody else in the way. */
  lemma ResumeOverIs(s: Sys, id: int, o: int)
    requires Inv(s) && Allowed(s, Resume(id)) && o != id
    requires s.cos[id].stk in s.stacks && s.stacks[s.cos[id].stk].owner == Some(o)
    ensures var k := s.stacks[s.cos[id].stk];
      && StackOk(k) && o in s.cos && 0 < s.cos[o].cap < WORD && Step(s, Resume(id)) == Replaced(s, id, o, k)
  {
    assert CoOk(s, id) && OwnerOk(s, s.cos[id].stk) && CoOk(s, o);
    var e := Evict(s.stacks[s.cos[id].stk], s.cos[o]);
    if !s.cos[id].ended && e.Some? {
      var t := EvictOwner(s, id).value;
      var r := Restore(e.value.0, id, s.cos[id]);
      if r.Some? {
        assert t.stacks[s.cos[id].stk := r.value.0] == s.stacks[s.cos[id].stk := r.value.0];
      }
    }
  }

  /** A picture of the objects at one moment: the machine's state, whose save buffer is where, and who
      owns which stack. */
  datatype Picture = Picture(s: Sys, saves: map<int, array<Byte>>, owners: map<int, Coroutine?>)

  /** Names and places: every coroutine on a stack that is here, no two buffers or stacks in the same
      place, and owners that are here. */
  ghost predicate Laid(cos: map<int, Coroutine>, stacks: map<int, ShareStack>, p: Picture) {
    && p.s.cos.Keys == cos.Keys == p.saves.Keys && p.s.stacks.Keys == stacks.Keys == p.owners.Keys
    && (forall i :: i in cos ==>
          cos[i].id == i && cos[i].share.key in stacks && stacks[cos[i].share.key] == cos[i].share)
    && (forall k :: k in stacks ==> stacks[k].key == k)
    && (forall k, l :: k in stacks && l in stacks && k != l ==> stacks[k].mem != stacks[l].mem)
    && (forall i, j :: i in p.saves && j in p.saves && i != j ==> p.saves[i] != p.saves[j])
    && (forall i, k :: i in p.saves && k in stacks ==> p.saves[i] != stacks[k].mem)
    && (forall k :: k in stacks && p.owners[k] != null ==>
          p.owners[k].id in cos && cos[p.owners[k].id] == p.owners[k])
  }

  /** The coroutines other than `but` are as in the picture. */
  ghost predicate CosOk(cos: map<int, Coroutine>, p: Picture, but: set<int>)
    reads set i | i in cos && i !in but :: cos[i]
    reads set i | i in p.saves && i !in but :: p.saves[i]
  {
    forall i :: i in cos && i !in but ==>
      && i in p.saves && i in p.s.cos
      && cos[i].save == p.saves[i] && cos[i].Fits() && cos[i].Val() == p.s.cos[i]
  }

  /** The stacks other than `but` are as in the picture. */
  ghost predicate StacksOk(stacks: map<int, ShareStack>, p: Picture, but: set<int>)
    reads set k | k in stacks && k !in but :: stacks[k]
    reads set k | k in stacks && k !in but :: stacks[k].mem
  {
    forall k :: k in stacks && k !in but ==>
      && k in p.owners && k in p.s.stacks
      && stacks[k].owner == p.owners[k] && stacks[k].Val() == p.s.stacks[k]
  }

  /** All objects are as in the picture. */
  ghost predicate Drawn(cos: map<int, Coroutine>, stacks: map<int, ShareStack>, p: Picture)
    reads cos.Values, stacks.Values
    reads set i | i in p.saves :: p.saves[i]
    reads set k | k in stacks :: stacks[k].mem
  {
    Laid(cos, stacks, p) && CosOk(cos, p, {}) && StacksOk(stacks, p, {})
  }

  /** `Coroutine.Resume` on a stack that is free or its own. */
  method ResumeAlone(c: Coroutine, alignedSave: bool, alignedRestore: bool) returns (ok: bool)
    requires c.Fits() && StackOk(c.share.Val()) && (c.share.owner == null || c.share.owner == c)
    modifies c, c.save, c.share, c.share.mem
    ensures c.save == old(c.save)
    ensures var r := Handed(old(c.share.Val()), c.id, old(c.Val()));
      (ok <==> r.Some?) && (ok ==> c.Fits() && c.share.owner == c && Some((c.share.Val(), c.Val())) == r)
  {
    ok := c.Resume(alignedSave, alignedRestore);
  }

  /** `Coroutine.Resume` on a stack that `o` owns. */
  method ResumeEvicting(c: Coroutine, o: Coroutine, alignedSave: bool, alignedRestore: bool) returns (ok: bool)
    requires c.Fits() && o.Fits() && StackOk(c.share.Val()) && c.share.owner == o && o.share == c.share
    requires o != c && o.id != c.id && o.save != c.save
    modifies c, o, o.save, c.share, c.share.mem
    ensures c.save == old(c.save) && (o.save == old(o.save) || fresh(o.save))
    ensures var e := Evict(old(c.share.Val()), old(o.Val()));
      && (ok <==> !old(c.ended) && e.Some? && Handed(e.value.0, c.id, old(c.Val())).Some?)
      && (ok ==>
            && o.Fits() && o.Val() == e.value.1 && c.Fits() && c.share.owner == c
            && Some((c.share.Val(), c.Val())) == Handed(e.value.0, c.id, old(c.Val())))
  {
    ok := c.Resume(alignedSave, alignedRestore);
  }

  lemma StackAdded(cos: map<int, Coroutine>, stacks: map<int, ShareStack>, p: Picture, q: Picture, share: ShareStack)
    requires Drawn(cos, stacks, p) && share.key !in stacks && share.owner == null
    requires forall k :: k in stacks ==> stacks[k].mem != share.mem
    requires forall i :: i in p.saves ==> p.saves[i] != share.mem
    requires q.s.cos == p.s.cos && q.s.stacks == p.s.stacks[share.key := share.Val()]
    requires q.saves == p.saves && q.owners == p.owners[share.key := null]
    ensures Drawn(cos, stacks[share.key := share], q)
  {
    assert Laid(cos, stacks[share.key := share], q);
    assert StacksOk(stacks[share.key := share], q, {});
  }

  lemma CoroutineAdded(cos: map<int, Coroutine>, stacks: map<int, ShareStack>, p: Picture, q: Picture, c: Coroutine)
    requires Drawn(cos, stacks, p) && c.id !in cos && c.Fits()
    requires c.share.key in stacks && stacks[c.share.key] == c.share
    requires forall k :: k in stacks ==> stacks[k].mem != c.save
    requires forall i :: i in p.saves ==> p.saves[i] != c.save
    requires q.s.stacks == p.s.stacks && q.s.cos == p.s.cos[c.id := c.Val()]
    requires q.saves == p.saves[c.id := c.save] && q.owners == p.owners
    ensures Drawn(cos[c.id := c], stacks, q)
  {
    assert CosOk(cos[c.id := c], q, {});
  }

  lemma CoroutineGone(cos: map<int, Coroutine>, stacks: map<int, ShareStack>, p: Picture, q: Picture, id: int)
    requires Drawn(cos, stacks, p) && id in cos
    requires forall k :: k in stacks && p.owners[k] != null ==> p.owners[k].id != id
    requires q.s.stacks == p.s.stacks && q.s.cos == p.s.cos - {id}
    requires q.saves == p.saves - {id} && q.owners == p.owners
    ensures Drawn(cos - {id}, stacks, q)
  {
    assert CosOk(cos - {id}, q, {});
  }

  class System {
    var cos: map<int, Coroutine>
    var stacks: map<int, ShareStack>
    var running: Option<int>

    ghost predicate Shows(p: Picture)
      reads this, cos.Values, stacks.Values
      reads set i | i in p.saves :: p.saves[i]
      reads set k | k in stacks :: stacks[k].mem
    {
      Drawn(cos, stacks, p) && p.s.running == running && Inv(p.s)
    }

    constructor ()
      ensures Shows(Picture(Sys(map[], map[], None), map[], map[])) && cos == map[] && stacks == map[]
    {
      cos, stacks, running := map[], map[], None;
    }

    /** What `Coroutine.Resume` asks for. */
    lemma Ready(p: Picture, id: int)
      requires Shows(p) && Allowed(p.s, AcoMachine.Resume(id))
      ensures var c := cos[id];
        var k := c.share.key;
        && c.Fits() && c.save == p.saves[id] && c.Val() == p.s.cos[id] && p.s.cos[id].stk == k
        && StackOk(c.share.Val()) && c.share.Val() == p.s.stacks[k] && c.share.owner == p.owners[k]
      ensures var o := cos[id].share.owner;
        o != null ==> o.id in cos && cos[o.id] == o && o.share == cos[id].share && o.Fits()
                      && o.save == p.saves[o.id] && o.Val() == p.s.cos[o.id]
    {
      assert CoOk(p.s, id) && OwnerOk(p.s, p.s.cos[id].stk);
      var o := cos[id].share.owner;
      if o != null {
        assert CoOk(p.s, o.id);
      }
    }

    /** The new picture after the coroutines `ids` and the stack `k` changed. */
    ghost predicate Retouched(p: Picture, q: Picture, ids: set<int>, k: int) {
      && q.s.cos.Keys == q.saves.Keys == p.saves.Keys == p.s.cos.Keys
      && q.s.stacks.Keys == q.owners.Keys == p.s.stacks.Keys == p.owners.Keys
      && (forall i :: i in p.saves && i !in ids ==> q.s.cos[i] == p.s.cos[i] && q.saves[i] == p.saves[i])
      && (forall l :: l in p.owners && l != k ==> q.s.stacks[l] == p.s.stacks[l] && q.owners[l] == p.owners[l])
    }

    lemma Redrawn(p: Picture, q: Picture, ids: set<int>, k: int)
      requires Laid(cos, stacks, p) && CosOk(cos, p, ids) && StacksOk(stacks, p, {k}) && k in stacks && ids <= cos.Keys
      requires Retouched(p, q, ids, k)
      requires forall i :: i in ids ==>
        cos[i].save == q.saves[i] && cos[i].Fits() && cos[i].Val() == q.s.cos[i]
      requires stacks[k].owner == q.owners[k] && stacks[k].Val() == q.s.stacks[k]
      requires q.owners[k] != null ==> q.owners[k].id in cos && cos[q.owners[k].id] == q.owners[k]
      requires forall i, j :: i in ids && j in cos && i != j ==> q.saves[i] != q.saves[j]
      requires forall i, l :: i in ids && l in stacks ==> q.saves[i] != stacks[l].mem
      ensures Drawn(cos, stacks, q)
    {
      LaidAgain(p, q, ids, k);
      CosAgain(p, q, ids, k);
      StacksAgain(p, q, ids, k);
    }

    lemma CosAgain(p: Picture, q: Picture, ids: set<int>, k: int)
      requires CosOk(cos, p, ids) && ids <= cos.Keys == p.saves.Keys && Retouched(p, q, ids, k)
      requires forall i :: i in ids ==>
        cos[i].save == q.saves[i] && cos[i].Fits() && cos[i].Val() == q.s.cos[i]
      ensures CosOk(cos, q, {})
    {
    }

    lemma StacksAgain(p: Picture, q: Picture, ids: set<int>, k: int)
      requires StacksOk(stacks, p, {k}) && k in stacks && stacks.Keys == p.owners.Keys && Retouched(p, q, ids, k)
      requires stacks[k].owner == q.owners[k] && stacks[k].Val() == q.s.stacks[k]
      ensures StacksOk(stacks, q, {})
    {
    }

    lemma LaidAgain(p: Picture, q: Picture, ids: set<int>, k: int)
      requires Laid(cos, stacks, p) && Retouched(p, q, ids, k) && k in stacks && ids <= cos.Keys
      requires q.owners[k] != null ==> q.owners[k].id in cos && cos[q.owners[k].id] == q.owners[k]
      requires forall i, j :: i in ids && j in cos && i != j ==> q.saves[i] != q.saves[j]
      requires forall i, l :: i in ids && l in stacks ==> q.saves[i] != stacks[l].mem
      ensures Laid(cos, stacks, q)
    {
      OwnersAgain(p, q, k);
      forall i, j | i in q.saves && j in q.saves && i != j ensures q.saves[i] != q.saves[j] {
        assert i in ids || j in ids || p.saves[i] != p.saves[j];
      }
    }

    lemma OwnersAgain(p: Picture, q: Picture, k: int)
      requires Laid(cos, stacks, p) && k in stacks && q.owners.Keys == p.owners.Keys
      requires forall l :: l in p.owners && l != k ==> q.owners[l] == p.owners[l]
      requires q.owners[k] != null ==> q.owners[k].id in cos && cos[q.owners[k].id] == q.owners[k]
      ensures forall l :: l in stacks && q.owners[l] != null ==>
        q.owners[l].id in cos && cos[q.owners[l].id] == q.owners[l]
    {
    }

    /** The other objects, and where they are not. */
    lemma Elsewhere(p: Picture, ids: set<int>, k: int)
      requires Drawn(cos, stacks, p) && k in stacks && ids <= cos.Keys
      ensures CosOk(cos, p, ids) && StacksOk(stacks, p, {k})
      ensures forall i, j :: i in cos && i !in ids && j in ids ==> cos[i] != cos[j] && p.saves[i] != p.saves[j]
      ensures forall i :: i in p.saves ==> p.saves[i] != stacks[k].mem
      ensures forall l :: l in stacks && l != k ==> stacks[l] != stacks[k] && stacks[l].mem != stacks[k].mem
    {
    }

    /** The share stack is free, or the coroutine's own. */
    method ResumeInPlace(id: int, alignedSave: bool, alignedRestore: bool, ghost p: Picture, ghost z: Option<Sys>)
      returns (ok: bool, ghost q: Picture)
      requires Drawn(cos, stacks, p) && id in cos && p.s.cos[id].stk == cos[id].share.key
      requires cos[id].share.owner == null || cos[id].share.owner == cos[id]
      requires StackOk(cos[id].share.Val()) && z == Taken(p.s, id, cos[id].share.Val(), p.s.cos)
      modifies cos[id], p.saves[id], cos[id].share, cos[id].share.mem
      ensures cos == old(cos) && stacks == old(stacks)
      ensures ok <==> z.Some?
      ensures ok ==> Some(q.s) == z && Drawn(cos, stacks, q)
      ensures ok ==> q.saves == p.saves
    {
      ok := CallInPlace(id, alignedSave, alignedRestore, p);
      q := p;
      if ok {
        q := Picture(z.value, p.saves, p.owners[cos[id].share.key := cos[id]]);
        InPlaceDone(p, q, id);
      }
    }

    lemma InPlaceDone(p: Picture, q: Picture, id: int)
      requires Laid(cos, stacks, p) && id in cos && p.s.cos[id].stk == cos[id].share.key
      requires var k := cos[id].share.key;
        && CosOk(cos, p, {id}) && StacksOk(stacks, p, {k}) && StackOk(p.s.stacks[k])
        && Taken(p.s, id, p.s.stacks[k], p.s.cos) == Some(q.s)
        && q.saves == p.saves && q.owners == p.owners[k := cos[id]]
        && cos[id].Fits() && Some((cos[id].share.Val(), cos[id].Val())) == Handed(p.s.stacks[k], id, p.s.cos[id])
      requires cos[id].save == p.saves[id] && cos[id].share.owner == cos[id]
      ensures Drawn(cos, stacks, q)
    {
      Redrawn(p, q, {id}, cos[id].share.key);
    }

    method CallInPlace(id: int, alignedSave: bool, alignedRestore: bool, ghost p: Picture) returns (ok: bool)
      requires Drawn(cos, stacks, p) && id in cos
      requires cos[id].share.owner == null || cos[id].share.owner == cos[id]
      requires StackOk(cos[id].share.Val())
      modifies cos[id], p.saves[id], cos[id].share, cos[id].share.mem
      ensures cos == old(cos) && stacks == old(stacks)
      ensures var k := cos[id].share.key;
        && p.s.stacks[k] == old(cos[id].share.Val()) && CosOk(cos, p, {id}) && StacksOk(stacks, p, {k})
      ensures ok <==> Handed(p.s.stacks[cos[id].share.key], id, p.s.cos[id]).Some?
      ensures ok ==> cos[id].Fits() && cos[id].save == p.saves[id] && cos[id].share.owner == cos[id]
      ensures ok ==>
        Some((cos[id].share.Val(), cos[id].Val())) == Handed(p.s.stacks[cos[id].share.key], id, p.s.cos[id])
    {
      Elsewhere(p, {id}, cos[id].share.key);
      ok := ResumeAlone(cos[id], alignedSave, alignedRestore);
    }

    /** Another coroutine, `oid`, is in the way. */
    method ResumeOver(id: int, oid: int, alignedSave: bool, alignedRestore: bool,
                      ghost p: Picture, ghost z: Option<Sys>)
      returns (ok: bool, ghost q: Picture)
      requires Drawn(cos, stacks, p) && id in cos && oid in cos && oid != id && p.s.cos[id].stk == cos[id].share.key
      requires cos[id].share.owner == cos[oid] && cos[oid].share == cos[id].share
      requires StackOk(cos[id].share.Val()) && 0 < p.s.cos[oid].cap < WORD
      requires z == Replaced(p.s, id, oid, cos[id].share.Val())
      modifies cos[id], cos[oid], p.saves[oid], cos[id].share, cos[id].share.mem
      ensures cos == old(cos) && stacks == old(stacks)
      ensures ok <==> z.Some?
      ensures ok ==> Some(q.s) == z && Drawn(cos, stacks, q)
      ensures ok ==> q.saves == p.saves[oid := cos[oid].save]
      ensures ok ==> cos[oid].save == p.saves[oid] || fresh(cos[oid].save)
    {
      ok := CallOver(id, oid, alignedSave, alignedRestore, p);
      q := p;
      if ok {
        q := Picture(z.value, p.saves[oid := cos[oid].save], p.owners[cos[id].share.key := cos[id]]);
        OverDone(p, q, id, oid);
      }
    }

    lemma OverTouches(p: Picture, q: Picture, id: int, oid: int)
      requires id in p.s.cos && oid in p.s.cos && oid != id && p.s.cos[id].stk in p.s.stacks
      requires p.saves.Keys == p.s.cos.Keys && p.owners.Keys == p.s.stacks.Keys
      requires var k := p.s.cos[id].stk;
        && StackOk(p.s.stacks[k]) && 0 < p.s.cos[oid].cap < WORD
        && Replaced(p.s, id, oid, p.s.stacks[k]) == Some(q.s)
        && oid in q.saves && q.saves == p.saves[oid := q.saves[oid]]
        && k in q.owners && q.owners == p.owners[k := q.owners[k]]
      ensures Retouched(p, q, {id, oid}, p.s.cos[id].stk)
    {
    }

    lemma OverDone(p: Picture, q: Picture, id: int, oid: int)
      requires Laid(cos, stacks, p) && id in cos && oid in cos && oid != id && p.s.cos[id].stk == cos[id].share.key
      requires var k := cos[id].share.key;
        && CosOk(cos, p, {id, oid}) && StacksOk(stacks, p, {k}) && StackOk(p.s.stacks[k]) && 0 < p.s.cos[oid].cap < WORD
        && var e := Evict(p.s.stacks[k], p.s.cos[oid]);
           && e.Some? && Replaced(p.s, id, oid, p.s.stacks[k]) == Some(q.s)
           && q.saves == p.saves[oid := cos[oid].save] && q.owners == p.owners[k := cos[id]]
           && cos[oid].Fits() && cos[oid].Val() == e.value.1
           && cos[id].Fits() && Some((cos[id].share.Val(), cos[id].Val())) == Handed(e.value.0, id, p.s.cos[id])
      requires cos[id].save == p.saves[id] && cos[id].share.owner == cos[id]
      requires forall j :: j in cos && j != oid ==> cos[oid].save != p.saves[j]
      requires forall l :: l in stacks ==> cos[oid].save != stacks[l].mem
      ensures Drawn(cos, stacks, q)
    {
      OverTouches(p, q, id, oid);
      Redrawn(p, q, {id, oid}, cos[id].share.key);
    }

    method CallOver(id: int, oid: int, alignedSave: bool, alignedRestore: bool, ghost p: Picture) returns (ok: bool)
      requires Drawn(cos, stacks, p) && id in cos && oid in cos && oid != id
      requires cos[id].share.owner == cos[oid] && cos[oid].share == cos[id].share
      requires StackOk(cos[id].share.Val()) && 0 < p.s.cos[oid].cap < WORD
      modifies cos[id], cos[oid], p.saves[oid], cos[id].share, cos[id].share.mem
      ensures cos == old(cos) && stacks == old(stacks)
      ensures var k := cos[id].share.key;
        && p.s.stacks[k] == old(cos[id].share.Val()) && CosOk(cos, p, {id, oid}) && StacksOk(stacks, p, {k})
      ensures var e := Evict(p.s.stacks[cos[id].share.key], p.s.cos[oid]);
        && (ok <==> Replaced(p.s, id, oid, p.s.stacks[cos[id].share.key]).Some?)
        && (ok ==>
              && e.Some?
              && cos[oid].Fits() && cos[oid].Val() == e.value.1
              && cos[id].Fits() && cos[id].save == p.saves[id] && cos[id].share.owner == cos[id]
              && Some((cos[id].share.Val(), cos[id].Val())) == Handed(e.value.0, id, p.s.cos[id]))
      ensures cos[oid].save == p.saves[oid] || fresh(cos[oid].save)
      ensures forall j :: j in cos && j != oid ==> cos[oid].save != p.saves[j]
      ensures forall l :: l in stacks ==> cos[oid].save != stacks[l].mem
    {
      Elsewhere(p, {id, oid}, cos[id].share.key);
      ok := ResumeEvicting(cos[id], cos[oid], alignedSave, alignedRestore);
    }

    /** `aco_resume` up to the switch; false is a failed assertion. */
    method Resume(id: int, alignedSave: bool, alignedRestore: bool, ghost p: Picture)
      returns (ok: bool, ghost q: Picture)
      requires Shows(p) && Allowed(p.s, AcoMachine.Resume(id))
      modifies this`running, cos.Values, stacks.Values
      modifies set i | i in p.saves :: p.saves[i]
      modifies set k | k in stacks :: stacks[k].mem
      ensures cos == old(cos) && stacks == old(stacks)
      ensures ok <==> Step(p.s, AcoMachine.Resume(id)).Some?
      ensures ok ==> Some(q.s) == Step(p.s, AcoMachine.Resume(id)) && Shows(q)
      ensures ok ==> forall i :: i in q.saves ==> i in p.saves && (q.saves[i] == p.saves[i] || fresh(q.saves[i]))
    {
      StepKeepsAll(p.s, AcoMachine.Resume(id));
      ok, q := ResumeObjects(id, alignedSave, alignedRestore, p, Step(p.s, AcoMachine.Resume(id)));
      if ok {
        TakenRuns(p.s, id);
        Switch(Some(id), q);
      }
    }

    /** Who runs, `aco_gtls_co`. */
    method Switch(r: Option<int>, ghost q: Picture)
      requires Drawn(cos, stacks, q)
      modifies this`running
      ensures cos == old(cos) && stacks == old(stacks)
      ensures running == r && Drawn(cos, stacks, q)
    {
      running := r;
    }

    /** All of it but `aco_gtls_co`. */
    method ResumeObjects(id: int, alignedSave: bool, alignedRestore: bool, ghost p: Picture, ghost z: Option<Sys>)
      returns (ok: bool, ghost q: Picture)
      requires Shows(p) && Allowed(p.s, AcoMachine.Resume(id)) && z == Step(p.s, AcoMachine.Resume(id))
      modifies cos.Values, stacks.Values
      modifies set i | i in p.saves :: p.saves[i]
      modifies set k | k in stacks :: stacks[k].mem
      ensures cos == old(cos) && stacks == old(stacks)
      ensures ok <==> z.Some?
      ensures ok ==> Some(q.s) == z && Drawn(cos, stacks, q)
      ensures ok ==> forall i :: i in q.saves ==> i in p.saves && (q.saves[i] == p.saves[i] || fresh(q.saves[i]))
    {
      Ready(p, id);
      var c := cos[id];
      if c.share.owner == null || c.share.owner == c {
        ResumeInPlaceIs(p.s, id);
        ok, q := ResumeInPlace(id, alignedSave, alignedRestore, p, z);
      } else {
        ResumeOverIs(p.s, id, c.share.owner.id);
        ok, q := ResumeOver(id, c.share.owner.id, alignedSave, alignedRestore, p, z);
      }
    }

    /** The running coroutine wrote `mem` and yields, or exits. */
    method Stop(mem: seq<Byte>, sp: int, exits: bool, ghost p: Picture) returns (ghost q: Picture)
      requires Shows(p) && Writes(p.s, mem, sp)
      modifies this`running, cos.Values, stacks.Values
      modifies set k | k in stacks :: stacks[k].mem
      ensures cos == old(cos) && stacks == old(stacks)
      ensures var a := if exits then Exit(mem, sp) else Yield(mem, sp);
        Some(q.s) == Step(p.s, a) && Shows(q) && q.saves == p.saves
    {
      var id := running.value;
      ghost var a := if exits then Exit(mem, sp) else Yield(mem, sp);
      Runner(p, mem, sp);
      StepKeepsAll(p.s, a);
      q := StopObjects(id, mem, sp, exits, p, Step(p.s, a).value);
      Switch(None, q);
    }

    lemma Runner(p: Picture, mem: seq<Byte>, sp: int)
      requires Shows(p) && Writes(p.s, mem, sp)
      ensures var id := running.value;
        && id in cos && !p.s.cos[id].ended && p.s.cos[id].stk == cos[id].share.key && cos[id].share.owner == cos[id]
        && cos[id].Fits() && |mem| == cos[id].share.mem.Length
        && cos[id].share.ret <= |mem| && mem[cos[id].share.ret..] == cos[id].share.mem[cos[id].share.ret..]
    {
      assert CoOk(p.s, running.value);
    }

    method StopObjects(id: int, mem: seq<Byte>, sp: int, exits: bool, ghost p: Picture, ghost z: Sys)
      returns (ghost q: Picture)
      requires Drawn(cos, stacks, p) && id in cos
      requires p.s.cos[id].stk == cos[id].share.key && cos[id].share.owner == cos[id]
      requires |mem| == cos[id].share.mem.Length && cos[id].share.ret <= |mem|
      requires mem[cos[id].share.ret..] == cos[id].share.mem[cos[id].share.ret..]
      requires var c := p.s.cos[id]; var k := p.s.stacks[c.stk].(mem := mem);
        z == Sys(p.s.cos[id := c.(sp := sp, ended := c.ended || exits)],
                 p.s.stacks[c.stk := if exits then k.(owner := None, validsz := 0) else k], None)
      modifies cos[id], cos[id].share, cos[id].share.mem
      ensures cos == old(cos) && stacks == old(stacks)
      ensures q.s == z && Drawn(cos, stacks, q) && q.saves == p.saves
    {
      CallLeave(id, mem, sp, exits, p);
      q := Picture(z, p.saves, p.owners[cos[id].share.key := cos[id].share.owner]);
      LeaveDone(p, q, id);
    }

    method CallLeave(id: int, mem: seq<Byte>, sp: int, exits: bool, ghost p: Picture)
      requires Drawn(cos, stacks, p) && id in cos && cos[id].share.owner == cos[id]
      requires |mem| == cos[id].share.mem.Length && cos[id].share.ret <= |mem|
      requires mem[cos[id].share.ret..] == cos[id].share.mem[cos[id].share.ret..]
      modifies cos[id], cos[id].share, cos[id].share.mem
      ensures cos == old(cos) && stacks == old(stacks)
      ensures CosOk(cos, p, {id}) && StacksOk(stacks, p, {cos[id].share.key})
      ensures cos[id].Fits() && cos[id].save == p.saves[id]
      ensures var c := p.s.cos[id]; cos[id].Val() == c.(sp := sp, ended := c.ended || exits)
      ensures var k := p.s.stacks[cos[id].share.key].(mem := mem);
        cos[id].share.Val() == if exits then k.(owner := None, validsz := 0) else k
      ensures cos[id].share.owner == if exits then null else cos[id]
    {
      Elsewhere(p, {id}, cos[id].share.key);
      cos[id].Leave(mem, sp, exits);
    }

    lemma LeaveDone(p: Picture, q: Picture, id: int)
      requires Laid(cos, stacks, p) && id in cos && p.s.cos[id].stk == cos[id].share.key
      requires var k := cos[id].share.key;
        && CosOk(cos, p, {id}) && StacksOk(stacks, p, {k})
        && id in q.s.cos && q.s.cos == p.s.cos[id := q.s.cos[id]] && q.s.stacks == p.s.stacks[k := cos[id].share.Val()]
        && q.saves == p.saves && q.owners == p.owners[k := cos[id].share.owner]
      requires cos[id].Fits() && cos[id].save == p.saves[id] && cos[id].Val() == q.s.cos[id]
      requires cos[id].share.owner == null || cos[id].share.owner == cos[id]
      ensures Drawn(cos, stacks, q)
    {
      Redrawn(p, q, {id}, cos[id].share.key);
    }

    /** A new share stack. */
    method Add(share: ShareStack, ghost p: Picture) returns (ghost q: Picture)
      requires Shows(p) && share.owner == null && Allowed(p.s, NewStack(share.key, share.Val()))
      requires forall k :: k in stacks ==> stacks[k].mem != share.mem
      requires forall i :: i in p.saves ==> p.saves[i] != share.mem
      modifies this`stacks
      ensures stacks == old(stacks)[share.key := share] && q.saves == p.saves
      ensures Some(q.s) == Step(p.s, NewStack(share.key, share.Val())) && Shows(q)
    {
      StepKeepsAll(p.s, NewStack(share.key, share.Val()));
      q := Picture(p.s.(stacks := p.s.stacks[share.key := share.Val()]), p.saves, p.owners[share.key := null]);
      StackAdded(cos, stacks, p, q, share);
      stacks := stacks[share.key := share];
    }

    /** `aco_create` of a coroutine on a share stack that is here. */
    method Create(id: int, stk: int, saveSize: nat, ghost p: Picture) returns (ghost q: Picture)
      requires Shows(p) && Allowed(p.s, AcoMachine.Create(id, stk, saveSize))
      modifies this`cos
      ensures stacks == old(stacks)
      ensures id in cos && fresh(cos[id]) && cos == old(cos)[id := cos[id]]
      ensures Some(q.s) == Step(p.s, AcoMachine.Create(id, stk, saveSize)) && Shows(q)
      ensures id in q.saves && fresh(q.saves[id]) && q.saves == p.saves[id := q.saves[id]]
    {
      StepKeepsAll(p.s, AcoMachine.Create(id, stk, saveSize));
      StackHere(p, stk);
      q := CreateObject(id, stk, saveSize, p, Step(p.s, AcoMachine.Create(id, stk, saveSize)).value);
    }

    lemma StackHere(p: Picture, stk: int)
      requires Shows(p) && stk in p.s.stacks
      ensures stk in stacks && stacks[stk].ret == p.s.stacks[stk].ret && stacks[stk].key == stk
    {
    }

    method CreateObject(id: int, stk: int, saveSize: nat, ghost p: Picture, ghost z: Sys) returns (ghost q: Picture)
      requires Drawn(cos, stacks, p) && id !in cos && stk in stacks && stacks[stk].key == stk && saveSize < WORD
      requires z == p.s.(cos := p.s.cos[id :=
        Co(stk, stacks[stk].ret, false, [], if saveSize == 0 then 64 else saveSize, 0, 0, 0)])
      modifies this`cos
      ensures stacks == old(stacks)
      ensures id in cos && fresh(cos[id]) && cos == old(cos)[id := cos[id]]
      ensures q.s == z && Drawn(cos, stacks, q)
      ensures id in q.saves && fresh(q.saves[id]) && q.saves == p.saves[id := q.saves[id]]
    {
      var c := NewCoroutine(id, stk, saveSize, p);
      q := Picture(z, p.saves[id := c.save], p.owners);
      CoroutineAdded(cos, stacks, p, q, c);
      SetCos(cos[id := c], q);
    }

    method NewCoroutine(id: int, stk: int, saveSize: nat, ghost p: Picture) returns (c: Coroutine)
      requires Drawn(cos, stacks, p) && stk in stacks && saveSize < WORD
      ensures fresh(c) && fresh(c.save) && c.Fits() && c.id == id && c.share == stacks[stk]
      ensures Drawn(cos, stacks, p)
      ensures c.Val() == Co(stacks[stk].key, stacks[stk].ret, false, [],
                            if saveSize == 0 then 64 else saveSize, 0, 0, 0)
      ensures forall k :: k in stacks ==> stacks[k].mem != c.save
      ensures forall i :: i in p.saves ==> p.saves[i] != c.save
    {
      c := new Coroutine(id, stacks[stk], saveSize);
    }

    /** `aco_destroy` */
    method Destroy(id: int, ghost p: Picture) returns (ghost q: Picture)
      requires Shows(p) && Allowed(p.s, AcoMachine.Destroy(id))
      modifies this`cos, stacks.Values
      ensures cos == old(cos) - {id} && q.saves == p.saves - {id}
      ensures Some(q.s) == Step(p.s, AcoMachine.Destroy(id)) && Shows(q)
    {
      ghost var z := DestroyIs(p, id);
      q := DestroyObject(id, p, z);
    }

    method DestroyObject(id: int, ghost p: Picture, ghost z: Sys) returns (ghost q: Picture)
      requires Drawn(cos, stacks, p) && id in cos && p.s.cos[id].stk == cos[id].share.key
      requires forall k :: k in stacks && p.owners[k] == cos[id] ==> k == cos[id].share.key
      requires z == p.s.(cos := p.s.cos - {id}, stacks := Forgotten(p, id))
      modifies this`cos, cos[id].share
      ensures cos == old(cos) - {id} && q.saves == p.saves - {id}
      ensures q.s == z && Drawn(cos, stacks, q)
    {
      ghost var r := Forget(id, p);
      NobodyOwns(p, r, id);
      q := Picture(z, p.saves - {id}, r.owners);
      CoroutineGone(cos, stacks, r, q, id);
      SetCos(cos - {id}, q);
    }

    /** The table of coroutines, changed to one that `q` shows. */
    method SetCos(cs: map<int, Coroutine>, ghost q: Picture)
      requires Drawn(cs, stacks, q)
      modifies this`cos
      ensures stacks == old(stacks)
      ensures cos == cs && Drawn(cos, stacks, q)
    {
      cos := cs;
    }

    lemma NobodyOwns(p: Picture, r: Picture, id: int)
      requires Laid(cos, stacks, p) && id in cos && r.owners.Keys == p.owners.Keys
      requires forall k :: k in stacks && p.owners[k] == cos[id] ==> k == cos[id].share.key
      requires forall k :: k in stacks && k != cos[id].share.key ==> r.owners[k] == p.owners[k]
      requires var o := p.owners[cos[id].share.key];
        r.owners[cos[id].share.key] == if o == cos[id] then null else o
      ensures forall k :: k in stacks && r.owners[k] != null ==> r.owners[k].id != id
    {
    }

    /** Where the coroutine is, and what the machine does with it. */
    lemma DestroyIs(p: Picture, id: int) returns (z: Sys)
      requires Shows(p) && Allowed(p.s, AcoMachine.Destroy(id))
      ensures Some(z) == Step(p.s, AcoMachine.Destroy(id)) && Inv(z) && z.running == p.s.running
      ensures p.s.cos[id].stk == cos[id].share.key
      ensures forall k :: k in stacks && p.owners[k] == cos[id] ==> k == cos[id].share.key
      ensures z == p.s.(cos := p.s.cos - {id}, stacks := Forgotten(p, id))
    {
      StepKeepsAll(p.s, AcoMachine.Destroy(id));
      z := Step(p.s, AcoMachine.Destroy(id)).value;
      assert CoOk(p.s, id);
      forall k | k in stacks && p.owners[k] == cos[id] ensures k == cos[id].share.key {
        assert OwnerOk(p.s, k);
      }
    }

    ghost function Forgotten(p: Picture, id: int): map<int, Stack>
      requires id in p.s.cos && p.s.cos[id].stk in p.s.stacks
    {
      var k := p.s.cos[id].stk;
      if p.s.stacks[k].owner == Some(id) then p.s.stacks[k := p.s.stacks[k].(owner := None, validsz := 0)]
      else p.s.stacks
    }

    /** The stack's part of `aco_destroy`. */
    method Forget(id: int, ghost p: Picture) returns (ghost q: Picture)
      requires Drawn(cos, stacks, p) && id in cos && p.s.cos[id].stk == cos[id].share.key
      modifies cos[id].share
      ensures Drawn(cos, stacks, q) && q.s == p.s.(stacks := Forgotten(p, id)) && q.saves == p.saves
      ensures var o := p.owners[cos[id].share.key];
        q.owners == p.owners[cos[id].share.key := if o == cos[id] then null else o]
    {
      CallDestroy(id, p);
      q := Picture(p.s.(stacks := Forgotten(p, id)), p.saves, p.owners[cos[id].share.key := cos[id].share.owner]);
      Redrawn(p, q, {}, cos[id].share.key);
    }

    method CallDestroy(id: int, ghost p: Picture)
      requires Drawn(cos, stacks, p) && id in cos && p.s.cos[id].stk == cos[id].share.key
      modifies cos[id].share
      ensures CosOk(cos, p, {}) && StacksOk(stacks, p, {cos[id].share.key})
      ensures cos[id].share.Val() == Forgotten(p, id)[cos[id].share.key]
      ensures var o := p.owners[cos[id].share.key]; cos[id].share.owner == if o == cos[id] then null else o
    {
      Elsewhere(p, {}, cos[id].share.key);
      cos[id].Destroy();
    }
  }

  lemma TakenRuns(s: Sys, id: int)
    requires Inv(s) && Allowed(s, Resume(id)) && Step(s, Resume(id)).Some?
    ensures Step(s, Resume(id)).value.running == Some(id)
  {
  }

  lemma StepKeepsAll(s: Sys, a: Action)
    requires Inv(s) && Allowed(s, a)
    ensures Step(s, a).Some? ==> Inv(Step(s, a).value)
  {
    if Step(s, a).Some? { StepKeepsInv(s, a); }
  }
}
