/** `aco_t` and `aco_share_stack_t` as objects: the code of `aco_resume`, `aco_exit1`, `aco_create`
    and `aco_destroy`, proved against the steps of the machine in `AcoMachine`. */
module AcoHeap {
  import opened Common
  import opened AcoLayout
  import opened AcoMachine

  class ShareStack {
    const key: int
    const mem: array<Byte>
    const ret: nat
    const limit: nat
    var owner: Coroutine?
    var validsz: nat

    constructor (key: int, mem: array<Byte>, ret: nat, limit: nat)
      ensures this.key == key && this.mem == mem && this.ret == ret && this.limit == limit
      ensures Val() == Stack(mem[..], ret, limit, None, 0)
    {
      this.key, this.mem, this.ret, this.limit := key, mem, ret, limit;
      owner, validsz := null, 0;
    }

    ghost function Val(): Stack
      reads this, mem
    {
      Stack(mem[..], ret, limit, if owner == null then None else Some(owner.id), validsz)
    }
  }

  /** `aco_share_stack_new2` with the object it returns; null is an assertion that fails. */
  method NewShareStack(key: int, sz: nat, guard: bool, pgsz: int, alloc: nat -> nat) returns (share: ShareStack?)
    requires sz < WORD && -0x8000_0000_0000_0000 <= pgsz < 0x8000_0000_0000_0000
    requires forall n: nat :: n < WORD ==> alloc(n) + n <= WORD
    ensures share != null ==> fresh(share) && fresh(share.mem) && share.key == key && share.owner == null
    ensures share != null ==> StackOk(share.Val())
    ensures share != null && !guard ==>
      share.mem.Length == if sz == 0 then 0x20_0000 else if sz < 4096 then 4096 else sz
    ensures share != null && guard ==> pgsz > 0 && share.mem.Length % pgsz == 0
    ensures share != null && guard && sz >= 4096 ==> sz <= share.mem.Length < sz + pgsz
    ensures share != null && guard && 0 < sz < 4096 ==> 4096 <= share.mem.Length < 4096 + pgsz
    ensures share != null && guard && sz == 0 ==> 0x20_0000 <= share.mem.Length < 0x20_0000 + pgsz
    ensures var wanted := if sz == 0 then 0x20_0000 else if sz < 4096 then 4096 else sz;
      share == null <==> guard && (pgsz <= 0 || !IsPow2(pgsz) || NoRoom(wanted, pgsz))
  {
    var l := ShareStackNew2(sz, guard, pgsz, alloc);
    if l.None? {
      return null;
    }
    var mem := new Byte[l.value.sz];
    share := new ShareStack(key, mem, l.value.ret - l.value.ptr, l.value.limit);
    LayoutIsOk(l.value, share.Val());
  }

  /** `aco_share_stack_new(0)` with pages of 4096 bytes: 2 MiB of stack. */
  method DefaultShareStack(key: int) returns (share: ShareStack)
    ensures fresh(share) && fresh(share.mem) && share.key == key && share.owner == null
    ensures StackOk(share.Val()) && share.mem.Length == 0x20_0000 && share.limit == 0x20_0000 - 32
  {
    PageIsPow2();
    NoRoomIs(0x20_0000, 4096);
    var new_ := NewShareStack(key, 0, true, 4096, (n: nat) => if n < WORD then WORD - n else 0);
    share := new_;
  }

  class Coroutine {
    const id: int
    const share: ShareStack
    var sp: int
    var ended: bool
    var save: array<Byte>
    var valid: nat
    var maxCopy: nat
    var saves: nat
    var restores: nat

    ghost predicate Fits()
      reads this
    {
      valid <= save.Length && 0 < save.Length < WORD && save != share.mem
    }

    ghost function Val(): Co
      reads this, save
      requires Fits()
    {
      Co(share.key, sp, ended, save[..valid], save.Length, maxCopy, saves, restores)
    }

    /** `aco_create` of a non-main coroutine. */
    constructor (id: int, share: ShareStack, saveSize: nat)
      requires saveSize < WORD
      ensures this.id == id && this.share == share && fresh(save) && Fits()
      ensures Val() == Co(share.key, share.ret, false, [], if saveSize == 0 then 64 else saveSize, 0, 0, 0)
    {
      var size := if saveSize == 0 then 64 else saveSize;
      this.id, this.share := id, share;
      sp, ended := share.ret, false;
      save := new Byte[size];
      valid, maxCopy, saves, restores := 0, 0, 0, 0;
    }

    /** The copy out of `aco_resume`, with this coroutine as `owner_co`. false is a failed assertion. */
    method SaveOut(aligned: bool) returns (ok: bool)
      requires Fits() && StackOk(share.Val()) && share.owner == this
      modifies this, share, save
      ensures ok <==> Evict(old(share.Val()), old(Val())).Some?
      ensures save == old(save) || fresh(save)
      ensures ok ==> Fits() && (share.Val(), Val()) == Evict(old(share.Val()), old(Val())).value
      ensures sp == old(sp) && ended == old(ended)
    {
      if !(share.ret >= sp && share.ret + 8 - share.limit <= sp) {
        return false;
      }
      var newValid: nat := share.ret - sp;
      ok := Reserve(newValid);
      if !ok {
        return;
      }
      CopyOut(aligned);
      share.owner := null;
      share.validsz := 0;
    }

    /** The copy itself, into a buffer that is large enough. */
    method CopyOut(aligned: bool)
      requires Fits() && StackOk(share.Val()) && 0 <= sp && sp + valid == share.ret
      modifies this`saves, this`maxCopy, save
      ensures Fits() && save[..valid] == share.mem[sp..share.ret]
      ensures saves == (if valid > 0 then old(saves) + 1 else old(saves))
      ensures maxCopy == if valid > old(maxCopy) then valid else old(maxCopy)
    {
      if valid > 0 {
        CopyDropIn(save, 0, share.mem, sp, valid, aligned);
        saves := saves + 1;
      }
      if valid > maxCopy {
        maxCopy := valid;
      }
    }

    /** Set `valid_sz`, and make the buffer large enough. */
    method Reserve(newValid: nat) returns (ok: bool)
      requires Fits() && newValid < WORD
      modifies this`valid, this`save
      ensures ok <==> Grown(old(save.Length), newValid).Some?
      ensures ok ==> Fits() && valid == newValid && Some(save.Length) == Grown(old(save.Length), newValid)
      ensures save == old(save) || fresh(save)
    {
      valid := newValid;
      ok := true;
      if save.Length < valid {
        var size := Grow(save.Length, valid);
        if size.None? {
          return false;
        }
        save := new Byte[size.value];
      }
    }

    /** The copy back of `aco_resume`, onto a free share stack. */
    method CopyBack(aligned: bool) returns (ok: bool)
      requires Fits() && StackOk(share.Val()) && share.owner == null
      modifies this`restores, this`maxCopy, share, share.mem
      ensures Fits()
      ensures ok <==> Restore(old(share.Val()), id, old(Val())).Some?
      ensures ok ==> (share.Val(), Val()) == Restore(old(share.Val()), id, old(Val())).value && share.owner == this
    {
      if !(valid <= share.limit - 8) {
        return false;
      }
      if valid > 0 {
        CopyDropIn(share.mem, share.ret - valid, save, 0, valid, aligned);
        restores := restores + 1;
      }
      assert share.mem[..] == old(share.mem[..share.ret - valid]) + save[..valid] + old(share.mem[share.ret..]);
      if valid > maxCopy {
        maxCopy := valid;
      }
      share.validsz := valid + 8;
      share.owner := this;
      ok := true;
    }

    /** `aco_resume` up to the switch. */
    method Resume(alignedSave: bool, alignedRestore: bool) returns (ok: bool)
      requires Fits() && StackOk(share.Val())
      requires share.owner != null ==> share.owner.share == share && share.owner.Fits()
      requires share.owner != null && share.owner != this ==> share.owner.save != save && share.owner.id != id
      modifies this, share, share.mem
      modifies if share.owner == null then {} else {share.owner, share.owner.save}
      ensures old(ended) ==> !ok
      ensures !old(ended) && old(share.owner) == this ==>
        ok && share.Val() == old(share.Val()) && Fits() && Val() == old(Val())
      ensures !old(ended) && old(share.owner) == null ==>
        var r := Restore(old(share.Val()), id, old(Val()));
        (ok <==> r.Some?) && (ok ==> Fits() && (share.Val(), Val()) == r.value)
      ensures !old(ended) && old(share.owner) != null && old(share.owner) != this ==>
        ResumedAfterEviction(old(share.Val()), old(share.owner.Val()), old(Val()), ok)
      ensures !old(ended) && old(share.owner) != null && old(share.owner) != this && ok ==>
        var o := old(share.owner);
        o.Fits() && Some(o.Val()) == Second(Evict(old(share.Val()), old(share.owner.Val())))
      ensures save == old(save) && (ok ==> share.owner == this)
      ensures old(share.owner) != null ==>
        (old(share.owner).save == old(share.owner.save) || fresh(old(share.owner).save))
    {
      if ended {
        return false;
      }
      if share.owner != this {
        if share.owner != null {
          ok := share.owner.SaveOut(alignedSave);
          if !ok {
            return;
          }
        }
        ok := CopyBack(alignedRestore);
      } else {
        ok := true;
      }
    }

    static ghost function Second(r: Option<(Stack, Co)>): Option<Co> {
      if r.None? then None else Some(r.value.1)
    }

    ghost predicate ResumedAfterEviction(k: Stack, o: Co, c: Co, ok: bool)
      requires StackOk(k) && 0 < o.cap < WORD
      reads this, save, share, share.mem
    {
      var e := Evict(k, o);
      if e.None? then !ok else
      var r := Restore(e.value.0, id, c);
      (ok <==> r.Some?) && (ok ==> Fits() && share.Val() == r.value.0 && Val() == r.value.1)
    }

    /** What the coroutine did before it stopped: it wrote below the protector word, and the switch
        stores its stack pointer. */
    method Stop(mem: seq<Byte>, sp: int)
      requires Fits() && |mem| == share.mem.Length && share.ret <= |mem| && mem[share.ret..] == share.mem[share.ret..]
      modifies this`sp, share.mem
      ensures Fits() && Val() == old(Val()).(sp := sp) && share.Val() == old(share.Val()).(mem := mem)
    {
      forall i | 0 <= i < share.ret { share.mem[i] := mem[i]; }
      assert share.mem[..] == mem[..share.ret] + mem[share.ret..];
      assert mem == mem[..share.ret] + mem[share.ret..];
      this.sp := sp;
    }

    /** `aco_exit1` up to the switch. */
    method Exit() returns (ok: bool)
      modifies this`ended, share
      ensures ended && (ok <==> old(share.owner) == this) && (ok ==> share.owner == null)
      ensures ok ==> share.Val() == old(share.Val()).(owner := None, validsz := 0)
    {
      ended := true;
      if !(share.owner == this) {
        return false;
      }
      share.owner := null;
      share.validsz := 0;
      ok := true;
    }

    /** The running coroutine yields (`aco_yield1`), or exits. */
    method Leave(mem: seq<Byte>, sp: int, exits: bool)
      requires Fits() && share.owner == this
      requires |mem| == share.mem.Length && share.ret <= |mem| && mem[share.ret..] == share.mem[share.ret..]
      modifies this`sp, this`ended, share, share.mem
      ensures Fits() && Val() == old(Val()).(sp := sp, ended := old(ended) || exits)
      ensures var k := old(share.Val()).(mem := mem);
        share.Val() == if exits then k.(owner := None, validsz := 0) else k
      ensures share.owner == if exits then null else this
    {
      Stop(mem, sp);
      if exits {
        var ok := Exit();
      }
    }

    /** `aco_destroy`: the share stack forgets the coroutine. */
    method Destroy()
      modifies share
      ensures share.Val() ==
        if old(share.owner) == this then old(share.Val()).(owner := None, validsz := 0) else old(share.Val())
      ensures share.owner == if old(share.owner) == this then null else old(share.owner)
    {
      if share.owner == this {
        share.owner := null;
        share.validsz := 0;
      }
    }
  }
}
