/** Share stacks and byte copies of libaco/aco.c, 64-bit x86. Addresses and sizes are integers below
    2^64; `sizeof(void*)` is 8. */
module AcoLayout {
  import opened Common

  const WORD: nat := 0x1_0000_0000_0000_0000
  const DEFAULT_STACK: nat := 1024 * 1024 * 2
  const MIN_STACK: nat := 4096

  /** `ptr` and `sz` are the usable area; `high` and `ret` are `align_highptr` and `align_retptr`. */
  datatype Layout = Layout(ptr: nat, sz: nat, high: nat, ret: nat, limit: nat)

  ghost predicate IsPow2(n: int) {
    n == 1 || (n > 1 && n % 2 == 0 && IsPow2(n / 2))
  }

  /** The least multiple of `pg` that is at least `n`. */
  function RoundUp(n: nat, pg: nat): (r: nat)
    requires pg > 0
    ensures n <= r < n + pg && r % pg == 0
  {
    MultipleOf(n / pg + 1, pg);
    if n % pg == 0 then n else (n / pg + 1) * pg
  }

  predicate Pages(n: nat, pgsz: nat)
    requires pgsz > 0
  {
    n % pgsz == 0
  }

  /** Whole pages that hold `wanted` bytes leave no room for the guard page. */
  ghost predicate NoRoom(wanted: nat, pgsz: nat)
    requires pgsz > 0
  {
    forall n: nat :: Pages(n, pgsz) && n >= wanted ==> n + pgsz >= WORD
  }

  lemma NoRoomIs(wanted: nat, pgsz: nat)
    requires pgsz > 0
    ensures NoRoom(wanted, pgsz) <==> RoundUp(wanted, pgsz) + pgsz >= WORD
  {
    var r := RoundUp(wanted, pgsz);
    assert Pages(r, pgsz);
    forall n: nat | Pages(n, pgsz) && n >= wanted ensures n >= r {
      NextMultiple(n, r, pgsz);
    }
  }

  lemma NextMultiple(n: nat, m: nat, pg: nat)
    requires pg > 0 && n % pg == 0 && m % pg == 0
    ensures n >= m || n + pg <= m
  {
    Exactly(n, pg);
    Exactly(m, pg);
    if n / pg < m / pg { MulLess(n / pg, m / pg, pg); } else { MulLeast(m / pg, n / pg, pg); }
  }

  lemma Exactly(n: nat, pg: nat)
    requires pg > 0 && n % pg == 0
    ensures n == n / pg * pg
  {
  }

  lemma MulLess(a: nat, b: nat, pg: nat)
    requires a < b
    ensures a * pg + pg <= b * pg
  {
    MulAtLeast(b - a, pg);
    assert (b - a) * pg == b * pg - a * pg;
  }

  lemma MulLeast(a: nat, b: nat, pg: nat)
    requires a <= b
    ensures a * pg <= b * pg
  {
    if a < b { MulLess(a, b, pg); }
  }

  /** Where a usable area of `sz` bytes at `ptr` puts the aligned pointers. */
  ghost predicate Placed(l: Layout) {
    && l.high % 16 == 0 && l.ptr + l.sz - 32 < l.high <= l.ptr + l.sz - 16
    && l.ret + 8 == l.high
    && l.limit + 32 == l.sz
  }

  lemma PlacedThere(ptr: nat, sz: nat)
    requires sz >= MIN_STACK
    ensures var high := (sz - 16 + ptr) / 16 * 16;
      high >= 8 && Placed(Layout(ptr, sz, high, high - 8, sz - 32))
  {
  }

  lemma MulAtLeast(k: nat, pg: nat)
    requires k >= 1
    ensures k * pg >= pg
  {
  }

  lemma MultipleOf(q: nat, pg: nat)
    requires pg > 0
    ensures q * pg / pg == q && q * pg % pg == 0
  {
    var n := q * pg;
    var a, r := n / pg, n % pg;
    assert n == a * pg + r;
    if a < q {
      assert r == (q - a) * pg;
      MulAtLeast(q - a, pg);
    } else if a > q {
      assert r == -((a - q) * pg);
      MulAtLeast(a - q, pg);
    }
  }

  /** The size arithmetic of `aco_share_stack_new2` with a guard page: the usable part is the
      requested size rounded up to a page, and there is one page more. None is a failed assertion. */
  method GuardedSize(requested: nat, pgsz: nat) returns (r: Option<nat>)
    requires MIN_STACK <= requested < WORD && 0 < pgsz < WORD / 2
    ensures r == if RoundUp(requested, pgsz) + pgsz < WORD then Some(RoundUp(requested, pgsz) + pgsz) else None
  {
    var sz := requested;
    var q := sz / pgsz;
    Rounded(sz, pgsz);
    if sz <= pgsz {
      sz := 2 * pgsz;
      OnePage(requested, pgsz);
      return Some(sz);
    }
    var newSz;
    if sz % pgsz != 0 {
      newSz := q * pgsz;
      MulAtLeast(q, pgsz);
      if newSz + 2 * pgsz >= WORD {
        return None;
      }
      newSz := newSz + 2 * pgsz;
      AddPages(q, 2, pgsz);
      if sz / pgsz + 2 != newSz / pgsz { return None; }
    } else {
      if sz + pgsz >= WORD {
        return None;
      }
      newSz := sz + pgsz;
      AddPages(q, 1, pgsz);
      if sz / pgsz + 1 != newSz / pgsz { return None; }
    }
    r := Some(newSz);
  }

  lemma AddPages(q: nat, k: nat, pg: nat)
    requires pg > 0
    ensures q * pg + k * pg == (q + k) * pg && (q * pg + k * pg) / pg == q + k
  {
    MultipleOf(q + k, pg);
  }

  lemma Rounded(n: nat, pg: nat)
    requires pg > 0
    ensures n == n / pg * pg + n % pg
    ensures RoundUp(n, pg) == n / pg * pg + if n % pg == 0 then 0 else pg
  {
    AddPages(n / pg, 1, pg);
  }

  lemma OnePage(n: nat, pg: nat)
    requires 0 < n <= pg
    ensures RoundUp(n, pg) == pg
  {
    if n < pg { assert n / pg == 0; }
  }

  /** `aco_share_stack_new2`. `alloc` is where the system puts a block of that many bytes. None is a
      failed assertion: a page size that is not a power of two, or a size that overflows. */
  method ShareStackNew2(sz: nat, guard: bool, pgsz: int, alloc: nat -> nat) returns (r: Option<Layout>)
    requires sz < WORD && -0x8000_0000_0000_0000 <= pgsz < 0x8000_0000_0000_0000
    requires forall n: nat :: n < WORD ==> alloc(n) + n <= WORD
    ensures r.Some? ==> Placed(r.value)
    ensures !guard ==> r.Some? && r.value.ptr == alloc(r.value.sz)
    ensures !guard ==> r.value.sz == if sz == 0 then 0x20_0000 else if sz < 4096 then 4096 else sz
    ensures r.Some? && guard ==>
      pgsz > 0 && IsPow2(pgsz) && r.value.sz % pgsz == 0 && r.value.ptr == alloc(r.value.sz + pgsz) + pgsz
    ensures r.Some? && guard && sz >= 4096 ==> sz <= r.value.sz < sz + pgsz
    ensures r.Some? && guard && 0 < sz < 4096 ==> 4096 <= r.value.sz < 4096 + pgsz
    ensures r.Some? && guard && sz == 0 ==> 0x20_0000 <= r.value.sz < 0x20_0000 + pgsz
    ensures var wanted := if sz == 0 then 0x20_0000 else if sz < 4096 then 4096 else sz;
      r.None? <==> guard && (pgsz <= 0 || !IsPow2(pgsz) || NoRoom(wanted, pgsz))
  {
    var size := if sz == 0 then DEFAULT_STACK else sz;
    if size < MIN_STACK {
      size := MIN_STACK;
    }
    var ptr := 0;
    if guard {
      var pow2 := PowerOfTwo(pgsz);
      if !(pgsz > 0 && pow2) {
        return None;
      }
      NoRoomIs(size, pgsz);
      var total := GuardedSize(size, pgsz);
      if total.None? {
        return None;
      }
      ptr := alloc(total.value) + pgsz;
      size := total.value - pgsz;
    } else {
      ptr := alloc(size);
    }
    var high := (size - 16 + ptr) / 16 * 16;
    PlacedThere(ptr, size);
    r := Some(Layout(ptr, size, high, high - 8, size - 16 - 16));
  }

  lemma PageIsPow2()
    ensures IsPow2(4096)
  {
    assert IsPow2(2) && IsPow2(4) && IsPow2(8) && IsPow2(16);
    assert IsPow2(32) && IsPow2(64) && IsPow2(128) && IsPow2(256);
    assert IsPow2(512) && IsPow2(1024) && IsPow2(2048);
  }

  lemma {:induction false} PowerIs(n: int) returns (e: nat)
    requires IsPow2(n)
    ensures n == Pow2(e)
    decreases n
  {
    if n == 1 {
      e := 0;
    } else {
      var k := PowerIs(n / 2);
      e := k + 1;
    }
  }

  lemma {:induction false} PowerIsPow2(e: nat)
    ensures Pow2(e) > 0 && IsPow2(Pow2(e))
  {
    if e > 0 {
      PowerIsPow2(e - 1);
      assert Pow2(e) / 2 == Pow2(e - 1);
    }
  }

  /** The test is for a power of two. */
  lemma IsPow2Exactly(n: int)
    ensures IsPow2(n) <==> exists e: nat :: n == Pow2(e)
  {
    if IsPow2(n) {
      var e := PowerIs(n);
    } else {
      forall e: nat ensures n != Pow2(e) { PowerIsPow2(e); }
    }
  }

  /** The bit test `((pgsz - 1) & pgsz) == 0`, as repeated halving. */
  method PowerOfTwo(n: int) returns (b: bool)
    ensures b <==> IsPow2(n)
  {
    var m := n;
    while m > 1 && m % 2 == 0
      invariant IsPow2(m) <==> IsPow2(n)
    {
      m := m / 2;
    }
    b := m == 1;
  }

  /** The eviction assertion of `aco_resume`. */
  predicate SpAccepted(l: Layout, sp: int) {
    l.ret >= sp && l.high - l.limit <= sp
  }

  /** Every stack pointer that passes lies inside the stack; what is saved, and put back at the same
      place, is inside the stack, ends where the protector word begins, and always passes the size
      assertion of the restore. */
  lemma AcceptedIsInside(l: Layout, sp: int)
    requires Placed(l) && SpAccepted(l, sp)
    ensures l.ptr < sp <= l.ret
    ensures var saved := l.ret - sp;
      0 <= saved <= l.limit - 8 && l.ptr < l.ret - saved
    ensures l.ret + 8 <= l.ptr + l.sz
  {
  }

  // ---------- Copies ----------

  /** `dst` after `n` bytes of `src` from `s` are put at `d`. */
  ghost function Copied(dst: seq<Byte>, d: nat, src: seq<Byte>, s: nat, n: nat): (r: seq<Byte>)
    requires d + n <= |dst| && s + n <= |src|
    ensures |r| == |dst|
  {
    dst[..d] + src[s..s + n] + dst[d + n..]
  }

  method Memcpy(dst: array<Byte>, d: nat, src: array<Byte>, s: nat, n: nat)
    requires dst != src && d + n <= dst.Length && s + n <= src.Length
    modifies dst
    ensures dst[..] == Copied(old(dst[..]), d, src[..], s, n)
  {
    forall i | 0 <= i < n { dst[d + i] := src[s + i]; }
  }

  /** The size half of `aco_amd64_inline_short_aligned_memcpy_test_ok`. */
  predicate ShortSize(n: nat) { n % 16 == 8 && n / 16 <= 8 }

  /** `aco_amd64_inline_short_aligned_memcpy`: all 16-byte blocks are loaded, then stored, then the
      last 8 bytes are copied. The nine cases of the switch are one block count. */
  method ShortCopy(dst: array<Byte>, d: nat, src: array<Byte>, s: nat, n: nat)
    requires dst != src && d + n <= dst.Length && s + n <= src.Length && ShortSize(n)
    modifies dst
    ensures dst[..] == Copied(old(dst[..]), d, src[..], s, n)
  {
    var blocks := n / 16;
    var xmm := Load16(src, s, blocks);
    StoreBlocks(dst, d, src, s, xmm);
    CopiedMore(old(dst[..]), d, src[..], s, n - 8, 8);
    Memcpy(dst, d + n - 8, src, s + n - 8, 8);
  }

  method StoreBlocks(dst: array<Byte>, d: nat, src: array<Byte>, s: nat, xmm: seq<seq<Byte>>)
    requires dst != src && d + 16 * |xmm| <= dst.Length && s + 16 * |xmm| <= src.Length
    requires forall j :: 0 <= j < |xmm| ==> xmm[j] == src[s + 16 * j..s + 16 * j + 16]
    modifies dst
    ensures dst[..] == Copied(old(dst[..]), d, src[..], s, 16 * |xmm|)
  {
    for k := 0 to |xmm|
      invariant dst[..] == Copied(old(dst[..]), d, src[..], s, 16 * k)
    {
      StoreBlock(dst, d, src, s, 16 * k, xmm[k], old(dst[..]));
    }
  }

  method Load16(src: array<Byte>, s: nat, blocks: nat) returns (xmm: seq<seq<Byte>>)
    requires s + 16 * blocks <= src.Length
    ensures |xmm| == blocks && forall j :: 0 <= j < blocks ==> xmm[j] == src[s + 16 * j..s + 16 * j + 16]
  {
    xmm := [];
    for k := 0 to blocks
      invariant |xmm| == k && forall j :: 0 <= j < k ==> xmm[j] == src[s + 16 * j..s + 16 * j + 16]
    {
      xmm := xmm + [src[s + 16 * k..s + 16 * k + 16]];
    }
  }

  method StoreBlock(dst: array<Byte>, d: nat, src: array<Byte>, s: nat, n: nat, x: seq<Byte>, ghost was: seq<Byte>)
    requires dst != src && d + n + 16 <= dst.Length && s + n + 16 <= src.Length && |was| == dst.Length
    requires dst[..] == Copied(was, d, src[..], s, n) && x == src[s + n..s + n + 16]
    modifies dst
    ensures dst[..] == Copied(was, d, src[..], s, n + 16)
  {
    CopiedMore(was, d, src[..], s, n, 16);
    Store16(dst, d + n, x);
  }

  /** Copying `m` bytes further. */
  lemma CopiedMore(dst: seq<Byte>, d: nat, src: seq<Byte>, s: nat, n: nat, m: nat)
    requires d + n + m <= |dst| && s + n + m <= |src|
    ensures Copied(Copied(dst, d, src, s, n), d + n, src, s + n, m) == Copied(dst, d, src, s, n + m)
  {
    var a, b := Copied(dst, d, src, s, n), Copied(dst, d, src, s, n + m);
    var c := Copied(a, d + n, src, s + n, m);
    assert a[..d + n] == dst[..d] + src[s..s + n];
    assert a[d + n + m..] == dst[d + n + m..];
    assert src[s..s + n] + src[s + n..s + n + m] == src[s..s + n + m];
    assert c == dst[..d] + (src[s..s + n] + src[s + n..s + n + m]) + dst[d + n + m..];
  }

  method Store16(dst: array<Byte>, d: nat, x: seq<Byte>)
    requires |x| == 16 && d + 16 <= dst.Length
    modifies dst
    ensures dst[..] == Copied(old(dst[..]), d, x, 0, 16)
  {
    forall i | 0 <= i < 16 { dst[d + i] := x[i]; }
  }

  /** `aco_amd64_optimized_memcpy_drop_in`; `aligned` says that both addresses are multiples of 16. */
  method CopyDropIn(dst: array<Byte>, d: nat, src: array<Byte>, s: nat, n: nat, aligned: bool)
    requires dst != src && d + n <= dst.Length && s + n <= src.Length
    modifies dst
    ensures dst[..] == Copied(old(dst[..]), d, src[..], s, n)
  {
    if aligned && n % 16 == 8 && n / 16 <= 8 {
      ShortCopy(dst, d, src, s, n);
    } else {
      Memcpy(dst, d, src, s, n);
    }
  }

  // ---------- The save buffer ----------

  /** The capacity after doubling until it is enough. */
  function Capacity(cap: nat, valid: nat): (r: nat)
    requires cap > 0
    ensures r >= valid && r >= cap
    ensures r == cap || r < 2 * valid
    decreases if cap < valid then valid - cap else 0
  {
    if cap >= valid then cap else Capacity(cap * 2, valid)
  }

  /** `r` is `sz` doubled as often as it takes to hold `valid`, and no more often. */
  ghost predicate LeastDoubling(sz: nat, valid: nat, r: nat) {
    exists e: nat :: r == sz * Pow2(e) && valid <= r && (e > 0 ==> sz * Pow2(e - 1) < valid)
  }

  lemma {:induction false} CapacityIsLeast(cap: nat, valid: nat) returns (e: nat)
    requires cap > 0
    ensures Capacity(cap, valid) == cap * Pow2(e) && (e > 0 ==> cap * Pow2(e - 1) < valid)
    ensures LeastDoubling(cap, valid, Capacity(cap, valid))
    decreases if cap < valid then valid - cap else 0
  {
    if cap >= valid {
      e := 0;
      assert cap * Pow2(e) == cap;
    } else {
      var k := CapacityIsLeast(cap * 2, valid);
      e := k + 1;
      TwiceLess(cap, k);
      assert cap * Pow2(0) == cap;
      if k > 0 { TwiceLess(cap, k - 1); }
    }
  }

  lemma TwiceLess(cap: nat, k: nat)
    ensures cap * 2 * Pow2(k) == cap * Pow2(k + 1)
  {
  }

  /** The doubling over size_t, at most `left` times; None is a capacity that came round to zero. */
  function Doubled(cap: nat, valid: nat, left: nat): (r: Option<nat>)
    requires 0 < cap < WORD
    ensures r.Some? ==> valid <= r.value && 0 < r.value < WORD
    decreases left
  {
    if cap >= valid then Some(cap)
    else if left == 0 || cap * 2 % WORD == 0 then None
    else Doubled(cap * 2 % WORD, valid, left - 1)
  }

  /** The capacity after a save of `valid` bytes; None is the failed assertion `sz > 0`. */
  function Grown(cap: nat, valid: nat): Option<nat>
    requires 0 < cap < WORD
  {
    Doubled(cap, valid, 64)
  }

  lemma NoWrap(cap: nat)
    requires 0 < cap < WORD / 2
    ensures cap * 2 % WORD == cap * 2
  {
  }

  lemma {:induction false} DoubledSmall(cap: nat, valid: nat, left: nat, e: nat)
    requires 0 < cap < WORD && valid <= WORD / 2 && Pow2(e) <= cap && valid <= Pow2(e + left)
    ensures Doubled(cap, valid, left) == Some(Capacity(cap, valid))
    decreases left
  {
    if cap < valid {
      assert left > 0;
      assert Pow2(e + 1) == 2 * Pow2(e);
      NoWrap(cap);
      DoubledSmall(cap * 2, valid, left - 1, e + 1);
    }
  }

  /** Up to half the address space, growing never fails, and at most doubles what is needed. */
  lemma GrownSmall(cap: nat, valid: nat)
    requires 0 < cap < WORD && valid <= WORD / 2
    ensures Grown(cap, valid) == Some(Capacity(cap, valid))
  {
    Power64();
    DoubledSmall(cap, valid, 64, 0);
  }

  /** The doubling loop of `aco_resume` over size_t; None is the failed assertion `sz > 0`. It never goes
      round more than 64 times; when it ends well, the capacity is enough and less than twice what is
      needed, and it ends well unless more than half the address space is asked for. */
  method Grow(sz: nat, valid: nat) returns (r: Option<nat>)
    requires 0 < sz < valid < WORD
    ensures r == Grown(sz, valid)
    ensures r.Some? ==> valid <= r.value < 2 * valid && r.value < WORD
    ensures r.None? ==> valid > WORD / 2
    ensures valid <= WORD / 2 ==> r.Some? && LeastDoubling(sz, valid, r.value)
  {
    var s := sz;
    ghost var k: nat, unit: nat, left: nat := sz, 1, 64;  // s == k * unit, unit == 2^(64 - left)
    Power64();
    if valid <= WORD / 2 {
      GrownSmall(sz, valid);
      var _ := CapacityIsLeast(sz, valid);
    }
    while true
      invariant 0 < s < valid
      invariant Doubled(s, valid, left) == Grown(sz, valid)
      invariant s == k * unit && k > 0 && unit > 0 && unit * Pow2(left) == WORD
      decreases left
    {
      RoomLeft(k, unit, left, s);
      k := HalfWay(k, unit, left, s);
      s := s * 2 % WORD;
      if !(s > 0) {
        return None;
      }
      if s >= valid {
        return Some(s);
      }
      unit, left := 2 * unit, left - 1;
    }
  }

  /** One doubling keeps a multiple of the doubled unit. */
  lemma HalfWay(k: nat, unit: nat, left: nat, s: nat) returns (j: nat)
    requires s == k * unit && k > 0 && unit > 0 && left > 0 && unit * Pow2(left) == WORD && s < WORD
    ensures s * 2 % WORD == j * (2 * unit) && 2 * unit * Pow2(left - 1) == WORD
    ensures s * 2 % WORD > 0 ==> j > 0
  {
    ghost var rest := Pow2(left - 1);
    assert 2 * unit * rest == WORD;
    j := k;
    if s * 2 >= WORD {
      assert s * 2 - WORD == k * (2 * unit) - rest * (2 * unit) == (k - rest) * (2 * unit);
      NotNegative(k - rest, 2 * unit);
      j := k - rest;
    }
  }

  lemma NotNegative(k: int, u: nat)
    requires k * u >= 0 && u > 0
    ensures k >= 0
  {
  }

  lemma Power64()
    ensures Pow2(64) == WORD
  {
    Pow2Add(4, 4); Pow2Add(8, 8); Pow2Add(16, 16); Pow2Add(32, 32);
  }

  lemma RoomLeft(k: nat, unit: nat, left: nat, s: nat)
    requires s == k * unit && k > 0 && unit > 0 && unit * Pow2(left) == WORD && s < WORD
    ensures left > 0
  {
    if left == 0 {
      MulAtLeast(k, unit);
    }
  }
}
