/** Augmented trees: `rb_augment_insert`, `rb_augment_erase_begin`, `rb_augment_erase_end`.

    The callback recomputes what a node keeps (`aug`) from its own datum and what its children
    keep. */
module RbAugment {
  import opened Common
  import opened RbTree
  import opened RbHeap
  import opened RbInsert
  import opened RbEraseColor
  import opened RbErase
  import opened RbWalk

  type Recompute = (int, Option<int>, Option<int>) -> int

  /** What every node owns and what every node keeps. */
  datatype Values<!T> = Values(own: map<T, int>, aug: map<T, int>)

  ghost function Kept<T>(t: Tree<T>, v: Values<T>): Option<int> {
    if t.Bin? && t.n in v.aug then Some(v.aug[t.n]) else None
  }

  ghost function Fresh<T>(t: Tree<T>, v: Values<T>, f: Recompute): int
    requires t.Bin? && t.n in v.own
  {
    f(v.own[t.n], Kept(t.l, v), Kept(t.r, v))
  }

  /** Every node of `t` keeps what the callback computes from its children. */
  ghost predicate Good<T>(t: Tree<T>, v: Values<T>, f: Recompute) {
    t.Leaf? || (
      && t.n in v.own && t.n in v.aug && v.aug[t.n] == Fresh(t, v, f)
      && Good(t.l, v, f) && Good(t.r, v, f))
  }

  /** Every node but the root. */
  ghost predicate KidsGood<T>(t: Tree<T>, v: Values<T>, f: Recompute) {
    t.Leaf? || (Good(t.l, v, f) && Good(t.r, v, f))
  }

  /** Only nodes on the way from `d` to the root, and siblings on that way, may be stale. */
  ghost predicate Almost<T>(t: Tree<T>, d: T, v: Values<T>, f: Recompute) {
    t.Bin? && (
      || (t.n == d && KidsGood(t, v, f))
      || (Almost(t.l, d, v, f) && KidsGood(t.r, v, f))
      || (Almost(t.r, d, v, f) && KidsGood(t.l, v, f)))
  }

  /** Only nodes on the way from `d` to the root may be stale. */
  ghost predicate Strictly<T>(t: Tree<T>, d: T, v: Values<T>, f: Recompute) {
    t.Bin? && (
      || (t.n == d && KidsGood(t, v, f))
      || (Strictly(t.l, d, v, f) && Good(t.r, v, f))
      || (Strictly(t.r, d, v, f) && Good(t.l, v, f)))
  }

  /** Everything beside the path is good. */
  ghost predicate PathGood<T>(p: Path<T>, v: Values<T>, f: Recompute)
    decreases p
  {
    p.Top? || (Good(Sibling(p), v, f) && PathGood(p.up, v, f))
  }

  ghost predicate PathKids<T>(p: Path<T>, v: Values<T>, f: Recompute)
    decreases p
  {
    p.Top? || (KidsGood(Sibling(p), v, f) && PathKids(p.up, v, f))
  }

  lemma {:induction false} StrictlyAlmost<T>(t: Tree<T>, d: T, v: Values<T>, f: Recompute)
    requires Strictly(t, d, v, f)
    ensures Almost(t, d, v, f)
  {
    if Strictly(t.l, d, v, f) && Good(t.r, v, f) { StrictlyAlmost(t.l, d, v, f); }
    if Strictly(t.r, d, v, f) && Good(t.l, v, f) { StrictlyAlmost(t.r, d, v, f); }
  }

  lemma {:induction false} AlmostPlug<T>(p: Path<T>, t: Tree<T>, d: T, v: Values<T>, f: Recompute)
    requires Almost(t, d, v, f) && PathGood(p, v, f)
    ensures Almost(Plug(p, t), d, v, f)
    decreases p
  {
    if !p.Top? {
      assert KidsGood(Sibling(p), v, f);
      AlmostPlug(p.up, Fill(p, t), d, v, f);
    }
  }

  lemma {:induction false} GoodUnplug<T>(p: Path<T>, t: Tree<T>, v: Values<T>, f: Recompute)
    requires Good(Plug(p, t), v, f)
    ensures Good(t, v, f) && PathGood(p, v, f)
    decreases p
  {
    if !p.Top? { GoodUnplug(p.up, Fill(p, t), v, f); }
  }

  /** From the description by `d` back to a place in the tree. */
  lemma {:induction false} FindStale<T>(t: Tree<T>, acc: Path<T>, d: T, v: Values<T>, f: Recompute)
    returns (p: Path<T>, u: Tree<T>)
    requires Almost(t, d, v, f) && PathKids(acc, v, f)
    ensures Plug(p, u) == Plug(acc, t) && u.Bin? && u.n == d && KidsGood(u, v, f) && PathKids(p, v, f)
    decreases t
  {
    if t.n == d && KidsGood(t, v, f) {
      p, u := acc, t;
    } else if Almost(t.l, d, v, f) && KidsGood(t.r, v, f) {
      p, u := FindStale(t.l, InL(t.n, t.red, t.r, acc), d, v, f);
    } else {
      p, u := FindStale(t.r, InR(t.l, t.n, t.red, acc), d, v, f);
    }
  }

  // ---------- After inserting ----------

  /** Where `rb_augment_insert` starts: a child of the new node if it has one. */
  ghost function Start<T>(t: Tree<T>, x: T): T
    requires t.Bin?
  {
    if t.n == x then (if t.l.Bin? then t.l.n else if t.r.Bin? then t.r.n else x)
    else if x in Elems(t.l) then Start(t.l, x)
    else if t.r.Bin? then Start(t.r, x) else x
  }

  lemma {:induction false} StartPlug<T>(p: Path<T>, t: Tree<T>, x: T)
    requires t.Bin? && x in Elems(t) && Distinct(Plug(p, t))
    ensures Plug(p, t).Bin? && Start(Plug(p, t), x) == Start(t, x)
    decreases p
  {
    if !p.Top? {
      PlugDistinct(p, t);
      StartPlug(p.up, Fill(p, t), x);
    }
  }

  lemma RotatedAlmost<T>(p: Path<T>, t: Tree<T>, x: T, v: Values<T>, f: Recompute)
    requires !p.Top? && !p.up.Top? && Strictly(t, x, v, f) && x in Elems(t) && Start(t, x) == x
    requires t.n == x ==> t.l.Leaf? && t.r.Leaf?
    requires Distinct(t) && p.n !in Elems(t) && p.up.n !in Elems(t)
    requires Elems(Sibling(p)) !! Elems(t) && Elems(Sibling(p.up)) !! Elems(t)
    requires Good(Sibling(p), v, f) && Good(Sibling(p.up), v, f)
    ensures Almost(Rotated(p, t), Start(Rotated(p, t), x), v, f)
  {
    StrictlyAlmost(t, x, v, f);
    var r := Rotated(p, t);
    if p.InL? != p.up.InL? && t.n != x {
      if Strictly(t.l, x, v, f) && Good(t.r, v, f) {
        StrictlyIn(t.l, x, v, f);
        StrictlyAlmost(t.l, x, v, f);
        assert Start(r, x) == Start(r.l, x) == x;
        assert Almost(r.l, x, v, f) && KidsGood(r.r, v, f);
      } else {
        StrictlyIn(t.r, x, v, f);
        StrictlyAlmost(t.r, x, v, f);
        assert x !in Elems(r.l);
        assert Start(r, x) == Start(r.r, x) == x;
        assert Almost(r.r, x, v, f) && KidsGood(r.l, v, f);
      }
    } else if p.InL? != p.up.InL? {
      assert Start(r, x) == r.l.n;
      assert KidsGood(r.l, v, f) && KidsGood(r.r, v, f);
      assert Almost(r.l, r.l.n, v, f);
    } else if p.InL? {
      assert r.l == t && Start(r, x) == x && KidsGood(r.r, v, f);
    } else {
      assert r.r == t && x !in Elems(r.l) && Start(r, x) == x && KidsGood(r.l, v, f);
    }
  }

  lemma {:induction false} StrictlyIn<T>(t: Tree<T>, d: T, v: Values<T>, f: Recompute)
    requires Strictly(t, d, v, f)
    ensures d in Elems(t)
  {
    if Strictly(t.l, d, v, f) { StrictlyIn(t.l, d, v, f); }
    if Strictly(t.r, d, v, f) { StrictlyIn(t.r, d, v, f); }
  }

  lemma RecolouredStrictly<T>(p: Path<T>, t: Tree<T>, x: T, v: Values<T>, f: Recompute)
    requires !p.Top? && !p.up.Top? && Strictly(t, x, v, f) && x in Elems(t) && Start(t, x) == x
    requires p.n !in Elems(t) && p.up.n !in Elems(t)
    requires Elems(Sibling(p)) !! Elems(t) && Elems(Sibling(p.up)) !! Elems(t)
    requires Good(Sibling(p), v, f) && Good(Sibling(p.up), v, f)
    ensures var g := Recoloured(Fill(p.up, Fill(p, t)));
      Strictly(g, x, v, f) && x in Elems(g) && Start(g, x) == x && g.n != x
  {
    var y := Fill(p, t);
    assert Strictly(y, x, v, f) && x in Elems(y) && Start(y, x) == x;
    assert Strictly(Blacken(y), x, v, f) && Start(Blacken(y), x) == x;
    assert Good(Blacken(Sibling(p.up)), v, f);
  }

  /** Wherever the fix-up rotated, only nodes on the way up from the starting place of
      `rb_augment_insert`, and siblings on that way, are stale. */
  lemma {:induction false} InsertFixAlmost<T>(p: Path<T>, t: Tree<T>, x: T, v: Values<T>, f: Recompute)
    requires Strictly(t, x, v, f) && PathGood(p, v, f)
    requires x in Elems(t) && Start(t, x) == x && (t.n == x ==> t.l.Leaf? && t.r.Leaf?)
    requires PDistinct(p) && Distinct(t) && PElems(p) !! Elems(t)
    ensures var r := InsertFix(p, t);
      r.Bin? && Almost(r, Start(r, x), v, f)
    decreases p
  {
    StrictlyAlmost(t, x, v, f);
    if p.Top? || !p.red || p.up.Top? {
      AlmostPlug(p, t, x, v, f);
      PlugDistinct(p, t);
      StartPlug(p, t, x);
      BlackenAlmost(Plug(p, t), x, v, f);
    } else if IsRed(Sibling(p.up)) {
      var g := Fill(p.up, Fill(p, t));
      RecolouredStrictly(p, t, x, v, f);
      FillSets(p, t);
      FillSets(p.up, Fill(p, t));
      BlackenKeeps(g.l);
      BlackenKeeps(g.r);
      InsertFixAlmost(p.up.up, Recoloured(g), x, v, f);
    } else {
      RotatedPlugAlmost(p, t, x, v, f);
      BlackenAlmost(Plug(p.up.up, Rotated(p, t)), x, v, f);
    }
  }

  lemma BlackenAlmost<T>(t: Tree<T>, x: T, v: Values<T>, f: Recompute)
    requires t.Bin? && Almost(t, Start(t, x), v, f)
    ensures Almost(Blacken(t), Start(Blacken(t), x), v, f)
  {
  }

  lemma RotatedPlugAlmost<T>(p: Path<T>, t: Tree<T>, x: T, v: Values<T>, f: Recompute)
    requires !p.Top? && !p.up.Top? && Strictly(t, x, v, f) && PathGood(p, v, f)
    requires x in Elems(t) && Start(t, x) == x && (t.n == x ==> t.l.Leaf? && t.r.Leaf?)
    requires PDistinct(p) && Distinct(t) && PElems(p) !! Elems(t)
    ensures var r := Plug(p.up.up, Rotated(p, t));
      r.Bin? && Almost(r, Start(r, x), v, f)
  {
    var r := Rotated(p, t);
    FillSets(p, t);
    FillSets(p.up, Fill(p, t));
    RotatedAlmost(p, t, x, v, f);
    RotatedSets(p, t);
    AlmostPlug(p.up.up, r, Start(r, x), v, f);
    PlugDistinct(p.up.up, r);
    StartPlug(p.up.up, r, x);
  }

  lemma FillSets<T>(p: Path<T>, t: Tree<T>)
    requires PDistinct(p) && Distinct(t) && PElems(p) !! Elems(t) && !p.Top?
    ensures PDistinct(p.up) && Distinct(Fill(p, t)) && PElems(p.up) !! Elems(Fill(p, t))
    ensures Elems(Fill(p, t)) == Elems(t) + {p.n} + Elems(Sibling(p))
    ensures p.n !in Elems(t) && Elems(Sibling(p)) !! Elems(t)
  {
  }

  lemma RotatedSets<T>(p: Path<T>, t: Tree<T>)
    requires !p.Top? && !p.up.Top? && t.Bin?
    ensures Elems(Rotated(p, t)) == Elems(Fill(p.up, Fill(p, t)))
    ensures Distinct(Fill(p.up, Fill(p, t))) ==> Distinct(Rotated(p, t))
  {
    match (p, p.up)
    case (InL(x, c, s, _), InL(g, d, u, _)) =>
      RotRKeeps(Bin(Bin(t, x, c, s), g, d, u));
    case (InR(s, x, c, _), InL(g, d, u, _)) =>
      RotLKeeps(Bin(s, x, c, t));
      RotRKeeps(Bin(Bin(Bin(s, x, c, t.l), t.n, t.red, t.r), g, d, u));
    case (InR(s, x, c, _), InR(u, g, d, _)) =>
      RotLKeeps(Bin(u, g, d, Bin(s, x, c, t)));
    case (InL(x, c, s, _), InR(u, g, d, _)) =>
      RotRKeeps(Bin(t, x, c, s));
      RotLKeeps(Bin(u, g, d, Bin(t.l, t.n, t.red, Bin(t.r, x, c, s))));
  }

  // ---------- After erasing ----------

  /** Where `rb_augment_erase_end` starts: what filled the hole, or else the node above it. */
  ghost predicate Hook<T>(p: Path<T>, t: Tree<T>, d: T, v: Values<T>, f: Recompute) {
    && PathGood(p, v, f)
    && if t.Bin? then Almost(t, d, v, f) else !p.Top? && p.n == d
  }

  lemma HookUp<T>(p: Path<T>, t: Tree<T>, d: T, v: Values<T>, f: Recompute)
    requires Hook(p, t, d, v, f) && !p.Top?
    ensures Almost(Fill(p, t), d, v, f)
  {
  }

  lemma RaisedAlmost<T>(p: Path<T>, t: Tree<T>, d: T, v: Values<T>, f: Recompute)
    requires Hook(p, t, d, v, f) && !p.Top? && Sibling(p).Bin? && (IsRed(Far(p)) || Near(p).Bin?)
    ensures Almost(Raised(Straight(p), t), d, v, f)
  {
    HookUp(p, t, d, v, f);
    var q := Straight(p);
    var r := Raised(q, t);
    var w := Sibling(p);
    assert KidsGood(w, v, f);
    if p.InL? {
      assert r.l == Bin(t, p.n, false, q.r.l);
      assert Good(q.r.l, v, f);
      assert Almost(r.l, d, v, f) && KidsGood(r.r, v, f);
    } else {
      assert r.r == Bin(q.l.r, p.n, false, t);
      assert Good(q.l.r, v, f);
      assert Almost(r.r, d, v, f) && KidsGood(r.l, v, f);
    }
  }

  lemma {:induction false} EraseFixAlmost<T>(p: Path<T>, t: Tree<T>, d: T, v: Values<T>, f: Recompute)
    requires Hook(p, t, d, v, f)
    ensures Almost(EraseFix(p, t), d, v, f)
    decreases Depth(p), if IsRed(t) then 0 else 1
  {
    if IsRed(t) || p.Top? {
      AlmostPlug(p, Blacken(t), d, v, f);
    } else if Sibling(p).Leaf? {
      HookUp(p, t, d, v, f);
      AlmostPlug(p.up, Fill(p, t), d, v, f);
    } else {
      var q := if IsRed(Sibling(p)) then Lowered(p) else p;
      LoweredHook(p, t, d, v, f);
      if Sibling(q).Leaf? {
        HookUp(q, t, d, v, f);
        AlmostPlug(q.up, Fill(q, t), d, v, f);
      } else if !IsRed(Near(q)) && !IsRed(Far(q)) {
        var s := WithSibling(q, Redden(Sibling(q)));
        assert Good(Redden(Sibling(q)), v, f);
        HookUp(s, t, d, v, f);
        EraseFixAlmost(q.up, Fill(s, t), d, v, f);
      } else {
        var r := Raised(Straight(q), t);
        RaisedAlmost(q, t, d, v, f);
        AlmostPlug(q.up, r, d, v, f);
      }
    }
  }

  lemma LoweredHook<T>(p: Path<T>, t: Tree<T>, d: T, v: Values<T>, f: Recompute)
    requires Hook(p, t, d, v, f) && !p.Top? && Sibling(p).Bin?
    ensures Hook(Lowered(p), t, d, v, f)
  {
    var q := Lowered(p);
    assert Good(Sibling(p).l, v, f) && Good(Sibling(p).r, v, f);
    assert Good(Sibling(q), v, f) && Good(Sibling(q.up), v, f);
  }

  lemma {:induction false} MinPathGood<T>(r: Tree<T>, acc: Path<T>, v: Values<T>, f: Recompute)
    requires r.Bin? && Good(r, v, f) && PathGood(acc, v, f)
    ensures PathGood(MinPath(r, acc), v, f) && Good(MinTree(r), v, f)
    decreases r
  {
    if r.l.Bin? { MinPathGood(r.l, InL(r.n, r.red, r.r, acc), v, f); }
  }

  /** The node `rb_augment_erase_begin` chooses before the node at (p, t) is erased. */
  ghost function Deepest(p: Path<Node>, t: Tree<Node>): Node?
    requires t.Bin?
  {
    var cut := CutOut(p, t.l, t.red, t.r);
    if cut.t.Bin? then cut.t.n else Above(cut.p)
  }

  /** Only the way up from `d` may be stale; without `d`, nothing is. */
  ghost predicate StaleFrom(t: Tree<Node>, d: Node?, v: Values<Node>, f: Recompute) {
    if d == null then t.Leaf? else Almost(t, d, v, f)
  }

  /** Wherever the erase rotated, only nodes on the way up from the node chosen beforehand, and
      siblings on that way, are stale. */
  lemma ErasedAlmost(p: Path<Node>, t: Tree<Node>, v: Values<Node>, f: Recompute)
    requires t.Bin? && Good(Plug(p, t), v, f)
    ensures StaleFrom(Erased(p, t.l, t.red, t.r), Deepest(p, t), v, f)
  {
    GoodUnplug(p, t, v, f);
    var cut := CutOut(p, t.l, t.red, t.r);
    if t.l.Bin? && t.r.Bin? {
      MinPathGood(t.r, InR(t.l, MinTree(t.r).n, t.red, p), v, f);
    }
    assert PathGood(cut.p, v, f) && Good(cut.t, v, f);
    if cut.t.Bin? || !cut.p.Top? {
      var d := if cut.t.Bin? then cut.t.n else cut.p.n;
      EraseFixAlmost(cut.p, cut.t, d, v, f);
      if cut.t.Bin? {
        AlmostPlug(cut.p, cut.t, d, v, f);
      } else {
        HookUp(cut.p, cut.t, d, v, f);
        AlmostPlug(cut.p.up, Fill(cut.p, cut.t), d, v, f);
      }
    }
  }

  // ---------- On nodes ----------

  ghost predicate Keeps(v: Values<Node>, s: set<Node>)
    reads s`own, s`aug
  {
    forall n :: n in s ==> n in v.own && n in v.aug && v.own[n] == n.own && v.aug[n] == n.aug
  }

  ghost function Refresh<T>(v: Values<T>, t: Tree<T>, f: Recompute): Values<T>
    requires t.Bin? && t.n in v.own
  {
    v.(aug := v.aug[t.n := Fresh(t, v, f)])
  }

  lemma {:induction false} RefreshElsewhere<T>(t: Tree<T>, u: Tree<T>, v: Values<T>, f: Recompute)
    requires u.Bin? && u.n in v.own && u.n in v.aug && u.n !in Elems(t)
    requires Good(t, v, f)
    ensures Good(t, Refresh(v, u, f), f)
  {
    if t.Bin? {
      RefreshElsewhere(t.l, u, v, f);
      RefreshElsewhere(t.r, u, v, f);
    }
  }

  lemma RefreshHere<T>(t: Tree<T>, v: Values<T>, f: Recompute)
    requires t.Bin? && t.n in v.own && t.n in v.aug && KidsGood(t, v, f) && Distinct(t)
    ensures Good(t, Refresh(v, t, f), f)
  {
    RefreshElsewhere(t.l, t, v, f);
    RefreshElsewhere(t.r, t, v, f);
    var w := Refresh(v, t, f);
    assert t.l.Bin? ==> t.l.n in Elems(t.l);
    assert t.r.Bin? ==> t.r.n in Elems(t.r);
    assert Kept(t.l, w) == Kept(t.l, v) && Kept(t.r, w) == Kept(t.r, v);
  }

  lemma RefreshKids<T>(t: Tree<T>, u: Tree<T>, v: Values<T>, f: Recompute)
    requires u.Bin? && u.n in v.own && u.n in v.aug && u.n !in Elems(t)
    requires KidsGood(t, v, f)
    ensures KidsGood(t, Refresh(v, u, f), f)
  {
    if t.Bin? {
      RefreshElsewhere(t.l, u, v, f);
      RefreshElsewhere(t.r, u, v, f);
    }
  }

  lemma {:induction false} RefreshPath<T>(p: Path<T>, u: Tree<T>, v: Values<T>, f: Recompute)
    requires u.Bin? && u.n in v.own && u.n in v.aug && u.n !in PElems(p)
    requires PathKids(p, v, f)
    ensures PathKids(p, Refresh(v, u, f), f)
    decreases p
  {
    if !p.Top? {
      RefreshKids(Sibling(p), u, v, f);
      RefreshPath(p.up, u, v, f);
    }
  }
}
