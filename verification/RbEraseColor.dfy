/** Erasing: the fix-up `__rb_erase_color`. */
module RbEraseColor {
  import opened RbTree
  import opened RbHeap
  import opened RbRotate
  import opened RbInsert

  // ---------- On trees ----------

  /** The path with its first sibling replaced. */
  ghost function WithSibling<T>(p: Path<T>, s: Tree<T>): (q: Path<T>)
    requires !p.Top?
    ensures !q.Top? && Sibling(q) == s && q.up == p.up && q.n == p.n && q.red == p.red
  {
    if p.InL? then InL(p.n, p.red, s, p.up) else InR(s, p.n, p.red, p.up)
  }

  /** Red sibling: it goes above the parent, so that the new sibling is black. */
  ghost function Lowered<T>(p: Path<T>): (q: Path<T>)
    requires !p.Top? && Sibling(p).Bin?
    ensures !q.Top? && q.red && q.n == p.n && !q.up.Top? && q.up.up == p.up && q.up.n == Sibling(p).n
  {
    match p
    case InL(x, _, w, up) => InL(x, true, w.l, InL(w.n, false, w.r, up))
    case InR(w, x, _, up) => InR(w.r, x, true, InR(w.l, w.n, false, up))
  }

  /** The nephews of the hole, the one further from it first. */
  ghost function Far<T>(p: Path<T>): Tree<T>
    requires !p.Top? && Sibling(p).Bin?
  {
    if p.InL? then p.r.r else p.l.l
  }

  ghost function Near<T>(p: Path<T>): Tree<T>
    requires !p.Top? && Sibling(p).Bin?
  {
    if p.InL? then p.r.l else p.l.r
  }

  /** Only the near nephew is red: it becomes the sibling, with a red far child. */
  ghost function Straight<T>(p: Path<T>): (q: Path<T>)
    requires !p.Top? && Sibling(p).Bin? && (IsRed(Far(p)) || Near(p).Bin?)
    ensures !q.Top? && Sibling(q).Bin? && q.up == p.up && q.n == p.n && q.red == p.red
  {
    if IsRed(Far(p)) then p
    else if p.InL? then
      var w := p.r;
      WithSibling(p, Bin(w.l.l, w.l.n, false, Bin(w.l.r, w.n, true, w.r)))
    else
      var w := p.l;
      WithSibling(p, Bin(Bin(w.l, w.n, true, w.r.l), w.r.n, false, w.r.r))
  }

  /** The last rotation: the sibling takes the parent's place and colour. */
  ghost function Raised<T>(p: Path<T>, t: Tree<T>): Tree<T>
    requires !p.Top? && Sibling(p).Bin?
  {
    match p
    case InL(x, c, w, _) => Bin(Bin(t, x, false, w.l), w.n, c, Blacken(w.r))
    case InR(w, x, c, _) => Bin(Blacken(w.l), w.n, c, Bin(w.r, x, false, t))
  }

  /** The tree that `__rb_erase_color` leaves when it starts at the subtree `t` of `Plug(p, t)`.
      (The sibling is never missing in a tree one black short at `t`; see `SiblingExists`.) */
  ghost function EraseFix<T>(p: Path<T>, t: Tree<T>): Tree<T>
    decreases Depth(p), if IsRed(t) then 0 else 1
  {
    if IsRed(t) || p.Top? then Plug(p, Blacken(t)) else
    if Sibling(p).Leaf? then Plug(p, t) else
    var q := if IsRed(Sibling(p)) then Lowered(p) else p;
    if Sibling(q).Leaf? then Plug(q, t)
    else if !IsRed(Near(q)) && !IsRed(Far(q)) then EraseFix(q.up, Fill(WithSibling(q, Redden(Sibling(q))), t))
    else Blacken(Plug(q.up, Raised(Straight(q), t)))
  }

  lemma LoweredKeeps<T>(p: Path<T>, t: Tree<T>)
    requires !p.Top? && Sibling(p).Bin?
    ensures Around(Lowered(p), t) == Around(p, t)
    ensures Fill(Lowered(p).up, Fill(Lowered(p), t))
         == if p.InL? then RotL(Bin(t, p.n, true, Blacken(p.r))) else RotR(Bin(Blacken(p.l), p.n, true, t))
  {
    var q := Lowered(p);
    FillKeeps(p, t);
    FillKeeps(q, t);
    FillKeeps(q.up, Fill(q, t));
    if p.InL? { RotLKeeps(Bin(t, p.n, true, Blacken(p.r))); } else { RotRKeeps(Bin(Blacken(p.l), p.n, true, t)); }
  }

  lemma StraightKeeps<T>(p: Path<T>, t: Tree<T>)
    requires !p.Top? && Sibling(p).Bin? && (IsRed(Far(p)) || Near(p).Bin?)
    ensures Inorder(Sibling(Straight(p))) == Inorder(Sibling(p))
    ensures p.InL? <==> Straight(p).InL?
  {
    if !IsRed(Far(p)) {
      if p.InL? {
        RotRKeeps(Bin(Blacken(p.r.l), p.r.n, true, p.r.r));
      } else {
        RotLKeeps(Bin(p.l.l, p.l.n, true, Blacken(p.l.r)));
      }
    }
  }

  lemma RaisedKeeps<T>(p: Path<T>, t: Tree<T>)
    requires !p.Top? && Sibling(p).Bin?
    ensures Inorder(Raised(p, t)) == Inorder(Fill(p, t))
  {
    if p.InL? {
      var w := p.r;
      var b := Bin(w.l, w.n, p.red, Blacken(w.r));
      assert Inorder(b) == Inorder(w);
      RotLKeeps(Bin(t, p.n, false, b));
    } else {
      var w := p.l;
      var b := Bin(Blacken(w.l), w.n, p.red, w.r);
      assert Inorder(b) == Inorder(w);
      RotRKeeps(Bin(b, p.n, false, t));
    }
  }

  /** The fix-up never changes the order of the nodes. */
  lemma {:induction false} EraseFixInorder<T>(p: Path<T>, t: Tree<T>)
    ensures Inorder(EraseFix(p, t)) == Around(p, t)
    decreases Depth(p), if IsRed(t) then 0 else 1
  {
    if IsRed(t) || p.Top? {
      BlackenKeeps(t);
      PlugInorder(p, Blacken(t));
    } else if Sibling(p).Leaf? {
      PlugInorder(p, t);
    } else {
      var q := if IsRed(Sibling(p)) then Lowered(p) else p;
      LoweredKeeps(p, t);
      FillKeeps(q, t);
      if Sibling(q).Leaf? {
        PlugInorder(q, t);
      } else if !IsRed(Near(q)) && !IsRed(Far(q)) {
        FillKeeps(WithSibling(q, Redden(Sibling(q))), t);
        EraseFixInorder(q.up, Fill(WithSibling(q, Redden(Sibling(q))), t));
      } else {
        var r := Straight(q);
        StraightKeeps(q, t);
        RaisedKeeps(r, t);
        BlackenKeeps(Plug(q.up, Raised(r, t)));
        PlugInorder(q.up, Raised(r, t));
      }
    }
  }

  /** Everything obeys the rules except that `t` is one black short (a red `t` makes up for it when
      it is painted black). */
  ghost predicate OneShort<T>(p: Path<T>, t: Tree<T>, h: nat) {
    PRB(p, h + 1) && if IsRed(t) then RB(Blacken(t), h + 1) else RB(t, h)
  }

  /** The sibling that the loop reads is never null. */
  lemma SiblingExists<T>(p: Path<T>, t: Tree<T>, h: nat)
    requires OneShort(p, t, h) && !p.Top?
    ensures Sibling(p).Bin? && RB(Sibling(p), h + 1)
    ensures IsRed(Sibling(p)) ==> Sibling(Lowered(p)).Bin? && !IsRed(Sibling(Lowered(p))) && OneShort(Lowered(p), t, h)
  {
    PRBUp(p, h + 1);
    if IsRed(Sibling(p)) {
      var q := Lowered(p);
      assert RB(Sibling(q), h + 1) && RB(Sibling(q.up), h + 1);
    }
  }

  lemma LoweredFix<T>(p: Path<T>, t: Tree<T>, h: nat)
    requires OneShort(p, t, h) && !IsRed(t) && !p.Top?
    ensures var q := if IsRed(Sibling(p)) then Lowered(p) else p;
      && EraseFix(q, t) == EraseFix(p, t)
      && (q == p || (q.red && Depth(q.up) == Depth(p)))
  {
    SiblingExists(p, t, h);
  }

  lemma ShortMovesUp<T>(q: Path<T>, t: Tree<T>, h: nat)
    requires OneShort(q, t, h) && !IsRed(t) && !q.Top? && Sibling(q).Bin? && !IsRed(Sibling(q))
    requires !IsRed(Near(q)) && !IsRed(Far(q))
    ensures OneShort(q.up, Fill(WithSibling(q, Redden(Sibling(q))), t), if q.red then h else h + 1)
  {
    PRBUp(q, h + 1);
    var w := Sibling(q);
    assert RB(Redden(w), h);
  }

  lemma RaisedRB<T>(q: Path<T>, t: Tree<T>, h: nat)
    requires OneShort(q, t, h) && !IsRed(t) && !q.Top? && Sibling(q).Bin? && !IsRed(Sibling(q))
    requires IsRed(Near(q)) || IsRed(Far(q))
    ensures var k := if q.red then h + 1 else h + 2;
      PRB(q.up, k) && RB(Raised(Straight(q), t), k)
    ensures IsRed(Raised(Straight(q), t)) ==> !q.up.Top? && !PRed(q.up)
  {
    PRBUp(q, h + 1);
    assert RB(Near(q), h) && RB(Far(q), h);
    if !IsRed(Far(q)) {
      assert RB(Near(q).l, h) && RB(Near(q).r, h);
    } else {
      assert RB(Blacken(Far(q)), h + 1);
    }
  }

  /** The fix-up ends in a valid red-black tree. */
  lemma {:induction false} EraseFixValid<T>(p: Path<T>, t: Tree<T>, h: nat)
    requires OneShort(p, t, h)
    ensures Valid(EraseFix(p, t))
    decreases Depth(p), if IsRed(t) then 0 else 1
  {
    if IsRed(t) {
      PlugValid(p, Blacken(t), h + 1);
    } else if p.Top? {
      PlugValid(p, t, h);
    } else {
      SiblingExists(p, t, h);
      var q := if IsRed(Sibling(p)) then Lowered(p) else p;
      if !IsRed(Near(q)) && !IsRed(Far(q)) {
        ShortMovesUp(q, t, h);
        EraseFixValid(q.up, Fill(WithSibling(q, Redden(Sibling(q))), t), if q.red then h else h + 1);
      } else {
        RaisedRB(q, t, h);
        PlugValid(q.up, Raised(Straight(q), t), if q.red then h + 1 else h + 2);
        BlackenIsSame(Plug(q.up, Raised(Straight(q), t)));
      }
    }
  }

  // ---------- On nodes ----------

  /** What the loop reads around a hole whose sibling is there. */
  lemma Besides(p: Path<Node>, t: Tree<Node>, x: Node?, st: Store)
    requires At(p, t, x, st) && !p.Top? && Sibling(p).Bin?
    ensures At(p.up, Fill(p, t), p.n, st) && x == Ref(t)
    ensures p.n in st.m && st.m[p.n].red == p.red && st.m[p.n].parent == Above(p.up)
    ensures var w := Sibling(p);
      && w.n in st.m && st.m[w.n].red == w.red
      && st.m[p.n].left == (if p.InL? then x else w.n) && st.m[p.n].right == (if p.InL? then w.n else x)
      && st.m[w.n].left == Ref(w.l) && st.m[w.n].right == Ref(w.r)
      && (w.l.Bin? ==> w.l.n in st.m && st.m[w.l.n].red == w.l.red)
      && (w.r.Bin? ==> w.r.n in st.m && st.m[w.r.n].red == w.r.red)
      && w.n != x
  {
    Around2(p, t, x, st);
    Ascend(p, t, x, st);
    ParentIsAbove(p, t, x, st);
    Unfold(Fill(p, t), p.n, st.m);
    var w := Sibling(p);
    assert Match(w, w.n, st.m);
    Unfold(w, w.n, st.m);
    if w.l.Bin? { Unfold(w.l, w.l.n, st.m); }
    if w.r.Bin? { Unfold(w.r, w.r.n, st.m); }
  }

  /** Red sibling, hole on the left. */
  method LowerLeft(other: Node, parent: Node, root: Root,
                  ghost p: Path<Node>, ghost t: Tree<Node>, ghost x: Node?, ghost st: Store)
    returns (ghost z: Store)
    requires Holds(st, root) && At(p, t, x, st)
    requires p.InL? && p.r.Bin? && p.r.n == other && p.n == parent
    modifies root, st.m.Keys`left, st.m.Keys`right, st.m.Keys`parent, st.m.Keys`red
    ensures Holds(z, root) && z.m.Keys == st.m.Keys && At(Lowered(p), t, x, z)
  {
    Besides(p, t, x, st);
    ghost var u := Fill(p, t);
    PaintRight(p.up, u, parent, st, false);
    z := SetColor(other, false, root, st);
    u := u.(r := Blacken(u.r));
    Unfold(u, parent, z.m);
    PaintAt(p.up, u, parent, z, true);
    z := SetColor(parent, true, root, z);
    u := Redden(u);
    z := RotateLeftAt(parent, root, p.up, u, z);
    LoweredKeeps(p, t);
    Unfold(RotL(u), other, z.m);
    Descend(Lowered(p).up, Fill(Lowered(p), t), other, z);
    Descend(Lowered(p), t, parent, z);
  }

  /** Both nephews black: the sibling turns red. */
  method FadeLeft(other: Node, parent: Node, root: Root,
                 ghost p: Path<Node>, ghost t: Tree<Node>, ghost x: Node?, ghost st: Store)
    returns (ghost z: Store)
    requires Holds(st, root) && At(p, t, x, st)
    requires p.InL? && p.r.Bin? && p.r.n == other && p.n == parent
    modifies other`red
    ensures Holds(z, root) && z.m.Keys == st.m.Keys
    ensures At(p.up, Fill(WithSibling(p, Redden(p.r)), t), parent, z)
    ensures parent in z.m && z.m[parent].parent == Above(p.up)
  {
    Besides(p, t, x, st);
    PaintRight(p.up, Fill(p, t), parent, st, true);
    z := SetColor(other, true, root, st);
    ParentIsAbove(p.up, Fill(WithSibling(p, Redden(p.r)), t), parent, z);
  }

  lemma RepaintNearLeft(b: Path<Node>, w: Tree<Node>, other: Node, st: Store)
    requires At(b, w, other, st) && w.Bin? && w.l.Bin?
    ensures w.l.n in st.m && other in st.m && st.m[other].left == w.l.n
    ensures At(b, Redden(w.(l := Blacken(w.l))), other, Paint(Paint(st, w.l.n, false), other, true))
  {
    Unfold(w, other, st.m);
    PaintLeft(b, w, other, st, false);
    PaintAt(b, w.(l := Blacken(w.l)), other, Paint(st, w.l.n, false), true);
  }

  /** Only the near nephew is red: rotate it up. */
  method StraightenLeft(other: Node, root: Root,
                       ghost p: Path<Node>, ghost t: Tree<Node>, ghost x: Node?, ghost st: Store)
    returns (ghost z: Store)
    requires Holds(st, root) && At(p, t, x, st)
    requires p.InL? && p.r.Bin? && p.r.n == other && p.r.l.Bin? && !IsRed(p.r.r)
    modifies root, st.m.Keys`left, st.m.Keys`right, st.m.Keys`parent, st.m.Keys`red
    ensures Holds(z, root) && z.m.Keys == st.m.Keys && At(Straight(p), t, x, z)
  {
    Besides(p, t, x, st);
    ghost var b, w := InR(t, p.n, p.red, p.up), p.r;
    Descend(b, w, p.n, st);
    RepaintNearLeft(b, w, other, st);
    z := SetColor(other.left, false, root, st);
    z := SetColor(other, true, root, z);
    w := Redden(w.(l := Blacken(w.l)));
    z := RotateRightAt(other, root, b, w, z);
    Ascend(b, RotR(w), p.r.l.n, z);
    Unfold(Fill(Straight(p), t), p.n, z.m);
    Descend(Straight(p), t, p.n, z);
  }

  /** The colours just before the last rotation. */
  lemma RepaintLeft(p: Path<Node>, t: Tree<Node>, x: Node?, st: Store)
    requires At(p, t, x, st) && p.InL? && p.r.Bin? && p.r.r.Bin?
    ensures p.n in st.m && p.r.n in st.m && p.r.r.n in st.m
    ensures var z := Paint(Paint(Paint(st, p.r.n, p.red), p.n, false), p.r.r.n, false);
      && z.m.Keys == st.m.Keys
      && At(p.up, Bin(t, p.n, false, Bin(p.r.l, p.r.n, p.red, Blacken(p.r.r))), p.n, z)
  {
    RepaintBothLeft(p, t, x, st);
    var z := Paint(Paint(st, p.r.n, p.red), p.n, false);
    PaintFarLeft(p.up, Bin(t, p.n, false, p.r.(red := p.red)), p.n, z);
  }

  lemma RepaintBothLeft(p: Path<Node>, t: Tree<Node>, x: Node?, st: Store)
    requires At(p, t, x, st) && p.InL? && p.r.Bin?
    ensures p.n in st.m && p.r.n in st.m
    ensures At(p.up, Bin(t, p.n, false, p.r.(red := p.red)), p.n, Paint(Paint(st, p.r.n, p.red), p.n, false))
  {
    Besides(p, t, x, st);
    var u := Fill(p, t);
    PaintRight(p.up, u, p.n, st, p.red);
    PaintAt(p.up, u.(r := p.r.(red := p.red)), p.n, Paint(st, p.r.n, p.red), false);
  }

  lemma PaintFarLeft(up: Path<Node>, u: Tree<Node>, x: Node, st: Store)
    requires At(up, u, x, st) && u.Bin? && u.r.Bin? && u.r.r.Bin?
    ensures u.r.r.n in st.m
    ensures At(up, u.(r := u.r.(r := Blacken(u.r.r))), x, Paint(st, u.r.r.n, false))
  {
    Unfold(u, x, st.m);
    var b := InR(u.l, u.n, u.red, up);
    Descend(b, u.r, x, st);
    PaintRight(b, u.r, u.r.n, st, false);
    Ascend(b, u.r.(r := Blacken(u.r.r)), u.r.n, Paint(st, u.r.r.n, false));
  }

  /** The far nephew is red: the last rotation. */
  method RaiseLeftSibling(other: Node, parent: Node, root: Root,
                         ghost p: Path<Node>, ghost t: Tree<Node>, ghost x: Node?, ghost st: Store)
    returns (ghost z: Store)
    requires Holds(st, root) && At(p, t, x, st)
    requires p.InL? && p.r.Bin? && p.r.n == other && p.n == parent && p.r.r.Bin?
    modifies root, st.m.Keys`left, st.m.Keys`right, st.m.Keys`parent, st.m.Keys`red
    ensures Holds(z, root) && z.m.Keys == st.m.Keys && At(p.up, Raised(p, t), other, z)
  {
    Besides(p, t, x, st);
    RepaintLeft(p, t, x, st);
    z := SetColor(other, parent.red, root, st);
    z := SetColor(parent, false, root, z);
    z := SetColor(other.right, false, root, z);
    z := RotateLeftAt(parent, root, p.up, Bin(t, p.n, false, Bin(p.r.l, p.r.n, p.red, Blacken(p.r.r))), z);
  }

  /** One round of the loop, hole on the left. */
  method EraseLeftRound(node: Node?, parent: Node, root: Root,
                       ghost p: Path<Node>, ghost t: Tree<Node>, ghost h: nat, ghost st: Store)
    returns (next: Node?, above: Node?, ghost q: Path<Node>, ghost u: Tree<Node>, ghost k: nat, ghost z: Store)
    requires Holds(st, root) && At(p, t, node, st) && OneShort(p, t, h)
    requires !IsRed(t) && p.InL? && p.n == parent
    modifies root, st.m.Keys`left, st.m.Keys`right, st.m.Keys`parent, st.m.Keys`red
    ensures Holds(z, root) && At(q, u, next, z) && z.m.Keys == st.m.Keys && above == Above(q)
    ensures EraseFix(q, u) == EraseFix(p, t)
    ensures q.Top? || OneShort(q, u, k)
    ensures Depth(q) < Depth(p) || (Depth(q) == Depth(p) && IsRed(u))
  {
    var other;
    other, q, z := BlackSiblingLeft(node, parent, root, p, t, h, st);
    LoweredFix(p, t, h);
    next, above, q, u, k, z := EraseBlackLeft(other, node, parent, root, q, t, h, z);
  }

  method BlackSiblingLeft(node: Node?, parent: Node, root: Root,
                         ghost p: Path<Node>, ghost t: Tree<Node>, ghost h: nat, ghost st: Store)
    returns (other: Node, ghost q: Path<Node>, ghost z: Store)
    requires Holds(st, root) && At(p, t, node, st) && OneShort(p, t, h)
    requires !IsRed(t) && p.InL? && p.n == parent
    modifies root, st.m.Keys`left, st.m.Keys`right, st.m.Keys`parent, st.m.Keys`red
    ensures Holds(z, root) && At(q, t, node, z) && z.m.Keys == st.m.Keys
    ensures OneShort(q, t, h) && q.InL? && q.n == parent && q.r.Bin? && !q.r.red && other == q.r.n
    ensures q == if IsRed(p.r) then Lowered(p) else p
  {
    SiblingExists(p, t, h);
    Besides(p, t, node, st);
    other := parent.right;
    q, z := p, st;
    if other.red {
      z := LowerLeft(other, parent, root, p, t, node, z);
      q := Lowered(p);
      Besides(q, t, node, z);
      other := parent.right;
    }
  }

  /** The rest of the round, with a black sibling. After the last rotation the code moves to the
      root and leaves the loop. */
  method EraseBlackLeft(sibling: Node, node: Node?, parent: Node, root: Root,
                       ghost p: Path<Node>, ghost t: Tree<Node>, ghost h: nat, ghost st: Store)
    returns (next: Node?, above: Node?, ghost q: Path<Node>, ghost u: Tree<Node>, ghost k: nat, ghost z: Store)
    requires Holds(st, root) && At(p, t, node, st) && OneShort(p, t, h)
    requires !IsRed(t) && p.InL? && p.n == parent && p.r.Bin? && !p.r.red && sibling == p.r.n
    modifies root, st.m.Keys`left, st.m.Keys`right, st.m.Keys`parent, st.m.Keys`red
    ensures Holds(z, root) && At(q, u, next, z) && z.m.Keys == st.m.Keys && above == Above(q)
    ensures EraseFix(q, u) == EraseFix(p, t)
    ensures q.Top? || OneShort(q, u, k)
    ensures Depth(q) <= Depth(p.up) && (p.red && !q.Top? ==> IsRed(u))
    ensures q.Top? || q == p.up
  {
    Besides(p, t, node, st);
    var other := sibling;
    k, z := if p.red then h else h + 1, st;
    if (other.left == null || !other.left.red) && (other.right == null || !other.right.red) {
      ShortMovesUp(p, t, h);
      q, u := p.up, Fill(WithSibling(p, Redden(p.r)), t);
      z := FadeLeft(other, parent, root, p, t, node, z);
      next := parent;
      above := parent.parent;
    } else {
      next, above, q, u, z := EraseTurnLeft(other, node, parent, root, p, t, z);
    }
  }

  method EraseTurnLeft(sibling: Node, node: Node?, parent: Node, root: Root,
                      ghost p: Path<Node>, ghost t: Tree<Node>, ghost st: Store)
    returns (next: Node?, above: Node?, ghost q: Path<Node>, ghost u: Tree<Node>, ghost z: Store)
    requires Holds(st, root) && At(p, t, node, st) && p.InL? && p.n == parent && p.r.Bin? && sibling == p.r.n
    requires IsRed(p.r.r) || p.r.l.Bin?
    modifies root, st.m.Keys`left, st.m.Keys`right, st.m.Keys`parent, st.m.Keys`red
    ensures Holds(z, root) && At(q, u, next, z) && z.m.Keys == st.m.Keys && above == null
    ensures q.Top? && u == Plug(p.up, Raised(Straight(p), t))
  {
    Besides(p, t, node, st);
    var other := sibling;
    ghost var r := Straight(p);
    z := st;
    if other.right == null || !other.right.red {
      z := StraightenLeft(other, root, p, t, node, z);
      Besides(r, t, node, z);
      other := parent.right;
    }
    z := RaiseLeftSibling(other, parent, root, r, t, node, z);
    PlugAt(r.up, Raised(r, t), other, z);
    q, u := Top, Plug(r.up, Raised(r, t));
    next, above := root.node, null;
  }

  /** Red sibling, hole on the right. */
  method LowerRight(other: Node, parent: Node, root: Root,
                  ghost p: Path<Node>, ghost t: Tree<Node>, ghost x: Node?, ghost st: Store)
    returns (ghost z: Store)
    requires Holds(st, root) && At(p, t, x, st)
    requires p.InR? && p.l.Bin? && p.l.n == other && p.n == parent
    modifies root, st.m.Keys`left, st.m.Keys`right, st.m.Keys`parent, st.m.Keys`red
    ensures Holds(z, root) && z.m.Keys == st.m.Keys && At(Lowered(p), t, x, z)
  {
    Besides(p, t, x, st);
    ghost var u := Fill(p, t);
    PaintLeft(p.up, u, parent, st, false);
    z := SetColor(other, false, root, st);
    u := u.(l := Blacken(u.l));
    Unfold(u, parent, z.m);
    PaintAt(p.up, u, parent, z, true);
    z := SetColor(parent, true, root, z);
    u := Redden(u);
    z := RotateRightAt(parent, root, p.up, u, z);
    LoweredKeeps(p, t);
    Unfold(RotR(u), other, z.m);
    Descend(Lowered(p).up, Fill(Lowered(p), t), other, z);
    Descend(Lowered(p), t, parent, z);
  }

  /** Both nephews black: the sibling turns red. */
  method FadeRight(other: Node, parent: Node, root: Root,
                 ghost p: Path<Node>, ghost t: Tree<Node>, ghost x: Node?, ghost st: Store)
    returns (ghost z: Store)
    requires Holds(st, root) && At(p, t, x, st)
    requires p.InR? && p.l.Bin? && p.l.n == other && p.n == parent
    modifies other`red
    ensures Holds(z, root) && z.m.Keys == st.m.Keys
    ensures At(p.up, Fill(WithSibling(p, Redden(p.l)), t), parent, z)
    ensures parent in z.m && z.m[parent].parent == Above(p.up)
  {
    Besides(p, t, x, st);
    PaintLeft(p.up, Fill(p, t), parent, st, true);
    z := SetColor(other, true, root, st);
    ParentIsAbove(p.up, Fill(WithSibling(p, Redden(p.l)), t), parent, z);
  }

  lemma RepaintNearRight(b: Path<Node>, w: Tree<Node>, other: Node, st: Store)
    requires At(b, w, other, st) && w.Bin? && w.r.Bin?
    ensures w.r.n in st.m && other in st.m && st.m[other].right == w.r.n
    ensures At(b, Redden(w.(r := Blacken(w.r))), other, Paint(Paint(st, w.r.n, false), other, true))
  {
    Unfold(w, other, st.m);
    PaintRight(b, w, other, st, false);
    PaintAt(b, w.(r := Blacken(w.r)), other, Paint(st, w.r.n, false), true);
  }

  /** Only the near nephew is red: rotate it up. */
  method StraightenRight(other: Node, root: Root,
                       ghost p: Path<Node>, ghost t: Tree<Node>, ghost x: Node?, ghost st: Store)
    returns (ghost z: Store)
    requires Holds(st, root) && At(p, t, x, st)
    requires p.InR? && p.l.Bin? && p.l.n == other && p.l.r.Bin? && !IsRed(p.l.l)
    modifies root, st.m.Keys`left, st.m.Keys`right, st.m.Keys`parent, st.m.Keys`red
    ensures Holds(z, root) && z.m.Keys == st.m.Keys && At(Straight(p), t, x, z)
  {
    Besides(p, t, x, st);
    ghost var b, w := InL(p.n, p.red, t, p.up), p.l;
    Descend(b, w, p.n, st);
    RepaintNearRight(b, w, other, st);
    z := SetColor(other.right, false, root, st);
    z := SetColor(other, true, root, z);
    w := Redden(w.(r := Blacken(w.r)));
    z := RotateLeftAt(other, root, b, w, z);
    Ascend(b, RotL(w), p.l.r.n, z);
    Unfold(Fill(Straight(p), t), p.n, z.m);
    Descend(Straight(p), t, p.n, z);
  }

  /** The colours just before the last rotation. */
  lemma RepaintRight(p: Path<Node>, t: Tree<Node>, x: Node?, st: Store)
    requires At(p, t, x, st) && p.InR? && p.l.Bin? && p.l.l.Bin?
    ensures p.n in st.m && p.l.n in st.m && p.l.l.n in st.m
    ensures var z := Paint(Paint(Paint(st, p.l.n, p.red), p.n, false), p.l.l.n, false);
      && z.m.Keys == st.m.Keys
      && At(p.up, Bin(Bin(Blacken(p.l.l), p.l.n, p.red, p.l.r), p.n, false, t), p.n, z)
  {
    RepaintBothRight(p, t, x, st);
    var z := Paint(Paint(st, p.l.n, p.red), p.n, false);
    PaintFarRight(p.up, Bin(p.l.(red := p.red), p.n, false, t), p.n, z);
  }

  lemma RepaintBothRight(p: Path<Node>, t: Tree<Node>, x: Node?, st: Store)
    requires At(p, t, x, st) && p.InR? && p.l.Bin?
    ensures p.n in st.m && p.l.n in st.m
    ensures At(p.up, Bin(p.l.(red := p.red), p.n, false, t), p.n, Paint(Paint(st, p.l.n, p.red), p.n, false))
  {
    Besides(p, t, x, st);
    var u := Fill(p, t);
    PaintLeft(p.up, u, p.n, st, p.red);
    PaintAt(p.up, u.(l := p.l.(red := p.red)), p.n, Paint(st, p.l.n, p.red), false);
  }

  lemma PaintFarRight(up: Path<Node>, u: Tree<Node>, x: Node, st: Store)
    requires At(up, u, x, st) && u.Bin? && u.l.Bin? && u.l.l.Bin?
    ensures u.l.l.n in st.m
    ensures At(up, u.(l := u.l.(l := Blacken(u.l.l))), x, Paint(st, u.l.l.n, false))
  {
    Unfold(u, x, st.m);
    var b := InL(u.n, u.red, u.r, up);
    Descend(b, u.l, x, st);
    PaintLeft(b, u.l, u.l.n, st, false);
    Ascend(b, u.l.(l := Blacken(u.l.l)), u.l.n, Paint(st, u.l.l.n, false));
  }

  /** The far nephew is red: the last rotation. */
  method RaiseRightSibling(other: Node, parent: Node, root: Root,
                         ghost p: Path<Node>, ghost t: Tree<Node>, ghost x: Node?, ghost st: Store)
    returns (ghost z: Store)
    requires Holds(st, root) && At(p, t, x, st)
    requires p.InR? && p.l.Bin? && p.l.n == other && p.n == parent && p.l.l.Bin?
    modifies root, st.m.Keys`left, st.m.Keys`right, st.m.Keys`parent, st.m.Keys`red
    ensures Holds(z, root) && z.m.Keys == st.m.Keys && At(p.up, Raised(p, t), other, z)
  {
    Besides(p, t, x, st);
    RepaintRight(p, t, x, st);
    z := SetColor(other, parent.red, root, st);
    z := SetColor(parent, false, root, z);
    z := SetColor(other.left, false, root, z);
    z := RotateRightAt(parent, root, p.up, Bin(Bin(Blacken(p.l.l), p.l.n, p.red, p.l.r), p.n, false, t), z);
  }

  /** One round of the loop, hole on the right. */
  method EraseRightRound(node: Node?, parent: Node, root: Root,
                       ghost p: Path<Node>, ghost t: Tree<Node>, ghost h: nat, ghost st: Store)
    returns (next: Node?, above: Node?, ghost q: Path<Node>, ghost u: Tree<Node>, ghost k: nat, ghost z: Store)
    requires Holds(st, root) && At(p, t, node, st) && OneShort(p, t, h)
    requires !IsRed(t) && p.InR? && p.n == parent
    modifies root, st.m.Keys`left, st.m.Keys`right, st.m.Keys`parent, st.m.Keys`red
    ensures Holds(z, root) && At(q, u, next, z) && z.m.Keys == st.m.Keys && above == Above(q)
    ensures EraseFix(q, u) == EraseFix(p, t)
    ensures q.Top? || OneShort(q, u, k)
    ensures Depth(q) < Depth(p) || (Depth(q) == Depth(p) && IsRed(u))
  {
    var other;
    other, q, z := BlackSiblingRight(node, parent, root, p, t, h, st);
    LoweredFix(p, t, h);
    next, above, q, u, k, z := EraseBlackRight(other, node, parent, root, q, t, h, z);
  }

  method BlackSiblingRight(node: Node?, parent: Node, root: Root,
                         ghost p: Path<Node>, ghost t: Tree<Node>, ghost h: nat, ghost st: Store)
    returns (other: Node, ghost q: Path<Node>, ghost z: Store)
    requires Holds(st, root) && At(p, t, node, st) && OneShort(p, t, h)
    requires !IsRed(t) && p.InR? && p.n == parent
    modifies root, st.m.Keys`left, st.m.Keys`right, st.m.Keys`parent, st.m.Keys`red
    ensures Holds(z, root) && At(q, t, node, z) && z.m.Keys == st.m.Keys
    ensures OneShort(q, t, h) && q.InR? && q.n == parent && q.l.Bin? && !q.l.red && other == q.l.n
    ensures q == if IsRed(p.l) then Lowered(p) else p
  {
    SiblingExists(p, t, h);
    Besides(p, t, node, st);
    other := parent.left;
    q, z := p, st;
    if other.red {
      z := LowerRight(other, parent, root, p, t, node, z);
      q := Lowered(p);
      Besides(q, t, node, z);
      other := parent.left;
    }
  }

  /** The rest of the round, with a black sibling. After the last rotation the code moves to the
      root and leaves the loop. */
  method EraseBlackRight(sibling: Node, node: Node?, parent: Node, root: Root,
                       ghost p: Path<Node>, ghost t: Tree<Node>, ghost h: nat, ghost st: Store)
    returns (next: Node?, above: Node?, ghost q: Path<Node>, ghost u: Tree<Node>, ghost k: nat, ghost z: Store)
    requires Holds(st, root) && At(p, t, node, st) && OneShort(p, t, h)
    requires !IsRed(t) && p.InR? && p.n == parent && p.l.Bin? && !p.l.red && sibling == p.l.n
    modifies root, st.m.Keys`left, st.m.Keys`right, st.m.Keys`parent, st.m.Keys`red
    ensures Holds(z, root) && At(q, u, next, z) && z.m.Keys == st.m.Keys && above == Above(q)
    ensures EraseFix(q, u) == EraseFix(p, t)
    ensures q.Top? || OneShort(q, u, k)
    ensures Depth(q) <= Depth(p.up) && (p.red && !q.Top? ==> IsRed(u))
    ensures q.Top? || q == p.up
  {
    Besides(p, t, node, st);
    var other := sibling;
    k, z := if p.red then h else h + 1, st;
    if (other.left == null || !other.left.red) && (other.right == null || !other.right.red) {
      ShortMovesUp(p, t, h);
      q, u := p.up, Fill(WithSibling(p, Redden(p.l)), t);
      z := FadeRight(other, parent, root, p, t, node, z);
      next := parent;
      above := parent.parent;
    } else {
      next, above, q, u, z := EraseTurnRight(other, node, parent, root, p, t, z);
    }
  }

  method EraseTurnRight(sibling: Node, node: Node?, parent: Node, root: Root,
                      ghost p: Path<Node>, ghost t: Tree<Node>, ghost st: Store)
    returns (next: Node?, above: Node?, ghost q: Path<Node>, ghost u: Tree<Node>, ghost z: Store)
    requires Holds(st, root) && At(p, t, node, st) && p.InR? && p.n == parent && p.l.Bin? && sibling == p.l.n
    requires IsRed(p.l.l) || p.l.r.Bin?
    modifies root, st.m.Keys`left, st.m.Keys`right, st.m.Keys`parent, st.m.Keys`red
    ensures Holds(z, root) && At(q, u, next, z) && z.m.Keys == st.m.Keys && above == null
    ensures q.Top? && u == Plug(p.up, Raised(Straight(p), t))
  {
    Besides(p, t, node, st);
    var other := sibling;
    ghost var r := Straight(p);
    z := st;
    if other.left == null || !other.left.red {
      z := StraightenRight(other, root, p, t, node, z);
      Besides(r, t, node, z);
      other := parent.left;
    }
    z := RaiseRightSibling(other, parent, root, r, t, node, z);
    PlugAt(r.up, Raised(r, t), other, z);
    q, u := Top, Plug(r.up, Raised(r, t));
    next, above := root.node, null;
  }

  lemma RootAbove(p: Path<Node>, x: Node?, st: Store)
    requires MatchPath(p, x, st) && !p.Top?
    ensures st.root != null && st.root in PElems(p)
  {
    if !p.up.Top? { RootAbove(p.up, p.n, st); }
  }

  lemma AtRoot(p: Path<Node>, t: Tree<Node>, x: Node?, st: Store)
    requires At(p, t, x, st)
    ensures x == st.root <==> p.Top?
    ensures x == Ref(t) && (x != null ==> x in st.m && st.m[x].red == t.red)
  {
    ParentIsAbove(p, t, x, st);
    if !p.Top? { RootAbove(p, x, st); }
  }

  /** `__rb_erase_color`. */
  method EraseColor(start: Node?, startParent: Node?, root: Root,
                    ghost p0: Path<Node>, ghost t0: Tree<Node>, ghost h0: nat, ghost st: Store)
    returns (ghost z: Store)
    requires Holds(st, root) && At(p0, t0, start, st) && OneShort(p0, t0, h0) && startParent == Above(p0)
    modifies root, st.m.Keys`left, st.m.Keys`right, st.m.Keys`parent, st.m.Keys`red
    ensures Holds(z, root) && z.m.Keys == st.m.Keys
    ensures At(Top, EraseFix(p0, t0), z.root, z)
  {
    var node, parent := start, startParent;
    ghost var p, t, h := p0, t0, h0;
    z := st;
    AtRoot(p, t, node, z);
    while (node == null || !node.red) && node != root.node
      invariant Holds(z, root) && At(p, t, node, z) && z.m.Keys == st.m.Keys && parent == Above(p)
      invariant node == z.root <==> p.Top?
      invariant node == Ref(t) && (node != null ==> node in z.m && z.m[node].red == t.red)
      invariant EraseFix(p, t) == EraseFix(p0, t0)
      invariant p.Top? || OneShort(p, t, h)
      decreases Depth(p), if IsRed(t) then 0 else 1
    {
      node, parent, p, t, h, z := EraseRound(node, parent, root, p, t, h, z);
      AtRoot(p, t, node, z);
    }
    if node != null {
      PaintAt(p, t, node, z, false);
      z := SetColor(node, false, root, z);
    }
    PlugAt(p, Blacken(t), node, z);
  }

  method EraseRound(node: Node?, parent: Node, root: Root,
                    ghost p: Path<Node>, ghost t: Tree<Node>, ghost h: nat, ghost st: Store)
    returns (next: Node?, above: Node?, ghost q: Path<Node>, ghost u: Tree<Node>, ghost k: nat, ghost z: Store)
    requires Holds(st, root) && At(p, t, node, st) && OneShort(p, t, h)
    requires !IsRed(t) && !p.Top? && p.n == parent
    modifies root, st.m.Keys`left, st.m.Keys`right, st.m.Keys`parent, st.m.Keys`red
    ensures Holds(z, root) && At(q, u, next, z) && z.m.Keys == st.m.Keys && above == Above(q)
    ensures EraseFix(q, u) == EraseFix(p, t)
    ensures q.Top? || OneShort(q, u, k)
    ensures Depth(q) < Depth(p) || (Depth(q) == Depth(p) && IsRed(u))
  {
    SiblingExists(p, t, h);
    Besides(p, t, node, st);
    if parent.left == node {
      next, above, q, u, k, z := EraseLeftRound(node, parent, root, p, t, h, st);
    } else {
      next, above, q, u, k, z := EraseRightRound(node, parent, root, p, t, h, st);
    }
  }
}
