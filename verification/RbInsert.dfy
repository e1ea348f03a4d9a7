/** Insertion: `rb_link_node` and `rb_insert_color`. */
module RbInsert {
  import opened RbTree
  import opened RbHeap
  import opened RbRotate

  // ---------- On trees ----------

  /** What is around the hole's grandparent: the other child of the path's first node. */
  ghost function Sibling<T>(p: Path<T>): Tree<T>
    requires !p.Top?
  {
    if p.InL? then p.r else p.l
  }

  /** The red-uncle case: the grandparent `g` turns red and both its children black. */
  ghost function Recoloured<T>(g: Tree<T>): Tree<T>
    requires g.Bin?
  {
    Bin(Blacken(g.l), g.n, true, Blacken(g.r))
  }

  /** The rotation case: `t` below parent `p` below grandparent `p.up`, all three on a line or bent. */
  ghost function Rotated<T>(p: Path<T>, t: Tree<T>): Tree<T>
    requires !p.Top? && !p.up.Top? && t.Bin?
  {
    match (p, p.up)
    case (InL(x, _, s, _), InL(g, _, u, _)) => Bin(t, x, false, Bin(s, g, true, u))
    case (InR(s, x, c, _), InL(g, _, u, _)) => Bin(Bin(s, x, c, t.l), t.n, false, Bin(t.r, g, true, u))
    case (InR(s, x, _, _), InR(u, g, _, _)) => Bin(Bin(u, g, true, s), x, false, t)
    case (InL(x, c, s, _), InR(u, g, _, _)) => Bin(Bin(u, g, true, t.l), t.n, false, Bin(t.r, x, c, s))
  }

  /** The tree that `rb_insert_color` leaves when it starts at the subtree `t` of `Plug(p, t)`. */
  ghost function InsertFix<T>(p: Path<T>, t: Tree<T>): Tree<T>
    requires t.Bin?
    decreases p
  {
    if p.Top? || !p.red || p.up.Top? then Blacken(Plug(p, t))
    else if IsRed(Sibling(p.up)) then InsertFix(p.up.up, Recoloured(Fill(p.up, Fill(p, t))))
    else Blacken(Plug(p.up.up, Rotated(p, t)))
  }

  ghost function Around<T>(p: Path<T>, t: Tree<T>): seq<T> { Before(p) + Inorder(t) + After(p) }

  lemma FillKeeps<T>(p: Path<T>, t: Tree<T>)
    requires !p.Top?
    ensures Around(p.up, Fill(p, t)) == Around(p, t)
  {
    match p
    case InL(n, _, r, up) => Assoc(Before(up), Inorder(t), n, Inorder(r), After(up));
    case InR(l, n, _, up) => Assoc(Before(up), Inorder(l), n, Inorder(t), After(up));
  }

  lemma BlackenKeeps<T>(t: Tree<T>)
    ensures Inorder(Blacken(t)) == Inorder(t) && Elems(Blacken(t)) == Elems(t)
    ensures Distinct(Blacken(t)) <==> Distinct(t)
  {
  }

  lemma RotatedKeeps<T>(p: Path<T>, t: Tree<T>)
    requires !p.Top? && !p.up.Top? && t.Bin?
    ensures Inorder(Rotated(p, t)) == Inorder(Fill(p.up, Fill(p, t)))
  {
    match (p, p.up)
    case (InL(x, c, s, _), InL(g, d, u, _)) =>
      RotRKeeps(Bin(Bin(t, x, c, s), g, d, u));
    case (InR(s, x, c, _), InL(g, d, u, _)) =>
      RotLKeeps(Bin(s, x, c, t));
      RotRKeeps(Bin(Bin(Bin(s, x, c, t.l), t.n, t.red, t.r), g, d, u));
    case (InR(s, x, c, _), InR(u, g, d, _)) =>
      RotLKeeps(Bin(u, g, d, Bin(s, x, c, t)));
    case (InL(x, c, s, _), InR(u, g, d, _)) =>
      RotRKeeps(Bin(t, x, c, s));
      RotLKeeps(Bin(u, g, d, Bin(t.l, t.n, t.red, Bin(t.r, x, c, s))));
  }

  /** The fix-up never changes the order of the nodes. */
  lemma {:induction false} InsertFixInorder<T>(p: Path<T>, t: Tree<T>)
    requires t.Bin?
    ensures Inorder(InsertFix(p, t)) == Around(p, t)
    decreases p
  {
    if p.Top? || !p.red || p.up.Top? {
      BlackenKeeps(Plug(p, t));
      PlugInorder(p, t);
    } else {
      var g := Fill(p.up, Fill(p, t));
      FillKeeps(p, t);
      FillKeeps(p.up, Fill(p, t));
      if IsRed(Sibling(p.up)) {
        BlackenKeeps(g.l); BlackenKeeps(g.r);
        InsertFixInorder(p.up.up, Recoloured(g));
      } else {
        RotatedKeeps(p, t);
        BlackenKeeps(Plug(p.up.up, Rotated(p, t)));
        PlugInorder(p.up.up, Rotated(p, t));
      }
    }
  }

  /** The only possible fault is a red node below a red node, at the hole. */
  ghost predicate OneRed<T>(p: Path<T>, t: Tree<T>, h: nat) {
    IsRed(t) && RB(t, h) && PRB(p, h)
  }

  lemma PRBUp<T>(p: Path<T>, h: nat)
    requires PRB(p, h) && !p.Top?
    ensures RB(Sibling(p), h) && PRB(p.up, if p.red then h else h + 1)
    ensures p.red ==> !IsRed(Sibling(p)) && !p.up.Top? && !p.up.red
  {
  }

  lemma RotatedRB<T>(p: Path<T>, t: Tree<T>, h: nat)
    requires OneRed(p, t, h) && PRed(p) && !p.up.Top? && !IsRed(Sibling(p.up))
    ensures RB(Rotated(p, t), h + 1) && !IsRed(Rotated(p, t))
    ensures PRB(p.up.up, h + 1)
  {
    PRBUp(p, h);
    PRBUp(p.up, h);
    assert RB(t.l, h) && RB(t.r, h);
  }

  lemma RecolouredRB<T>(p: Path<T>, t: Tree<T>, h: nat)
    requires OneRed(p, t, h) && PRed(p) && !p.up.Top? && IsRed(Sibling(p.up))
    ensures OneRed(p.up.up, Recoloured(Fill(p.up, Fill(p, t))), h + 1)
  {
    PRBUp(p, h);
    PRBUp(p.up, h);
    var x, u := Fill(p, t), Sibling(p.up);
    assert RB(Blacken(x), h + 1);
    assert RB(Blacken(u), h + 1);
  }

  /** The fix-up ends in a valid red-black tree. */
  lemma {:induction false} InsertFixValid<T>(p: Path<T>, t: Tree<T>, h: nat)
    requires OneRed(p, t, h)
    ensures Valid(InsertFix(p, t))
    decreases p
  {
    if p.Top? {
      assert RB(Blacken(t), h + 1);
    } else if !p.red {
      PlugValid(p, t, h);
      BlackenIsSame(Plug(p, t));
    } else if IsRed(Sibling(p.up)) {
      RecolouredRB(p, t, h);
      InsertFixValid(p.up.up, Recoloured(Fill(p.up, Fill(p, t))), h + 1);
    } else {
      RotatedRB(p, t, h);
      PlugValid(p.up.up, Rotated(p, t), h + 1);
      BlackenIsSame(Plug(p.up.up, Rotated(p, t)));
    }
  }

  lemma BlackenIsSame<T>(t: Tree<T>)
    requires !IsRed(t)
    ensures Blacken(t) == t
  {
  }

  // ---------- On nodes ----------

  lemma PaintKids(p: Path<Node>, t: Tree<Node>, x: Node, st: Store)
    requires At(p, t, x, st) && t.Bin? && t.l.Bin? && t.r.Bin?
    ensures t.l.n in st.m && t.r.n in st.m && x in st.m
    ensures var z := Paint(Paint(Paint(st, t.r.n, false), t.l.n, false), x, true);
      && At(p, Recoloured(t), x, z) && z.m.Keys == st.m.Keys
      && z == Paint(Paint(Paint(st, t.l.n, false), t.r.n, false), x, true)
  {
    PaintRight(p, t, x, st, false);
    var t1, s1 := t.(r := Blacken(t.r)), Paint(st, t.r.n, false);
    PaintLeft(p, t1, x, s1, false);
    var t2, s2 := t1.(l := Blacken(t.l)), Paint(s1, t.l.n, false);
    Unfold(t2, x, s2.m);
    PaintAt(p, t2, x, s2, true);
    assert t.l.n != t.r.n by { assert Distinct(t); }
    PaintsCommute(st, t.l.n, t.r.n);
  }

  lemma PaintsCommute(st: Store, a: Node, b: Node)
    requires a in st.m && b in st.m && a != b
    ensures Paint(Paint(st, b, false), a, false) == Paint(Paint(st, a, false), b, false)
  {
  }

  method Recolour(uncle: Node, parent: Node, gparent: Node, root: Root,
                  ghost p: Path<Node>, ghost t: Tree<Node>, ghost st: Store) returns (ghost z: Store)
    requires Holds(st, root) && At(p, t, gparent, st) && t.Bin? && t.l.Bin? && t.r.Bin?
    requires (uncle, parent) == (t.r.n, t.l.n) || (uncle, parent) == (t.l.n, t.r.n)
    modifies st.m.Keys`red
    ensures Holds(z, root) && At(p, Recoloured(t), gparent, z) && z.m.Keys == st.m.Keys
  {
    PaintKids(p, t, gparent, st);
    z := SetColor(uncle, false, root, st);
    z := SetColor(parent, false, root, z);
    z := SetColor(gparent, true, root, z);
  }

  /** The rotation case with the parent on the left of the grandparent; `next` is where the loop
      looks again, below a black parent. */
  method RaiseLeft(high: Node, gparent: Node, root: Root,
                    ghost p: Path<Node>, ghost u: Tree<Node>, ghost st: Store)
    returns (ghost z: Store)
    requires Holds(st, root) && At(p, u, high, st) && u.Bin?
    requires p.InL? && p.n == gparent
    modifies root, st.m.Keys`left, st.m.Keys`right, st.m.Keys`parent, st.m.Keys`red
    ensures Holds(z, root) && z.m.Keys == st.m.Keys
    ensures At(p.up, RotR(Redden(Fill(p, Blacken(u)))), high, z)
  {
    Unfold(u, high, st.m);
    PaintAt(p, u, high, st, false);
    z := SetColor(high, false, root, st);
    Ascend(p, Blacken(u), high, z);
    ghost var w := Fill(p, Blacken(u));
    Unfold(w, gparent, z.m);
    PaintAt(p.up, w, gparent, z, true);
    z := SetColor(gparent, true, root, z);
    z := RotateRightAt(gparent, root, p.up, Redden(w), z);
  }

  method TurnOnLeft(node: Node, parent: Node, gparent: Node, root: Root,
                    ghost p: Path<Node>, ghost t: Tree<Node>, ghost st: Store)
    returns (next: Node, ghost q: Path<Node>, ghost u: Tree<Node>, ghost z: Store)
    requires Holds(st, root) && At(p, t, node, st) && t.Bin?
    requires !p.Top? && p.n == parent && p.up.InL? && p.up.n == gparent
    modifies root, st.m.Keys`left, st.m.Keys`right, st.m.Keys`parent, st.m.Keys`red
    ensures Holds(z, root) && At(q, u, next, z) && z.m.Keys == st.m.Keys
    ensures q.InL? && !q.red && u.Bin? && Plug(q, u) == Plug(p.up.up, Rotated(p, t))
    ensures Depth(q) == Depth(p.up.up) + 1
  {
    var low, high := node, parent;
    u, z := Fill(p, t), st;
    Ascend(p, t, node, st);
    Around2(p, t, node, st);
    if parent.right == node {
      z := RotateLeftAt(parent, root, p.up, u, st);
      u := RotL(u);
      low, high := parent, node;
    }
    z := RaiseLeft(high, gparent, root, p.up, u, z);
    u := RotR(Redden(Fill(p.up, Blacken(u))));
    assert u == Rotated(p, t);
    Unfold(u, high, z.m);
    q := InL(u.n, u.red, u.r, p.up.up);
    u := u.l;
    Descend(q, u, high, z);
    next := low;
  }

  method RaiseRight(high: Node, gparent: Node, root: Root,
                    ghost p: Path<Node>, ghost u: Tree<Node>, ghost st: Store)
    returns (ghost z: Store)
    requires Holds(st, root) && At(p, u, high, st) && u.Bin?
    requires p.InR? && p.n == gparent
    modifies root, st.m.Keys`left, st.m.Keys`right, st.m.Keys`parent, st.m.Keys`red
    ensures Holds(z, root) && z.m.Keys == st.m.Keys
    ensures At(p.up, RotL(Redden(Fill(p, Blacken(u)))), high, z)
  {
    Unfold(u, high, st.m);
    PaintAt(p, u, high, st, false);
    z := SetColor(high, false, root, st);
    Ascend(p, Blacken(u), high, z);
    ghost var w := Fill(p, Blacken(u));
    Unfold(w, gparent, z.m);
    PaintAt(p.up, w, gparent, z, true);
    z := SetColor(gparent, true, root, z);
    z := RotateLeftAt(gparent, root, p.up, Redden(w), z);
  }

  method TurnOnRight(node: Node, parent: Node, gparent: Node, root: Root,
                    ghost p: Path<Node>, ghost t: Tree<Node>, ghost st: Store)
    returns (next: Node, ghost q: Path<Node>, ghost u: Tree<Node>, ghost z: Store)
    requires Holds(st, root) && At(p, t, node, st) && t.Bin?
    requires !p.Top? && p.n == parent && p.up.InR? && p.up.n == gparent
    modifies root, st.m.Keys`left, st.m.Keys`right, st.m.Keys`parent, st.m.Keys`red
    ensures Holds(z, root) && At(q, u, next, z) && z.m.Keys == st.m.Keys
    ensures q.InR? && !q.red && u.Bin? && Plug(q, u) == Plug(p.up.up, Rotated(p, t))
    ensures Depth(q) == Depth(p.up.up) + 1
  {
    var low, high := node, parent;
    u, z := Fill(p, t), st;
    Ascend(p, t, node, st);
    Around2(p, t, node, st);
    if parent.left == node {
      z := RotateRightAt(parent, root, p.up, u, st);
      u := RotR(u);
      low, high := parent, node;
    }
    z := RaiseRight(high, gparent, root, p.up, u, z);
    u := RotL(Redden(Fill(p.up, Blacken(u))));
    assert u == Rotated(p, t);
    Unfold(u, high, z.m);
    q := InR(u.l, u.n, u.red, p.up.up);
    u := u.r;
    Descend(q, u, high, z);
    next := low;
  }

  /** What the loop reads through `parent`, `gparent` and `uncle`; the grandparent is never null,
      because `parent` is red and the root is black. */
  lemma Grand(p: Path<Node>, t: Tree<Node>, x: Node, h: nat, st: Store)
    requires At(p, t, x, st) && PRed(p) && OneRed(p, t, h)
    ensures !p.up.Top? && x in st.m && st.m[x].parent == p.n && p.n in st.m && p.up.n in st.m
    ensures st.m[p.n].parent == p.up.n
    ensures p.up.InL? <==> st.m[p.up.n].left == p.n
    ensures var uncle := if p.up.InL? then st.m[p.up.n].right else st.m[p.up.n].left;
      && uncle == Ref(Sibling(p.up))
      && (uncle != null ==> uncle in st.m && st.m[uncle].red == Sibling(p.up).red)
    ensures At(p.up.up, Fill(p.up, Fill(p, t)), p.up.n, st)
  {
    PRBUp(p, h);
    ParentIsAbove(p, t, x, st);
    Around2(p, t, x, st);
    Ascend(p, t, x, st);
    Around2(p.up, Fill(p, t), p.n, st);
    Ascend(p.up, Fill(p, t), p.n, st);
    var g := Fill(p.up, Fill(p, t));
    Unfold(g, p.up.n, st.m);
    if g.l.Bin? { Unfold(g.l, g.l.n, st.m); }
    if g.r.Bin? { Unfold(g.r, g.r.n, st.m); }
  }

  /** One round of the loop of `rb_insert_color`, with the parent on the left. */
  method LeftRound(node: Node, parent: Node, gparent: Node, root: Root,
                   ghost p: Path<Node>, ghost t: Tree<Node>, ghost h: nat, ghost st: Store)
    returns (next: Node, ghost q: Path<Node>, ghost u: Tree<Node>, ghost k: nat, ghost z: Store)
    requires Holds(st, root) && At(p, t, node, st) && OneRed(p, t, h) && PRed(p)
    requires parent == p.n && p.up.InL? && gparent == p.up.n
    modifies root, st.m.Keys`left, st.m.Keys`right, st.m.Keys`parent, st.m.Keys`red
    ensures Holds(z, root) && At(q, u, next, z) && z.m.Keys == st.m.Keys
    ensures u.Bin? && InsertFix(q, u) == InsertFix(p, t) && Depth(q) < Depth(p)
    ensures !PRed(q) || OneRed(q, u, k)
  {
    Grand(p, t, node, h, st);
    k := h + 1;
    var uncle := gparent.right;
    if uncle != null && uncle.red {
      RecolouredRB(p, t, h);
      q, u := p.up.up, Recoloured(Fill(p.up, Fill(p, t)));
      z := Recolour(uncle, parent, gparent, root, q, Fill(p.up, Fill(p, t)), st);
      next := gparent;
    } else {
      next, q, u, z := TurnOnLeft(node, parent, gparent, root, p, t, st);
    }
  }

  /** One round of the loop of `rb_insert_color`, with the parent on the right. */
  method RightRound(node: Node, parent: Node, gparent: Node, root: Root,
                   ghost p: Path<Node>, ghost t: Tree<Node>, ghost h: nat, ghost st: Store)
    returns (next: Node, ghost q: Path<Node>, ghost u: Tree<Node>, ghost k: nat, ghost z: Store)
    requires Holds(st, root) && At(p, t, node, st) && OneRed(p, t, h) && PRed(p)
    requires parent == p.n && p.up.InR? && gparent == p.up.n
    modifies root, st.m.Keys`left, st.m.Keys`right, st.m.Keys`parent, st.m.Keys`red
    ensures Holds(z, root) && At(q, u, next, z) && z.m.Keys == st.m.Keys
    ensures u.Bin? && InsertFix(q, u) == InsertFix(p, t) && Depth(q) < Depth(p)
    ensures !PRed(q) || OneRed(q, u, k)
  {
    Grand(p, t, node, h, st);
    k := h + 1;
    var uncle := gparent.left;
    if uncle != null && uncle.red {
      RecolouredRB(p, t, h);
      q, u := p.up.up, Recoloured(Fill(p.up, Fill(p, t)));
      z := Recolour(uncle, parent, gparent, root, q, Fill(p.up, Fill(p, t)), st);
      next := gparent;
    } else {
      next, q, u, z := TurnOnRight(node, parent, gparent, root, p, t, st);
    }
  }

  method InsertRound(node: Node, root: Root, ghost p: Path<Node>, ghost t: Tree<Node>, ghost h: nat, ghost st: Store)
    returns (next: Node, ghost q: Path<Node>, ghost u: Tree<Node>, ghost k: nat, ghost z: Store)
    requires Holds(st, root) && At(p, t, node, st) && OneRed(p, t, h) && PRed(p)
    modifies root, st.m.Keys`left, st.m.Keys`right, st.m.Keys`parent, st.m.Keys`red
    ensures Holds(z, root) && At(q, u, next, z) && z.m.Keys == st.m.Keys
    ensures u.Bin? && InsertFix(q, u) == InsertFix(p, t) && Depth(q) < Depth(p)
    ensures !PRed(q) || OneRed(q, u, k)
  {
    Grand(p, t, node, h, st);
    var parent := node.parent;
    var gparent := parent.parent;
    if parent == gparent.left {
      next, q, u, k, z := LeftRound(node, parent, gparent, root, p, t, h, st);
    } else {
      next, q, u, k, z := RightRound(node, parent, gparent, root, p, t, h, st);
    }
  }

  method BlackenRoot(root: Root, ghost p: Path<Node>, ghost t: Tree<Node>, ghost x: Node, ghost st: Store)
    returns (ghost z: Store)
    requires Holds(st, root) && At(p, t, x, st)
    modifies st.m.Keys`red
    ensures Holds(z, root) && z.m.Keys == st.m.Keys
    ensures At(Top, Blacken(Plug(p, t)), z.root, z)
  {
    PlugAt(p, t, x, st);
    ParentIsAbove(p, t, x, st);
    PlugElems(p, t);
    assert x in Elems(Plug(p, t));
    Unfold(Plug(p, t), st.root, st.m);
    PaintAt(Top, Plug(p, t), st.root, st, false);
    z := SetColor(root.node, false, root, st);
  }

  /** `rb_insert_color`. */
  method InsertColor(start: Node, root: Root, ghost p0: Path<Node>, ghost t0: Tree<Node>,
                     ghost h0: nat, ghost st: Store)
    returns (ghost z: Store)
    requires Holds(st, root) && At(p0, t0, start, st) && OneRed(p0, t0, h0)
    modifies root, st.m.Keys`left, st.m.Keys`right, st.m.Keys`parent, st.m.Keys`red
    ensures Holds(z, root) && z.m.Keys == st.m.Keys
    ensures At(Top, InsertFix(p0, t0), z.root, z)
  {
    var node := start;
    ghost var p, t, h := p0, t0, h0;
    z := st;
    ParentIsAbove(p, t, node, z);
    Upward(p, t, node, z);
    while node.parent != null && node.parent.red
      invariant Holds(z, root) && At(p, t, node, z) && z.m.Keys == st.m.Keys
      invariant node in z.m && z.m[node].parent == Above(p)
      invariant Above(p) != null ==> Above(p) in z.m && z.m[Above(p)].red == p.red
      invariant t.Bin? && InsertFix(p, t) == InsertFix(p0, t0)
      invariant !PRed(p) || OneRed(p, t, h)
      decreases Depth(p)
    {
      node, p, t, h, z := InsertRound(node, root, p, t, h, z);
      Upward(p, t, node, z);
    }
    z := BlackenRoot(root, p, t, node, z);
  }

  lemma Upward(p: Path<Node>, t: Tree<Node>, x: Node, st: Store)
    requires At(p, t, x, st)
    ensures x in st.m && st.m[x].parent == Above(p)
    ensures Above(p) != null ==> Above(p) in st.m && st.m[Above(p)].red == p.red
  {
    ParentIsAbove(p, t, x, st);
    if !p.Top? { Around2(p, t, x, st); }
  }

  /** Which pointer `rb_link` designates. */
  datatype Link = RootLink | LeftLink | RightLink

  ghost function LinkOf<T>(p: Path<T>): Link {
    match p
    case Top => RootLink
    case InL(_, _, _, _) => LeftLink
    case InR(_, _, _, _) => RightLink
  }

  ghost function Linked(st: Store, p: Path<Node>, node: Node): Store {
    Store(
      if p.Top? then node else st.root,
      map n | n in st.m.Keys + {node} ::
        if n == node then Cell(Above(p), true, null, null) else
          var c := st.m[n];
          Cell(c.parent, c.red,
               if p.InL? && n == p.n then node else c.left,
               if p.InR? && n == p.n then node else c.right))
  }

  lemma LinkedLinks(p: Path<Node>, node: Node, st: Store)
    requires At(p, Leaf, null, st) && node !in st.m
    ensures Links(Linked(st, p, node))
  {
    if !p.Top? { Around2(p, Leaf, null, st); }
  }

  lemma LinkedAt(p: Path<Node>, node: Node, st: Store)
    requires At(p, Leaf, null, st) && node !in st.m
    ensures At(p, Bin(Leaf, node, true, Leaf), node, Linked(st, p, node))
  {
    var z, t := Linked(st, p, node), Bin(Leaf, node, true, Leaf);
    SwingPath(p, null, node, st);
    FramePath(p, node, Swing(p, node, st), z);
    LinkedLinks(p, node, st);
    assert Elems(t) == {node};
    assert Match(t, node, z.m);
  }

  /** `rb_link_node`: a red leaf in an empty place. */
  method LinkNode(node: Node, parent: Node?, link: Link, root: Root, ghost p: Path<Node>, ghost st: Store)
    returns (ghost z: Store)
    requires Holds(st, root) && At(p, Leaf, null, st) && node !in st.m
    requires parent == Above(p) && link == LinkOf(p)
    modifies root, node`parent, node`red, node`left, node`right, st.m.Keys`left, st.m.Keys`right
    ensures Holds(z, root) && z.m.Keys == st.m.Keys + {node}
    ensures At(p, Bin(Leaf, node, true, Leaf), node, z)
  {
    LinkedAt(p, node, st);
    if !p.Top? { assert p.n in PElems(p); }
    z := Linked(st, p, node);
    SetLinks(node, parent, link, root, p, st);
  }

  /** The stores of `rb_link_node`. */
  method SetLinks(node: Node, parent: Node?, link: Link, root: Root, ghost p: Path<Node>, ghost st: Store)
    requires Holds(st, root) && node !in st.m && (p.Top? || p.n in st.m)
    requires parent == Above(p) && link == LinkOf(p)
    modifies root, node`parent, node`red, node`left, node`right, st.m.Keys`left, st.m.Keys`right
    ensures Holds(Linked(st, p, node), root)
  {
    node.parent := parent;
    node.red := true;
    node.left := null;
    node.right := null;
    match link {
      case RootLink => root.node := node;
      case LeftLink => parent.left := node;
      case RightLink => parent.right := node;
    }
  }

  /** Insertion of a node at an empty place of a valid tree: afterwards the nodes form a valid
      red-black tree, parent links included, with the new node at that place in the order. */
  method Insert(node: Node, parent: Node?, link: Link, root: Root, ghost p: Path<Node>, ghost st: Store)
    returns (ghost t: Tree<Node>, ghost z: Store)
    requires Holds(st, root) && At(p, Leaf, null, st) && node !in st.m
    requires Valid(Plug(p, Leaf))
    requires parent == Above(p) && link == LinkOf(p)
    modifies root, node`parent, node`red, node`left, node`right
    modifies st.m.Keys`left, st.m.Keys`right, st.m.Keys`parent, st.m.Keys`red
    ensures Holds(z, root) && At(Top, t, root.node, z) && z.m.Keys == st.m.Keys + {node}
    ensures t == InsertFix(p, Bin(Leaf, node, true, Leaf))
    ensures Valid(t) && Inorder(t) == Before(p) + [node] + After(p)
  {
    ghost var leaf := Bin(Leaf, node, true, Leaf);
    ghost var h := UnplugValid(p, Leaf);
    z := LinkNode(node, parent, link, root, p, st);
    assert OneRed(p, leaf, h);
    t := InsertFix(p, leaf);
    InsertFixValid(p, leaf, h);
    InsertFixInorder(p, leaf);
    assert Inorder(leaf) == [node];
    z := InsertColor(node, root, p, leaf, h, z);
  }
}
