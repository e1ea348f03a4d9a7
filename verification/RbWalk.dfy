/** Walking in order through parent links: `rb_first`, `rb_last`, `rb_next`, `rb_prev`. */
module RbWalk {
  import opened RbTree
  import opened RbHeap
  import opened RbInsert
  import opened RbErase

  /** The node's place: what comes before it and after it in the order of the whole tree. */
  ghost function Earlier<T>(p: Path<T>, t: Tree<T>): seq<T>
    requires t.Bin?
  {
    Before(p) + Inorder(t.l)
  }

  ghost function Later<T>(p: Path<T>, t: Tree<T>): seq<T>
    requires t.Bin?
  {
    Inorder(t.r) + After(p)
  }

  lemma PlaceInOrder<T>(p: Path<T>, t: Tree<T>)
    requires t.Bin?
    ensures Inorder(Plug(p, t)) == Earlier(p, t) + [t.n] + Later(p, t)
  {
    PlugInorder(p, t);
    Assoc(Before(p), Inorder(t.l), t.n, Inorder(t.r), After(p));
  }

  lemma {:induction false} DepthBound<T>(p: Path<T>, t: Tree<T>)
    ensures Depth(p) + Height(t) <= Height(Plug(p, t))
    decreases p
  {
    if !p.Top? { DepthBound(p.up, Fill(p, t)); }
  }

  /** How the two sides of the order change when the focus moves. */
  lemma OrderBelow<T>(p: Path<T>, t: Tree<T>)
    requires t.Bin?
    ensures Inorder(t) + After(p) == Inorder(t.l) + After(InL(t.n, t.red, t.r, p))
    ensures Before(p) + Inorder(t) == Before(InR(t.l, t.n, t.red, p)) + Inorder(t.r)
    ensures Before(p) + Inorder(t) == Before(p) + Inorder(t.l) + [t.n] + Inorder(t.r)
    ensures t.l.Leaf? ==> Inorder(t) + After(p) == [t.n] + Later(p, t)
    ensures t.r.Leaf? ==> Before(p) + Inorder(t) == Earlier(p, t) + [t.n]
  {
    assert Inorder(t) + After(p) == Inorder(t.l) + ([t.n] + Inorder(t.r) + After(p));
    assert Before(p) + Inorder(t) == Before(p) + Inorder(t.l) + [t.n] + Inorder(t.r);
  }

  lemma OrderAbove<T>(p: Path<T>, t: Tree<T>)
    requires !p.Top?
    ensures p.InR? ==> Before(p.up) + Inorder(Fill(p, t)) == Before(p) + Inorder(t) && After(p.up) == After(p)
    ensures p.InL? ==> Inorder(Fill(p, t)) + After(p.up) == Inorder(t) + After(p) && Before(p.up) == Before(p)
  {
    if p.InR? { OrderBelow(p.up, Fill(p, t)); } else { OrderBelow(p.up, Fill(p, t)); }
  }

  lemma OrderStop<T>(p: Path<T>, t: Tree<T>)
    requires !p.Top?
    ensures var f := Fill(p, t);
      if p.InL? then After(p) == [p.n] + Later(p.up, f) && Before(p) + Inorder(t) == Earlier(p.up, f)
      else Before(p) == Earlier(p.up, f) + [p.n] && Inorder(t) + After(p) == Later(p.up, f)
  {
    if p.InL? {
      assert After(p) == [p.n] + (Inorder(p.r) + After(p.up));
    }
  }

  lemma LastEqual<T>(a: seq<T>, x: T, b: seq<T>, y: T)
    requires a + [x] == b + [y]
    ensures x == y
  {
    assert (a + [x])[|a|] == (b + [y])[|b|];
  }

  // ---------- Down the left or right edge ----------

  /** Down and left as far as possible. `steps` counts the iterations. */
  method Leftmost(start: Node, ghost p: Path<Node>, ghost t: Tree<Node>, ghost st: Store, root: Root)
    returns (n: Node, ghost q: Path<Node>, ghost u: Tree<Node>, ghost steps: nat)
    requires Holds(st, root) && At(p, t, start, st) && t.Bin?
    ensures At(q, u, n, st) && u.Bin? && u.l.Leaf?
    ensures Before(q) == Before(p) && [n] + Later(q, u) == Inorder(t) + After(p)
    ensures steps < Height(t)
  {
    n, q, u, steps := start, p, t, 0;
    Unfold(u, n, st.m);
    while n.left != null
      invariant u.Bin? && At(q, u, n, st) && n in st.m && n.left == Ref(u.l)
      invariant Before(q) == Before(p)
      invariant Inorder(u) + After(q) == Inorder(t) + After(p)
      invariant steps + Height(u) <= Height(t)
      decreases u
    {
      Unfold(u, n, st.m);
      ghost var down := InL(u.n, u.red, u.r, q);
      Descend(down, u.l, n, st);
      OrderBelow(q, u);
      n, q, u, steps := n.left, down, u.l, steps + 1;
      Unfold(u, n, st.m);
    }
    OrderBelow(q, u);
  }

  method Rightmost(start: Node, ghost p: Path<Node>, ghost t: Tree<Node>, ghost st: Store, root: Root)
    returns (n: Node, ghost q: Path<Node>, ghost u: Tree<Node>, ghost steps: nat)
    requires Holds(st, root) && At(p, t, start, st) && t.Bin?
    ensures At(q, u, n, st) && u.Bin? && u.r.Leaf?
    ensures After(q) == After(p) && Earlier(q, u) + [n] == Before(p) + Inorder(t)
    ensures steps < Height(t)
  {
    n, q, u, steps := start, p, t, 0;
    Unfold(u, n, st.m);
    while n.right != null
      invariant u.Bin? && At(q, u, n, st) && n in st.m && n.right == Ref(u.r)
      invariant After(q) == After(p)
      invariant Before(q) + Inorder(u) == Before(p) + Inorder(t)
      invariant steps + Height(u) <= Height(t)
      decreases u
    {
      Unfold(u, n, st.m);
      ghost var down := InR(u.l, u.n, u.red, q);
      Descend(down, u.r, n, st);
      OrderBelow(q, u);
      n, q, u, steps := n.right, down, u.r, steps + 1;
      Unfold(u, n, st.m);
    }
    OrderBelow(q, u);
  }

  /** `rb_first` */
  method First(root: Root, ghost t: Tree<Node>, ghost st: Store)
    returns (n: Node?, ghost q: Path<Node>, ghost u: Tree<Node>, ghost steps: nat)
    requires Holds(st, root) && At(Top, t, root.node, st)
    ensures n == null <==> Inorder(t) == []
    ensures n != null ==> n == Inorder(t)[0] && At(q, u, n, st) && u.Bin? && Earlier(q, u) == [] && Plug(q, u) == t
    ensures steps <= Height(t)
  {
    n, q, u, steps := root.node, Top, t, 0;
    ParentIsAbove(Top, t, n, st);
    if n == null {
      return;
    }
    n, q, u, steps := Leftmost(n, Top, t, st, root);
    SameTree(q, u, n, Top, t, root.node, st);
    PlaceInOrder(q, u);
  }

  /** `rb_last` */
  method Last(root: Root, ghost t: Tree<Node>, ghost st: Store)
    returns (n: Node?, ghost q: Path<Node>, ghost u: Tree<Node>, ghost steps: nat)
    requires Holds(st, root) && At(Top, t, root.node, st)
    ensures n == null <==> Inorder(t) == []
    ensures n != null ==>
      (n == Inorder(t)[|Inorder(t)| - 1] && At(q, u, n, st) && u.Bin? && Later(q, u) == [] && Plug(q, u) == t)
    ensures steps <= Height(t)
  {
    n, q, u, steps := root.node, Top, t, 0;
    ParentIsAbove(Top, t, n, st);
    if n == null {
      return;
    }
    n, q, u, steps := Rightmost(n, Top, t, st, root);
    SameTree(q, u, n, Top, t, root.node, st);
    PlaceInOrder(q, u);
  }

  /** A store holds at most one tree. */
  lemma SameTree(p: Path<Node>, t: Tree<Node>, x: Node?, q: Path<Node>, u: Tree<Node>, y: Node?, st: Store)
    requires At(p, t, x, st) && At(q, u, y, st)
    ensures Plug(p, t) == Plug(q, u)
  {
    PlugAt(p, t, x, st);
    PlugAt(q, u, y, st);
    MatchUnique(Plug(p, t), Plug(q, u), st.root, st.m);
  }

  lemma {:induction false} MatchUnique(t: Tree<Node>, u: Tree<Node>, x: Node?, m: map<Node, Cell>)
    requires Match(t, x, m) && Match(u, x, m)
    ensures t == u
  {
    if t.Bin? && u.Bin? {
      MatchUnique(t.l, u.l, m[t.n].left, m);
      MatchUnique(t.r, u.r, m[t.n].right, m);
    }
  }

  // ---------- Next and previous ----------

  /** `r` is the next node: null exactly for the last one; otherwise it is at (q, u), and the order
      is split one place further. */
  ghost predicate NextOf(p: Path<Node>, t: Tree<Node>, r: Node?, q: Path<Node>, u: Tree<Node>, st: Store)
    requires t.Bin?
  {
    && (r == null <==> Later(p, t) == [])
    && (r != null ==>
          && At(q, u, r, st) && u.Bin? && Plug(q, u) == Plug(p, t)
          && Earlier(q, u) == Earlier(p, t) + [t.n]
          && Later(p, t) == [r] + Later(q, u))
  }

  ghost predicate PrevOf(p: Path<Node>, t: Tree<Node>, r: Node?, q: Path<Node>, u: Tree<Node>, st: Store)
    requires t.Bin?
  {
    && (r == null <==> Earlier(p, t) == [])
    && (r != null ==>
          && At(q, u, r, st) && u.Bin? && Plug(q, u) == Plug(p, t)
          && Later(q, u) == [t.n] + Later(p, t)
          && Earlier(p, t) == Earlier(q, u) + [r])
  }

  /** `rb_next`: the node after this one in the order, or null for the last one. A node that is in
      no tree (its parent is itself) has none. */
  method Next(node: Node, root: Root, ghost p: Path<Node>, ghost t: Tree<Node>, ghost st: Store)
    returns (r: Node?, ghost q: Path<Node>, ghost u: Tree<Node>, ghost steps: nat)
    requires node.parent == node || (Holds(st, root) && At(p, t, node, st) && t.Bin?)
    ensures node.parent == node ==> r == null
    ensures node.parent != node ==> NextOf(p, t, r, q, u, st) && steps <= Height(Plug(p, t))
  {
    q, u, steps := p, t, 0;
    if node.parent == node {
      return null, q, u, steps;
    }
    Unfold(t, node, st.m);
    DepthBound(p, t);
    if node.right != null {
      r, q, u, steps := NextBelow(node, root, p, t, st);
      return;
    }
    OrderBelow(p, t);
    r, q, u, steps := NextAbove(node, root, p, t, st);
  }

  method NextBelow(node: Node, root: Root, ghost p: Path<Node>, ghost t: Tree<Node>, ghost st: Store)
    returns (r: Node, ghost q: Path<Node>, ghost u: Tree<Node>, ghost steps: nat)
    requires Holds(st, root) && At(p, t, node, st) && t.Bin? && t.r.Bin?
    ensures NextOf(p, t, r, q, u, st) && steps <= Height(t)
  {
    Unfold(t, node, st.m);
    ghost var down := InR(t.l, t.n, t.red, p);
    Descend(down, t.r, node, st);
    r, q, u, steps := Leftmost(node.right, down, t.r, st, root);
    SameTree(q, u, r, p, t, node, st);
    LeftmostIsNext(p, t, q, u);
  }

  lemma LeftmostIsNext<T>(p: Path<T>, t: Tree<T>, q: Path<T>, u: Tree<T>)
    requires t.Bin? && u.Bin? && u.l.Leaf?
    requires var down := InR(t.l, t.n, t.red, p);
      Before(q) == Before(down) && [u.n] + Later(q, u) == Inorder(t.r) + After(down)
    ensures Earlier(q, u) == Earlier(p, t) + [t.n] && Later(p, t) == [u.n] + Later(q, u)
  {
  }

  method NextAbove(node: Node, root: Root, ghost p: Path<Node>, ghost t: Tree<Node>, ghost st: Store)
    returns (r: Node?, ghost q: Path<Node>, ghost u: Tree<Node>, ghost steps: nat)
    requires Holds(st, root) && At(p, t, node, st) && t.Bin? && t.r.Leaf?
    ensures NextOf(p, t, r, q, u, st) && steps <= Depth(p)
  {
    q, u, steps := p, t, 0;
    OrderBelow(p, t);
    var n := node;
    r := n.parent;
    Upward2(q, u, n, st);
    while r != null && n == r.right
      invariant At(q, u, n, st) && u.Bin? && n in st.m && r == Above(q)
      invariant r != null ==> r in st.m && (n == st.m[r].right <==> q.InR?)
      invariant After(q) == Later(p, t) && Plug(q, u) == Plug(p, t)
      invariant Before(q) + Inorder(u) == Earlier(p, t) + [node]
      invariant steps + Depth(q) == Depth(p)
      decreases q
    {
      OrderAbove(q, u);
      Ascend(q, u, n, st);
      n, q, u, steps := r, q.up, Fill(q, u), steps + 1;
      Upward2(q, u, n, st);
      r := n.parent;
    }
    if r != null {
      OrderStop(q, u);
      Ascend(q, u, n, st);
      q, u := q.up, Fill(q, u);
    }
  }

  /** `rb_prev` */
  method Prev(node: Node, root: Root, ghost p: Path<Node>, ghost t: Tree<Node>, ghost st: Store)
    returns (r: Node?, ghost q: Path<Node>, ghost u: Tree<Node>, ghost steps: nat)
    requires node.parent == node || (Holds(st, root) && At(p, t, node, st) && t.Bin?)
    ensures node.parent == node ==> r == null
    ensures node.parent != node ==> PrevOf(p, t, r, q, u, st) && steps <= Height(Plug(p, t))
  {
    q, u, steps := p, t, 0;
    if node.parent == node {
      return null, q, u, steps;
    }
    Unfold(t, node, st.m);
    DepthBound(p, t);
    if node.left != null {
      r, q, u, steps := PrevBelow(node, root, p, t, st);
      return;
    }
    OrderBelow(p, t);
    r, q, u, steps := PrevAbove(node, root, p, t, st);
  }

  method PrevBelow(node: Node, root: Root, ghost p: Path<Node>, ghost t: Tree<Node>, ghost st: Store)
    returns (r: Node, ghost q: Path<Node>, ghost u: Tree<Node>, ghost steps: nat)
    requires Holds(st, root) && At(p, t, node, st) && t.Bin? && t.l.Bin?
    ensures PrevOf(p, t, r, q, u, st) && steps <= Height(t)
  {
    Unfold(t, node, st.m);
    ghost var down := InL(t.n, t.red, t.r, p);
    Descend(down, t.l, node, st);
    r, q, u, steps := Rightmost(node.left, down, t.l, st, root);
    assert After(down) == [t.n] + Later(p, t) by { OrderStop(down, t.l); }
    assert Later(q, u) == After(q);
    SameTree(q, u, r, p, t, node, st);
  }

  method PrevAbove(node: Node, root: Root, ghost p: Path<Node>, ghost t: Tree<Node>, ghost st: Store)
    returns (r: Node?, ghost q: Path<Node>, ghost u: Tree<Node>, ghost steps: nat)
    requires Holds(st, root) && At(p, t, node, st) && t.Bin? && t.l.Leaf?
    ensures PrevOf(p, t, r, q, u, st) && steps <= Depth(p)
  {
    q, u, steps := p, t, 0;
    OrderBelow(p, t);
    var n := node;
    r := n.parent;
    Upward2(q, u, n, st);
    while r != null && n == r.left
      invariant At(q, u, n, st) && u.Bin? && n in st.m && r == Above(q)
      invariant r != null ==> r in st.m && (n == st.m[r].left <==> q.InL?)
      invariant Before(q) == Earlier(p, t) && Plug(q, u) == Plug(p, t)
      invariant Inorder(u) + After(q) == [node] + Later(p, t)
      invariant steps + Depth(q) == Depth(p)
      decreases q
    {
      OrderAbove(q, u);
      Ascend(q, u, n, st);
      n, q, u, steps := r, q.up, Fill(q, u), steps + 1;
      Upward2(q, u, n, st);
      r := n.parent;
    }
    if r != null {
      OrderStop(q, u);
      Ascend(q, u, n, st);
      q, u := q.up, Fill(q, u);
    }
  }

  lemma Upward2(p: Path<Node>, t: Tree<Node>, x: Node, st: Store)
    requires At(p, t, x, st)
    ensures x in st.m && st.m[x].parent == Above(p)
    ensures Above(p) != null ==> Above(p) in st.m
    ensures Above(p) != null ==> (x == st.m[Above(p)].right <==> p.InR?) && (x == st.m[Above(p)].left <==> p.InL?)
  {
    ParentIsAbove(p, t, x, st);
    if !p.Top? { Around2(p, t, x, st); }
  }

  /** `rb_prev` undoes `rb_next`. */
  method PrevOfNext(node: Node, root: Root, ghost p: Path<Node>, ghost t: Tree<Node>, ghost st: Store)
    returns (r: Node?, back: Node?)
    requires Holds(st, root) && At(p, t, node, st) && t.Bin?
    ensures r != null ==> back == node
    ensures r == null <==> Later(p, t) == []
  {
    ghost var q, u, k := p, t, 0;
    NotSelf(p, t, node, st);
    r, q, u, k := Next(node, root, p, t, st);
    back := null;
    if r != null {
      NotSelf(q, u, r, st);
      ghost var q2, u2;
      back, q2, u2, k := Prev(r, root, q, u, st);
      LastEqual(Earlier(p, t), node, Earlier(q2, u2), back);
    }
  }

  lemma NotSelf(p: Path<Node>, t: Tree<Node>, x: Node, st: Store)
    requires At(p, t, x, st)
    ensures x in st.m && st.m[x].parent != x
  {
    ParentIsAbove(p, t, x, st);
  }

  /** `rb_first` and then `rb_next` until it returns null: every node once, in order. */
  method Walk(root: Root, ghost t: Tree<Node>, ghost st: Store) returns (visited: seq<Node>)
    requires Holds(st, root) && At(Top, t, root.node, st)
    ensures visited == Inorder(t)
  {
    var n;
    ghost var q, u, k;
    n, q, u, k := First(root, t, st);
    visited := [];
    while n != null
      invariant n != null ==> At(q, u, n, st) && u.Bin? && Plug(q, u) == t && visited == Earlier(q, u)
      invariant n == null ==> visited == Inorder(t)
      decreases |Inorder(t)| - |visited|, n != null
    {
      PlaceInOrder(q, u);
      NotSelf(q, u, n, st);
      visited := visited + [n];
      n, q, u, k := Next(n, root, q, u, st);
    }
  }
}
