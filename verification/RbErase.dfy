/** Erasing a node: `rb_erase`. */
module RbErase {
  import opened RbTree
  import opened RbHeap
  import opened RbRotate
  import opened RbInsert
  import opened RbEraseColor

  // ---------- The successor ----------

  /** The path down to the first node of `r`, continuing the path `acc`. */
  ghost function MinPath<T>(r: Tree<T>, acc: Path<T>): Path<T>
    requires r.Bin?
    decreases r
  {
    if r.l.Leaf? then acc else MinPath(r.l, InL(r.n, r.red, r.r, acc))
  }

  ghost function MinTree<T>(r: Tree<T>): (t: Tree<T>)
    requires r.Bin?
    ensures t.Bin? && t.l.Leaf?
  {
    if r.l.Leaf? then r else MinTree(r.l)
  }

  ghost predicate AllLeft<T>(q: Path<T>) {
    q.Top? || (q.InL? && AllLeft(q.up))
  }

  lemma {:induction false} MinPathAppend<T>(r: Tree<T>, acc: Path<T>)
    requires r.Bin?
    ensures MinPath(r, acc) == Append(MinPath(r, Top), acc)
    ensures AllLeft(MinPath(r, Top))
    decreases r
  {
    if r.l.Bin? {
      MinPathAppend(r.l, InL(r.n, r.red, r.r, acc));
      MinPathAppend(r.l, InL(r.n, r.red, r.r, Top));
      AppendAssoc(MinPath(r.l, Top), InL(r.n, r.red, r.r, Top), acc);
      AppendLeft(MinPath(r.l, Top), InL(r.n, r.red, r.r, Top));
    }
  }

  lemma {:induction false} AppendAssoc<T>(a: Path<T>, b: Path<T>, c: Path<T>)
    ensures Append(Append(a, b), c) == Append(a, Append(b, c))
  {
    if !a.Top? { AppendAssoc(a.up, b, c); }
  }

  lemma {:induction false} AppendLeft<T>(a: Path<T>, b: Path<T>)
    requires AllLeft(a) && AllLeft(b)
    ensures AllLeft(Append(a, b))
  {
    if !a.Top? { AppendLeft(a.up, b); }
  }

  lemma {:induction false} MinPlug<T>(r: Tree<T>, acc: Path<T>)
    requires r.Bin?
    ensures Plug(MinPath(r, acc), MinTree(r)) == Plug(acc, r)
    decreases r
  {
    if r.l.Bin? { MinPlug(r.l, InL(r.n, r.red, r.r, acc)); }
  }

  // ---------- On trees ----------

  /** Where the hole is after the node between `l` and `r` (colour `c`, path `p`) is unlinked,
      what fills it, and whether a black node went missing there. */
  datatype Cut<T> = Cut(p: Path<T>, t: Tree<T>, black: bool)

  ghost function CutOut<T>(p: Path<T>, l: Tree<T>, c: bool, r: Tree<T>): Cut<T> {
    if l.Leaf? then Cut(p, r, !c)
    else if r.Leaf? then Cut(p, l, !c)
    else
      var s := MinTree(r);
      Cut(MinPath(r, InR(l, s.n, c, p)), s.r, !s.red)
  }

  /** The tree that `rb_erase` leaves. */
  ghost function Erased<T>(p: Path<T>, l: Tree<T>, c: bool, r: Tree<T>): Tree<T> {
    var cut := CutOut(p, l, c, r);
    if cut.black then EraseFix(cut.p, cut.t) else Plug(cut.p, cut.t)
  }

  lemma {:induction false} MinPathAround<T>(r: Tree<T>, acc: Path<T>)
    requires r.Bin?
    ensures Before(MinPath(r, acc)) == Before(acc)
    ensures Inorder(r) + After(acc) == [MinTree(r).n] + Inorder(MinTree(r).r) + After(MinPath(r, acc))
    decreases r
  {
    if r.l.Bin? {
      MinPathAround(r.l, InL(r.n, r.red, r.r, acc));
      assert Inorder(r) + After(acc) == Inorder(r.l) + ([r.n] + Inorder(r.r) + After(acc));
    }
  }

  lemma Regroup<T>(a: seq<T>, n: T, b: seq<T>, c: seq<T>, d: seq<T>, e: seq<T>)
    requires [n] + b + c == d + e
    ensures (a + [n]) + b + c == a + d + e
  {
    assert (a + [n]) + b + c == a + ([n] + b + c);
    assert a + d + e == a + (d + e);
  }

  /** Exactly the erased node leaves the order. */
  lemma CutOrder<T>(p: Path<T>, l: Tree<T>, c: bool, r: Tree<T>)
    ensures var cut := CutOut(p, l, c, r);
      Around(cut.p, cut.t) == Before(p) + Inorder(l) + Inorder(r) + After(p)
  {
    if l.Bin? && r.Bin? {
      var s := MinTree(r);
      var acc := InR(l, s.n, c, p);
      MinPathAround(r, acc);
      var cut := CutOut(p, l, c, r);
      Regroup(Before(p) + Inorder(l), s.n, Inorder(s.r), After(cut.p), Inorder(r), After(p));
    }
  }

  lemma ErasedInorder<T>(p: Path<T>, l: Tree<T>, c: bool, r: Tree<T>)
    ensures Inorder(Erased(p, l, c, r)) == Before(p) + Inorder(l) + Inorder(r) + After(p)
  {
    var cut := CutOut(p, l, c, r);
    CutOrder(p, l, c, r);
    EraseFixInorder(cut.p, cut.t);
    PlugInorder(cut.p, cut.t);
  }

  /** Walking down to the first node keeps the rules; the nodes' names do not matter to them. */
  lemma {:induction false} MinPathRB<T>(r: Tree<T>, acc: Path<T>, h: nat) returns (k: nat)
    requires r.Bin? && RB(r, h) && PRB(acc, h) && !(IsRed(r) && (acc.Top? || PRed(acc)))
    ensures PRB(MinPath(r, acc), k) && RB(MinTree(r), k)
    ensures IsRed(MinTree(r)) ==> !MinPath(r, acc).Top? && !PRed(MinPath(r, acc))
    decreases r
  {
    if r.l.Leaf? {
      k := h;
    } else {
      k := MinPathRB(r.l, InL(r.n, r.red, r.r, acc), if r.red then h else h - 1);
    }
  }

  /** Cutting a node out of a valid tree leaves the tree at most one black short at the hole. */
  lemma CutShort<T>(p: Path<T>, n: T, l: Tree<T>, c: bool, r: Tree<T>) returns (h: nat)
    requires Valid(Plug(p, Bin(l, n, c, r)))
    ensures var cut := CutOut(p, l, c, r);
      if cut.black then OneShort(cut.p, cut.t, h) else Valid(Plug(cut.p, cut.t))
  {
    var k := UnplugValid(p, Bin(l, n, c, r));
    var cut := CutOut(p, l, c, r);
    var j := if c then k else k - 1;
    assert RB(l, j) && RB(r, j);
    if l.Leaf? || r.Leaf? {
      h := if cut.black then k - 1 else k;
      if !cut.black {
        PlugValid(cut.p, cut.t, k);
      }
    } else {
      var s := MinTree(r);
      var acc := InR(l, s.n, c, p);
      assert PRB(acc, j);
      var i := MinPathRB(r, acc, j);
      if cut.black {
        h := i - 1;
      } else {
        h := i;
        PlugValid(cut.p, cut.t, i);
      }
    }
  }

  lemma ErasedValid<T>(p: Path<T>, n: T, l: Tree<T>, c: bool, r: Tree<T>)
    requires Valid(Plug(p, Bin(l, n, c, r)))
    ensures Valid(Erased(p, l, c, r))
  {
    var h := CutShort(p, n, l, c, r);
    var cut := CutOut(p, l, c, r);
    if cut.black { EraseFixValid(cut.p, cut.t, h); }
  }

  // ---------- On nodes: at most one child ----------

  ghost function Unlinked(st: Store, node: Node, child: Node?): Store
    requires node in st.m
  {
    var m, par := st.m, st.m[node].parent;
    Store(
      if par == null then child else st.root,
      map n | n in m.Keys - {node} :: Cell(
        if n == child then par else m[n].parent,
        m[n].red,
        if n == par && m[n].left == node then child else m[n].left,
        if n == par && m[n].left != node then child else m[n].right))
  }

  lemma UnlinkedLinks(node: Node, child: Node?, st: Store)
    requires Links(st) && node in st.m && st.m[node].parent != node
    requires child == st.m[node].left || child == st.m[node].right
    requires st.m[node].left == null || st.m[node].right == null
    requires var par := st.m[node].parent;
      if par == null then st.root == node else par in st.m && (st.m[par].left == node) != (st.m[par].right == node)
    ensures Links(Unlinked(st, node, child))
  {
  }

  lemma UnlinkedAt(p: Path<Node>, t: Tree<Node>, node: Node, st: Store)
    requires At(p, t, node, st) && t.Bin? && (t.l.Leaf? || t.r.Leaf?)
    ensures var u := if t.l.Leaf? then t.r else t.l;
      node in st.m && At(p, u, Ref(u), Unlinked(st, node, Ref(u)))
  {
    var u := if t.l.Leaf? then t.r else t.l;
    Unfold(t, node, st.m);
    ParentIsAbove(p, t, node, st);
    if !p.Top? { Around2(p, t, node, st); }
    var z := Unlinked(st, node, Ref(u));
    UnlinkedLinks(node, Ref(u), st);
    FrameMatch(u, Ref(u), st.m, z.m);
    UnlinkedPath(p, t, node, Ref(u), st);
    UnlinkedNodes(p, t);
  }

  lemma UnlinkedNodes(p: Path<Node>, t: Tree<Node>)
    requires Separate(p, t) && t.Bin? && (t.l.Leaf? || t.r.Leaf?)
    ensures var u := if t.l.Leaf? then t.r else t.l;
      Separate(p, u) && Nodes(p, u) == Nodes(p, t) - {t.n} && t.n !in Elems(u)
  {
  }

  lemma UnlinkedPath(p: Path<Node>, t: Tree<Node>, node: Node, child: Node?, st: Store)
    requires At(p, t, node, st) && t.Bin? && node in st.m
    ensures MatchPath(p, child, Unlinked(st, node, child))
  {
    ParentIsAbove(p, t, node, st);
    if !p.Top? { Around2(p, t, node, st); }
    SwingPath(p, node, child, st);
    UnlinkedSame(p, node, child, st);
    FramePath(p, child, Swing(p, child, st), Unlinked(st, node, child));
  }

  lemma UnlinkedSame(p: Path<Node>, node: Node, child: Node?, st: Store)
    requires node in st.m && st.m[node].parent == Above(p) && node !in PElems(p) && (p.Top? || p.n in st.m)
    requires p.InL? ==> st.m[p.n].left == node
    requires p.InR? ==> st.m[p.n].right == node && st.m[p.n].left != node
    ensures var a, b := Swing(p, child, st), Unlinked(st, node, child);
      a.root == b.root && Same(a.m, b.m, PElems(p))
  {
  }

  method Unlink(node: Node, child: Node?, root: Root)
    requires node.parent != node && child != node
    modifies root, Opt(child)`parent, Opt(node.parent)`left, Opt(node.parent)`right
    ensures child != null ==> child.parent == old(node.parent)
    ensures var p := old(node.parent);
      if p == null then root.node == child else (
        && root.node == old(root.node)
        && p.left == (if old(p.left) == node then child else old(p.left))
        && p.right == (if old(p.left) == node then old(p.right) else child))
  {
    var parent := node.parent;
    if child != null {
      child.parent := parent;
    }
    if parent != null {
      if parent.left == node {
        parent.left := child;
      } else {
        parent.right := child;
      }
    } else {
      root.node := child;
    }
  }

  method UnlinkAt(node: Node, child: Node?, root: Root, ghost p: Path<Node>, ghost t: Tree<Node>, ghost st: Store)
    returns (ghost z: Store)
    requires Holds(st, root) && At(p, t, node, st) && t.Bin? && (t.l.Leaf? || t.r.Leaf?)
    requires child == Ref(if t.l.Leaf? then t.r else t.l)
    modifies root, st.m.Keys`left, st.m.Keys`right, st.m.Keys`parent
    ensures Holds(z, root) && z.m.Keys == st.m.Keys - {node}
    ensures At(p, if t.l.Leaf? then t.r else t.l, child, z)
  {
    Unfold(t, node, st.m);
    UnlinkReady(p, t, node, child, st);
    UnlinkedAt(p, t, node, st);
    z := Unlinked(st, node, child);
    UnlinkSt(node, child, root, st);
  }

  method UnlinkSt(node: Node, child: Node?, root: Root, ghost st: Store)
    requires Holds(st, root) && node in st.m && st.m[node].parent != node && child != node
    requires st.m[node].parent == null || st.m[node].parent in st.m
    requires child == null || child in st.m
    modifies root, st.m.Keys`left, st.m.Keys`right, st.m.Keys`parent
    ensures Holds(Unlinked(st, node, child), root)
  {
    Unlink(node, child, root);
  }

  lemma UnlinkReady(p: Path<Node>, t: Tree<Node>, node: Node, child: Node?, st: Store)
    requires At(p, t, node, st) && t.Bin? && (t.l.Leaf? || t.r.Leaf?)
    requires child == Ref(if t.l.Leaf? then t.r else t.l)
    ensures node in st.m && st.m[node].parent == Above(p) && Above(p) != node && child != node
    ensures Above(p) != null ==> Above(p) in st.m
    ensures child != null ==> child in st.m
  {
    ParentIsAbove(p, t, node, st);
  }

  // ---------- On nodes: two children ----------

  /** The store after the successor `s` has taken the place of `victim`. */
  ghost function Spliced(st: Store, victim: Node, s: Node): Store
    requires victim in st.m && s in st.m
  {
    var m := st.m;
    var v, sp, child := m[victim], m[s].parent, m[s].right;
    var far := sp != victim;
    Store(
      if v.parent == null then s else st.root,
      map n | n in m.Keys - {victim} :: Cell(
        if n == s then v.parent else if n == v.left || (far && n == v.right) then s
        else if far && n == child then sp else m[n].parent,
        if n == s then v.red else m[n].red,
        if n == s then v.left else if far && n == sp then child
        else if n == v.parent && m[n].left == victim then s else m[n].left,
        if n == s then (if far then v.right else child)
        else if n == v.parent && m[n].left != victim then s else m[n].right))
  }

  /** How the nodes that the splice touches lie. */
  ghost predicate Splices(st: Store, victim: Node, s: Node) {
    && victim in st.m && s in st.m
    && var v, c := st.m[victim], st.m[s];
    && v.left != null && v.left in st.m && v.right != null && v.right in st.m
    && c.parent != null && c.parent in st.m && (c.right == null || c.right in st.m)
    && (v.parent == null || v.parent in st.m)
    && v.left != v.right && s != victim && c.left == null
    && victim != v.left && victim != v.right && victim != c.right && victim != v.parent
    && s != v.left && s != c.right && s != c.parent && s != v.parent
    && v.parent != v.left && v.parent != v.right && v.parent != c.parent
    && (v.parent != null ==> c.right != v.parent)
    && c.right != v.left && c.right != v.right && c.parent != v.left && c.right != c.parent
    && (c.parent == victim <==> v.right == s)
    && (c.parent != victim ==> st.m[c.parent].left == s && st.m[c.parent].right != s)
  }

  method Splice(victim: Node, node: Node, root: Root) returns (child: Node?, parent: Node, red: bool)
    requires victim.left != null && victim.right != null && node.parent != null
    requires victim != node && victim !in {victim.left, victim.right, node.right, victim.parent}
    requires node !in {victim.left, node.right, node.parent, victim.parent}
    requires victim.left !in {victim.right, node.parent, node.right, victim.parent}
    requires victim.parent == null || victim.parent !in {victim.right, node.parent, node.right}
    requires node.right == null || node.right !in {victim.right, node.parent}
    requires node.parent == victim <==> victim.right == node
    modifies root, Opt(victim.parent)`left, Opt(victim.parent)`right
    modifies node`left, node`right, node`parent, node`red, victim.left`parent
    modifies (if node.parent == victim then {} else {node.parent})`left
    modifies (if node.parent == victim then {} else {victim.right} + Opt(node.right))`parent
    ensures child == old(node.right) && red == old(node.red)
    ensures parent == if old(node.parent) == victim then node else old(node.parent)
    ensures node.parent == old(victim.parent) && node.red == old(victim.red) && node.left == old(victim.left)
    ensures node.right == if old(node.parent) == victim then old(node.right) else old(victim.right)
    ensures old(victim.left).parent == node
    ensures old(node.parent) != victim ==>
      && old(node.parent).left == child && old(victim.right).parent == node
      && (child != null ==> child.parent == old(node.parent))
    ensures var p := old(victim.parent);
      if p == null then root.node == node else (
        && root.node == old(root.node)
        && p.left == (if old(p.left) == victim then node else old(p.left))
        && p.right == (if old(p.left) == victim then old(p.right) else node))
  {
    if victim.parent != null {
      if victim.parent.left == victim {
        victim.parent.left := node;
      } else {
        victim.parent.right := node;
      }
    } else {
      root.node := node;
    }

    child := node.right;
    parent := node.parent;
    red := node.red;

    if parent == victim {
      parent := node;
    } else {
      if child != null {
        child.parent := parent;
      }
      parent.left := child;

      node.right := victim.right;
      victim.right.parent := node;
    }

    node.parent, node.red := victim.parent, victim.red;
    node.left := victim.left;
    victim.left.parent := node;
  }

  method SpliceSt(victim: Node, node: Node, root: Root, ghost st: Store)
    returns (child: Node?, parent: Node, red: bool)
    requires Holds(st, root) && Splices(st, victim, node)
    modifies root, st.m.Keys`left, st.m.Keys`right, st.m.Keys`parent, st.m.Keys`red
    ensures Holds(Spliced(st, victim, node), root)
    ensures child == st.m[node].right && red == st.m[node].red
    ensures parent == if st.m[node].parent == victim then node else st.m[node].parent
  {
    ghost var z := Spliced(st, victim, node);
    child, parent, red := Splice(victim, node, root);
    forall n | n in z.m ensures z.m[n] == Cell(n.parent, n.red, n.left, n.right) {
      assert st.m[n] == old(Cell(n.parent, n.red, n.left, n.right));
      if n == st.m[victim].parent {
        assert n != node && n != parent;
      }
    }
  }

  lemma SplicedLefts(st: Store, victim: Node, s: Node)
    requires Links(st) && Splices(st, victim, s) && HangsOnce(st, victim)
    ensures var m := Spliced(st, victim, s).m;
      forall n :: n in m && m[n].left != null ==> m[n].left in m && m[m[n].left].parent == n
  {
  }

  lemma SplicedRights(st: Store, victim: Node, s: Node)
    requires Links(st) && Splices(st, victim, s) && HangsOnce(st, victim)
    ensures var m := Spliced(st, victim, s).m;
      forall n :: n in m && m[n].right != null ==> m[n].right in m && m[m[n].right].parent == n
  {
  }

  lemma SplicedLinks(st: Store, victim: Node, s: Node)
    requires Links(st) && Splices(st, victim, s) && HangsOnce(st, victim)
    ensures Links(Spliced(st, victim, s))
  {
    SplicedLefts(st, victim, s);
    SplicedRights(st, victim, s);
  }

  // ---------- The splice, on trees ----------

  /** The parts of a tree around `victim`, with the successor `s` at the end of the path `q` of
      left turns below the right subtree. */
  ghost predicate Parts(p: Path<Node>, t: Tree<Node>, q: Path<Node>, s: Tree<Node>) {
    && t.Bin? && t.l.Bin? && t.r.Bin?
    && q == MinPath(t.r, Top) && s == MinTree(t.r)
  }

  lemma {:induction false} MinSets(r: Tree<Node>)
    requires r.Bin? && Distinct(r)
    ensures var q, s := MinPath(r, Top), MinTree(r);
      && Elems(r) == PElems(q) + Elems(s) && PDistinct(q) && Distinct(s) && PElems(q) !! Elems(s)
      && (if q.Top? then s == r else q.InL? && q.n in PElems(q) && r.n in PElems(q))
  {
    var q, s := MinPath(r, Top), MinTree(r);
    MinPlug(r, Top);
    PlugElems(q, s);
    PlugDistinct(q, s);
    MinPathAppend(r, Top);
    if r.l.Bin? {
      MinPathAppend(r.l, InL(r.n, r.red, r.r, Top));
      AppendPath(MinPath(r.l, Top), InL(r.n, r.red, r.r, Top), Leaf);
    }
  }

  lemma {:induction false} MinAt(r: Tree<Node>, acc: Path<Node>, x: Node?, st: Store)
    requires r.Bin? && At(acc, r, x, st)
    ensures At(MinPath(r, acc), MinTree(r), MinTree(r).n, st)
    decreases r
  {
    Unfold(r, x, st.m);
    if r.l.Bin? {
      var q := InL(r.n, r.red, r.r, acc);
      Descend(q, r.l, x, st);
      MinAt(r.l, q, r.l.n, st);
    }
  }

  lemma SplicesReady(p: Path<Node>, t: Tree<Node>, victim: Node, q: Path<Node>, s: Tree<Node>, st: Store)
    requires At(p, t, victim, st) && Parts(p, t, q, s)
    ensures victim in st.m && st.m[victim] == Cell(Above(p), t.red, t.l.n, t.r.n)
    ensures s.n in st.m && st.m[s.n] == Cell(if q.Top? then victim else q.n, s.red, null, Ref(s.r))
    ensures !q.Top? ==> q.n in st.m && st.m[q.n].left == s.n
  {
    Unfold(t, victim, st.m);
    ParentIsAbove(p, t, victim, st);
    var acc := InR(t.l, t.n, t.red, p);
    Descend(acc, t.r, victim, st);
    MinAt(t.r, acc, t.r.n, st);
    MinPathAppend(t.r, acc);
    MinSets(t.r);
    var w := MinPath(t.r, acc);
    ParentIsAbove(w, s, s.n, st);
    Unfold(s, s.n, st.m);
    Around2(w, s, s.n, st);
  }

  lemma SplicesHold(p: Path<Node>, t: Tree<Node>, victim: Node, q: Path<Node>, s: Tree<Node>, st: Store)
    requires At(p, t, victim, st) && Parts(p, t, q, s)
    ensures Splices(st, victim, s.n)
  {
    SplicesReady(p, t, victim, q, s, st);
    MinSets(t.r);
    assert Distinct(t) && victim == t.n;
    assert s.r.Bin? ==> s.r.n in Elems(s);
    assert t.l.n in Elems(t.l) && t.r.n in Elems(t.r);
    if !q.Top? { assert st.m[q.n].right != s.n by { NotRight(p, t, victim, q, s, st); } }
  }

  lemma NotRight(p: Path<Node>, t: Tree<Node>, victim: Node, q: Path<Node>, s: Tree<Node>, st: Store)
    requires At(p, t, victim, st) && Parts(p, t, q, s) && !q.Top?
    ensures q.n in st.m && st.m[q.n].right != s.n
  {
    Unfold(t, victim, st.m);
    var acc := InR(t.l, t.n, t.red, p);
    Descend(acc, t.r, victim, st);
    MinAt(t.r, acc, t.r.n, st);
    MinPathAppend(t.r, acc);
    MinSets(t.r);
    Around2(MinPath(t.r, acc), s, s.n, st);
  }

  lemma HangsOnceAt(p: Path<Node>, t: Tree<Node>, x: Node, st: Store)
    requires At(p, t, x, st)
    ensures x in st.m && (st.m[x].parent == null || st.m[x].parent in st.m)
    ensures HangsOnce(st, x)
  {
    ParentIsAbove(p, t, x, st);
    if !p.Top? { Around2(p, t, x, st); }
  }

  lemma {:induction false} Rebase(q: Path<Node>, x: Node?, a: Store, b: Store,
                                  l: Tree<Node>, v: Node, s: Node, c: bool, p: Path<Node>)
    requires MatchPath(Append(q, InR(l, v, c, p)), x, a)
    requires s in b.m && b.m[s].red == c && Match(l, b.m[s].left, b.m) && MatchPath(p, s, b)
    requires v in a.m && b.m[s].right == a.m[v].right && Same(a.m, b.m, PElems(q))
    ensures MatchPath(Append(q, InR(l, s, c, p)), x, b)
  {
    match q
    case Top =>
    case InL(n, _, r, up) =>
      FrameMatch(r, a.m[n].right, a.m, b.m);
      Rebase(up, n, a, b, l, v, s, c, p);
    case InR(r, n, _, up) =>
      FrameMatch(r, a.m[n].left, a.m, b.m);
      Rebase(up, n, a, b, l, v, s, c, p);
  }

  lemma SplicedBase(st: Store, victim: Node, s: Node)
    requires Splices(st, victim, s)
    ensures var z := Spliced(st, victim, s); var v, c := st.m[victim], st.m[s];
      && Same(st.m, z.m, st.m.Keys - {victim, s, c.parent} - Opt(v.parent))
      && s in z.m && z.m[s].red == v.red && z.m[s].left == v.left
      && z.m[s].right == (if c.parent == victim then c.right else v.right)
      && (c.parent != victim ==> (
           && c.parent in z.m
           && z.m[c.parent] == Cell(z.m[c.parent].parent, st.m[c.parent].red, c.right, st.m[c.parent].right)))
      && z.root == (if v.parent == null then s else st.root)
      && (v.parent != null ==> (
           && v.parent in z.m && z.m[v.parent].red == st.m[v.parent].red
           && z.m[v.parent].left == (if st.m[v.parent].left == victim then s else st.m[v.parent].left)
           && z.m[v.parent].right == (if st.m[v.parent].left != victim then s else st.m[v.parent].right)))
  {
  }

  lemma LowerParts(p: Path<Node>, t: Tree<Node>, victim: Node, q: Path<Node>, s: Tree<Node>, st: Store)
    requires At(p, t, victim, st) && Parts(p, t, q, s)
    ensures var w := Append(q, InR(t.l, victim, t.red, p));
      && Match(t.l, t.l.n, st.m) && Match(s.r, Ref(s.r), st.m)
      && MatchPath(w, s.n, st) && PDistinct(w)
  {
    var acc := InR(t.l, t.n, t.red, p);
    Unfold(t, victim, st.m);
    Descend(acc, t.r, victim, st);
    MinAt(t.r, acc, t.r.n, st);
    MinPathAppend(t.r, acc);
    Unfold(s, s.n, st.m);
  }

  ghost predicate Elsewhere(x: set<Node>, p: Path<Node>, q: Path<Node>, victim: Node, s: Node) {
    victim !in x && s !in x && (q.Top? || q.n !in x) && (p.Top? || p.n !in x)
  }

  lemma LowerSets(p: Path<Node>, t: Tree<Node>, victim: Node, q: Path<Node>, s: Tree<Node>, st: Store)
    requires At(p, t, victim, st) && Parts(p, t, q, s)
    ensures Elems(t.l) + Elems(s.r) <= st.m.Keys && Elsewhere(Elems(t.l) + Elems(s.r), p, q, victim, s.n)
  {
    MinSets(t.r);
    assert Distinct(t) && t.n == victim;
  }

  lemma SplicedLower(p: Path<Node>, t: Tree<Node>, victim: Node, q: Path<Node>, s: Tree<Node>, st: Store, z: Store)
    requires At(p, t, victim, st) && Parts(p, t, q, s)
    requires forall n :: n in st.m && Elsewhere({n}, p, q, victim, s.n) ==> Same(st.m, z.m, {n})
    ensures Match(t.l, t.l.n, z.m) && Match(s.r, Ref(s.r), z.m)
  {
    LowerParts(p, t, victim, q, s, st);
    LowerSets(p, t, victim, q, s, st);
    var x := Elems(t.l) + Elems(s.r);
    forall n | n in x && n in st.m
      ensures n in z.m && st.m[n].left == z.m[n].left && st.m[n].right == z.m[n].right && st.m[n].red == z.m[n].red
    {
      assert Elsewhere({n}, p, q, victim, s.n);
      assert Same(st.m, z.m, {n});
    }
    FrameMatch(t.l, t.l.n, st.m, z.m);
    FrameMatch(s.r, Ref(s.r), st.m, z.m);
  }

  lemma SplicedUpper(p: Path<Node>, t: Tree<Node>, victim: Node, s: Node, st: Store, z: Store)
    requires At(p, t, victim, st) && (p.Top? || p.n in st.m)
    requires z.root == if p.Top? then s else st.root
    requires p.Top? || (
      && p.n in z.m && z.m[p.n].red == st.m[p.n].red
      && z.m[p.n].left == (if st.m[p.n].left == victim then s else st.m[p.n].left)
      && z.m[p.n].right == (if st.m[p.n].left != victim then s else st.m[p.n].right))
    requires Same(st.m, z.m, PElems(p) - Opt(Above(p)))
    ensures MatchPath(p, s, z)
  {
    if !p.Top? { Around2(p, t, victim, st); }
    SwingPath(p, victim, s, st);
    FramePath(p, s, Swing(p, s, st), z);
  }

  lemma SplicedPath(p: Path<Node>, t: Tree<Node>, victim: Node, q: Path<Node>, s: Tree<Node>, st: Store, z: Store)
    requires At(p, t, victim, st) && Parts(p, t, q, s)
    requires forall n :: n in st.m && Elsewhere({n}, p, q, victim, s.n) ==> Same(st.m, z.m, {n})
    requires q.Top? || Relinked(q.n, Ref(s.r), st, z)
    requires s.n in z.m && z.m[s.n].red == t.red && z.m[s.n].left == t.l.n && Match(t.l, t.l.n, z.m)
    requires z.m[s.n].right == if q.Top? then Ref(s.r) else t.r.n
    requires MatchPath(p, s.n, z)
    ensures MatchPath(Append(q, InR(t.l, s.n, t.red, p)), Ref(s.r), z)
  {
    if !q.Top? {
      LowerParts(p, t, victim, q, s, st);
      MinSets(t.r);
      SplicesReady(p, t, victim, q, s, st);
      var w := Append(q, InR(t.l, victim, t.red, p));
      SwingPath(w, s.n, Ref(s.r), st);
      SwungSame(p, t, victim, q, s, st, z);
      Rebase(q, Ref(s.r), Swing(w, Ref(s.r), st), z, t.l, victim, s.n, t.red, p);
    }
  }

  ghost predicate Relinked(n: Node, child: Node?, st: Store, z: Store) {
    && n in st.m && n in z.m
    && z.m[n].left == child && z.m[n].right == st.m[n].right && z.m[n].red == st.m[n].red
  }

  lemma SwungSame(p: Path<Node>, t: Tree<Node>, victim: Node, q: Path<Node>, s: Tree<Node>, st: Store, z: Store)
    requires At(p, t, victim, st) && Parts(p, t, q, s) && !q.Top?
    requires forall n :: n in st.m && Elsewhere({n}, p, q, victim, s.n) ==> Same(st.m, z.m, {n})
    requires Relinked(q.n, Ref(s.r), st, z)
    ensures q.InL? && Same(Swing(Append(q, InR(t.l, victim, t.red, p)), Ref(s.r), st).m, z.m, PElems(q))
  {
    MinSets(t.r);
    assert t.n == victim && t.n !in PElems(q) && PElems(q) <= Elems(t.r);
    forall n | n in PElems(q) && n != q.n
      ensures n in z.m && st.m[n].left == z.m[n].left && st.m[n].right == z.m[n].right && st.m[n].red == z.m[n].red
    {
      assert p.Top? || p.n != n by { assert n in Elems(t) && (p.Top? || p.n in PElems(p)); }
      assert Elsewhere({n}, p, q, victim, s.n);
      assert Same(st.m, z.m, {n}) && n in {n};
    }
  }

  lemma SplicedSeparate(p: Path<Node>, t: Tree<Node>, q: Path<Node>, s: Tree<Node>)
    requires Separate(p, t) && Parts(p, t, q, s)
    ensures var w := Append(q, InR(t.l, s.n, t.red, p));
      Separate(w, s.r) && Nodes(w, s.r) == Nodes(p, t) - {t.n}
  {
    MinSets(t.r);
    var acc := InR(t.l, s.n, t.red, p);
    AppendPath(q, acc, s.r);
    assert s.n in Elems(t.r);
    assert Elems(s) == {s.n} + Elems(s.r);
    assert PElems(acc) == {s.n} + Elems(t.l) + PElems(p);
    assert PDistinct(acc);
  }

  lemma SplicedMost(p: Path<Node>, t: Tree<Node>, victim: Node, q: Path<Node>, s: Tree<Node>, st: Store, z: Store)
    requires At(p, t, victim, st) && Parts(p, t, q, s) && Splices(st, victim, s.n) && z == Spliced(st, victim, s.n)
    ensures forall n :: n in st.m && Elsewhere({n}, p, q, victim, s.n) ==> Same(st.m, z.m, {n})
  {
    SplicesReady(p, t, victim, q, s, st);
    SplicedBase(st, victim, s.n);
    forall n | n in st.m && Elsewhere({n}, p, q, victim, s.n)
      ensures Same(st.m, z.m, {n})
    {
      assert n in {n};
    }
  }

  lemma UpperSets(p: Path<Node>, t: Tree<Node>, victim: Node, q: Path<Node>, s: Tree<Node>, st: Store, z: Store)
    requires At(p, t, victim, st) && Parts(p, t, q, s)
    requires forall n :: n in st.m && Elsewhere({n}, p, q, victim, s.n) ==> Same(st.m, z.m, {n})
    ensures Same(st.m, z.m, PElems(p) - Opt(Above(p)))
  {
    MinSets(t.r);
    assert s.n in Elems(t.r) && (q.Top? || q.n in Elems(t.r));
    forall n | n in PElems(p) && n != Above(p)
      ensures n in z.m && st.m[n].left == z.m[n].left && st.m[n].right == z.m[n].right && st.m[n].red == z.m[n].red
    {
      assert Elsewhere({n}, p, q, victim, s.n);
      assert Same(st.m, z.m, {n}) && n in {n};
    }
  }

  lemma SplicedShape(p: Path<Node>, t: Tree<Node>, victim: Node, q: Path<Node>, s: Tree<Node>, st: Store, z: Store)
    requires At(p, t, victim, st) && Parts(p, t, q, s) && Splices(st, victim, s.n) && z == Spliced(st, victim, s.n)
    ensures MatchPath(Append(q, InR(t.l, s.n, t.red, p)), Ref(s.r), z) && Match(s.r, Ref(s.r), z.m)
  {
    SplicesReady(p, t, victim, q, s, st);
    SplicedBase(st, victim, s.n);
    SplicedMost(p, t, victim, q, s, st, z);
    SplicedLower(p, t, victim, q, s, st, z);
    UpperSets(p, t, victim, q, s, st, z);
    SplicedUpper(p, t, victim, s.n, st, z);
    MinSets(t.r);
    SplicedPath(p, t, victim, q, s, st, z);
  }

  /** After the splice the nodes form the tree with `victim` cut out. */
  lemma SplicedAt(p: Path<Node>, t: Tree<Node>, victim: Node, st: Store)
    requires At(p, t, victim, st) && t.Bin? && t.l.Bin? && t.r.Bin?
    ensures var s := MinTree(t.r); var cut := CutOut(p, t.l, t.red, t.r);
      && Splices(st, victim, s.n)
      && At(cut.p, cut.t, Ref(s.r), Spliced(st, victim, s.n))
      && Spliced(st, victim, s.n).m.Keys == st.m.Keys - {victim}
      && st.m[s.n].right == Ref(s.r) && st.m[s.n].red == s.red
      && Above(cut.p) == (if st.m[s.n].parent == victim then s.n else st.m[s.n].parent)
  {
    var q, s := MinPath(t.r, Top), MinTree(t.r);
    SplicesReady(p, t, victim, q, s, st);
    SplicesHold(p, t, victim, q, s, st);
    SplicedShape(p, t, victim, q, s, st, Spliced(st, victim, s.n));
    SplicedSeparate(p, t, q, s);
    HangsOnceAt(p, t, victim, st);
    SplicedLinks(st, victim, s.n);
    MinPathAppend(t.r, InR(t.l, s.n, t.red, p));
    MinSets(t.r);
  }

  // ---------- `rb_erase` ----------

  /** The two-children case up to the `color` label. */
  method EraseInner(victim: Node, root: Root, ghost p: Path<Node>, ghost t: Tree<Node>, ghost st: Store)
    returns (child: Node?, parent: Node, red: bool, ghost z: Store)
    requires Holds(st, root) && At(p, t, victim, st) && t.Bin? && t.l.Bin? && t.r.Bin?
    modifies root, st.m.Keys`left, st.m.Keys`right, st.m.Keys`parent, st.m.Keys`red
    ensures Holds(z, root) && z.m.Keys == st.m.Keys - {victim}
    ensures var cut := CutOut(p, t.l, t.red, t.r);
      At(cut.p, cut.t, child, z) && parent == Above(cut.p) && red == !cut.black
  {
    Unfold(t, victim, st.m);
    var node := FirstBelow(victim, p, t, st);
    SplicedAt(p, t, victim, st);
    z := Spliced(st, victim, node);
    child, parent, red := SpliceSt(victim, node, root, st);
  }

  /** The descent to the successor. */
  method FirstBelow(victim: Node, ghost p: Path<Node>, ghost t: Tree<Node>, ghost st: Store) returns (node: Node)
    requires victim in st.m && (forall n :: n in st.m ==> st.m[n] == Cell(n.parent, n.red, n.left, n.right))
    requires At(p, t, victim, st) && t.Bin? && t.r.Bin?
    ensures node == MinTree(t.r).n
  {
    Unfold(t, victim, st.m);
    node := victim.right;
    ghost var u := t.r;
    Unfold(u, node, st.m);
    var left := node.left;
    while left != null
      invariant u.Bin? && Match(u, node, st.m) && node in st.m && left == node.left && left == Ref(u.l)
      invariant MinTree(u) == MinTree(t.r)
      decreases u
    {
      Unfold(u, node, st.m);
      node, u := left, u.l;
      Unfold(u, node, st.m);
      left := node.left;
    }
  }

  /** `rb_erase`: whatever the node, afterwards the others form a valid red-black tree, parent
      links included, in their old order. */
  method Erase(node: Node, root: Root, ghost p: Path<Node>, ghost t: Tree<Node>, ghost st: Store)
    returns (ghost u: Tree<Node>, ghost z: Store)
    requires Holds(st, root) && At(p, t, node, st) && t.Bin? && Valid(Plug(p, t))
    modifies root, st.m.Keys`left, st.m.Keys`right, st.m.Keys`parent, st.m.Keys`red
    ensures Holds(z, root) && At(Top, u, root.node, z) && z.m.Keys == st.m.Keys - {node}
    ensures u == Erased(p, t.l, t.red, t.r)
    ensures Valid(u) && Inorder(u) == Before(p) + Inorder(t.l) + Inorder(t.r) + After(p)
  {
    ghost var cut := CutOut(p, t.l, t.red, t.r);
    ghost var h := CutShort(p, node, t.l, t.red, t.r);
    u := Erased(p, t.l, t.red, t.r);
    ErasedValid(p, node, t.l, t.red, t.r);
    ErasedInorder(p, t.l, t.red, t.r);
    var child, parent, red;
    child, parent, red, z := EraseCut(node, root, p, t, st);
    if !red {
      z := EraseColor(child, parent, root, cut.p, cut.t, h, z);
    } else {
      PlugAt(cut.p, cut.t, child, z);
    }
  }

  method EraseCut(node: Node, root: Root, ghost p: Path<Node>, ghost t: Tree<Node>, ghost st: Store)
    returns (child: Node?, parent: Node?, red: bool, ghost z: Store)
    requires Holds(st, root) && At(p, t, node, st) && t.Bin?
    modifies root, st.m.Keys`left, st.m.Keys`right, st.m.Keys`parent, st.m.Keys`red
    ensures Holds(z, root) && z.m.Keys == st.m.Keys - {node}
    ensures var cut := CutOut(p, t.l, t.red, t.r);
      At(cut.p, cut.t, child, z) && parent == Above(cut.p) && red == !cut.black
  {
    Unfold(t, node, st.m);
    ParentIsAbove(p, t, node, st);
    if node.left == null {
      child := node.right;
    } else if node.right == null {
      child := node.left;
    } else {
      child, parent, red, z := EraseInner(node, root, p, t, st);
      return;
    }
    parent := node.parent;
    red := node.red;
    z := UnlinkAt(node, child, root, p, t, st);
  }
}
