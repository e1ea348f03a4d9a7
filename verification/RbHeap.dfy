/** The nodes of include/rb_tree.h, and what it means for linked nodes to form a tree.

    The word `rb_parent_color` is modelled as two fields, `parent` and `red`. A `Store` is the
    state of a set of nodes and of the root pointer as one value; methods on the nodes are
    specified by the stores before and after, and the lemmas about trees speak of stores. */
module RbHeap {
  import opened RbTree

  class Node {
    var parent: Node?
    var red: bool
    var left: Node?
    var right: Node?

    /** The owner's data in the structure around the node, and what an augmentation callback keeps
        there; the tree code itself never looks at either. */
    var own: int
    var aug: int

    constructor (own: int)
      ensures parent == this && red && left == null && right == null
      ensures this.own == own
    {
      this.own := own;
      parent, red, left, right, aug := this, true, null, null, 0;
    }
  }

  class Root {
    var node: Node?

    constructor ()
      ensures node == null
    {
      node := null;
    }
  }

  datatype Cell = Cell(parent: Node?, red: bool, left: Node?, right: Node?)

  datatype Store = Store(root: Node?, m: map<Node, Cell>)

  ghost predicate Holds(st: Store, root: Root)
    reads root, st.m.Keys`parent, st.m.Keys`red, st.m.Keys`left, st.m.Keys`right
  {
    && root.node == st.root
    && forall n :: n in st.m ==> st.m[n] == Cell(n.parent, n.red, n.left, n.right)
  }

  /** Below `x` the store is the tree `t` (children and colours; parents are in `Links`). */
  ghost predicate Match(t: Tree<Node>, x: Node?, m: map<Node, Cell>) {
    match t
    case Leaf => x == null
    case Bin(l, n, c, r) =>
      x == n && n in m && m[n].red == c && Match(l, m[n].left, m) && Match(r, m[n].right, m)
  }

  /** Above `x` the store is the path `p`. */
  ghost predicate MatchPath(p: Path<Node>, x: Node?, st: Store) {
    match p
    case Top => st.root == x
    case InL(n, c, r, up) =>
      && n in st.m && st.m[n].left == x && st.m[n].red == c
      && Match(r, st.m[n].right, st.m) && MatchPath(up, n, st)
    case InR(l, n, c, up) =>
      && n in st.m && st.m[n].right == x && st.m[n].red == c
      && Match(l, st.m[n].left, st.m) && MatchPath(up, n, st)
  }

  /** Every child's parent link points back, and the root has none. */
  ghost predicate Links(st: Store) {
    && (st.root != null ==> st.root in st.m && st.m[st.root].parent == null)
    && (forall n :: n in st.m && st.m[n].left != null ==>
          st.m[n].left in st.m && st.m[st.m[n].left].parent == n)
    && (forall n :: n in st.m && st.m[n].right != null ==>
          st.m[n].right in st.m && st.m[st.m[n].right].parent == n)
  }

  /** One pointer leads to the node: from its parent, or the root pointer. */
  ghost predicate HangsOnce(st: Store, n: Node) {
    && n in st.m && var par := st.m[n].parent;
       if par == null then st.root == n else par in st.m && (st.m[par].left == n) != (st.m[par].right == n)
  }

  ghost function Nodes(p: Path<Node>, t: Tree<Node>): set<Node> { PElems(p) + Elems(t) }

  ghost predicate Separate(p: Path<Node>, t: Tree<Node>) {
    PDistinct(p) && Distinct(t) && PElems(p) !! Elems(t)
  }

  /** The store is exactly the tree `Plug(p, t)`, and `x` points at its subtree `t`. */
  ghost predicate At(p: Path<Node>, t: Tree<Node>, x: Node?, st: Store) {
    && MatchPath(p, x, st) && Match(t, x, st.m)
    && Separate(p, t) && st.m.Keys == Nodes(p, t) && Links(st)
  }

  ghost function Above(p: Path<Node>): Node? {
    if p.Top? then null else p.n
  }

  lemma ParentIsAbove(p: Path<Node>, t: Tree<Node>, x: Node?, st: Store)
    requires At(p, t, x, st)
    ensures x == null <==> t.Leaf?
    ensures x != null ==> x in st.m && st.m[x].parent == Above(p)
  {
    match p
    case Top =>
    case InL(n, _, _, _) => assert st.m[n].left == x;
    case InR(_, n, _, _) => assert st.m[n].right == x;
  }

  /** The pointer to a tree. */
  ghost function Ref(t: Tree<Node>): Node? {
    if t.Leaf? then null else t.n
  }

  lemma Unfold(t: Tree<Node>, x: Node?, m: map<Node, Cell>)
    requires Match(t, x, m) && t.Bin?
    ensures x == t.n && x in m && m[x].red == t.red
    ensures Match(t.l, m[x].left, m) && Match(t.r, m[x].right, m)
    ensures m[x].left == Ref(t.l) && m[x].right == Ref(t.r)
  {
    assert Match(t.l, m[x].left, m);
    assert Match(t.r, m[x].right, m);
  }

  // ---------- What an unchanged part of the store still holds ----------

  ghost predicate Same(a: map<Node, Cell>, b: map<Node, Cell>, s: set<Node>) {
    forall n :: n in s && n in a ==>
      n in b && a[n].left == b[n].left && a[n].right == b[n].right && a[n].red == b[n].red
  }

  lemma {:induction false} FrameMatch(t: Tree<Node>, x: Node?, a: map<Node, Cell>, b: map<Node, Cell>)
    requires Match(t, x, a) && Same(a, b, Elems(t))
    ensures Match(t, x, b)
  {
    match t
    case Leaf =>
    case Bin(l, n, _, r) =>
      FrameMatch(l, a[n].left, a, b);
      FrameMatch(r, a[n].right, a, b);
  }

  lemma {:induction false} FramePath(p: Path<Node>, x: Node?, a: Store, b: Store)
    requires MatchPath(p, x, a) && a.root == b.root && Same(a.m, b.m, PElems(p))
    ensures MatchPath(p, x, b)
  {
    match p
    case Top =>
    case InL(n, _, r, up) =>
      FrameMatch(r, a.m[n].right, a.m, b.m);
      FramePath(up, n, a, b);
    case InR(l, n, _, up) =>
      FrameMatch(l, a.m[n].left, a.m, b.m);
      FramePath(up, n, a, b);
  }

  /** The store with the pointer to the hole of `p` redirected to `y`. */
  ghost function Swing(p: Path<Node>, y: Node?, st: Store): Store
    requires p.Top? || p.n in st.m
  {
    match p
    case Top => st.(root := y)
    case InL(n, _, _, _) => st.(m := st.m[n := st.m[n].(left := y)])
    case InR(_, n, _, _) => st.(m := st.m[n := st.m[n].(right := y)])
  }

  lemma {:induction false} SwingPath(p: Path<Node>, x: Node?, y: Node?, st: Store)
    requires MatchPath(p, x, st) && PDistinct(p)
    ensures MatchPath(p, y, Swing(p, y, st))
  {
    var b := Swing(p, y, st);
    match p
    case Top =>
    case InL(n, _, r, up) =>
      FrameMatch(r, st.m[n].right, st.m, b.m);
      FramePath(up, n, st, b);
    case InR(l, n, _, up) =>
      FrameMatch(l, st.m[n].left, st.m, b.m);
      FramePath(up, n, st, b);
  }

  // ---------- Moving the focus ----------

  lemma Ascend(p: Path<Node>, t: Tree<Node>, x: Node?, st: Store)
    requires At(p, t, x, st) && !p.Top?
    ensures At(p.up, Fill(p, t), p.n, st)
  {
    assert Nodes(p.up, Fill(p, t)) == Nodes(p, t);
  }

  lemma Descend(p: Path<Node>, t: Tree<Node>, x: Node?, st: Store)
    requires !p.Top? && x == p.n && x in st.m
    requires At(p.up, Fill(p, t), x, st)
    ensures At(p, t, Ref(t), st)
  {
    Unfold(Fill(p, t), x, st.m);
    assert Nodes(p.up, Fill(p, t)) == Nodes(p, t);
  }

  lemma {:induction false} PlugAt(p: Path<Node>, t: Tree<Node>, x: Node?, st: Store)
    requires At(p, t, x, st)
    ensures At(Top, Plug(p, t), st.root, st)
    decreases p
  {
    if !p.Top? {
      Ascend(p, t, x, st);
      PlugAt(p.up, Fill(p, t), p.n, st);
    }
  }

  /** The pointers around the focus, as the code reads them. */
  lemma Around2(p: Path<Node>, t: Tree<Node>, x: Node?, st: Store)
    requires At(p, t, x, st) && !p.Top?
    ensures p.n in st.m && st.m[p.n].red == p.red && st.m[p.n].parent == Above(p.up)
    ensures p.InL? ==> st.m[p.n].left == x && st.m[p.n].right == Ref(p.r)
    ensures p.InR? ==> st.m[p.n].right == x && st.m[p.n].left == Ref(p.l)
    ensures p.InR? && x != null ==> st.m[p.n].left != x
    ensures p.InL? && x != null ==> st.m[p.n].right != x
  {
    Ascend(p, t, x, st);
    ParentIsAbove(p.up, Fill(p, t), p.n, st);
    Unfold(Fill(p, t), p.n, st.m);
  }

  // ---------- Painting ----------

  ghost function Paint(st: Store, n: Node, red: bool): Store
    requires n in st.m
  {
    st.(m := st.m[n := st.m[n].(red := red)])
  }

  method SetColor(n: Node, red: bool, root: Root, ghost st: Store) returns (ghost z: Store)
    requires Holds(st, root) && n in st.m
    modifies n`red
    ensures z == Paint(st, n, red) && Holds(z, root)
  {
    n.red := red;
    z := Paint(st, n, red);
  }

  lemma PaintLinks(st: Store, n: Node, red: bool)
    requires Links(st) && n in st.m
    ensures Links(Paint(st, n, red)) && Paint(st, n, red).m.Keys == st.m.Keys
  {
    var m := Paint(st, n, red).m;
    assert forall k :: k in st.m ==>
      m[k].left == st.m[k].left && m[k].right == st.m[k].right && m[k].parent == st.m[k].parent;
  }

  lemma PaintMatch(t: Tree<Node>, x: Node, st: Store, red: bool)
    requires Match(t, x, st.m) && Distinct(t) && t.Bin? && x in st.m
    ensures Match(t.(red := red), x, Paint(st, x, red).m)
  {
    var z := Paint(st, x, red);
    Unfold(t, x, st.m);
    FrameMatch(t.l, st.m[x].left, st.m, z.m);
    FrameMatch(t.r, st.m[x].right, st.m, z.m);
  }

  lemma PaintAt(p: Path<Node>, t: Tree<Node>, x: Node, st: Store, red: bool)
    requires At(p, t, x, st) && t.Bin? && x in st.m
    ensures At(p, t.(red := red), x, Paint(st, x, red))
  {
    PaintMatch(t, x, st, red);
    FramePath(p, x, st, Paint(st, x, red));
    PaintLinks(st, x, red);
  }

  lemma PaintRight(p: Path<Node>, t: Tree<Node>, x: Node, st: Store, red: bool)
    requires At(p, t, x, st) && t.Bin? && t.r.Bin?
    ensures t.r.n in st.m
    ensures At(p, t.(r := t.r.(red := red)), x, Paint(st, t.r.n, red))
  {
    Unfold(t, x, st.m);
    var b := InR(t.l, t.n, t.red, p);
    Descend(b, t.r, x, st);
    Unfold(t.r, t.r.n, st.m);
    PaintAt(b, t.r, t.r.n, st, red);
    Ascend(b, t.r.(red := red), t.r.n, Paint(st, t.r.n, red));
  }

  lemma PaintLeft(p: Path<Node>, t: Tree<Node>, x: Node, st: Store, red: bool)
    requires At(p, t, x, st) && t.Bin? && t.l.Bin?
    ensures t.l.n in st.m
    ensures At(p, t.(l := t.l.(red := red)), x, Paint(st, t.l.n, red))
  {
    Unfold(t, x, st.m);
    var b := InL(t.n, t.red, t.r, p);
    Descend(b, t.l, x, st);
    Unfold(t.l, t.l.n, st.m);
    PaintAt(b, t.l, t.l.n, st, red);
    Ascend(b, t.l.(red := red), t.l.n, Paint(st, t.l.n, red));
  }

  // ---------- Left and right exchanged ----------

  ghost function Flip(st: Store): Store {
    Store(st.root, map n | n in st.m :: var c := st.m[n]; Cell(c.parent, c.red, c.right, c.left))
  }

  lemma {:induction false} FlipMatch(t: Tree<Node>, x: Node?, st: Store)
    requires Match(t, x, st.m)
    ensures Match(Mirror(t), x, Flip(st).m)
  {
    match t
    case Leaf =>
    case Bin(l, n, _, r) =>
      FlipMatch(l, st.m[n].left, st);
      FlipMatch(r, st.m[n].right, st);
  }

  lemma {:induction false} FlipPath(p: Path<Node>, x: Node?, st: Store)
    requires MatchPath(p, x, st)
    ensures MatchPath(PMirror(p), x, Flip(st))
  {
    match p
    case Top =>
    case InL(n, _, r, up) => FlipMatch(r, st.m[n].right, st); FlipPath(up, n, st);
    case InR(l, n, _, up) => FlipMatch(l, st.m[n].left, st); FlipPath(up, n, st);
  }

  lemma {:induction false} FlipAt(p: Path<Node>, t: Tree<Node>, x: Node?, st: Store)
    requires At(p, t, x, st)
    ensures At(PMirror(p), Mirror(t), x, Flip(st))
  {
    FlipMatch(t, x, st);
    FlipPath(p, x, st);
    MirrorKeeps(t);
    PMirrorKeeps(p);
    assert Flip(st).m.Keys == st.m.Keys;
  }
}
