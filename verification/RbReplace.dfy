/** Putting another node in a node's place: `rb_replace_node`. */
module RbReplace {
  import opened RbTree
  import opened RbHeap
  import opened RbRotate

  /** The store with `other` where `victim` was. */
  ghost function Replaced(st: Store, victim: Node, other: Node): Store
    requires victim in st.m
  {
    var m, v := st.m, st.m[victim];
    Store(
      if v.parent == null then other else st.root,
      map n | n in m.Keys - {victim} + {other} :: if n == other || n !in m then v else Cell(
        if n == v.left || n == v.right then other else m[n].parent,
        m[n].red,
        if n == v.parent && m[n].left == victim then other else m[n].left,
        if n == v.parent && m[n].left != victim then other else m[n].right))
  }

  lemma ReplacedLinks(victim: Node, other: Node, st: Store)
    requires Links(st) && other !in st.m && HangsOnce(st, victim)
    requires var v := st.m[victim];
      v.parent != victim && v.left != victim && v.right != victim && (v.left == null || v.left != v.right)
    ensures Links(Replaced(st, victim, other))
  {
    ReplacedLefts(victim, other, st);
    ReplacedRights(victim, other, st);
  }

  lemma ReplacedLefts(victim: Node, other: Node, st: Store)
    requires Links(st) && other !in st.m && HangsOnce(st, victim)
    requires var v := st.m[victim];
      v.parent != victim && v.left != victim && v.right != victim && (v.left == null || v.left != v.right)
    ensures var m := Replaced(st, victim, other).m;
      forall n :: n in m && m[n].left != null ==> m[n].left in m && m[m[n].left].parent == n
  {
  }

  lemma ReplacedRights(victim: Node, other: Node, st: Store)
    requires Links(st) && other !in st.m && HangsOnce(st, victim)
    requires var v := st.m[victim];
      v.parent != victim && v.left != victim && v.right != victim && (v.left == null || v.left != v.right)
    ensures var m := Replaced(st, victim, other).m;
      forall n :: n in m && m[n].right != null ==> m[n].right in m && m[m[n].right].parent == n
  {
  }

  lemma ReplacedPath(p: Path<Node>, t: Tree<Node>, victim: Node, other: Node, st: Store)
    requires At(p, t, victim, st) && t.Bin? && other !in st.m && victim in st.m
    ensures MatchPath(p, other, Replaced(st, victim, other))
  {
    ParentIsAbove(p, t, victim, st);
    if !p.Top? { Around2(p, t, victim, st); }
    SwingPath(p, victim, other, st);
    FramePath(p, other, Swing(p, other, st), Replaced(st, victim, other));
  }

  lemma ReplacedStaysLinked(p: Path<Node>, t: Tree<Node>, victim: Node, other: Node, st: Store)
    requires At(p, t, victim, st) && t.Bin? && other !in st.m
    ensures victim in st.m && Links(Replaced(st, victim, other))
  {
    Unfold(t, victim, st.m);
    ParentIsAbove(p, t, victim, st);
    if !p.Top? { Around2(p, t, victim, st); }
    ReplacedLinks(victim, other, st);
  }

  lemma ReplacedMatch(t: Tree<Node>, victim: Node, other: Node, st: Store)
    requires Match(t, victim, st.m) && Distinct(t) && t.Bin? && other !in st.m && Elems(t) <= st.m.Keys
    requires victim in st.m && st.m[victim].parent !in Elems(t)
    ensures Match(t.(n := other), other, Replaced(st, victim, other).m)
  {
    var z := Replaced(st, victim, other);
    Unfold(t, victim, st.m);
    FrameMatch(t.l, st.m[victim].left, st.m, z.m);
    FrameMatch(t.r, st.m[victim].right, st.m, z.m);
  }

  lemma ReplacedAt(p: Path<Node>, t: Tree<Node>, victim: Node, other: Node, st: Store)
    requires At(p, t, victim, st) && t.Bin? && other !in st.m
    ensures victim in st.m && At(p, t.(n := other), other, Replaced(st, victim, other))
  {
    ParentIsAbove(p, t, victim, st);
    ReplacedStaysLinked(p, t, victim, other, st);
    ReplacedPath(p, t, victim, other, st);
    ReplacedMatch(t, victim, other, st);
    assert Replaced(st, victim, other).m.Keys == Nodes(p, t.(n := other));
  }

  lemma Middle<T>(b: seq<T>, l: seq<T>, n: T, r: seq<T>, a: seq<T>)
    ensures b + (l + [n] + r) + a == b + l + [n] + (r + a)
  {
  }

  /** The node at the focus, in the order. */
  lemma OrderAt<T>(p: Path<T>, t: Tree<T>)
    requires t.Bin?
    ensures Inorder(Plug(p, t)) == Before(p) + Inorder(t.l) + [t.n] + (Inorder(t.r) + After(p))
  {
    PlugInorder(p, t);
    Middle(Before(p), Inorder(t.l), t.n, Inorder(t.r), After(p));
  }

  /** The rules of the colours do not look at names. */
  lemma RenameValid<T>(p: Path<T>, t: Tree<T>, other: T)
    requires t.Bin? && Valid(Plug(p, t))
    ensures Valid(Plug(p, t.(n := other)))
  {
    var h := UnplugValid(p, t);
    PlugValid(p, t.(n := other), h);
  }

  /** `rb_replace_node` on the fields. */
  method Replace(victim: Node, other: Node, root: Root)
    requires other != victim && victim.parent !in {victim, other}
    requires victim.left == null || victim.left !in {victim, victim.right, other, victim.parent}
    requires victim.right == null || victim.right !in {victim, other, victim.parent}
    modifies root, other, Opt(victim.parent)`left, Opt(victim.parent)`right
    modifies Opt(victim.left)`parent, Opt(victim.right)`parent
    ensures other.parent == old(victim.parent) && other.red == old(victim.red)
    ensures other.left == old(victim.left) && other.right == old(victim.right)
    ensures old(victim.left) != null ==> old(victim.left).parent == other
    ensures old(victim.right) != null ==> old(victim.right).parent == other
    ensures var p := old(victim.parent);
      if p == null then root.node == other else (
        && root.node == old(root.node)
        && p.left == (if old(p.left) == victim then other else old(p.left))
        && p.right == (if old(p.left) == victim then old(p.right) else other))
  {
    var parent := victim.parent;
    if parent != null {
      if victim == parent.left {
        parent.left := other;
      } else {
        parent.right := other;
      }
    } else {
      root.node := other;
    }
    if victim.left != null {
      victim.left.parent := other;
    }
    if victim.right != null {
      victim.right.parent := other;
    }
    other.parent, other.red, other.left, other.right := victim.parent, victim.red, victim.left, victim.right;
  }

  lemma ReplaceReady(p: Path<Node>, t: Tree<Node>, victim: Node, other: Node, st: Store)
    requires At(p, t, victim, st) && t.Bin? && other !in st.m
    ensures victim in st.m
    ensures var v := st.m[victim];
      && other != victim && v.parent != victim && v.parent != other
      && (v.parent == null || v.parent in st.m)
      && (v.left == null || (v.left in st.m && v.left != victim && v.left != v.right && v.left != v.parent))
      && (v.right == null || (v.right in st.m && v.right != victim && v.right != v.parent))
  {
    Unfold(t, victim, st.m);
    ParentIsAbove(p, t, victim, st);
  }

  method ReplaceSt(victim: Node, other: Node, root: Root, ghost st: Store)
    requires Holds(st, root) && other !in st.m && victim in st.m
    requires var v := st.m[victim];
      && other != victim && v.parent != victim && v.parent != other
      && (v.parent == null || v.parent in st.m)
      && (v.left == null || (v.left in st.m && v.left != victim && v.left != v.right && v.left != v.parent))
      && (v.right == null || (v.right in st.m && v.right != victim && v.right != v.parent))
    modifies root, other, st.m.Keys`left, st.m.Keys`right, st.m.Keys`parent
    ensures Holds(Replaced(st, victim, other), root)
  {
    Replace(victim, other, root);
  }

  /** `rb_replace_node`: any node of any tree gives its place to a node from outside. */
  method ReplaceNode(victim: Node, other: Node, root: Root, ghost p: Path<Node>, ghost t: Tree<Node>, ghost st: Store)
    returns (ghost z: Store)
    requires Holds(st, root) && At(p, t, victim, st) && t.Bin? && other !in st.m
    modifies root, other, st.m.Keys`left, st.m.Keys`right, st.m.Keys`parent
    ensures Holds(z, root) && z.m.Keys == st.m.Keys - {victim} + {other}
    ensures At(p, t.(n := other), other, z)
    ensures Inorder(Plug(p, t.(n := other))) == Before(p) + Inorder(t.l) + [other] + (Inorder(t.r) + After(p))
    ensures Valid(Plug(p, t)) ==> Valid(Plug(p, t.(n := other)))
  {
    ReplaceReady(p, t, victim, other, st);
    ReplacedAt(p, t, victim, other, st);
    OrderAt(p, t.(n := other));
    if Valid(Plug(p, t)) { RenameValid(p, t, other); }
    z := Replaced(st, victim, other);
    ReplaceSt(victim, other, root, st);
  }
}
