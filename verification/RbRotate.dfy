/** The rotations `__rb_rotate_left` and `__rb_rotate_right`. */
module RbRotate {
  import opened RbTree
  import opened RbHeap

  ghost function Opt(x: Node?): set<Node> { if x == null then {} else {x} }

  /** What a rotation needs of the pointers around `node`: `child` is the child that comes up and
      `mid` the grandchild that changes sides. */
  ghost predicate Turns(st: Store, node: Node, child: Node?, mid: Node?) {
    && node in st.m && child != null && child in st.m && child != node
    && (st.m[node].left != st.m[node].right)
    && (mid == null || (mid in st.m && mid != node && mid != child && st.m[child].left != st.m[child].right))
    && var par := st.m[node].parent;
       par == null || (
         && par in st.m && par != node && par != child && par != mid
         && (st.m[par].left == node) != (st.m[par].right == node))
  }

  ghost predicate CanTurnLeft(st: Store, node: Node) {
    && node in st.m && st.m[node].right != null && st.m[node].right in st.m
    && Turns(st, node, st.m[node].right, st.m[st.m[node].right].left)
  }

  ghost predicate CanTurnRight(st: Store, node: Node) {
    && node in st.m && st.m[node].left != null && st.m[node].left in st.m
    && Turns(st, node, st.m[node].left, st.m[st.m[node].left].right)
  }

  /** The store after a left rotation at `node`, field by field. */
  ghost function TurnLeft(st: Store, node: Node): Store
    requires CanTurnLeft(st, node)
  {
    var m := st.m;
    var par, right := m[node].parent, m[node].right;
    var mid := m[right].left;
    Store(
      if par == null then right else st.root,
      map n | n in m :: Cell(
        if n == node then right else if n == right then par else if n == mid then node else m[n].parent,
        m[n].red,
        if n == right then node else if n == par && m[n].left == node then right else m[n].left,
        if n == node then mid else if n == par && m[n].right == node then right else m[n].right))
  }

  ghost function TurnRight(st: Store, node: Node): Store
    requires CanTurnRight(st, node)
  {
    var m := st.m;
    var par, left := m[node].parent, m[node].left;
    var mid := m[left].right;
    Store(
      if par == null then left else st.root,
      map n | n in m :: Cell(
        if n == node then left else if n == left then par else if n == mid then node else m[n].parent,
        m[n].red,
        if n == node then mid else if n == par && m[n].left == node then left else m[n].left,
        if n == left then node else if n == par && m[n].right == node then left else m[n].right))
  }

  method RotateLeft(node: Node, root: Root)
    requires node.right != null && node.right != node
    requires node.parent != node && node.parent != node.right
    requires node.right.left != node && node.right.left != node.right
    requires node.parent == null || node.right.left != node.parent
    modifies root, {node, node.right}`left, {node, node.right}`right, {node, node.right}`parent
    modifies Opt(node.right.left)`parent, Opt(node.parent)`left, Opt(node.parent)`right
    ensures node.left == old(node.left) && node.right == old(node.right.left)
    ensures node.parent == old(node.right)
    ensures var right := old(node.right);
      right.left == node && right.right == old(right.right) && right.parent == old(node.parent)
    ensures node.right != null ==> node.right.parent == node
    ensures var p := old(node.parent);
      if p == null then root.node == old(node.right) else (
        && root.node == old(root.node)
        && p.left == (if old(p.left) == node then old(node.right) else old(p.left))
        && p.right == (if old(p.left) == node then old(p.right) else old(node.right)))
  {
    var right := node.right;
    var parent := node.parent;
    node.right := right.left;
    if node.right != null {
      right.left.parent := node;
    }
    right.left := node;
    right.parent := parent;
    if parent != null {
      if node == parent.left {
        parent.left := right;
      } else {
        parent.right := right;
      }
    } else {
      root.node := right;
    }
    node.parent := right;
  }

  method RotateLeftSt(node: Node, root: Root, ghost st: Store)
    requires Holds(st, root) && CanTurnLeft(st, node)
    modifies root, st.m.Keys`left, st.m.Keys`right, st.m.Keys`parent
    ensures Holds(TurnLeft(st, node), root)
  {
    RotateLeft(node, root);
  }

  method RotateRight(node: Node, root: Root)
    requires node.left != null && node.left != node
    requires node.parent != node && node.parent != node.left
    requires node.left.right != node && node.left.right != node.left
    requires node.parent == null || node.left.right != node.parent
    modifies root, {node, node.left}`left, {node, node.left}`right, {node, node.left}`parent
    modifies Opt(node.left.right)`parent, Opt(node.parent)`left, Opt(node.parent)`right
    ensures node.right == old(node.right) && node.left == old(node.left.right)
    ensures node.parent == old(node.left)
    ensures var left := old(node.left);
      left.right == node && left.left == old(left.left) && left.parent == old(node.parent)
    ensures node.left != null ==> node.left.parent == node
    ensures var p := old(node.parent);
      if p == null then root.node == old(node.left) else (
        && root.node == old(root.node)
        && p.right == (if old(p.right) == node then old(node.left) else old(p.right))
        && p.left == (if old(p.right) == node then old(p.left) else old(node.left)))
  {
    var left := node.left;
    var parent := node.parent;
    node.left := left.right;
    if node.left != null {
      left.right.parent := node;
    }
    left.right := node;
    left.parent := parent;
    if parent != null {
      if node == parent.right {
        parent.right := left;
      } else {
        parent.left := left;
      }
    } else {
      root.node := left;
    }
    node.parent := left;
  }

  method RotateRightSt(node: Node, root: Root, ghost st: Store)
    requires Holds(st, root) && CanTurnRight(st, node)
    modifies root, st.m.Keys`left, st.m.Keys`right, st.m.Keys`parent
    ensures Holds(TurnRight(st, node), root)
  {
    RotateRight(node, root);
  }

  lemma TurnLeftReady(p: Path<Node>, t: Tree<Node>, node: Node, st: Store)
    requires CanRotL(t) && At(p, t, node, st)
    ensures CanTurnLeft(st, node)
    ensures st.m[node].right == t.r.n && st.m[t.r.n].left == Ref(t.r.l) && st.m[node].parent == Above(p)
    ensures Above(p) == null ==> st.root == node
  {
    Unfold(t, node, st.m);
    Unfold(t.r, t.r.n, st.m);
    ParentIsAbove(p, t, node, st);
    RotLSets(t);
    match p
    case Top =>
    case InL(n, _, r, _) =>
    case InR(l, n, _, _) =>
  }

  lemma TurnLeftMatch(p: Path<Node>, t: Tree<Node>, node: Node, st: Store)
    requires CanRotL(t) && At(p, t, node, st) && CanTurnLeft(st, node)
    ensures Match(RotL(t), t.r.n, TurnLeft(st, node).m)
  {
    var a, b, d := t.l, t.r.l, t.r.r;
    var right, z := t.r.n, TurnLeft(st, node);
    TurnLeftReady(p, t, node, st);
    TurnLeftParts(p, t, node, st);
    assert Match(a, z.m[node].left, z.m) && Match(b, z.m[node].right, z.m);
    assert Match(Bin(a, node, t.red, b), node, z.m);
    assert Match(d, z.m[right].right, z.m);
  }

  lemma TurnLeftParts(p: Path<Node>, t: Tree<Node>, node: Node, st: Store)
    requires CanRotL(t) && At(p, t, node, st) && CanTurnLeft(st, node)
    ensures var m := TurnLeft(st, node).m; var right := t.r.n;
      && Match(t.l, m[node].left, m) && Match(t.r.l, m[node].right, m) && Match(t.r.r, m[right].right, m)
      && m[node].red == t.red && m[right].red == t.r.red && m[right].left == node
  {
    var right, z := t.r.n, TurnLeft(st, node);
    TurnLeftReady(p, t, node, st);
    Unfold(t, node, st.m);
    Unfold(t.r, right, st.m);
    RotLSets(t);
    assert Above(p) != null ==> Above(p) in PElems(p);
    TurnLeftSame(st, node, Elems(t) - {node, right});
    FrameMatch(t.l, st.m[node].left, st.m, z.m);
    FrameMatch(t.r.l, st.m[right].left, st.m, z.m);
    FrameMatch(t.r.r, st.m[right].right, st.m, z.m);
  }

  lemma TurnLeftSame(st: Store, node: Node, s: set<Node>)
    requires CanTurnLeft(st, node) && node !in s && st.m[node].right !in s
    requires st.m[node].parent == null || st.m[node].parent !in s
    ensures Same(st.m, TurnLeft(st, node).m, s)
  {
  }

  lemma TurnLeftPath(p: Path<Node>, t: Tree<Node>, node: Node, st: Store)
    requires CanRotL(t) && At(p, t, node, st) && CanTurnLeft(st, node)
    ensures MatchPath(p, t.r.n, TurnLeft(st, node))
  {
    TurnLeftReady(p, t, node, st);
    RotLSets(t);
    SwingPath(p, node, t.r.n, st);
    FramePath(p, t.r.n, Swing(p, t.r.n, st), TurnLeft(st, node));
  }

  lemma TurnLeftLinks(st: Store, node: Node)
    requires CanTurnLeft(st, node) && Links(st)
    requires st.m[node].parent == null ==> st.root == node
    ensures Links(TurnLeft(st, node))
  {
  }

  /** A left rotation of the nodes is the left rotation of the tree. */
  lemma TurnLeftAt(p: Path<Node>, t: Tree<Node>, node: Node, st: Store)
    requires CanRotL(t) && At(p, t, node, st)
    ensures CanTurnLeft(st, node)
    ensures At(p, RotL(t), t.r.n, TurnLeft(st, node))
  {
    TurnLeftReady(p, t, node, st);
    TurnLeftMatch(p, t, node, st);
    TurnLeftPath(p, t, node, st);
    TurnLeftLinks(st, node);
    RotLKeeps(t);
  }

  lemma FlipTurn(st: Store, node: Node)
    requires CanTurnLeft(Flip(st), node)
    ensures CanTurnRight(st, node)
    ensures TurnRight(st, node) == Flip(TurnLeft(Flip(st), node))
  {
    var x, y := Flip(TurnLeft(Flip(st), node)), TurnRight(st, node);
    assert x.m.Keys == y.m.Keys == st.m.Keys;
    assert forall n :: n in x.m ==> x.m[n] == y.m[n];
  }

  lemma TurnRightAt(p: Path<Node>, t: Tree<Node>, node: Node, st: Store)
    requires CanRotR(t) && At(p, t, node, st)
    ensures CanTurnRight(st, node)
    ensures At(p, RotR(t), t.l.n, TurnRight(st, node))
  {
    MirrorRot(t);
    FlipAt(p, t, node, st);
    TurnLeftAt(PMirror(p), Mirror(t), node, Flip(st));
    FlipAt(PMirror(p), RotL(Mirror(t)), t.l.n, TurnLeft(Flip(st), node));
    FlipTurn(st, node);
    PMirrorKeeps(p);
  }

  /** Both rotations, from the store to the tree. */
  method RotateLeftAt(node: Node, root: Root, ghost p: Path<Node>, ghost t: Tree<Node>, ghost st: Store)
    returns (ghost z: Store)
    requires CanRotL(t) && At(p, t, node, st) && Holds(st, root)
    modifies root, st.m.Keys`left, st.m.Keys`right, st.m.Keys`parent
    ensures At(p, RotL(t), t.r.n, z) && Holds(z, root) && z.m.Keys == st.m.Keys
  {
    TurnLeftAt(p, t, node, st);
    z := TurnLeft(st, node);
    RotateLeftSt(node, root, st);
  }

  method RotateRightAt(node: Node, root: Root, ghost p: Path<Node>, ghost t: Tree<Node>, ghost st: Store)
    returns (ghost z: Store)
    requires CanRotR(t) && At(p, t, node, st) && Holds(st, root)
    modifies root, st.m.Keys`left, st.m.Keys`right, st.m.Keys`parent
    ensures At(p, RotR(t), t.l.n, z) && Holds(z, root) && z.m.Keys == st.m.Keys
  {
    TurnRightAt(p, t, node, st);
    z := TurnRight(st, node);
    RotateRightSt(node, root, st);
  }
}
