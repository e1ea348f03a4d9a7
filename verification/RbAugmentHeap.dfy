/** The augmentation calls on nodes, and whole augmented insertions and erasures. */
module RbAugmentHeap {
  import opened Common
  import opened RbTree
  import opened RbHeap
  import opened RbInsert
  import opened RbErase
  import opened RbWalk
  import opened RbAugment

  /** The user's callback on one node. */
  method Callback(n: Node, f: Recompute, root: Root, ghost t: Tree<Node>, ghost st: Store, ghost v: Values<Node>)
    returns (ghost w: Values<Node>)
    requires Holds(st, root) && Match(t, n, st.m) && t.Bin? && Elems(t) <= st.m.Keys && Keeps(v, st.m.Keys)
    modifies n`aug
    ensures t.n in v.own && w == Refresh(v, t, f) && Keeps(w, st.m.Keys)
  {
    Unfold(t, n, st.m);
    assert t.l.Bin? ==> t.l.n in Elems(t.l);
    assert t.r.Bin? ==> t.r.n in Elems(t.r);
    w := Refresh(v, t, f);
    var l := if n.left == null then None else Some(n.left.aug);
    var r := if n.right == null then None else Some(n.right.aug);
    n.aug := f(n.own, l, r);
  }

  /** One level of `rb_augment_path`: refresh the node that `parent` has besides `node`. */
  method RefreshSibling(node: Node, parent: Node, f: Recompute, root: Root,
                        ghost p: Path<Node>, ghost t: Tree<Node>, ghost st: Store, ghost v: Values<Node>)
    returns (ghost w: Values<Node>)
    requires Holds(st, root) && At(p, t, node, st) && !p.Top? && parent == p.n && Keeps(v, st.m.Keys)
    requires Good(t, v, f) && PathKids(p, v, f)
    modifies st.m.Keys`aug
    ensures Keeps(w, st.m.Keys) && w.own == v.own
    ensures KidsGood(Fill(p, t), w, f) && PathKids(p.up, w, f)
    ensures At(p.up, Fill(p, t), parent, st) && parent in st.m && st.m[parent].parent == Above(p.up)
  {
    Around2(p, t, node, st);
    Ascend(p, t, node, st);
    Unfold(Fill(p, t), parent, st.m);
    FillSets(p, t);
    w := v;
    ghost var s := Sibling(p);
    assert Elems(s) <= PElems(p);
    if node == parent.left && parent.right != null {
      RefreshPath(p.up, s, w, f);
      RefreshHere(s, w, f);
      RefreshElsewhere(t, s, w, f);
      w := Callback(parent.right, f, root, s, st, w);
    } else if parent.left != null {
      ghost var u := if p.InL? then t else s;
      RefreshBoth(p, t, u, w, f);
      w := Callback(parent.left, f, root, u, st, w);
    }
  }

  lemma RefreshBoth(p: Path<Node>, t: Tree<Node>, u: Tree<Node>, v: Values<Node>, f: Recompute)
    requires Separate(p, t) && !p.Top? && Good(t, v, f) && PathKids(p, v, f) && u.Bin?
    requires u == Sibling(p) || (u == t && Sibling(p).Leaf?)
    requires u.n in v.own && u.n in v.aug
    ensures KidsGood(Fill(p, t), Refresh(v, u, f), f) && PathKids(p.up, Refresh(v, u, f), f)
  {
    FillSets(p, t);
    assert Elems(Sibling(p)) <= PElems(p) && u.n in Elems(u);
    RefreshPath(p.up, u, v, f);
    RefreshHere(u, v, f);
    if u == Sibling(p) { RefreshElsewhere(t, u, v, f); }
  }

  method RefreshNode(node: Node, f: Recompute, root: Root,
                     ghost p: Path<Node>, ghost t: Tree<Node>, ghost st: Store, ghost v: Values<Node>)
    returns (ghost w: Values<Node>)
    requires Holds(st, root) && At(p, t, node, st) && t.Bin? && Keeps(v, st.m.Keys)
    requires KidsGood(t, v, f) && PathKids(p, v, f)
    modifies st.m.Keys`aug
    ensures Keeps(w, st.m.Keys) && w.own == v.own
    ensures Good(t, w, f) && PathKids(p, w, f)
  {
    assert t.n in Elems(t);
    RefreshHere(t, v, f);
    RefreshPath(p, t, v, f);
    w := Callback(node, f, root, t, st, v);
  }

  /** One round of `rb_augment_path`: `next` is the parent, null above the root. */
  method AugmentLevel(node: Node, f: Recompute, root: Root,
                      ghost p: Path<Node>, ghost t: Tree<Node>, ghost st: Store, ghost v: Values<Node>)
    returns (next: Node?, ghost w: Values<Node>)
    requires Holds(st, root) && At(p, t, node, st) && t.Bin? && Keeps(v, st.m.Keys)
    requires KidsGood(t, v, f) && PathKids(p, v, f)
    modifies st.m.Keys`aug
    ensures Keeps(w, st.m.Keys) && w.own == v.own && next == Above(p)
    ensures next == null ==> Good(t, w, f)
    ensures next != null ==> At(p.up, Fill(p, t), next, st) && KidsGood(Fill(p, t), w, f) && PathKids(p.up, w, f)
  {
    ParentIsAbove(p, t, node, st);
    w := RefreshNode(node, f, root, p, t, st, v);
    next := node.parent;
    if next != null {
      w := RefreshSibling(node, next, f, root, p, t, st, w);
    }
  }

  /** `rb_augment_path` */
  method AugmentPath(start: Node, f: Recompute, root: Root,
                     ghost p0: Path<Node>, ghost t0: Tree<Node>, ghost st: Store, ghost v: Values<Node>)
    returns (ghost w: Values<Node>)
    requires Holds(st, root) && At(p0, t0, start, st) && Keeps(v, st.m.Keys)
    requires KidsGood(t0, v, f) && PathKids(p0, v, f)
    modifies st.m.Keys`aug
    ensures Keeps(w, st.m.Keys) && w.own == v.own
    ensures Good(Plug(p0, t0), w, f)
  {
    var node := start;
    ghost var p, t := p0, t0;
    w := v;
    ParentIsAbove(p, t, node, st);
    while true
      invariant At(p, t, node, st) && t.Bin?
      invariant Keeps(w, st.m.Keys) && w.own == v.own
      invariant KidsGood(t, w, f) && PathKids(p, w, f)
      invariant Plug(p, t) == Plug(p0, t0)
      decreases p
    {
      var parent;
      parent, w := AugmentLevel(node, f, root, p, t, st, w);
      if parent == null {
        return;
      }
      node, p, t := parent, p.up, Fill(p, t);
    }
  }

  /** `rb_augment_insert`: wherever the insertion rotated, every node is right afterwards. */
  method AugmentInsert(node: Node, f: Recompute, root: Root,
                       ghost t: Tree<Node>, ghost st: Store, ghost v: Values<Node>)
    returns (ghost w: Values<Node>)
    requires Holds(st, root) && At(Top, t, root.node, st) && Keeps(v, st.m.Keys)
    requires node in Elems(t) && Almost(t, Start(t, node), v, f)
    modifies st.m.Keys`aug
    ensures Keeps(w, st.m.Keys) && w.own == v.own && Good(t, w, f)
    ensures Holds(st, root) && At(Top, t, root.node, st)
  {
    ghost var q, u := Locate(t, Top, node, root.node, st);
    StartIs(q, u, node);
    Unfold(u, node, st.m);
    var from := node;
    if node.left != null {
      from := node.left;
    } else if node.right != null {
      from := node.right;
    }
    assert from == Start(t, node);
    ghost var r, s := FindStale(t, Top, from, v, f);
    UnplugAt(r, s, st);
    w := AugmentPath(from, f, root, r, s, st, v);
  }

  lemma StartIs<T>(q: Path<T>, u: Tree<T>, x: T)
    requires u.Bin? && u.n == x && Distinct(Plug(q, u))
    ensures Plug(q, u).Bin?
    ensures Start(Plug(q, u), x) == if u.l.Bin? then u.l.n else if u.r.Bin? then u.r.n else x
  {
    StartPlug(q, u, x);
  }

  /** The place of a node of a tree. */
  lemma {:induction false} Locate(t: Tree<Node>, acc: Path<Node>, n: Node, x: Node?, st: Store)
    returns (q: Path<Node>, u: Tree<Node>)
    requires At(acc, t, x, st) && n in Elems(t)
    ensures At(q, u, n, st) && u.Bin? && u.n == n && Plug(q, u) == Plug(acc, t)
    decreases t
  {
    Unfold(t, x, st.m);
    if t.n == n {
      q, u := acc, t;
    } else if n in Elems(t.l) {
      var down := InL(t.n, t.red, t.r, acc);
      Descend(down, t.l, x, st);
      q, u := Locate(t.l, down, n, st.m[x].left, st);
    } else {
      var down := InR(t.l, t.n, t.red, acc);
      Descend(down, t.r, x, st);
      q, u := Locate(t.r, down, n, st.m[x].right, st);
    }
  }

  lemma {:induction false} UnplugAt(p: Path<Node>, t: Tree<Node>, st: Store)
    requires At(Top, Plug(p, t), st.root, st) && t.Bin?
    ensures At(p, t, t.n, st)
    decreases p
  {
    if p.Top? {
      Unfold(t, st.root, st.m);
    } else {
      UnplugAt(p.up, Fill(p, t), st);
      Unfold(Fill(p, t), p.n, st.m);
      Descend(p, t, p.n, st);
    }
  }


  // ---------- Whole operations ----------

  /** `rb_augment_erase_begin`: the deepest node on the rebalancing path that will still be there. */
  method EraseBegin(node: Node, root: Root, ghost p: Path<Node>, ghost t: Tree<Node>, ghost st: Store)
    returns (deepest: Node?)
    requires Holds(st, root) && At(p, t, node, st) && t.Bin?
    ensures deepest == Deepest(p, t)
  {
    Unfold(t, node, st.m);
    ParentIsAbove(p, t, node, st);
    if node.right == null && node.left == null {
      deepest := node.parent;
    } else if node.right == null {
      deepest := node.left;
    } else if node.left == null {
      deepest := node.right;
    } else {
      deepest := DeepestInner(node, root, p, t, st);
    }
  }

  method DeepestInner(node: Node, root: Root, ghost p: Path<Node>, ghost t: Tree<Node>, ghost st: Store)
    returns (deepest: Node?)
    requires Holds(st, root) && At(p, t, node, st) && t.Bin? && t.l.Bin? && t.r.Bin?
    ensures deepest == Deepest(p, t)
  {
    ghost var q, s := MinPath(t.r, Top), MinTree(t.r);
    SplicesReady(p, t, node, q, s, st);
    MinSets(t.r);
    MinPathAppend(t.r, InR(t.l, s.n, t.red, p));
    assert t.n == node && s.n in Elems(t.r) && (q.Top? || q.n in Elems(t.r));
    NotSelf(p, t, node, st);
    var next;
    ghost var r, u, k;
    next, r, u, k := Next(node, root, p, t, st);
    SuccessorIsMin(p, t);
    deepest := next;
    if deepest.right != null {
      deepest := deepest.right;
    } else if deepest.parent != node {
      deepest := deepest.parent;
    }
  }

  lemma SuccessorIsMin<T>(p: Path<T>, t: Tree<T>)
    requires t.Bin? && t.r.Bin?
    ensures Later(p, t) != [] && Later(p, t)[0] == MinTree(t.r).n
  {
    MinPathAround(t.r, InR(t.l, t.n, t.red, p));
  }

  /** `rb_augment_erase_end` */
  method EraseEnd(deepest: Node?, f: Recompute, root: Root,
                  ghost t: Tree<Node>, ghost st: Store, ghost v: Values<Node>)
    returns (ghost w: Values<Node>)
    requires Holds(st, root) && At(Top, t, root.node, st) && Keeps(v, st.m.Keys)
    requires StaleFrom(t, deepest, v, f)
    modifies st.m.Keys`aug
    ensures Keeps(w, st.m.Keys) && Good(t, w, f)
    ensures Holds(st, root) && At(Top, t, root.node, st)
  {
    w := v;
    if deepest != null {
      ghost var r, s := FindStale(t, Top, deepest, v, f);
      UnplugAt(r, s, st);
      w := AugmentPath(deepest, f, root, r, s, st, v);
    }
  }

  /** Erasing any node of any valid augmented tree: begin, erase, end. */
  method AugmentedErase(node: Node, f: Recompute, root: Root,
                        ghost t: Tree<Node>, ghost st: Store, ghost v: Values<Node>)
    returns (ghost u: Tree<Node>, ghost z: Store, ghost w: Values<Node>, ghost i: nat)
    requires Holds(st, root) && At(Top, t, root.node, st) && Valid(t) && node in Elems(t)
    requires Keeps(v, st.m.Keys) && Good(t, v, f)
    modifies root, st.m.Keys`left, st.m.Keys`right, st.m.Keys`parent, st.m.Keys`red, st.m.Keys`aug
    ensures Holds(z, root) && At(Top, u, root.node, z) && z.m.Keys == st.m.Keys - {node}
    ensures Valid(u)
    ensures i < |Inorder(t)| && Inorder(t)[i] == node && Inorder(u) == Inorder(t)[..i] + Inorder(t)[i + 1..]
    ensures Keeps(w, z.m.Keys) && Good(u, w, f)
  {
    var deepest;
    deepest, u, z, i := EraseStale(node, f, root, t, st, v);
    KeepsFewer(v, st.m.Keys, z.m.Keys);
    w := EraseEnd(deepest, f, root, u, z, v);
  }

  lemma KeepsFewer(v: Values<Node>, s: set<Node>, s': set<Node>)
    requires Keeps(v, s) && s' <= s
    ensures Keeps(v, s')
  {
  }

  /** `rb_augment_erase_begin` and `rb_erase`. */
  method EraseStale(node: Node, ghost f: Recompute, root: Root,
                    ghost t: Tree<Node>, ghost st: Store, ghost v: Values<Node>)
    returns (deepest: Node?, ghost u: Tree<Node>, ghost z: Store, ghost i: nat)
    requires Holds(st, root) && At(Top, t, root.node, st) && Valid(t) && node in Elems(t) && Good(t, v, f)
    modifies root, st.m.Keys`left, st.m.Keys`right, st.m.Keys`parent, st.m.Keys`red
    ensures Holds(z, root) && At(Top, u, root.node, z) && z.m.Keys == st.m.Keys - {node} && Valid(u)
    ensures i < |Inorder(t)| && Inorder(t)[i] == node && Inorder(u) == Inorder(t)[..i] + Inorder(t)[i + 1..]
    ensures StaleFrom(u, deepest, v, f)
  {
    ghost var p, x := Locate(t, Top, node, root.node, st);
    ErasedAlmost(p, x, v, f);
    deepest := EraseBegin(node, root, p, x, st);
    u, z := Erase(node, root, p, x, st);
    i := RemovedAt(p, x, u);
  }

  lemma RemovedAt<T>(p: Path<T>, x: Tree<T>, u: Tree<T>) returns (i: nat)
    requires x.Bin? && Inorder(u) == Before(p) + Inorder(x.l) + Inorder(x.r) + After(p)
    ensures var s := Inorder(Plug(p, x));
      i < |s| && s[i] == x.n && Inorder(u) == s[..i] + s[i + 1..]
  {
    PlaceInOrder(p, x);
    i := |Earlier(p, x)|;
    var s := Inorder(Plug(p, x));
    assert s[..i] == Earlier(p, x);
    assert s[i + 1..] == Later(p, x);
    assert Inorder(u) == Earlier(p, x) + Later(p, x);
  }

  ghost predicate Agree(v: Values<Node>, w: Values<Node>, s: set<Node>) {
    forall n :: n in s && n in v.own && n in v.aug ==>
      n in w.own && n in w.aug && w.own[n] == v.own[n] && w.aug[n] == v.aug[n]
  }

  lemma {:induction false} GoodRestrict(t: Tree<Node>, v: Values<Node>, w: Values<Node>, f: Recompute)
    requires Good(t, v, f)
    requires Agree(v, w, Elems(t))
    ensures Good(t, w, f)
  {
    if t.Bin? {
      GoodRestrict(t.l, v, w, f);
      GoodRestrict(t.r, v, w, f);
      assert t.l.Bin? ==> t.l.n in Elems(t.l) && t.l.n in v.aug;
      assert t.r.Bin? ==> t.r.n in Elems(t.r) && t.r.n in v.aug;
    }
  }

  /** Inserting at any empty place of any valid augmented tree: link, rebalance, augment. */
  method AugmentedInsert(node: Node, parent: Node?, link: Link, f: Recompute, root: Root,
                         ghost p: Path<Node>, ghost st: Store, ghost v: Values<Node>)
    returns (ghost t: Tree<Node>, ghost z: Store, ghost w: Values<Node>)
    requires Holds(st, root) && At(p, Leaf, null, st) && node !in st.m && Valid(Plug(p, Leaf))
    requires parent == Above(p) && link == LinkOf(p)
    requires Keeps(v, st.m.Keys) && Good(Plug(p, Leaf), v, f)
    modifies root, node`parent, node`red, node`left, node`right, node`aug
    modifies st.m.Keys`left, st.m.Keys`right, st.m.Keys`parent, st.m.Keys`red, st.m.Keys`aug
    ensures Holds(z, root) && At(Top, t, root.node, z) && z.m.Keys == st.m.Keys + {node}
    ensures Valid(t) && Inorder(t) == Before(p) + [node] + After(p)
    ensures Keeps(w, z.m.Keys) && Good(t, w, f)
  {
    w := KeepsOneMore(node, v, st.m.Keys);
    LinkedAlmost(p, node, v, w, f);
    t, z := InsertStale(node, parent, link, f, root, p, st, w);
    assert Keeps(w, st.m.Keys + {node});
    w := AugmentInsert(node, f, root, t, z, w);
  }

  lemma KeepsOneMore(node: Node, v: Values<Node>, s: set<Node>) returns (w: Values<Node>)
    requires Keeps(v, s) && node !in s
    ensures Keeps(w, s + {node}) && Agree(v, w, s)
  {
    w := Values(v.own[node := node.own], v.aug[node := node.aug]);
  }

  method InsertStale(node: Node, parent: Node?, link: Link, ghost f: Recompute, root: Root,
                     ghost p: Path<Node>, ghost st: Store, ghost v: Values<Node>)
    returns (ghost t: Tree<Node>, ghost z: Store)
    requires Holds(st, root) && At(p, Leaf, null, st) && node !in st.m && Valid(Plug(p, Leaf))
    requires parent == Above(p) && link == LinkOf(p)
    requires var u := InsertFix(p, Bin(Leaf, node, true, Leaf)); u.Bin? && Almost(u, Start(u, node), v, f)
    modifies root, node`parent, node`red, node`left, node`right
    modifies st.m.Keys`left, st.m.Keys`right, st.m.Keys`parent, st.m.Keys`red
    ensures Holds(z, root) && At(Top, t, root.node, z) && z.m.Keys == st.m.Keys + {node}
    ensures Valid(t) && Inorder(t) == Before(p) + [node] + After(p)
    ensures node in Elems(t) && Almost(t, Start(t, node), v, f)
  {
    t, z := Insert(node, parent, link, root, p, st);
    PlugKeys(p, node, t, z);
  }

  lemma LinkedAlmost(p: Path<Node>, n: Node, v: Values<Node>, w: Values<Node>, f: Recompute)
    requires Good(Plug(p, Leaf), v, f) && n !in PElems(p) && PDistinct(p)
    requires Agree(v, w, PElems(p))
    ensures var t := InsertFix(p, Bin(Leaf, n, true, Leaf));
      t.Bin? && Almost(t, Start(t, n), w, f)
  {
    var leaf := Bin(Leaf, n, true, Leaf);
    PathGoodMore(p, n, v, w, f);
    assert Elems(leaf) == {n};
    InsertFixAlmost(p, leaf, n, w, f);
  }

  lemma PlugKeys(p: Path<Node>, node: Node, t: Tree<Node>, z: Store)
    requires At(Top, t, z.root, z)
    requires Inorder(t) == Before(p) + [node] + After(p)
    ensures node in Elems(t)
  {
    assert Inorder(t)[|Before(p)|] == node;
    ElemsInorder(t);
  }

  lemma {:induction false} PathGoodMore(p: Path<Node>, n: Node, v: Values<Node>, w: Values<Node>, f: Recompute)
    requires Good(Plug(p, Leaf), v, f) && n !in PElems(p)
    requires Agree(v, w, PElems(p))
    ensures PathGood(p, w, f)
  {
    GoodUnplug(p, Leaf, v, f);
    PathGoodKeep(p, v, w, f);
  }

  lemma {:induction false} PathGoodKeep(p: Path<Node>, v: Values<Node>, w: Values<Node>, f: Recompute)
    requires PathGood(p, v, f)
    requires Agree(v, w, PElems(p))
    ensures PathGood(p, w, f)
    decreases p
  {
    if !p.Top? {
      GoodRestrict(Sibling(p), v, w, f);
      PathGoodKeep(p.up, v, w, f);
    }
  }
}
