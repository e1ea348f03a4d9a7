/** Red-black trees as values: the shapes that the pointer code in `RbHeap` moves between.

    A `Tree` is a whole subtree; a `Path` is everything around it, read from the hole up to the
    root. The fix-up loops of src/rb_tree.c climb along a path, so every property of a loop is a
    property of a (path, subtree) pair. */
module RbTree {
  import opened Common

  datatype Tree<T> = Leaf | Bin(l: Tree<T>, n: T, red: bool, r: Tree<T>)

  /** InL: the hole is the left child of `n`. InR: the hole is the right child of `n`. */
  datatype Path<T> =
    | Top
    | InL(n: T, red: bool, r: Tree<T>, up: Path<T>)
    | InR(l: Tree<T>, n: T, red: bool, up: Path<T>)

  // ---------- Contents ----------

  ghost function Inorder<T>(t: Tree<T>): seq<T> {
    match t
    case Leaf => []
    case Bin(l, n, _, r) => Inorder(l) + [n] + Inorder(r)
  }

  ghost function Elems<T>(t: Tree<T>): set<T> {
    match t
    case Leaf => {}
    case Bin(l, n, _, r) => Elems(l) + {n} + Elems(r)
  }

  /** No node occurs twice. */
  ghost predicate Distinct<T>(t: Tree<T>) {
    match t
    case Leaf => true
    case Bin(l, n, _, r) =>
      && n !in Elems(l) && n !in Elems(r) && Elems(l) !! Elems(r)
      && Distinct(l) && Distinct(r)
  }

  /** Nodes in order to the left of the hole. */
  ghost function Before<T>(p: Path<T>): seq<T> {
    match p
    case Top => []
    case InL(_, _, _, up) => Before(up)
    case InR(l, n, _, up) => Before(up) + Inorder(l) + [n]
  }

  /** Nodes in order to the right of the hole. */
  ghost function After<T>(p: Path<T>): seq<T> {
    match p
    case Top => []
    case InL(n, _, r, up) => [n] + Inorder(r) + After(up)
    case InR(_, _, _, up) => After(up)
  }

  ghost function PElems<T>(p: Path<T>): set<T> {
    match p
    case Top => {}
    case InL(n, _, r, up) => {n} + Elems(r) + PElems(up)
    case InR(l, n, _, up) => {n} + Elems(l) + PElems(up)
  }

  ghost predicate PDistinct<T>(p: Path<T>) {
    match p
    case Top => true
    case InL(n, _, r, up) =>
      && n !in Elems(r) && n !in PElems(up) && Elems(r) !! PElems(up)
      && Distinct(r) && PDistinct(up)
    case InR(l, n, _, up) =>
      && n !in Elems(l) && n !in PElems(up) && Elems(l) !! PElems(up)
      && Distinct(l) && PDistinct(up)
  }

  ghost function Plug<T>(p: Path<T>, t: Tree<T>): Tree<T> {
    match p
    case Top => t
    case InL(n, c, r, up) => Plug(up, Bin(t, n, c, r))
    case InR(l, n, c, up) => Plug(up, Bin(l, n, c, t))
  }

  /** One step of `Plug`. */
  ghost function Fill<T>(p: Path<T>, t: Tree<T>): (f: Tree<T>)
    requires !p.Top?
    ensures f.Bin? && f.n == p.n
  {
    match p
    case InL(n, c, r, _) => Bin(t, n, c, r)
    case InR(l, n, c, _) => Bin(l, n, c, t)
  }

  ghost function Depth<T>(p: Path<T>): nat {
    if p.Top? then 0 else 1 + Depth(p.up)
  }

  /** The path `q` continued by the path `p` (`q` lies below `p`). */
  ghost function Append<T>(q: Path<T>, p: Path<T>): Path<T> {
    match q
    case Top => p
    case InL(n, c, r, up) => InL(n, c, r, Append(up, p))
    case InR(l, n, c, up) => InR(l, n, c, Append(up, p))
  }

  lemma Assoc<T>(a: seq<T>, b: seq<T>, n: T, c: seq<T>, d: seq<T>)
    ensures a + (b + [n] + c) + d == a + b + ([n] + c + d)
    ensures a + (b + [n] + c) + d == (a + b + [n]) + c + d
  {
  }

  lemma {:induction false} PlugInorder<T>(p: Path<T>, t: Tree<T>)
    ensures Inorder(Plug(p, t)) == Before(p) + Inorder(t) + After(p)
  {
    match p
    case Top =>
    case InL(n, c, r, up) =>
      PlugInorder(up, Bin(t, n, c, r));
      Assoc(Before(up), Inorder(t), n, Inorder(r), After(up));
    case InR(l, n, c, up) =>
      PlugInorder(up, Bin(l, n, c, t));
      Assoc(Before(up), Inorder(l), n, Inorder(t), After(up));
  }

  lemma {:induction false} PlugElems<T>(p: Path<T>, t: Tree<T>)
    ensures Elems(Plug(p, t)) == PElems(p) + Elems(t)
  {
    match p
    case Top =>
    case InL(n, c, r, up) => PlugElems(up, Bin(t, n, c, r));
    case InR(l, n, c, up) => PlugElems(up, Bin(l, n, c, t));
  }

  lemma {:induction false} PlugDistinct<T>(p: Path<T>, t: Tree<T>)
    ensures Distinct(Plug(p, t)) <==> PDistinct(p) && Distinct(t) && PElems(p) !! Elems(t)
  {
    match p
    case Top =>
    case InL(n, c, r, up) => PlugDistinct(up, Bin(t, n, c, r));
    case InR(l, n, c, up) => PlugDistinct(up, Bin(l, n, c, t));
  }

  lemma {:induction false} ElemsInorder<T>(t: Tree<T>)
    ensures forall x :: x in Elems(t) <==> x in Inorder(t)
  {
    match t
    case Leaf =>
    case Bin(l, n, _, r) => ElemsInorder(l); ElemsInorder(r);
  }

  lemma {:induction false} AppendPath<T>(q: Path<T>, p: Path<T>, t: Tree<T>)
    ensures Plug(Append(q, p), t) == Plug(p, Plug(q, t))
    ensures PElems(Append(q, p)) == PElems(q) + PElems(p)
    ensures Before(Append(q, p)) == Before(p) + Before(q)
    ensures After(Append(q, p)) == After(q) + After(p)
    ensures PDistinct(Append(q, p)) <==> PDistinct(q) && PDistinct(p) && PElems(q) !! PElems(p)
  {
    match q
    case Top =>
    case InL(n, c, r, up) =>
      AppendPath(up, p, Bin(t, n, c, r));
    case InR(l, n, c, up) =>
      AppendPath(up, p, Bin(l, n, c, t));
  }

  // ---------- Left and right exchanged ----------

  ghost function Mirror<T>(t: Tree<T>): Tree<T> {
    match t
    case Leaf => Leaf
    case Bin(l, n, c, r) => Bin(Mirror(r), n, c, Mirror(l))
  }

  ghost function PMirror<T>(p: Path<T>): Path<T> {
    match p
    case Top => Top
    case InL(n, c, r, up) => InR(Mirror(r), n, c, PMirror(up))
    case InR(l, n, c, up) => InL(n, c, Mirror(l), PMirror(up))
  }

  lemma {:induction false} MirrorKeeps<T>(t: Tree<T>)
    ensures Mirror(Mirror(t)) == t && Elems(Mirror(t)) == Elems(t)
    ensures Distinct(Mirror(t)) <==> Distinct(t)
  {
    match t
    case Leaf =>
    case Bin(l, _, _, r) => MirrorKeeps(l); MirrorKeeps(r);
  }

  lemma {:induction false} PMirrorKeeps<T>(p: Path<T>)
    ensures PMirror(PMirror(p)) == p && PElems(PMirror(p)) == PElems(p)
    ensures PDistinct(PMirror(p)) <==> PDistinct(p)
  {
    match p
    case Top =>
    case InL(_, _, r, up) => MirrorKeeps(r); PMirrorKeeps(up);
    case InR(l, _, _, up) => MirrorKeeps(l); PMirrorKeeps(up);
  }

  // ---------- Rotations ----------

  ghost predicate CanRotL<T>(t: Tree<T>) { t.Bin? && t.r.Bin? }
  ghost predicate CanRotR<T>(t: Tree<T>) { t.Bin? && t.l.Bin? }

  ghost function RotL<T>(t: Tree<T>): (r: Tree<T>)
    requires CanRotL(t)
  {
    Bin(Bin(t.l, t.n, t.red, t.r.l), t.r.n, t.r.red, t.r.r)
  }

  ghost function RotR<T>(t: Tree<T>): (r: Tree<T>)
    requires CanRotR(t)
  {
    Bin(t.l.l, t.l.n, t.l.red, Bin(t.l.r, t.n, t.red, t.r))
  }

  lemma RotLKeeps<T>(t: Tree<T>)
    requires CanRotL(t)
    ensures Inorder(RotL(t)) == Inorder(t)
    ensures Elems(RotL(t)) == Elems(t)
    ensures Distinct(RotL(t)) <==> Distinct(t)
  {
    var Bin(a, x, _, Bin(b, y, _, d)) := t;
    assert Inorder(t) == Inorder(a) + [x] + (Inorder(b) + [y] + Inorder(d));
    assert Inorder(RotL(t)) == (Inorder(a) + [x] + Inorder(b)) + [y] + Inorder(d);
    assert Elems(t) == Elems(a) + {x} + (Elems(b) + {y} + Elems(d));
    assert Elems(RotL(t)) == (Elems(a) + {x} + Elems(b)) + {y} + Elems(d);
  }

  lemma RotRKeeps<T>(t: Tree<T>)
    requires CanRotR(t)
    ensures Inorder(RotR(t)) == Inorder(t)
    ensures Elems(RotR(t)) == Elems(t)
    ensures Distinct(RotR(t)) <==> Distinct(t)
  {
    assert RotL(RotR(t)) == t;
    RotLKeeps(RotR(t));
  }

  lemma {:induction false} MirrorRot<T>(t: Tree<T>)
    requires CanRotR(t)
    ensures CanRotL(Mirror(t)) && Mirror(t).r.n == t.l.n
    ensures Mirror(RotL(Mirror(t))) == RotR(t)
  {
    MirrorKeeps(t.r); MirrorKeeps(t.l.l); MirrorKeeps(t.l.r);
    assert Mirror(t.l) == Bin(Mirror(t.l.r), t.l.n, t.l.red, Mirror(t.l.l));
  }

  /** The five parts of a tree about to turn left share nothing. */
  lemma RotLSets<T>(t: Tree<T>)
    requires CanRotL(t) && Distinct(t)
    ensures Elems(t) == Elems(t.l) + {t.n} + Elems(t.r.l) + {t.r.n} + Elems(t.r.r)
    ensures t.n !in Elems(t.l) && t.n !in Elems(t.r.l) && t.n !in Elems(t.r.r) && t.n != t.r.n
    ensures t.r.n !in Elems(t.l) && t.r.n !in Elems(t.r.l) && t.r.n !in Elems(t.r.r)
    ensures Elems(t.l) !! Elems(t.r.l) && Elems(t.l) !! Elems(t.r.r) && Elems(t.r.l) !! Elems(t.r.r)
  {
    assert Elems(t.r) == Elems(t.r.l) + {t.r.n} + Elems(t.r.r);
    assert Distinct(t.r);
  }

  // ---------- Colours and black heights ----------

  predicate IsRed<T>(t: Tree<T>) { t.Bin? && t.red }

  function Blacken<T>(t: Tree<T>): Tree<T> {
    if t.Leaf? then t else t.(red := false)
  }

  function Redden<T>(t: Tree<T>): Tree<T> {
    if t.Leaf? then t else t.(red := true)
  }

  /** No red node has a red child and every way down meets exactly `h` black nodes.
      The colour of the root of `t` is free. */
  ghost predicate RB<T>(t: Tree<T>, h: nat) {
    match t
    case Leaf => h == 0
    case Bin(l, _, red, r) =>
      if red then !IsRed(l) && !IsRed(r) && RB(l, h) && RB(r, h)
      else h > 0 && RB(l, h - 1) && RB(r, h - 1)
  }

  /** A valid tree: black root, no red-red edge, equal black heights. */
  ghost predicate Valid<T>(t: Tree<T>) {
    !IsRed(t) && exists h: nat :: RB(t, h)
  }

  /** The node right above the hole is red. */
  predicate PRed<T>(p: Path<T>) { !p.Top? && p.red }

  /** Everything around the hole obeys the rules, provided the hole is filled by a tree of black
      height `h`, black if the node above the hole is red. */
  ghost predicate PRB<T>(p: Path<T>, h: nat)
    decreases p
  {
    match p
    case Top => true
    case InL(_, red, r, up) =>
      && RB(r, h)
      && if red then !IsRed(r) && !up.Top? && !PRed(up) && PRB(up, h) else PRB(up, h + 1)
    case InR(l, _, red, up) =>
      && RB(l, h)
      && if red then !IsRed(l) && !up.Top? && !PRed(up) && PRB(up, h) else PRB(up, h + 1)
  }

  /** Filling the hole: the whole tree is valid exactly when the hole is filled by the rules. */
  lemma {:induction false} PlugValid<T>(p: Path<T>, t: Tree<T>, h: nat)
    requires PRB(p, h) && RB(t, h)
    requires IsRed(t) ==> !p.Top? && !PRed(p)
    ensures Valid(Plug(p, t))
  {
    match p
    case Top =>
    case InL(n, c, r, up) => PlugValid(up, Bin(t, n, c, r), if c then h else h + 1);
    case InR(l, n, c, up) => PlugValid(up, Bin(l, n, c, t), if c then h else h + 1);
  }

  /** The converse: every subtree of a valid tree, and what is around it, obeys the rules. */
  lemma {:induction false} UnplugValid<T>(p: Path<T>, t: Tree<T>) returns (h: nat)
    requires Valid(Plug(p, t))
    ensures PRB(p, h) && RB(t, h)
    ensures IsRed(t) ==> !p.Top? && !PRed(p)
  {
    match p
    case Top => h :| RB(t, h);
    case InL(n, c, r, up) =>
      h := UnplugValid(up, Bin(t, n, c, r));
      h := if c then h else h - 1;
    case InR(l, n, c, up) =>
      h := UnplugValid(up, Bin(l, n, c, t));
      h := if c then h else h - 1;
  }

  // ---------- Height ----------

  ghost function Height<T>(t: Tree<T>): nat {
    if t.Leaf? then 0 else 1 + if Height(t.l) >= Height(t.r) then Height(t.l) else Height(t.r)
  }

  ghost function Size<T>(t: Tree<T>): nat {
    if t.Leaf? then 0 else Size(t.l) + 1 + Size(t.r)
  }

  lemma {:induction false} Pow2Mono(a: nat, b: nat)
    requires a <= b
    ensures Pow2(a) <= Pow2(b)
  {
    if a < b { Pow2Mono(a, b - 1); }
  }

  lemma {:induction false} HeightBounds<T>(t: Tree<T>, h: nat)
    requires RB(t, h)
    ensures Height(t) <= 2 * h + if IsRed(t) then 1 else 0
    ensures Size(t) + 1 >= Pow2(h)
  {
    match t
    case Leaf =>
    case Bin(l, _, c, r) =>
      var k := if c then h else h - 1;
      HeightBounds(l, k);
      HeightBounds(r, k);
  }

  /** Height at most 2 log2(n + 1), written without logarithms. */
  lemma {:induction false} HeightLogarithmic<T>(t: Tree<T>)
    requires Valid(t)
    ensures Pow2(Height(t)) <= (Size(t) + 1) * (Size(t) + 1)
  {
    var h: nat :| RB(t, h);
    HeightBounds(t, h);
    Pow2Mono(Height(t), h + h);
    Pow2Add(h, h);
    SquareMono(Pow2(h), Size(t) + 1);
  }

  lemma {:induction false} SquareMono(a: nat, b: nat)
    requires a <= b
    ensures a * a <= b * b
  {
    assert a * a <= a * b <= b * b;
  }
}
