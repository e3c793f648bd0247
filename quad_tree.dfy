/** The region quadtree of `src/quad_tree.rs`: every node carries a center
    and half-extents; a leaf that receives a second value splits into four
    half-size children and both values are inserted again.

    The tree is an owned value with no sharing, so each `&mut self`
    operation is modelled as a function from the old tree to the new one.
    `T::position()` is the parameter `pos`. */
module QuadTrees {
  import opened Geometry

  datatype Quadrant = NW | NE | SW | SE

  datatype QuadTreeNode<T> =
    | Empty
    | Leaf(value: T)
    | Node(nw: QuadTree<T>, ne: QuadTree<T>, sw: QuadTree<T>, se: QuadTree<T>)

  datatype QuadTree<T> = QuadTree(node: QuadTreeNode<T>, center: V2, halfWidth: real, halfHeight: real)

  // ---------------------------------------------------------------------
  // Geometry of a node

  /** `p` lies in the closed rectangle that `t` covers. */
  predicate InClosedRect<T>(t: QuadTree<T>, p: V2)
  {
    t.center.x - t.halfWidth <= p.x <= t.center.x + t.halfWidth &&
    t.center.y - t.halfHeight <= p.y <= t.center.y + t.halfHeight
  }

  predicate InRect(r: Rect, p: V2)
  {
    r.x0 <= p.x <= r.x1 && r.y0 <= p.y <= r.y1
  }

  /** `QuadTree::get_rect` (src/quad_tree.rs:58-65). */
  function GetRect<T>(t: QuadTree<T>): (r: Rect)
    ensures forall p :: InRect(r, p) <==> InClosedRect(t, p)
    ensures r.x0 + r.x1 == 2.0 * t.center.x && r.y0 + r.y1 == 2.0 * t.center.y
    ensures r.x1 - r.x0 == 2.0 * t.halfWidth && r.y1 - r.y0 == 2.0 * t.halfHeight
  {
    Rect(t.center.x - t.halfWidth, t.center.y - t.halfHeight,
         t.center.x + t.halfWidth, t.center.y + t.halfHeight)
  }

  /** The center `new_node` gives the child in quadrant `q`. */
  function ChildCenter(c: V2, hw: real, hh: real, q: Quadrant): V2
  {
    match q
    case NW => Sub(c, V2(hw / 2.0, hh / 2.0))
    case NE => Add(c, V2(hw / 2.0, -hh / 2.0))
    case SW => Add(c, V2(-hw / 2.0, hh / 2.0))
    case SE => Add(c, V2(hw / 2.0, hh / 2.0))
  }

  /** `child` has the place and size `new_node` gives quadrant `q` of `t`. */
  predicate IsChild<T>(t: QuadTree<T>, child: QuadTree<T>, q: Quadrant)
  {
    child.center == ChildCenter(t.center, t.halfWidth, t.halfHeight, q) &&
    child.halfWidth == t.halfWidth / 2.0 &&
    child.halfHeight == t.halfHeight / 2.0
  }

  /** `QuadTree::quadrant` (src/quad_tree.rs:146-161): strict comparisons,
      so a point on a dividing line goes to the east or south side. */
  function QuadrantOf(c: V2, p: V2): (q: Quadrant)
    ensures q == NW <==> p.x < c.x && p.y < c.y
    ensures q == SW <==> p.x < c.x && p.y >= c.y
    ensures q == NE <==> p.x >= c.x && p.y < c.y
    ensures q == SE <==> p.x >= c.x && p.y >= c.y
  {
    if p.x < c.x then
      if p.y < c.y then NW else SW
    else
      if p.y < c.y then NE else SE
  }

  /** A point of the node lies in the child its quadrant names. */
  lemma QuadrantContains<T>(t: QuadTree<T>, child: QuadTree<T>, p: V2)
    requires InClosedRect(t, p)
    requires IsChild(t, child, QuadrantOf(t.center, p))
    ensures InClosedRect(child, p)
  {
  }

  /** Every point of a child lies in its parent. */
  lemma ChildWithin<T>(t: QuadTree<T>, child: QuadTree<T>, q: Quadrant, p: V2)
    requires IsChild(t, child, q) && InClosedRect(child, p)
    ensures InClosedRect(t, p)
  {
  }

  // ---------------------------------------------------------------------
  // The abstract content of a tree

  /** The tree's shape is the one `new_node` builds, every leaf lies in its
      own node's rectangle. */
  predicate Valid<T>(t: QuadTree<T>, pos: T -> V2)
    decreases t
  {
    match t.node
    case Empty => true
    case Leaf(u) => InClosedRect(t, pos(u))
    case Node(nw, ne, sw, se) =>
      IsChild(t, nw, NW) && IsChild(t, ne, NE) && IsChild(t, sw, SW) && IsChild(t, se, SE) &&
      Valid(nw, pos) && Valid(ne, pos) && Valid(sw, pos) && Valid(se, pos)
  }

  /** The values stored in the tree. */
  function Elements<T>(t: QuadTree<T>): multiset<T>
    decreases t
  {
    match t.node
    case Empty => multiset{}
    case Leaf(u) => multiset{u}
    case Node(nw, ne, sw, se) => Elements(nw) + Elements(ne) + Elements(sw) + Elements(se)
  }

  /** The positions of the stored values. */
  function Positions<T>(t: QuadTree<T>, pos: T -> V2): set<V2>
    decreases t
  {
    match t.node
    case Empty => {}
    case Leaf(u) => {pos(u)}
    case Node(nw, ne, sw, se) =>
      Positions(nw, pos) + Positions(ne, pos) + Positions(sw, pos) + Positions(se, pos)
  }

  /** Every stored value lies in the tree's rectangle. */
  lemma {:induction false} ElementsInRect<T>(t: QuadTree<T>, pos: T -> V2, u: T)
    requires Valid(t, pos) && u in Elements(t)
    ensures InClosedRect(t, pos(u))
    decreases t
  {
    match t.node
    case Leaf(_) =>
    case Node(nw, ne, sw, se) =>
      if u in Elements(nw) {
        ElementsInRect(nw, pos, u);
        ChildWithin(t, nw, NW, pos(u));
      } else if u in Elements(ne) {
        ElementsInRect(ne, pos, u);
        ChildWithin(t, ne, NE, pos(u));
      } else if u in Elements(sw) {
        ElementsInRect(sw, pos, u);
        ChildWithin(t, sw, SW, pos(u));
      } else {
        ElementsInRect(se, pos, u);
        ChildWithin(t, se, SE, pos(u));
      }
  }

  // ---------------------------------------------------------------------
  // Termination of `insert`
  //
  // A leaf holding `u` that receives a value at `q != pos(u)` splits until
  // the two positions fall in different quadrants. While both lie in a
  // node of half-extents at most E, they are at most 2E apart in each
  // axis, and every split halves E, so the number of further splits is
  // bounded by floor(2E / d) with d their Chebyshev distance.

  function Cheb(a: V2, b: V2): (d: real)
    ensures d >= 0.0
    ensures d == 0.0 <==> a == b
  {
    Max(Abs(a.x - b.x), Abs(a.y - b.y))
  }

  /** floor(2E / d), for a node of half-extents `hw`, `hh`. */
  function SplitsLeft(hw: real, hh: real, d: real): nat
  {
    if d <= 0.0 then 0
    else
      var f := (2.0 * Max(hw, hh) / d).Floor;
      if f < 0 then 0 else f
  }

  /** The most splits any leaf of `t` could still need to part from `q`. */
  ghost function Budget<T>(t: QuadTree<T>, pos: T -> V2, q: V2): nat
    decreases t
  {
    match t.node
    case Empty => 0
    case Leaf(u) => SplitsLeft(t.halfWidth, t.halfHeight, Cheb(pos(u), q))
    case Node(nw, ne, sw, se) =>
      var a, b, c, e := Budget(nw, pos, q), Budget(ne, pos, q), Budget(sw, pos, q), Budget(se, pos, q);
      var m1 := if a < b then b else a;
      var m2 := if c < e then e else c;
      if m1 < m2 then m2 else m1
  }

  lemma FloorHalf(x: real)
    requires x >= 1.0
    ensures (x / 2.0).Floor < x.Floor
  {
    var n := x.Floor;
    assert n as real <= x < n as real + 1.0;
    assert 1 <= n;
    assert x / 2.0 < (n as real + 1.0) / 2.0 <= n as real;
  }

  lemma DivAtLeastOne(a: real, d: real)
    requires 0.0 < d <= a
    ensures a / d >= 1.0
  {
  }

  lemma HalfDiv(e: real, d: real)
    requires d > 0.0
    ensures 2.0 * (e / 2.0) / d == (2.0 * e / d) / 2.0
  {
  }

  /** Two distinct points of one node need at least one split, and one
      split leaves fewer. */
  lemma SplitsShrink(hw: real, hh: real, a: V2, b: V2)
    requires a != b
    requires Abs(a.x - b.x) <= 2.0 * hw && Abs(a.y - b.y) <= 2.0 * hh
    ensures 1 <= SplitsLeft(hw, hh, Cheb(a, b))
    ensures SplitsLeft(hw / 2.0, hh / 2.0, Cheb(a, b)) < SplitsLeft(hw, hh, Cheb(a, b))
  {
    var d := Cheb(a, b);
    var e := Max(hw, hh);
    assert 0.0 < d <= 2.0 * e;
    assert Max(hw / 2.0, hh / 2.0) == e / 2.0;
    var x := 2.0 * e / d;
    DivAtLeastOne(2.0 * e, d);
    HalfDiv(e, d);
    FloorHalf(x);
  }

  // ---------------------------------------------------------------------
  // Operations

  /** `QuadTree::new` (src/quad_tree.rs:43-50). */
  function New<T>(center: V2, halfWidth: real, halfHeight: real): (t: QuadTree<T>)
    ensures t.node == Empty && t.center == center
    ensures t.halfWidth == halfWidth && t.halfHeight == halfHeight
    ensures Elements(t) == multiset{}
  {
    QuadTree(Empty, center, halfWidth, halfHeight)
  }

  /** `QuadTree::new_node` (src/quad_tree.rs:112-144). */
  function NewNode<T>(center: V2, halfWidth: real, halfHeight: real): (t: QuadTree<T>)
    ensures t.center == center && t.halfWidth == halfWidth && t.halfHeight == halfHeight
    ensures t.node.Node?
    ensures IsChild(t, t.node.nw, NW) && IsChild(t, t.node.ne, NE)
    ensures IsChild(t, t.node.sw, SW) && IsChild(t, t.node.se, SE)
    ensures t.node.nw.node == t.node.ne.node == t.node.sw.node == t.node.se.node == Empty
    ensures Elements(t) == multiset{}
  {
    var hw, hh := halfWidth / 2.0, halfHeight / 2.0;
    QuadTree(
      Node(
        New(Sub(center, V2(hw, hh)), hw, hh),
        New(Add(center, V2(hw, -hh)), hw, hh),
        New(Add(center, V2(-hw, hh)), hw, hh),
        New(Add(center, V2(hw, hh)), hw, hh)),
      center, halfWidth, halfHeight)
  }

  /** A fresh split node is a valid tree holding nothing. */
  lemma NewNodeValid<T>(center: V2, halfWidth: real, halfHeight: real, pos: T -> V2)
    ensures Valid(NewNode<T>(center, halfWidth, halfHeight), pos)
    ensures Positions(NewNode<T>(center, halfWidth, halfHeight), pos) == {}
    ensures forall q :: Budget(NewNode<T>(center, halfWidth, halfHeight), pos, q) == 0
  {
    var t := NewNode<T>(center, halfWidth, halfHeight);
    assert Valid(t.node.nw, pos) && Valid(t.node.ne, pos) && Valid(t.node.sw, pos) && Valid(t.node.se, pos);
    assert Positions(t.node.nw, pos) == Positions(t.node.ne, pos) == Positions(t.node.sw, pos) == Positions(t.node.se, pos) == {};
  }

  /** The child of a split node in quadrant `q`. */
  function Child<T>(n: QuadTreeNode<T>, q: Quadrant): QuadTree<T>
    requires n.Node?
  {
    match q
    case NW => n.nw
    case NE => n.ne
    case SW => n.sw
    case SE => n.se
  }

  /** The split node `n` with its child in quadrant `q` replaced by `c`. */
  function WithChild<T>(n: QuadTreeNode<T>, q: Quadrant, c: QuadTree<T>): (r: QuadTreeNode<T>)
    requires n.Node?
    ensures r.Node? && Child(r, q) == c
    ensures forall q' :: q' != q ==> Child(r, q') == Child(n, q')
  {
    match q
    case NW => n.(nw := c)
    case NE => n.(ne := c)
    case SW => n.(sw := c)
    case SE => n.(se := c)
  }

  /** A child of a valid split node is valid, in its place, and holds
      part of what its parent holds. */
  lemma ChildFacts<T>(t: QuadTree<T>, q: Quadrant, pos: T -> V2, p: V2)
    requires Valid(t, pos) && t.node.Node?
    ensures IsChild(t, Child(t.node, q), q) && Valid(Child(t.node, q), pos)
    ensures Positions(Child(t.node, q), pos) <= Positions(t, pos)
    ensures Elements(Child(t.node, q)) <= Elements(t)
    ensures Budget(Child(t.node, q), pos, p) <= Budget(t, pos, p)
  {
  }

  /** Replacing a child by a valid one in the same place keeps the node valid. */
  lemma WithChildValid<T>(t: QuadTree<T>, q: Quadrant, c: QuadTree<T>, pos: T -> V2)
    requires Valid(t, pos) && t.node.Node?
    requires IsChild(t, c, q) && Valid(c, pos)
    ensures Valid(t.(node := WithChild(t.node, q, c)), pos)
  {
  }

  /** A child holding `extra` more values adds `extra` to the node. */
  lemma WithChildElements<T>(t: QuadTree<T>, q: Quadrant, c: QuadTree<T>, extra: multiset<T>)
    requires t.node.Node?
    requires Elements(c) == Elements(Child(t.node, q)) + extra
    ensures Elements(t.(node := WithChild(t.node, q, c))) == Elements(t) + extra
  {
  }

  /** The same for the stored positions. */
  lemma WithChildPositions<T>(t: QuadTree<T>, q: Quadrant, c: QuadTree<T>, pos: T -> V2, extra: set<V2>)
    requires t.node.Node?
    requires Positions(c, pos) == Positions(Child(t.node, q), pos) + extra
    ensures Positions(t.(node := WithChild(t.node, q, c)), pos) == Positions(t, pos) + extra
  {
  }

  /** The node a leaf holding `u` turns into: `new_node` with `u` put
      in the empty child its quadrant names (the source's
      `other.insert(this_value)`; SplitIsInsert shows the two agree). */
  function Split<T>(t: QuadTree<T>, u: T, pos: T -> V2): (r: QuadTree<T>)
    ensures r.node.Node? && r.center == t.center
    ensures r.halfWidth == t.halfWidth && r.halfHeight == t.halfHeight
  {
    var f := NewNode<T>(t.center, t.halfWidth, t.halfHeight);
    var q := QuadrantOf(t.center, pos(u));
    f.(node := WithChild(f.node, q, Child(f.node, q).(node := Leaf(u))))
  }

  /** The split node is valid, holds `u` alone, one level below `t`. */
  lemma SplitFacts<T>(t: QuadTree<T>, u: T, pos: T -> V2)
    requires InClosedRect(t, pos(u))
    ensures Split(t, u, pos).node.Node?
    ensures Split(t, u, pos).center == t.center
    ensures Split(t, u, pos).halfWidth == t.halfWidth && Split(t, u, pos).halfHeight == t.halfHeight
    ensures Valid(Split(t, u, pos), pos)
    ensures Elements(Split(t, u, pos)) == multiset{u}
    ensures Positions(Split(t, u, pos), pos) == {pos(u)}
    ensures forall q :: Budget(Split(t, u, pos), pos, q) == SplitsLeft(t.halfWidth / 2.0, t.halfHeight / 2.0, Cheb(pos(u), q))
  {
    var f := NewNode<T>(t.center, t.halfWidth, t.halfHeight);
    var q := QuadrantOf(t.center, pos(u));
    NewNodeValid(t.center, t.halfWidth, t.halfHeight, pos);
    ChildFacts(f, q, pos, pos(u));
    QuadrantContains(t, Child(f.node, q), pos(u));
    var c := Child(f.node, q).(node := Leaf(u));
    WithChildValid(f, q, c, pos);
    WithChildElements(f, q, c, multiset{u});
    WithChildPositions(f, q, c, pos, {pos(u)});
  }

  /** `QuadTree::insert` (src/quad_tree.rs:82-110). The source has no
      answer for a position already stored (the split would recurse for
      ever) nor for one outside the node, so neither is allowed here. */
  function Insert<T>(t: QuadTree<T>, v: T, pos: T -> V2): (r: QuadTree<T>)
    requires Valid(t, pos)
    requires InClosedRect(t, pos(v))
    requires pos(v) !in Positions(t, pos)
    ensures Valid(r, pos)
    ensures r.center == t.center && r.halfWidth == t.halfWidth && r.halfHeight == t.halfHeight
    ensures t.node.Empty? ==> r.node == Leaf(v)
    ensures !t.node.Empty? ==> r.node.Node?
    decreases Budget(t, pos, pos(v)), t
  {
    match t.node
    case Empty => t.(node := Leaf(v))
    case Leaf(u) =>
      SplitsShrink(t.halfWidth, t.halfHeight, pos(u), pos(v));
      SplitFacts(t, u, pos);
      Insert(Split(t, u, pos), v, pos)
    case Node(_, _, _, _) =>
      var q := QuadrantOf(t.center, pos(v));
      ChildFacts(t, q, pos, pos(v));
      QuadrantContains(t, Child(t.node, q), pos(v));
      var c := Insert(Child(t.node, q), v, pos);
      WithChildValid(t, q, c, pos);
      t.(node := WithChild(t.node, q, c))
  }

  /** `insert` adds exactly the one value and the one position. */
  lemma {:induction false} InsertContents<T>(t: QuadTree<T>, v: T, pos: T -> V2)
    requires Valid(t, pos)
    requires InClosedRect(t, pos(v))
    requires pos(v) !in Positions(t, pos)
    ensures Elements(Insert(t, v, pos)) == Elements(t) + multiset{v}
    ensures Positions(Insert(t, v, pos), pos) == Positions(t, pos) + {pos(v)}
    decreases Budget(t, pos, pos(v)), t
  {
    match t.node
    case Empty =>
    case Leaf(u) =>
      SplitsShrink(t.halfWidth, t.halfHeight, pos(u), pos(v));
      SplitFacts(t, u, pos);
      InsertContents(Split(t, u, pos), v, pos);
    case Node(_, _, _, _) =>
      var q := QuadrantOf(t.center, pos(v));
      var child := Child(t.node, q);
      ChildFacts(t, q, pos, pos(v));
      QuadrantContains(t, child, pos(v));
      InsertContents(child, v, pos);
      var c := Insert(child, v, pos);
      WithChildElements(t, q, c, multiset{v});
      WithChildPositions(t, q, c, pos, {pos(v)});
  }

  /** Split is what the source's `new_node` followed by
      `other.insert(this_value)` builds. */
  lemma SplitIsInsert<T>(t: QuadTree<T>, u: T, pos: T -> V2)
    requires InClosedRect(t, pos(u))
    ensures Valid(NewNode<T>(t.center, t.halfWidth, t.halfHeight), pos)
    ensures Split(t, u, pos) == Insert(NewNode<T>(t.center, t.halfWidth, t.halfHeight), u, pos)
  {
    var f := NewNode<T>(t.center, t.halfWidth, t.halfHeight);
    var q := QuadrantOf(t.center, pos(u));
    NewNodeValid(t.center, t.halfWidth, t.halfHeight, pos);
    ChildFacts(f, q, pos, pos(u));
    QuadrantContains(t, Child(f.node, q), pos(u));
  }

  lemma PrefixBag<T>(s: seq<T>, i: nat)
    requires i < |s|
    ensures multiset(s[..i + 1]) == multiset(s[..i]) + multiset{s[i]}
  {
    assert s[..i + 1] == s[..i] + [s[i]];
  }

  /** The loop state of `add_vec` after the first `i` values of `vec`. */
  ghost predicate AddedUpTo<T>(t: QuadTree<T>, r: QuadTree<T>, vec: seq<T>, i: nat, pos: T -> V2)
  {
    i <= |vec| && Valid(r, pos) &&
    r.center == t.center && r.halfWidth == t.halfWidth && r.halfHeight == t.halfHeight &&
    Elements(r) == Elements(t) + multiset(vec[..i]) &&
    forall k :: i <= k < |vec| ==> pos(vec[k]) !in Positions(r, pos)
  }

  /** One round of `add_vec`. */
  lemma AddStep<T>(t: QuadTree<T>, r: QuadTree<T>, vec: seq<T>, i: nat, pos: T -> V2)
    requires forall k :: 0 <= k < |vec| ==> InClosedRect(t, pos(vec[k]))
    requires forall j, k :: 0 <= j < k < |vec| ==> pos(vec[j]) != pos(vec[k])
    requires AddedUpTo(t, r, vec, i, pos) && i < |vec|
    ensures Valid(r, pos) && InClosedRect(r, pos(vec[i])) && pos(vec[i]) !in Positions(r, pos)
    ensures AddedUpTo(t, Insert(r, vec[i], pos), vec, i + 1, pos)
  {
    PrefixBag(vec, i);
    InsertContents(r, vec[i], pos);
  }

  /** `QuadTree::add_vec` (src/quad_tree.rs:52-56): the values are
      inserted one after another, in order. */
  method AddVec<T>(t: QuadTree<T>, vec: seq<T>, pos: T -> V2) returns (r: QuadTree<T>)
    requires Valid(t, pos)
    requires forall k :: 0 <= k < |vec| ==> InClosedRect(t, pos(vec[k]))
    requires forall k :: 0 <= k < |vec| ==> pos(vec[k]) !in Positions(t, pos)
    requires forall j, k :: 0 <= j < k < |vec| ==> pos(vec[j]) != pos(vec[k])
    ensures Valid(r, pos)
    ensures r.center == t.center && r.halfWidth == t.halfWidth && r.halfHeight == t.halfHeight
    ensures Elements(r) == Elements(t) + multiset(vec)
  {
    r := t;
    var i := 0;
    assert vec[..0] == [];
    while i < |vec|
      invariant AddedUpTo(t, r, vec, i, pos)
    {
      AddStep(t, r, vec, i, pos);
      r := Insert(r, vec[i], pos);
      i := i + 1;
    }
    assert vec[..i] == vec;
  }

  /** `QuadTree::for_each` (src/quad_tree.rs:67-80): the leaf nodes the
      callback is called on, in the order nw, ne, sw, se. */
  function ForEach<T>(t: QuadTree<T>): (r: seq<QuadTree<T>>)
    ensures forall k :: 0 <= k < |r| ==> r[k].node.Leaf?
    decreases t
  {
    match t.node
    case Empty => []
    case Leaf(_) => [t]
    case Node(nw, ne, sw, se) => ForEach(nw) + ForEach(ne) + ForEach(sw) + ForEach(se)
  }

  /** The values held by a sequence of leaf nodes. */
  function LeafValues<T>(ls: seq<QuadTree<T>>): multiset<T>
    requires forall k :: 0 <= k < |ls| ==> ls[k].node.Leaf?
  {
    if ls == [] then multiset{} else multiset{ls[0].node.value} + LeafValues(ls[1..])
  }

  lemma {:induction false} LeafValuesAppend<T>(a: seq<QuadTree<T>>, b: seq<QuadTree<T>>)
    requires forall k :: 0 <= k < |a| ==> a[k].node.Leaf?
    requires forall k :: 0 <= k < |b| ==> b[k].node.Leaf?
    ensures LeafValues(a + b) == LeafValues(a) + LeafValues(b)
    decreases |a|
  {
    if a != [] {
      assert (a + b)[0] == a[0];
      assert (a + b)[1..] == a[1..] + b;
      LeafValuesAppend(a[1..], b);
    } else {
      assert a + b == b;
    }
  }

  /** `for_each` reaches every stored value exactly once. */
  lemma {:induction false} ForEachElements<T>(t: QuadTree<T>)
    ensures LeafValues(ForEach(t)) == Elements(t)
    decreases t
  {
    match t.node
    case Empty =>
    case Leaf(u) =>
      assert ForEach(t)[1..] == [];
    case Node(nw, ne, sw, se) =>
      ForEachElements(nw);
      ForEachElements(ne);
      ForEachElements(sw);
      ForEachElements(se);
      LeafValuesAppend(ForEach(nw), ForEach(ne));
      LeafValuesAppend(ForEach(nw) + ForEach(ne), ForEach(sw));
      LeafValuesAppend(ForEach(nw) + ForEach(ne) + ForEach(sw), ForEach(se));
  }

  /** Starting from `new` and inserting values at distinct positions of
      the node, `for_each` reaches exactly those values. */
  method BuildAndVisit<T>(center: V2, halfWidth: real, halfHeight: real, vec: seq<T>, pos: T -> V2)
    returns (t: QuadTree<T>)
    requires forall k :: 0 <= k < |vec| ==> InClosedRect(New<T>(center, halfWidth, halfHeight), pos(vec[k]))
    requires forall j, k :: 0 <= j < k < |vec| ==> pos(vec[j]) != pos(vec[k])
    ensures Valid(t, pos)
    ensures LeafValues(ForEach(t)) == multiset(vec)
  {
    t := New(center, halfWidth, halfHeight);
    t := AddVec(t, vec, pos);
    ForEachElements(t);
  }

  // ---------------------------------------------------------------------
  // Circle queries

  /** The point of `rect` nearest to `c`, by clamping each coordinate as
      `rect_intersect_circle` does. */
  function Closest(rect: Rect, c: V2): (p: V2)
    ensures rect.x0 <= rect.x1 && rect.y0 <= rect.y1 ==> InRect(rect, p)
    ensures rect.x0 <= c.x <= rect.x1 ==> p.x == c.x
    ensures rect.y0 <= c.y <= rect.y1 ==> p.y == c.y
  {
    V2(if c.x < rect.x0 then rect.x0 else if c.x > rect.x1 then rect.x1 else c.x,
       if c.y < rect.y0 then rect.y0 else if c.y > rect.y1 then rect.y1 else c.y)
  }

  /** `rect_intersect_circle` (src/quad_tree.rs:193-210). The source
      compares `sqrt(d)` with `r`; as the root is never negative this holds
      exactly when `r > 0` and `d < r * r`. */
  function RectIntersectCircle(rect: Rect, c: V2, r: real): (b: bool)
    ensures b ==> r > 0.0
  {
    var p := Closest(rect, c);
    var distX, distY := c.x - p.x, c.y - p.y;
    0.0 < r && distX * distX + distY * distY < r * r
  }

  lemma ClampNearest(lo: real, hi: real, a: real, x: real)
    requires lo <= x <= hi
    ensures var m := if a < lo then lo else if a > hi then hi else a;
      (a - m) * (a - m) <= (a - x) * (a - x)
  {
    if a < lo {
      assert (a - x) * (a - x) - (a - lo) * (a - lo) == (lo - x) * (2.0 * a - x - lo);
    } else if a > hi {
      assert (a - x) * (a - x) - (a - hi) * (a - hi) == (hi - x) * (2.0 * a - x - hi);
    }
  }

  /** No point of the rectangle is nearer to `c` than Closest. */
  lemma ClosestNearest(rect: Rect, c: V2, p: V2)
    requires InRect(rect, p)
    ensures DistSq(c, Closest(rect, c)) <= DistSq(c, p)
  {
    ClampNearest(rect.x0, rect.x1, c.x, p.x);
    ClampNearest(rect.y0, rect.y1, c.y, p.y);
  }

  /** A positive test names a point of the rectangle inside the circle. */
  lemma RectIntersectCircleSound(rect: Rect, c: V2, r: real)
    requires rect.x0 <= rect.x1 && rect.y0 <= rect.y1
    requires RectIntersectCircle(rect, c, r)
    ensures r > 0.0 && InRect(rect, Closest(rect, c)) && DistSq(c, Closest(rect, c)) < r * r
  {
  }

  /** Any point of the rectangle inside the circle makes the test pass. */
  lemma RectIntersectCircleComplete(rect: Rect, c: V2, r: real, p: V2)
    requires r > 0.0 && InRect(rect, p) && DistSq(c, p) < r * r
    ensures RectIntersectCircle(rect, c, r)
  {
    ClosestNearest(rect, c, p);
  }

  /** For a non-empty rectangle the test is exact: it passes if and only
      if `r > 0` and the open disc of radius `r` around `c` meets the
      rectangle. */
  lemma RectIntersectCircleIff(rect: Rect, c: V2, r: real)
    requires rect.x0 <= rect.x1 && rect.y0 <= rect.y1
    ensures RectIntersectCircle(rect, c, r) <==>
      r > 0.0 && exists p :: InRect(rect, p) && DistSq(c, p) < r * r
  {
    if RectIntersectCircle(rect, c, r) {
      RectIntersectCircleSound(rect, c, r);
    }
    if r > 0.0 && exists p :: InRect(rect, p) && DistSq(c, p) < r * r {
      var p :| InRect(rect, p) && DistSq(c, p) < r * r;
      RectIntersectCircleComplete(rect, c, r, p);
    }
  }

  /** `QuadTree::query_distance` (src/quad_tree.rs:163-190): every value
      of every leaf whose node's rectangle meets the circle, with no test
      of the value's own distance. */
  function QueryDistance<T>(t: QuadTree<T>, point: V2, r: real): (res: seq<T>)
    ensures multiset(res) <= Elements(t)
    ensures !RectIntersectCircle(GetRect(t), point, r) ==> res == []
    decreases t
  {
    if !RectIntersectCircle(GetRect(t), point, r) then []
    else
      match t.node
      case Empty => []
      case Leaf(u) => [u]
      case Node(nw, ne, sw, se) =>
        QueryDistance(nw, point, r) + QueryDistance(ne, point, r) +
        QueryDistance(sw, point, r) + QueryDistance(se, point, r)
  }

  /** Every stored value strictly within `r` of `point` is returned. */
  lemma {:induction false} QueryComplete<T>(t: QuadTree<T>, pos: T -> V2, point: V2, r: real, u: T)
    requires Valid(t, pos) && u in Elements(t)
    requires r > 0.0 && DistSq(point, pos(u)) < r * r
    ensures u in QueryDistance(t, point, r)
    decreases t
  {
    ElementsInRect(t, pos, u);
    RectIntersectCircleComplete(GetRect(t), point, r, pos(u));
    match t.node
    case Leaf(_) =>
    case Node(nw, ne, sw, se) =>
      if u in Elements(nw) {
        QueryComplete(nw, pos, point, r, u);
      } else if u in Elements(ne) {
        QueryComplete(ne, pos, point, r, u);
      } else if u in Elements(sw) {
        QueryComplete(sw, pos, point, r, u);
      } else {
        QueryComplete(se, pos, point, r, u);
      }
  }

  /** `TreeValue::position` for `V2` in the source's test module. */
  function Id(p: V2): V2
  {
    p
  }

  /** The tree the unit test of the source builds (src/quad_tree.rs:222-232). */
  method BuildTestTree() returns (t: QuadTree<V2>)
    ensures Valid(t, Id)
    ensures Elements(t) == multiset{V2(0.5, 0.5), V2(0.25, 0.25), V2(0.75, 0.75), V2(0.125, 0.125)}
  {
    t := New<V2>(V2(0.0, 0.0), 1.0, 1.0);
    t := AddVec(t, [V2(0.5, 0.5), V2(0.25, 0.25), V2(0.75, 0.75), V2(0.125, 0.125)], Id);
  }

  /** A part of a bag of four distinct values that holds all four is all of it. */
  lemma FourFound<T>(m: multiset<T>, a: T, b: T, c: T, d: T)
    requires a != b && a != c && a != d && b != c && b != d && c != d
    requires m <= multiset{a, b, c, d}
    requires a in m && b in m && c in m && d in m
    ensures m == multiset{a, b, c, d}
  {
    var e := multiset{a, b, c, d};
    assert e[a] == 1 && e[b] == 1 && e[c] == 1 && e[d] == 1;
    forall x
      ensures m[x] == e[x]
    {
      if x != a && x != b && x != c && x != d {
        assert e[x] == 0;
      }
    }
  }

  /** The unit test of the source (src/quad_tree.rs:222-232): four points
      inserted into the unit node around the origin are all returned by a
      query of radius 1 around (0.5, 0.5). */
  method TestInsert() returns (found: seq<V2>)
    ensures |found| == 4
    ensures multiset(found) == multiset{V2(0.5, 0.5), V2(0.25, 0.25), V2(0.75, 0.75), V2(0.125, 0.125)}
  {
    var a, b, c, d := V2(0.5, 0.5), V2(0.25, 0.25), V2(0.75, 0.75), V2(0.125, 0.125);
    var t := BuildTestTree();
    var p := V2(0.5, 0.5);
    found := QueryDistance(t, p, 1.0);
    assert Id(a) == a && Id(b) == b && Id(c) == c && Id(d) == d;
    assert DistSq(p, a) == 0.0 && DistSq(p, b) == 0.125;
    assert DistSq(p, c) == 0.125 && DistSq(p, d) == 0.28125;
    QueryComplete(t, Id, p, 1.0, a);
    QueryComplete(t, Id, p, 1.0, b);
    QueryComplete(t, Id, p, 1.0, c);
    QueryComplete(t, Id, p, 1.0, d);
    FourFound(multiset(found), a, b, c, d);
    assert |multiset(found)| == 4;
  }
}
