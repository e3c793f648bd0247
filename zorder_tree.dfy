/** `ZOrderTree`: values tagged with the Morton code of their (quantized)
    position and kept sorted by that code, so that a rectangle query is a
    slice between two binary-search positions. */
module ZOrder {
  import opened Geometry
  import opened ZOrderCode

  /** A value with its code (`OrderStore`). */
  datatype OrderStore<T> = OrderStore(value: T, order: nat)

  datatype ZOrderTree<T> = ZOrderTree(
    values: seq<OrderStore<T>>,
    order: bv64,
    maxOrderValue: real,
    maxDim: real)

  /** The float-to-grid step of `order_of`, which divides a coordinate by
      `max_dim`, scales it by `max_order_value` and casts it to `u64`; it is
      taken as given: (coordinate, max_dim, max_order_value) to grid integer. */
  type Quantizer = (real, real, real) -> bv64

  datatype Ordering = Less | Equal | Greater

  /** `max_order_value`: `(1u64 << (order - 1)) as f64`; every such power of
      two is exactly representable, so the conversion loses nothing. */
  function MaxOrderValue(order: bv64): real
    requires 1 <= order <= 63
  {
    ((1 as bv64) << (order - 1)) as int as real
  }

  predicate SortedByOrder<T>(s: seq<OrderStore<T>>)
  {
    forall i, j :: 0 <= i < j < |s| ==> s[i].order <= s[j].order
  }

  /** What the rest of the tree relies on: a usable order and sorted codes. */
  predicate Valid<T>(t: ZOrderTree<T>)
  {
    1 <= t.order <= 63 && SortedByOrder(t.values)
  }

  /** The code `order_of` gives to the point (x, y), as an unbounded
      number (unsigned 64-bit codes compare as their values do). */
  function CodeOf<T>(t: ZOrderTree<T>, q: Quantizer, x: real, y: real): nat
    requires t.order <= 63
  {
    Interleaved(q(x, t.maxDim, t.maxOrderValue), q(y, t.maxDim, t.maxOrderValue), t.order) as nat
  }

  /** Every stored code is the code of its value's position. */
  predicate Tagged<T>(t: ZOrderTree<T>, pos: T -> V2, q: Quantizer)
    requires t.order <= 63
  {
    forall k :: 0 <= k < |t.values| ==>
      t.values[k].order == CodeOf(t, q, pos(t.values[k].value).x, pos(t.values[k].value).y)
  }

  /** `ZOrderTree::order_of` (src/zorder_tree.rs:66-71). */
  method OrderOf<T>(t: ZOrderTree<T>, q: Quantizer, x: real, y: real) returns (code: nat)
    requires t.order <= 63
    ensures code == CodeOf(t, q, x, y)
  {
    var gx := q(x, t.maxDim, t.maxOrderValue);
    var gy := q(y, t.maxDim, t.maxOrderValue);
    var z := ZOrder(gx, gy, t.order);
    code := z as nat;
  }

  /** The stored values in stored order (`values()`). */
  function StoredValues<T>(s: seq<OrderStore<T>>): (r: seq<T>)
    ensures |r| == |s|
    ensures forall k :: 0 <= k < |s| ==> r[k] == s[k].value
  {
    if s == [] then [] else [s[0].value] + StoredValues(s[1..])
  }

  /** `ZOrderTree::values` (src/zorder_tree.rs:37-39). */
  function Values<T>(t: ZOrderTree<T>): (r: seq<T>)
    ensures |r| == |t.values|
    ensures forall k :: 0 <= k < |r| ==> r[k] == t.values[k].value
  {
    StoredValues(t.values)
  }

  // ---------------------------------------------------------------------
  // `sort_by_key(|v| v.order)`: a stable sort, modelled as insertion sort.

  /** Puts `e` in front of the first entry whose code is not smaller. */
  function InsertByOrder<T>(e: OrderStore<T>, s: seq<OrderStore<T>>): (r: seq<OrderStore<T>>)
    ensures |r| == |s| + 1
  {
    if s == [] || e.order <= s[0].order then [e] + s
    else [s[0]] + InsertByOrder(e, s[1..])
  }

  /** `v.sort_by_key(|v| v.order)` (src/zorder_tree.rs:32). */
  function SortByKey<T>(s: seq<OrderStore<T>>): (r: seq<OrderStore<T>>)
    ensures |r| == |s|
  {
    if s == [] then [] else InsertByOrder(s[0], SortByKey(s[1..]))
  }

  lemma {:induction false} InsertPerm<T>(e: OrderStore<T>, s: seq<OrderStore<T>>)
    ensures multiset(InsertByOrder(e, s)) == multiset(s) + multiset{e}
  {
    if s != [] && e.order > s[0].order {
      InsertPerm(e, s[1..]);
      assert s == [s[0]] + s[1..];
    }
  }

  lemma {:induction false} InsertSorted<T>(e: OrderStore<T>, s: seq<OrderStore<T>>)
    requires SortedByOrder(s)
    ensures SortedByOrder(InsertByOrder(e, s))
  {
    if s != [] && e.order > s[0].order {
      var rest := InsertByOrder(e, s[1..]);
      InsertSorted(e, s[1..]);
      InsertPerm(e, s[1..]);
      forall k | 0 <= k < |rest| ensures s[0].order <= rest[k].order {
        assert rest[k] in multiset(s[1..]) + multiset{e};
        if rest[k] != e {
          var i :| 0 <= i < |s[1..]| && s[1..][i] == rest[k];
          assert s[i + 1] == rest[k];
        }
      }
    }
  }

  lemma ValuesCons<T>(a: OrderStore<T>, s: seq<OrderStore<T>>)
    ensures StoredValues([a] + s) == [a.value] + StoredValues(s)
  {
    assert ([a] + s)[1..] == s;
  }

  /** The multiset of the values of `s`, built entry by entry. */
  function ValueBag<T>(s: seq<OrderStore<T>>): multiset<T>
  {
    if s == [] then multiset{} else multiset{s[0].value} + ValueBag(s[1..])
  }

  lemma {:induction false} BagOfValues<T>(s: seq<OrderStore<T>>)
    ensures multiset(StoredValues(s)) == ValueBag(s)
  {
    if s != [] {
      BagOfValues(s[1..]);
      ValuesCons(s[0], s[1..]);
      assert s == [s[0]] + s[1..];
    }
  }

  lemma {:induction false} InsertBag<T>(e: OrderStore<T>, s: seq<OrderStore<T>>)
    ensures ValueBag(InsertByOrder(e, s)) == ValueBag(s) + multiset{e.value}
  {
    if s == [] || e.order <= s[0].order {
      assert ([e] + s)[1..] == s;
    } else {
      var rest := InsertByOrder(e, s[1..]);
      InsertBag(e, s[1..]);
      assert ([s[0]] + rest)[1..] == rest;
    }
  }

  /** The sorted entries are in non-decreasing code order. */
  lemma {:induction false} SortSorted<T>(s: seq<OrderStore<T>>)
    ensures SortedByOrder(SortByKey(s))
  {
    if s != [] {
      SortSorted(s[1..]);
      InsertSorted(s[0], SortByKey(s[1..]));
    }
  }

  /** The sorted entries are a permutation of the input entries. */
  lemma {:induction false} SortPerm<T>(s: seq<OrderStore<T>>)
    ensures multiset(SortByKey(s)) == multiset(s)
  {
    if s != [] {
      SortPerm(s[1..]);
      InsertPerm(s[0], SortByKey(s[1..]));
      assert s == [s[0]] + s[1..];
    }
  }

  /** ... and so their values are a permutation of the input values. */
  lemma {:induction false} SortValues<T>(s: seq<OrderStore<T>>)
    ensures multiset(StoredValues(SortByKey(s))) == multiset(StoredValues(s))
  {
    if s != [] {
      SortValues(s[1..]);
      InsertBag(s[0], SortByKey(s[1..]));
      BagOfValues(SortByKey(s));
      BagOfValues(SortByKey(s[1..]));
      BagOfValues(s);
      BagOfValues(s[1..]);
    }
  }

  /** The entries of `s` with code `k`, in order. */
  function WithOrder<T>(s: seq<OrderStore<T>>, k: nat): seq<OrderStore<T>>
  {
    if s == [] then []
    else if s[0].order == k then [s[0]] + WithOrder(s[1..], k)
    else WithOrder(s[1..], k)
  }

  lemma {:induction false} InsertWithOrder<T>(e: OrderStore<T>, s: seq<OrderStore<T>>, k: nat)
    ensures WithOrder(InsertByOrder(e, s), k) ==
      if e.order == k then [e] + WithOrder(s, k) else WithOrder(s, k)
  {
    if s == [] || e.order <= s[0].order {
      assert ([e] + s)[1..] == s;
    } else {
      var rest := InsertByOrder(e, s[1..]);
      assert ([s[0]] + rest)[1..] == rest;
      InsertWithOrder(e, s[1..], k);
    }
  }

  /** The sort is stable: entries with equal codes keep their input order. */
  lemma {:induction false} SortByKeyStable<T>(s: seq<OrderStore<T>>, k: nat)
    ensures WithOrder(SortByKey(s), k) == WithOrder(s, k)
  {
    if s != [] {
      SortByKeyStable(s[1..], k);
      InsertWithOrder(s[0], SortByKey(s[1..]), k);
    }
  }

  // ---------------------------------------------------------------------
  // Construction

  /** `tree.order_of` applied to every value of `vec`, in order. */
  function Tag<T>(t: ZOrderTree<T>, pos: T -> V2, q: Quantizer, vec: seq<T>): (r: seq<OrderStore<T>>)
    requires t.order <= 63
    ensures |r| == |vec|
    ensures forall k :: 0 <= k < |vec| ==>
      r[k] == OrderStore(vec[k], CodeOf(t, q, pos(vec[k]).x, pos(vec[k]).y))
  {
    seq(|vec|, k requires 0 <= k < |vec| =>
      OrderStore(vec[k], CodeOf(t, q, pos(vec[k]).x, pos(vec[k]).y)))
  }

  /** The codes depend on the order and the scale only, not on the values. */
  lemma TagSameGrid<T>(t: ZOrderTree<T>, u: ZOrderTree<T>, pos: T -> V2, q: Quantizer, vec: seq<T>)
    requires t.order <= 63
    requires u.order == t.order && u.maxDim == t.maxDim && u.maxOrderValue == t.maxOrderValue
    ensures Tag(t, pos, q, vec) == Tag(u, pos, q, vec)
  {
    var a, b := Tag(t, pos, q, vec), Tag(u, pos, q, vec);
    forall k | 0 <= k < |vec| ensures a[k] == b[k] {
      assert CodeOf(t, q, pos(vec[k]).x, pos(vec[k]).y) == CodeOf(u, q, pos(vec[k]).x, pos(vec[k]).y);
    }
  }

  /** `ZOrderTree::from_vec` (src/zorder_tree.rs:18-35). */
  method FromVec<T(==)>(vec: seq<T>, order: bv64, maxDim: real, pos: T -> V2, q: Quantizer)
    returns (tree: ZOrderTree<T>)
    requires 1 <= order <= 63
    ensures tree.order == order && tree.maxDim == maxDim
    ensures tree.maxOrderValue == MaxOrderValue(order)
    ensures tree.values == SortByKey(Tag(tree, pos, q, vec))
    ensures Valid(tree) && Tagged(tree, pos, q)
    ensures |tree.values| == |vec|
    ensures multiset(Values(tree)) == multiset(vec)
  {
    var header := ZOrderTree([], order, MaxOrderValue(order), maxDim);
    var v: seq<OrderStore<T>> := [];
    for k := 0 to |vec|
      invariant |v| == k
      invariant forall i :: 0 <= i < k ==>
        v[i] == OrderStore(vec[i], CodeOf(header, q, pos(vec[i]).x, pos(vec[i]).y))
    {
      var code := OrderOf(header, q, pos(vec[k]).x, pos(vec[k]).y);
      v := v + [OrderStore(vec[k], code)];
    }
    assert v == Tag(header, pos, q, vec);
    assert StoredValues(v) == vec;
    var sorted := SortByKey(v);
    SortSorted(v);
    SortPerm(v);
    SortValues(v);
    tree := header.(values := sorted);
    TagSameGrid(header, tree, pos, q, vec);
    forall k | 0 <= k < |sorted|
      ensures sorted[k].order == CodeOf(tree, q, pos(sorted[k].value).x, pos(sorted[k].value).y)
    {
      assert sorted[k] in multiset(v);
      var i :| 0 <= i < |v| && v[i] == sorted[k];
    }
  }

  /** `GeoQuery::from_vec` for the z-order tree (src/zorder_tree.rs:89-91). */
  method GeoFromVec<T(==)>(vec: seq<T>, maxDim: real, pos: T -> V2, q: Quantizer)
    returns (tree: ZOrderTree<T>)
    ensures tree.order == 32 && tree.maxDim == maxDim
    ensures tree.maxOrderValue == 2147483648.0
    ensures Valid(tree) && Tagged(tree, pos, q)
    ensures multiset(Values(tree)) == multiset(vec)
  {
    tree := FromVec(vec, 32, maxDim, pos, q);
  }

  // ---------------------------------------------------------------------
  // Queries

  /** The comparator passed to `binary_search_by`. */
  function CompareOrder(entry: nat, key: nat): (c: Ordering)
    ensures c == Equal <==> entry == key
    ensures c == Less <==> entry < key
    ensures c == Greater <==> entry > key
  {
    if entry == key then Equal
    else if entry < key then Less
    else Greater
  }

  /** `find_order_index` (src/zorder_tree.rs:50-64): the standard library's
      `binary_search_by` with `Ok(i)` and `Err(i)` both giving `i`. */
  method FindOrderIndex<T>(t: ZOrderTree<T>, key: nat) returns (i: nat)
    requires SortedByOrder(t.values)
    ensures i <= |t.values|
    ensures forall j :: 0 <= j < i ==> t.values[j].order <= key
    ensures forall j :: i <= j < |t.values| ==> t.values[j].order >= key
    ensures (exists j :: 0 <= j < |t.values| && t.values[j].order == key) ==>
      i < |t.values| && t.values[i].order == key
  {
    var size := |t.values|;
    var left, right := 0, size;
    while left < right
      invariant 0 <= left <= right <= |t.values|
      invariant size == right - left
      invariant forall j :: 0 <= j < left ==> t.values[j].order < key
      invariant forall j :: right <= j < |t.values| ==> t.values[j].order > key
    {
      var mid := left + size / 2;
      var cmp := CompareOrder(t.values[mid].order, key);
      if cmp == Less {
        left := mid + 1;
      }
      if cmp == Greater {
        right := mid;
      }
      if cmp == Equal {
        return mid;
      }
      size := right - left;
    }
    return left;
  }

  /** `query_rect` (src/zorder_tree.rs:41-48). `lo`/`hi` are the codes of
      the rectangle's two corners. The ghost bounds are the two search
      positions; `get(start..end)` is empty when they are out of order. */
  method QueryRect<T>(t: ZOrderTree<T>, q: Quantizer, rect: Rect)
    returns (r: seq<OrderStore<T>>, ghost start: nat, ghost end: nat)
    requires Valid(t)
    ensures start <= |t.values| && end <= |t.values|
    ensures forall j :: 0 <= j < start ==> t.values[j].order <= CodeOf(t, q, rect.x0, rect.y0)
    ensures forall j :: start <= j < |t.values| ==> t.values[j].order >= CodeOf(t, q, rect.x0, rect.y0)
    ensures forall j :: 0 <= j < end ==> t.values[j].order <= CodeOf(t, q, rect.x1, rect.y1)
    ensures forall j :: end <= j < |t.values| ==> t.values[j].order >= CodeOf(t, q, rect.x1, rect.y1)
    ensures (exists j :: 0 <= j < |t.values| && t.values[j].order == CodeOf(t, q, rect.x0, rect.y0)) ==>
      start < |t.values| && t.values[start].order == CodeOf(t, q, rect.x0, rect.y0)
    ensures (exists j :: 0 <= j < |t.values| && t.values[j].order == CodeOf(t, q, rect.x1, rect.y1)) ==>
      end < |t.values| && t.values[end].order == CodeOf(t, q, rect.x1, rect.y1)
    ensures r == if start <= end then t.values[start..end] else []
    ensures forall k :: 0 <= k < |r| ==>
      CodeOf(t, q, rect.x0, rect.y0) <= r[k].order <= CodeOf(t, q, rect.x1, rect.y1)
    ensures forall j :: (0 <= j < |t.values| &&
      CodeOf(t, q, rect.x0, rect.y0) < t.values[j].order < CodeOf(t, q, rect.x1, rect.y1)) ==>
      start <= j < end && r[j - start] == t.values[j]
  {
    var startOrder := OrderOf(t, q, rect.x0, rect.y0);
    var s := FindOrderIndex(t, startOrder);
    var endOrder := OrderOf(t, q, rect.x1, rect.y1);
    var e := FindOrderIndex(t, endOrder);
    r := if s <= e then t.values[s..e] else [];
    start, end := s, e;
  }

  /** `Circle::bounding_box` of kurbo: the square of side `2|r|` around `c`. */
  function BoundingBox(c: V2, r: real): (b: Rect)
    ensures b.x0 <= c.x <= b.x1 && b.y0 <= c.y <= b.y1
    ensures b.x1 - b.x0 == b.y1 - b.y0 == 2.0 * Abs(r)
  {
    Rect(c.x - Abs(r), c.y - Abs(r), c.x + Abs(r), c.y + Abs(r))
  }

  /** Every point strictly within the circle lies in its bounding box. */
  lemma InBoundingBox(c: V2, r: real, p: V2)
    requires DistSq(p, c) < r * r
    ensures var b := BoundingBox(c, r); b.x0 < p.x < b.x1 && b.y0 < p.y < b.y1
  {
    var dx, dy, a := p.x - c.x, p.y - c.y, Abs(r);
    assert a * a == r * r;
    assert dx * dx <= DistSq(p, c) && dy * dy <= DistSq(p, c);
    SquareBelow(dx, a);
    SquareBelow(dy, a);
  }

  lemma SquareBelow(d: real, a: real)
    requires a >= 0.0 && d * d < a * a
    ensures -a < d < a
  {

  }

  /** `GeoQuery::query_distance` for the z-order tree
      (src/zorder_tree.rs:83-87), with the callback collecting the values it
      is given, in order. */
  method QueryDistance<T>(t: ZOrderTree<T>, q: Quantizer, point: V2, radius: real)
    returns (found: seq<T>, ghost start: nat, ghost end: nat)
    requires Valid(t)
    ensures start <= |t.values| && end <= |t.values|
    ensures forall j :: 0 <= j < start ==>
      t.values[j].order <= CodeOf(t, q, point.x - Abs(radius), point.y - Abs(radius))
    ensures forall j :: start <= j < |t.values| ==>
      t.values[j].order >= CodeOf(t, q, point.x - Abs(radius), point.y - Abs(radius))
    ensures forall j :: 0 <= j < end ==>
      t.values[j].order <= CodeOf(t, q, point.x + Abs(radius), point.y + Abs(radius))
    ensures forall j :: end <= j < |t.values| ==>
      t.values[j].order >= CodeOf(t, q, point.x + Abs(radius), point.y + Abs(radius))
    ensures (exists j ::
               0 <= j < |t.values| && t.values[j].order == CodeOf(t, q, point.x - Abs(radius), point.y - Abs(radius))) ==>
      start < |t.values| && t.values[start].order == CodeOf(t, q, point.x - Abs(radius), point.y - Abs(radius))
    ensures (exists j ::
               0 <= j < |t.values| && t.values[j].order == CodeOf(t, q, point.x + Abs(radius), point.y + Abs(radius))) ==>
      end < |t.values| && t.values[end].order == CodeOf(t, q, point.x + Abs(radius), point.y + Abs(radius))
    ensures found == if start <= end then StoredValues(t.values[start..end]) else []
    ensures forall j :: (0 <= j < |t.values| &&
      CodeOf(t, q, point.x - Abs(radius), point.y - Abs(radius)) < t.values[j].order <
      CodeOf(t, q, point.x + Abs(radius), point.y + Abs(radius))) ==>
      start <= j < end && found[j - start] == t.values[j].value
  {
    var rect := BoundingBox(point, radius);
    var slice;
    slice, start, end := QueryRect(t, q, rect);
    found := StoredValues(slice);
  }
}
