# Spatial indexes, a widget diff and a particle world, in Dafny

This project models the sequential core of `wgpu_tests`, a Rust playground of
spatial indexes and small rendering helpers, and proves properties of it:

- **Z-order index** (`src/zorder_tree.rs`): the `z_order` Morton code on
  64-bit words (`zorder_code.dfy`, module `ZOrderCode`), and a tree that tags
  values with the code of their quantized position, sorts them by code, finds
  positions by binary search and answers rectangle and distance queries as a
  slice of the sorted entries (`zorder_tree.dfy`, module `ZOrder`).
- **Region quadtree** (`src/quad_tree.rs`): nodes that are `Empty`, a `Leaf`
  or a four-way `Node`, each with a center and half-extents; insertion that
  splits a leaf into four half-size children; a visitor over the leaves; and
  a distance query that prunes subtrees whose rectangle misses the circle
  (`quad_tree.dfy`, module `QuadTrees`).
- **Virtual-DOM diff** (`src/elements.rs`): `VNode` descriptions, the
  `Changes` tree `diff_nodes` computes, the `WidgetTree` `from_vnode` builds,
  `reconcile`/`diff_root` applying changes to it, and `patch_props`
  (`elements.dfy`, module `Elements`).
- **Particle world** (`src/particle.rs`): a `World` class whose
  `particles` sequence is appended to and stepped in place by `evolve`,
  with an explicit Euler step and reflection at the box walls
  (`particle.dfy`, module `Particles`).
- **Pixel packing** (`src/bin/main.rs`): `buff_to_vec`, RGBA bytes to ARGB
  words (`pixels.dfy`, module `Pixels`).

`geometry.dfy` (module `Geometry`) holds the real-valued 2D vector and the
rectangle `kurbo::Rect`. The vector's fields are those of both `V2` structs,
`src/particle.rs:1-10` and `src/v2.rs:3-7`. `Add` and `Sub` are `V2::add` and
`V2::sub` of `src/v2.rs:14-20`. `src/quad_tree.rs` imports the `V2` of
`src/particle.rs`, which has no `add`, `sub` or `clone`; the model gives the
quadtree's calls to them the meaning of the `src/v2.rs` methods. Coordinates are
`real`; distances are compared squared instead of through `sqrt`.

The main results:

- `ZOrderCode.InterleavedBits`: bit `i` of `x` lands at bit `2i` and bit `i`
  of `y` at bit `2i + 1` exactly when `i < order`. `ZOrderCode.ZOrder`, the
  source's loop, computes that code.
- `ZOrder.FromVec`: the stored entries are code-sorted, carry their values'
  codes, and are a permutation of the input. `ZOrder.SortByKeyStable`:
  the sort is stable.
- `QuadTrees.InsertContents` and `QuadTrees.BuildAndVisit`: inserting
  values at distinct positions inside the root's rectangle and visiting the
  leaves gives back exactly
  the inserted multiset. `QuadTrees.QueryComplete`: the distance query
  returns every stored value strictly inside the circle.
- `Elements.DiffReconcile`: reconciling the widget tree of `a` with
  `diff(a, b)` gives the widget tree of `b`.
- `Particles.World.Evolve`: after a step every particle is in the box,
  when both dimensions are non-negative.
  `Pixels.BuffToVecOfVecToBuff` and `Pixels.VecToBuffOfBuffToVec`:
  `buff_to_vec` round-trips with its inverse.

## Model

| member | source | states |
|---|---|---|
| ZOrderCode.ZOrder | src/zorder_tree.rs:74-80 | the loop's result is the code after `order` rounds, `Interleaved(x, y, order)`, for every `order <= 63` |
| ZOrderCode.Spread | src/zorder_tree.rs:77 | the word or-ed into `z` in round `i`; SpreadEven and SpreadOdd give its bits |
| ZOrderCode.Interleaved | src/zorder_tree.rs:74-80 | the value of `z` after the first `n` rounds; InterleavedBits gives all its bits |
| ZOrderCode.Settled | src/zorder_tree.rs:76-77 | for coordinates below 8 every order from 3 on gives the same code, the or of the first three rounds |
| ZOrderCode.EvenBelow | src/zorder_tree.rs:76-77 | for `i < order`, bit `2i` of the code is bit `i` of `x` |
| ZOrderCode.OddBelow | src/zorder_tree.rs:76-77 | for `i < order`, bit `2i + 1` of the code is bit `i` of `y` |
| ZOrderCode.EvenAbove | src/zorder_tree.rs:76-77 | bits of `x` at or above `order` never reach the code |
| ZOrderCode.OddAbove | src/zorder_tree.rs:76-77 | bits of `y` at or above `order` never reach the code |
| ZOrderCode.InterleavedBits | src/zorder_tree.rs:74-80 | every bit of the 64-bit code: bit `2i` is `i < order && x_i`, bit `2i + 1` is `i < order && y_i` |
| ZOrderCode.SpreadEven | src/zorder_tree.rs:77 | the word or-ed in round `j` sets even bit `2i` only for `i == j`, to bit `i` of `x` |
| ZOrderCode.SpreadOdd | src/zorder_tree.rs:77 | the word or-ed in round `j` sets odd bit `2i + 1` only for `i == j`, to bit `i` of `y` |
| ZOrderCode.TestVectorsLow | src/zorder_tree.rs:99-103 | order-10 codes of (0,0), (1,0), (0,1) and (1,1) are 0, 1, 2 and 3 |
| ZOrderCode.TestVectorsHigh | src/zorder_tree.rs:104-106 | order-10 codes of (2,0), (2,2) and (7,7) are 4, 12 and 63 |
| ZOrder.OrderOf | src/zorder_tree.rs:66-71 | the code of a point is the Morton code of its two quantized coordinates at the tree's order |
| ZOrder.MaxOrderValue | src/zorder_tree.rs:23 | `(1 << (order - 1))` as a real, exactly; GeoFromVec pins it to 2^31 at order 32 |
| ZOrder.StoredValues | src/zorder_tree.rs:37-39 | one value per entry, the `k`-th being the `k`-th entry's value |
| ZOrder.InsertByOrder | src/zorder_tree.rs:32 | one step of the stable sort, adding exactly one entry; InsertPerm, InsertSorted and InsertWithOrder give its content and order |
| ZOrder.SortByKey | src/zorder_tree.rs:32 | `sort_by_key` by code keeps the length; SortSorted, SortPerm and SortByKeyStable state that it sorts, permutes and is stable |
| ZOrder.Values | src/zorder_tree.rs:37-39 | the tree's values, in stored (code) order, as many as there are entries |
| ZOrder.InsertPerm | src/zorder_tree.rs:32 | inserting an entry into a sorted run adds exactly that entry |
| ZOrder.InsertSorted | src/zorder_tree.rs:32 | inserting an entry into a code-sorted sequence keeps it code-sorted |
| ZOrder.SortSorted | src/zorder_tree.rs:32 | `sort_by_key` by code yields non-decreasing codes |
| ZOrder.SortPerm | src/zorder_tree.rs:32 | `sort_by_key` yields a permutation of its input entries |
| ZOrder.SortValues | src/zorder_tree.rs:32 | the sorted entries hold a permutation of the input values |
| ZOrder.InsertWithOrder | src/zorder_tree.rs:32 | inserting an entry adds it in front of the entries with its own code and leaves other codes' entries alone |
| ZOrder.SortByKeyStable | src/zorder_tree.rs:32 | the sort is stable: entries with equal codes keep their input order |
| ZOrder.Tag | src/zorder_tree.rs:25-31 | entry `k` pairs input value `k` with the code of its position |
| ZOrder.TagSameGrid | src/zorder_tree.rs:19-28 | the codes depend only on the order and the scale, so tagging with the header gives the codes of the finished tree |
| ZOrder.FromVec | src/zorder_tree.rs:18-35 | the tree keeps `order` and `max_dim`; `max_order_value` is 2^(order-1); entries are the tagged input sorted by code, code-sorted, tagged with their own values' codes, as many as the input, holding a permutation of the input values |
| ZOrder.GeoFromVec | src/zorder_tree.rs:89-91 | the `GeoQuery` constructor uses order 32, so `max_order_value` is 2^31, with the guarantees of `FromVec` |
| ZOrder.CompareOrder | src/zorder_tree.rs:51-59 | `Equal`, `Less` or `Greater` exactly when the entry's code is equal to, below or above the key |
| ZOrder.FindOrderIndex | src/zorder_tree.rs:50-64 | the index is in `[0, len]`; every entry before it has a code `<=` the key and every entry from it on a code `>=` the key; when some entry has the key's code, the index names such an entry, as `Ok(i)` does |
| ZOrder.QueryRect | src/zorder_tree.rs:41-48 | `start` and `end` are search positions of the two corner codes (entries before each have codes `<=` that corner's code, entries from it on codes `>=`, and when a corner's code is stored the position names an entry with it); the result is `values[start..end]` when `start <= end` and empty otherwise; every result's code lies between the corners' codes, and every entry strictly between them is in the result |
| ZOrder.BoundingBox | src/zorder_tree.rs:84 | the circle's bounding box contains the center and is a square of side twice the absolute radius |
| ZOrder.InBoundingBox | src/zorder_tree.rs:84 | every point strictly within the circle lies strictly within its bounding box |
| ZOrder.QueryDistance | src/zorder_tree.rs:83-87 | `start` and `end` are search positions of the bounding box's corner codes, naming an entry with that code when one is stored, and the callback sees the values of `values[start..end]`, in order, or nothing when `start > end`; every entry whose code is strictly between the box's corner codes is seen |
| QuadTrees.GetRect | src/quad_tree.rs:58-65 | the rectangle contains exactly the closed region of the node; it is centred on the node's center with sides twice the half-extents |
| QuadTrees.QuadrantOf | src/quad_tree.rs:146-161 | NW iff x < cx and y < cy; SW iff x < cx and y >= cy; NE iff x >= cx and y < cy; SE iff x >= cx and y >= cy |
| QuadTrees.QuadrantContains | src/quad_tree.rs:100-106 | a point of the node lies in the child its quadrant names |
| QuadTrees.ChildWithin | src/quad_tree.rs:112-144 | every point of a child lies in the parent |
| QuadTrees.ElementsInRect | src/quad_tree.rs:82-110 | in a well-formed tree every stored value lies in the tree's rectangle |
| QuadTrees.New | src/quad_tree.rs:43-50 | an `Empty` node with exactly the given center and half-extents, holding nothing |
| QuadTrees.NewNode | src/quad_tree.rs:112-144 | a split node with the parent's center and extents; four `Empty` children with half the extents, centred at center ± (hw/2, hh/2) per quadrant |
| QuadTrees.NewNodeValid | src/quad_tree.rs:112-144 | a fresh split node is well formed and holds no position |
| QuadTrees.SplitFacts | src/quad_tree.rs:86-90 | splitting a leaf holding `u` gives a well-formed node with the leaf's center and extents, holding only `u`, with a smaller split budget |
| QuadTrees.Split | src/quad_tree.rs:86-92 | a leaf becomes a split node with the leaf's own center and half-extents |
| QuadTrees.SplitIsInsert | src/quad_tree.rs:87-89 | the split node is `new_node` with the old leaf value inserted |
| QuadTrees.Insert | src/quad_tree.rs:82-110 | inserting keeps the tree well formed and never changes the node's center or extents; an `Empty` node becomes a `Leaf` of the value; any other node becomes a split node |
| QuadTrees.InsertContents | src/quad_tree.rs:82-110 | `insert` adds exactly the one value and the one position, losing and duplicating nothing |
| QuadTrees.AddVec | src/quad_tree.rs:52-56 | inserting the values in turn keeps the tree well formed, keeps its center and extents, and adds exactly the multiset of the inserted values |
| QuadTrees.ForEach | src/quad_tree.rs:67-80 | the visitor is called on leaf nodes only |
| QuadTrees.ForEachElements | src/quad_tree.rs:67-80 | the visited leaves hold exactly the tree's values, each once |
| QuadTrees.BuildAndVisit | src/quad_tree.rs:43-80 | `new`, then `add_vec` at distinct positions inside the root's closed rectangle, then `for_each` reaches exactly the inserted multiset |
| QuadTrees.RectIntersectCircle | src/quad_tree.rs:193-210 | the test passes only for a positive radius |
| QuadTrees.Closest | src/quad_tree.rs:194-205 | the clamped point lies in a non-empty rectangle, and a coordinate already within the rectangle's range is kept |
| QuadTrees.ClosestNearest | src/quad_tree.rs:194-205 | the clamped point is the point of the rectangle nearest the center |
| QuadTrees.RectIntersectCircleSound | src/quad_tree.rs:193-210 | a passing test names a point of the rectangle strictly within the circle |
| QuadTrees.RectIntersectCircleComplete | src/quad_tree.rs:193-210 | any point of the rectangle strictly within the circle makes the test pass |
| QuadTrees.RectIntersectCircleIff | src/quad_tree.rs:193-210 | for a non-empty rectangle: the test passes iff r > 0 and some point of the rectangle is strictly within r of the center |
| QuadTrees.QueryDistance | src/quad_tree.rs:163-190 | the result is empty when the node's rectangle fails the circle test, and otherwise holds only stored values, none more often than stored |
| QuadTrees.QueryComplete | src/quad_tree.rs:163-190 | every stored value strictly within `r` of the point is in the result |
| QuadTrees.BuildTestTree | src/quad_tree.rs:224-228 | the test tree is well formed and holds exactly the four inserted points |
| QuadTrees.TestInsert | src/quad_tree.rs:222-232 | the radius-1 query around (0.5, 0.5) returns four values, the four inserted points |
| Elements.Get | src/elements.rs:93-94 | `Some` of element `i` when `i` is in range, `None` otherwise |
| Elements.KindOf | src/elements.rs:16-25 | a text widget exactly for a `Text` tag |
| Elements.FromVNode | src/elements.rs:14-35 | the widget's kind follows the tag, with as many children as the description |
| Elements.FromVNodeShape | src/elements.rs:14-35 | `from_vnode` keeps the shape and the node kinds: they read back as the original description |
| Elements.Diff | src/elements.rs:82-105 | nothing changed exactly when the two sides are equal |
| Elements.ChildDiffs | src/elements.rs:90-98 | one child change per position up to the longer child list |
| Elements.DiffNodes | src/elements.rs:82-105 | the loop's change tree is `Diff`: `None` for equal nodes, `Updated(new)` for a new tag, `Children` position by position otherwise, `Removed`/`Inserted`/`None` for missing sides |
| Elements.DiffSame | src/elements.rs:85-86 | a node compared with itself has not changed |
| Elements.TestDiff | src/elements.rs:177-217 | the test's two trees differ by `Children[Updated(c0), None, Inserted(c2)]` |
| Elements.Reconciled | src/elements.rs:43-65 | `None` keeps the tree, `Removed` drops it, `Inserted`/`Updated` rebuild it with `from_vnode`, `Children` keeps the node with at most one child per change |
| Elements.ReconciledPrefix | src/elements.rs:53-59 | the first `n` child changes give at most `n` children |
| Elements.Reconcile | src/elements.rs:43-65 | the loop's result is `Reconciled`, whenever the tree is present in every `Children` case |
| Elements.MirrorCanReconcile | src/elements.rs:51-55 | the child changes of two descriptions apply to the widgets built from the old one |
| Elements.PrefixKept | src/elements.rs:53-59 | when every child change keeps the matching new child or drops it past the end, the loop builds the new children in order |
| Elements.ChildKept | src/elements.rs:53-59 | each child change keeps the widget for the new child at its position, if any, and drops the rest |
| Elements.DiffReconcile | src/elements.rs:37-105 | reconciling the widget tree of `a` with `diff(a, b)` is possible and gives the widget tree of `b` |
| Elements.DiffRoot | src/elements.rs:37-41 | the new root is the reconciled tree; when there was no old description, or the tree was built from it, it is the widget tree of the new description |
| Elements.PatchProps | src/elements.rs:129-138 | a property given as `Some` overwrites its field, `None` keeps it |
| Elements.PatchIdempotent | src/elements.rs:129-138 | patching twice with the same properties equals patching once |
| Elements.PatchNothing | src/elements.rs:129-138 | empty properties change nothing |
| Elements.PatchTwice | src/elements.rs:129-138 | two patches are one patch in which the later properties win |
| Particles.Reflect | src/particle.rs:63-81 | for a non-negative wall the result is in `[0, hi]`; an in-range axis is left alone; one past a wall sits on it with its velocity negated |
| Particles.Euler | src/particle.rs:58-61 | the position moves by the old velocity times `dt`, then the velocity gains gravity times `dt`; SteppedFree states it |
| Particles.Bounce | src/particle.rs:63-81 | the wall tests of both axes; with non-negative dimensions the particle ends in the box |
| Particles.Stepped | src/particle.rs:58-81 | one step of `evolve` for one particle, the Euler step then the wall tests; SteppedInBox, SteppedFree and the wall lemmas state it |
| Particles.RandomParticle | src/particle.rs:42-46 | the particle built from draws `4k` to `4k + 3` in the order x, y, vx, vy; RandomParticleBounds bounds it |
| Particles.SteppedInBox | src/particle.rs:55-83 | with non-negative dimensions a stepped particle lies in the box |
| Particles.SteppedFree | src/particle.rs:58-61 | a particle whose Euler step stays in the box moves with its old velocity and gains `g·dt` |
| Particles.SteppedLeftWall | src/particle.rs:63-66 | crossing the left wall puts the particle on it with its post-gravity velocity negated |
| Particles.SteppedRightWall | src/particle.rs:68-71 | crossing the right wall puts the particle on it with its post-gravity velocity negated |
| Particles.RandomParticleBounds | src/particle.rs:42-46 | draws in [0, 1) give a position in `[0, dims)` and velocities in `[-50, 50)` |
| Particles.World.constructor | src/particle.rs:31-38 | a new world has no particles, the given dimensions and gravity, and step 0.05 |
| Particles.World.AddRandomParticles | src/particle.rs:40-49 | exactly `n` particles are appended, made from draws `4k..4k+3`, and the old ones are unchanged |
| Particles.World.AddParticle | src/particle.rs:51-53 | the particle is appended at the end |
| Particles.World.Walls | src/particle.rs:63-81 | the four wall tests in order give the per-axis reflection |
| Particles.World.StepParticle | src/particle.rs:58-81 | the field updates in order give the Euler step followed by the reflection |
| Particles.World.Evolve | src/particle.rs:55-83 | the number and order of particles are kept, each takes one step, and with non-negative dimensions all end in the box |
| Particles.ExampleBounce | src/particle.rs:55-83 | a particle crossing the left wall of a 10 x 10 box lands on it, flying back |
| Pixels.PackChannels | src/bin/main.rs:97 | bits 24-31, 16-23, 8-15 and 0-7 of a packed word are a, r, g and b |
| Pixels.Pack | src/bin/main.rs:97 | the ARGB word of one pixel; PackChannels and ChannelsPack make it a bijection with its channels |
| Pixels.ChannelsPack | src/bin/main.rs:97 | a word is the pack of its own channels |
| Pixels.BuffToVec | src/bin/main.rs:88-102 | the output has `len / 4` words, rounded down |
| Pixels.BuffToVecAt | src/bin/main.rs:92-98 | word `k` is the bitwise or of `a << 24`, `r << 16`, `g << 8` and `b`, where r, g, b, a are bytes `4k` to `4k + 3` |
| Pixels.BuffToVecOfVecToBuff | src/bin/main.rs:88-102 | packing the bytes of any words gives the words back |
| Pixels.VecToBuffOfBuffToVec | src/bin/main.rs:88-102 | unpacking the words gives back every byte of the whole pixels |
| Pixels.TailIgnored | src/bin/main.rs:91 | bytes past the last whole pixel make no difference |
| Pixels.BuffToVecAppend | src/bin/main.rs:89-100 | chunk order is kept: whole pixels before are words before |
| Pixels.ExamplePixel | src/bin/main.rs:88-102 | the bytes 1, 2, 3, 4, 9 give the single word 0x04010203 |
| Geometry.Add | src/v2.rs:18-20 | component-wise sum; subtracting either summand gives the other back |
| Geometry.Sub | src/v2.rs:14-16 | component-wise difference, the inverse of Add |

## Left out

- Rendering, the GPU code, browser bindings, the window and event loop,
  `src/rstar_tree.rs` (a wrapper over the `rstar` crate), and the `draw`
  methods are not part of this model. The duplicate `buff_to_vec` of
  `src/main.rs` is not modelled either.
- `order_of`'s float division and saturating `as u64` cast are a given
  `Quantizer` function from (coordinate, `max_dim`, `max_order_value`) to a
  grid word.
- Floating point: coordinates, velocities and draws are exact reals. There is
  no rounding, NaN or infinity. `rect_intersect_circle` compares squared
  distances instead of taking `sqrt`.
- `sort_by_key` and `binary_search_by` belong to the standard library.
  - The sort is modelled as a stable insertion sort.
  - The binary search is modelled as the classic halving loop. It is proved
    against the documented contract: `Ok(i)` names an entry with the key,
    `Err(i)` the position that keeps the order. Like that contract, it
    leaves open which of several equal entries `Ok(i)` names.
- QuadTrees.Insert: requires the position to lie in the node's closed rectangle and to differ from every stored position. The source needs neither, but two equal positions make it split forever. Two distinct points outside the root can also split forever, for example beyond one corner, or beyond one edge on the same line. `offset_pos` in `src/v2.rs` is never called.
- QuadTrees.Insert: is a function returning the new tree rather than an update through `&mut self`. The tree is owned and never aliased, so nothing beyond the value is lost.
- QuadTrees.AddVec: states the new multiset of values, not the new set of positions.
- QuadTrees.AddVec, QuadTrees.BuildAndVisit: inherit the requirements of QuadTrees.Insert: every position lies in the root's closed rectangle and no two positions, inserted or stored, are equal. Outside that the source may split forever, as the Insert line says.
- QuadTrees.QueryDistance: is stated with `<=` on multisets. The exact content of the result, every leaf under a surviving node, follows only for values inside the circle, through QueryComplete.
- QuadTrees.RectIntersectCircleIff: holds only for rectangles with `x0 <= x1` and `y0 <= y1`, as `get_rect` gives for non-negative extents.
- ZOrderCode.ZOrder: requires `order <= 63`. At 64 the source's shift `<< (i + 1)` would exceed the word.
- ZOrder.FromVec: requires `1 <= order <= 63` for the same reason, and for `order - 1`.
- ZOrder.CodeOf: treats codes as unbounded naturals. Unsigned 64-bit codes compare like their values, so nothing is lost.
- Elements.PatchProps: is a function on a `TextWidget` value rather than an update through `&mut self`.
- `Changes` borrows the `VNode`s it names. Here it holds copies, which is the same for values that are never mutated.
- The `println!` in `from_vnode` is left out.
- Elements.Reconcile: the source's `me.unwrap()` in the `Children` case panics on `None`; the model makes it the precondition `CanReconcile`, which Elements.Reconciled shares.
- Elements.DiffRoot: the source's `new_root.unwrap()` panics on `None`; the model makes it the precondition that the reconciled root is `Some`.
- Particles.World.AddRandomParticles: takes the `rng` closure as the sequence of values it would return, in call order.
- Particles.World.Evolve: a box with negative dimensions is modelled as the source handles it, with both wall tests firing in turn. The in-box guarantee is stated only for non-negative dimensions.
- The quadtree query tests the circle itself with strict `<`, not its bounding square.
- The particle step is explicit Euler: the position moves with the old velocity before gravity changes it.
