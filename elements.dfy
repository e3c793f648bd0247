/** The virtual-DOM layer of `src/elements.rs`: a `VNode` tree describes
    the wanted widgets, `diff_nodes` compares two descriptions into a
    `Changes` tree, and `reconcile` applies such a tree to the widget tree
    built earlier by `from_vnode`.

    `Changes` borrows the `VNode`s it names; here it holds copies, which
    is the same thing for values that are never mutated. */
module Elements {

  datatype Option<T> = None | Some(value: T)

  /** `NodeKind` (src/elements.rs:123-127). */
  datatype NodeKind = Text | Container

  /** `VNode` (src/elements.rs:146-150). */
  datatype VNode = VNode(tag: NodeKind, children: seq<VNode>)

  /** `TextWidget` (src/elements.rs:156-159). */
  datatype TextWidget = TextWidget(text: string, position: (real, real))

  /** `WidgetKind` (src/elements.rs:3-6); `ContainerWidget` has no fields. */
  datatype WidgetKind = TextKind(widget: TextWidget) | ContainerKind

  /** `WidgetTree` (src/elements.rs:8-11). */
  datatype WidgetTree = WidgetTree(node: WidgetKind, children: seq<WidgetTree>)

  /** `Changes` (src/elements.rs:108-115); the source's `Changes::None`
      is `Unchanged`. */
  datatype Changes =
    | Unchanged
    | Inserted(node: VNode)
    | Removed(node: VNode)
    | Children(changes: seq<Changes>)
    | Updated(node: VNode)

  function Max(a: nat, b: nat): (m: nat)
    ensures m >= a && m >= b && (m == a || m == b)
  {
    if a < b then b else a
  }

  /** `Vec::get`. */
  function Get<T>(s: seq<T>, i: nat): (r: Option<T>)
    ensures r.Some? <==> i < |s|
    ensures r.Some? ==> r.value == s[i]
  {
    if i < |s| then Some(s[i]) else None
  }

  // ---------------------------------------------------------------------
  // Building widgets

  /** The widget `from_vnode` makes for a tag: every text node starts
      with the same text at the origin. */
  function KindOf(tag: NodeKind): (k: WidgetKind)
    ensures k.TextKind? <==> tag == Text
  {
    match tag
    case Text => TextKind(TextWidget("Hello, world!", (0.0, 0.0)))
    case Container => ContainerKind
  }

  /** `WidgetTree::from_vnode` (src/elements.rs:14-35). */
  function FromVNode(n: VNode): (w: WidgetTree)
    ensures w.node == KindOf(n.tag)
    ensures |w.children| == |n.children|
    decreases n
  {
    WidgetTree(KindOf(n.tag), seq(|n.children|, i requires 0 <= i < |n.children| => FromVNode(n.children[i])))
  }

  /** The tag a widget was built for. */
  function TagOf(k: WidgetKind): (tag: NodeKind)
    ensures KindOf(tag).TextKind? == k.TextKind?
  {
    match k
    case TextKind(_) => Text
    case ContainerKind => Container
  }

  /** The shape and tags of a widget tree. */
  function ToVNode(w: WidgetTree): (n: VNode)
    ensures |n.children| == |w.children|
    decreases w
  {
    VNode(TagOf(w.node), seq(|w.children|, i requires 0 <= i < |w.children| => ToVNode(w.children[i])))
  }

  /** `from_vnode` keeps the shape and the node kinds: reading them back
      gives the description it was built from. */
  lemma {:induction false} FromVNodeShape(n: VNode)
    ensures ToVNode(FromVNode(n)) == n
    decreases n
  {
    forall i | 0 <= i < |n.children|
      ensures ToVNode(FromVNode(n).children[i]) == n.children[i]
    {
      FromVNodeShape(n.children[i]);
    }
    assert ToVNode(FromVNode(n)).children == n.children;
  }

  // ---------------------------------------------------------------------
  // Diffing

  function Depth(n: VNode): nat
    decreases n
  {
    1 + MaxDepth(n.children)
  }

  function MaxDepth(cs: seq<VNode>): (m: nat)
    ensures forall k :: 0 <= k < |cs| ==> Depth(cs[k]) <= m
    decreases cs
  {
    if cs == [] then 0 else Max(Depth(cs[0]), MaxDepth(cs[1..]))
  }

  function OptDepth(o: Option<VNode>): nat
  {
    if o.Some? then Depth(o.value) else 0
  }

  /** What `diff_nodes` computes (src/elements.rs:82-105): the children of
      two unequal nodes with the same tag are compared position by
      position up to the longer list. Nothing changed exactly when the
      two sides are equal. */
  function Diff(oldNode: Option<VNode>, newNode: Option<VNode>): (c: Changes)
    ensures c.Unchanged? <==> oldNode == newNode
    decreases Max(OptDepth(oldNode), OptDepth(newNode)), 1
  {
    match (oldNode, newNode)
    case (Some(o), Some(n)) =>
      if o == n then Unchanged
      else if o.tag != n.tag then Updated(n)
      else Children(ChildDiffs(o, n))
    case (Some(o), None) => Removed(o)
    case (None, Some(n)) => Inserted(n)
    case (None, None) => Unchanged
  }

  /** The child changes of two nodes: entry `i` compares the `i`-th
      children, a missing child counting as `None`. */
  function ChildDiffs(o: VNode, n: VNode): (cc: seq<Changes>)
    ensures |cc| == Max(|o.children|, |n.children|)
    decreases Max(Depth(o), Depth(n)), 0
  {
    seq(Max(|o.children|, |n.children|), i requires 0 <= i < Max(|o.children|, |n.children|) =>
      Diff(Get(o.children, i), Get(n.children, i)))
  }

  /** `WidgetTree::diff_nodes` (src/elements.rs:82-105), building the list
      of child changes with a loop. */
  method DiffNodes(oldNode: Option<VNode>, newNode: Option<VNode>) returns (c: Changes)
    ensures c == Diff(oldNode, newNode)
    decreases Max(OptDepth(oldNode), OptDepth(newNode))
  {
    match (oldNode, newNode)
    case (Some(o), Some(n)) =>
      if o == n {
        c := Unchanged;
      } else if o.tag != n.tag {
        c := Updated(n);
      } else {
        var children: seq<Changes> := [];
        var maxSize := Max(|o.children|, |n.children|);
        for i := 0 to maxSize
          invariant |children| == i
          invariant forall k :: 0 <= k < i ==> children[k] == Diff(Get(o.children, k), Get(n.children, k))
        {
          var diff := DiffNodes(Get(o.children, i), Get(n.children, i));
          children := children + [diff];
        }
        c := Children(children);
      }
    case (Some(o), None) => c := Removed(o);
    case (None, Some(n)) => c := Inserted(n);
    case (None, None) => c := Unchanged;
  }

  /** A node compared with itself has not changed. */
  lemma DiffSame(n: VNode)
    ensures Diff(Some(n), Some(n)) == Unchanged
  {
  }

  /** The unit test of the source (src/elements.rs:177-217). */
  lemma TestDiff()
    ensures
      var t1 := VNode(Container, [VNode(Text, []), VNode(Text, [])]);
      var t2 := VNode(Container, [VNode(Container, []), VNode(Text, []), VNode(Text, [])]);
      Diff(Some(t1), Some(t2)) == Children([Updated(t2.children[0]), Unchanged, Inserted(t2.children[2])])
  {
    var t1 := VNode(Container, [VNode(Text, []), VNode(Text, [])]);
    var t2 := VNode(Container, [VNode(Container, []), VNode(Text, []), VNode(Text, [])]);
    assert t1 != t2 by { assert |t1.children| != |t2.children|; }
    assert Diff(Get(t1.children, 0), Get(t2.children, 0)) == Updated(t2.children[0]);
    assert Diff(Get(t1.children, 1), Get(t2.children, 1)) == Unchanged;
    assert Diff(Get(t1.children, 2), Get(t2.children, 2)) == Inserted(t2.children[2]);
  }

  // ---------------------------------------------------------------------
  // Reconciling

  /** `reconcile` unwraps the old tree in the `Children` case, and so in
      every nested `Children` case whose old child is what the source's
      iterator over the old children gives at that index. */
  predicate CanReconcile(me: Option<WidgetTree>, changes: Changes)
    decreases changes
  {
    match changes
    case Children(cc) =>
      me.Some? && forall k :: 0 <= k < |cc| ==> CanReconcile(Get(me.value.children, k), cc[k])
    case _ => true
  }

  function Kept(r: Option<WidgetTree>): (s: seq<WidgetTree>)
    ensures |s| <= 1
  {
    if r.Some? then [r.value] else []
  }

  /** What `reconcile` computes (src/elements.rs:43-65). */
  function Reconciled(me: Option<WidgetTree>, changes: Changes): (r: Option<WidgetTree>)
    requires CanReconcile(me, changes)
    ensures changes.Unchanged? ==> r == me
    ensures changes.Removed? ==> r == None
    ensures changes.Inserted? || changes.Updated? ==> r == Some(FromVNode(changes.node))
    ensures changes.Children? ==>
      r.Some? && r.value.node == me.value.node && |r.value.children| <= |changes.changes|
    decreases changes, 1
  {
    match changes
    case Unchanged => me
    case Removed(_) => None
    case Inserted(n) => Some(FromVNode(n))
    case Updated(n) => Some(FromVNode(n))
    case Children(cc) =>
      Some(WidgetTree(me.value.node, ReconciledPrefix(me.value.children, cc, |cc|)))
  }

  /** The new children after the first `n` child changes: each old child
      reconciled with its change, those that come back `None` dropped. */
  function ReconciledPrefix(olds: seq<WidgetTree>, cc: seq<Changes>, n: nat): (r: seq<WidgetTree>)
    requires n <= |cc|
    requires forall k :: 0 <= k < |cc| ==> CanReconcile(Get(olds, k), cc[k])
    ensures |r| <= n
    decreases cc, 0, n
  {
    if n == 0 then []
    else ReconciledPrefix(olds, cc, n - 1) + Kept(Reconciled(Get(olds, n - 1), cc[n - 1]))
  }

  /** `WidgetTree::reconcile` (src/elements.rs:43-65), with its loop over
      the child changes and its iterator over the old children. */
  method Reconcile(me: Option<WidgetTree>, changes: Changes) returns (r: Option<WidgetTree>)
    requires CanReconcile(me, changes)
    ensures r == Reconciled(me, changes)
    decreases changes
  {
    match changes
    case Unchanged => r := me;
    case Removed(_) => r := None;
    case Inserted(n) => r := Some(FromVNode(n));
    case Updated(n) => r := Some(FromVNode(n));
    case Children(cc) =>
      var WidgetTree(node, children) := me.value;
      var newChildren: seq<WidgetTree> := [];
      for i := 0 to |cc|
        invariant newChildren == ReconciledPrefix(children, cc, i)
      {
        var oldChild := Get(children, i);
        var newChild := Reconcile(oldChild, cc[i]);
        if newChild.Some? {
          newChildren := newChildren + [newChild.value];
        }
      }
      r := Some(WidgetTree(node, newChildren));
  }

  /** The changes of two nodes' children can be applied to the widgets
      built for the old children, provided the changes of each pair of
      children present on both sides can. */
  lemma MirrorCanReconcile(a: VNode, b: VNode)
    requires forall k :: 0 <= k < |a.children| && k < |b.children| ==>
      CanReconcile(Some(FromVNode(a.children[k])), Diff(Some(a.children[k]), Some(b.children[k])))
    ensures forall k :: 0 <= k < |ChildDiffs(a, b)| ==> CanReconcile(Get(FromVNode(a).children, k), ChildDiffs(a, b)[k])
  {
    var cc := ChildDiffs(a, b);
    var olds := FromVNode(a).children;
    forall k | 0 <= k < |cc|
      ensures CanReconcile(Get(olds, k), cc[k])
    {
      assert cc[k] == Diff(Get(a.children, k), Get(b.children, k));
      if k < |a.children| && k < |b.children| {
        assert Get(olds, k) == Some(FromVNode(a.children[k]));
      } else if k < |b.children| {
        assert cc[k] == Inserted(b.children[k]);
      } else {
        assert cc[k] == Removed(a.children[k]);
      }
    }
  }

  /** When every child change keeps exactly the `k`-th new child for
      `k < |news|` and drops the rest, the first `n` changes give the first
      new children. */
  lemma {:induction false} PrefixKept(olds: seq<WidgetTree>, cc: seq<Changes>, news: seq<WidgetTree>, n: nat)
    requires n <= |cc| && |news| <= |cc|
    requires forall k :: 0 <= k < |cc| ==> CanReconcile(Get(olds, k), cc[k])
    requires forall k :: 0 <= k < |cc| ==>
      Kept(Reconciled(Get(olds, k), cc[k])) == if k < |news| then [news[k]] else []
    ensures ReconciledPrefix(olds, cc, n) == news[..if n < |news| then n else |news|]
    decreases n
  {
    if n > 0 {
      PrefixKept(olds, cc, news, n - 1);
      if n - 1 < |news| {
        assert news[..n] == news[..n - 1] + [news[n - 1]];
      }
    }
  }

  /** Child change `k` of two same-tag descriptions keeps the widget for
      the `k`-th new child, if there is one, provided the children present
      on both sides mirror each other. */
  lemma ChildKept(a: VNode, b: VNode, k: nat)
    requires k < |ChildDiffs(a, b)|
    requires forall k :: 0 <= k < |ChildDiffs(a, b)| ==> CanReconcile(Get(FromVNode(a).children, k), ChildDiffs(a, b)[k])
    requires k < |a.children| && k < |b.children| ==>
      CanReconcile(Some(FromVNode(a.children[k])), Diff(Some(a.children[k]), Some(b.children[k]))) &&
      Reconciled(Some(FromVNode(a.children[k])), Diff(Some(a.children[k]), Some(b.children[k]))) ==
      Some(FromVNode(b.children[k]))
    ensures Kept(Reconciled(Get(FromVNode(a).children, k), ChildDiffs(a, b)[k])) ==
      if k < |b.children| then [FromVNode(b).children[k]] else []
  {
    var cc := ChildDiffs(a, b);
    if k < |a.children| && k < |b.children| {
      assert Get(FromVNode(a).children, k) == Some(FromVNode(a.children[k]));
    } else if k < |b.children| {
      assert cc[k] == Inserted(b.children[k]);
    } else {
      assert cc[k] == Removed(a.children[k]);
    }
  }

  /** Diffing the description a widget tree was built from against a new
      description, and reconciling the tree with the result, gives the
      widget tree built from the new description. */
  lemma {:induction false} DiffReconcile(a: VNode, b: VNode)
    ensures CanReconcile(Some(FromVNode(a)), Diff(Some(a), Some(b)))
    ensures Reconciled(Some(FromVNode(a)), Diff(Some(a), Some(b))) == Some(FromVNode(b))
    decreases a
  {
    if a != b && a.tag == b.tag {
      forall k | 0 <= k < |a.children| && k < |b.children|
        ensures CanReconcile(Some(FromVNode(a.children[k])), Diff(Some(a.children[k]), Some(b.children[k])))
        ensures Reconciled(Some(FromVNode(a.children[k])), Diff(Some(a.children[k]), Some(b.children[k]))) ==
          Some(FromVNode(b.children[k]))
      {
        DiffReconcile(a.children[k], b.children[k]);
      }
      MirrorCanReconcile(a, b);
      var cc := ChildDiffs(a, b);
      var news := FromVNode(b).children;
      forall k | 0 <= k < |cc|
        ensures Kept(Reconciled(Get(FromVNode(a).children, k), cc[k])) == if k < |news| then [news[k]] else []
      {
        ChildKept(a, b, k);
      }
      PrefixKept(FromVNode(a).children, cc, news, |cc|);
      assert news[..|news|] == news;
    }
  }

  /** `WidgetTree::diff_root` (src/elements.rs:37-41). The source unwraps
      the reconciled tree, which is `None` only when nothing changed and
      there was no tree. */
  method DiffRoot(tree: Option<WidgetTree>, oldNode: Option<VNode>, newNode: VNode) returns (w: WidgetTree)
    requires CanReconcile(tree, Diff(oldNode, Some(newNode)))
    requires Reconciled(tree, Diff(oldNode, Some(newNode))).Some?
    ensures Some(w) == Reconciled(tree, Diff(oldNode, Some(newNode)))
    ensures oldNode.None? || tree == Some(FromVNode(oldNode.value)) ==> w == FromVNode(newNode)
  {
    var changes := DiffNodes(oldNode, Some(newNode));
    var newRoot := Reconcile(tree, changes);
    w := newRoot.value;
    if oldNode.Some? && tree == Some(FromVNode(oldNode.value)) {
      DiffReconcile(oldNode.value, newNode);
    }
  }

  // ---------------------------------------------------------------------
  // Text properties

  /** `TextProps` (src/elements.rs:117-121). */
  datatype TextProps = TextProps(position: Option<(real, real)>, text: Option<string>)

  /** `TextWidget::patch_props` (src/elements.rs:129-138): a property
      given as `Some` overwrites the field, `None` keeps it. */
  function PatchProps(w: TextWidget, props: TextProps): (r: TextWidget)
    ensures props.position.Some? ==> r.position == props.position.value
    ensures props.position.None? ==> r.position == w.position
    ensures props.text.Some? ==> r.text == props.text.value
    ensures props.text.None? ==> r.text == w.text
  {
    var w1 := if props.position.Some? then w.(position := props.position.value) else w;
    if props.text.Some? then w1.(text := props.text.value) else w1
  }

  /** `q`'s properties where given, `p`'s otherwise. */
  function Override(p: TextProps, q: TextProps): TextProps
  {
    TextProps(if q.position.Some? then q.position else p.position,
              if q.text.Some? then q.text else p.text)
  }

  /** Patching twice with the same properties changes nothing more. */
  lemma PatchIdempotent(w: TextWidget, p: TextProps)
    ensures PatchProps(PatchProps(w, p), p) == PatchProps(w, p)
  {
  }

  /** Empty properties leave the widget as it is. */
  lemma PatchNothing(w: TextWidget)
    ensures PatchProps(w, TextProps(None, None)) == w
  {
  }

  /** Two patches in a row are one patch with the later properties winning. */
  lemma PatchTwice(w: TextWidget, p: TextProps, q: TextProps)
    ensures PatchProps(PatchProps(w, p), q) == PatchProps(w, Override(p, q))
  {
  }
}
