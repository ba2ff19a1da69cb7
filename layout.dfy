/** Laying the grid out in a container of a new size. Every branch passes the change of
    its extent along its split axis to its last child; the change across the axis reaches
    every child, since all children of a branch share its cross extent. */
module Layout {
  import opened Locations
  import opened GridTree

  /** `n` with its extent along its parent's axis changed by `dAlong` and its parent's
      cross extent changed by `dAcross`. */
  function Adjust(n: Node, dAlong: int, dAcross: int): Node
    decreases n
  {
    match n
    case Leaf(v, s) => Leaf(v, s + dAlong)
    case Branch(cs, s) =>
      Branch(seq(|cs|, i requires 0 <= i < |cs| => Adjust(cs[i], if i == |cs| - 1 then dAcross else 0, dAlong)), s + dAlong)
  }

  /** Children whose sizes are the old ones with `d` added to the last sum to `d` more. */
  lemma {:induction false} SumSizesLast(cs: seq<Node>, ds: seq<Node>, d: int)
    requires |cs| == |ds| > 0
    requires forall i :: 0 <= i < |cs| ==> ds[i].size == cs[i].size + (if i == |cs| - 1 then d else 0)
    ensures SumSizes(ds) == SumSizes(cs) + d
    decreases |cs|
  {
    if |cs| > 1 {
      SumSizesLast(cs[1..], ds[1..], d);
    } else {
      assert cs[1..] == [] && ds[1..] == [];
    }
  }

  /** Layout keeps the tree's shape: the same views, the same nesting, and a node's size
      moves by exactly the change along its parent's axis. */
  lemma {:induction false} AdjustShape(n: Node, dAlong: int, dAcross: int)
    ensures var r := Adjust(n, dAlong, dAcross);
      r.size == n.size + dAlong && r.Leaf? == n.Leaf? &&
      (r.Leaf? ==> r.view == n.view) &&
      (r.Branch? ==> |r.children| == |n.children|) &&
      Names(r) == Names(n) && (WellFormed(n) ==> WellFormed(r))
    decreases n
  {
    if n.Branch? {
      var cs := n.children;
      var ds := Adjust(n, dAlong, dAcross).children;
      forall i | 0 <= i < |cs| ensures Names(ds[i]) == Names(cs[i]) && (WellFormed(cs[i]) ==> WellFormed(ds[i])) {
        AdjustShape(cs[i], if i == |cs| - 1 then dAcross else 0, dAlong);
      }
      ChildrenNamesPointwise(cs, ds);
    }
  }

  /** Layout keeps every branch filled: a node that filled its parent's cross extent
      fills the adjusted one. */
  lemma {:induction false} AdjustFits(n: Node, extent: int, dAlong: int, dAcross: int)
    requires Fits(n, extent) && WellFormed(n)
    ensures Fits(Adjust(n, dAlong, dAcross), extent + dAcross)
    decreases n
  {
    if n.Branch? {
      var cs := n.children;
      var ds := Adjust(n, dAlong, dAcross).children;
      forall i | 0 <= i < |cs|
        ensures ds[i].size == cs[i].size + (if i == |cs| - 1 then dAcross else 0)
        ensures Fits(ds[i], n.size + dAlong)
      {
        AdjustShape(cs[i], if i == |cs| - 1 then dAcross else 0, dAlong);
        AdjustFits(cs[i], n.size, if i == |cs| - 1 then dAcross else 0, dAlong);
      }
      SumSizesLast(cs, ds, dAcross);
    }
  }

  /** Adjusting by nothing changes nothing. */
  lemma {:induction false} AdjustZero(n: Node)
    ensures Adjust(n, 0, 0) == n
    decreases n
  {
    if n.Branch? {
      var cs := n.children;
      var ds := Adjust(n, 0, 0).children;
      forall i | 0 <= i < |cs| ensures ds[i] == cs[i] {
        AdjustZero(cs[i]);
      }
      assert ds == cs;
    }
  }

  /** Two adjustments in a row are one adjustment by the sum of the changes. */
  lemma {:induction false} AdjustCompose(n: Node, a: int, b: int, c: int, d: int)
    ensures Adjust(Adjust(n, a, b), c, d) == Adjust(n, a + c, b + d)
    decreases n
  {
    if n.Branch? {
      var cs := n.children;
      var once := Adjust(n, a, b).children;
      var twice := Adjust(Adjust(n, a, b), c, d).children;
      var direct := Adjust(n, a + c, b + d).children;
      forall i | 0 <= i < |cs| ensures twice[i] == direct[i] {
        var last := i == |cs| - 1;
        AdjustCompose(cs[i], if last then b else 0, a, if last then d else 0, c);
        assert (if last then b else 0) + (if last then d else 0) == (if last then b + d else 0);
      }
      assert twice == direct;
    }
  }

  /** The root laid out again, from a container of size `from` to one of size `to`. The
      root's own size is the container's extent across the root orientation, and its
      children share the container's extent along it. */
  function Relayout(root: Node, o: Orientation, from: Size, to: Size): (r: Node)
    ensures Names(r) == Names(root) && (WellFormed(root) ==> WellFormed(r))
    ensures FillsContainer(root, o, from) && WellFormed(root) ==> FillsContainer(r, o, to)
  {
    var dAlong, dAcross := Across(o, to) - Across(o, from), Along(o, to) - Along(o, from);
    AdjustShape(root, dAlong, dAcross);
    if FillsContainer(root, o, from) && WellFormed(root) then
      AdjustFits(root, Along(o, from), dAlong, dAcross);
      Adjust(root, dAlong, dAcross)
    else
      Adjust(root, dAlong, dAcross)
  }

  /** The root fills a container of size `container`. */
  predicate FillsContainer(root: Node, o: Orientation, container: Size) {
    root.Branch? && root.size == Across(o, container) && Fits(root, Along(o, container))
  }

  /** Laying out again at the same size changes nothing. */
  lemma RelayoutSame(root: Node, o: Orientation, size: Size)
    ensures Relayout(root, o, size, size) == root
  {
    AdjustZero(root);
  }

  /** Laying out at `mid` and then at `to` is laying out at `to` directly. */
  lemma RelayoutCompose(root: Node, o: Orientation, from: Size, mid: Size, to: Size)
    ensures Relayout(Relayout(root, o, from, mid), o, mid, to) == Relayout(root, o, from, to)
  {
    AdjustCompose(root, Across(o, mid) - Across(o, from), Along(o, mid) - Along(o, from),
      Across(o, to) - Across(o, mid), Along(o, to) - Along(o, mid));
  }

  /** A grid of one view that fills its container gives that view the whole container. */
  lemma SingleViewFills(root: Node, o: Orientation, container: Size)
    requires FillsContainer(root, o, container) && |root.children| == 1 && root.children[0].Leaf?
    ensures ViewSizes(root, o) == map[root.children[0].view.name := container]
  {
    var leaf := root.children[0];
    assert SumSizes(root.children) == leaf.size by {
      assert root.children[1..] == [];
    }
    assert Box(o, leaf.size, root.size) == container;
    assert root.children == [leaf];
    ChildrenSizesSingle(leaf, o, root.size);
  }
}
