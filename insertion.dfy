/** Adding a view next to a reference view: the tree change behind the grid's addView.
    The target location comes from the direction algebra; in axis the new leaf becomes a
    sibling of the reference, across the axis the reference is wrapped in a new branch of
    the orthogonal orientation. The new view gets `size` along the direction's axis, the
    reference gives that extent up, and both keep the reference's cross extent. */
module Insertion {
  import opened Locations
  import opened GridTree

  /** `loc` addresses a view's leaf in a grid whose root is a branch. */
  predicate IsViewLocation(root: Node, loc: Location) {
    root.Branch? && |loc| > 0 && ValidPath(root, loc) && At(root, loc).Leaf?
  }

  /** The tree after adding `view` with extent `size` on side `d` of the view at `refLoc`,
      in a grid whose root branch is split along `o`. */
  function Inserted(root: Node, o: Orientation, refLoc: Location, d: Direction, view: View, size: int): (r: Node)
    requires IsViewLocation(root, refLoc)
    ensures r.Branch? && r.size == root.size
  {
    var site := InsertionSite(root, o, refLoc, d, view, size);
    Replace(root, site.0, site.1)
  }

  /** The location the insertion rewrites and the node it puts there: in axis, the
      reference's parent with the new leaf among its children; across the axis, the
      reference's own leaf, wrapped together with the new leaf. */
  function InsertionSite(root: Node, o: Orientation, refLoc: Location, d: Direction, view: View, size: int): (site: (Location, Node))
    requires IsViewLocation(root, refLoc)
    ensures ValidPath(root, site.0)
    ensures |site.0| == 0 ==> site.1.Branch? && site.1.size == root.size
  {
    AtParent(root, refLoc);
    var target := GetRelativeLocation(o, refLoc, d);
    var parent := At(root, ParentPath(refLoc));
    if InAxis(o, refLoc, d) then
      (ParentPath(refLoc), WithSibling(parent, Last(refLoc), Last(target), view, size))
    else
      (refLoc, Wrapped(At(root, refLoc), parent.size, Last(target), view, size))
  }

  /** Branch `parent` with a leaf for `view` inserted at index `j`, next to its child `i`,
      which gives up `size`. */
  function WithSibling(parent: Node, i: nat, j: nat, view: View, size: int): Node
    requires parent.Branch? && i < |parent.children| && parent.children[i].Leaf? && (j == i || j == i + 1)
  {
    var reference := parent.children[i];
    var kept := parent.children[i := Leaf(reference.view, reference.size - size)];
    Branch(kept[..j] + [Leaf(view, size)] + kept[j..], parent.size)
  }

  /** A new branch in place of leaf `reference`, holding the reference (which keeps
      `across - size` of the parent's cross extent) and a leaf for `view` (first when
      `j == 0`, second otherwise). */
  function Wrapped(reference: Node, across: int, j: nat, view: View, size: int): Node
    requires reference.Leaf?
  {
    var added, shrunk := Leaf(view, size), Leaf(reference.view, across - size);
    Branch(if j == 0 then [added, shrunk] else [shrunk, added], reference.size)
  }

  /** Where the reference view sits once the new view has been added. */
  function ReferenceAfter(o: Orientation, refLoc: Location, d: Direction): Location
    requires |refLoc| > 0
  {
    if InAxis(o, refLoc, d) then
      if IsAfter(d) then refLoc else ParentPath(refLoc) + [Last(refLoc) + 1]
    else
      refLoc + [if IsAfter(d) then 0 else 1]
  }

  /** The children of the reference's parent after an in-axis insertion, as the children
      before and after the reference and the two nodes that now stand in its place. */
  lemma InAxisChildren(cs: seq<Node>, i: nat, shrunk: Node, added: Node, j: nat)
    requires i < |cs| && (j == i || j == i + 1)
    ensures var kept := cs[i := shrunk];
      kept[..j] + [added] + kept[j..] ==
      cs[..i] + (if j == i then [added, shrunk] else [shrunk, added]) + cs[i + 1..]
  {
    var kept := cs[i := shrunk];
    if j == i {
      assert kept[..j] == cs[..i];
      assert kept[j..] == [shrunk] + cs[i + 1..];
    } else {
      assert kept[..j] == cs[..i] + [shrunk];
      assert kept[j..] == cs[i + 1..];
    }
  }

  /** The names under the children before and after a run of replacements. */
  lemma ExchangeNames(a: seq<Node>, c: Node, mid: seq<Node>, b: seq<Node>)
    ensures ChildrenNames(a + mid + b) == ChildrenNames(a) + ChildrenNames(mid) + ChildrenNames(b)
    ensures ChildrenNames(a + [c] + b) == ChildrenNames(a) + Names(c) + ChildrenNames(b)
  {
    ChildrenNamesAppend(a + mid, b);
    ChildrenNamesAppend(a, mid);
    ChildrenNamesAppend(a + [c], b);
    ChildrenNamesAppend(a, [c]);
    ChildrenNamesSingle(c);
  }

  lemma PairNames(x: Node, y: Node)
    ensures ChildrenNames([x, y]) == Names(x) + Names(y)
  {
    assert [x, y] == [x] + [y];
    ChildrenNamesAppend([x], [y]);
    ChildrenNamesSingle(x);
    ChildrenNamesSingle(y);
  }

  /** Where each child of `a + mid + b` comes from. */
  lemma ExchangeIndex(a: seq<Node>, mid: seq<Node>, b: seq<Node>, k: nat)
    requires k < |a + mid + b|
    ensures k < |a| ==> (a + mid + b)[k] == a[k]
    ensures |a| <= k < |a| + |mid| ==> (a + mid + b)[k] == mid[k - |a|]
    ensures |a| + |mid| <= k ==> (a + mid + b)[k] == b[k - |a| - |mid|]
  {
  }

  /** The index in `a + [c] + b` of the child that the k-th child of `a + mid + b` stands
      for: itself outside `mid`, `c`'s index inside it. */
  function Origin(a: seq<Node>, mid: seq<Node>, k: nat): nat {
    if k < |a| then k else if k < |a| + |mid| then |a| else k - |mid| + 1
  }

  lemma OriginIndex(a: seq<Node>, c: Node, mid: seq<Node>, b: seq<Node>, k: nat)
    requires k < |a + mid + b|
    ensures Origin(a, mid, k) < |a + [c] + b|
    ensures Origin(a, mid, k) == |a| <==> |a| <= k < |a| + |mid|
    ensures Origin(a, mid, k) != |a| ==> (a + mid + b)[k] == (a + [c] + b)[Origin(a, mid, k)]
    ensures Origin(a, mid, k) == |a| ==> (a + mid + b)[k] == mid[k - |a|] && (a + [c] + b)[|a|] == c
  {
    ExchangeIndex(a, mid, b, k);
    ExchangeIndex(a, [c], b, Origin(a, mid, k));
  }

  /** Exchanging a child `c` for children `mid` that hold the views of `c` plus views new
      to the branch keeps the branch well-formed. */
  lemma ExchangeWellFormed(a: seq<Node>, c: Node, mid: seq<Node>, b: seq<Node>, extra: set<string>, size: int)
    requires WellFormed(Branch(a + [c] + b, size))
    requires forall t :: 0 <= t < |mid| ==> WellFormed(mid[t])
    requires forall t, u :: 0 <= t < u < |mid| ==> Names(mid[t]) !! Names(mid[u])
    requires forall t :: 0 <= t < |mid| ==> Names(mid[t]) <= Names(c) + extra
    requires extra !! ChildrenNames(a + [c] + b)
    requires |mid| > 0
    ensures WellFormed(Branch(a + mid + b, size))
  {
    var cs, ds := a + [c] + b, a + mid + b;
    forall k | 0 <= k < |ds| ensures WellFormed(ds[k]) {
      OriginIndex(a, c, mid, b, k);
    }
    forall k, l | 0 <= k < l < |ds| ensures Names(ds[k]) !! Names(ds[l]) {
      ExchangeDisjoint(a, c, mid, b, extra, size, k, l);
    }
  }

  lemma ExchangeDisjoint(a: seq<Node>, c: Node, mid: seq<Node>, b: seq<Node>, extra: set<string>, size: int, k: nat, l: nat)
    requires WellFormed(Branch(a + [c] + b, size))
    requires forall t, u :: 0 <= t < u < |mid| ==> Names(mid[t]) !! Names(mid[u])
    requires forall t :: 0 <= t < |mid| ==> Names(mid[t]) <= Names(c) + extra
    requires extra !! ChildrenNames(a + [c] + b)
    requires k < l < |a + mid + b|
    ensures Names((a + mid + b)[k]) !! Names((a + mid + b)[l])
  {
    var cs, ds := a + [c] + b, a + mid + b;
    OriginIndex(a, c, mid, b, k);
    OriginIndex(a, c, mid, b, l);
    var k', l' := Origin(a, mid, k), Origin(a, mid, l);
    assert Names(cs[k']) <= ChildrenNames(cs) && Names(cs[l']) <= ChildrenNames(cs);
    if k' != |a| && l' != |a| {
      assert k' < l';
      assert Names(cs[k']) !! Names(cs[l']);
    } else if k' == |a| && l' == |a| {
      assert Names(mid[k - |a|]) !! Names(mid[l - |a|]);
    } else if k' == |a| {
      assert Names(cs[l']) !! Names(c);
    } else {
      assert Names(cs[k']) !! Names(c);
    }
  }

  /** Exchanging a leaf `c` for two leaves, one holding `c`'s view and one a new view. */
  lemma PairWellFormed(a: seq<Node>, c: Node, x: Node, y: Node, b: seq<Node>, extra: set<string>, size: int)
    requires c.Leaf? && x.Leaf? && y.Leaf?
    requires WellFormed(Branch(a + [c] + b, size))
    requires Names(x) + Names(y) == Names(c) + extra && Names(x) !! Names(y)
    requires extra !! ChildrenNames(a + [c] + b)
    ensures WellFormed(Branch(a + [x, y] + b, size))
    ensures ChildrenNames(a + [x, y] + b) == ChildrenNames(a + [c] + b) + extra
  {
    var mid := [x, y];
    ExchangeWellFormed(a, c, mid, b, extra, size);
    ExchangeNames(a, c, mid, b);
    PairNames(x, y);
  }

  /** In axis: the parent with its new child is well-formed and holds one view more. */
  lemma WithSiblingShape(parent: Node, i: nat, j: nat, view: View, size: int)
    requires parent.Branch? && i < |parent.children| && parent.children[i].Leaf? && (j == i || j == i + 1)
    requires WellFormed(parent) && view.name !in Names(parent)
    ensures var m := WithSibling(parent, i, j, view, size);
      m.Branch? && m.size == parent.size && WellFormed(m) && Names(m) == Names(parent) + {view.name}
  {
    var cs := parent.children;
    var shrunk := Leaf(cs[i].view, cs[i].size - size);
    var added := Leaf(view, size);
    var a, b := cs[..i], cs[i + 1..];
    var x, y := if j == i then added else shrunk, if j == i then shrunk else added;
    assert cs == a + [cs[i]] + b;
    InAxisChildren(cs, i, shrunk, added, j);
    assert WithSibling(parent, i, j, view, size).children == a + [x, y] + b;
    PairNames(x, y);
    PairWellFormed(a, cs[i], x, y, b, {view.name}, parent.size);
  }

  /** Exchanging a child for children of the same total extent keeps the sum. */
  lemma ExchangeSum(a: seq<Node>, c: Node, mid: seq<Node>, b: seq<Node>)
    requires SumSizes(mid) == c.size
    ensures SumSizes(a + mid + b) == SumSizes(a + [c] + b)
  {
    SumSizesAppend(a + mid, b);
    SumSizesAppend(a, mid);
    SumSizesAppend(a + [c], b);
    SumSizesAppend(a, [c]);
    assert SumSizes([c]) == c.size by { assert [c][1..] == []; }
  }

  /** In axis: the parent with its new child still fills its extent. */
  lemma WithSiblingFits(parent: Node, i: nat, j: nat, view: View, size: int, extent: int)
    requires parent.Branch? && i < |parent.children| && parent.children[i].Leaf? && (j == i || j == i + 1)
    requires Fits(parent, extent)
    ensures Fits(WithSibling(parent, i, j, view, size), extent)
  {
    var cs := parent.children;
    var shrunk := Leaf(cs[i].view, cs[i].size - size);
    var added := Leaf(view, size);
    var a, b := cs[..i], cs[i + 1..];
    var mid := if j == i then [added, shrunk] else [shrunk, added];
    var ds := a + mid + b;
    assert cs == a + [cs[i]] + b;
    InAxisChildren(cs, i, shrunk, added, j);
    PairSum(mid[0], mid[1]);
    assert mid == [mid[0], mid[1]];
    ExchangeSum(a, cs[i], mid, b);
    forall k | 0 <= k < |ds| ensures Fits(ds[k], parent.size) {
      ExchangeIndex(a, mid, b, k);
      if k >= |a| + |mid| {
        assert ds[k] == cs[k - 1];
      }
    }
  }

  /** In axis: the new view gets `size` along the parent's axis, the reference gives it
      up, both share the parent's cross extent, and every other child keeps its views' sizes. */
  lemma WithSiblingSizes(parent: Node, i: nat, j: nat, view: View, size: int, o: Orientation, v: string)
    requires parent.Branch? && i < |parent.children| && parent.children[i].Leaf? && (j == i || j == i + 1)
    requires WellFormed(parent) && view.name !in Names(parent)
    ensures var reference := parent.children[i];
      var before := ChildrenSizes(parent.children, o, parent.size);
      var after := ChildrenSizes(WithSibling(parent, i, j, view, size).children, o, parent.size);
      view.name in after && after[view.name] == Box(o, size, parent.size) &&
      reference.view.name in after && after[reference.view.name] == Box(o, reference.size - size, parent.size) &&
      (v != view.name && v != reference.view.name ==> AgreeAt(after, before, v))
  {
    var cs := parent.children;
    var reference := cs[i];
    var ref := reference.view.name;
    var shrunk := Leaf(reference.view, reference.size - size);
    var added := Leaf(view, size);
    var a, b := cs[..i], cs[i + 1..];
    var mid := if j == i then [added, shrunk] else [shrunk, added];
    var m := WithSibling(parent, i, j, view, size);
    var ds := m.children;
    assert cs == a + [reference] + b;
    InAxisChildren(cs, i, shrunk, added, j);
    assert ds == a + mid + b;
    WithSiblingShape(parent, i, j, view, size);
    var jr := if j == i then i + 1 else i;
    assert ds[j] == added && ds[jr] == shrunk;
    forall l | j < l < |ds| ensures view.name !in Names(ds[l]) {
      assert Names(ds[j]) !! Names(ds[l]);
    }
    forall l | jr < l < |ds| ensures ref !in Names(ds[l]) {
      assert Names(ds[jr]) !! Names(ds[l]);
    }
    ChildLookup(ds, o, parent.size, j, view.name);
    ChildLookup(ds, o, parent.size, jr, ref);
    if v != view.name && v != ref {
      PairNames(added, shrunk);
      PairNames(shrunk, added);
      ChildrenExchangeAgree(a, reference, mid, b, o, parent.size, v);
    }
  }

  lemma PairSum(x: Node, y: Node)
    ensures SumSizes([x, y]) == x.size + y.size
  {
    assert SumSizes([y]) == y.size by { assert [y][1..] == []; }
    assert [x, y][1..] == [y];
  }

  lemma PairSizes(x: Node, y: Node, o: Orientation, across: int)
    ensures ChildrenSizes([x, y], o, across) == Sizes(x, o, across) + Sizes(y, o, across)
  {
    assert [x, y][1..] == [y];
    ChildrenSizesSingle(y, o, across);
  }

  /** Across the axis: the new branch is well-formed, holds the reference and the new view,
      has the reference's size. */
  lemma WrappedShape(reference: Node, across: int, j: nat, view: View, size: int)
    requires reference.Leaf? && view.name !in Names(reference)
    ensures var m := Wrapped(reference, across, j, view, size);
      m.Branch? && m.size == reference.size && WellFormed(m) &&
      Names(m) == Names(reference) + {view.name}
  {
    var added, shrunk := Leaf(view, size), Leaf(reference.view, across - size);
    PairNames(added, shrunk);
    PairNames(shrunk, added);
  }

  /** Across the axis: the new branch fills the parent's cross extent. */
  lemma WrappedFits(reference: Node, across: int, j: nat, view: View, size: int)
    requires reference.Leaf?
    ensures Fits(Wrapped(reference, across, j, view, size), across)
  {
    var added, shrunk := Leaf(view, size), Leaf(reference.view, across - size);
    PairSum(added, shrunk);
    PairSum(shrunk, added);
  }

  /** Across the axis: the two views of the new branch split the parent's cross extent
      along the orthogonal axis, and both keep the reference's extent along the parent's. */
  lemma WrappedSizes(reference: Node, across: int, j: nat, view: View, size: int, o: Orientation)
    requires reference.Leaf? && view.name != reference.view.name
    ensures Sizes(Wrapped(reference, across, j, view, size), o, across) ==
      map[view.name := Box(Orthogonal(o), size, reference.size),
          reference.view.name := Box(Orthogonal(o), across - size, reference.size)]
  {
    var added, shrunk := Leaf(view, size), Leaf(reference.view, across - size);
    PairSizes(added, shrunk, Orthogonal(o), reference.size);
    PairSizes(shrunk, added, Orthogonal(o), reference.size);
  }

  /** Adding a view keeps the tree well-formed and adds exactly the new view. */
  lemma InsertedShape(root: Node, o: Orientation, refLoc: Location, d: Direction, view: View, size: int)
    requires IsViewLocation(root, refLoc) && WellFormed(root)
    requires view.name !in Names(root)
    ensures var r := Inserted(root, o, refLoc, d, view, size);
      r.Branch? && r.size == root.size && WellFormed(r) && Names(r) == Names(root) + {view.name}
  {
    AtParent(root, refLoc);
    var site := InsertionSite(root, o, refLoc, d, view, size);
    var pp := ParentPath(refLoc);
    NamesAt(root, site.0);
    WellFormedAt(root, site.0);
    if InAxis(o, refLoc, d) {
      InAxisInsertion(o, refLoc, d);
      WithSiblingShape(At(root, pp), Last(refLoc), Last(GetRelativeLocation(o, refLoc, d)), view, size);
    } else {
      WrappedShape(At(root, refLoc), At(root, pp).size, Last(GetRelativeLocation(o, refLoc, d)), view, size);
    }
    ReplaceNames(root, site.0, site.1, {view.name});
    ReplaceWellFormed(root, site.0, site.1, {view.name});
  }

  /** Adding a view keeps every branch filled: siblings' extents still sum to their
      parent's. */
  lemma InsertedFits(root: Node, o: Orientation, refLoc: Location, d: Direction, view: View, size: int, extent: int)
    requires IsViewLocation(root, refLoc) && Fits(root, extent)
    ensures Fits(Inserted(root, o, refLoc, d, view, size), extent)
  {
    AtParent(root, refLoc);
    var j := Last(GetRelativeLocation(o, refLoc, d));
    if InAxis(o, refLoc, d) {
      InAxisInsertion(o, refLoc, d);
      SiblingFits(root, ParentPath(refLoc), Last(refLoc), j, view, size, extent);
    } else {
      WrappedFits(At(root, refLoc), At(root, ParentPath(refLoc)).size, j, view, size);
      ReplaceFits(root, refLoc, Wrapped(At(root, refLoc), At(root, ParentPath(refLoc)).size, j, view, size), extent);
    }
  }

  lemma SiblingFits(root: Node, pp: Location, i: nat, j: nat, view: View, size: int, extent: int)
    requires ValidPath(root, pp) && Fits(root, extent)
    requires At(root, pp).Branch? && i < |At(root, pp).children| && At(root, pp).children[i].Leaf? && (j == i || j == i + 1)
    ensures Fits(Replace(root, pp, WithSibling(At(root, pp), i, j, view, size)), extent)
  {
    var parent := At(root, pp);
    if |pp| > 0 {
      FitsAt(root, pp, extent);
      WithSiblingFits(parent, i, j, view, size, At(root, ParentPath(pp)).size);
    } else {
      WithSiblingFits(parent, i, j, view, size, extent);
    }
    ReplaceFits(root, pp, WithSibling(parent, i, j, view, size), extent);
  }

  /** The new view sits at the location the direction algebra computed, the reference is
      its sibling on the other side, and their branch is split along the direction's axis:
      the new view is the reference's neighbour on side `d`. */
  lemma InsertedPlacement(root: Node, o: Orientation, refLoc: Location, d: Direction, view: View, size: int)
    requires IsViewLocation(root, refLoc)
    ensures var r := Inserted(root, o, refLoc, d, view, size);
      var target := GetRelativeLocation(o, refLoc, d);
      var after := ReferenceAfter(o, refLoc, d);
      ValidPath(r, target) && At(r, target) == Leaf(view, size) &&
      ValidPath(r, after) && At(r, after).Leaf? && At(r, after).view == At(root, refLoc).view &&
      |after| == |target| && ParentPath(after) == ParentPath(target) &&
      LocationOrientation(o, target) == DirectionOrientation(d) &&
      (if IsAfter(d) then Last(target) == Last(after) + 1 else Last(after) == Last(target) + 1)
  {
    if InAxis(o, refLoc, d) {
      InAxisPlacement(root, o, refLoc, d, view, size);
    } else {
      CrossAxisPlacement(root, o, refLoc, d, view, size);
    }
  }

  /** The in-axis half of InsertedPlacement. */
  lemma InAxisPlacement(root: Node, o: Orientation, refLoc: Location, d: Direction, view: View, size: int)
    requires IsViewLocation(root, refLoc) && InAxis(o, refLoc, d)
    ensures var r := Inserted(root, o, refLoc, d, view, size);
      var target := GetRelativeLocation(o, refLoc, d);
      var after := ReferenceAfter(o, refLoc, d);
      ValidPath(r, target) && At(r, target) == Leaf(view, size) &&
      ValidPath(r, after) && At(r, after).Leaf? && At(r, after).view == At(root, refLoc).view &&
      |after| == |target| && ParentPath(after) == ParentPath(target) &&
      LocationOrientation(o, target) == DirectionOrientation(d) &&
      (if IsAfter(d) then Last(target) == Last(after) + 1 else Last(after) == Last(target) + 1)
  {
    AtParent(root, refLoc);
    var site := InsertionSite(root, o, refLoc, d, view, size);
    var target := GetRelativeLocation(o, refLoc, d);
    var after := ReferenceAfter(o, refLoc, d);
    var pp := ParentPath(refLoc);
    var parent := At(root, pp);
    var reference := At(root, refLoc);
    var added := Leaf(view, size);
    InAxisInsertion(o, refLoc, d);
    var i, j, k := Last(refLoc), Last(target), Last(after);
    var shrunk := Leaf(reference.view, reference.size - size);
    assert target == pp + [j] && after == pp + [k];
    InAxisChildren(parent.children, i, shrunk, added, j);
    assert site.1.children[j] == added && site.1.children[k] == shrunk;
    AtReplaceBelow(root, pp, site.1, [j]);
    AtReplaceBelow(root, pp, site.1, [k]);
  }

  /** The cross-axis half of InsertedPlacement. */
  lemma CrossAxisPlacement(root: Node, o: Orientation, refLoc: Location, d: Direction, view: View, size: int)
    requires IsViewLocation(root, refLoc) && !InAxis(o, refLoc, d)
    ensures var r := Inserted(root, o, refLoc, d, view, size);
      var target := GetRelativeLocation(o, refLoc, d);
      var after := ReferenceAfter(o, refLoc, d);
      ValidPath(r, target) && At(r, target) == Leaf(view, size) &&
      ValidPath(r, after) && At(r, after).Leaf? && At(r, after).view == At(root, refLoc).view &&
      |after| == |target| && ParentPath(after) == ParentPath(target) &&
      LocationOrientation(o, target) == DirectionOrientation(d) &&
      (if IsAfter(d) then Last(target) == Last(after) + 1 else Last(after) == Last(target) + 1)
  {
    AtParent(root, refLoc);
    var site := InsertionSite(root, o, refLoc, d, view, size);
    var target := GetRelativeLocation(o, refLoc, d);
    var after := ReferenceAfter(o, refLoc, d);
    CrossAxisInsertion(o, refLoc, d);
    assert target == refLoc + [Last(target)] && after == refLoc + [Last(after)];
    AtReplaceBelow(root, refLoc, site.1, [Last(target)]);
    AtReplaceBelow(root, refLoc, site.1, [Last(after)]);
  }

  /** The size change of an insertion, as the grid's views see it: the new view gets
      `size` along the direction's axis and the reference's extent across it; the
      reference gives up `size` along the axis and keeps its cross extent. */
  predicate SizesAfterInsertion(before: map<string, Size>, after: map<string, Size>, ref: string, added: string, axis: Orientation, size: int) {
    ref in before && ref in after && added in after &&
    Along(axis, after[added]) == size &&
    Across(axis, after[added]) == Across(axis, before[ref]) &&
    Along(axis, after[ref]) == Along(axis, before[ref]) - size &&
    Across(axis, after[ref]) == Across(axis, before[ref])
  }

  /** The size map after an insertion, from the one before: the reference's entry loses
      `size` along `axis`, and the new view's entry has `size` along it and the
      reference's extent across it. */
  function SizesAfterAdding(before: map<string, Size>, ref: string, added: string, axis: Orientation, size: int): map<string, Size>
    requires ref in before
  {
    var was := before[ref];
    before[ref := Box(axis, Along(axis, was) - size, Across(axis, was))][added := Box(axis, size, Across(axis, was))]
  }

  /** The whole size map after adding a view: two entries change, and nothing else. */
  lemma InsertedSizeMap(root: Node, o: Orientation, refLoc: Location, d: Direction, view: View, size: int)
    requires IsViewLocation(root, refLoc) && WellFormed(root)
    requires view.name !in Names(root)
    ensures var ref := At(root, refLoc).view.name;
      ref in ViewSizes(root, o) &&
      ViewSizes(Inserted(root, o, refLoc, d, view, size), o) ==
        SizesAfterAdding(ViewSizes(root, o), ref, view.name, DirectionOrientation(d), size)
  {
    var ref := At(root, refLoc).view.name;
    var r := Inserted(root, o, refLoc, d, view, size);
    InsertedSizes(root, o, refLoc, d, view, size);
    InsertedShape(root, o, refLoc, d, view, size);
    ChildrenSizesKeys(root.children, o, root.size);
    ChildrenSizesKeys(r.children, o, r.size);
    SizeMapUpdate(ViewSizes(root, o), ViewSizes(r, o), ref, view.name, DirectionOrientation(d), size);
  }

  /** Two size maps related as an insertion relates them are one update apart. */
  lemma SizeMapUpdate(before: map<string, Size>, after: map<string, Size>, ref: string, added: string, axis: Orientation, size: int)
    requires after.Keys == before.Keys + {added} && added !in before
    requires SizesAfterInsertion(before, after, ref, added, axis, size)
    requires forall v :: v != added && v != ref ==> AgreeAt(after, before, v)
    ensures after == SizesAfterAdding(before, ref, added, axis, size)
  {
    var expected := SizesAfterAdding(before, ref, added, axis, size);
    assert after.Keys == expected.Keys;
    forall k | k in after ensures after[k] == expected[k] {
      if k != added && k != ref {
        assert AgreeAt(after, before, k);
      }
    }
  }

  /** The sizes after adding a view: the new view and the reference share the reference's
      old extent along the direction's axis, and every other view keeps its size. */
  lemma InsertedSizes(root: Node, o: Orientation, refLoc: Location, d: Direction, view: View, size: int)
    requires IsViewLocation(root, refLoc) && WellFormed(root)
    requires view.name !in Names(root)
    ensures var ref := At(root, refLoc).view.name;
      var before, after := ViewSizes(root, o), ViewSizes(Inserted(root, o, refLoc, d, view, size), o);
      SizesAfterInsertion(before, after, ref, view.name, DirectionOrientation(d), size) &&
      forall v :: v != view.name && v != ref ==> AgreeAt(after, before, v)
  {
    AtParent(root, refLoc);
    InsertedShape(root, o, refLoc, d, view, size);
    var r := Inserted(root, o, refLoc, d, view, size);
    var site := InsertionSite(root, o, refLoc, d, view, size);
    var pp := ParentPath(refLoc);
    var parent := At(root, pp);
    var reference := At(root, refLoc);
    var ref := reference.view.name;
    var po := Orthogonal(o);
    NamesAt(root, refLoc);
    RootSizes(root, o, 0);
    RootSizes(r, o, 0);
    RootContext(root, o, refLoc, 0);
    var co := LocationOrientation(o, refLoc);
    AtInside(root, refLoc, po, 0, ref);
    assert ViewSizes(root, o)[ref] == Box(co, reference.size, parent.size);
    if InAxis(o, refLoc, d) {
      InAxisSizes(root, o, refLoc, d, view, size);
    } else {
      CrossAxisInsertion(o, refLoc, d);
      var j := Last(GetRelativeLocation(o, refLoc, d));
      assert site.0 == refLoc;
      WrappedSizes(reference, parent.size, j, view, size, co);
      WrappedShape(reference, parent.size, j, view, size);
      ReplaceInside(root, refLoc, site.1, po, 0, view.name);
      ReplaceInside(root, refLoc, site.1, po, 0, ref);
      forall v | v != view.name && v != ref
        ensures AgreeAt(ViewSizes(r, o), ViewSizes(root, o), v)
      {
        ReplaceFrame(root, refLoc, site.1, po, 0, v);
      }
    }
  }

  /** The in-axis half of InsertedSizes. */
  lemma InAxisSizes(root: Node, o: Orientation, refLoc: Location, d: Direction, view: View, size: int)
    requires IsViewLocation(root, refLoc) && WellFormed(root) && InAxis(o, refLoc, d)
    requires view.name !in Names(root)
    ensures var ref := At(root, refLoc).view.name;
      var before, after := ViewSizes(root, o), ViewSizes(Inserted(root, o, refLoc, d, view, size), o);
      SizesAfterInsertion(before, after, ref, view.name, DirectionOrientation(d), size) &&
      forall v :: v != view.name && v != ref ==> AgreeAt(after, before, v)
  {
    AtParent(root, refLoc);
    InsertedShape(root, o, refLoc, d, view, size);
    var pp, i, j := InAxisSite(root, o, refLoc, d, view, size);
    var ref := At(root, refLoc).view.name;
    var r := Replace(root, pp, WithSibling(At(root, pp), i, j, view, size));
    SiblingAxis(root, o, refLoc);
    SiblingSizes(root, o, pp, i, j, view, size);
    forall v | v != view.name && v != ref
      ensures AgreeAt(ViewSizes(r, o), ViewSizes(root, o), v)
    {
      SiblingFrame(root, o, pp, i, j, view, size, v);
    }
  }

  /** In axis, the insertion rewrites the reference's parent. */
  lemma InAxisSite(root: Node, o: Orientation, refLoc: Location, d: Direction, view: View, size: int)
    returns (pp: Location, i: nat, j: nat)
    requires IsViewLocation(root, refLoc) && InAxis(o, refLoc, d)
    ensures pp == ParentPath(refLoc) && i == Last(refLoc) && ValidPath(root, pp)
    ensures At(root, pp).Branch? && i < |At(root, pp).children| && At(root, pp).children[i] == At(root, refLoc)
    ensures j == i || j == i + 1
    ensures Inserted(root, o, refLoc, d, view, size) == Replace(root, pp, WithSibling(At(root, pp), i, j, view, size))
  {
    AtParent(root, refLoc);
    InAxisInsertion(o, refLoc, d);
    pp, i, j := ParentPath(refLoc), Last(refLoc), Last(GetRelativeLocation(o, refLoc, d));
  }

  /** The reference's parent is split along the axis the reference's location gives. */
  lemma SiblingAxis(root: Node, o: Orientation, refLoc: Location)
    requires root.Branch? && |refLoc| > 0 && ValidPath(root, refLoc)
    ensures ValidPath(root, ParentPath(refLoc))
    ensures Orthogonal(Context(root, ParentPath(refLoc), Orthogonal(o), 0).0) == LocationOrientation(o, refLoc)
  {
    AtParent(root, refLoc);
    var pp := ParentPath(refLoc);
    ContextChild(root, pp, Last(refLoc), Orthogonal(o), 0);
    assert pp + [Last(refLoc)] == refLoc;
    RootContext(root, o, refLoc, 0);
  }

  /** In axis, with the parent split along `axis`: the new view and the reference share
      the reference's old extent along it, and both have the parent's cross extent. */
  lemma SiblingSizes(root: Node, o: Orientation, pp: Location, i: nat, j: nat, view: View, size: int)
    requires root.Branch? && WellFormed(root) && ValidPath(root, pp) && view.name !in Names(root)
    requires At(root, pp).Branch? && i < |At(root, pp).children| && At(root, pp).children[i].Leaf? && (j == i || j == i + 1)
    requires WellFormed(Replace(root, pp, WithSibling(At(root, pp), i, j, view, size)))
    ensures var parent := At(root, pp);
      var reference := parent.children[i];
      var r := Replace(root, pp, WithSibling(parent, i, j, view, size));
      var axis := Orthogonal(Context(root, pp, Orthogonal(o), 0).0);
      r.Branch? &&
      reference.view.name in ViewSizes(root, o) &&
      ViewSizes(root, o)[reference.view.name] == Box(axis, reference.size, parent.size) &&
      view.name in ViewSizes(r, o) && ViewSizes(r, o)[view.name] == Box(axis, size, parent.size) &&
      reference.view.name in ViewSizes(r, o) &&
      ViewSizes(r, o)[reference.view.name] == Box(axis, reference.size - size, parent.size)
  {
    var parent := At(root, pp);
    var reference := parent.children[i];
    SiblingSize(root, o, pp, i, j, view, size, view.name, size);
    SiblingSize(root, o, pp, i, j, view, size, reference.view.name, reference.size - size);
    ReferenceSize(root, o, pp, i);
  }

  /** One of the two views the in-axis insertion resizes, given the extent along the
      parent's axis that WithSiblingSizes assigns it. */
  lemma SiblingSize(root: Node, o: Orientation, pp: Location, i: nat, j: nat, view: View, size: int, v: string, along: int)
    requires root.Branch? && WellFormed(root) && ValidPath(root, pp) && view.name !in Names(root)
    requires At(root, pp).Branch? && i < |At(root, pp).children| && At(root, pp).children[i].Leaf? && (j == i || j == i + 1)
    requires WellFormed(Replace(root, pp, WithSibling(At(root, pp), i, j, view, size)))
    requires (v == view.name && along == size) ||
      (v == At(root, pp).children[i].view.name && along == At(root, pp).children[i].size - size)
    ensures var parent := At(root, pp);
      var r := Replace(root, pp, WithSibling(parent, i, j, view, size));
      var axis := Orthogonal(Context(root, pp, Orthogonal(o), 0).0);
      r.Branch? && v in ViewSizes(r, o) && ViewSizes(r, o)[v] == Box(axis, along, parent.size)
  {
    var parent := At(root, pp);
    var m := WithSibling(parent, i, j, view, size);
    var r := Replace(root, pp, m);
    var po := Orthogonal(o);
    assert r.Branch? by {
      if |pp| == 0 { assert r == m; }
    }
    var pctx := Context(root, pp, po, 0);
    var axis := Orthogonal(pctx.0);
    NamesAt(root, pp);
    WellFormedAt(root, pp);
    RootSizes(r, o, 0);
    WithSiblingShape(parent, i, j, view, size);
    WithSiblingSizes(parent, i, j, view, size, axis, v);
    ReplaceInside(root, pp, m, po, 0, v);
  }

  /** Before the insertion, the reference has its own extent along its parent's axis and
      the parent's cross extent. */
  lemma ReferenceSize(root: Node, o: Orientation, pp: Location, i: nat)
    requires root.Branch? && WellFormed(root) && ValidPath(root, pp)
    requires At(root, pp).Branch? && i < |At(root, pp).children| && At(root, pp).children[i].Leaf?
    ensures var parent := At(root, pp);
      var reference := parent.children[i];
      var axis := Orthogonal(Context(root, pp, Orthogonal(o), 0).0);
      reference.view.name in ViewSizes(root, o) &&
      ViewSizes(root, o)[reference.view.name] == Box(axis, reference.size, parent.size)
  {
    var parent := At(root, pp);
    var reference := parent.children[i];
    var ref := reference.view.name;
    var po := Orthogonal(o);
    var axis := Orthogonal(Context(root, pp, po, 0).0);
    WellFormedAt(root, pp);
    RootSizes(root, o, 0);
    assert ref in Names(parent) by {
      assert ref in Names(reference);
    }
    AtInside(root, pp, po, 0, ref);
    ChildLookupUnique(parent.children, axis, parent.size, i, ref);
  }

  /** In axis, a view other than the new one and the reference keeps its size. */
  lemma SiblingFrame(root: Node, o: Orientation, pp: Location, i: nat, j: nat, view: View, size: int, v: string)
    requires root.Branch? && WellFormed(root) && ValidPath(root, pp) && view.name !in Names(root)
    requires At(root, pp).Branch? && i < |At(root, pp).children| && At(root, pp).children[i].Leaf? && (j == i || j == i + 1)
    requires v != view.name && v != At(root, pp).children[i].view.name
    requires WellFormed(Replace(root, pp, WithSibling(At(root, pp), i, j, view, size)))
    ensures var r := Replace(root, pp, WithSibling(At(root, pp), i, j, view, size));
      r.Branch? && AgreeAt(ViewSizes(r, o), ViewSizes(root, o), v)
  {
    var parent := At(root, pp);
    var m := WithSibling(parent, i, j, view, size);
    var r := Replace(root, pp, m);
    var po := Orthogonal(o);
    assert r.Branch? by {
      if |pp| == 0 { assert r == m; }
    }
    RootSizes(root, o, 0);
    RootSizes(r, o, 0);
    NamesAt(root, pp);
    WellFormedAt(root, pp);
    WithSiblingShape(parent, i, j, view, size);
    if v in Names(parent) {
      var pctx := Context(root, pp, po, 0);
      WithSiblingSizes(parent, i, j, view, size, Orthogonal(pctx.0), v);
      ReplaceAgree(root, pp, m, po, 0, v);
    } else {
      ReplaceFrame(root, pp, m, po, 0, v);
    }
  }
}
