/** The grid's tree of views: leaves hold one view each, branches split their extent
    among their children along an axis that alternates with depth. Orientation is never
    stored in a node; it follows from the root orientation and the depth. */
module GridTree {
  import opened Wrappers
  import opened Locations

  /** A view's maximum width or height; the largest number reads as no bound at all. */
  datatype Bound = Unbounded | AtMost(limit: nat)

  /** A view with its size constraints. Its name is its identity in the grid. */
  datatype View = View(name: string, minimumWidth: nat, maximumWidth: Bound, minimumHeight: nat, maximumHeight: Bound)

  /** A view's assigned size, as `[width, height]`. */
  datatype Size = Size(width: int, height: int)

  /** `size` is the node's extent along the split axis of the branch that holds it. For a
      branch that is the extent across its own split axis, which every child shares; for
      the root branch it is the container's extent across the root orientation. */
  datatype Node = Leaf(view: View, size: int) | Branch(children: seq<Node>, size: int)

  // ---------------------------------------------------------------- names

  /** The names of the views under `n`. */
  function Names(n: Node): set<string>
    decreases n
  {
    match n
    case Leaf(v, _) => {v.name}
    case Branch(cs, _) => ChildrenNames(cs)
  }

  function ChildrenNames(cs: seq<Node>): set<string>
    decreases cs
  {
    set i, x | 0 <= i < |cs| && x in Names(cs[i]) :: x
  }

  /** Every branch has a child and no view appears under two siblings, so every view is
      held by exactly one leaf. */
  predicate WellFormed(n: Node) {
    match n
    case Leaf(_, _) => true
    case Branch(cs, _) =>
      |cs| > 0 &&
      (forall i, j :: 0 <= i < j < |cs| ==> Names(cs[i]) !! Names(cs[j])) &&
      (forall i :: 0 <= i < |cs| ==> WellFormed(cs[i]))
  }

  lemma ChildrenNamesAppend(a: seq<Node>, b: seq<Node>)
    ensures ChildrenNames(a + b) == ChildrenNames(a) + ChildrenNames(b)
  {
    forall x | x in ChildrenNames(a + b) ensures x in ChildrenNames(a) + ChildrenNames(b) {
      var i :| 0 <= i < |a + b| && x in Names((a + b)[i]);
      if i < |a| {
        assert (a + b)[i] == a[i];
      } else {
        assert (a + b)[i] == b[i - |a|];
      }
    }
    forall x | x in ChildrenNames(a) + ChildrenNames(b) ensures x in ChildrenNames(a + b) {
      if x in ChildrenNames(a) {
        var i :| 0 <= i < |a| && x in Names(a[i]);
        assert (a + b)[i] == a[i];
      } else {
        var i :| 0 <= i < |b| && x in Names(b[i]);
        assert (a + b)[i + |a|] == b[i];
      }
    }
  }

  lemma ChildrenNamesSingle(c: Node)
    ensures ChildrenNames([c]) == Names(c)
  {
    assert [c][0] == c;
  }

  // ---------------------------------------------------------------- extents

  function SumSizes(cs: seq<Node>): int {
    if cs == [] then 0 else cs[0].size + SumSizes(cs[1..])
  }

  /** The children of every branch exactly fill its extent along its axis: no gap and no
      overlap. A child branch's own axis extent is its parent's cross extent. */
  predicate Fits(n: Node, extent: int) {
    match n
    case Leaf(_, _) => true
    case Branch(cs, s) => SumSizes(cs) == extent && forall i :: 0 <= i < |cs| ==> Fits(cs[i], s)
  }

  lemma {:induction false} SumSizesAppend(a: seq<Node>, b: seq<Node>)
    ensures SumSizes(a + b) == SumSizes(a) + SumSizes(b)
  {
    if a == [] {
      assert a + b == b;
    } else {
      assert (a + b)[1..] == a[1..] + b;
      SumSizesAppend(a[1..], b);
    }
  }

  // ---------------------------------------------------------------- paths

  predicate ValidPath(n: Node, p: Location)
    decreases |p|
  {
    |p| == 0 || (n.Branch? && p[0] < |n.children| && ValidPath(n.children[p[0]], p[1..]))
  }

  /** The node at location `p`. */
  function At(n: Node, p: Location): Node
    requires ValidPath(n, p)
    decreases |p|
  {
    if |p| == 0 then n else At(n.children[p[0]], p[1..])
  }

  /** `n` with the node at location `p` replaced by `m`. */
  function Replace(n: Node, p: Location, m: Node): (r: Node)
    requires ValidPath(n, p)
    ensures ValidPath(r, p) && At(r, p) == m
    ensures |p| > 0 ==> r.Branch? && r.size == n.size && |r.children| == |n.children|
    decreases |p|
  {
    if |p| == 0 then m
    else
      var c := Replace(n.children[p[0]], p[1..], m);
      var r := n.(children := n.children[p[0] := c]);
      assert r.children[p[0]] == c;
      r
  }

  lemma {:induction false} ReplaceSelf(n: Node, p: Location)
    requires ValidPath(n, p)
    ensures Replace(n, p, At(n, p)) == n
    decreases |p|
  {
    if |p| > 0 {
      ReplaceSelf(n.children[p[0]], p[1..]);
    }
  }

  /** The parent path of a valid location is valid, holds a branch, and that branch's
      child at the last index is the node at the location. */
  lemma {:induction false} AtParent(n: Node, p: Location)
    requires |p| > 0 && ValidPath(n, p)
    ensures ValidPath(n, ParentPath(p))
    ensures At(n, ParentPath(p)).Branch? && Last(p) < |At(n, ParentPath(p)).children|
    ensures At(n, ParentPath(p)).children[Last(p)] == At(n, p)
    decreases |p|
  {
    if |p| > 1 {
      ParentPathStep(p);
      AtParent(n.children[p[0]], p[1..]);
    }
  }

  lemma ParentPathStep(p: Location)
    requires |p| > 1
    ensures ParentPath(p)[0] == p[0] && ParentPath(p)[1..] == ParentPath(p[1..])
    ensures Last(p[1..]) == Last(p)
  {
  }

  /** Extending a location by one index into a branch's children. */
  lemma {:induction false} AtChild(n: Node, p: Location, k: nat)
    requires ValidPath(n, p) && At(n, p).Branch? && k < |At(n, p).children|
    ensures ValidPath(n, p + [k]) && At(n, p + [k]) == At(n, p).children[k]
    decreases |p|
  {
    if |p| > 0 {
      assert (p + [k])[1..] == p[1..] + [k];
      AtChild(n.children[p[0]], p[1..], k);
    }
  }

  /** Below a replaced node, the tree is the replacement's. */
  lemma {:induction false} AtReplaceBelow(n: Node, p: Location, m: Node, q: Location)
    requires ValidPath(n, p) && ValidPath(m, q)
    ensures ValidPath(Replace(n, p, m), p + q) && At(Replace(n, p, m), p + q) == At(m, q)
    decreases |p|
  {
    if |p| == 0 {
      assert p + q == q;
    } else {
      assert (p + q)[0] == p[0] && (p + q)[1..] == p[1..] + q;
      AtReplaceBelow(n.children[p[0]], p[1..], m, q);
    }
  }

  /** The views under a node are views of the tree. */
  lemma {:induction false} NamesAt(n: Node, p: Location)
    requires ValidPath(n, p)
    ensures Names(At(n, p)) <= Names(n)
    decreases |p|
  {
    if |p| > 0 {
      NamesAt(n.children[p[0]], p[1..]);
    }
  }

  /** Every subtree of a well-formed tree is well-formed. */
  lemma {:induction false} WellFormedAt(n: Node, p: Location)
    requires ValidPath(n, p) && WellFormed(n)
    ensures WellFormed(At(n, p))
    decreases |p|
  {
    if |p| > 0 {
      WellFormedAt(n.children[p[0]], p[1..]);
    }
  }

  /** Every branch of a tree that fits its extent fits the extent its parent gives it. */
  lemma {:induction false} FitsAt(n: Node, p: Location, extent: int)
    requires |p| > 0 && ValidPath(n, p) && Fits(n, extent)
    ensures ValidPath(n, ParentPath(p)) && Fits(At(n, p), At(n, ParentPath(p)).size)
    decreases |p|
  {
    AtParent(n, p);
    if |p| > 1 {
      ParentPathStep(p);
      FitsAt(n.children[p[0]], p[1..], n.size);
    }
  }

  /** Replacing a node whose views are those of the old node plus `extra` adds `extra`
      to the tree's views and removes none. */
  lemma {:induction false} ReplaceNames(n: Node, p: Location, m: Node, extra: set<string>)
    requires ValidPath(n, p) && Names(m) == Names(At(n, p)) + extra
    ensures Names(Replace(n, p, m)) == Names(n) + extra
    decreases |p|
  {
    if |p| > 0 {
      var k, cs := p[0], n.children;
      var c := Replace(cs[k], p[1..], m);
      ReplaceNames(cs[k], p[1..], m, extra);
      var cs2 := cs[k := c];
      assert Replace(n, p, m).children == cs2;
      forall x | x in ChildrenNames(cs2) ensures x in ChildrenNames(cs) + extra {
        var i :| 0 <= i < |cs2| && x in Names(cs2[i]);
      }
      forall x | x in ChildrenNames(cs) + extra ensures x in ChildrenNames(cs2) {
        if x in extra {
          assert x in Names(cs2[k]);
        } else {
          var i :| 0 <= i < |cs| && x in Names(cs[i]);
          assert x in Names(cs2[i]);
        }
      }
    }
  }

  /** Replacing a node by a well-formed node that adds only views new to the tree keeps
      the tree well-formed. */
  lemma {:induction false} ReplaceWellFormed(n: Node, p: Location, m: Node, extra: set<string>)
    requires ValidPath(n, p) && WellFormed(n) && WellFormed(m)
    requires Names(m) == Names(At(n, p)) + extra && extra !! Names(n)
    ensures WellFormed(Replace(n, p, m))
    decreases |p|
  {
    if |p| > 0 {
      var k, cs := p[0], n.children;
      var c := Replace(cs[k], p[1..], m);
      assert Names(cs[k]) <= Names(n);
      ReplaceWellFormed(cs[k], p[1..], m, extra);
      ReplaceNames(cs[k], p[1..], m, extra);
      var cs2 := cs[k := c];
      assert Replace(n, p, m).children == cs2;
      forall i, j | 0 <= i < j < |cs2| ensures Names(cs2[i]) !! Names(cs2[j]) {
        assert Names(cs[i]) <= Names(n) && Names(cs[j]) <= Names(n);
      }
    }
  }

  /** Replacing a node by one of the same size that fits the extent its parent gives it
      keeps every branch filled. */
  lemma {:induction false} ReplaceFits(n: Node, p: Location, m: Node, extent: int)
    requires ValidPath(n, p) && Fits(n, extent)
    requires |p| == 0 ==> Fits(m, extent)
    requires |p| > 0 ==> m.size == At(n, p).size && ValidPath(n, ParentPath(p)) && Fits(m, At(n, ParentPath(p)).size)
    ensures Fits(Replace(n, p, m), extent)
    decreases |p|
  {
    if |p| > 0 {
      var k, cs := p[0], n.children;
      var c := Replace(cs[k], p[1..], m);
      if |p| > 1 {
        ParentPathStep(p);
      }
      ReplaceFits(cs[k], p[1..], m, n.size);
      SumSizesUpdate(cs, k, c);
    }
  }

  lemma {:induction false} SumSizesUpdate(cs: seq<Node>, k: nat, c: Node)
    requires k < |cs|
    ensures SumSizes(cs[k := c]) == SumSizes(cs) - cs[k].size + c.size
  {
    assert cs == cs[..k] + [cs[k]] + cs[k + 1..];
    assert cs[k := c] == cs[..k] + [c] + cs[k + 1..];
    SumSizesAppend(cs[..k] + [cs[k]], cs[k + 1..]);
    SumSizesAppend(cs[..k], [cs[k]]);
    SumSizesAppend(cs[..k] + [c], cs[k + 1..]);
    SumSizesAppend(cs[..k], [c]);
  }

  // ---------------------------------------------------------------- finding a view

  /** The location of the leaf that holds the view called `name`, if any. */
  function Locate(n: Node, name: string): (r: Option<Location>)
    ensures r.Some? ==> ValidPath(n, r.value) && At(n, r.value).Leaf? && At(n, r.value).view.name == name
    ensures r.Some? && n.Branch? ==> |r.value| > 0
    ensures r.None? <==> name !in Names(n)
    decreases n, if n.Branch? then |n.children| + 1 else 0
  {
    match n
    case Leaf(v, _) => if v.name == name then Some([]) else None
    case Branch(cs, _) => LocateAmong(n, name, 0)
  }

  /** Searches the children of branch `n` from index `i` on. */
  function LocateAmong(n: Node, name: string, i: nat): (r: Option<Location>)
    requires n.Branch? && i <= |n.children|
    ensures r.Some? ==> |r.value| > 0 && ValidPath(n, r.value) && At(n, r.value).Leaf? && At(n, r.value).view.name == name
    ensures r.None? <==> forall j :: i <= j < |n.children| ==> name !in Names(n.children[j])
    decreases n, |n.children| - i
  {
    if i == |n.children| then None
    else
      match Locate(n.children[i], name)
      case Some(p) =>
        assert ([i] + p)[1..] == p;
        Some([i] + p)
      case None => LocateAmong(n, name, i + 1)
  }

  // ---------------------------------------------------------------- sizes

  /** A size's extent along the axis `o`. */
  function Along(o: Orientation, s: Size): int {
    if o == Vertical then s.height else s.width
  }

  /** A size's extent across the axis `o`. */
  function Across(o: Orientation, s: Size): int {
    if o == Vertical then s.width else s.height
  }

  /** The size with the given extents along and across `o`. */
  function Box(o: Orientation, along: int, across: int): (r: Size)
    ensures Along(o, r) == along && Across(o, r) == across
    ensures Along(Orthogonal(o), r) == across && Across(Orthogonal(o), r) == along
  {
    if o == Vertical then Size(across, along) else Size(along, across)
  }

  /** The sizes of the views under `n`, which sits in a branch split along `o` whose
      extent across `o` is `across`. */
  function Sizes(n: Node, o: Orientation, across: int): map<string, Size>
    decreases n
  {
    match n
    case Leaf(v, s) => map[v.name := Box(o, s, across)]
    case Branch(cs, s) => ChildrenSizes(cs, Orthogonal(o), s)
  }

  function ChildrenSizes(cs: seq<Node>, o: Orientation, across: int): map<string, Size>
    decreases cs
  {
    if cs == [] then map[] else Sizes(cs[0], o, across) + ChildrenSizes(cs[1..], o, across)
  }

  /** The size of every view of a grid whose root branch is split along `o`. */
  function ViewSizes(root: Node, o: Orientation): map<string, Size>
    requires root.Branch?
  {
    ChildrenSizes(root.children, o, root.size)
  }

  /** Two maps say the same about `v`. */
  predicate AgreeAt(m1: map<string, Size>, m2: map<string, Size>, v: string) {
    (v in m1 <==> v in m2) && (v in m1 ==> m1[v] == m2[v])
  }

  /** Every view of the tree has a size and nothing else has. */
  lemma {:induction false} SizesKeys(n: Node, o: Orientation, across: int)
    ensures Sizes(n, o, across).Keys == Names(n)
    decreases n
  {
    match n
    case Leaf(_, _) =>
    case Branch(cs, s) => ChildrenSizesKeys(cs, Orthogonal(o), s);
  }

  lemma {:induction false} ChildrenSizesKeys(cs: seq<Node>, o: Orientation, across: int)
    ensures ChildrenSizes(cs, o, across).Keys == ChildrenNames(cs)
    decreases cs
  {
    if cs != [] {
      SizesKeys(cs[0], o, across);
      ChildrenSizesKeys(cs[1..], o, across);
      assert cs == [cs[0]] + cs[1..];
      ChildrenNamesAppend([cs[0]], cs[1..]);
      ChildrenNamesSingle(cs[0]);
    }
  }

  lemma {:induction false} ChildrenSizesAppend(a: seq<Node>, b: seq<Node>, o: Orientation, across: int)
    ensures ChildrenSizes(a + b, o, across) == ChildrenSizes(a, o, across) + ChildrenSizes(b, o, across)
  {
    if a == [] {
      assert a + b == b;
    } else {
      assert (a + b)[0] == a[0] && (a + b)[1..] == a[1..] + b;
      ChildrenSizesAppend(a[1..], b, o, across);
      MapUnionAssociative(Sizes(a[0], o, across), ChildrenSizes(a[1..], o, across), ChildrenSizes(b, o, across));
    }
  }

  lemma MapUnionAssociative(x: map<string, Size>, y: map<string, Size>, z: map<string, Size>)
    ensures x + (y + z) == (x + y) + z
  {
  }

  lemma ChildrenSizesSingle(c: Node, o: Orientation, across: int)
    ensures ChildrenSizes([c], o, across) == Sizes(c, o, across)
  {
    assert [c][1..] == [];
  }

  /** A view held by the k-th child, and by no later child, has the size that child gives it. */
  lemma ChildLookup(cs: seq<Node>, o: Orientation, across: int, k: nat, v: string)
    requires k < |cs| && v in Names(cs[k])
    requires forall j :: k < j < |cs| ==> v !in Names(cs[j])
    ensures v in ChildrenSizes(cs, o, across) && v in Sizes(cs[k], o, across)
    ensures ChildrenSizes(cs, o, across)[v] == Sizes(cs[k], o, across)[v]
  {
    assert cs == cs[..k] + ([cs[k]] + cs[k + 1..]);
    ChildrenSizesAppend(cs[..k], [cs[k]] + cs[k + 1..], o, across);
    ChildrenSizesAppend([cs[k]], cs[k + 1..], o, across);
    ChildrenSizesSingle(cs[k], o, across);
    ChildrenSizesKeys(cs[k + 1..], o, across);
    SizesKeys(cs[k], o, across);
    var rest := cs[k + 1..];
    assert v !in ChildrenNames(rest) by {
      forall i | 0 <= i < |rest| ensures v !in Names(rest[i]) {
        assert rest[i] == cs[k + 1 + i];
      }
    }
  }

  /** Among children with disjoint views, a view has the size its own child gives it. */
  lemma ChildLookupUnique(cs: seq<Node>, o: Orientation, across: int, k: nat, v: string)
    requires k < |cs| && v in Names(cs[k])
    requires forall i, j :: 0 <= i < j < |cs| ==> Names(cs[i]) !! Names(cs[j])
    ensures v in ChildrenSizes(cs, o, across) && v in Sizes(cs[k], o, across)
    ensures ChildrenSizes(cs, o, across)[v] == Sizes(cs[k], o, across)[v]
  {
    forall l | k < l < |cs| ensures v !in Names(cs[l]) {
      assert Names(cs[k]) !! Names(cs[l]);
    }
    ChildLookup(cs, o, across, k, v);
  }

  /** Children that agree one by one about `v` agree about it together. */
  lemma {:induction false} ChildrenAgree(cs: seq<Node>, ds: seq<Node>, o: Orientation, across: int, v: string)
    requires |cs| == |ds|
    requires forall i :: 0 <= i < |cs| ==> AgreeAt(Sizes(cs[i], o, across), Sizes(ds[i], o, across), v)
    ensures AgreeAt(ChildrenSizes(cs, o, across), ChildrenSizes(ds, o, across), v)
  {
    if cs != [] {
      assert AgreeAt(Sizes(cs[0], o, across), Sizes(ds[0], o, across), v);
      ChildrenAgree(cs[1..], ds[1..], o, across, v);
    }
  }

  /** Exchanging one child `c` for a run `mid` of children changes nothing about a view
      that is in neither. */
  lemma ChildrenExchangeAgree(a: seq<Node>, c: Node, mid: seq<Node>, b: seq<Node>, o: Orientation, across: int, v: string)
    requires v !in Names(c) && v !in ChildrenNames(mid)
    ensures AgreeAt(ChildrenSizes(a + mid + b, o, across), ChildrenSizes(a + [c] + b, o, across), v)
  {
    ChildrenSizesAppend(a + mid, b, o, across);
    ChildrenSizesAppend(a, mid, o, across);
    ChildrenSizesAppend(a + [c], b, o, across);
    ChildrenSizesAppend(a, [c], o, across);
    ChildrenSizesSingle(c, o, across);
    ChildrenSizesKeys(mid, o, across);
    SizesKeys(c, o, across);
  }

  /** The split orientation and the cross extent of the branch that holds the node at `p`,
      for `n` held by a branch split along `o` with cross extent `across`. */
  function Context(n: Node, p: Location, o: Orientation, across: int): (Orientation, int)
    requires ValidPath(n, p)
    decreases |p|
  {
    if |p| == 0 then (o, across) else Context(n.children[p[0]], p[1..], Orthogonal(o), n.size)
  }

  /** The context of a node is its parent's orientation and size; orientation flips once
      per level. */
  lemma {:induction false} ContextAt(n: Node, p: Location, o: Orientation, across: int)
    requires |p| > 0 && ValidPath(n, p)
    ensures ValidPath(n, ParentPath(p))
    ensures Context(n, p, o, across) == (if |p| % 2 == 1 then Orthogonal(o) else o, At(n, ParentPath(p)).size)
    decreases |p|
  {
    AtParent(n, p);
    if |p| > 1 {
      ParentPathStep(p);
      ContextAt(n.children[p[0]], p[1..], Orthogonal(o), n.size);
    }
  }

  /** One level further down, the orientation flips and the cross extent is the parent's size. */
  lemma {:induction false} ContextChild(n: Node, p: Location, k: nat, o: Orientation, across: int)
    requires ValidPath(n, p) && At(n, p).Branch? && k < |At(n, p).children|
    ensures ValidPath(n, p + [k])
    ensures Context(n, p + [k], o, across) == (Orthogonal(Context(n, p, o, across).0), At(n, p).size)
    decreases |p|
  {
    AtChild(n, p, k);
    if |p| > 0 {
      assert (p + [k])[0] == p[0] && (p + [k])[1..] == p[1..] + [k];
      ContextChild(n.children[p[0]], p[1..], k, Orthogonal(o), n.size);
    }
  }

  /** For the root: the node at `p` sits in a branch split along the orientation the
      location algebra assigns to `p`, whose cross extent is the parent's size. */
  lemma RootContext(root: Node, rootOrientation: Orientation, p: Location, across: int)
    requires |p| > 0 && ValidPath(root, p)
    ensures ValidPath(root, ParentPath(p))
    ensures Context(root, p, Orthogonal(rootOrientation), across) ==
      (LocationOrientation(rootOrientation, p), At(root, ParentPath(p)).size)
  {
    ContextAt(root, p, Orthogonal(rootOrientation), across);
  }

  /** Replacing a node leaves the size of every view outside the old and the new node as it was. */
  lemma {:induction false} ReplaceFrame(n: Node, p: Location, m: Node, o: Orientation, across: int, v: string)
    requires ValidPath(n, p) && v !in Names(At(n, p)) && v !in Names(m)
    ensures AgreeAt(Sizes(Replace(n, p, m), o, across), Sizes(n, o, across), v)
    decreases |p|
  {
    if |p| == 0 {
      SizesKeys(m, o, across);
      SizesKeys(n, o, across);
    } else {
      var k, cs := p[0], n.children;
      var cs2 := Replace(n, p, m).children;
      ReplaceFrame(cs[k], p[1..], m, Orthogonal(o), n.size, v);
      ChildrenAgree(cs2, cs, Orthogonal(o), n.size, v);
    }
  }

  /** In a well-formed tree, a view of the replacement gets the size the replacement gives
      it in the context of the location it is put at. */
  lemma {:induction false} ReplaceInside(n: Node, p: Location, m: Node, o: Orientation, across: int, v: string)
    requires ValidPath(n, p) && v in Names(m) && WellFormed(Replace(n, p, m))
    ensures v in Sizes(Replace(n, p, m), o, across)
    ensures v in Sizes(m, Context(n, p, o, across).0, Context(n, p, o, across).1)
    ensures Sizes(Replace(n, p, m), o, across)[v] == Sizes(m, Context(n, p, o, across).0, Context(n, p, o, across).1)[v]
    decreases |p|
  {
    if |p| == 0 {
      SizesKeys(m, o, across);
    } else {
      var k, cs := p[0], n.children;
      var r := Replace(n, p, m);
      var c := r.children[k];
      NamesAt(c, p[1..]);
      ReplaceInside(cs[k], p[1..], m, Orthogonal(o), n.size, v);
      ChildLookup(r.children, Orthogonal(o), n.size, k, v);
    }
  }

  /** In a well-formed tree, a view under the node at `p` has the size that node gives it
      in its context. */
  lemma AtInside(n: Node, p: Location, o: Orientation, across: int, v: string)
    requires ValidPath(n, p) && WellFormed(n) && v in Names(At(n, p))
    ensures v in Sizes(n, o, across)
    ensures v in Sizes(At(n, p), Context(n, p, o, across).0, Context(n, p, o, across).1)
    ensures Sizes(n, o, across)[v] == Sizes(At(n, p), Context(n, p, o, across).0, Context(n, p, o, across).1)[v]
  {
    ReplaceSelf(n, p);
    ReplaceInside(n, p, At(n, p), o, across, v);
  }

  /** A view under the replaced node whose size the new node, in the same context, leaves
      as it was keeps its size in the whole tree. */
  lemma ReplaceAgree(n: Node, p: Location, m: Node, o: Orientation, across: int, v: string)
    requires ValidPath(n, p) && WellFormed(n) && WellFormed(Replace(n, p, m))
    requires v in Names(At(n, p)) && v in Names(m)
    requires var ctx := Context(n, p, o, across);
      AgreeAt(Sizes(m, ctx.0, ctx.1), Sizes(At(n, p), ctx.0, ctx.1), v)
    ensures AgreeAt(Sizes(Replace(n, p, m), o, across), Sizes(n, o, across), v)
  {
    ReplaceInside(n, p, m, o, across, v);
    AtInside(n, p, o, across, v);
  }

  /** The root's view sizes are those of the root seen as a child of an orthogonal branch. */
  lemma RootSizes(root: Node, o: Orientation, across: int)
    requires root.Branch?
    ensures Sizes(root, Orthogonal(o), across) == ViewSizes(root, o)
  {
  }

  /** Children that hold the same views one by one hold the same views together. */
  lemma ChildrenNamesPointwise(cs: seq<Node>, ds: seq<Node>)
    requires |cs| == |ds|
    requires forall i :: 0 <= i < |cs| ==> Names(ds[i]) == Names(cs[i])
    ensures ChildrenNames(ds) == ChildrenNames(cs)
  {
    forall x | x in ChildrenNames(ds) ensures x in ChildrenNames(cs) {
      var i :| 0 <= i < |ds| && x in Names(ds[i]);
      assert x in Names(cs[i]);
    }
    forall x | x in ChildrenNames(cs) ensures x in ChildrenNames(ds) {
      var i :| 0 <= i < |cs| && x in Names(cs[i]);
      assert x in Names(ds[i]);
    }
  }
}
