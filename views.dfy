/** The read-only snapshot of a grid's tree that `getViews` hands out, and the projection
    of such a snapshot onto the names of its views. */
module Views {
  import opened GridTree
  import opened Layout

  /** A branch exposes its ordered children, a leaf its view. Sizes are not part of it. */
  datatype GridNode = GridLeaf(view: View) | GridBranch(children: seq<GridNode>)

  /** A name, or a list of name trees: the nested arrays `nodesToNames` builds. */
  datatype NameTree = Name(name: string) | Group(items: seq<NameTree>)

  function GetViews(n: Node): (r: GridNode)
    ensures r.GridLeaf? <==> n.Leaf?
    ensures r.GridLeaf? ==> r.view == n.view
    ensures r.GridBranch? ==> |r.children| == |n.children|
    decreases n
  {
    match n
    case Leaf(v, _) => GridLeaf(v)
    case Branch(cs, _) => GridBranch(seq(|cs|, i requires 0 <= i < |cs| => GetViews(cs[i])))
  }

  /** A branch becomes the list of its children's projections, a leaf its view's name. */
  function NodesToNames(g: GridNode): (r: NameTree)
    ensures r.Name? <==> g.GridLeaf?
    ensures r.Name? ==> r.name == g.view.name
    ensures r.Group? ==> |r.items| == |g.children|
    decreases g
  {
    match g
    case GridLeaf(v) => Name(v.name)
    case GridBranch(cs) => Group(seq(|cs|, i requires 0 <= i < |cs| => NodesToNames(cs[i])))
  }

  /** The names in a name tree, in order. */
  function Flatten(t: NameTree): seq<string>
    decreases t
  {
    match t
    case Name(x) => [x]
    case Group(items) => FlattenAll(items)
  }

  function FlattenAll(items: seq<NameTree>): seq<string>
    decreases items
  {
    if items == [] then [] else Flatten(items[0]) + FlattenAll(items[1..])
  }

  lemma {:induction false} FlattenAllMembers(items: seq<NameTree>, x: string)
    ensures x in FlattenAll(items) <==> exists i :: 0 <= i < |items| && x in Flatten(items[i])
    decreases items
  {
    if items != [] {
      FlattenAllMembers(items[1..], x);
      if x in FlattenAll(items[1..]) {
        var i :| 0 <= i < |items[1..]| && x in Flatten(items[1..][i]);
        assert x in Flatten(items[i + 1]);
      }
      if exists i :: 0 <= i < |items| && x in Flatten(items[i]) {
        var i :| 0 <= i < |items| && x in Flatten(items[i]);
        if i > 0 {
          assert items[1..][i - 1] == items[i];
        }
      }
    }
  }

  /** The names the projection lists are exactly the grid's views. */
  lemma {:induction false} ProjectionNames(n: Node)
    ensures forall x :: x in Flatten(NodesToNames(GetViews(n))) <==> x in Names(n)
    decreases n
  {
    if n.Branch? {
      var cs := n.children;
      var items := NodesToNames(GetViews(n)).items;
      forall x ensures x in FlattenAll(items) <==> x in ChildrenNames(cs) {
        FlattenAllMembers(items, x);
        if x in ChildrenNames(cs) {
          var i :| 0 <= i < |cs| && x in Names(cs[i]);
          ProjectionNames(cs[i]);
          assert items[i] == NodesToNames(GetViews(cs[i]));
        }
        if x in FlattenAll(items) {
          var i :| 0 <= i < |items| && x in Flatten(items[i]);
          ProjectionNames(cs[i]);
          assert items[i] == NodesToNames(GetViews(cs[i]));
        }
      }
    }
  }

  /** Laying the grid out again changes sizes only: the snapshot is the same. */
  lemma {:induction false} AdjustKeepsViews(n: Node, dAlong: int, dAcross: int)
    ensures GetViews(Adjust(n, dAlong, dAcross)) == GetViews(n)
    decreases n
  {
    if n.Branch? {
      var cs := n.children;
      var before := GetViews(n).children;
      var after := GetViews(Adjust(n, dAlong, dAcross)).children;
      forall i | 0 <= i < |cs| ensures after[i] == before[i] {
        AdjustKeepsViews(cs[i], if i == |cs| - 1 then dAcross else 0, dAlong);
      }
      assert after == before;
    }
  }
}
