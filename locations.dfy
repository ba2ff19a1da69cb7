/** Locations in a grid and the direction algebra that turns "next to this view, on
    that side" into the location where a new view must be inserted. */
module Locations {

  /** VERTICAL stacks children top to bottom, HORIZONTAL places them left to right. */
  datatype Orientation = Vertical | Horizontal

  datatype Direction = Up | Down | Left | Right

  /** A path of child indices from the root branch; the empty path is the root. */
  type Location = seq<nat>

  function Orthogonal(o: Orientation): (r: Orientation)
    ensures r != o
  {
    if o == Vertical then Horizontal else Vertical
  }

  /** Up and Down move along the vertical axis, Left and Right along the horizontal one. */
  function DirectionOrientation(d: Direction): (r: Orientation)
    ensures r == Vertical <==> d in {Up, Down}
  {
    match d
    case Up => Vertical
    case Down => Vertical
    case Left => Horizontal
    case Right => Horizontal
  }

  /** Down and Right place the new view after the reference, Up and Left before it. */
  predicate IsAfter(d: Direction) {
    d == Down || d == Right
  }

  /** The orientation of the branch that holds the node at `location`: orientation
      alternates with depth, and the root branch holds the nodes at paths of length 1. */
  function LocationOrientation(rootOrientation: Orientation, location: Location): Orientation {
    if |location| % 2 == 0 then Orthogonal(rootOrientation) else rootOrientation
  }

  /** The direction runs along the split axis of the branch that holds `location`. */
  predicate InAxis(rootOrientation: Orientation, location: Location, d: Direction) {
    LocationOrientation(rootOrientation, location) == DirectionOrientation(d)
  }

  function ParentPath(location: Location): Location
    requires |location| > 0
  {
    location[..|location| - 1]
  }

  function Last(location: Location): nat
    requires |location| > 0
  {
    location[|location| - 1]
  }

  /** Where a view placed on side `d` of the node at `location` goes. In axis the new view
      becomes a sibling (at the same index before the node, or at the next index after it);
      across the axis the node is wrapped in a new branch and the new view becomes its
      first or second child. Either way the result lies in a branch split along `d`. */
  function GetRelativeLocation(rootOrientation: Orientation, location: Location, d: Direction): (r: Location)
    requires |location| > 0
    ensures |r| > 0
    ensures LocationOrientation(rootOrientation, r) == DirectionOrientation(d)
  {
    if InAxis(rootOrientation, location, d) then
      ParentPath(location) + [if IsAfter(d) then Last(location) + 1 else Last(location)]
    else
      location + [if IsAfter(d) then 1 else 0]
  }

  /** The rows of the table of expected locations, one ensures per row. */
  lemma RelativeLocationTable()
    ensures GetRelativeLocation(Vertical, [0], Up) == [0]
    ensures GetRelativeLocation(Vertical, [0], Down) == [1]
    ensures GetRelativeLocation(Vertical, [0], Left) == [0, 0]
    ensures GetRelativeLocation(Vertical, [0], Right) == [0, 1]
    ensures GetRelativeLocation(Horizontal, [0], Up) == [0, 0]
    ensures GetRelativeLocation(Horizontal, [0], Down) == [0, 1]
    ensures GetRelativeLocation(Horizontal, [0], Left) == [0]
    ensures GetRelativeLocation(Horizontal, [0], Right) == [1]
    ensures GetRelativeLocation(Vertical, [4], Up) == [4]
    ensures GetRelativeLocation(Vertical, [4], Down) == [5]
    ensures GetRelativeLocation(Vertical, [4], Left) == [4, 0]
    ensures GetRelativeLocation(Vertical, [4], Right) == [4, 1]
    ensures GetRelativeLocation(Vertical, [0, 0], Up) == [0, 0, 0]
    ensures GetRelativeLocation(Vertical, [0, 0], Down) == [0, 0, 1]
    ensures GetRelativeLocation(Vertical, [0, 0], Left) == [0, 0]
    ensures GetRelativeLocation(Vertical, [0, 0], Right) == [0, 1]
    ensures GetRelativeLocation(Vertical, [1, 2], Up) == [1, 2, 0]
    ensures GetRelativeLocation(Vertical, [1, 2], Down) == [1, 2, 1]
    ensures GetRelativeLocation(Vertical, [1, 2], Left) == [1, 2]
    ensures GetRelativeLocation(Vertical, [1, 2], Right) == [1, 3]
    ensures GetRelativeLocation(Vertical, [1, 2, 3], Up) == [1, 2, 3]
    ensures GetRelativeLocation(Vertical, [1, 2, 3], Down) == [1, 2, 4]
    ensures GetRelativeLocation(Vertical, [1, 2, 3], Left) == [1, 2, 3, 0]
    ensures GetRelativeLocation(Vertical, [1, 2, 3], Right) == [1, 2, 3, 1]
  {
    assert [0, 0][..1] == [0];
    assert [1, 2][..1] == [1];
    assert [1, 2, 3][..2] == [1, 2];
  }

  /** In axis, Up/Left keep the location (the reference moves one index on) and
      Down/Right take the next index; nothing but the last index changes. */
  lemma InAxisInsertion(rootOrientation: Orientation, location: Location, d: Direction)
    requires |location| > 0 && InAxis(rootOrientation, location, d)
    ensures var r := GetRelativeLocation(rootOrientation, location, d);
      |r| == |location| && ParentPath(r) == ParentPath(location) &&
      (IsAfter(d) ==> Last(r) == Last(location) + 1) &&
      (!IsAfter(d) ==> r == location)
  {
    var r := GetRelativeLocation(rootOrientation, location, d);
    assert ParentPath(r) == ParentPath(location);
    if !IsAfter(d) {
      assert r == ParentPath(location) + [Last(location)] == location;
    }
  }

  /** Across the axis the location gains one index: 0 for Up/Left, 1 for Down/Right. */
  lemma CrossAxisInsertion(rootOrientation: Orientation, location: Location, d: Direction)
    requires |location| > 0 && !InAxis(rootOrientation, location, d)
    ensures var r := GetRelativeLocation(rootOrientation, location, d);
      |r| == |location| + 1 && ParentPath(r) == location && Last(r) == (if IsAfter(d) then 1 else 0)
  {
    var r := GetRelativeLocation(rootOrientation, location, d);
    assert ParentPath(r) == location;
  }

  /** The result is as long as the location or one longer, and every index above the
      reference's own is kept. */
  lemma RelativeLocationShape(rootOrientation: Orientation, location: Location, d: Direction)
    requires |location| > 0
    ensures var r := GetRelativeLocation(rootOrientation, location, d);
      (|r| == |location| || |r| == |location| + 1) &&
      r[..|location| - 1] == ParentPath(location) &&
      (|r| == |location| <==> InAxis(rootOrientation, location, d))
  {
    var r := GetRelativeLocation(rootOrientation, location, d);
    if InAxis(rootOrientation, location, d) {
      InAxisInsertion(rootOrientation, location, d);
    } else {
      CrossAxisInsertion(rootOrientation, location, d);
      assert r[..|location| - 1] == location[..|location| - 1];
    }
  }

  /** Swapping the root orientation swaps which directions are in axis, at every depth. */
  lemma RootOrientationSwap(location: Location, d: Direction)
    ensures InAxis(Vertical, location, d) <==> !InAxis(Horizontal, location, d)
  {
  }

  /** Orientation depends only on the parity of the depth: two levels down, a branch is
      split along the same axis again. */
  lemma OrientationParity(rootOrientation: Orientation, location: Location, i: nat, j: nat)
    ensures LocationOrientation(rootOrientation, location + [i, j]) == LocationOrientation(rootOrientation, location)
    ensures LocationOrientation(rootOrientation, location + [i]) == Orthogonal(LocationOrientation(rootOrientation, location))
  {
  }
}
