/** The grid object: a tree of views under a root branch of fixed orientation, laid out in
    a container, to which views are added next to existing ones. Each view's size is read
    off the tree after every call. */
module Grids {
  import opened Wrappers
  import opened Locations
  import opened GridTree
  import opened Insertion
  import opened Layout
  import opened Views
  import opened Serialization

  /** Why addView refused a view; the grid is left as it was. */
  datatype AddViewError = UnknownReference | ViewAlreadyPresent

  class Grid {
    /** The root branch's split axis, fixed at construction. */
    const orientation: Orientation
    var root: Node
    /** The container size of the last layout; zero before the first. */
    var width: int
    var height: int

    /** The root is a branch, every view is held by one leaf, and the tree exactly fills
        the container. */
    ghost predicate Valid()
      reads this
    {
      root.Branch? && WellFormed(root) && FillsContainer(root, orientation, Size(width, height))
    }

    /** A grid holding one view, in a container not laid out yet. Without an orientation
        the root branch is split vertically. */
    constructor(view: View)
      ensures orientation == Vertical && width == 0 && height == 0
      ensures root == Branch([Leaf(view, 0)], 0)
      ensures Valid()
    {
      orientation := Vertical;
      root := Branch([Leaf(view, 0)], 0);
      width, height := 0, 0;
      new;
      assert SumSizes(root.children) == 0 by {
        assert root.children[1..] == [];
      }
    }

    /** The same, with the root branch split along `orientation`. */
    constructor Oriented(view: View, orientation: Orientation)
      ensures this.orientation == orientation && width == 0 && height == 0
      ensures root == Branch([Leaf(view, 0)], 0)
      ensures Valid()
    {
      this.orientation := orientation;
      root := Branch([Leaf(view, 0)], 0);
      width, height := 0, 0;
      new;
      assert SumSizes(root.children) == 0 by {
        assert root.children[1..] == [];
      }
    }

    /** A grid around a freshly deserialized tree, whose sizes are all zero. */
    constructor Restore(orientation: Orientation, tree: Node)
      requires tree.Branch? && WellFormed(tree) && AllZero(tree)
      ensures this.orientation == orientation && root == tree && width == 0 && height == 0
      ensures Valid()
    {
      this.orientation := orientation;
      root := tree;
      width, height := 0, 0;
      new;
      AllZeroFits(tree);
    }

    /** Lays the grid out in a `w` by `h` container: the tree fills it afterwards, with the
        same views in the same places. */
    method Layout(w: int, h: int)
      requires Valid()
      modifies this
      ensures Valid() && width == w && height == h
      ensures root == Relayout(old(root), orientation, Size(old(width), old(height)), Size(w, h))
      ensures Names(root) == Names(old(root)) && Views.GetViews(root) == Views.GetViews(old(root))
    {
      var from := Size(width, height);
      AdjustKeepsViews(root, Across(orientation, Size(w, h)) - Across(orientation, from), Along(orientation, Size(w, h)) - Along(orientation, from));
      root := Relayout(root, orientation, from, Size(w, h));
      width, height := w, h;
    }

    /** Adds `view` with extent `size` on side `direction` of the view named `reference`.
        The new view gets `size` along the direction's axis and the reference's extent
        across it; the reference gives up `size` along the axis; every other view keeps
        its size. Fails, changing nothing, when the reference is not in the grid or the
        view already is. */
    method AddView(view: View, size: int, reference: string, direction: Direction) returns (result: Result<(), AddViewError>)
      requires Valid()
      modifies this
      ensures Valid() && width == old(width) && height == old(height)
      ensures reference !in Names(old(root)) ==> result == Err(UnknownReference) && root == old(root)
      ensures reference in Names(old(root)) && view.name in Names(old(root)) ==>
        result == Err(ViewAlreadyPresent) && root == old(root)
      ensures reference in Names(old(root)) && view.name !in Names(old(root)) ==>
        result.Ok? &&
        root == Inserted(old(root), orientation, Locate(old(root), reference).value, direction, view, size) &&
        Names(root) == Names(old(root)) + {view.name} &&
        reference in ViewSizes(old(root), orientation) &&
        ViewSizes(root, orientation) ==
          SizesAfterAdding(ViewSizes(old(root), orientation), reference, view.name, DirectionOrientation(direction), size)
    {
      var location := Locate(root, reference);
      if location.None? {
        return Err(UnknownReference);
      }
      if Locate(root, view.name).Some? {
        return Err(ViewAlreadyPresent);
      }
      var refLoc := location.value;
      InsertedShape(root, orientation, refLoc, direction, view, size);
      InsertedFits(root, orientation, refLoc, direction, view, size, Along(orientation, Size(width, height)));
      InsertedSizeMap(root, orientation, refLoc, direction, view, size);
      root := Inserted(root, orientation, refLoc, direction, view, size);
      result := Ok(());
    }

    /** The read-only snapshot of the tree. */
    function GetViews(): (r: GridNode)
      reads this
      requires Valid()
      ensures r.GridBranch?
      ensures forall x :: x in Flatten(NodesToNames(r)) <==> x in Names(root)
    {
      ProjectionNames(root);
      Views.GetViews(root)
    }

    /** The persisted form of the grid. */
    function Serialize(): (r: SerializedGrid)
      reads this
      requires Valid()
      ensures r.orientation == OrientationCode(orientation)
      ensures r.root.kind == Some(BranchType)
      ensures forall deserializer: ViewJson -> View {:trigger Deserialize(r, deserializer)} :: PreservesNames(deserializer) ==>
        Deserialize(r, deserializer).Ok? &&
        NodesToNames(Views.GetViews(Deserialize(r, deserializer).value.1)) == NodesToNames(Views.GetViews(root))
    {
      var r := Serialization.Serialize(orientation, root);
      forall deserializer: ViewJson -> View | PreservesNames(deserializer)
        ensures Deserialize(r, deserializer).Ok? &&
          NodesToNames(Views.GetViews(Deserialize(r, deserializer).value.1)) == NodesToNames(Views.GetViews(root))
      {
        GridRoundTrip(orientation, root, deserializer);
      }
      r
    }
  }

  /** Rebuilds a grid from its persisted form with the given view factory and lays it out
      in a `w` by `h` container. Nothing is built when the persisted form is refused. */
  method DeserializeGrid(json: SerializedGrid, deserializer: ViewJson -> View, w: int, h: int) returns (result: Result<Grid, DeserializeError>)
    ensures Deserialize(json, deserializer).Err? ==> result == Err(Deserialize(json, deserializer).error)
    ensures Deserialize(json, deserializer).Ok? ==>
      result.Ok? && fresh(result.value) && result.value.Valid() &&
      result.value.orientation == Deserialize(json, deserializer).value.0 &&
      result.value.width == w && result.value.height == h &&
      GetViews(result.value.root) == GetViews(Deserialize(json, deserializer).value.1)
  {
    var built := Deserialize(json, deserializer);
    if built.Err? {
      return Err(built.error);
    }
    DeserializeErrors(json, deserializer);
    var grid := new Grid.Restore(built.value.0, built.value.1);
    grid.Layout(w, h);
    result := Ok(grid);
  }
}
