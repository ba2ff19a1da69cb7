/** The grid scenarios with literal expectations: one view filling an 800 by 600
    container, two views split either way, the five-step layout, and the persisted form
    of one-view and five-view grids together with what deserializing it gives back. */
module Scenarios {
  import opened Wrappers
  import opened Locations
  import opened GridTree
  import opened Insertion
  import opened Layout
  import opened Views
  import opened Serialization
  import opened Grids

  /** A test view: the given minimum on both axes and no maximum. */
  function TestView(name: string, minimum: nat): View {
    View(name, minimum, Unbounded, minimum, Unbounded)
  }

  const Container := Size(800, 600)

  /** Laying out a grid of one view changes the leaf by the change along the root's axis
      and the root by the change across it. */
  lemma OneViewAdjusted(v: View, s: int, c: int, dAlong: int, dAcross: int)
    ensures Adjust(Branch([Leaf(v, s)], c), dAlong, dAcross) == Branch([Leaf(v, s + dAcross)], c + dAlong)
  {
    var cs := [Leaf(v, s)];
    assert seq(|cs|, i requires 0 <= i < |cs| => Adjust(cs[i], if i == |cs| - 1 then dAcross else 0, dAlong))
      == [Leaf(v, s + dAcross)];
  }

  /** One view laid out in the container gets all of it. */
  method Empty() returns (view1: Size)
    ensures view1 == Size(800, 600)
  {
    var grid := new Grid(TestView("view1", 100));
    OneViewAdjusted(TestView("view1", 100), 0, 0, 800, 600);
    grid.Layout(800, 600);
    SingleViewFills(grid.root, Vertical, Container);
    view1 := ViewSizes(grid.root, grid.orientation)["view1"];
  }

  /** A grid of one laid-out view, the first step of every two-view scenario. */
  method LaidOutGrid() returns (grid: Grid)
    ensures fresh(grid) && grid.Valid() && grid.orientation == Vertical
    ensures Names(grid.root) == {"view1"}
    ensures ViewSizes(grid.root, Vertical) == map["view1" := Size(800, 600)]
  {
    grid := new Grid(TestView("view1", 50));
    OneViewAdjusted(TestView("view1", 50), 0, 0, 800, 600);
    grid.Layout(800, 600);
    SingleViewFills(grid.root, Vertical, Container);
    ChildrenNamesSingle(grid.root.children[0]);
    assert grid.root.children == [grid.root.children[0]];
  }

  /** view2 added above view1 with 200 takes 200 of view1's height. */
  method TwoViewsVertically() returns (view1: Size, view2: Size)
    ensures view1 == Size(800, 400) && view2 == Size(800, 200)
  {
    var grid := LaidOutGrid();
    var r := grid.AddView(TestView("view2", 50), 200, "view1", Up);
    var sizes := ViewSizes(grid.root, Vertical);
    view1, view2 := sizes["view1"], sizes["view2"];
  }

  /** view2 added right of view1 with 300 takes 300 of view1's width. */
  method TwoViewsHorizontally() returns (view1: Size, view2: Size)
    ensures view1 == Size(500, 600) && view2 == Size(300, 600)
  {
    var grid := LaidOutGrid();
    var r := grid.AddView(TestView("view2", 50), 300, "view1", Right);
    var sizes := ViewSizes(grid.root, Vertical);
    view1, view2 := sizes["view1"], sizes["view2"];
  }

  /** `m` gives `key` the size `size`. */
  predicate Has(m: map<string, Size>, key: string, size: Size) {
    key in m && m[key] == size
  }

  /** Adds a view that is not in the grid next to one that is, and reports only how the
      sizes of the views change. */
  method AddMeasured(grid: Grid, view: View, size: int, reference: string, direction: Direction)
    requires grid.Valid() && reference in Names(grid.root) && view.name !in Names(grid.root)
    modifies grid
    ensures grid.Valid() && Names(grid.root) == old(Names(grid.root)) + {view.name}
    ensures reference in old(ViewSizes(grid.root, grid.orientation))
    ensures ViewSizes(grid.root, grid.orientation) ==
      SizesAfterAdding(old(ViewSizes(grid.root, grid.orientation)), reference, view.name, DirectionOrientation(direction), size)
  {
    var r := grid.AddView(view, size, reference, direction);
  }

  /** Adds a view that is not in the grid next to the view at `location`, and reports only
      the tree that results. */
  method AddPlaced(grid: Grid, before: Node, view: View, size: int, reference: string, direction: Direction,
                   location: Location, next: Node)
    requires grid.Valid() && grid.root == before && grid.orientation == Vertical
    requires Locate(before, view.name) == None && Locate(before, reference) == Some(location)
    requires IsViewLocation(before, location) && Inserted(before, Vertical, location, direction, view, size) == next
    modifies grid
    ensures grid.Valid() && grid.root == next
  {
    var r := grid.AddView(view, size, reference, direction);
  }

  /** The sizes of the five views after each of the four additions. */
  method SimpleLayout() returns (step2: map<string, Size>, step3: map<string, Size>, step4: map<string, Size>, step5: map<string, Size>)
    ensures Has(step2, "view1", Size(800, 400)) && Has(step2, "view2", Size(800, 200))
    ensures Has(step3, "view1", Size(600, 400)) && Has(step3, "view2", Size(800, 200)) && Has(step3, "view3", Size(200, 400))
    ensures Has(step4, "view1", Size(600, 400)) && Has(step4, "view2", Size(600, 200)) &&
      Has(step4, "view3", Size(200, 400)) && Has(step4, "view4", Size(200, 200))
    ensures Has(step5, "view1", Size(600, 300)) && Has(step5, "view2", Size(600, 200)) &&
      Has(step5, "view3", Size(200, 400)) && Has(step5, "view4", Size(200, 200)) && Has(step5, "view5", Size(600, 100))
  {
    var grid := LaidOutGrid();
    AddMeasured(grid, TestView("view2", 50), 200, "view1", Up);
    step2 := ViewSizes(grid.root, Vertical);
    AddMeasured(grid, TestView("view3", 50), 200, "view1", Right);
    step3 := ViewSizes(grid.root, Vertical);
    AddMeasured(grid, TestView("view4", 50), 200, "view2", Left);
    step4 := ViewSizes(grid.root, Vertical);
    AddMeasured(grid, TestView("view5", 50), 100, "view1", Down);
    step5 := ViewSizes(grid.root, Vertical);
  }

  function LeafJson(name: string): SerializedNode {
    SerializedNode(Some(LeafType), ViewData(ViewJson(name)))
  }

  function BranchJson(items: seq<SerializedNode>): SerializedNode {
    SerializedNode(Some(BranchType), Children(items))
  }

  /** A new grid of one view persists as orientation 0 and a root branch holding it. */
  method SerializeEmpty() returns (json: SerializedGrid)
    ensures json == SerializedGrid(0, BranchJson([LeafJson("view1")]))
  {
    var grid := new Grid(TestView("view1", 50));
    json := grid.Serialize();
    var cs := grid.root.children;
    assert seq(|cs|, i requires 0 <= i < |cs| => SerializeNode(cs[i])) == [LeafJson("view1")];
  }

  /** The trees of the five-step scenario, built without a layout: every size starts at
      zero, so the references' sizes go below zero. */
  const T1 := Branch([Leaf(TestView("view1", 50), 0)], 0)
  const T2 := Branch([Leaf(TestView("view2", 50), 200), Leaf(TestView("view1", 50), -200)], 0)
  const T3 := Branch([Leaf(TestView("view2", 50), 200), Branch([Leaf(TestView("view1", 50), -200), Leaf(TestView("view3", 50), 200)], -200)], 0)
  const T4 := Branch([Branch([Leaf(TestView("view4", 50), 200), Leaf(TestView("view2", 50), -200)], 200),
                      Branch([Leaf(TestView("view1", 50), -200), Leaf(TestView("view3", 50), 200)], -200)], 0)
  const T5 := Branch([Branch([Leaf(TestView("view4", 50), 200), Leaf(TestView("view2", 50), -200)], 200),
                      Branch([Branch([Leaf(TestView("view1", 50), -300), Leaf(TestView("view5", 50), 100)], -200), Leaf(TestView("view3", 50), 200)], -200)], 0)

  /** view2 goes above view1: in axis, before it. */
  lemma Step2()
    ensures Locate(T1, "view2") == None && Locate(T1, "view1") == Some([0])
    ensures IsViewLocation(T1, [0]) && Inserted(T1, Vertical, [0], Up, TestView("view2", 50), 200) == T2
  {
    assert Locate(T1.children[0], "view1") == Some([]);
    assert [0] + [] == [0];
    assert LocateAmong(T1, "view1", 0) == Some([0]);
    var cs := T1.children;
    InAxisChildren(cs, 0, Leaf(TestView("view1", 50), -200), Leaf(TestView("view2", 50), 200), 0);
    assert cs[..0] == [] && cs[1..] == [];
    assert WithSibling(T1, 0, 0, TestView("view2", 50), 200) == T2;
    assert GetRelativeLocation(Vertical, [0], Up) == [0];
    assert InsertionSite(T1, Vertical, [0], Up, TestView("view2", 50), 200) == ([], T2);
  }

  /** view3 goes right of view1: across the axis, so view1 is wrapped, view3 second. */
  lemma Step3()
    ensures Locate(T2, "view3") == None && Locate(T2, "view1") == Some([1])
    ensures IsViewLocation(T2, [1]) && Inserted(T2, Vertical, [1], Right, TestView("view3", 50), 200) == T3
  {
    assert Locate(T2.children[0], "view1") == None;
    assert Locate(T2.children[1], "view1") == Some([]);
    assert [1] + [] == [1];
    assert LocateAmong(T2, "view1", 1) == Some([1]);
    assert LocateAmong(T2, "view1", 0) == Some([1]);
    assert GetRelativeLocation(Vertical, [1], Right) == [1, 1];
    var wrapped := Branch([Leaf(TestView("view1", 50), -200), Leaf(TestView("view3", 50), 200)], -200);
    assert Wrapped(T2.children[1], 0, 1, TestView("view3", 50), 200) == wrapped;
    assert InsertionSite(T2, Vertical, [1], Right, TestView("view3", 50), 200) == ([1], wrapped);
    assert Replace(T2.children[1], [], wrapped) == wrapped;
    assert T2.children[1 := wrapped] == T3.children;
  }

  /** view4 goes left of view2: across the axis, so view2 is wrapped, view4 first. */
  lemma Step4()
    ensures Locate(T3, "view4") == None && Locate(T3, "view2") == Some([0])
    ensures IsViewLocation(T3, [0]) && Inserted(T3, Vertical, [0], Left, TestView("view4", 50), 200) == T4
  {
    assert Locate(T3.children[0], "view2") == Some([]);
    assert [0] + [] == [0];
    assert LocateAmong(T3, "view2", 0) == Some([0]);
    assert GetRelativeLocation(Vertical, [0], Left) == [0, 0];
    var wrapped := Branch([Leaf(TestView("view4", 50), 200), Leaf(TestView("view2", 50), -200)], 200);
    assert Wrapped(T3.children[0], 0, 0, TestView("view4", 50), 200) == wrapped;
    assert InsertionSite(T3, Vertical, [0], Left, TestView("view4", 50), 200) == ([0], wrapped);
    assert Replace(T3.children[0], [], wrapped) == wrapped;
    assert T3.children[0 := wrapped] == T4.children;
  }

  /** view5 goes below view1, which sits in a horizontal branch: across that axis, so
      view1 is wrapped again, view5 second. */
  lemma Step5()
    ensures Locate(T4, "view5") == None && Locate(T4, "view1") == Some([1, 0])
    ensures IsViewLocation(T4, [1, 0]) && Inserted(T4, Vertical, [1, 0], Down, TestView("view5", 50), 100) == T5
  {
    var inner := T4.children[1];
    assert Locate(inner.children[0], "view1") == Some([]);
    assert [0] + [] == [0];
    assert LocateAmong(inner, "view1", 0) == Some([0]);
    assert Locate(inner, "view1") == Some([0]);
    assert Locate(T4.children[0], "view1") == None by {
      assert Locate(T4.children[0].children[0], "view1") == None;
      assert Locate(T4.children[0].children[1], "view1") == None;
      assert LocateAmong(T4.children[0], "view1", 1) == None;
    }
    assert [1] + [0] == [1, 0];
    assert LocateAmong(T4, "view1", 1) == Some([1, 0]);
    assert LocateAmong(T4, "view1", 0) == Some([1, 0]);
    assert [1, 0][1..] == [0];
    assert At(T4, [1, 0]) == Leaf(TestView("view1", 50), -200);
    assert ParentPath([1, 0]) == [1];
    assert GetRelativeLocation(Vertical, [1, 0], Down) == [1, 0, 1];
    var wrapped := Branch([Leaf(TestView("view1", 50), -300), Leaf(TestView("view5", 50), 100)], -200);
    assert Wrapped(inner.children[0], -200, 1, TestView("view5", 50), 100) == wrapped;
    assert InsertionSite(T4, Vertical, [1, 0], Down, TestView("view5", 50), 100) == ([1, 0], wrapped);
    assert Replace(inner, [0], wrapped) == T5.children[1] by {
      assert Replace(inner.children[0], [], wrapped) == wrapped;
      assert inner.children[0 := wrapped] == T5.children[1].children;
    }
    assert T4.children[1 := T5.children[1]] == T5.children;
  }

  /** The grid after the first addition, built without a layout. */
  method GridT2() returns (grid: Grid)
    ensures fresh(grid) && grid.Valid() && grid.orientation == Vertical && grid.root == T2
  {
    grid := new Grid(TestView("view1", 50));
    Step2();
    AddPlaced(grid, T1, TestView("view2", 50), 200, "view1", Up, [0], T2);
  }

  method GridT3() returns (grid: Grid)
    ensures fresh(grid) && grid.Valid() && grid.orientation == Vertical && grid.root == T3
  {
    grid := GridT2();
    Step3();
    AddPlaced(grid, T2, TestView("view3", 50), 200, "view1", Right, [1], T3);
  }

  method GridT4() returns (grid: Grid)
    ensures fresh(grid) && grid.Valid() && grid.orientation == Vertical && grid.root == T4
  {
    grid := GridT3();
    Step4();
    AddPlaced(grid, T3, TestView("view4", 50), 200, "view2", Left, [0], T4);
  }

  /** The five-view grid, built without a layout. */
  method SimpleLayoutGrid() returns (grid: Grid)
    ensures fresh(grid) && grid.Valid() && grid.orientation == Vertical && grid.root == T5
  {
    grid := GridT4();
    Step5();
    AddPlaced(grid, T4, TestView("view5", 50), 100, "view1", Down, [1, 0], T5);
  }

  /** The names of a branch of one node. */
  lemma ProjectOne(a: Node, s: int)
    ensures NodesToNames(GetViews(Branch([a], s))) == Group([NodesToNames(GetViews(a))])
  {
    var cs := [a];
    assert seq(|cs|, i requires 0 <= i < |cs| => GetViews(cs[i])) == [GetViews(a)];
    var gs := [GetViews(a)];
    assert seq(|gs|, i requires 0 <= i < |gs| => NodesToNames(gs[i])) == [NodesToNames(GetViews(a))];
  }

  /** The names of a branch of two nodes. */
  lemma ProjectTwo(a: Node, b: Node, s: int)
    ensures NodesToNames(GetViews(Branch([a, b], s))) == Group([NodesToNames(GetViews(a)), NodesToNames(GetViews(b))])
  {
    var cs := [a, b];
    assert seq(|cs|, i requires 0 <= i < |cs| => GetViews(cs[i])) == [GetViews(a), GetViews(b)];
    var gs := [GetViews(a), GetViews(b)];
    assert seq(|gs|, i requires 0 <= i < |gs| => NodesToNames(gs[i])) == [NodesToNames(GetViews(a)), NodesToNames(GetViews(b))];
  }

  /** The names of the five-view tree. */
  lemma T5Names()
    ensures NodesToNames(GetViews(T5)) ==
      Group([Group([Name("view4"), Name("view2")]), Group([Group([Name("view1"), Name("view5")]), Name("view3")])])
  {
    ProjectTwo(Leaf(TestView("view4", 50), 200), Leaf(TestView("view2", 50), -200), 200);
    ProjectTwo(Leaf(TestView("view1", 50), -300), Leaf(TestView("view5", 50), 100), -200);
    ProjectTwo(T5.children[1].children[0], Leaf(TestView("view3", 50), 200), -200);
    ProjectTwo(T5.children[0], T5.children[1], 0);
  }

  /** The persisted form of a branch of two nodes. */
  lemma SerializeTwo(a: Node, b: Node, s: int)
    ensures SerializeNode(Branch([a, b], s)) == BranchJson([SerializeNode(a), SerializeNode(b)])
  {
    var cs := [a, b];
    assert seq(|cs|, i requires 0 <= i < |cs| => SerializeNode(cs[i])) == [SerializeNode(a), SerializeNode(b)];
  }

  /** The five-view grid persists as orientation 0 and the nesting of its branches, each
      leaf holding its view's JSON. */
  method SerializeSimpleLayout() returns (json: SerializedGrid)
    ensures json == SerializedGrid(0, BranchJson([
      BranchJson([LeafJson("view4"), LeafJson("view2")]),
      BranchJson([BranchJson([LeafJson("view1"), LeafJson("view5")]), LeafJson("view3")])]))
  {
    var grid := SimpleLayoutGrid();
    json := grid.Serialize();
    SerializeTwo(Leaf(TestView("view4", 50), 200), Leaf(TestView("view2", 50), -200), 200);
    SerializeTwo(Leaf(TestView("view1", 50), -300), Leaf(TestView("view5", 50), 100), -200);
    SerializeTwo(T5.children[1].children[0], Leaf(TestView("view3", 50), 200), -200);
    SerializeTwo(T5.children[0], T5.children[1], 0);
  }

  /** Serializing the five-view grid and deserializing it with the test factory in the
      800 by 600 container gives back the same nesting of names. */
  method DeserializeSimpleLayout() returns (names: NameTree)
    ensures names == Group([Group([Name("view4"), Name("view2")]), Group([Group([Name("view1"), Name("view5")]), Name("view3")])])
  {
    var grid := SimpleLayoutGrid();
    var json := grid.Serialize();
    TestDeserializerPreservesNames();
    var grid2 := DeserializeGrid(json, FromJson, 800, 600);
    names := NodesToNames(Views.GetViews(grid2.value.root));
    T5Names();
  }

  /** The same for the one-view grid. */
  method DeserializeEmpty() returns (names: NameTree)
    ensures names == Group([Name("view1")])
  {
    var grid := new Grid(TestView("view1", 50));
    var json := grid.Serialize();
    TestDeserializerPreservesNames();
    var grid2 := DeserializeGrid(json, FromJson, 800, 600);
    names := NodesToNames(Views.GetViews(grid2.value.root));
    ProjectOne(Leaf(TestView("view1", 50), 0), 0);
  }
}
