# Grid layout model

A model of the recursive grid layout whose behaviour is pinned down by
`src/vs/base/test/browser/ui/grid/grid.test.ts`. A grid arranges views in a container
as a tree. Leaves hold one view each. Branches split their extent among their children,
and the split axis alternates with depth, starting from the root orientation. The grid
implementation is not part of this model. What is modelled is the behaviour its tests
assert:

- `getRelativeLocation`, the direction algebra. It turns "next to the view at this
  location, on that side" into the location of the new view.
- The `Grid` object. It has a tree, a root orientation and a container size, and two
  operations:
  - `layout(width, height)` fits the tree to a new container.
  - `addView(view, size, reference, direction)` puts a new view next to a reference view.
- The persisted form `{ orientation, root }`. Its nodes are tagged `branch` or `leaf`.
  Deserialization rebuilds the tree through a view factory.
- `getViews` and the test's `nodesToNames`. Together they project the tree onto the
  nested lists of its views' names.

Modules:

| file | module | contents |
|---|---|---|
| `wrappers.dfy` | `Wrappers` | `Option` and `Result` |
| `locations.dfy` | `Locations` | orientations, directions, locations, `GetRelativeLocation` |
| `tree.dfy` | `GridTree` | views, the tree, paths, lookup by name, and the size of every view |
| `insertion.dfy` | `Insertion` | the tree change behind `addView` and its effect on sizes |
| `layout.dfy` | `Layout` | fitting a tree to a new container |
| `views.dfy` | `Views` | the `getViews` snapshot and `nodesToNames` |
| `serialization.dfy` | `Serialization` | the persisted form, both directions, and the round trip |
| `grid.dfy` | `Grids` | the `Grid` class and `deserialize` |
| `scenarios.dfy` | `Scenarios` | the test scenarios, with their literal expected values |

### The tree and its sizes

- A node's `size` is its extent along the split axis of the branch that holds it.
- For a branch, that is its extent across its own axis, and all of its children share it.
- The root branch's `size` is the container's extent across the root orientation.
- A view's width and height are read off the tree (`GridTree.ViewSizes`):
  - its leaf's `size` along the holding branch's axis;
  - the holding branch's `size` across that axis.

`Grids.Grid.Valid` is the invariant every operation keeps:

- the root is a branch;
- every branch has a child, and no view appears twice;
- the children of every branch sum to the branch's extent along its axis
  (`GridTree.Fits`);
- the root fills the container.

### Adding a view

`addView` finds the reference's location and computes the target with the direction
algebra. There are two cases.

- **In axis.** The new leaf becomes a sibling of the reference.
- **Across the axis.** The reference's leaf is replaced by a new branch that holds the
  reference and the new leaf.

In both cases the new view's size is set the same way:

- It gets `size` along the direction's axis and the reference's extent across it.
- The reference gives up `size` along that axis.
- Every other view keeps its size.

### Layout

`layout(width, height)` changes the root's extents by the change in the container. Each
branch passes the change along its own axis to its last child. The change across its
axis reaches every child, because all children of a branch share it.

## Model

| member | source | states |
|---|---|---|
| Locations.GetRelativeLocation | src/vs/base/test/browser/ui/grid/grid.test.ts:24-54 | the result is non-empty and lies in a branch split along the direction's axis |
| Locations.RelativeLocationTable | src/vs/base/test/browser/ui/grid/grid.test.ts:24-54 | every one of the 24 expected locations of the table |
| Locations.InAxisInsertion | src/vs/base/test/browser/ui/grid/grid.test.ts:25-26 | in axis, Up/Left keep the location, Down/Right add one to the last index, and nothing else changes |
| Locations.CrossAxisInsertion | src/vs/base/test/browser/ui/grid/grid.test.ts:27-28 | across the axis, the location gains one index: 0 for Up/Left, 1 for Down/Right |
| Locations.RelativeLocationShape | src/vs/base/test/browser/ui/grid/grid.test.ts:24-54 | the result is as long as the location or one longer (longer exactly when across the axis), and keeps every index above the last |
| Locations.RootOrientationSwap | src/vs/base/test/browser/ui/grid/grid.test.ts:25-33 | swapping the root orientation swaps which directions are in axis, at any depth |
| Locations.OrientationParity | src/vs/base/test/browser/ui/grid/grid.test.ts:40-53 | a branch two levels down is split along the same axis; one level down, along the other |
| GridTree.Locate | src/vs/base/test/browser/ui/grid/grid.test.ts:71 | the reference is found exactly when it is in the grid, and then at a leaf holding it, below the root |
| GridTree.SizesKeys | src/vs/base/test/browser/ui/grid/grid.test.ts:61 | every view of the tree has a size, and nothing else has |
| Insertion.WithSiblingShape | src/vs/base/test/browser/ui/grid/grid.test.ts:71-73 | in axis, the parent with the new sibling is well-formed and holds exactly one view more |
| Insertion.WithSiblingFits | src/vs/base/test/browser/ui/grid/grid.test.ts:71-73 | in axis, the parent's children still sum to its extent |
| Insertion.WithSiblingSizes | src/vs/base/test/browser/ui/grid/grid.test.ts:71-73 | in axis, the new view gets `size`, the reference loses it, and every other sibling's sizes are unchanged |
| Insertion.WrappedShape | src/vs/base/test/browser/ui/grid/grid.test.ts:83-85 | across the axis, the new branch is well-formed and holds the reference and the new view |
| Insertion.WrappedFits | src/vs/base/test/browser/ui/grid/grid.test.ts:83-85 | across the axis, the new branch's two children sum to the parent's cross extent |
| Insertion.WrappedSizes | src/vs/base/test/browser/ui/grid/grid.test.ts:83-85 | across the axis, the reference and the new view split the reference's old extent as `size` and the rest, and both keep its cross extent |
| Insertion.InsertedShape | src/vs/base/test/browser/ui/grid/grid.test.ts:94-113 | after adding, the tree is well-formed, its root is a branch of the same size, and it holds the old views plus the new one |
| Insertion.InsertedFits | src/vs/base/test/browser/ui/grid/grid.test.ts:100-118 | after adding, every branch's children still sum to its extent (400+200=600, 600+200=800) |
| Insertion.InsertedPlacement | src/vs/base/test/browser/ui/grid/grid.test.ts:94-113 | the new view sits at the location the direction algebra gives, and the reference is its neighbour on the other side in a branch split along the direction's axis |
| Insertion.InsertedSizes | src/vs/base/test/browser/ui/grid/grid.test.ts:94-118 | the new view gets `size` along the direction's axis and the reference's cross extent; the reference loses `size`; every other view keeps its size |
| Insertion.InsertedSizeMap | src/vs/base/test/browser/ui/grid/grid.test.ts:94-118 | the whole size map after adding is the one before with exactly those two entries changed |
| Insertion.SizeMapUpdate | src/vs/base/test/browser/ui/grid/grid.test.ts:100-118 | two size maps related as an insertion relates them are that two-entry update apart |
| Insertion.Inserted | src/vs/base/test/browser/ui/grid/grid.test.ts:71 | adding a view keeps the root a branch of the same size; `InsertedShape`, `InsertedFits`, `InsertedPlacement` and `InsertedSizeMap` state the rest |
| Layout.AdjustShape | src/vs/base/test/browser/ui/grid/grid.test.ts:59 | layout keeps the views, their nesting and well-formedness, and moves a node's size by the change along its parent's axis |
| Layout.AdjustFits | src/vs/base/test/browser/ui/grid/grid.test.ts:59 | a well-formed node that filled its extent fills the adjusted one |
| Layout.AdjustZero | src/vs/base/test/browser/ui/grid/grid.test.ts:59 | a layout that changes nothing leaves the tree as it was |
| Layout.AdjustCompose | src/vs/base/test/browser/ui/grid/grid.test.ts:59 | two adjustments in a row are one adjustment by the summed changes |
| Layout.Relayout | src/vs/base/test/browser/ui/grid/grid.test.ts:59-61 | layout keeps the views and well-formedness, and a well-formed grid that filled its old container fills the new one |
| Layout.RelayoutSame | src/vs/base/test/browser/ui/grid/grid.test.ts:59 | laying out again at the same size changes nothing (layout is idempotent) |
| Layout.RelayoutCompose | src/vs/base/test/browser/ui/grid/grid.test.ts:59 | laying out at one size and then at another is laying out at the second directly |
| Layout.SingleViewFills | src/vs/base/test/browser/ui/grid/grid.test.ts:56-62 | a grid of one view that fills its container gives that view the whole container |
| Views.ProjectionNames | src/vs/base/test/browser/ui/grid/grid.test.ts:146-152 | the names `nodesToNames` lists for `getViews` are exactly the grid's views |
| Views.AdjustKeepsViews | src/vs/base/test/browser/ui/grid/grid.test.ts:242-244 | layout leaves the `getViews` snapshot unchanged |
| Views.GetViews | src/vs/base/test/browser/ui/grid/grid.test.ts:244 | the snapshot mirrors the tree: a leaf becomes a leaf with the same view, a branch a branch with as many children |
| Views.NodesToNames | src/vs/base/test/browser/ui/grid/grid.test.ts:146-152 | a snapshot leaf becomes its view's name, and a snapshot branch a list with one item per child; `ProjectionNames` states that the names listed are exactly the grid's views |
| Serialization.OrientationOf | src/vs/base/test/browser/ui/grid/grid.test.ts:173 | exactly the codes 0 and 1 name an orientation, and each is read back as the orientation that is written as it |
| Serialization.ToJson | src/vs/base/test/browser/ui/grid/grid.test.ts:134-136 | a view's JSON carries its name; `JsonRoundTrip` reads it back |
| Serialization.FromJson | src/vs/base/test/browser/ui/grid/grid.test.ts:141-143 | the test factory builds a view of the JSON's name with minimum 50 and no maximum on both axes; `JsonRoundTripBack` writes it back to the same JSON |
| Serialization.JsonRoundTripBack | src/vs/base/test/browser/ui/grid/grid.test.ts:134-143 | `toJSON(fromJSON(json))` is `json` |
| Serialization.JsonRoundTrip | src/vs/base/test/browser/ui/grid/grid.test.ts:134-143 | `fromJSON(toJSON(v))` has `v`'s name, and is `v` itself for a view of minimum 50 and no maximum |
| Serialization.TestDeserializerPreservesNames | src/vs/base/test/browser/ui/grid/grid.test.ts:139-143 | the test factory builds a view of the name it is given |
| Serialization.Serialize | src/vs/base/test/browser/ui/grid/grid.test.ts:172-185 | orientation 0 for VERTICAL and 1 for HORIZONTAL, and a root branch is written as a `branch` node with a list of children |
| Serialization.DeserializedZero | src/vs/base/test/browser/ui/grid/grid.test.ts:242 | whatever deserialization builds starts with every size zero |
| Serialization.AllZeroFits | src/vs/base/test/browser/ui/grid/grid.test.ts:242 | a tree whose sizes are all zero fills a container of size zero, so it can be laid out from there |
| Serialization.NodeRoundTrip | src/vs/base/test/browser/ui/grid/grid.test.ts:234-270 | deserializing a serialized tree without empty branches never fails, and gives the same nesting with each view rebuilt by the factory |
| Serialization.RebuiltShape | src/vs/base/test/browser/ui/grid/grid.test.ts:247-270 | with a factory that keeps names, the rebuilt tree has the same name tree, the same views, and is well-formed when the original was |
| Serialization.GridRoundTrip | src/vs/base/test/browser/ui/grid/grid.test.ts:234-270 | deserializing a serialized grid gives back its orientation and its tree rebuilt, with the same name tree |
| Serialization.Deserialize | src/vs/base/test/browser/ui/grid/grid.test.ts:242 | an orientation other than 0 and 1 is refused as such; an accepted grid has the recorded orientation and a well-formed root branch |
| Serialization.DeserializeErrors | src/vs/base/test/browser/ui/grid/grid.test.ts:242 | an unknown orientation, a missing type and a leaf root are refused; an accepted grid has the recorded orientation and a well-formed root branch of zero sizes |
| Grids.Grid.constructor | src/vs/base/test/browser/ui/grid/grid.test.ts:58 | a new grid holds its one view in a root branch split vertically, with a zero container, and satisfies the invariant |
| Grids.Grid.Oriented | src/vs/base/test/browser/ui/grid/grid.test.ts:170-173 | the same, with the root branch split along the given orientation |
| Grids.Grid.Restore | src/vs/base/test/browser/ui/grid/grid.test.ts:242 | a grid around a deserialized tree satisfies the invariant |
| Grids.Grid.Layout | src/vs/base/test/browser/ui/grid/grid.test.ts:59-61 | afterwards the tree fills the new container, with the same views and the same snapshot |
| Grids.Grid.AddView | src/vs/base/test/browser/ui/grid/grid.test.ts:71-73 | an unknown reference or a view already present changes nothing; otherwise the tree holds one view more and the size map changes exactly as an insertion changes it |
| Grids.Grid.GetViews | src/vs/base/test/browser/ui/grid/grid.test.ts:244 | the snapshot is a branch whose names are exactly the grid's views |
| Grids.Grid.Serialize | src/vs/base/test/browser/ui/grid/grid.test.ts:238 | the persisted grid records the orientation and a root branch, and any name-keeping factory deserializes it to the same name tree |
| Grids.DeserializeGrid | src/vs/base/test/browser/ui/grid/grid.test.ts:242 | a refused persisted grid yields its error; an accepted one yields a laid-out grid with the persisted orientation and the persisted views |
| Scenarios.Empty | src/vs/base/test/browser/ui/grid/grid.test.ts:56-62 | one view laid out at 800 by 600 is 800 by 600 |
| Scenarios.LaidOutGrid | src/vs/base/test/browser/ui/grid/grid.test.ts:64-68 | a laid-out grid of one view gives it 800 by 600 |
| Scenarios.TwoViewsVertically | src/vs/base/test/browser/ui/grid/grid.test.ts:64-74 | view2 above view1 with 200: view1 800 by 400, view2 800 by 200 |
| Scenarios.TwoViewsHorizontally | src/vs/base/test/browser/ui/grid/grid.test.ts:76-86 | view2 right of view1 with 300: view1 500 by 600, view2 300 by 600 |
| Scenarios.SimpleLayout | src/vs/base/test/browser/ui/grid/grid.test.ts:88-119 | every size of the five-view table after each of the four additions |
| Scenarios.Step2 | src/vs/base/test/browser/ui/grid/grid.test.ts:193 | view2 above view1 becomes its sibling before it |
| Scenarios.Step3 | src/vs/base/test/browser/ui/grid/grid.test.ts:196 | view3 right of view1 wraps view1 in a horizontal branch, view3 second |
| Scenarios.Step4 | src/vs/base/test/browser/ui/grid/grid.test.ts:199 | view4 left of view2 wraps view2 in a horizontal branch, view4 first |
| Scenarios.Step5 | src/vs/base/test/browser/ui/grid/grid.test.ts:202 | view5 below view1 wraps view1 again in a vertical branch, view5 second |
| Scenarios.SimpleLayoutGrid | src/vs/base/test/browser/ui/grid/grid.test.ts:188-202 | the four additions build the tree [[view4, view2], [[view1, view5], view3]] |
| Scenarios.SerializeEmpty | src/vs/base/test/browser/ui/grid/grid.test.ts:168-186 | a new one-view grid persists as orientation 0 and a branch holding one leaf `{ name: 'view1' }` |
| Scenarios.SerializeSimpleLayout | src/vs/base/test/browser/ui/grid/grid.test.ts:188-232 | the five-view grid persists as the literal nested branch and leaf structure |
| Scenarios.T5Names | src/vs/base/test/browser/ui/grid/grid.test.ts:269 | the name tree of the five-view grid |
| Scenarios.DeserializeEmpty | src/vs/base/test/browser/ui/grid/grid.test.ts:234-245 | the one-view grid comes back as `['view1']` |
| Scenarios.DeserializeSimpleLayout | src/vs/base/test/browser/ui/grid/grid.test.ts:247-270 | the five-view grid comes back as `[['view4', 'view2'], [['view1', 'view5'], 'view3']]` |

## Left out

- Grids.Grid.Layout: distributing a container change among several children is an assumption of this model. The change along each branch's axis goes wholly to its last child. The tests only lay out one-view grids, so they cannot tell this rule apart from proportional redistribution. The tests do not exercise proportional redistribution. A deserialized grid shows the consequence: all its sizes start at 0, so layout gives every child but the last of each branch extent 0, although the test views have minimum 50. For example, `Relayout(Branch([Leaf(a, 0), Leaf(b, 0)], 0), Vertical, Size(0, 0), Size(800, 600))` is `Branch([Leaf(a, 0), Leaf(b, 600)], 800)`.
- Grids.Grid.AddView: there is no proportional redistribution among several siblings. The reference alone gives up `size`, which is what the five-view scenario shows. There is no clamping to minimums or maximums either. In a grid not laid out yet, the reference's size therefore goes below zero.
- Grids.Grid.AddView: a view is identified by its name. "Unknown reference" and "already present" compare names, not object identities.
- Sizes are modelled as `int`. The engine's sizes are JavaScript numbers and may be fractional; fractional sizes are not represented.
- Views' own `size` fields, updated in place by the engine, are not modelled. Each view's size is read off the tree with `GridTree.ViewSizes` after every call.
- Locations.GetRelativeLocation: requires a non-empty location. A view's location is never empty, because the root is always a branch.
- Grids.DeserializeGrid: the tests do not exercise malformed input. The model chooses to refuse it, and checks in this order:
  - an orientation other than 0 or 1;
  - then each node in depth-first order, children left to right: a missing or unknown `type`, then a `data` member of the wrong kind, then an empty branch;
  - then a leaf root;
  - then a view appearing twice.
- Serialization.NodeRoundTrip: sizes are not persisted. The rebuilt tree starts with zero sizes and is then laid out, so only the nesting and the views come back.
- Serialization.JsonRoundTrip: a view's JSON carries its name only. Other view data is not modelled.
- The `Number.MAX_VALUE` maximum of the test views is modelled as `Unbounded`. The minimums are kept on the views but never consulted.
- `removeView`, `moveView`, `resizeView` and sash dragging are not modelled. The tests do not exercise them.
- Constraint-change notifications from views are not modelled.
- Creating the DOM container, tearing it down, and `dispose` are not modelled. They have no layout semantics.
- The `TestView` and `nodesToArrays` helpers of `./util` are not part of this model. `Scenarios.TestView` stands in for the former, with one minimum on both axes and no maximum.
- `src/vs/workbench/contrib/accessibility/browser/accessibleView.ts` is not part of this model. It is editor UI that hosts a widget and does no layout.
