/** The persisted form of a grid, `{ orientation, root }`, whose nodes are tagged
    `{ type: "branch", data: [...] }` or `{ type: "leaf", data: <the view's JSON> }`, and
    the two directions between it and the tree. */
module Serialization {
  import opened Wrappers
  import opened Locations
  import opened GridTree
  import opened Views

  /** The JSON a serializable test view produces: its name and nothing else. */
  datatype ViewJson = ViewJson(name: string)

  /** A node's `data` member: a list of serialized children, or a view's JSON. */
  datatype NodeData = Children(items: seq<SerializedNode>) | ViewData(json: ViewJson)

  /** A persisted node. The `type` member may be missing or hold any string. */
  datatype SerializedNode = SerializedNode(kind: Option<string>, data: NodeData)

  datatype SerializedGrid = SerializedGrid(orientation: int, root: SerializedNode)

  /** Why a persisted grid was refused; nothing is built when it is. */
  datatype DeserializeError =
    | UnknownOrientation(code: int)
    | MissingType
    | UnknownType(kind: string)
    | MalformedData
    | EmptyBranch
    | RootNotBranch
    | DuplicateView

  const BranchType := "branch"
  const LeafType := "leaf"

  /** VERTICAL is persisted as 0, HORIZONTAL as 1. */
  function OrientationCode(o: Orientation): int {
    if o == Vertical then 0 else 1
  }

  function OrientationOf(code: int): (r: Option<Orientation>)
    ensures r.Some? <==> code == 0 || code == 1
    ensures r.Some? ==> OrientationCode(r.value) == code
  {
    if code == 0 then Some(Vertical) else if code == 1 then Some(Horizontal) else None
  }

  /** `toJSON` of the test view. */
  function ToJson(v: View): (r: ViewJson)
    ensures r.name == v.name
  {
    ViewJson(v.name)
  }

  /** `fromJSON` of the test deserializer: the name from the JSON, minimum 50 and no
      maximum on both axes. */
  function FromJson(json: ViewJson): (r: View)
    ensures r.name == json.name
    ensures r.minimumWidth == r.minimumHeight == 50 && r.maximumWidth == r.maximumHeight == Unbounded
  {
    View(json.name, 50, Unbounded, 50, Unbounded)
  }

  /** A view factory that hands back a view of the name it was given. */
  ghost predicate PreservesNames(deserializer: ViewJson -> View) {
    forall json :: deserializer(json).name == json.name
  }

  lemma JsonRoundTrip(v: View)
    ensures FromJson(ToJson(v)).name == v.name
    ensures (v.minimumWidth == 50 && v.maximumWidth == Unbounded && v.minimumHeight == 50 &&
             v.maximumHeight == Unbounded) ==> FromJson(ToJson(v)) == v
  {
  }

  /** Reading a view back and writing it out again gives the same JSON. */
  lemma JsonRoundTripBack(json: ViewJson)
    ensures ToJson(FromJson(json)) == json
  {
  }

  lemma TestDeserializerPreservesNames()
    ensures PreservesNames(FromJson)
  {
  }

  function SerializeNode(n: Node): (r: SerializedNode)
    decreases n
  {
    match n
    case Leaf(v, _) => SerializedNode(Some(LeafType), ViewData(ToJson(v)))
    case Branch(cs, _) => SerializedNode(Some(BranchType), Children(seq(|cs|, i requires 0 <= i < |cs| => SerializeNode(cs[i]))))
  }

  /** The root orientation is recorded once, beside the root branch. */
  function Serialize(o: Orientation, root: Node): (r: SerializedGrid)
    ensures r.orientation == 0 <==> o == Vertical
    ensures r.orientation == 1 <==> o == Horizontal
    ensures root.Branch? ==> r.root.kind == Some(BranchType) && r.root.data.Children?
  {
    SerializedGrid(OrientationCode(o), SerializeNode(root))
  }

  /** Rebuilds a node from its persisted form; every size starts at zero and the grid is
      laid out afterwards. */
  function DeserializeNode(s: SerializedNode, deserializer: ViewJson -> View): Result<Node, DeserializeError>
    decreases s, 1
  {
    match s.kind
    case None => Err(MissingType)
    case Some(kind) =>
      if kind == LeafType then
        (match s.data
         case ViewData(json) => Ok(Leaf(deserializer(json), 0))
         case Children(_) => Err(MalformedData))
      else if kind == BranchType then
        (match s.data
         case Children(items) =>
           if items == [] then Err(EmptyBranch)
           else
             var built := DeserializeChildren(s, items, deserializer);
             if built.Err? then Err(built.error) else Ok(Branch(built.value, 0))
         case ViewData(_) => Err(MalformedData))
      else Err(UnknownType(kind))
  }

  /** The children in order; the first child that fails fails the whole list. */
  function DeserializeChildren(ghost parent: SerializedNode, items: seq<SerializedNode>, deserializer: ViewJson -> View): (r: Result<seq<Node>, DeserializeError>)
    requires forall i :: 0 <= i < |items| ==> items[i] < parent
    ensures r.Ok? ==> |r.value| == |items|
    decreases parent, 0, |items|
  {
    if items == [] then Ok([])
    else
      var first := DeserializeNode(items[0], deserializer);
      if first.Err? then Err(first.error)
      else
        var rest := DeserializeChildren(parent, items[1..], deserializer);
        if rest.Err? then Err(rest.error) else Ok([first.value] + rest.value)
  }

  /** The tree and orientation a persisted grid describes. The root must be a branch
      and no view may appear twice. */
  function Deserialize(json: SerializedGrid, deserializer: ViewJson -> View): (r: Result<(Orientation, Node), DeserializeError>)
    ensures json.orientation != 0 && json.orientation != 1 ==> r == Err(UnknownOrientation(json.orientation))
    ensures r.Ok? ==> OrientationCode(r.value.0) == json.orientation && r.value.1.Branch? && WellFormed(r.value.1)
  {
    var orientation := OrientationOf(json.orientation);
    if orientation.None? then Err(UnknownOrientation(json.orientation))
    else
      var built := DeserializeNode(json.root, deserializer);
      if built.Err? then Err(built.error)
      else if built.value.Leaf? then Err(RootNotBranch)
      else if !WellFormed(built.value) then Err(DuplicateView)
      else Ok((orientation.value, built.value))
  }

  /** Every node of the tree has size zero. */
  predicate AllZero(n: Node)
    decreases n
  {
    n.size == 0 && (n.Branch? ==> forall i :: 0 <= i < |n.children| ==> AllZero(n.children[i]))
  }

  /** A tree whose sizes are all zero fills a container of size zero. */
  lemma {:induction false} AllZeroFits(n: Node)
    requires AllZero(n)
    ensures Fits(n, 0)
    decreases n
  {
    if n.Branch? {
      forall i | 0 <= i < |n.children| ensures Fits(n.children[i], 0) {
        AllZeroFits(n.children[i]);
      }
      ZeroSum(n.children);
    }
  }

  lemma {:induction false} ZeroSum(cs: seq<Node>)
    requires forall i :: 0 <= i < |cs| ==> cs[i].size == 0
    ensures SumSizes(cs) == 0
  {
    if cs != [] {
      ZeroSum(cs[1..]);
    }
  }

  /** Whatever deserialization builds starts with every size zero. */
  lemma {:induction false} DeserializedZero(s: SerializedNode, deserializer: ViewJson -> View)
    ensures DeserializeNode(s, deserializer).Ok? ==> AllZero(DeserializeNode(s, deserializer).value)
    decreases s, 1
  {
    var r := DeserializeNode(s, deserializer);
    if r.Ok? {
      if r.value.Branch? {
        assert s.kind == Some(BranchType) && s.data.Children? && s.data.items != [];
        var built := DeserializeChildren(s, s.data.items, deserializer);
        assert built.Ok? && r.value == Branch(built.value, 0);
        ChildrenZero(s, s.data.items, deserializer);
      }
    }
  }

  lemma {:induction false} ChildrenZero(parent: SerializedNode, items: seq<SerializedNode>, deserializer: ViewJson -> View)
    requires forall i :: 0 <= i < |items| ==> items[i] < parent
    ensures var r := DeserializeChildren(parent, items, deserializer);
      r.Ok? ==> forall i :: 0 <= i < |r.value| ==> AllZero(r.value[i])
    decreases parent, 0, |items|
  {
    if items != [] {
      DeserializedZero(items[0], deserializer);
      ChildrenZero(parent, items[1..], deserializer);
    }
  }

  /** The tree a serialized `n` comes back as: the same nesting, each view rebuilt by the
      factory from its JSON, every size zero. */
  function Rebuilt(n: Node, deserializer: ViewJson -> View): Node
    decreases n
  {
    match n
    case Leaf(v, _) => Leaf(deserializer(ToJson(v)), 0)
    case Branch(cs, _) => Branch(seq(|cs|, i requires 0 <= i < |cs| => Rebuilt(cs[i], deserializer)), 0)
  }

  /** Every branch of the tree has a child. */
  predicate NoEmptyBranch(n: Node)
    decreases n
  {
    match n
    case Leaf(_, _) => true
    case Branch(cs, _) => |cs| > 0 && forall i :: 0 <= i < |cs| ==> NoEmptyBranch(cs[i])
  }

  lemma {:induction false} WellFormedNoEmptyBranch(n: Node)
    requires WellFormed(n)
    ensures NoEmptyBranch(n)
    decreases n
  {
    if n.Branch? {
      forall i | 0 <= i < |n.children| ensures NoEmptyBranch(n.children[i]) {
        WellFormedNoEmptyBranch(n.children[i]);
      }
    }
  }

  /** Deserializing what `SerializeNode` wrote never fails on a tree without empty
      branches, and rebuilds it. */
  lemma {:induction false} NodeRoundTrip(n: Node, deserializer: ViewJson -> View)
    requires NoEmptyBranch(n)
    ensures DeserializeNode(SerializeNode(n), deserializer) == Ok(Rebuilt(n, deserializer))
    decreases n, 1
  {
    if n.Branch? {
      var s := SerializeNode(n);
      ChildrenRoundTrip(n, s, n.children, s.data.items, deserializer);
    }
  }

  lemma {:induction false} ChildrenRoundTrip(n: Node, s: SerializedNode, cs: seq<Node>, items: seq<SerializedNode>, deserializer: ViewJson -> View)
    requires forall i :: 0 <= i < |cs| ==> cs[i] < n && NoEmptyBranch(cs[i])
    requires |items| == |cs| && forall i :: 0 <= i < |cs| ==> items[i] == SerializeNode(cs[i]) && items[i] < s
    ensures DeserializeChildren(s, items, deserializer) == Ok(seq(|cs|, i requires 0 <= i < |cs| => Rebuilt(cs[i], deserializer)))
    decreases n, 0, |cs|
  {
    if cs != [] {
      NodeRoundTrip(cs[0], deserializer);
      ChildrenRoundTrip(n, s, cs[1..], items[1..], deserializer);
      var all := seq(|cs|, i requires 0 <= i < |cs| => Rebuilt(cs[i], deserializer));
      var rest := seq(|cs| - 1, i requires 0 <= i < |cs| - 1 => Rebuilt(cs[1..][i], deserializer));
      assert all == [Rebuilt(cs[0], deserializer)] + rest;
      assert DeserializeNode(items[0], deserializer) == Ok(Rebuilt(cs[0], deserializer));
      assert DeserializeChildren(s, items[1..], deserializer) == Ok(rest);
    } else {
      assert items == [];
      assert seq(|cs|, i requires 0 <= i < |cs| => Rebuilt(cs[i], deserializer)) == [];
    }
  }

  /** A factory that keeps names keeps every view's place and the tree's names. */
  lemma {:induction false} RebuiltShape(n: Node, deserializer: ViewJson -> View)
    requires PreservesNames(deserializer)
    ensures NodesToNames(GetViews(Rebuilt(n, deserializer))) == NodesToNames(GetViews(n))
    ensures Names(Rebuilt(n, deserializer)) == Names(n)
    ensures WellFormed(n) ==> WellFormed(Rebuilt(n, deserializer))
    decreases n
  {
    if n.Branch? {
      var cs := n.children;
      var ds := Rebuilt(n, deserializer).children;
      forall i | 0 <= i < |cs|
        ensures NodesToNames(GetViews(ds[i])) == NodesToNames(GetViews(cs[i]))
        ensures Names(ds[i]) == Names(cs[i])
        ensures WellFormed(cs[i]) ==> WellFormed(ds[i])
      {
        RebuiltShape(cs[i], deserializer);
      }
      assert NodesToNames(GetViews(Rebuilt(n, deserializer))).items == NodesToNames(GetViews(n)).items;
      ChildrenNamesPointwise(cs, ds);
    }
  }

  /** Serializing a grid and deserializing it with a name-keeping factory gives back the
      same orientation and the same nesting of the same names. */
  lemma GridRoundTrip(o: Orientation, root: Node, deserializer: ViewJson -> View)
    requires root.Branch? && WellFormed(root) && PreservesNames(deserializer)
    ensures var r := Deserialize(Serialize(o, root), deserializer);
      r == Ok((o, Rebuilt(root, deserializer))) &&
      NodesToNames(GetViews(r.value.1)) == NodesToNames(GetViews(root))
  {
    WellFormedNoEmptyBranch(root);
    NodeRoundTrip(root, deserializer);
    RebuiltShape(root, deserializer);
  }

  /** A persisted grid is refused exactly when its orientation is not 0 or 1, a node is
      malformed, the root is a leaf, or a view appears twice. */
  lemma DeserializeErrors(json: SerializedGrid, deserializer: ViewJson -> View)
    ensures json.orientation != 0 && json.orientation != 1 ==>
      Deserialize(json, deserializer) == Err(UnknownOrientation(json.orientation))
    ensures json.root.kind.None? && (json.orientation == 0 || json.orientation == 1) ==>
      Deserialize(json, deserializer) == Err(MissingType)
    ensures (json.root.kind == Some(LeafType) && json.root.data.ViewData? &&
             (json.orientation == 0 || json.orientation == 1)) ==>
      Deserialize(json, deserializer) == Err(RootNotBranch)
    ensures Deserialize(json, deserializer).Ok? ==>
      var (o, root) := Deserialize(json, deserializer).value;
      OrientationCode(o) == json.orientation && root.Branch? && WellFormed(root) && AllZero(root)
  {
    DeserializedZero(json.root, deserializer);
  }
}
