/** Where the windows of a layout are, and which of them the criteria walk reaches (`src/layout/mod.rs`,
    `src/layout/scratchpad.rs`, `src/layout/workspace/ipc.rs`, `src/command/targeted.rs`).

    A window is under an interactive move, in the hidden scratchpad alone or in a group, or on a workspace
    in the tiling tree, as a floating window of its own or in a floating group.
  */
module Placement {
  import opened Criteria
  import opened Marks
  import opened Options

  datatype Tree =
    | Branch(node: NodeId, children: seq<Tree>)
    | Tip(node: NodeId, window: WindowId)

  /** `restoring` are the windows that return to floating when they leave fullscreen. */
  datatype Space = Space(
    id: WorkspaceId,
    root: NodeId,
    children: seq<Tree>,
    entries: seq<WindowId>,
    groups: seq<Tree>,
    restoring: set<WindowId>
  )

  datatype HiddenGroup = HiddenGroup(tree: Tree, windowIds: seq<WindowId>)

  datatype Placement = Placement(
    moving: Option<WindowId>,
    scratchpad: seq<WindowId>,
    hiddenGroups: seq<HiddenGroup>,
    spaces: seq<Space>
  )

  function Count<T(==)>(s: seq<T>, x: T): nat {
    if s == [] then 0 else (if s[0] == x then 1 else 0) + Count(s[1..], x)
  }

  lemma {:induction false} CountConcat<T>(a: seq<T>, b: seq<T>, x: T)
    ensures Count(a + b, x) == Count(a, x) + Count(b, x)
  {
    if a == [] {
      assert a + b == b;
    } else {
      assert (a + b)[1..] == a[1..] + b;
      CountConcat(a[1..], b, x);
    }
  }

  lemma {:induction false} Counted<T>(s: seq<T>, x: T)
    ensures 0 < Count(s, x) <==> x in s
  {
    if s == [] {
    } else {
      Counted(s[1..], x);
    }
  }

  // ----- Trees

  /** The nodes depth first, parents before children. */
  function Nodes(t: Tree): seq<Node> {
    match t
    case Branch(node, children) => [Split(node)] + AllNodes(children)
    case Tip(node, window) => [Leaf(node, Some(window))]
  }

  function AllNodes(trees: seq<Tree>): seq<Node> {
    if trees == [] then [] else Nodes(trees[0]) + AllNodes(trees[1..])
  }

  function Windows(nodes: seq<Node>): seq<WindowId> {
    if nodes == [] then []
    else
      (match nodes[0] case Leaf(_, Some(id)) => [id] case _ => []) + Windows(nodes[1..])
  }

  function Ids(nodes: seq<Node>): (r: seq<NodeId>)
    ensures |r| == |nodes| && forall i :: 0 <= i < |r| ==> r[i] == nodes[i].node
  {
    if nodes == [] then [] else [nodes[0].node] + Ids(nodes[1..])
  }

  lemma {:induction false} WindowsConcat(a: seq<Node>, b: seq<Node>)
    ensures Windows(a + b) == Windows(a) + Windows(b)
  {
    if a == [] {
      assert a + b == b;
    } else {
      assert (a + b)[1..] == a[1..] + b;
      WindowsConcat(a[1..], b);
    }
  }

  lemma IdsConcat(a: seq<Node>, b: seq<Node>)
    ensures Ids(a + b) == Ids(a) + Ids(b)
  {}

  /** `IpcNode::window_for_node`. */
  function Lookup(t: Tree, node: NodeId): Option<WindowId> {
    match t
    case Branch(_, children) => LookupAny(children, node)
    case Tip(id, window) => if id == node then Some(window) else None
  }

  function LookupAny(trees: seq<Tree>, node: NodeId): Option<WindowId> {
    if trees == [] then None
    else
      var found := Lookup(trees[0], node);
      if found.Some? then found else LookupAny(trees[1..], node)
  }

  /** The window of the first leaf with the given node. */
  function FirstLeaf(nodes: seq<Node>, node: NodeId): Option<WindowId> {
    if nodes == [] then None
    else if nodes[0].Leaf? && nodes[0].node == node && nodes[0].window.Some? then nodes[0].window
    else FirstLeaf(nodes[1..], node)
  }

  lemma {:induction false} FirstLeafConcat(a: seq<Node>, b: seq<Node>, node: NodeId)
    ensures FirstLeaf(a + b, node) == if FirstLeaf(a, node).Some? then FirstLeaf(a, node) else FirstLeaf(b, node)
  {
    if a == [] {
      assert a + b == b;
    } else {
      assert (a + b)[1..] == a[1..] + b;
      FirstLeafConcat(a[1..], b, node);
    }
  }

  lemma {:induction false} LookupIsFirst(t: Tree, node: NodeId)
    ensures Lookup(t, node) == FirstLeaf(Nodes(t), node)
  {
    match t
    case Branch(id, children) =>
      LookupAnyIsFirst(children, node);
      FirstLeafConcat([Split(id)], AllNodes(children), node);
    case Tip(_, _) =>
  }

  lemma {:induction false} LookupAnyIsFirst(trees: seq<Tree>, node: NodeId)
    ensures LookupAny(trees, node) == FirstLeaf(AllNodes(trees), node)
  {
    if trees == [] {
    } else {
      LookupIsFirst(trees[0], node);
      LookupAnyIsFirst(trees[1..], node);
      FirstLeafConcat(Nodes(trees[0]), AllNodes(trees[1..]), node);
    }
  }

  /** No node occurs twice. */
  ghost predicate Unshared(nodes: seq<Node>) {
    forall node :: Count(Ids(nodes), node) <= 1
  }

  lemma {:induction false} FirstLeafIsOnly(nodes: seq<Node>, i: nat)
    requires i < |nodes| && nodes[i].Leaf? && nodes[i].window.Some? && Count(Ids(nodes), nodes[i].node) <= 1
    ensures FirstLeaf(nodes, nodes[i].node) == nodes[i].window
  {
    var ids := Ids(nodes);
    assert ids[1..] == Ids(nodes[1..]);
    if i == 0 {
    } else {
      assert ids[1..][i - 1] == nodes[i].node;
      Counted(ids[1..], nodes[i].node);
      FirstLeafIsOnly(nodes[1..], i - 1);
    }
  }

  /** What the walk makes of a tree: each leaf's window is looked up by its node, and must be known. */
  function Resolved(nodes: seq<Node>, trees: seq<Tree>, known: set<WindowId>): (r: seq<Node>)
    ensures |r| == |nodes| && forall i :: 0 <= i < |r| ==> r[i] == ResolvedNode(nodes[i], trees, known)
  {
    if nodes == [] then [] else [ResolvedNode(nodes[0], trees, known)] + Resolved(nodes[1..], trees, known)
  }

  function ResolvedNode(n: Node, trees: seq<Tree>, known: set<WindowId>): Node {
    match n
    case Split(_) => n
    case Leaf(node, _) =>
      var window := LookupAny(trees, node);
      Leaf(node, if window.Some? && window.value in known then window else None)
  }

  lemma {:induction false} AllLeavesShow(trees: seq<Tree>)
    ensures forall i :: 0 <= i < |AllNodes(trees)| && AllNodes(trees)[i].Leaf? ==> AllNodes(trees)[i].window.Some?
  {
    if trees == [] {
    } else {
      LeavesShow(trees[0]);
      AllLeavesShow(trees[1..]);
    }
  }

  lemma {:induction false} LeavesShow(t: Tree)
    ensures forall i :: 0 <= i < |Nodes(t)| && Nodes(t)[i].Leaf? ==> Nodes(t)[i].window.Some?
  {
    match t
    case Branch(_, children) => AllLeavesShow(children);
    case Tip(_, _) =>
  }

  lemma {:induction false} WindowOfLeaf(nodes: seq<Node>, i: nat)
    requires i < |nodes| && nodes[i].Leaf? && nodes[i].window.Some?
    ensures nodes[i].window.value in Windows(nodes)
  {
    if i == 0 {
    } else {
      WindowOfLeaf(nodes[1..], i - 1);
    }
  }

  /** In a tree without shared nodes every leaf finds its own window. */
  lemma ResolvedIsOwn(trees: seq<Tree>, known: set<WindowId>)
    requires Unshared(AllNodes(trees)) && forall id :: id in Windows(AllNodes(trees)) ==> id in known
    ensures Resolved(AllNodes(trees), trees, known) == AllNodes(trees)
  {
    var nodes := AllNodes(trees);
    AllLeavesShow(trees);
    forall i | 0 <= i < |nodes|
      ensures ResolvedNode(nodes[i], trees, known) == nodes[i]
    {
      if nodes[i].Leaf? {
        assert Count(Ids(nodes), nodes[i].node) <= 1;
        FirstLeafIsOnly(nodes, i);
        LookupAnyIsFirst(trees, nodes[i].node);
        WindowOfLeaf(nodes, i);
      }
    }
  }

  /** `IpcNode::retain_leaves`: leaves of the given windows go, and splits they leave empty. */
  function Kept(trees: seq<Tree>, dropped: set<WindowId>): seq<Tree> {
    if trees == [] then [] else KeptFirst(trees[0], dropped) + Kept(trees[1..], dropped)
  }

  function KeptFirst(t: Tree, dropped: set<WindowId>): seq<Tree> {
    match t
    case Tip(_, window) => if window in dropped then [] else [t]
    case Branch(node, children) =>
      var kept := Kept(children, dropped);
      if kept == [] then [] else [Branch(node, kept)]
  }

  lemma {:induction false} AllNodesConcat(a: seq<Tree>, b: seq<Tree>)
    ensures AllNodes(a + b) == AllNodes(a) + AllNodes(b)
  {
    if a == [] {
      assert a + b == b;
    } else {
      assert (a + b)[1..] == a[1..] + b;
      AllNodesConcat(a[1..], b);
    }
  }

  lemma WindowsCount(a: seq<Node>, b: seq<Node>, id: WindowId)
    ensures Count(Windows(a + b), id) == Count(Windows(a), id) + Count(Windows(b), id)
  {
    WindowsConcat(a, b);
    CountConcat(Windows(a), Windows(b), id);
  }

  lemma IdsCount(a: seq<Node>, b: seq<Node>, node: NodeId)
    ensures Count(Ids(a + b), node) == Count(Ids(a), node) + Count(Ids(b), node)
  {
    IdsConcat(a, b);
    CountConcat(Ids(a), Ids(b), node);
  }

  lemma OneTree(t: Tree)
    ensures AllNodes([t]) == Nodes(t)
  {
    assert [t][1..] == [];
  }

  lemma SplitShowsNothing(node: NodeId, nodes: seq<Node>)
    ensures Windows([Split(node)] + nodes) == Windows(nodes)
  {
    assert ([Split(node)] + nodes)[1..] == nodes;
  }

  /** Filtering a tree keeps the other windows as often as they were there. */
  lemma {:induction false} KeptWindows(trees: seq<Tree>, dropped: set<WindowId>, id: WindowId)
    ensures Count(Windows(AllNodes(Kept(trees, dropped))), id) ==
            if id in dropped then 0 else Count(Windows(AllNodes(trees)), id)
  {
    if trees == [] {
    } else {
      var first, rest := KeptFirst(trees[0], dropped), Kept(trees[1..], dropped);
      KeptFirstWindows(trees[0], dropped, id);
      KeptWindows(trees[1..], dropped, id);
      AllNodesConcat(first, rest);
      WindowsCount(AllNodes(first), AllNodes(rest), id);
      WindowsCount(Nodes(trees[0]), AllNodes(trees[1..]), id);
    }
  }

  lemma {:induction false} KeptFirstWindows(t: Tree, dropped: set<WindowId>, id: WindowId)
    ensures Count(Windows(AllNodes(KeptFirst(t, dropped))), id) ==
            if id in dropped then 0 else Count(Windows(Nodes(t)), id)
  {
    match t
    case Tip(_, window) =>
      OneTree(t);
      assert Windows(Nodes(t)) == [window];
    case Branch(node, children) =>
      var kept := Kept(children, dropped);
      KeptWindows(children, dropped, id);
      SplitShowsNothing(node, AllNodes(children));
      if kept == [] {
      } else {
        OneTree(Branch(node, kept));
        SplitShowsNothing(node, AllNodes(kept));
      }
  }

  /** Filtering a tree adds no node. */
  lemma {:induction false} KeptNodes(trees: seq<Tree>, dropped: set<WindowId>, node: NodeId)
    ensures Count(Ids(AllNodes(Kept(trees, dropped))), node) <= Count(Ids(AllNodes(trees)), node)
  {
    if trees == [] {
    } else {
      var first, rest := KeptFirst(trees[0], dropped), Kept(trees[1..], dropped);
      KeptFirstNodes(trees[0], dropped, node);
      KeptNodes(trees[1..], dropped, node);
      AllNodesConcat(first, rest);
      IdsCount(AllNodes(first), AllNodes(rest), node);
      IdsCount(Nodes(trees[0]), AllNodes(trees[1..]), node);
    }
  }

  lemma {:induction false} KeptFirstNodes(t: Tree, dropped: set<WindowId>, node: NodeId)
    ensures Count(Ids(AllNodes(KeptFirst(t, dropped))), node) <= Count(Ids(Nodes(t)), node)
  {
    match t
    case Tip(_, _) => OneTree(t);
    case Branch(root, children) =>
      var kept := Kept(children, dropped);
      KeptNodes(children, dropped, node);
      IdsCount([Split(root)], AllNodes(children), node);
      if kept == [] {
      } else {
        OneTree(Branch(root, kept));
        IdsCount([Split(root)], AllNodes(kept), node);
      }
  }

  /** Some leaf of the tree stays. */
  predicate HasLeaf(t: Tree, dropped: set<WindowId>) {
    match t
    case Tip(_, window) => window !in dropped
    case Branch(_, children) => exists i :: 0 <= i < |children| && HasLeaf(children[i], dropped)
  }

  /** A branch with the given node and a leaf that stays. */
  predicate LiveBranch(t: Tree, node: NodeId, dropped: set<WindowId>) {
    t.Branch? &&
    ((t.node == node && HasLeaf(t, dropped)) ||
     exists i :: 0 <= i < |t.children| && LiveBranch(t.children[i], node, dropped))
  }

  lemma {:induction false} KeptFirstIff(t: Tree, dropped: set<WindowId>)
    ensures KeptFirst(t, dropped) != [] <==> HasLeaf(t, dropped)
  {
    match t
    case Tip(_, _) =>
    case Branch(_, children) => KeptIff(children, dropped);
  }

  lemma {:induction false} KeptIff(trees: seq<Tree>, dropped: set<WindowId>)
    ensures Kept(trees, dropped) != [] <==> exists i :: 0 <= i < |trees| && HasLeaf(trees[i], dropped)
  {
    if trees == [] {
    } else {
      KeptFirstIff(trees[0], dropped);
      KeptIff(trees[1..], dropped);
      assert forall i :: 0 <= i < |trees[1..]| ==> trees[1..][i] == trees[i + 1];
    }
  }

  /** A split stays if and only if some leaf below it does. */
  lemma {:induction false} SplitKeptIff(trees: seq<Tree>, dropped: set<WindowId>, node: NodeId)
    ensures Split(node) in AllNodes(Kept(trees, dropped)) <==>
            exists i :: 0 <= i < |trees| && LiveBranch(trees[i], node, dropped)
  {
    if trees == [] {
    } else {
      SplitKeptFirstIff(trees[0], dropped, node);
      SplitKeptIff(trees[1..], dropped, node);
      AllNodesConcat(KeptFirst(trees[0], dropped), Kept(trees[1..], dropped));
      assert forall i :: 0 <= i < |trees[1..]| ==> trees[1..][i] == trees[i + 1];
    }
  }

  lemma {:induction false} SplitKeptFirstIff(t: Tree, dropped: set<WindowId>, node: NodeId)
    ensures Split(node) in AllNodes(KeptFirst(t, dropped)) <==> LiveBranch(t, node, dropped)
  {
    match t
    case Tip(_, _) => OneTree(t);
    case Branch(root, children) =>
      KeptFirstIff(t, dropped);
      SplitKeptIff(children, dropped, node);
      OneTree(Branch(root, Kept(children, dropped)));
  }

  /** A node occurs in a tree. */
  predicate Occurs(t: Tree, node: NodeId) {
    t.node == node || (t.Branch? && exists i :: 0 <= i < |t.children| && Occurs(t.children[i], node))
  }

  /** A node lies below another one. */
  predicate Below(t: Tree, ancestor: NodeId, node: NodeId) {
    t.Branch? &&
    exists i :: 0 <= i < |t.children| &&
      ((t.node == ancestor && Occurs(t.children[i], node)) || Below(t.children[i], ancestor, node))
  }

  /** The nodes of one of several trees come between those of the earlier and those of the later trees. */
  lemma TreesInOrder(trees: seq<Tree>, i: nat)
    requires i < |trees|
    ensures AllNodes(trees) == AllNodes(trees[..i]) + Nodes(trees[i]) + AllNodes(trees[i + 1..])
  {
    assert trees == trees[..i] + trees[i..] && trees[i..][1..] == trees[i + 1..];
    AllNodesConcat(trees[..i], trees[i..]);
    assert AllNodes(trees[i..]) == Nodes(trees[i]) + AllNodes(trees[i + 1..]);
  }

  lemma {:induction false} OccursListed(t: Tree, node: NodeId) returns (j: nat)
    requires Occurs(t, node)
    ensures j < |Nodes(t)| && Nodes(t)[j].node == node
  {
    if t.node == node {
      j := 0;
    } else {
      var i :| 0 <= i < |t.children| && Occurs(t.children[i], node);
      var k := OccursListed(t.children[i], node);
      TreesInOrder(t.children, i);
      j := 1 + |AllNodes(t.children[..i])| + k;
    }
  }

  /** Parents come before children: wherever a node lies below another one, it is listed after it. */
  lemma {:induction false} ParentsFirst(t: Tree, ancestor: NodeId, node: NodeId) returns (i: nat, j: nat)
    requires Below(t, ancestor, node)
    ensures i < j < |Nodes(t)| && Nodes(t)[i].node == ancestor && Nodes(t)[j].node == node
  {
    var c :| 0 <= c < |t.children| &&
             ((t.node == ancestor && Occurs(t.children[c], node)) || Below(t.children[c], ancestor, node));
    TreesInOrder(t.children, c);
    var offset := 1 + |AllNodes(t.children[..c])|;
    if t.node == ancestor && Occurs(t.children[c], node) {
      var k := OccursListed(t.children[c], node);
      i, j := 0, offset + k;
    } else {
      var a, b := ParentsFirst(t.children[c], ancestor, node);
      i, j := offset + a, offset + b;
    }
  }

  // ----- What the walk sees of a layout

  /** The windows of a workspace (`Workspace::windows`). */
  function SpaceWindows(s: Space): seq<WindowId> {
    Windows(AllNodes(s.children)) + s.entries + Windows(AllNodes(s.groups))
  }

  function AllSpaceWindows(spaces: seq<Space>): seq<WindowId> {
    if spaces == [] then [] else SpaceWindows(spaces[0]) + AllSpaceWindows(spaces[1..])
  }

  function GroupWindows(groups: seq<HiddenGroup>): seq<WindowId> {
    if groups == [] then [] else Windows(Nodes(groups[0].tree)) + GroupWindows(groups[1..])
  }

  function Moving(p: Placement): seq<WindowId> {
    match p.moving case None => [] case Some(id) => [id]
  }

  /** All windows of the layout (`Layout::windows`). */
  function LayoutWindows(p: Placement): seq<WindowId> {
    Moving(p) + (p.scratchpad + GroupWindows(p.hiddenGroups)) + AllSpaceWindows(p.spaces)
  }

  /** The windows with IPC layouts (`Workspace::tiles_with_ipc_layouts`): not those in floating groups. */
  function Tiles(s: Space): seq<WindowId> {
    s.entries + Windows(AllNodes(s.children))
  }

  function AllTiles(spaces: seq<Space>): seq<WindowId> {
    if spaces == [] then [] else Tiles(spaces[0]) + AllTiles(spaces[1..])
  }

  /** `Workspace::is_floating_for_ipc`. */
  function Floating(s: Space): set<WindowId> {
    Elements(s.entries) + Elements(Windows(AllNodes(s.groups))) +
    Elements(Windows(AllNodes(s.children))) * s.restoring
  }

  function ObservedGroups(groups: seq<Tree>, known: set<WindowId>): seq<seq<Node>> {
    if groups == [] then []
    else [Resolved(AllNodes([groups[0]]), [groups[0]], known)] + ObservedGroups(groups[1..], known)
  }

  function Observed(s: Space, known: set<WindowId>): Workspace {
    var kept := Kept(s.children, Floating(s));
    Workspace(
      s.id,
      [Split(s.root)] + Resolved(AllNodes(kept), kept, known),
      Part(Tiles(s), Floating(s), true),
      ObservedGroups(s.groups, known)
    )
  }

  function AllObserved(spaces: seq<Space>, known: set<WindowId>): (r: seq<Workspace>)
    ensures |r| == |spaces| && forall i :: 0 <= i < |r| ==> r[i] == Observed(spaces[i], known)
  {
    if spaces == [] then [] else [Observed(spaces[0], known)] + AllObserved(spaces[1..], known)
  }

  function Represented(nodes: seq<Node>, window: Option<WindowId>): seq<(NodeId, Option<WindowId>)> {
    if nodes == [] then [] else [(nodes[0].node, window)] + Represented(nodes[1..], window)
  }

  /** Every node of each hidden group, with the first of the group's windows
      (`Layout::scratchpad_tree_nodes`). */
  function GroupNodes(groups: seq<HiddenGroup>, known: set<WindowId>): seq<(NodeId, Option<WindowId>)> {
    if groups == [] then []
    else
      var ids := groups[0].windowIds;
      var window := if ids != [] && ids[0] in known then Some(ids[0]) else None;
      Represented(Nodes(groups[0].tree), window) + GroupNodes(groups[1..], known)
  }

  lemma {:induction false} RepresentedIff(nodes: seq<Node>, window: Option<WindowId>, node: NodeId, id: WindowId)
    ensures (node, Some(id)) in Represented(nodes, window) <==> node in Ids(nodes) && window == Some(id)
  {
    if nodes == [] {
    } else {
      RepresentedIff(nodes[1..], window, node, id);
    }
  }

  predicate StandsFor(g: HiddenGroup, known: set<WindowId>, node: NodeId, id: WindowId) {
    node in Ids(Nodes(g.tree)) && g.windowIds != [] && g.windowIds[0] == id && id in known
  }

  /** A window stands for a hidden node if and only if it is the first of its group. */
  lemma {:induction false} FirstWindowStandsFor(groups: seq<HiddenGroup>, known: set<WindowId>, node: NodeId, id: WindowId)
    ensures (node, Some(id)) in GroupNodes(groups, known) <==>
            exists g :: 0 <= g < |groups| && StandsFor(groups[g], known, node, id)
  {
    if groups == [] {
    } else {
      var ids := groups[0].windowIds;
      var window := if ids != [] && ids[0] in known then Some(ids[0]) else None;
      RepresentedIff(Nodes(groups[0].tree), window, node, id);
      FirstWindowStandsFor(groups[1..], known, node, id);
      assert forall g :: 0 <= g < |groups[1..]| ==> groups[1..][g] == groups[g + 1];
    }
  }

  /** The layout as `collect_candidates` meets it. */
  function View(p: Placement): Layout {
    var known := Elements(LayoutWindows(p));
    Layout(
      Moving(p) + p.scratchpad + AllTiles(p.spaces),
      AllObserved(p.spaces, known),
      GroupNodes(p.hiddenGroups, known),
      Elements(p.scratchpad + GroupWindows(p.hiddenGroups))
    )
  }

  /** Each window is in one place, and no tree shares nodes. */
  ghost predicate WellPlaced(p: Placement) {
    && (forall id :: Count(LayoutWindows(p), id) <= 1)
    && (forall s :: s in p.spaces ==> Unshared(AllNodes(s.children)))
    && (forall s, t :: s in p.spaces && t in s.groups ==> Unshared(AllNodes([t])))
  }

  // ----- Which windows are listed

  lemma {:induction false} TreeLeaves(workspace: WorkspaceId, nodes: seq<Node>, id: WindowId)
    ensures LeafVisits(TreeVisits(workspace, nodes), id) == Count(Windows(nodes), id)
  {
    if nodes == [] {
    } else {
      var visits := TreeVisits(workspace, nodes[1..]);
      TreeLeaves(workspace, nodes[1..], id);
      match nodes[0]
      case Split(node) =>
        LeafVisitsConcat([VisitNode(NodeCandidate(Container(workspace, node), node))], visits, id);
        assert Windows(nodes) == Windows(nodes[1..]);
      case Leaf(_, Some(window)) =>
        LeafVisitsConcat([VisitLeaf(window)], visits, id);
        CountConcat([window], Windows(nodes[1..]), id);
      case Leaf(_, None) =>
        assert Windows(nodes) == Windows(nodes[1..]) && TreeVisits(workspace, nodes) == visits;
    }
  }

  function Flat(groups: seq<seq<Node>>): seq<Node> {
    if groups == [] then [] else groups[0] + Flat(groups[1..])
  }

  lemma {:induction false} GroupLeaves(workspace: WorkspaceId, groups: seq<seq<Node>>, id: WindowId)
    ensures LeafVisits(GroupVisits(workspace, groups), id) == Count(Windows(Flat(groups)), id)
  {
    if groups == [] {
    } else {
      TreeLeaves(workspace, groups[0], id);
      GroupLeaves(workspace, groups[1..], id);
      LeafVisitsConcat(TreeVisits(workspace, groups[0]), GroupVisits(workspace, groups[1..]), id);
      WindowsCount(groups[0], Flat(groups[1..]), id);
    }
  }

  lemma {:induction false} FlatConcat(a: seq<seq<Node>>, b: seq<seq<Node>>, id: WindowId)
    ensures Count(Windows(Flat(a + b)), id) == Count(Windows(Flat(a)), id) + Count(Windows(Flat(b)), id)
  {
    if a == [] {
      assert a + b == b;
    } else {
      assert (a + b)[1..] == a[1..] + b;
      FlatConcat(a[1..], b, id);
      WindowsCount(a[0], Flat(a[1..]), id);
      WindowsCount(a[0], Flat(a[1..] + b), id);
    }
  }

  lemma {:induction false} FlatReversed(groups: seq<seq<Node>>, id: WindowId)
    ensures Count(Windows(Flat(Reversed(groups))), id) == Count(Windows(Flat(groups)), id)
  {
    if groups == [] {
    } else {
      var front, last := groups[..|groups| - 1], groups[|groups| - 1];
      FlatReversed(front, id);
      assert groups == front + [last];
      FlatConcat(front, [last], id);
      FlatConcat([last], Reversed(front), id);
    }
  }

  lemma {:induction false} ObservedGroupNodes(groups: seq<Tree>, known: set<WindowId>)
    requires forall t :: t in groups ==> Unshared(AllNodes([t]))
    requires forall id :: id in Windows(AllNodes(groups)) ==> id in known
    ensures Flat(ObservedGroups(groups, known)) == AllNodes(groups)
  {
    if groups == [] {
    } else {
      OneTree(groups[0]);
      WindowsConcat(Nodes(groups[0]), AllNodes(groups[1..]));
      ResolvedIsOwn([groups[0]], known);
      ObservedGroupNodes(groups[1..], known);
    }
  }

  lemma KeptIsOwn(s: Space, known: set<WindowId>)
    requires Unshared(AllNodes(s.children)) && forall id :: id in Windows(AllNodes(s.children)) ==> id in known
    ensures var kept := Kept(s.children, Floating(s)); Resolved(AllNodes(kept), kept, known) == AllNodes(kept)
  {
    var kept := Kept(s.children, Floating(s));
    forall id | id in Windows(AllNodes(kept))
      ensures id in known
    {
      KeptWindows(s.children, Floating(s), id);
      Counted(Windows(AllNodes(kept)), id);
      Counted(Windows(AllNodes(s.children)), id);
    }
    forall node
      ensures Count(Ids(AllNodes(kept)), node) <= 1
    {
      KeptNodes(s.children, Floating(s), node);
      assert Count(Ids(AllNodes(s.children)), node) <= 1;
    }
    ResolvedIsOwn(kept, known);
  }

  lemma WorkspaceLeaves(w: Workspace, id: WindowId)
    ensures LeafVisits(WorkspaceVisits(w), id) == Count(Windows(w.tiling), id) + Count(Windows(Flat(w.groups)), id)
  {
    TreeLeaves(w.id, w.tiling, id);
    GroupLeaves(w.id, Reversed(w.groups), id);
    FlatReversed(w.groups, id);
    var tiling, floating := TreeVisits(w.id, w.tiling), Offers(Reversed(w.floating));
    LeafVisitsConcat(tiling + floating, GroupVisits(w.id, Reversed(w.groups)), id);
    LeafVisitsConcat(tiling, floating, id);
    OffersListed(Reversed(w.floating), id);
  }

  /** The leaves the walk visits on a workspace: the tiled windows that are not floating for IPC, and the
      windows of floating groups. */
  lemma SpaceLeaves(s: Space, known: set<WindowId>, id: WindowId)
    requires Unshared(AllNodes(s.children)) && forall t :: t in s.groups ==> Unshared(AllNodes([t]))
    requires forall id :: id in SpaceWindows(s) ==> id in known
    ensures LeafVisits(WorkspaceVisits(Observed(s, known)), id) ==
            (if id in Floating(s) then 0 else Count(Windows(AllNodes(s.children)), id)) +
            Count(Windows(AllNodes(s.groups)), id)
  {
    WorkspaceLeaves(Observed(s, known), id);
    KeptIsOwn(s, known);
    SplitShowsNothing(s.root, AllNodes(Kept(s.children, Floating(s))));
    KeptWindows(s.children, Floating(s), id);
    ObservedGroupNodes(s.groups, known);
  }

  /** The part a window of a workspace plays: it is shown as a leaf, or offered as a floating window, or neither
      for foreign windows. Tiled windows that return to floating after fullscreen are offered. */
  lemma SpaceRoles(s: Space, known: set<WindowId>, id: WindowId)
    requires Unshared(AllNodes(s.children)) && forall t :: t in s.groups ==> Unshared(AllNodes([t]))
    requires (forall id :: id in SpaceWindows(s) ==> id in known) && Count(SpaceWindows(s), id) <= 1
    ensures id in Observed(s, known).floating <==>
            id in s.entries || (id in Windows(AllNodes(s.children)) && id in s.restoring)
    ensures LeafVisits(WorkspaceVisits(Observed(s, known)), id) == 1 <==>
            id in Windows(AllNodes(s.groups)) || (id in Windows(AllNodes(s.children)) && id !in s.restoring)
  {
    var tiled, grouped := Windows(AllNodes(s.children)), Windows(AllNodes(s.groups));
    SpaceLeaves(s, known, id);
    PartIff(Tiles(s), Floating(s), true, id);
    CountConcat(tiled + s.entries, grouped, id);
    CountConcat(tiled, s.entries, id);
    Counted(tiled, id);
    Counted(s.entries, id);
    Counted(grouped, id);
  }

  predicate Offered(s: Space, id: WindowId) {
    id in Tiles(s) && id in Floating(s)
  }

  predicate AnyOffered(spaces: seq<Space>, id: WindowId) {
    exists s :: s in spaces && Offered(s, id)
  }

  /** A window in one place of a workspace is not both a leaf and offered, and it is a leaf unless it is
      among the tiles. */
  lemma SpaceOnce(s: Space, known: set<WindowId>, id: WindowId)
    requires Unshared(AllNodes(s.children)) && forall t :: t in s.groups ==> Unshared(AllNodes([t]))
    requires forall id :: id in SpaceWindows(s) ==> id in known
    requires Count(SpaceWindows(s), id) <= 1
    ensures var leaves := LeafVisits(WorkspaceVisits(Observed(s, known)), id);
            && leaves + (if Offered(s, id) then 1 else 0) <= Count(SpaceWindows(s), id)
            && (Count(SpaceWindows(s), id) == 1 <==> leaves == 1 || id in Tiles(s))
  {
    SpaceLeaves(s, known, id);
    var tiled, grouped := Windows(AllNodes(s.children)), Windows(AllNodes(s.groups));
    CountConcat(tiled + s.entries, grouped, id);
    CountConcat(tiled, s.entries, id);
    Counted(tiled, id);
    Counted(s.entries, id);
    Counted(grouped, id);
  }

  lemma {:induction false} SpacesOnce(spaces: seq<Space>, known: set<WindowId>, id: WindowId)
    requires forall s :: s in spaces ==> Unshared(AllNodes(s.children))
    requires forall s, t :: s in spaces && t in s.groups ==> Unshared(AllNodes([t]))
    requires forall id :: id in AllSpaceWindows(spaces) ==> id in known
    requires Count(AllSpaceWindows(spaces), id) <= 1
    ensures var leaves := LeafVisits(AllWorkspaceVisits(AllObserved(spaces, known)), id);
            && leaves + (if AnyOffered(spaces, id) then 1 else 0) <= Count(AllSpaceWindows(spaces), id)
            && (Count(AllSpaceWindows(spaces), id) == 1 <==> leaves == 1 || id in AllTiles(spaces))
  {
    if spaces == [] {
    } else {
      CountConcat(SpaceWindows(spaces[0]), AllSpaceWindows(spaces[1..]), id);
      SpaceOnce(spaces[0], known, id);
      SpacesOnce(spaces[1..], known, id);
      var observed := AllObserved(spaces, known);
      assert observed[1..] == AllObserved(spaces[1..], known);
      LeafVisitsConcat(WorkspaceVisits(observed[0]), AllWorkspaceVisits(observed[1..]), id);
      assert AnyOffered(spaces, id) ==> Offered(spaces[0], id) || AnyOffered(spaces[1..], id);
    }
  }

  lemma {:induction false} ScratchpadShowsNoLeaf(nodes: seq<(NodeId, Option<WindowId>)>, id: WindowId)
    ensures LeafVisits(ScratchpadVisits(nodes), id) == 0
  {
    if nodes == [] {
    } else {
      ScratchpadShowsNoLeaf(nodes[1..], id);
      var first := nodes[..1];
      assert first[1..] == [] && ScratchpadVisits(nodes) == ScratchpadVisits(first) + ScratchpadVisits(nodes[1..]);
      LeafVisitsConcat(ScratchpadVisits(first), ScratchpadVisits(nodes[1..]), id);
    }
  }

  /** What the walk over a view visits for a window. */
  lemma ViewLeaves(p: Placement, id: WindowId)
    requires WellPlaced(p) && Count(AllSpaceWindows(p.spaces), id) <= 1
    ensures var l := View(p);
            var leaves := LeafVisits(TreePart(l), id);
            && leaves <= Count(AllSpaceWindows(p.spaces), id)
            && (PlainFloating(l.workspaces, id) ==> leaves == 0)
            && (Count(AllSpaceWindows(p.spaces), id) == 1 <==> leaves == 1 || id in AllTiles(p.spaces))
  {
    var l := View(p);
    SpacesOnce(p.spaces, Elements(LayoutWindows(p)), id);
    ScratchpadShowsNoLeaf(l.scratchpadNodes, id);
    LeafVisitsConcat(AllWorkspaceVisits(l.workspaces), ScratchpadVisits(l.scratchpadNodes), id);
    if PlainFloating(l.workspaces, id) {
      var i :| 0 <= i < |l.workspaces| && id in l.workspaces[i].floating;
      PartIff(Tiles(p.spaces[i]), Floating(p.spaces[i]), true, id);
      assert p.spaces[i] in p.spaces && Offered(p.spaces[i], id);
    }
  }

  lemma PlacesCount(p: Placement, id: WindowId)
    ensures Count(LayoutWindows(p), id) ==
            Count(Moving(p), id) + Count(p.scratchpad, id) + Count(GroupWindows(p.hiddenGroups), id) +
            Count(AllSpaceWindows(p.spaces), id)
  {
    var scratchpad := p.scratchpad + GroupWindows(p.hiddenGroups);
    CountConcat(Moving(p) + scratchpad, AllSpaceWindows(p.spaces), id);
    CountConcat(Moving(p), scratchpad, id);
    CountConcat(p.scratchpad, GroupWindows(p.hiddenGroups), id);
  }

  /** Each window of a well-placed layout is listed exactly once, except that windows of hidden groups are not
      listed at all. */
  lemma ListedUnlessGrouped(p: Placement, id: WindowId)
    requires WellPlaced(p)
    ensures Listings(Candidates(View(p)), id) + Count(GroupWindows(p.hiddenGroups), id) ==
            Count(LayoutWindows(p), id)
  {
    assert Count(LayoutWindows(p), id) <= 1;
    PlacesCount(p, id);
    ViewLeaves(p, id);
    EveryWindowOnce(View(p), id);
    Counted(Moving(p), id);
    Counted(p.scratchpad, id);
  }

  /** The walk lists every window of a well-placed layout exactly once if and only if no group with a window is
      hidden in the scratchpad. */
  lemma AllListedIff(p: Placement)
    requires WellPlaced(p)
    ensures (forall id :: id in LayoutWindows(p) ==> Listings(Candidates(View(p)), id) == 1) <==>
            GroupWindows(p.hiddenGroups) == []
  {
    var grouped := GroupWindows(p.hiddenGroups);
    if grouped == [] {
      forall id | id in LayoutWindows(p)
        ensures Listings(Candidates(View(p)), id) == 1
      {
        ListedUnlessGrouped(p, id);
        Counted(LayoutWindows(p), id);
        assert Count(LayoutWindows(p), id) <= 1;
      }
    } else {
      var id := grouped[0];
      ListedUnlessGrouped(p, id);
      Counted(grouped, id);
      assert id in LayoutWindows(p) && Count(LayoutWindows(p), id) <= 1;
    }
  }

  /** A group of two windows hidden in the scratchpad: the layout knows both, the walk lists neither. */
  const HIDDEN_PAIR := Placement(None, [], [HiddenGroup(Branch(10, [Tip(11, 1), Tip(12, 2)]), [1, 2])], [])

  lemma HiddenPairWindows()
    ensures GroupWindows(HIDDEN_PAIR.hiddenGroups) == [1, 2]
  {
    var first, second := Tip(11, 1), Tip(12, 2);
    assert [first, second][1..] == [second] && [second][1..] == [];
    assert AllNodes([first, second]) == [Leaf(11, Some(1)), Leaf(12, Some(2))];
    SplitShowsNothing(10, AllNodes([first, second]));
    assert [Leaf(11, Some(1)), Leaf(12, Some(2))][1..] == [Leaf(12, Some(2))] && [Leaf(12, Some(2))][1..] == [];
    assert HIDDEN_PAIR.hiddenGroups[1..] == [];
  }

  lemma HiddenPairUnlisted()
    ensures WellPlaced(HIDDEN_PAIR) && LayoutWindows(HIDDEN_PAIR) == [1, 2]
    ensures Listings(Candidates(View(HIDDEN_PAIR)), 1) == 0 && Listings(Candidates(View(HIDDEN_PAIR)), 2) == 0
  {
    HiddenPairWindows();
    ListedUnlessGrouped(HIDDEN_PAIR, 1);
    ListedUnlessGrouped(HIDDEN_PAIR, 2);
  }

  lemma {:induction false} Unlisted(candidates: seq<Candidate>, id: WindowId)
    requires Listings(candidates, id) == 0
    ensures WindowCandidate(id) !in candidates
  {
    if candidates == [] {
    } else {
      Unlisted(candidates[1..], id);
    }
  }

  lemma GroupedIsUnlisted(p: Placement, id: WindowId)
    requires WellPlaced(p) && id in GroupWindows(p.hiddenGroups)
    ensures WindowCandidate(id) !in Candidates(View(p))
  {
    ListedUnlessGrouped(p, id);
    PlacesCount(p, id);
    assert Count(LayoutWindows(p), id) <= 1;
    Counted(GroupWindows(p.hiddenGroups), id);
    Unlisted(Candidates(View(p)), id);
  }

  /** No window criterion reaches a window of a hidden group: it is selected only through a node of a group. */
  lemma GroupedOnlyThroughNodes(p: Placement, id: WindowId, matches: Candidate -> bool)
    requires WellPlaced(p) && id in GroupWindows(p.hiddenGroups)
    ensures Window(id) in Selected(Candidates(View(p)), matches) <==>
            exists node :: NodeCandidate(Window(id), node) in Candidates(View(p)) &&
                           matches(NodeCandidate(Window(id), node))
  {
    var candidates := Candidates(View(p));
    GroupedIsUnlisted(p, id);
    SelectedIffMatched(candidates, matches, Window(id));
    if node :| NodeCandidate(Window(id), node) in candidates && matches(NodeCandidate(Window(id), node)) {
      var j :| 0 <= j < |candidates| && candidates[j] == NodeCandidate(Window(id), node);
      assert Selects(candidates[j], matches, Window(id));
    }
    var i := FirstIndex(candidates, matches, Window(id));
    if i < |candidates| {
      assert candidates[i] == NodeCandidate(Window(id), candidates[i].node);
    }
  }
}
