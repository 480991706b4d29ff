/** Which targets a criteria command acts on, and in which order (`src/command/targeted.rs`).

    The walk visits workspace by workspace the tiling tree, the floating windows and the floating groups,
    then the hidden scratchpad, then whatever it did not reach. Windows wait in a table of snapshots: a
    tree leaf is always listed, everything else only while its snapshot is still there.
  */
module Criteria {
  import opened Marks
  import opened Options

  datatype Node =
    | Split(node: NodeId)
    | Leaf(node: NodeId, window: Option<WindowId>)

  datatype Workspace = Workspace(
    id: WorkspaceId,
    tiling: seq<Node>,
    floating: seq<WindowId>,
    groups: seq<seq<Node>>
  )

  /** `order` lists the windows that have snapshots; trees are given as their nodes, parents first. */
  datatype Layout = Layout(
    order: seq<WindowId>,
    workspaces: seq<Workspace>,
    scratchpadNodes: seq<(NodeId, Option<WindowId>)>,
    hidden: set<WindowId>
  )

  datatype Candidate =
    | WindowCandidate(id: WindowId)
    | NodeCandidate(target: Target, node: NodeId)

  // ----- The walk as a list of visits

  datatype Visit =
    | VisitLeaf(window: WindowId)
    | Offer(window: WindowId)
    | VisitNode(candidate: Candidate)

  function Reversed<T>(s: seq<T>): (r: seq<T>)
    ensures |r| == |s|
  {
    if s == [] then [] else [s[|s| - 1]] + Reversed(s[..|s| - 1])
  }

  function TreeVisits(workspace: WorkspaceId, nodes: seq<Node>): seq<Visit> {
    if nodes == [] then []
    else
      (match nodes[0]
       case Split(node) => [VisitNode(NodeCandidate(Container(workspace, node), node))]
       case Leaf(_, Some(window)) => [VisitLeaf(window)]
       case Leaf(_, None) => []) + TreeVisits(workspace, nodes[1..])
  }

  function Offers(ids: seq<WindowId>): (r: seq<Visit>)
    ensures |r| == |ids| && forall i :: 0 <= i < |r| ==> r[i] == Offer(ids[i])
  {
    if ids == [] then [] else [Offer(ids[0])] + Offers(ids[1..])
  }

  function GroupVisits(workspace: WorkspaceId, groups: seq<seq<Node>>): seq<Visit> {
    if groups == [] then [] else TreeVisits(workspace, groups[0]) + GroupVisits(workspace, groups[1..])
  }

  function WorkspaceVisits(w: Workspace): seq<Visit> {
    TreeVisits(w.id, w.tiling) + Offers(Reversed(w.floating)) + GroupVisits(w.id, Reversed(w.groups))
  }

  function AllWorkspaceVisits(workspaces: seq<Workspace>): seq<Visit> {
    if workspaces == [] then [] else WorkspaceVisits(workspaces[0]) + AllWorkspaceVisits(workspaces[1..])
  }

  function ScratchpadVisits(nodes: seq<(NodeId, Option<WindowId>)>): seq<Visit> {
    if nodes == [] then []
    else
      (match nodes[0].1
       case Some(window) => [VisitNode(NodeCandidate(Window(window), nodes[0].0))]
       case None => []) + ScratchpadVisits(nodes[1..])
  }

  /** `Iterator::partition`: those in `chosen` when `keep`, those outside otherwise, in order. */
  function Part(ids: seq<WindowId>, chosen: set<WindowId>, keep: bool): seq<WindowId> {
    if ids == [] then []
    else (if (ids[0] in chosen) == keep then [ids[0]] else []) + Part(ids[1..], chosen, keep)
  }

  lemma {:induction false} PartIff(ids: seq<WindowId>, chosen: set<WindowId>, keep: bool, id: WindowId)
    ensures id in Part(ids, chosen, keep) <==> id in ids && (id in chosen) == keep
  {
    if ids == [] {
    } else {
      PartIff(ids[1..], chosen, keep, id);
    }
  }

  function Visits(l: Layout): seq<Visit> {
    AllWorkspaceVisits(l.workspaces) + ScratchpadVisits(l.scratchpadNodes) +
    Offers(Part(l.order, l.hidden, true) + Part(l.order, l.hidden, false))
  }

  /** What a list of visits puts on the candidate list, given the snapshots still waiting. */
  function Walk(visits: seq<Visit>, waiting: set<WindowId>): seq<Candidate>
    decreases |visits|
  {
    if visits == [] then []
    else
      match visits[0]
      case VisitLeaf(id) => [WindowCandidate(id)] + Walk(visits[1..], waiting - {id})
      case Offer(id) => (if id in waiting then [WindowCandidate(id)] else []) + Walk(visits[1..], waiting - {id})
      case VisitNode(c) => [c] + Walk(visits[1..], waiting)
  }

  // ----- How often a window is listed

  function Listings(candidates: seq<Candidate>, id: WindowId): nat {
    if candidates == [] then 0
    else (if candidates[0] == WindowCandidate(id) then 1 else 0) + Listings(candidates[1..], id)
  }

  lemma {:induction false} ListingsConcat(a: seq<Candidate>, b: seq<Candidate>, id: WindowId)
    ensures Listings(a + b, id) == Listings(a, id) + Listings(b, id)
  {
    if a == [] {
      assert a + b == b;
    } else {
      assert (a + b)[1..] == a[1..] + b;
      ListingsConcat(a[1..], b, id);
    }
  }

  function LeafVisits(visits: seq<Visit>, id: WindowId): nat {
    if visits == [] then 0
    else (if visits[0] == VisitLeaf(id) then 1 else 0) + LeafVisits(visits[1..], id)
  }

  /** Whether the window is offered before any leaf shows it. */
  predicate OfferedFirst(visits: seq<Visit>, id: WindowId) {
    if visits == [] then false
    else if visits[0] == Offer(id) then true
    else if visits[0] == VisitLeaf(id) then false
    else OfferedFirst(visits[1..], id)
  }

  /** No node visit poses as a window. */
  predicate NodesOnly(visits: seq<Visit>) {
    forall i :: 0 <= i < |visits| ==> (visits[i].VisitNode? ==> visits[i].candidate.NodeCandidate?)
  }

  /** Every leaf lists its window, and an offer adds one more listing exactly if it comes first. */
  lemma {:induction false} WalkListings(visits: seq<Visit>, waiting: set<WindowId>, id: WindowId)
    requires NodesOnly(visits)
    ensures Listings(Walk(visits, waiting), id) ==
            LeafVisits(visits, id) + (if id in waiting && OfferedFirst(visits, id) then 1 else 0)
    decreases |visits|
  {
    if visits == [] {
    } else {
      var rest := visits[1..];
      match visits[0]
      case VisitLeaf(w) =>
        WalkListings(rest, waiting - {w}, id);
        ListingsConcat([WindowCandidate(w)], Walk(rest, waiting - {w}), id);
      case Offer(w) =>
        WalkListings(rest, waiting - {w}, id);
        ListingsConcat(if w in waiting then [WindowCandidate(w)] else [], Walk(rest, waiting - {w}), id);
      case VisitNode(c) =>
        WalkListings(rest, waiting, id);
        ListingsConcat([c], Walk(rest, waiting), id);
    }
  }

  /** The visits before the final offer of everything left. */
  function TreePart(l: Layout): seq<Visit> {
    AllWorkspaceVisits(l.workspaces) + ScratchpadVisits(l.scratchpadNodes)
  }

  function Candidates(l: Layout): seq<Candidate> {
    Walk(Visits(l), Elements(l.order))
  }

  lemma {:induction false} LeafVisitsConcat(a: seq<Visit>, b: seq<Visit>, id: WindowId)
    ensures LeafVisits(a + b, id) == LeafVisits(a, id) + LeafVisits(b, id)
    ensures OfferedFirst(a + b, id) <==> OfferedFirst(a, id) || (LeafVisits(a, id) == 0 && OfferedFirst(b, id))
  {
    if a == [] {
      assert a + b == b;
    } else {
      assert (a + b)[1..] == a[1..] + b;
      LeafVisitsConcat(a[1..], b, id);
    }
  }

  lemma {:induction false} OffersListed(ids: seq<WindowId>, id: WindowId)
    ensures LeafVisits(Offers(ids), id) == 0
    ensures OfferedFirst(Offers(ids), id) <==> id in ids
  {
    if ids == [] {
    } else {
      assert Offers(ids)[1..] == Offers(ids[1..]);
      OffersListed(ids[1..], id);
    }
  }

  lemma {:induction false} TreeNodesOnly(workspace: WorkspaceId, nodes: seq<Node>)
    ensures NodesOnly(TreeVisits(workspace, nodes))
  {
    if nodes == [] {
    } else {
      TreeNodesOnly(workspace, nodes[1..]);
    }
  }

  lemma {:induction false} GroupNodesOnly(workspace: WorkspaceId, groups: seq<seq<Node>>)
    ensures NodesOnly(GroupVisits(workspace, groups))
  {
    if groups == [] {
    } else {
      TreeNodesOnly(workspace, groups[0]);
      GroupNodesOnly(workspace, groups[1..]);
    }
  }

  lemma {:induction false} WorkspaceNodesOnly(workspaces: seq<Workspace>)
    ensures NodesOnly(AllWorkspaceVisits(workspaces))
  {
    if workspaces == [] {
    } else {
      TreeNodesOnly(workspaces[0].id, workspaces[0].tiling);
      GroupNodesOnly(workspaces[0].id, Reversed(workspaces[0].groups));
      WorkspaceNodesOnly(workspaces[1..]);
    }
  }

  lemma {:induction false} ScratchpadNodesOnly(nodes: seq<(NodeId, Option<WindowId>)>)
    ensures NodesOnly(ScratchpadVisits(nodes))
  {
    if nodes == [] {
    } else {
      ScratchpadNodesOnly(nodes[1..]);
    }
  }

  /** How often a window is listed, for every layout whatsoever. */
  lemma CandidateListings(l: Layout, id: WindowId)
    ensures var leaves := LeafVisits(TreePart(l), id);
            Listings(Candidates(l), id) ==
            leaves + (if id in l.order && (leaves == 0 || OfferedFirst(TreePart(l), id)) then 1 else 0)
  {
    WorkspaceNodesOnly(l.workspaces);
    ScratchpadNodesOnly(l.scratchpadNodes);
    var rest := Part(l.order, l.hidden, true) + Part(l.order, l.hidden, false);
    assert Visits(l) == TreePart(l) + Offers(rest);
    WalkListings(Visits(l), Elements(l.order), id);
    LeafVisitsConcat(TreePart(l), Offers(rest), id);
    OffersListed(rest, id);
    PartIff(l.order, l.hidden, true, id);
    PartIff(l.order, l.hidden, false, id);
  }

  /** A window is listed exactly once if and only if it has a snapshot and no leaf, or one leaf and no snapshot
      that some workspace offered before that leaf. */
  lemma ListedOnceIff(l: Layout, id: WindowId)
    ensures var leaves := LeafVisits(TreePart(l), id);
            Listings(Candidates(l), id) == 1 <==>
            || (leaves == 0 && id in l.order)
            || (leaves == 1 && !(id in l.order && OfferedFirst(TreePart(l), id)))
  {
    CandidateListings(l, id);
  }

  predicate PlainFloating(workspaces: seq<Workspace>, id: WindowId) {
    exists i :: 0 <= i < |workspaces| && id in workspaces[i].floating
  }

  lemma {:induction false} ReversedSame<T>(s: seq<T>, x: T)
    ensures x in Reversed(s) <==> x in s
  {
    if s == [] {
    } else {
      ReversedSame(s[..|s| - 1], x);
      assert s == s[..|s| - 1] + [s[|s| - 1]];
    }
  }

  lemma {:induction false} TreesOfferNothing(workspace: WorkspaceId, nodes: seq<Node>, id: WindowId)
    ensures !OfferedFirst(TreeVisits(workspace, nodes), id)
  {
    if nodes == [] {
    } else {
      TreesOfferNothing(workspace, nodes[1..], id);
      var first := match nodes[0]
                   case Split(node) => [VisitNode(NodeCandidate(Container(workspace, node), node))]
                   case Leaf(_, Some(window)) => [VisitLeaf(window)]
                   case Leaf(_, None) => [];
      LeafVisitsConcat(first, TreeVisits(workspace, nodes[1..]), id);
    }
  }

  lemma {:induction false} GroupsOfferNothing(workspace: WorkspaceId, groups: seq<seq<Node>>, id: WindowId)
    ensures !OfferedFirst(GroupVisits(workspace, groups), id)
  {
    if groups == [] {
    } else {
      TreesOfferNothing(workspace, groups[0], id);
      GroupsOfferNothing(workspace, groups[1..], id);
      LeafVisitsConcat(TreeVisits(workspace, groups[0]), GroupVisits(workspace, groups[1..]), id);
    }
  }

  lemma {:induction false} OfferedIsFloating(workspaces: seq<Workspace>, id: WindowId)
    requires OfferedFirst(AllWorkspaceVisits(workspaces), id)
    ensures PlainFloating(workspaces, id)
  {
    if workspaces == [] {
    } else {
      var w := workspaces[0];
      var tiling, floating, groups :=
        TreeVisits(w.id, w.tiling), Offers(Reversed(w.floating)), GroupVisits(w.id, Reversed(w.groups));
      LeafVisitsConcat(tiling + floating + groups, AllWorkspaceVisits(workspaces[1..]), id);
      LeafVisitsConcat(tiling + floating, groups, id);
      LeafVisitsConcat(tiling, floating, id);
      TreesOfferNothing(w.id, w.tiling, id);
      GroupsOfferNothing(w.id, Reversed(w.groups), id);
      OffersListed(Reversed(w.floating), id);
      ReversedSame(w.floating, id);
      if id !in w.floating {
        OfferedIsFloating(workspaces[1..], id);
        var i :| 0 <= i < |workspaces[1..]| && id in workspaces[1..][i].floating;
        assert id in workspaces[i + 1].floating;
      }
    }
  }

  lemma {:induction false} ScratchpadOffersNothing(nodes: seq<(NodeId, Option<WindowId>)>, id: WindowId)
    ensures !OfferedFirst(ScratchpadVisits(nodes), id)
  {
    if nodes == [] {
    } else {
      ScratchpadOffersNothing(nodes[1..], id);
      var first := match nodes[0].1
                   case Some(window) => [VisitNode(NodeCandidate(Window(window), nodes[0].0))]
                   case None => [];
      LeafVisitsConcat(first, ScratchpadVisits(nodes[1..]), id);
    }
  }

  /** A window that is a leaf at most once, and not at all if it floats alone, is listed exactly once if it has
      a snapshot or a leaf, and never otherwise. */
  lemma EveryWindowOnce(l: Layout, id: WindowId)
    requires LeafVisits(TreePart(l), id) <= 1
    requires PlainFloating(l.workspaces, id) ==> LeafVisits(TreePart(l), id) == 0
    ensures Listings(Candidates(l), id) == if id in l.order || LeafVisits(TreePart(l), id) == 1 then 1 else 0
  {
    CandidateListings(l, id);
    LeafVisitsConcat(AllWorkspaceVisits(l.workspaces), ScratchpadVisits(l.scratchpadNodes), id);
    ScratchpadOffersNothing(l.scratchpadNodes, id);
    if OfferedFirst(AllWorkspaceVisits(l.workspaces), id) {
      OfferedIsFloating(l.workspaces, id);
    }
  }

  // ----- The walk as loops over a table of snapshots

  /** The walk with the candidate list and the snapshots it works on. */
  function Push(candidates: seq<Candidate>, visits: seq<Visit>, waiting: set<WindowId>): (seq<Candidate>, set<WindowId>)
    decreases |visits|
  {
    if visits == [] then (candidates, waiting)
    else
      match visits[0]
      case VisitLeaf(id) => Push(candidates + [WindowCandidate(id)], visits[1..], waiting - {id})
      case Offer(id) =>
        if id in waiting then Push(candidates + [WindowCandidate(id)], visits[1..], waiting - {id})
        else Push(candidates, visits[1..], waiting)
      case VisitNode(c) => Push(candidates + [c], visits[1..], waiting)
  }

  lemma {:induction false} PushIsWalk(candidates: seq<Candidate>, visits: seq<Visit>, waiting: set<WindowId>)
    ensures Push(candidates, visits, waiting).0 == candidates + Walk(visits, waiting)
    decreases |visits|, 0
  {
    if visits == [] {
    } else {
      var rest := visits[1..];
      match visits[0]
      case VisitLeaf(id) => PushListed(candidates, WindowCandidate(id), rest, waiting - {id});
      case Offer(id) =>
        if id in waiting {
          PushListed(candidates, WindowCandidate(id), rest, waiting - {id});
        } else {
          assert waiting - {id} == waiting;
          PushIsWalk(candidates, rest, waiting);
          assert [] + Walk(rest, waiting) == Walk(rest, waiting);
        }
      case VisitNode(c) => PushListed(candidates, c, rest, waiting);
    }
  }

  lemma {:induction false} PushListed(candidates: seq<Candidate>, c: Candidate, rest: seq<Visit>, waiting: set<WindowId>)
    ensures Push(candidates + [c], rest, waiting).0 == candidates + ([c] + Walk(rest, waiting))
    decreases |rest|, 1
  {
    PushIsWalk(candidates + [c], rest, waiting);
    assert candidates + [c] + Walk(rest, waiting) == candidates + ([c] + Walk(rest, waiting));
  }

  lemma {:induction false} PushConcat(candidates: seq<Candidate>, a: seq<Visit>, b: seq<Visit>, waiting: set<WindowId>)
    ensures Push(candidates, a + b, waiting) ==
            var (c, w) := Push(candidates, a, waiting); Push(c, b, w)
    decreases |a|
  {
    if a == [] {
      assert a + b == b;
    } else {
      assert (a + b)[1..] == a[1..] + b;
      match a[0]
      case VisitLeaf(id) => PushConcat(candidates + [WindowCandidate(id)], a[1..], b, waiting - {id});
      case Offer(id) =>
        if id in waiting {
          PushConcat(candidates + [WindowCandidate(id)], a[1..], b, waiting - {id});
        } else {
          PushConcat(candidates, a[1..], b, waiting);
        }
      case VisitNode(c) => PushConcat(candidates + [c], a[1..], b, waiting);
    }
  }

  method PushTree(workspace: WorkspaceId, nodes: seq<Node>, candidates: seq<Candidate>, snapshots: set<WindowId>)
    returns (out: seq<Candidate>, left: set<WindowId>)
    ensures (out, left) == Push(candidates, TreeVisits(workspace, nodes), snapshots)
  {
    out, left := candidates, snapshots;
    assert nodes[0..] == nodes;
    for i := 0 to |nodes|
      invariant Push(out, TreeVisits(workspace, nodes[i..]), left) ==
                Push(candidates, TreeVisits(workspace, nodes), snapshots)
    {
      assert nodes[i..][1..] == nodes[i + 1..];
      ghost var rest := TreeVisits(workspace, nodes[i + 1..]);
      match nodes[i] {
        case Split(node) =>
          ghost var visit := VisitNode(NodeCandidate(Container(workspace, node), node));
          assert ([visit] + rest)[1..] == rest;
          out := out + [NodeCandidate(Container(workspace, node), node)];
        case Leaf(_, None) =>
          assert [] + rest == rest;
        case Leaf(_, Some(id)) =>
          assert ([VisitLeaf(id)] + rest)[1..] == rest;
          out, left := out + [WindowCandidate(id)], left - {id};
      }
    }
  }

  method OfferEach(ids: seq<WindowId>, candidates: seq<Candidate>, snapshots: set<WindowId>)
    returns (out: seq<Candidate>, left: set<WindowId>)
    ensures (out, left) == Push(candidates, Offers(ids), snapshots)
  {
    out, left := candidates, snapshots;
    assert ids[0..] == ids;
    for i := 0 to |ids|
      invariant Push(out, Offers(ids[i..]), left) == Push(candidates, Offers(ids), snapshots)
    {
      assert ids[i..][1..] == ids[i + 1..];
      assert Offers(ids[i..])[1..] == Offers(ids[i + 1..]);
      if ids[i] in left {
        out, left := out + [WindowCandidate(ids[i])], left - {ids[i]};
      }
    }
  }

  method PushGroups(workspace: WorkspaceId, groups: seq<seq<Node>>, candidates: seq<Candidate>, snapshots: set<WindowId>)
    returns (out: seq<Candidate>, left: set<WindowId>)
    ensures (out, left) == Push(candidates, GroupVisits(workspace, groups), snapshots)
  {
    out, left := candidates, snapshots;
    assert groups[0..] == groups;
    for i := 0 to |groups|
      invariant Push(out, GroupVisits(workspace, groups[i..]), left) ==
                Push(candidates, GroupVisits(workspace, groups), snapshots)
    {
      assert groups[i..][1..] == groups[i + 1..];
      PushConcat(out, TreeVisits(workspace, groups[i]), GroupVisits(workspace, groups[i + 1..]), left);
      out, left := PushTree(workspace, groups[i], out, left);
    }
  }

  method PushWorkspace(w: Workspace, candidates: seq<Candidate>, snapshots: set<WindowId>)
    returns (out: seq<Candidate>, left: set<WindowId>)
    ensures (out, left) == Push(candidates, WorkspaceVisits(w), snapshots)
  {
    ghost var trees, offers := TreeVisits(w.id, w.tiling), Offers(Reversed(w.floating));
    PushConcat(candidates, trees + offers, GroupVisits(w.id, Reversed(w.groups)), snapshots);
    PushConcat(candidates, trees, offers, snapshots);
    out, left := PushTree(w.id, w.tiling, candidates, snapshots);
    out, left := OfferEach(Reversed(w.floating), out, left);
    out, left := PushGroups(w.id, Reversed(w.groups), out, left);
  }

  method PushScratchpadNodes(nodes: seq<(NodeId, Option<WindowId>)>, candidates: seq<Candidate>,
                             ghost snapshots: set<WindowId>)
    returns (out: seq<Candidate>)
    ensures (out, snapshots) == Push(candidates, ScratchpadVisits(nodes), snapshots)
  {
    out := candidates;
    assert nodes[0..] == nodes;
    for i := 0 to |nodes|
      invariant Push(out, ScratchpadVisits(nodes[i..]), snapshots) == Push(candidates, ScratchpadVisits(nodes), snapshots)
    {
      assert nodes[i..][1..] == nodes[i + 1..];
      ghost var rest := ScratchpadVisits(nodes[i + 1..]);
      match nodes[i].1 {
        case Some(window) =>
          ghost var visit := VisitNode(NodeCandidate(Window(window), nodes[i].0));
          assert ([visit] + rest)[1..] == rest;
          out := out + [NodeCandidate(Window(window), nodes[i].0)];
        case None =>
          assert [] + rest == rest;
      }
    }
  }

  method PushWorkspaces(workspaces: seq<Workspace>, snapshots: set<WindowId>)
    returns (out: seq<Candidate>, left: set<WindowId>)
    ensures (out, left) == Push([], AllWorkspaceVisits(workspaces), snapshots)
  {
    out, left := [], snapshots;
    assert workspaces[0..] == workspaces;
    for i := 0 to |workspaces|
      invariant Push(out, AllWorkspaceVisits(workspaces[i..]), left) ==
                Push([], AllWorkspaceVisits(workspaces), snapshots)
    {
      assert workspaces[i..][1..] == workspaces[i + 1..];
      PushConcat(out, WorkspaceVisits(workspaces[i]), AllWorkspaceVisits(workspaces[i + 1..]), left);
      out, left := PushWorkspace(workspaces[i], out, left);
    }
  }

  /** `collect_candidates`. */
  method CollectCandidates(l: Layout) returns (candidates: seq<Candidate>)
    ensures candidates == Candidates(l)
  {
    var snapshots := Elements(l.order);
    ghost var scratchpad := ScratchpadVisits(l.scratchpadNodes);
    var rest := Part(l.order, l.hidden, true) + Part(l.order, l.hidden, false);
    PushConcat([], AllWorkspaceVisits(l.workspaces) + scratchpad, Offers(rest), snapshots);
    PushConcat([], AllWorkspaceVisits(l.workspaces), scratchpad, snapshots);
    PushIsWalk([], Visits(l), snapshots);
    var left;
    candidates, left := PushWorkspaces(l.workspaces, snapshots);
    candidates := PushScratchpadNodes(l.scratchpadNodes, candidates, left);
    candidates, left := OfferEach(rest, candidates, left);
  }

  // ----- Selecting targets

  function TargetOf(c: Candidate): Target {
    match c
    case WindowCandidate(id) => Window(id)
    case NodeCandidate(target, _) => target
  }

  predicate Selects(c: Candidate, matches: Candidate -> bool, t: Target) {
    matches(c) && TargetOf(c) == t
  }

  /** The first candidate that selects the target, or the length if none does. */
  function FirstIndex(candidates: seq<Candidate>, matches: Candidate -> bool, t: Target): (i: nat)
    ensures i <= |candidates|
    ensures i < |candidates| ==> Selects(candidates[i], matches, t)
    ensures forall j :: 0 <= j < i ==> !Selects(candidates[j], matches, t)
  {
    if candidates == [] then 0
    else
      var n := |candidates| - 1;
      var i := FirstIndex(candidates[..n], matches, t);
      if i < n then i else if Selects(candidates[n], matches, t) then n else n + 1
  }

  function Selected(candidates: seq<Candidate>, matches: Candidate -> bool): seq<Target> {
    if candidates == [] then []
    else
      var n := |candidates| - 1;
      var front := Selected(candidates[..n], matches);
      if matches(candidates[n]) && TargetOf(candidates[n]) !in front then front + [TargetOf(candidates[n])] else front
  }

  /** A target is selected exactly when some candidate for it matches. */
  lemma {:induction false} SelectedIffMatched(candidates: seq<Candidate>, matches: Candidate -> bool, t: Target)
    ensures t in Selected(candidates, matches) <==> FirstIndex(candidates, matches, t) < |candidates|
  {
    if candidates == [] {
    } else {
      SelectedIffMatched(candidates[..|candidates| - 1], matches, t);
    }
  }

  /** Selected targets come in the order of their first matching candidates, so none comes twice. */
  lemma {:induction false} SelectedInOrder(candidates: seq<Candidate>, matches: Candidate -> bool, i: nat, j: nat)
    requires i < j < |Selected(candidates, matches)|
    ensures var s := Selected(candidates, matches);
            FirstIndex(candidates, matches, s[i]) < FirstIndex(candidates, matches, s[j])
  {
    var n := |candidates| - 1;
    var front, s := Selected(candidates[..n], matches), Selected(candidates, matches);
    SelectedIffMatched(candidates[..n], matches, s[i]);
    SelectedIffMatched(candidates[..n], matches, s[j]);
    if j == |front| {
    } else {
      SelectedInOrder(candidates[..n], matches, i, j);
    }
  }

  /** `matching_targets` without an urgency criterion. */
  method MatchingTargets(candidates: seq<Candidate>, matches: Candidate -> bool) returns (targets: seq<Target>)
    ensures targets == Selected(candidates, matches)
  {
    targets := [];
    for k := 0 to |candidates|
      invariant targets == Selected(candidates[..k], matches)
    {
      assert candidates[..k + 1][..k] == candidates[..k];
      var c := candidates[k];
      if matches(c) && TargetOf(c) !in targets {
        targets := targets + [TargetOf(c)];
      }
    }
    assert candidates[..|candidates|] == candidates;
  }

  // ----- The urgency criterion

  datatype Urgent = Urgent(id: WindowId, since: Option<nat>)

  /** `Option<Duration>` orders `None` before every time. */
  function Rank(u: Urgent): int {
    match u.since case None => -1 case Some(time) => time
  }

  /** Inserts after all entries that do not rank higher, which is what makes the sort stable. */
  function InsertStable(sorted: seq<Urgent>, u: Urgent): (r: seq<Urgent>)
    ensures |r| == |sorted| + 1
  {
    if sorted == [] then [u]
    else if Rank(sorted[|sorted| - 1]) <= Rank(u) then sorted + [u]
    else InsertStable(sorted[..|sorted| - 1], u) + [sorted[|sorted| - 1]]
  }

  /** A stable sort by urgency time. */
  function StableSort(s: seq<Urgent>): (r: seq<Urgent>)
    ensures |r| == |s|
  {
    if s == [] then [] else InsertStable(StableSort(s[..|s| - 1]), s[|s| - 1])
  }

  predicate Ascending(s: seq<Urgent>) {
    forall i :: 0 < i < |s| ==> Rank(s[i - 1]) <= Rank(s[i])
  }

  lemma {:induction false} InsertStableSorts(sorted: seq<Urgent>, u: Urgent)
    requires Ascending(sorted)
    ensures Ascending(InsertStable(sorted, u))
    ensures sorted != [] ==> InsertStable(sorted, u)[|sorted|] in {u, sorted[|sorted| - 1]}
  {
    if sorted == [] || Rank(sorted[|sorted| - 1]) <= Rank(u) {
    } else {
      InsertStableSorts(sorted[..|sorted| - 1], u);
    }
  }

  lemma {:induction false} InsertStablePermutes(sorted: seq<Urgent>, u: Urgent)
    ensures multiset(InsertStable(sorted, u)) == multiset(sorted) + multiset{u}
  {
    if sorted == [] {
    } else {
      var front := sorted[..|sorted| - 1];
      assert sorted == front + [sorted[|sorted| - 1]];
      InsertStablePermutes(front, u);
    }
  }

  lemma {:induction false} StableSortSorts(s: seq<Urgent>)
    ensures Ascending(StableSort(s)) && multiset(StableSort(s)) == multiset(s)
  {
    if s == [] {
    } else {
      assert s == s[..|s| - 1] + [s[|s| - 1]];
      StableSortSorts(s[..|s| - 1]);
      InsertStableSorts(StableSort(s[..|s| - 1]), s[|s| - 1]);
      InsertStablePermutes(StableSort(s[..|s| - 1]), s[|s| - 1]);
    }
  }

  lemma {:induction false} AscendingEnds(sorted: seq<Urgent>)
    requires Ascending(sorted) && sorted != []
    ensures Rank(sorted[0]) <= Rank(sorted[|sorted| - 1])
  {
    if |sorted| == 1 {
    } else {
      AscendingEnds(sorted[..|sorted| - 1]);
    }
  }

  lemma {:induction false} InsertStableEnds(sorted: seq<Urgent>, u: Urgent)
    requires Ascending(sorted) && sorted != []
    ensures InsertStable(sorted, u)[0] == if Rank(u) < Rank(sorted[0]) then u else sorted[0]
    ensures var last := sorted[|sorted| - 1];
            InsertStable(sorted, u)[|sorted|] == if Rank(last) <= Rank(u) then u else last
  {
    AscendingEnds(sorted);
    var front := sorted[..|sorted| - 1];
    if Rank(sorted[|sorted| - 1]) <= Rank(u) || front == [] {
    } else {
      InsertStableEnds(front, u);
    }
  }

  /** The first entry of lowest rank. */
  function FirstMinimum(s: seq<Urgent>): (i: nat)
    requires s != []
    ensures i < |s|
    ensures forall j :: 0 <= j < i ==> Rank(s[i]) < Rank(s[j])
    ensures forall j :: i <= j < |s| ==> Rank(s[i]) <= Rank(s[j])
  {
    var n := |s| - 1;
    if n == 0 then 0
    else
      var i := FirstMinimum(s[..n]);
      if Rank(s[n]) < Rank(s[i]) then n else i
  }

  /** The last entry of highest rank. */
  function LastMaximum(s: seq<Urgent>): (i: nat)
    requires s != []
    ensures i < |s|
    ensures forall j :: 0 <= j <= i ==> Rank(s[j]) <= Rank(s[i])
    ensures forall j :: i < j < |s| ==> Rank(s[j]) < Rank(s[i])
  {
    var n := |s| - 1;
    if n == 0 then 0
    else
      var i := LastMaximum(s[..n]);
      if Rank(s[i]) <= Rank(s[n]) then n else i
  }

  /** Stability decides which of several equally urgent windows ends up first or last. */
  lemma {:induction false} SortEnds(s: seq<Urgent>)
    requires s != []
    ensures StableSort(s)[0] == s[FirstMinimum(s)]
    ensures StableSort(s)[|s| - 1] == s[LastMaximum(s)]
  {
    var n := |s| - 1;
    if n == 0 {
      assert StableSort(s[..n]) == [];
    } else {
      SortEnds(s[..n]);
      StableSortSorts(s[..n]);
      InsertStableEnds(StableSort(s[..n]), s[n]);
    }
  }

  /** `matching_targets` with an urgency criterion: the oldest selects the first window of minimal time, the
      latest the last window of maximal time. */
  method UrgentTarget(urgent: seq<Urgent>, latest: bool) returns (target: Option<Target>)
    ensures target == if urgent == [] then None
                      else Some(Window(urgent[if latest then LastMaximum(urgent) else FirstMinimum(urgent)].id))
  {
    var sorted := StableSort(urgent);
    if latest {
      sorted := Reversed(sorted);
    }
    if sorted == [] {
      return None;
    }
    SortEnds(urgent);
    return Some(Window(sorted[0].id));
  }
}
