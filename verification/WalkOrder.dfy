/** In which order the criteria walk lists its candidates, and that it lists every container
    (`src/command/targeted.rs`).

    Every candidate comes from a place in the layout. The order of places is written out here without the walk.
  */
module WalkOrder {
  import opened Criteria
  import opened Marks
  import opened Options

  datatype Place =
    | Tiled(workspace: nat, node: nat)
    | Floats(workspace: nat, index: nat)
    | Grouped(workspace: nat, group: nat, node: nat)
    | Scratchpad(node: nat)
    | HiddenWindow(index: nat)
    | OtherWindow(index: nat)

  /** Workspace by workspace the tiling tree, the plain floating windows from the last to the first, and the
      floating groups from the last to the first, each tree with parents before children; then the nodes of the
      hidden groups, the hidden windows, and whatever is left. */
  predicate Before(p: Place, q: Place) {
    match (p, q)
    case (Tiled(v, n), Tiled(w, m)) => v < w || (v == w && n < m)
    case (Tiled(v, _), Floats(w, _)) => v <= w
    case (Tiled(v, _), Grouped(w, _, _)) => v <= w
    case (Floats(v, _), Tiled(w, _)) => v < w
    case (Floats(v, n), Floats(w, m)) => v < w || (v == w && n > m)
    case (Floats(v, _), Grouped(w, _, _)) => v <= w
    case (Grouped(v, _, _), Tiled(w, _)) => v < w
    case (Grouped(v, _, _), Floats(w, _)) => v < w
    case (Grouped(v, g, n), Grouped(w, h, m)) => v < w || (v == w && (g > h || (g == h && n < m)))
    case (Scratchpad(n), Scratchpad(m)) => n < m
    case (HiddenWindow(n), HiddenWindow(m)) => n < m
    case (OtherWindow(n), OtherWindow(m)) => n < m
    case (_, _) => Section(p) < Section(q)
  }

  function Section(p: Place): nat {
    match p
    case Scratchpad(_) => 1
    case HiddenWindow(_) => 2
    case OtherWindow(_) => 3
    case _ => 0
  }

  function NodeListing(workspace: WorkspaceId, n: Node): Option<Candidate> {
    match n
    case Split(node) => Some(NodeCandidate(Container(workspace, node), node))
    case Leaf(_, Some(window)) => Some(WindowCandidate(window))
    case Leaf(_, None) => None
  }

  /** The candidate for a place, if there is such a place and something to list at it. */
  function CandidateAt(l: Layout, p: Place): Option<Candidate> {
    match p
    case Tiled(w, n) =>
      if w < |l.workspaces| && n < |l.workspaces[w].tiling| then
        NodeListing(l.workspaces[w].id, l.workspaces[w].tiling[n])
      else None
    case Floats(w, i) =>
      if w < |l.workspaces| && i < |l.workspaces[w].floating| then Some(WindowCandidate(l.workspaces[w].floating[i]))
      else None
    case Grouped(w, g, n) =>
      if w < |l.workspaces| && g < |l.workspaces[w].groups| && n < |l.workspaces[w].groups[g]| then
        NodeListing(l.workspaces[w].id, l.workspaces[w].groups[g][n])
      else None
    case Scratchpad(n) =>
      if n < |l.scratchpadNodes| && l.scratchpadNodes[n].1.Some? then
        Some(NodeCandidate(Window(l.scratchpadNodes[n].1.value), l.scratchpadNodes[n].0))
      else None
    case HiddenWindow(i) =>
      if i < |l.order| && l.order[i] in l.hidden then Some(WindowCandidate(l.order[i])) else None
    case OtherWindow(i) =>
      if i < |l.order| && l.order[i] !in l.hidden then Some(WindowCandidate(l.order[i])) else None
  }

  /** Places at which the walk always lists something: nodes of trees, as opposed to windows that it lists only if
      they were not listed before. */
  predicate IsNode(p: Place) {
    p.Tiled? || p.Grouped? || p.Scratchpad?
  }

  predicate InOrder(ps: seq<Place>) {
    forall i, j :: 0 <= i < j < |ps| ==> Before(ps[i], ps[j])
  }

  // ----- Places of visits

  function ListedBy(v: Visit): Candidate {
    match v
    case VisitLeaf(id) => WindowCandidate(id)
    case Offer(id) => WindowCandidate(id)
    case VisitNode(c) => c
  }

  predicate Lined(l: Layout, visits: seq<Visit>, ps: seq<Place>) {
    && |visits| == |ps|
    && (forall i :: 0 <= i < |ps| ==> CandidateAt(l, ps[i]) == Some(ListedBy(visits[i])))
    && (forall i :: 0 <= i < |ps| ==> (visits[i].Offer? <==> !IsNode(ps[i])))
    && InOrder(ps)
  }

  lemma LinedConcat(l: Layout, a: seq<Visit>, ps: seq<Place>, b: seq<Visit>, qs: seq<Place>)
    requires Lined(l, a, ps) && Lined(l, b, qs)
    requires forall i, j :: 0 <= i < |ps| && 0 <= j < |qs| ==> Before(ps[i], qs[j])
    ensures Lined(l, a + b, ps + qs)
  {}

  lemma SectionsConcat(l: Layout, a: seq<Visit>, ps: seq<Place>, b: seq<Visit>, qs: seq<Place>, section: nat)
    requires Lined(l, a, ps) && Lined(l, b, qs)
    requires forall i :: 0 <= i < |ps| ==> Section(ps[i]) < section
    requires forall j :: 0 <= j < |qs| ==> section <= Section(qs[j])
    ensures Lined(l, a + b, ps + qs)
  {
    LinedConcat(l, a, ps, b, qs);
  }

  // ----- Lists with some entries left out

  /** The entries that are there. */
  function Pick<T>(source: seq<Option<T>>): (r: seq<T>)
    ensures |r| <= |source|
  {
    if source == [] then []
    else (match source[0] case None => [] case Some(x) => [x]) + Pick(source[1..])
  }

  /** Where the entries that are there come from. */
  function Origins<T>(source: seq<Option<T>>, ps: seq<Place>): (r: seq<Place>)
    requires |source| == |ps|
    ensures |r| == |Pick(source)|
  {
    if source == [] then []
    else (if source[0].Some? then [ps[0]] else []) + Origins(source[1..], ps[1..])
  }

  lemma {:induction false} OriginOf<T>(source: seq<Option<T>>, ps: seq<Place>, i: nat) returns (n: nat)
    requires |source| == |ps| && i < |Pick(source)|
    ensures n < |source| && source[n] == Some(Pick(source)[i]) && ps[n] == Origins(source, ps)[i]
  {
    if source[0].Some? && i == 0 {
      n := 0;
    } else {
      var m := OriginOf(source[1..], ps[1..], if source[0].Some? then i - 1 else i);
      n := m + 1;
    }
  }

  lemma {:induction false} OriginKept<T>(source: seq<Option<T>>, ps: seq<Place>, n: nat)
    requires |source| == |ps| && n < |source| && source[n].Some?
    ensures ps[n] in Origins(source, ps)
  {
    if n == 0 {
    } else {
      OriginKept(source[1..], ps[1..], n - 1);
    }
  }

  lemma {:induction false} OriginsInOrder<T>(source: seq<Option<T>>, ps: seq<Place>)
    requires |source| == |ps| && InOrder(ps)
    ensures InOrder(Origins(source, ps))
  {
    if source == [] {
    } else {
      var rest := Origins(source[1..], ps[1..]);
      OriginsInOrder(source[1..], ps[1..]);
      forall i | 0 <= i < |rest|
        ensures Before(ps[0], rest[i])
      {
        var n := OriginOf(source[1..], ps[1..], i);
        assert ps[n + 1] == rest[i];
      }
    }
  }

  predicate Fits(l: Layout, v: Visit, p: Place) {
    CandidateAt(l, p) == Some(ListedBy(v)) && (v.Offer? <==> !IsNode(p))
  }

  /** If every entry fits its place, what is there lines up. */
  lemma PickLined(l: Layout, source: seq<Option<Visit>>, ps: seq<Place>)
    requires |source| == |ps| && InOrder(ps)
    requires forall n :: 0 <= n < |ps| && source[n].Some? ==> Fits(l, source[n].value, ps[n])
    ensures Lined(l, Pick(source), Origins(source, ps))
  {
    OriginsInOrder(source, ps);
    forall i | 0 <= i < |Pick(source)|
      ensures Fits(l, Pick(source)[i], Origins(source, ps)[i])
    {
      var n := OriginOf(source, ps, i);
    }
  }

  // ----- Trees

  function NodeVisit(workspace: WorkspaceId, n: Node): Option<Visit> {
    match n
    case Split(node) => Some(VisitNode(NodeCandidate(Container(workspace, node), node)))
    case Leaf(_, Some(window)) => Some(VisitLeaf(window))
    case Leaf(_, None) => None
  }

  function NodeVisits(workspace: WorkspaceId, nodes: seq<Node>): (r: seq<Option<Visit>>)
    ensures |r| == |nodes| && forall i :: 0 <= i < |r| ==> r[i] == NodeVisit(workspace, nodes[i])
  {
    if nodes == [] then [] else [NodeVisit(workspace, nodes[0])] + NodeVisits(workspace, nodes[1..])
  }

  lemma {:induction false} TreeIsPick(workspace: WorkspaceId, nodes: seq<Node>)
    ensures TreeVisits(workspace, nodes) == Pick(NodeVisits(workspace, nodes))
  {
    if nodes == [] {
    } else {
      TreeIsPick(workspace, nodes[1..]);
      assert NodeVisits(workspace, nodes)[1..] == NodeVisits(workspace, nodes[1..]);
    }
  }

  predicate AllFrom(ps: seq<Place>, from: seq<Place>) {
    forall i :: 0 <= i < |ps| ==> ps[i] in from
  }

  lemma OriginsFrom<T>(source: seq<Option<T>>, ps: seq<Place>)
    requires |source| == |ps|
    ensures AllFrom(Origins(source, ps), ps)
  {
    forall i | 0 <= i < |Origins(source, ps)|
      ensures Origins(source, ps)[i] in ps
    {
      var n := OriginOf(source, ps, i);
    }
  }

  predicate NodeAt(l: Layout, workspace: WorkspaceId, n: Node, p: Place) {
    IsNode(p) && CandidateAt(l, p) == NodeListing(workspace, n)
  }

  lemma NodeFits(l: Layout, workspace: WorkspaceId, n: Node, p: Place)
    requires NodeAt(l, workspace, n, p)
    ensures CandidateAt(l, p).Some? <==> NodeVisit(workspace, n).Some?
    ensures NodeVisit(workspace, n).Some? ==> Fits(l, NodeVisit(workspace, n).value, p)
  {}

  /** The places of a tree's nodes, given one place for each. */
  lemma TreePlaces(l: Layout, workspace: WorkspaceId, nodes: seq<Node>, from: seq<Place>) returns (ps: seq<Place>)
    requires |from| == |nodes| && InOrder(from)
    requires forall n :: 0 <= n < |from| ==> NodeAt(l, workspace, nodes[n], from[n])
    ensures Lined(l, TreeVisits(workspace, nodes), ps) && AllFrom(ps, from)
    ensures forall n :: 0 <= n < |from| && CandidateAt(l, from[n]).Some? ==> from[n] in ps
  {
    var source := NodeVisits(workspace, nodes);
    TreeIsPick(workspace, nodes);
    forall n | 0 <= n < |from|
      ensures source[n].Some? ==> Fits(l, source[n].value, from[n])
      ensures CandidateAt(l, from[n]).Some? ==> from[n] in Origins(source, from)
    {
      NodeFits(l, workspace, nodes[n], from[n]);
      if source[n].Some? {
        OriginKept(source, from, n);
      }
    }
    PickLined(l, source, from);
    OriginsFrom(source, from);
    ps := Origins(source, from);
  }

  function TiledPlaces(w: nat, n: nat): (ps: seq<Place>)
    ensures |ps| == n && forall i :: 0 <= i < n ==> ps[i] == Tiled(w, i)
  {
    seq(n, i requires 0 <= i < n => Tiled(w, i))
  }

  function GroupedPlaces(w: nat, g: nat, n: nat): (ps: seq<Place>)
    ensures |ps| == n && forall i :: 0 <= i < n ==> ps[i] == Grouped(w, g, i)
  {
    seq(n, i requires 0 <= i < n => Grouped(w, g, i))
  }

  lemma TilingPlaces(l: Layout, w: nat) returns (ps: seq<Place>)
    requires w < |l.workspaces|
    ensures var ws := l.workspaces[w]; Lined(l, TreeVisits(ws.id, ws.tiling), ps)
    ensures forall i :: 0 <= i < |ps| ==> ps[i].Tiled? && ps[i].workspace == w
    ensures forall p: Place :: p.Tiled? && p.workspace == w && CandidateAt(l, p).Some? ==> p in ps
  {
    var ws := l.workspaces[w];
    var from := TiledPlaces(w, |ws.tiling|);
    ps := TreePlaces(l, ws.id, ws.tiling, from);
    forall p: Place | p.Tiled? && p.workspace == w && CandidateAt(l, p).Some?
      ensures p in ps
    {
      assert from[p.node] == p;
    }
  }

  lemma GroupPlaces(l: Layout, w: nat, g: nat) returns (ps: seq<Place>)
    requires w < |l.workspaces| && g < |l.workspaces[w].groups|
    ensures var ws := l.workspaces[w]; Lined(l, TreeVisits(ws.id, ws.groups[g]), ps)
    ensures forall i :: 0 <= i < |ps| ==> ps[i].Grouped? && ps[i].workspace == w && ps[i].group == g
    ensures forall p: Place :: p.Grouped? && p.workspace == w && p.group == g && CandidateAt(l, p).Some? ==> p in ps
  {
    var ws := l.workspaces[w];
    var from := GroupedPlaces(w, g, |ws.groups[g]|);
    ps := TreePlaces(l, ws.id, ws.groups[g], from);
    forall p: Place | p.Grouped? && p.workspace == w && p.group == g && CandidateAt(l, p).Some?
      ensures p in ps
    {
      assert from[p.node] == p;
    }
  }

  lemma {:induction false} GroupsPlaces(l: Layout, w: nat, m: nat) returns (ps: seq<Place>)
    requires w < |l.workspaces| && m <= |l.workspaces[w].groups|
    ensures var ws := l.workspaces[w]; Lined(l, GroupVisits(ws.id, Reversed(ws.groups[..m])), ps)
    ensures forall i :: 0 <= i < |ps| ==> ps[i].Grouped? && ps[i].workspace == w && ps[i].group < m
    ensures forall p: Place :: p.Grouped? && p.workspace == w && p.group < m && CandidateAt(l, p).Some? ==> p in ps
  {
    var ws := l.workspaces[w];
    if m == 0 {
      ps := [];
    } else {
      var groups := ws.groups[..m];
      var first := GroupPlaces(l, w, m - 1);
      var rest := GroupsPlaces(l, w, m - 1);
      assert groups[..|groups| - 1] == ws.groups[..m - 1] && groups[|groups| - 1] == ws.groups[m - 1];
      assert Reversed(groups)[1..] == Reversed(ws.groups[..m - 1]);
      LinedConcat(l, TreeVisits(ws.id, ws.groups[m - 1]), first, GroupVisits(ws.id, Reversed(ws.groups[..m - 1])), rest);
      ps := first + rest;
    }
  }

  lemma {:induction false} ReversedAt<T>(s: seq<T>, i: nat)
    requires i < |s|
    ensures Reversed(s)[i] == s[|s| - 1 - i]
  {
    if i == 0 {
    } else {
      ReversedAt(s[..|s| - 1], i - 1);
    }
  }

  lemma FloatingPlaces(l: Layout, w: nat) returns (ps: seq<Place>)
    requires w < |l.workspaces|
    ensures Lined(l, Offers(Reversed(l.workspaces[w].floating)), ps)
    ensures forall i :: 0 <= i < |ps| ==> ps[i].Floats? && ps[i].workspace == w
  {
    var floating := l.workspaces[w].floating;
    ps := seq(|floating|, i requires 0 <= i < |floating| => Floats(w, |floating| - 1 - i));
    forall i | 0 <= i < |floating|
      ensures Reversed(floating)[i] == floating[|floating| - 1 - i]
    {
      ReversedAt(floating, i);
    }
  }

  lemma WorkspacePlaces(l: Layout, w: nat) returns (ps: seq<Place>)
    requires w < |l.workspaces|
    ensures Lined(l, WorkspaceVisits(l.workspaces[w]), ps)
    ensures forall i :: 0 <= i < |ps| ==> Section(ps[i]) == 0 && ps[i].workspace == w
    ensures forall p :: IsNode(p) && Section(p) == 0 && p.workspace == w && CandidateAt(l, p).Some? ==> p in ps
  {
    var ws := l.workspaces[w];
    var tiling := TilingPlaces(l, w);
    var floating := FloatingPlaces(l, w);
    var groups := GroupsPlaces(l, w, |ws.groups|);
    assert ws.groups[..|ws.groups|] == ws.groups;
    var trees, offers := TreeVisits(ws.id, ws.tiling), Offers(Reversed(ws.floating));
    LinedConcat(l, trees, tiling, offers, floating);
    LinedConcat(l, trees + offers, tiling + floating, GroupVisits(ws.id, Reversed(ws.groups)), groups);
    ps := tiling + floating + groups;
  }

  lemma {:induction false} AllWorkspacePlaces(l: Layout, w: nat) returns (ps: seq<Place>)
    requires w <= |l.workspaces|
    ensures Lined(l, AllWorkspaceVisits(l.workspaces[w..]), ps)
    ensures forall i :: 0 <= i < |ps| ==> Section(ps[i]) == 0 && w <= ps[i].workspace
    ensures forall p :: IsNode(p) && Section(p) == 0 && w <= p.workspace && CandidateAt(l, p).Some? ==> p in ps
    decreases |l.workspaces| - w
  {
    if w == |l.workspaces| {
      ps := [];
    } else {
      var first := WorkspacePlaces(l, w);
      var rest := AllWorkspacePlaces(l, w + 1);
      assert l.workspaces[w..][1..] == l.workspaces[w + 1..];
      LinedConcat(l, WorkspaceVisits(l.workspaces[w]), first, AllWorkspaceVisits(l.workspaces[w + 1..]), rest);
      ps := first + rest;
    }
  }

  // ----- Hidden groups and whatever is left

  function HiddenNodeVisit(n: (NodeId, Option<WindowId>)): Option<Visit> {
    match n.1 case None => None case Some(id) => Some(VisitNode(NodeCandidate(Window(id), n.0)))
  }

  function HiddenNodeVisits(nodes: seq<(NodeId, Option<WindowId>)>): (r: seq<Option<Visit>>)
    ensures |r| == |nodes| && forall i :: 0 <= i < |r| ==> r[i] == HiddenNodeVisit(nodes[i])
  {
    if nodes == [] then [] else [HiddenNodeVisit(nodes[0])] + HiddenNodeVisits(nodes[1..])
  }

  lemma {:induction false} ScratchpadIsPick(nodes: seq<(NodeId, Option<WindowId>)>)
    ensures ScratchpadVisits(nodes) == Pick(HiddenNodeVisits(nodes))
  {
    if nodes == [] {
    } else {
      ScratchpadIsPick(nodes[1..]);
      assert HiddenNodeVisits(nodes)[1..] == HiddenNodeVisits(nodes[1..]);
    }
  }

  function HiddenNodePlaces(n: nat): (ps: seq<Place>)
    ensures |ps| == n && forall i :: 0 <= i < n ==> ps[i] == Scratchpad(i)
  {
    seq(n, i requires 0 <= i < n => Scratchpad(i))
  }

  lemma ScratchpadPlaces(l: Layout) returns (ps: seq<Place>)
    ensures Lined(l, ScratchpadVisits(l.scratchpadNodes), ps)
    ensures forall i :: 0 <= i < |ps| ==> ps[i].Scratchpad?
    ensures forall p: Place :: p.Scratchpad? && CandidateAt(l, p).Some? ==> p in ps
  {
    var source, from := HiddenNodeVisits(l.scratchpadNodes), HiddenNodePlaces(|l.scratchpadNodes|);
    ScratchpadIsPick(l.scratchpadNodes);
    PickLined(l, source, from);
    OriginsFrom(source, from);
    ps := Origins(source, from);
    forall p: Place | p.Scratchpad? && CandidateAt(l, p).Some?
      ensures p in ps
    {
      OriginKept(source, from, p.node);
    }
  }

  function PartOffers(ids: seq<WindowId>, chosen: set<WindowId>, keep: bool): (r: seq<Option<Visit>>)
    ensures |r| == |ids|
    ensures forall i :: 0 <= i < |r| ==> r[i] == if (ids[i] in chosen) == keep then Some(Offer(ids[i])) else None
  {
    if ids == [] then []
    else [if (ids[0] in chosen) == keep then Some(Offer(ids[0])) else None] + PartOffers(ids[1..], chosen, keep)
  }

  lemma {:induction false} PartIsPick(ids: seq<WindowId>, chosen: set<WindowId>, keep: bool)
    ensures Offers(Part(ids, chosen, keep)) == Pick(PartOffers(ids, chosen, keep))
  {
    if ids == [] {
    } else {
      PartIsPick(ids[1..], chosen, keep);
      assert PartOffers(ids, chosen, keep)[1..] == PartOffers(ids[1..], chosen, keep);
      OffersConcat(if (ids[0] in chosen) == keep then [ids[0]] else [], Part(ids[1..], chosen, keep));
      assert Offers([ids[0]]) == [Offer(ids[0])];
    }
  }

  function RemainingPlaces(hidden: bool, n: nat): (ps: seq<Place>)
    ensures |ps| == n && forall i :: 0 <= i < n ==> ps[i] == if hidden then HiddenWindow(i) else OtherWindow(i)
  {
    seq(n, i requires 0 <= i < n => if hidden then HiddenWindow(i) else OtherWindow(i))
  }

  lemma OffersConcat(a: seq<WindowId>, b: seq<WindowId>)
    ensures Offers(a + b) == Offers(a) + Offers(b)
  {}

  lemma RemainingInOrder(hidden: bool, n: nat)
    ensures InOrder(RemainingPlaces(hidden, n))
  {}

  lemma OfferFits(l: Layout, hidden: bool, i: nat)
    requires i < |l.order| && (l.order[i] in l.hidden) == hidden
    ensures Fits(l, Offer(l.order[i]), if hidden then HiddenWindow(i) else OtherWindow(i))
  {}

  lemma PartPlaces(l: Layout, hidden: bool) returns (ps: seq<Place>)
    ensures Lined(l, Offers(Part(l.order, l.hidden, hidden)), ps)
    ensures forall i :: 0 <= i < |ps| ==> if hidden then ps[i].HiddenWindow? else ps[i].OtherWindow?
  {
    var source, from := PartOffers(l.order, l.hidden, hidden), RemainingPlaces(hidden, |l.order|);
    PartIsPick(l.order, l.hidden, hidden);
    RemainingInOrder(hidden, |l.order|);
    forall n | 0 <= n < |from| && source[n].Some?
      ensures Fits(l, source[n].value, from[n])
    {
      OfferFits(l, hidden, n);
    }
    PickLined(l, source, from);
    OriginsFrom(source, from);
    ps := Origins(source, from);
  }

  lemma RestPlaces(l: Layout) returns (ps: seq<Place>)
    ensures Lined(l, Offers(Part(l.order, l.hidden, true) + Part(l.order, l.hidden, false)), ps)
    ensures forall i :: 0 <= i < |ps| ==> Section(ps[i]) >= 2
  {
    var hidden := PartPlaces(l, true);
    var others := PartPlaces(l, false);
    SectionsConcat(l, Offers(Part(l.order, l.hidden, true)), hidden, Offers(Part(l.order, l.hidden, false)), others, 3);
    OffersConcat(Part(l.order, l.hidden, true), Part(l.order, l.hidden, false));
    ps := hidden + others;
  }

  lemma VisitPlaces(l: Layout) returns (ps: seq<Place>)
    ensures Lined(l, Visits(l), ps)
    ensures forall p :: IsNode(p) && CandidateAt(l, p).Some? ==> p in ps
  {
    assert l.workspaces[0..] == l.workspaces;
    var workspaces := AllWorkspacePlaces(l, 0);
    var scratchpad := ScratchpadPlaces(l);
    var rest := RestPlaces(l);
    var trees, nodes := AllWorkspaceVisits(l.workspaces), ScratchpadVisits(l.scratchpadNodes);
    var offers := Offers(Part(l.order, l.hidden, true) + Part(l.order, l.hidden, false));
    SectionsConcat(l, trees, workspaces, nodes, scratchpad, 1);
    SectionsConcat(l, trees + nodes, workspaces + scratchpad, offers, rest, 2);
    ps := workspaces + scratchpad + rest;
  }

  // ----- Places of candidates

  /** What each visit of a walk lists, if anything: only offers can list nothing. */
  function Listed(visits: seq<Visit>, waiting: set<WindowId>): (r: seq<Option<Candidate>>)
    ensures |r| == |visits|
    ensures forall i :: 0 <= i < |r| ==> if r[i].Some? then r[i].value == ListedBy(visits[i]) else visits[i].Offer?
    decreases |visits|
  {
    if visits == [] then []
    else
      match visits[0]
      case VisitLeaf(id) => [Some(WindowCandidate(id))] + Listed(visits[1..], waiting - {id})
      case Offer(id) =>
        [if id in waiting then Some(WindowCandidate(id)) else None] + Listed(visits[1..], waiting - {id})
      case VisitNode(c) => [Some(c)] + Listed(visits[1..], waiting)
  }

  lemma {:induction false} WalkIsPick(visits: seq<Visit>, waiting: set<WindowId>)
    ensures Walk(visits, waiting) == Pick(Listed(visits, waiting))
    decreases |visits|
  {
    if visits == [] {
    } else {
      var left := match visits[0]
                  case VisitLeaf(id) => waiting - {id}
                  case Offer(id) => waiting - {id}
                  case VisitNode(_) => waiting;
      WalkIsPick(visits[1..], left);
      assert Listed(visits, waiting)[1..] == Listed(visits[1..], left);
    }
  }

  /** A walk keeps the order of its visits and drops only offers. */
  lemma WalkPlaces(l: Layout, visits: seq<Visit>, ps: seq<Place>, waiting: set<WindowId>) returns (qs: seq<Place>)
    requires Lined(l, visits, ps)
    ensures |qs| == |Walk(visits, waiting)| && InOrder(qs)
    ensures forall i :: 0 <= i < |qs| ==> CandidateAt(l, qs[i]) == Some(Walk(visits, waiting)[i])
    ensures forall p :: p in ps && IsNode(p) ==> p in qs
  {
    var source := Listed(visits, waiting);
    WalkIsPick(visits, waiting);
    OriginsInOrder(source, ps);
    qs := Origins(source, ps);
    forall i | 0 <= i < |qs|
      ensures CandidateAt(l, qs[i]) == Some(Walk(visits, waiting)[i])
    {
      var n := OriginOf(source, ps, i);
    }
    forall p | p in ps && IsNode(p)
      ensures p in qs
    {
      var n :| 0 <= n < |ps| && ps[n] == p;
      OriginKept(source, ps, n);
    }
  }

  /** The candidates come from places in the layout, in the order of these, and every node of a tree that has
      something to list is among them. */
  lemma CandidatesInOrder(l: Layout) returns (ps: seq<Place>)
    ensures |ps| == |Candidates(l)| && InOrder(ps)
    ensures forall i :: 0 <= i < |ps| ==> CandidateAt(l, ps[i]) == Some(Candidates(l)[i])
    ensures forall p :: IsNode(p) && CandidateAt(l, p).Some? ==> p in ps
  {
    var places := VisitPlaces(l);
    ps := WalkPlaces(l, Visits(l), places, Elements(l.order));
  }

  /** The workspace has the split in its tiling tree or in a floating group. */
  predicate HasSplit(w: Workspace, node: NodeId) {
    Split(node) in w.tiling || exists g :: 0 <= g < |w.groups| && Split(node) in w.groups[g]
  }

  /** A container is a candidate if and only if some workspace with its id has it as a split. */
  lemma ContainerListedIff(l: Layout, id: WorkspaceId, node: NodeId)
    ensures NodeCandidate(Container(id, node), node) in Candidates(l) <==>
            exists w :: 0 <= w < |l.workspaces| && l.workspaces[w].id == id && HasSplit(l.workspaces[w], node)
  {
    var c := NodeCandidate(Container(id, node), node);
    var ps := CandidatesInOrder(l);
    if c in Candidates(l) {
      var i :| 0 <= i < |ps| && Candidates(l)[i] == c;
      assert CandidateAt(l, ps[i]) == Some(c);
      SplitAt(l, ps[i], id, node);
    }
    if w :| 0 <= w < |l.workspaces| && l.workspaces[w].id == id && HasSplit(l.workspaces[w], node) {
      var p := PlaceOfSplit(l, w, node);
      var i :| 0 <= i < |ps| && ps[i] == p;
      assert Candidates(l)[i] == c;
    }
  }

  lemma SplitAt(l: Layout, p: Place, id: WorkspaceId, node: NodeId)
    requires CandidateAt(l, p) == Some(NodeCandidate(Container(id, node), node))
    ensures Section(p) == 0 && p.workspace < |l.workspaces|
    ensures l.workspaces[p.workspace].id == id && HasSplit(l.workspaces[p.workspace], node)
  {
    if p.Tiled? {
      assert l.workspaces[p.workspace].tiling[p.node] == Split(node);
    } else if p.Grouped? {
      assert l.workspaces[p.workspace].groups[p.group][p.node] == Split(node);
    }
  }

  lemma PlaceOfSplit(l: Layout, w: nat, node: NodeId) returns (p: Place)
    requires w < |l.workspaces| && HasSplit(l.workspaces[w], node)
    ensures IsNode(p) && CandidateAt(l, p) == Some(NodeCandidate(Container(l.workspaces[w].id, node), node))
  {
    var ws := l.workspaces[w];
    if Split(node) in ws.tiling {
      var n :| 0 <= n < |ws.tiling| && ws.tiling[n] == Split(node);
      p := Tiled(w, n);
    } else {
      var g :| 0 <= g < |ws.groups| && Split(node) in ws.groups[g];
      var n :| 0 <= n < |ws.groups[g]| && ws.groups[g][n] == Split(node);
      p := Grouped(w, g, n);
    }
  }

  /** A node of a hidden group is a candidate for a window if and only if that window stands for it. */
  lemma HiddenNodeListedIff(l: Layout, id: WindowId, node: NodeId)
    ensures NodeCandidate(Window(id), node) in Candidates(l) <==> (node, Some(id)) in l.scratchpadNodes
  {
    var c := NodeCandidate(Window(id), node);
    var ps := CandidatesInOrder(l);
    if c in Candidates(l) {
      var i :| 0 <= i < |ps| && Candidates(l)[i] == c;
      assert CandidateAt(l, ps[i]) == Some(c);
      assert ps[i].Scratchpad? && l.scratchpadNodes[ps[i].node] == (node, Some(id));
    }
    if (node, Some(id)) in l.scratchpadNodes {
      var n: nat :| n < |l.scratchpadNodes| && l.scratchpadNodes[n] == (node, Some(id));
      var p := Scratchpad(n);
      assert CandidateAt(l, p) == Some(c) && IsNode(p);
      var i :| 0 <= i < |ps| && ps[i] == p;
      assert Candidates(l)[i] == c;
    }
  }
}
