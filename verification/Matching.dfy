/** The interpreter on top of the criteria walk: `matching_targets` as the function that finds the targets of a
    criteria command and the windows of a `for_window` rule (`src/command/targeted.rs`).
  */
module Matching {
  import opened Commands
  import opened Criteria
  import opened ForWindow
  import opened Marks
  import opened Options
  import opened Placement

  /** Criteria as the walk evaluates them: with an urgency criterion only one window is selected. */
  datatype Query =
    | Ordinary(matches: Candidate -> bool)
    | Urgency(matches: Candidate -> bool, since: WindowId -> Option<nat>, latest: bool)

  /** The windows that match, with their urgency times, in walk order. */
  function UrgentWindows(candidates: seq<Candidate>, matches: Candidate -> bool, since: WindowId -> Option<nat>):
      seq<Urgent>
  {
    if candidates == [] then []
    else
      var front, c := candidates[..|candidates| - 1], candidates[|candidates| - 1];
      UrgentWindows(front, matches, since) +
      if c.WindowCandidate? && matches(c) then [Urgent(c.id, since(c.id))] else []
  }

  function Targets(candidates: seq<Candidate>, q: Query): seq<Target> {
    match q
    case Ordinary(matches) => Selected(candidates, matches)
    case Urgency(matches, since, latest) =>
      var urgent := UrgentWindows(candidates, matches, since);
      if urgent == [] then []
      else [Window(urgent[if latest then LastMaximum(urgent) else FirstMinimum(urgent)].id)]
  }

  /** `matching_targets` with both kinds of criteria. */
  method FindTargets(candidates: seq<Candidate>, q: Query) returns (targets: seq<Target>)
    ensures targets == Targets(candidates, q)
  {
    match q {
      case Ordinary(matches) => targets := MatchingTargets(candidates, matches);
      case Urgency(matches, since, latest) =>
        var urgent := [];
        for k := 0 to |candidates|
          invariant urgent == UrgentWindows(candidates[..k], matches, since)
        {
          assert candidates[..k + 1][..k] == candidates[..k];
          var c := candidates[k];
          if c.WindowCandidate? && matches(c) {
            urgent := urgent + [Urgent(c.id, since(c.id))];
          }
        }
        assert candidates[..|candidates|] == candidates;
        var target := UrgentTarget(urgent, latest);
        targets := if target.Some? then [target.value] else [];
    }
  }

  /** Urgency times in order, with windows that are not urgent before all others. */
  predicate NoLater(a: Option<nat>, b: Option<nat>) {
    a.None? || (b.Some? && a.value <= b.value)
  }

  predicate MatchingWindow(c: Candidate, matches: Candidate -> bool) {
    c.WindowCandidate? && matches(c)
  }

  /** The window at `k` wins against the one at `j`: the latest, and the last of several equally late ones, or
      else the oldest, and the first of several equally old ones. */
  predicate Wins(candidates: seq<Candidate>, since: WindowId -> Option<nat>, latest: bool, k: nat, j: nat)
    requires k < |candidates| && j < |candidates| && candidates[k].WindowCandidate? && candidates[j].WindowCandidate?
  {
    var a, b := since(candidates[k].id), since(candidates[j].id);
    if latest then NoLater(b, a) && (k < j ==> !NoLater(a, b))
    else NoLater(a, b) && (j < k ==> !NoLater(b, a))
  }

  function Choice(urgent: seq<Urgent>, latest: bool): (u: Urgent)
    requires urgent != []
  {
    urgent[if latest then LastMaximum(urgent) else FirstMinimum(urgent)]
  }

  /** One more window takes over if it is later, or as late, than the latest one, or older than the oldest one. */
  lemma ChoiceGrows(urgent: seq<Urgent>, u: Urgent, latest: bool)
    requires urgent != []
    ensures var best := Choice(urgent, latest);
            Choice(urgent + [u], latest) ==
            if (if latest then NoLater(best.since, u.since) else !NoLater(best.since, u.since)) then u else best
  {
    RanksCompare(Choice(urgent, latest), u);
    if latest {
      MaximumGrows(urgent, u);
    } else {
      MinimumGrows(urgent, u);
    }
  }

  lemma RanksCompare(a: Urgent, b: Urgent)
    ensures NoLater(a.since, b.since) <==> Rank(a) <= Rank(b)
  {}

  lemma MinimumGrows(urgent: seq<Urgent>, u: Urgent)
    requires urgent != []
    ensures var i := FirstMinimum(urgent);
            FirstMinimum(urgent + [u]) == if Rank(u) < Rank(urgent[i]) then |urgent| else i
  {
    assert (urgent + [u])[..|urgent|] == urgent;
  }

  lemma MaximumGrows(urgent: seq<Urgent>, u: Urgent)
    requires urgent != []
    ensures var i := LastMaximum(urgent);
            LastMaximum(urgent + [u]) == if Rank(urgent[i]) <= Rank(u) then |urgent| else i
  {
    assert (urgent + [u])[..|urgent|] == urgent;
  }

  lemma WinsTransfers(candidates: seq<Candidate>, since: WindowId -> Option<nat>, latest: bool, i: nat, n: nat, j: nat)
    requires i < n < |candidates| && j <= n
    requires candidates[i].WindowCandidate? && candidates[n].WindowCandidate? && candidates[j].WindowCandidate?
    requires j < n ==> Wins(candidates, since, latest, i, j)
    ensures var a, b := since(candidates[i].id), since(candidates[n].id);
            Wins(candidates, since, latest, if (if latest then NoLater(a, b) else !NoLater(a, b)) then n else i, j)
  {}

  predicate WinsAll(candidates: seq<Candidate>, matches: Candidate -> bool, since: WindowId -> Option<nat>,
                    latest: bool, k: nat)
    requires k < |candidates| && candidates[k].WindowCandidate?
  {
    forall j :: 0 <= j < |candidates| && MatchingWindow(candidates[j], matches) ==>
      Wins(candidates, since, latest, k, j)
  }

  lemma WinsAllGrows(candidates: seq<Candidate>, matches: Candidate -> bool, since: WindowId -> Option<nat>,
                     latest: bool, i: nat) returns (k: nat)
    requires i < |candidates| - 1 && candidates[i].WindowCandidate?
    requires WinsAll(candidates[..|candidates| - 1], matches, since, latest, i)
    ensures var n := |candidates| - 1;
            k == if MatchingWindow(candidates[n], matches) &&
                    (var a, b := since(candidates[i].id), since(candidates[n].id);
                     if latest then NoLater(a, b) else !NoLater(a, b)) then n else i
    ensures WinsAll(candidates, matches, since, latest, k)
  {
    var n := |candidates| - 1;
    var front := candidates[..n];
    if MatchingWindow(candidates[n], matches) {
      var a, b := since(candidates[i].id), since(candidates[n].id);
      k := if (if latest then NoLater(a, b) else !NoLater(a, b)) then n else i;
    } else {
      k := i;
    }
    forall j | 0 <= j < |candidates| && MatchingWindow(candidates[j], matches)
      ensures Wins(candidates, since, latest, k, j)
    {
      if j < n {
        assert front[j] == candidates[j] && Wins(front, since, latest, i, j);
      }
      if MatchingWindow(candidates[n], matches) {
        WinsTransfers(candidates, since, latest, i, n, j);
      }
    }
  }

  lemma {:induction false} UrgentWinner(candidates: seq<Candidate>, matches: Candidate -> bool,
                                        since: WindowId -> Option<nat>, latest: bool) returns (k: nat)
    requires UrgentWindows(candidates, matches, since) != []
    ensures k < |candidates| && MatchingWindow(candidates[k], matches)
    ensures Choice(UrgentWindows(candidates, matches, since), latest) ==
            Urgent(candidates[k].id, since(candidates[k].id))
    ensures WinsAll(candidates, matches, since, latest, k)
  {
    var n := |candidates| - 1;
    var front := candidates[..n];
    var before := UrgentWindows(front, matches, since);
    if before == [] {
      k := n;
      forall j | 0 <= j < |candidates| && MatchingWindow(candidates[j], matches)
        ensures j == n
      {
        if j < n {
          MatchIsUrgent(front, matches, since, j);
        }
      }
    } else {
      var i := UrgentWinner(front, matches, since, latest);
      k := WinsAllGrows(candidates, matches, since, latest, i);
      if MatchingWindow(candidates[n], matches) {
        ChoiceGrows(before, Urgent(candidates[n].id, since(candidates[n].id)), latest);
      } else {
        assert before + [] == before;
      }
    }
  }

  lemma {:induction false} MatchIsUrgent(candidates: seq<Candidate>, matches: Candidate -> bool,
                                         since: WindowId -> Option<nat>, j: nat)
    requires j < |candidates| && MatchingWindow(candidates[j], matches)
    ensures UrgentWindows(candidates, matches, since) != []
  {
    var n := |candidates| - 1;
    if j == n {
    } else {
      MatchIsUrgent(candidates[..n], matches, since, j);
    }
  }

  /** With an urgency criterion, as soon as any listed window matches, exactly one target is found, and it wins
      against every listed window that matches. */
  lemma UrgentFound(candidates: seq<Candidate>, matches: Candidate -> bool, since: WindowId -> Option<nat>,
                    latest: bool, some: nat) returns (k: nat)
    requires some < |candidates| && MatchingWindow(candidates[some], matches)
    ensures k < |candidates| && MatchingWindow(candidates[k], matches)
    ensures Targets(candidates, Urgency(matches, since, latest)) == [Window(candidates[k].id)]
    ensures WinsAll(candidates, matches, since, latest, k)
  {
    MatchIsUrgent(candidates, matches, since, some);
    k := UrgentWinner(candidates, matches, since, latest);
  }

  lemma {:induction false} UrgentIsCandidate(candidates: seq<Candidate>, matches: Candidate -> bool,
                                             since: WindowId -> Option<nat>, i: nat)
    requires i < |UrgentWindows(candidates, matches, since)|
    ensures var c := WindowCandidate(UrgentWindows(candidates, matches, since)[i].id); c in candidates && matches(c)
  {
    var front := candidates[..|candidates| - 1];
    if i == |UrgentWindows(front, matches, since)| {
    } else {
      UrgentIsCandidate(front, matches, since, i);
    }
  }

  /** Whatever the criteria, a target is found only through a candidate. */
  lemma TargetIsCandidate(candidates: seq<Candidate>, q: Query, t: Target)
    requires t in Targets(candidates, q)
    ensures exists c :: c in candidates && q.matches(c) && TargetOf(c) == t
  {
    match q
    case Ordinary(matches) =>
      SelectedIffMatched(candidates, matches, t);
      var c := candidates[FirstIndex(candidates, matches, t)];
      assert c in candidates && matches(c) && TargetOf(c) == t;
    case Urgency(matches, since, latest) =>
      var urgent := UrgentWindows(candidates, matches, since);
      var i := if latest then LastMaximum(urgent) else FirstMinimum(urgent);
      UrgentIsCandidate(candidates, matches, since, i);
      assert TargetOf(WindowCandidate(urgent[i].id)) == t;
  }

  // ----- Candidates are windows of the layout

  predicate Knows(known: set<WindowId>, v: Visit) {
    match v
    case VisitLeaf(id) => id in known
    case Offer(id) => id in known
    case VisitNode(c) => TargetOf(c).Window? ==> TargetOf(c).id in known
  }

  predicate KnowsAll(known: set<WindowId>, visits: seq<Visit>) {
    forall i :: 0 <= i < |visits| ==> Knows(known, visits[i])
  }

  lemma {:induction false} WalkKnown(visits: seq<Visit>, waiting: set<WindowId>, known: set<WindowId>, c: Candidate)
    requires KnowsAll(known, visits) && c in Walk(visits, waiting) && TargetOf(c).Window?
    ensures TargetOf(c).id in known
    decreases |visits|
  {
    var rest, left := visits[1..], match visits[0]
                                   case VisitLeaf(id) => waiting - {id}
                                   case Offer(id) => waiting - {id}
                                   case VisitNode(_) => waiting;
    assert Knows(known, visits[0]);
    if c !in Walk(rest, left) {
    } else {
      WalkKnown(rest, left, known, c);
    }
  }

  predicate LeavesKnown(nodes: seq<Node>, known: set<WindowId>) {
    forall i :: 0 <= i < |nodes| && nodes[i].Leaf? && nodes[i].window.Some? ==> nodes[i].window.value in known
  }

  lemma {:induction false} TreeKnown(workspace: WorkspaceId, nodes: seq<Node>, known: set<WindowId>)
    requires LeavesKnown(nodes, known)
    ensures KnowsAll(known, TreeVisits(workspace, nodes))
  {
    if nodes == [] {
    } else {
      TreeKnown(workspace, nodes[1..], known);
    }
  }

  lemma {:induction false} GroupsKnown(workspace: WorkspaceId, groups: seq<seq<Node>>, known: set<WindowId>)
    requires forall g :: 0 <= g < |groups| ==> LeavesKnown(groups[g], known)
    ensures KnowsAll(known, GroupVisits(workspace, groups))
  {
    if groups == [] {
    } else {
      TreeKnown(workspace, groups[0], known);
      GroupsKnown(workspace, groups[1..], known);
    }
  }

  lemma {:induction false} ObservedGroupsKnown(groups: seq<Tree>, known: set<WindowId>)
    ensures forall nodes :: nodes in ObservedGroups(groups, known) ==> LeavesKnown(nodes, known)
  {
    if groups == [] {
    } else {
      ObservedGroupsKnown(groups[1..], known);
    }
  }

  lemma SpaceKnown(s: Space, known: set<WindowId>)
    requires forall id :: id in Tiles(s) ==> id in known
    ensures KnowsAll(known, WorkspaceVisits(Observed(s, known)))
  {
    var w := Observed(s, known);
    TreeKnown(w.id, w.tiling, known);
    ObservedGroupsKnown(s.groups, known);
    forall g | 0 <= g < |Reversed(w.groups)|
      ensures Reversed(w.groups)[g] in w.groups
    {
      ReversedSame(w.groups, Reversed(w.groups)[g]);
    }
    GroupsKnown(w.id, Reversed(w.groups), known);
    forall i | 0 <= i < |Reversed(w.floating)|
      ensures Reversed(w.floating)[i] in known
    {
      ReversedSame(w.floating, Reversed(w.floating)[i]);
      PartIff(Tiles(s), Floating(s), true, Reversed(w.floating)[i]);
    }
  }

  lemma {:induction false} SpacesKnown(spaces: seq<Space>, known: set<WindowId>)
    requires forall id :: id in AllSpaceWindows(spaces) ==> id in known
    ensures KnowsAll(known, AllWorkspaceVisits(AllObserved(spaces, known)))
    ensures forall id :: id in AllTiles(spaces) ==> id in known
  {
    if spaces == [] {
    } else {
      SpaceKnown(spaces[0], known);
      SpacesKnown(spaces[1..], known);
      assert AllObserved(spaces, known)[1..] == AllObserved(spaces[1..], known);
    }
  }

  lemma {:induction false} AllRepresented(nodes: seq<Node>, window: Option<WindowId>)
    ensures forall i :: 0 <= i < |Represented(nodes, window)| ==> Represented(nodes, window)[i].1 == window
  {
    if nodes == [] {
    } else {
      AllRepresented(nodes[1..], window);
    }
  }

  lemma {:induction false} GroupNodesKnown(groups: seq<HiddenGroup>, known: set<WindowId>)
    ensures forall n :: n in GroupNodes(groups, known) && n.1.Some? ==> n.1.value in known
  {
    if groups == [] {
    } else {
      var ids := groups[0].windowIds;
      var window := if ids != [] && ids[0] in known then Some(ids[0]) else None;
      AllRepresented(Nodes(groups[0].tree), window);
      GroupNodesKnown(groups[1..], known);
    }
  }

  lemma {:induction false} ScratchpadKnown(nodes: seq<(NodeId, Option<WindowId>)>, known: set<WindowId>)
    requires forall n :: n in nodes && n.1.Some? ==> n.1.value in known
    ensures KnowsAll(known, ScratchpadVisits(nodes))
  {
    if nodes == [] {
    } else {
      ScratchpadKnown(nodes[1..], known);
      assert nodes[0] in nodes;
    }
  }

  lemma KnowsConcat(known: set<WindowId>, a: seq<Visit>, b: seq<Visit>)
    requires KnowsAll(known, a) && KnowsAll(known, b)
    ensures KnowsAll(known, a + b)
  {}

  lemma OffersKnown(ids: seq<WindowId>, known: set<WindowId>)
    requires forall id :: id in ids ==> id in known
    ensures KnowsAll(known, Offers(ids))
  {}

  /** Everything the walk visits is in the layout. */
  lemma ViewKnown(p: Placement)
    ensures KnowsAll(Elements(LayoutWindows(p)), Visits(View(p)))
  {
    var l, known := View(p), Elements(LayoutWindows(p));
    SpacesKnown(p.spaces, known);
    GroupNodesKnown(p.hiddenGroups, known);
    ScratchpadKnown(l.scratchpadNodes, known);
    var rest := Part(l.order, l.hidden, true) + Part(l.order, l.hidden, false);
    assert forall id :: id in l.order ==> id in known;
    forall id | id in rest
      ensures id in known
    {
      PartIff(l.order, l.hidden, true, id);
      PartIff(l.order, l.hidden, false, id);
    }
    OffersKnown(rest, known);
    KnowsConcat(known, AllWorkspaceVisits(l.workspaces), ScratchpadVisits(l.scratchpadNodes));
    KnowsConcat(known, AllWorkspaceVisits(l.workspaces) + ScratchpadVisits(l.scratchpadNodes), Offers(rest));
  }

  /** Every candidate for a window is for a window of the layout, wherever its windows are. */
  lemma CandidateIsWindow(p: Placement, c: Candidate)
    requires c in Candidates(View(p)) && TargetOf(c).Window?
    ensures TargetOf(c).id in LayoutWindows(p)
  {
    ViewKnown(p);
    WalkKnown(Visits(View(p)), Elements(View(p).order), Elements(LayoutWindows(p)), c);
  }

  // ----- The interpreter over layouts

  /** The environment in which criteria are matched by the walk over the current layout. */
  function Walking<W(!new)>(env: Env<W>, layout: W -> Placement, query: (W, Table, Commands.Criteria) -> Query): Env<W> {
    env.(matching := (w: W, t: Table, c: Commands.Criteria) => Targets(Candidates(View(layout(w))), query(w, t, c)))
  }

  /** All windows that any layout of the run has. */
  ghost predicate Mapped<W(!new)>(env: Env<W>, layout: W -> Placement) {
    forall w, id :: id in LayoutWindows(layout(w)) ==> id in env.windows
  }

  /** The walk only ever matches windows of the layout, so every theorem about well-formed environments holds of
      it. */
  lemma WalkingIsWellFormed<W(!new)>(env: Env<W>, layout: W -> Placement, query: (W, Table, Commands.Criteria) -> Query)
    requires Mapped(env, layout)
    ensures WellFormed(Walking(env, layout, query))
  {
    forall w, t, c, id | Window(id) in Walking(env, layout, query).matching(w, t, c)
      ensures id in env.windows
    {
      var candidates := Candidates(View(layout(w)));
      TargetIsCandidate(candidates, query(w, t, c), Window(id));
      var candidate :| candidate in candidates && TargetOf(candidate) == Window(id);
      CandidateIsWindow(layout(w), candidate);
    }
  }

  /** Running commands against a layout re-enters no rule, leaves every rule it enters and keeps marks unique. */
  lemma LayoutCommandsAreSound<W(!new)>(env: Env<W>, layout: W -> Placement,
                                        query: (W, Table, Commands.Criteria) -> Query, st: State<W>, commands: seq<Parsed>)
    requires Mapped(env, layout) && Valid(st.table)
    ensures WellFormed(Walking(env, layout, query))
    ensures var after := Execute(Walking(env, layout, query), st, commands, None).0;
            st.log <= after.log && Replay([], Written(st, after)) == Some([]) && Valid(after.table)
  {
    WalkingIsWellFormed(env, layout, query);
    NoRuleReenters(Walking(env, layout, query), st, commands);
  }

  /** A window of a hidden group is found only through a node that stands for it. */
  lemma GroupedTargetIsNode(p: Placement, q: Query, id: WindowId) returns (node: NodeId)
    requires WellPlaced(p) && id in GroupWindows(p.hiddenGroups) && Window(id) in Targets(Candidates(View(p)), q)
    ensures NodeCandidate(Window(id), node) in Candidates(View(p)) && q.matches(NodeCandidate(Window(id), node))
  {
    var candidates := Candidates(View(p));
    GroupedIsUnlisted(p, id);
    TargetIsCandidate(candidates, q, Window(id));
    var c :| c in candidates && q.matches(c) && TargetOf(c) == Window(id);
    node := c.node;
  }

  /** No rule matches a window of a hidden group unless its criteria match a node that stands for the window. */
  lemma RulesSkipGrouped<W(!new)>(env: Env<W>, layout: W -> Placement, query: (W, Table, Commands.Criteria) -> Query,
                                  st: State<W>, id: WindowId, r: Rule)
    requires WellPlaced(layout(st.world)) && id in GroupWindows(layout(st.world).hiddenGroups)
    requires forall node :: NodeCandidate(Window(id), node) in Candidates(View(layout(st.world))) ==>
               !query(st.world, st.table, r.criteria).matches(NodeCandidate(Window(id), node))
    ensures Window(id) !in Walking(env, layout, query).matching(st.world, st.table, r.criteria)
  {
    var q := query(st.world, st.table, r.criteria);
    if Window(id) in Targets(Candidates(View(layout(st.world))), q) {
      var node := GroupedTargetIsNode(layout(st.world), q, id);
      assert false;
    }
  }
}
