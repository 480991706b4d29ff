/** Marks on windows and split containers (`src/swayward/marks.rs`, `src/command/targeted.rs`).

    A mark is a name held by at most one window or container. Windows have a forward and a reverse table
    that must agree; containers have only the reverse table.
  */
module Marks {
  import opened Options

  type Mark = string
  type WindowId = nat
  type NodeId = nat
  type WorkspaceId = nat

  datatype Target = Window(id: WindowId) | Container(workspace: WorkspaceId, node: NodeId)

  datatype Table = Table(
    marks: map<Mark, WindowId>,
    byWindow: map<WindowId, seq<Mark>>,
    byContainer: map<NodeId, seq<Mark>>
  )

  const EMPTY := Table(map[], map[], map[])

  // ----- Lists of marks

  /** `Vec::retain` of everything but `m`. */
  function Without(s: seq<Mark>, m: Mark): (r: seq<Mark>)
    ensures forall x :: x in r <==> x in s && x != m
    ensures m !in s ==> r == s
  {
    if s == [] then []
    else if s[0] == m then Without(s[1..], m)
    else [s[0]] + Without(s[1..], m)
  }

  predicate NoDuplicates(s: seq<Mark>) {
    forall i, j :: 0 <= i < j < |s| ==> s[i] != s[j]
  }

  lemma {:induction false} WithoutNoDuplicates(s: seq<Mark>, m: Mark)
    requires NoDuplicates(s)
    ensures NoDuplicates(Without(s, m))
  {
    if s == [] {
    } else {
      var rest := Without(s[1..], m);
      WithoutNoDuplicates(s[1..], m);
      assert forall i :: 0 <= i < |rest| ==> rest[i] in rest && rest[i] in s[1..];
    }
  }

  /** Taking one mark out leaves the others in place. */
  lemma {:induction false} WithoutKeepsOrder(before: seq<Mark>, m: Mark, after: seq<Mark>)
    requires m !in before && m !in after
    ensures Without(before + [m] + after, m) == before + after
  {
    if before == [] {
      assert [] + [m] + after == [m] + after && ([m] + after)[1..] == after;
    } else {
      assert (before + [m] + after)[1..] == before[1..] + [m] + after;
      WithoutKeepsOrder(before[1..], m, after);
    }
  }

  function ListOf<K>(table: map<K, seq<Mark>>, key: K): seq<Mark> {
    if key in table then table[key] else []
  }

  /** The marks a target holds, oldest first. */
  function MarksOf(t: Table, target: Target): seq<Mark> {
    match target
    case Window(id) => ListOf(t.byWindow, id)
    case Container(_, node) => ListOf(t.byContainer, node)
  }

  predicate Holds(t: Table, target: Target, m: Mark) {
    m in MarksOf(t, target)
  }

  /** Two targets name the same holder: containers are identified by their node alone. */
  predicate Same(a: Target, b: Target) {
    match a
    case Window(_) => a == b
    case Container(_, node) => b.Container? && b.node == node
  }

  // ----- Operations

  function Retain<K>(table: map<K, seq<Mark>>, key: K, m: Mark): map<K, seq<Mark>> {
    if key in table then table[key := Without(table[key], m)] else table
  }

  function Push<K>(table: map<K, seq<Mark>>, key: K, m: Mark): map<K, seq<Mark>> {
    table[key := ListOf(table, key) + [m]]
  }

  function DropAll(marks: map<Mark, WindowId>, dropped: seq<Mark>): map<Mark, WindowId> {
    marks - Elements(dropped)
  }

  /** The tables without any mark of this window. */
  function Stripped(t: Table, id: WindowId): Table {
    t.(marks := DropAll(t.marks, ListOf(t.byWindow, id)), byWindow := t.byWindow - {id})
  }

  /** The tables with this mark taken from the window that holds it, if one does. */
  function Freed(t: Table, m: Mark): Table {
    if m in t.marks then t.(marks := t.marks - {m}, byWindow := Retain(t.byWindow, t.marks[m], m)) else t
  }

  function SetMark(t: Table, id: WindowId, m: Mark, add: bool, toggle: bool): Table {
    var hadMark := m in t.marks && t.marks[m] == id;
    var freed := Freed(if add then t else Stripped(t, id), m);
    if !toggle || !hadMark
    then freed.(marks := freed.marks[m := id], byWindow := Push(freed.byWindow, id, m))
    else freed
  }

  function Unmark(t: Table, window: Option<WindowId>, mark: Option<Mark>): Table {
    match (window, mark)
    case (Some(id), Some(m)) => if m in t.marks && t.marks[m] == id then Freed(t, m) else t
    case (Some(id), None) => Stripped(t, id)
    case (None, Some(m)) => Freed(t, m)
    case (None, None) => t.(marks := map[], byWindow := map[])
  }

  function UnmarkTarget(t: Table, target: Target, mark: Option<Mark>): Table {
    match target
    case Window(id) => Unmark(t, Some(id), mark)
    case Container(_, node) =>
      match mark
      case Some(m) => t.(byContainer := Retain(t.byContainer, node, m))
      case None => t.(byContainer := t.byContainer - {node})
  }

  function RetainEverywhere(table: map<NodeId, seq<Mark>>, m: Mark): map<NodeId, seq<Mark>> {
    map node | node in table :: Without(table[node], m)
  }

  function UnmarkGlobally(t: Table, mark: Option<Mark>): Table {
    var t1 := Unmark(t, None, mark);
    match mark
    case Some(m) => t1.(byContainer := RetainEverywhere(t1.byContainer, m))
    case None => t1.(byContainer := map[])
  }

  function Give(t: Table, target: Target, m: Mark): Table {
    match target
    case Window(id) => SetMark(t, id, m, true, false)
    case Container(_, node) => t.(byContainer := Push(t.byContainer, node, m))
  }

  /** The `mark` command up to its pass over the `for_window` rules. */
  function MarkTarget(t: Table, target: Target, m: Mark, add: bool, toggle: bool): Table {
    var hadMark := Holds(t, target, m);
    var t1 := if add then t else UnmarkTarget(t, target, None);
    var t2 := UnmarkGlobally(t1, Some(m));
    if toggle && hadMark then t2 else Give(t2, target, m)
  }

  // ----- Agreement of the tables

  ghost predicate Forward(t: Table) {
    && (forall m :: m in t.marks ==> Holds(t, Window(t.marks[m]), m))
    && (forall id, m :: Holds(t, Window(id), m) ==> m in t.marks && t.marks[m] == id)
  }

  /** Each mark has at most one holder. */
  ghost predicate Unique(t: Table) {
    forall a, b, m :: Holds(t, a, m) && Holds(t, b, m) ==> Same(a, b)
  }

  ghost predicate ListsClean(t: Table) {
    forall target :: NoDuplicates(MarksOf(t, target))
  }

  ghost predicate Valid(t: Table) {
    && Forward(t)
    && Unique(t)
    && ListsClean(t)
  }

  /** An operation that only takes marks away keeps each mark with at most one holder. */
  lemma UniqueShrinks(t: Table, t': Table)
    requires Unique(t) && forall x, m :: Holds(t', x, m) ==> Holds(t, x, m)
    ensures Unique(t')
  {}

  lemma StripLists(t: Table, target: Target, x: Target)
    ensures MarksOf(UnmarkTarget(t, target, None), x) == if Same(x, target) then [] else MarksOf(t, x)
  {}

  lemma StripHolder(t: Table, target: Target, id: WindowId, m: Mark)
    requires Forward(t) && Holds(UnmarkTarget(t, target, None), Window(id), m)
    ensures var after := UnmarkTarget(t, target, None).marks; m in after && after[m] == id
  {
    StripLists(t, target, Window(id));
    assert Holds(t, Window(id), m);
    assert t.marks[m] == id;
    assert target.Window? ==> t.marks[m] != target.id && !Holds(t, Window(target.id), m);
  }

  lemma StripForward(t: Table, target: Target)
    requires Forward(t)
    ensures Forward(UnmarkTarget(t, target, None))
  {
    var t' := UnmarkTarget(t, target, None);
    forall id, m | Holds(t', Window(id), m)
      ensures m in t'.marks && t'.marks[m] == id
    {
      StripHolder(t, target, id, m);
    }
    forall m | m in t'.marks
      ensures Holds(t', Window(t'.marks[m]), m)
    {
      assert Holds(t, Window(t.marks[m]), m);
      StripLists(t, target, Window(t.marks[m]));
    }
  }

  /** Taking every mark from one target changes no other target. */
  lemma StripEffect(t: Table, target: Target)
    requires Valid(t)
    ensures Valid(UnmarkTarget(t, target, None))
    ensures forall x :: MarksOf(UnmarkTarget(t, target, None), x) == if Same(x, target) then [] else MarksOf(t, x)
  {
    var t' := UnmarkTarget(t, target, None);
    forall x
      ensures MarksOf(t', x) == if Same(x, target) then [] else MarksOf(t, x)
    {
      StripLists(t, target, x);
    }
    StripForward(t, target);
    UniqueShrinks(t, t');
  }

  lemma UnmarkGloballyLists(t: Table, m: Mark, x: Target)
    requires Forward(t)
    ensures MarksOf(UnmarkGlobally(t, Some(m)), x) == Without(MarksOf(t, x), m)
  {
    if x.Window? && m in t.marks && t.marks[m] != x.id {
      assert !Holds(t, x, m);
    }
    if x.Window? && m !in t.marks {
      assert !Holds(t, x, m);
    }
  }

  lemma UnmarkGloballyHolder(t: Table, m: Mark, id: WindowId, m': Mark)
    requires Forward(t) && Holds(UnmarkGlobally(t, Some(m)), Window(id), m')
    ensures var after := UnmarkGlobally(t, Some(m)).marks; m' in after && after[m'] == id
  {
    UnmarkGloballyLists(t, m, Window(id));
    assert Holds(t, Window(id), m');
  }

  lemma UnmarkGloballyForward(t: Table, m: Mark)
    requires Forward(t)
    ensures Forward(UnmarkGlobally(t, Some(m)))
  {
    var t' := UnmarkGlobally(t, Some(m));
    forall id, m' | Holds(t', Window(id), m')
      ensures m' in t'.marks && t'.marks[m'] == id
    {
      UnmarkGloballyHolder(t, m, id, m');
    }
    forall m' | m' in t'.marks
      ensures Holds(t', Window(t'.marks[m']), m')
    {
      UnmarkGloballyLists(t, m, Window(t.marks[m']));
    }
  }

  /** Taking one mark from whoever holds it. */
  lemma UnmarkGloballyEffect(t: Table, m: Mark)
    requires Valid(t)
    ensures Valid(UnmarkGlobally(t, Some(m)))
    ensures forall x :: MarksOf(UnmarkGlobally(t, Some(m)), x) == Without(MarksOf(t, x), m)
  {
    var t' := UnmarkGlobally(t, Some(m));
    forall x
      ensures MarksOf(t', x) == Without(MarksOf(t, x), m) && NoDuplicates(MarksOf(t', x))
    {
      UnmarkGloballyLists(t, m, x);
      WithoutNoDuplicates(MarksOf(t, x), m);
    }
    UnmarkGloballyForward(t, m);
    UniqueShrinks(t, t');
  }

  lemma GiveLists(t: Table, target: Target, m: Mark, x: Target)
    requires m !in t.marks
    ensures MarksOf(Give(t, target, m), x) == if Same(x, target) then MarksOf(t, x) + [m] else MarksOf(t, x)
  {}

  lemma GiveForward(t: Table, target: Target, m: Mark)
    requires Forward(t) && m !in t.marks
    ensures Forward(Give(t, target, m))
  {
    var t' := Give(t, target, m);
    forall id, m' | Holds(t', Window(id), m')
      ensures m' in t'.marks && t'.marks[m'] == id
    {
      GiveLists(t, target, m, Window(id));
      if m' != m {
        assert Holds(t, Window(id), m');
      }
    }
    forall m' | m' in t'.marks
      ensures Holds(t', Window(t'.marks[m']), m')
    {
      GiveLists(t, target, m, Window(t'.marks[m']));
    }
  }

  lemma GiveUnique(t: Table, target: Target, m: Mark, a: Target, b: Target, m': Mark)
    requires Unique(t) && m !in t.marks && !Holds(t, a, m) && !Holds(t, b, m)
    requires Holds(Give(t, target, m), a, m') && Holds(Give(t, target, m), b, m')
    ensures Same(a, b)
  {
    GiveLists(t, target, m, a);
    GiveLists(t, target, m, b);
    if m' == m {
      assert Same(a, target) && Same(b, target);
    } else {
      assert Holds(t, a, m') && Holds(t, b, m');
    }
  }

  /** Giving a free mark to one target. */
  lemma GiveEffect(t: Table, target: Target, m: Mark)
    requires Valid(t) && m !in t.marks && forall x :: !Holds(t, x, m)
    ensures Valid(Give(t, target, m))
    ensures forall x :: MarksOf(Give(t, target, m), x) == if Same(x, target) then MarksOf(t, x) + [m] else MarksOf(t, x)
  {
    var t' := Give(t, target, m);
    forall x
      ensures MarksOf(t', x) == if Same(x, target) then MarksOf(t, x) + [m] else MarksOf(t, x)
      ensures NoDuplicates(MarksOf(t', x))
    {
      GiveLists(t, target, m, x);
      assert !Holds(t, x, m);
    }
    GiveForward(t, target, m);
    forall a, b, m' | Holds(t', a, m') && Holds(t', b, m')
      ensures Same(a, b)
    {
      GiveUnique(t, target, m, a, b, m');
    }
  }

  /** The `mark` command: the target keeps its other marks only with `--add`, gets the mark last unless
      `--toggle` took it off, and every other holder loses exactly this mark. */
  lemma MarkTargetEffect(t: Table, target: Target, m: Mark, add: bool, toggle: bool)
    requires Valid(t)
    ensures Valid(MarkTarget(t, target, m, add, toggle))
    ensures forall x :: MarksOf(MarkTarget(t, target, m, add, toggle), x) ==
                        if !Same(x, target) then Without(MarksOf(t, x), m)
                        else (if add then Without(MarksOf(t, x), m) else []) +
                             (if toggle && Holds(t, target, m) then [] else [m])
  {
    var t1 := if add then t else UnmarkTarget(t, target, None);
    if !add {
      StripEffect(t, target);
    }
    UnmarkGloballyEffect(t1, m);
    var t2 := UnmarkGlobally(t1, Some(m));
    if !(toggle && Holds(t, target, m)) {
      GiveEffect(t2, target, m);
    }
  }

  /** After the `mark` command the target holds the mark exactly when it was not toggled off, and nobody
      else holds it. */
  lemma MarkEndsOnTarget(t: Table, target: Target, m: Mark, add: bool, toggle: bool)
    requires Valid(t)
    ensures var t' := MarkTarget(t, target, m, add, toggle);
            && (Holds(t', target, m) <==> !(toggle && Holds(t, target, m)))
            && (forall x :: !Same(x, target) ==> !Holds(t', x, m))
            && (forall x, m' :: !Same(x, target) && m' != m ==> (Holds(t', x, m') <==> Holds(t, x, m')))
  {
    MarkTargetEffect(t, target, m, add, toggle);
  }

  lemma UnmarkOneLists(t: Table, target: Target, m: Mark, x: Target)
    requires Forward(t)
    ensures MarksOf(UnmarkTarget(t, target, Some(m)), x) ==
            if Same(x, target) then Without(MarksOf(t, x), m) else MarksOf(t, x)
  {
    assert x.Window? ==> (Holds(t, Window(x.id), m) ==> m in t.marks && t.marks[m] == x.id);
  }

  lemma UnmarkOneHolder(t: Table, target: Target, m: Mark, id: WindowId, m': Mark)
    requires Forward(t) && Holds(UnmarkTarget(t, target, Some(m)), Window(id), m')
    ensures var after := UnmarkTarget(t, target, Some(m)).marks; m' in after && after[m'] == id
  {
    UnmarkOneLists(t, target, m, Window(id));
    assert Holds(t, Window(id), m');
  }

  lemma UnmarkOneForward(t: Table, target: Target, m: Mark)
    requires Forward(t)
    ensures Forward(UnmarkTarget(t, target, Some(m)))
  {
    var t' := UnmarkTarget(t, target, Some(m));
    forall id, m' | Holds(t', Window(id), m')
      ensures m' in t'.marks && t'.marks[m'] == id
    {
      UnmarkOneHolder(t, target, m, id, m');
    }
    forall m' | m' in t'.marks
      ensures Holds(t', Window(t'.marks[m']), m')
    {
      UnmarkOneLists(t, target, m, Window(t.marks[m']));
    }
  }

  /** Taking one mark from one target, if it holds it. */
  lemma UnmarkOneEffect(t: Table, target: Target, m: Mark)
    requires Valid(t)
    ensures Valid(UnmarkTarget(t, target, Some(m)))
    ensures forall x :: MarksOf(UnmarkTarget(t, target, Some(m)), x) ==
                        if Same(x, target) then Without(MarksOf(t, x), m) else MarksOf(t, x)
  {
    var t' := UnmarkTarget(t, target, Some(m));
    forall x
      ensures MarksOf(t', x) == if Same(x, target) then Without(MarksOf(t, x), m) else MarksOf(t, x)
      ensures NoDuplicates(MarksOf(t', x))
    {
      UnmarkOneLists(t, target, m, x);
      WithoutNoDuplicates(MarksOf(t, x), m);
    }
    UnmarkOneForward(t, target, m);
    UniqueShrinks(t, t');
  }

  /** Taking every mark from everybody. */
  lemma UnmarkAllEffect(t: Table)
    ensures Valid(UnmarkGlobally(t, None))
    ensures forall x :: MarksOf(UnmarkGlobally(t, None), x) == []
  {}

  /** `set_mark` with all its flags: it moves the mark between windows and leaves containers alone. */
  lemma SetMarkEffect(t: Table, id: WindowId, m: Mark, add: bool, toggle: bool, x: Target)
    requires Forward(t)
    ensures MarksOf(SetMark(t, id, m, add, toggle), x) ==
            if x.Container? then MarksOf(t, x)
            else if x.id != id then Without(MarksOf(t, x), m)
            else (if add then Without(MarksOf(t, x), m) else []) +
                 (if toggle && Holds(t, Window(id), m) then [] else [m])
  {
    StripForward(t, Window(id));
    StripLists(t, Window(id), x);
    var stripped := if add then t else Stripped(t, id);
    assert Forward(stripped);
    if x.Window? {
      FreedLists(stripped, m, x.id);
    }
    assert m in t.marks && t.marks[m] == id <==> Holds(t, Window(id), m);
  }

  lemma FreedLists(t: Table, m: Mark, id: WindowId)
    requires Forward(t)
    ensures MarksOf(Freed(t, m), Window(id)) == Without(MarksOf(t, Window(id)), m)
  {
    if m !in t.marks || t.marks[m] != id {
      assert !Holds(t, Window(id), m);
    }
  }

  // ----- Runs

  datatype Operation =
    | MarkOp(target: Target, mark: Mark, add: bool, toggle: bool)
    | UnmarkOp(target: Target, which: Option<Mark>)
    | UnmarkAllOp(which: Option<Mark>)

  function Apply(t: Table, op: Operation): Table {
    match op
    case MarkOp(target, m, add, toggle) => MarkTarget(t, target, m, add, toggle)
    case UnmarkOp(target, which) => UnmarkTarget(t, target, which)
    case UnmarkAllOp(which) => UnmarkGlobally(t, which)
  }

  function ApplyAll(t: Table, ops: seq<Operation>): Table {
    if ops == [] then t else Apply(ApplyAll(t, ops[..|ops| - 1]), ops[|ops| - 1])
  }

  lemma ApplyKeepsValid(t: Table, op: Operation)
    requires Valid(t)
    ensures Valid(Apply(t, op))
  {
    match op
    case MarkOp(target, m, add, toggle) => MarkTargetEffect(t, target, m, add, toggle);
    case UnmarkOp(target, Some(m)) => UnmarkOneEffect(t, target, m);
    case UnmarkOp(target, None) => StripEffect(t, target);
    case UnmarkAllOp(Some(m)) => UnmarkGloballyEffect(t, m);
    case UnmarkAllOp(None) => UnmarkAllEffect(t);
  }

  /** Whatever was marked and unmarked, no mark has two holders and the window tables agree. */
  lemma {:induction false} RunsKeepMarksUnique(ops: seq<Operation>)
    ensures Valid(ApplyAll(EMPTY, ops))
  {
    if ops == [] {
    } else {
      RunsKeepMarksUnique(ops[..|ops| - 1]);
      ApplyKeepsValid(ApplyAll(EMPTY, ops[..|ops| - 1]), ops[|ops| - 1]);
    }
  }

  // ----- The mutable tables

  class MarkStore {
    var marks: map<Mark, WindowId>
    var byWindow: map<WindowId, seq<Mark>>
    var byContainer: map<NodeId, seq<Mark>>

    ghost function Abstract(): Table
      reads this
    {
      Table(marks, byWindow, byContainer)
    }

    constructor ()
      ensures Abstract() == EMPTY && Valid(Abstract())
    {
      marks, byWindow, byContainer := map[], map[], map[];
    }

    /** Forgets every listed mark in the forward table. */
    method RemoveEach(dropped: seq<Mark>)
      modifies this`marks
      ensures marks == DropAll(old(marks), dropped)
    {
      for i := 0 to |dropped|
        invariant marks == DropAll(old(marks), dropped[..i])
      {
        assert Elements(dropped[..i + 1]) == Elements(dropped[..i]) + {dropped[i]};
        marks := marks - {dropped[i]};
      }
      assert dropped[..|dropped|] == dropped;
    }

    method StripWindow(id: WindowId)
      modifies this
      ensures Abstract() == Stripped(old(Abstract()), id)
    {
      if id in byWindow {
        var existing := byWindow[id];
        byWindow := byWindow - {id};
        RemoveEach(existing);
      }
    }

    method FreeMark(m: Mark)
      modifies this
      ensures Abstract() == Freed(old(Abstract()), m)
    {
      if m in marks {
        byWindow := Retain(byWindow, marks[m], m);
        marks := marks - {m};
      }
    }

    method SetMarkOn(id: WindowId, m: Mark, add: bool, toggle: bool)
      modifies this
      ensures Abstract() == SetMark(old(Abstract()), id, m, add, toggle)
    {
      var hadMark := m in marks && marks[m] == id;
      if !add {
        StripWindow(id);
      }
      FreeMark(m);
      if !toggle || !hadMark {
        marks := marks[m := id];
        byWindow := Push(byWindow, id, m);
      }
    }

    method UnmarkWindows(window: Option<WindowId>, mark: Option<Mark>)
      modifies this
      ensures Abstract() == Unmark(old(Abstract()), window, mark)
    {
      match (window, mark)
      case (Some(id), Some(m)) =>
        if m in marks && marks[m] == id {
          marks := marks - {m};
          byWindow := Retain(byWindow, id, m);
        }
      case (Some(id), None) => StripWindow(id);
      case (None, Some(m)) => FreeMark(m);
      case (None, None) => marks, byWindow := map[], map[];
    }

    method UnmarkEverywhere(mark: Option<Mark>)
      modifies this
      ensures Abstract() == UnmarkGlobally(old(Abstract()), mark)
    {
      UnmarkWindows(None, mark);
      match mark
      case None => byContainer := map[];
      case Some(m) =>
        var rest := byContainer.Keys;
        ghost var before := byContainer;
        while rest != {}
          invariant rest <= before.Keys && byContainer.Keys == before.Keys
          invariant forall n :: n in before ==> byContainer[n] == if n in rest then before[n] else Without(before[n], m)
          invariant marks == Unmark(old(Abstract()), None, mark).marks
          invariant byWindow == Unmark(old(Abstract()), None, mark).byWindow
          decreases rest
        {
          var node :| node in rest;
          byContainer := byContainer[node := Without(byContainer[node], m)];
          rest := rest - {node};
        }
    }

    method UnmarkOn(target: Target, mark: Option<Mark>)
      modifies this
      ensures Abstract() == UnmarkTarget(old(Abstract()), target, mark)
    {
      match target
      case Window(id) => UnmarkWindows(Some(id), mark);
      case Container(_, node) =>
        match mark
        case Some(m) => byContainer := Retain(byContainer, node, m);
        case None => byContainer := byContainer - {node};
    }

    /** The `mark` command up to its pass over the `for_window` rules. */
    method MarkOn(target: Target, m: Mark, add: bool, toggle: bool)
      requires Valid(Abstract())
      modifies this
      ensures Valid(Abstract()) && Abstract() == MarkTarget(old(Abstract()), target, m, add, toggle)
    {
      MarkTargetEffect(Abstract(), target, m, add, toggle);
      var hadMark := match target
                     case Window(id) => m in ListOf(byWindow, id)
                     case Container(_, node) => m in ListOf(byContainer, node);
      if !add {
        UnmarkOn(target, None);
      }
      UnmarkEverywhere(Some(m));
      if !toggle || !hadMark {
        match target
        case Window(id) => SetMarkOn(id, m, true, false);
        case Container(_, node) => byContainer := Push(byContainer, node, m);
      }
    }
  }
}
