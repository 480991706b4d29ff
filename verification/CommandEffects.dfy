/** What each command does to marks, to the compositor and to its group, said of the interpreter as a whole
    (`src/command/dispatch.rs`, `src/command/targeted.rs`).
  */
module CommandEffects {
  import opened Commands
  import opened ForWindow
  import opened Marks
  import opened Options

  /** How `mark` leaves the holders: the target keeps its other marks only with `--add` and holds the mark last
      unless `--toggle` took it off, and everybody else loses the mark. */
  ghost predicate MarkedAs(t: Table, t': Table, target: Target, m: string, add: bool, toggle: bool) {
    && Valid(t')
    && (forall x :: MarksOf(t', x) ==
          if !Same(x, target) then Without(MarksOf(t, x), m)
          else (if add then Without(MarksOf(t, x), m) else []) +
               (if toggle && Holds(t, target, m) then [] else [m]))
  }

  /** What `unmark` leaves of a list of marks. */
  function Left(marks: seq<string>, which: Option<string>): seq<string> {
    if which.None? then [] else Without(marks, which.value)
  }

  predicate Among(targets: seq<Target>, x: Target) {
    exists i :: 0 <= i < |targets| && Same(x, targets[i])
  }

  /** How `unmark` on some targets leaves the holders. */
  ghost predicate UnmarkedAs(t: Table, t': Table, targets: seq<Target>, which: Option<string>) {
    forall x :: MarksOf(t', x) == if Among(targets, x) then Left(MarksOf(t, x), which) else MarksOf(t, x)
  }

  /** How `unmark` without targets leaves the holders. */
  ghost predicate UnmarkedEverywhere(t: Table, t': Table, which: Option<string>) {
    forall x :: MarksOf(t', x) == Left(MarksOf(t, x), which)
  }

  /** `marked` is the state with only the marks changed, as `mark` documents it, and `after` follows from it by
      checking the rules of a marked window. */
  ghost predicate MarksThenRules<W(!new)>(env: Env<W>, st: State<W>, marked: State<W>, after: State<W>, target: Target,
                                 command: Command)
    requires WellFormed(env) && command.Mark?
  {
    && marked == State(st.world, marked.table, st.executed, st.log)
    && MarkedAs(st.table, marked.table, target, command.identifier, command.add, command.toggle)
    && after == if target.Window? then RunForWindow(env, marked, target.id) else marked
  }

  /** A command other than `mark` and `unmark` changes what its handler changes and nothing else. */
  ghost predicate Handled<W>(st: State<W>, after: State<W>, outcome: Outcome, result: (W, Outcome)) {
    after == State(result.0, st.table, st.executed, st.log) && outcome == result.1
  }

  // ----- Marking

  /** What a pass does first: enter the first collected rule in exactly the state the pass starts in, execute its
      commands, and leave it. */
  lemma PassStarts<W(!new)>(env: Env<W>, st: State<W>, id: WindowId)
    requires WellFormed(env)
    ensures var keys := Collect(env, st, id, env.rules);
            if keys == [] then RunForWindow(env, st, id) == st
            else
              var entered := State(st.world, st.table, st.executed + {keys[0]}, st.log + [Enter(keys[0], true)]);
              var left := Execute(env, entered, env.parseRule(st.world, keys[0]), None).0;
              var next := State(left.world, left.table, left.executed, left.log + [Leave(keys[0])]);
              && Unexecuted(env, next) < Unexecuted(env, st) && (forall k :: k in keys[1..] ==> k in Unexecuted(env, st))
              && entered.log <= left.log <= RunForWindow(env, st, id).log
              && RunForWindow(env, st, id) == RunRules(env, next, keys[1..], Unexecuted(env, st))
  {
    var keys := Collect(env, st, id, env.rules);
    if keys == [] {
    } else {
      assert keys[0] in keys;
      var left := FirstRule(env, st, keys, Unexecuted(env, st));
      RunRulesTop(env, LeaveRule(left, keys[0]), keys[1..], Unexecuted(env, st));
    }
  }

  /** Marking changes the marks first and then checks the rules of a marked window. */
  lemma MarkEffect<W(!new)>(env: Env<W>, st: State<W>, target: Target, command: Command) returns (marked: State<W>)
    requires WellFormed(env) && Valid(st.table) && command.Mark?
    ensures MarksThenRules(env, st, marked,
                  MarkAndRecheck(env, st, target, command.identifier, command.add, command.toggle), target, command)
  {
    MarkTargetEffect(st.table, target, command.identifier, command.add, command.toggle);
    marked := st.(table := MarkTarget(st.table, target, command.identifier, command.add, command.toggle));
  }

  /** The `mark` command without criteria, whatever it is part of. Without a target nothing changes and the list
      ends. */
  lemma FocusedMark<W(!new)>(env: Env<W>, st: State<W>, parsed: Parsed, retained: Option<seq<Target>>)
      returns (marked: State<W>)
    requires WellFormed(env) && Valid(st.table) && parsed.Parsed? && parsed.criteria.None? && parsed.command.Mark?
    ensures var r := ExecuteParsed(env, st, parsed, retained);
            if env.focusedTarget(st.world).None? then r.0 == st && IsInvalid(r.2)
            else r.2.success && MarksThenRules(env, st, marked, r.0, env.focusedTarget(st.world).value, parsed.command)
  {
    marked := st;
    var target := env.focusedTarget(st.world);
    if target.Some? {
      marked := MarkEffect(env, st, target.value, parsed.command);
    }
  }

  /** A focused window: the mark is in place when the first rule is entered, and at the end if none is. */
  lemma FocusedWindowMark<W(!new)>(env: Env<W>, st: State<W>, parsed: Parsed, retained: Option<seq<Target>>,
                                   id: WindowId) returns (table: Table)
    requires WellFormed(env) && Valid(st.table) && parsed.Parsed? && parsed.criteria.None? && parsed.command.Mark?
    requires env.focusedTarget(st.world) == Some(Window(id))
    ensures MarkedAs(st.table, table, Window(id), parsed.command.identifier, parsed.command.add, parsed.command.toggle)
    ensures var after := ExecuteParsed(env, st, parsed, retained).0;
            var keys := Collect(env, State(st.world, table, st.executed, st.log), id, env.rules);
            if keys == [] then after == State(st.world, table, st.executed, st.log)
            else
              var entered := State(st.world, table, st.executed + {keys[0]}, st.log + [Enter(keys[0], true)]);
              entered.log <= Execute(env, entered, env.parseRule(st.world, keys[0]), None).0.log <= after.log
  {
    var marked := FocusedMark(env, st, parsed, retained);
    table := marked.table;
    PassStarts(env, marked, id);
  }

  /** If marking executes no rule, the marks at the end are those of the command. */
  lemma FocusedMarkWithoutRules<W(!new)>(env: Env<W>, st: State<W>, parsed: Parsed, retained: Option<seq<Target>>)
    requires WellFormed(env) && Valid(st.table) && parsed.Parsed? && parsed.criteria.None? && parsed.command.Mark?
    requires env.focusedTarget(st.world).Some?
    requires ExecuteParsed(env, st, parsed, retained).0.log == st.log
    ensures var after := ExecuteParsed(env, st, parsed, retained).0;
            after.world == st.world && after.executed == st.executed &&
            MarkedAs(st.table, after.table, env.focusedTarget(st.world).value, parsed.command.identifier,
                     parsed.command.add, parsed.command.toggle)
  {
    var marked := FocusedMark(env, st, parsed, retained);
    var target := env.focusedTarget(st.world).value;
    if target.Window? {
      PassStarts(env, marked, target.id);
    }
  }

  // ----- Commands without criteria

  /** `unmark` without criteria takes the mark, or all marks, from everybody. */
  lemma FocusedUnmark<W(!new)>(env: Env<W>, st: State<W>, parsed: Parsed, retained: Option<seq<Target>>)
    requires WellFormed(env) && Valid(st.table) && parsed.Parsed? && parsed.criteria.None? && parsed.command.Unmark?
    ensures var r := ExecuteParsed(env, st, parsed, retained);
            r.2.success && r.0 == State(st.world, r.0.table, st.executed, st.log) &&
            UnmarkedEverywhere(st.table, r.0.table, parsed.command.which)
  {
    if parsed.command.which.None? {
      UnmarkAllEffect(st.table);
    } else {
      UnmarkGloballyEffect(st.table, parsed.command.which.value);
    }
  }

  /** Every other command without criteria is up to its handler. */
  lemma FocusedCommand<W(!new)>(env: Env<W>, st: State<W>, parsed: Parsed, retained: Option<seq<Target>>)
    requires WellFormed(env) && parsed.Parsed? && parsed.criteria.None?
    requires !parsed.command.Mark? && !parsed.command.Unmark?
    ensures var r := ExecuteParsed(env, st, parsed, retained);
            Handled(st, r.0, r.2,
                    if parsed.command.SetLayoutOption? then env.globalSetting(st.world, parsed.command.option)
                    else env.focusedHandler(st.world, st.table, parsed.command))
  {}

  /** Which targets later commands of the group see: a new group forgets the old ones, criteria that parse fix them,
      and nothing else touches them. */
  lemma GroupTargets<W(!new)>(env: Env<W>, st: State<W>, parsed: Parsed, retained: Option<seq<Target>>)
    requires WellFormed(env)
    ensures ExecuteParsed(env, st, parsed, retained).1 ==
            if parsed.Refused? then retained
            else if parsed.criteria.Some? && env.parseCriteria(st.world, parsed.criteria.value).Some? &&
                    (parsed.criteriaStart || retained.None?)
            then Some(env.matching(st.world, st.table, env.parseCriteria(st.world, parsed.criteria.value).value))
            else if parsed.criteriaStart then None else retained
  {}

  // ----- Commands with criteria

  /** The command has criteria that parse and match something, and may have criteria. */
  predicate ActsOnTargets<W>(env: Env<W>, st: State<W>, parsed: Parsed, retained: Option<seq<Target>>) {
    && parsed.Parsed? && parsed.criteria.Some?
    && env.parseCriteria(st.world, parsed.criteria.value).Some?
    && TargetsOf(env, st, parsed, retained) != []
    && !parsed.command.Exit? && !parsed.command.Reload?
  }

  /** What the parser refused has its own outcome; what may not act on targets fails, and the list goes on. Neither
      has any effect. */
  lemma RefusedCommands<W(!new)>(env: Env<W>, st: State<W>, parsed: Parsed, retained: Option<seq<Target>>)
    requires WellFormed(env)
    ensures var r := ExecuteParsed(env, st, parsed, retained);
            && (parsed.Refused? ==> r.0 == st && r.2 == parsed.outcome)
            && (parsed.Parsed? && parsed.criteria.Some? && !ActsOnTargets(env, st, parsed, retained) ==>
                  r.0 == st && !r.2.success && !IsInvalid(r.2))
  {}

  /** A command other than `unmark` acts on its matches one by one. */
  lemma ActsOnMatches<W(!new)>(env: Env<W>, st: State<W>, parsed: Parsed, retained: Option<seq<Target>>)
    requires WellFormed(env) && ActsOnTargets(env, st, parsed, retained) && !parsed.command.Unmark?
    ensures var r := ExecuteParsed(env, st, parsed, retained);
            (r.0, r.2) == ForEachMatch(env, st, parsed.command, TargetsOf(env, st, parsed, retained), None)
  {}

  /** What `mark` does to one match. */
  lemma MatchMark<W(!new)>(env: Env<W>, st: State<W>, command: Command, target: Target) returns (marked: State<W>)
    requires WellFormed(env) && Valid(st.table) && command.Mark?
    ensures var r := RunTargeted(env, st, command, target);
            r.1.success && MarksThenRules(env, st, marked, r.0, target, command)
  {
    marked := MarkEffect(env, st, target, command);
  }

  /** What every other command does to one match. */
  lemma MatchEffect<W(!new)>(env: Env<W>, st: State<W>, command: Command, target: Target)
    requires WellFormed(env) && Valid(st.table) && !command.Mark?
    ensures var r := RunTargeted(env, st, command, target);
            if command.Unmark? then
              r.1.success && r.0 == State(st.world, r.0.table, st.executed, st.log) &&
              UnmarkedAs(st.table, r.0.table, [target], command.which)
            else
              Handled(st, r.0, r.1,
                      if command.SetLayoutOption? then env.globalSetting(st.world, command.option)
                      else env.targetedHandler(st.world, st.table, command, target))
  {
    if command.Unmark? {
      UnmarkOneTarget(st.table, target, command.which);
    }
  }

  /** The `mark` command with criteria that select one target. */
  lemma CriteriaMark<W(!new)>(env: Env<W>, st: State<W>, parsed: Parsed, retained: Option<seq<Target>>, target: Target)
      returns (marked: State<W>)
    requires WellFormed(env) && Valid(st.table) && ActsOnTargets(env, st, parsed, retained) && parsed.command.Mark?
    requires TargetsOf(env, st, parsed, retained) == [target]
    ensures var r := ExecuteParsed(env, st, parsed, retained);
            r.2.success && MarksThenRules(env, st, marked, r.0, target, parsed.command)
  {
    ActsOnMatches(env, st, parsed, retained);
    marked := MatchMark(env, st, parsed.command, target);
    assert [target][1..] == [];
  }

  lemma UnmarkOneTarget(t: Table, target: Target, which: Option<string>)
    requires Valid(t)
    ensures Valid(UnmarkTarget(t, target, which)) && UnmarkedAs(t, UnmarkTarget(t, target, which), [target], which)
  {
    if which.None? {
      StripEffect(t, target);
    } else {
      UnmarkOneEffect(t, target, which.value);
    }
    assert forall x :: Among([target], x) <==> Same(x, [target][0]);
  }

  lemma AmongFront(targets: seq<Target>, x: Target)
    requires targets != []
    ensures Among(targets, x) <==> Among([targets[0]], x) || Among(targets[1..], x)
  {
    assert Among([targets[0]], x) <==> Same(x, [targets[0]][0]);
    assert forall i :: 0 <= i < |targets[1..]| ==> targets[1..][i] == targets[i + 1];
  }

  lemma {:induction false} UnmarkEachEffect(t: Table, targets: seq<Target>, which: Option<string>)
    requires Valid(t)
    ensures Valid(UnmarkEach(t, targets, which)) && UnmarkedAs(t, UnmarkEach(t, targets, which), targets, which)
    decreases |targets|
  {
    if targets == [] {
    } else {
      UnmarkOneTarget(t, targets[0], which);
      UnmarkEachEffect(UnmarkTarget(t, targets[0], which), targets[1..], which);
      forall x
        ensures MarksOf(UnmarkEach(t, targets, which), x) ==
                if Among(targets, x) then Left(MarksOf(t, x), which) else MarksOf(t, x)
      {
        AmongFront(targets, x);
      }
    }
  }

  /** `unmark` with criteria takes the mark, or all marks, from every match, and from nobody else. */
  lemma CriteriaUnmark<W(!new)>(env: Env<W>, st: State<W>, parsed: Parsed, retained: Option<seq<Target>>)
    requires WellFormed(env) && Valid(st.table) && ActsOnTargets(env, st, parsed, retained) && parsed.command.Unmark?
    ensures var r := ExecuteParsed(env, st, parsed, retained);
            r.2.success && r.0 == State(st.world, r.0.table, st.executed, st.log) &&
            UnmarkedAs(st.table, r.0.table, TargetsOf(env, st, parsed, retained), parsed.command.which)
  {
    var targets := TargetsOf(env, st, parsed, retained);
    UnmarkEachEffect(st.table, targets, parsed.command.which);
    assert RunOnTargets(env, st, parsed.command, targets) ==
           (st.(table := UnmarkEach(st.table, targets, parsed.command.which)), SUCCESS);
  }

  // ----- What a pass collects

  /** A pass collects exactly the pairs of the window with the rules that match it now and were not executed. */
  lemma {:induction false} CollectedIff<W(!new)>(env: Env<W>, st: State<W>, id: WindowId, rules: seq<Rule>, k: Key)
    requires WellFormed(env) && forall r :: r in rules ==> r in env.rules
    ensures k in Collect(env, st, id, rules) <==>
            k !in st.executed &&
            exists r :: r in rules && k == Key(id, r.raw, r.command) && Window(id) in env.matching(st.world, st.table, r.criteria)
  {
    if rules == [] {
    } else {
      CollectedIff(env, st, id, rules[1..], k);
      assert forall r :: r in rules <==> r == rules[0] || r in rules[1..];
    }
  }

  /** Collected pairs come in the order of their rules. */
  lemma {:induction false} CollectedInOrder<W(!new)>(env: Env<W>, st: State<W>, id: WindowId, rules: seq<Rule>,
                                                     a: nat, b: nat) returns (i: nat, j: nat)
    requires WellFormed(env) && forall r :: r in rules ==> r in env.rules
    requires a < b < |Collect(env, st, id, rules)|
    ensures i < j < |rules|
    ensures Collect(env, st, id, rules)[a] == Key(id, rules[i].raw, rules[i].command)
    ensures Collect(env, st, id, rules)[b] == Key(id, rules[j].raw, rules[j].command)
  {
    var keys, rest := Collect(env, st, id, rules), Collect(env, st, id, rules[1..]);
    if |keys| == |rest| {
      var x, y := CollectedInOrder(env, st, id, rules[1..], a, b);
      i, j := x + 1, y + 1;
    } else if a == 0 {
      var y := CollectedFrom(env, st, id, rules[1..], rest[b - 1]);
      i, j := 0, y + 1;
    } else {
      var x, y := CollectedInOrder(env, st, id, rules[1..], a - 1, b - 1);
      i, j := x + 1, y + 1;
    }
  }
}
