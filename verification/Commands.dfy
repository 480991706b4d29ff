/** The command interpreter and its re-entrant `for_window` rules (`src/command/dispatch.rs`,
    `src/command/targeted.rs`).

    Marking a window re-checks the `for_window` rules, whose commands may mark windows again. Layout
    handlers, the parser and criteria matching are parameters (`Env`); everything else is modelled.
  */
module Commands {
  import opened Marks
  import opened Options

  type Criteria = nat

  datatype Outcome = Outcome(success: bool, parseError: Option<bool>)

  const SUCCESS := Outcome(true, None)
  const FAILURE := Outcome(false, Some(false))
  const PARSE_ERROR := Outcome(false, Some(true))

  /** CMD_INVALID, which ends a command list. */
  predicate IsInvalid(o: Outcome) {
    !o.success && o.parseError == Some(true)
  }

  datatype Command =
    | Mark(add: bool, toggle: bool, identifier: string)
    | Unmark(which: Option<string>)
    | SetLayoutOption(option: nat)
    | Exit
    | Reload
    | Other(handler: nat)

  datatype Parsed =
    | Refused(outcome: Outcome)
    | Parsed(criteriaStart: bool, criteria: Option<string>, command: Command)

  datatype Rule = Rule(raw: string, command: string, criteria: Criteria)

  /** A rule applied to a window. */
  datatype Key = Key(window: WindowId, raw: string, command: string)

  /** What happened to rules, in order. `first` says that the pair had not been executed before. */
  datatype LogEntry = Enter(key: Key, first: bool) | Leave(key: Key)

  datatype State<!W> = State(world: W, table: Table, executed: set<Key>, log: seq<LogEntry>)

  /** The parts of the compositor the interpreter calls into. */
  datatype Env<!W> = Env(
    windows: set<WindowId>,
    rules: seq<Rule>,
    parseRule: (W, Key) -> seq<Parsed>,
    parseCriteria: (W, string) -> Option<Criteria>,
    matching: (W, Table, Criteria) -> seq<Target>,
    focusedTarget: W -> Option<Target>,
    globalSetting: (W, nat) -> (W, Outcome),
    focusedHandler: (W, Table, Command) -> (W, Outcome),
    targetedHandler: (W, Table, Command, Target) -> (W, Outcome)
  )

  /** Criteria only ever match mapped windows. */
  ghost predicate WellFormed<W(!new)>(env: Env<W>) {
    forall w, t, c, id :: Window(id) in env.matching(w, t, c) ==> id in env.windows
  }

  /** All window-rule pairs. */
  function Universe<W>(env: Env<W>): set<Key> {
    set id, r | id in env.windows && r in env.rules :: Key(id, r.raw, r.command)
  }

  function Unexecuted<W>(env: Env<W>, st: State<W>): set<Key> {
    Universe(env) - st.executed
  }

  /** The rules that `run_for_window` collects: matching the window now and not executed for it yet. */
  function Collect<W(!new)>(env: Env<W>, st: State<W>, id: WindowId, rules: seq<Rule>): (keys: seq<Key>)
    requires WellFormed(env) && forall r :: r in rules ==> r in env.rules
    ensures forall k :: k in keys ==> k in Unexecuted(env, st)
  {
    if rules == [] then []
    else
      var r := rules[0];
      var key := Key(id, r.raw, r.command);
      var rest := Collect(env, st, id, rules[1..]);
      if key !in st.executed && Window(id) in env.matching(st.world, st.table, r.criteria) then
        assert id in env.windows && r in env.rules;
        [key] + rest
      else rest
  }

  function EnterRule<W>(st: State<W>, key: Key): State<W> {
    st.(executed := st.executed + {key}, log := st.log + [Enter(key, key !in st.executed)])
  }

  function LeaveRule<W>(st: State<W>, key: Key): State<W> {
    st.(log := st.log + [Leave(key)])
  }

  // ----- The interpreter

  /** Nothing forgets that a rule was executed. */
  ghost predicate Grows<W>(st: State<W>, after: State<W>) {
    st.executed <= after.executed
  }

  function Execute<W(!new)>(env: Env<W>, st: State<W>, commands: seq<Parsed>, retained: Option<seq<Target>>):
      (r: (State<W>, seq<Outcome>))
    requires WellFormed(env)
    ensures Grows(st, r.0)
    decreases Unexecuted(env, st), 5, |commands|
  {
    if commands == [] then (st, [])
    else
      var (st1, retained1, outcome) := ExecuteParsed(env, st, commands[0], retained);
      if IsInvalid(outcome) then (st1, [outcome])
      else
        var (st2, rest) := Execute(env, st1, commands[1..], retained1);
        (st2, [outcome] + rest)
  }

  function ExecuteParsed<W(!new)>(env: Env<W>, st: State<W>, parsed: Parsed, retained: Option<seq<Target>>):
      (r: (State<W>, Option<seq<Target>>, Outcome))
    requires WellFormed(env)
    ensures Grows(st, r.0)
    decreases Unexecuted(env, st), 4
  {
    match parsed
    case Refused(outcome) => (st, retained, outcome)
    case Parsed(criteriaStart, criteria, command) =>
      var kept := if criteriaStart then None else retained;
      match criteria
      case None => var (st1, outcome) := RunFocused(env, st, command); (st1, kept, outcome)
      case Some(raw) =>
        match env.parseCriteria(st.world, raw)
        case None => (st, kept, FAILURE)
        case Some(c) =>
          var targets := if kept.Some? then kept.value else env.matching(st.world, st.table, c);
          var (st1, outcome) := RunOnTargets(env, st, command, targets);
          (st1, Some(targets), outcome)
  }

  /** A command with criteria, on the targets of its group. */
  function RunOnTargets<W(!new)>(env: Env<W>, st: State<W>, command: Command, targets: seq<Target>):
      (r: (State<W>, Outcome))
    requires WellFormed(env)
    ensures Grows(st, r.0)
    decreases Unexecuted(env, st), 3, |targets| + 1
  {
    if targets == [] || command.Exit? || command.Reload? then (st, FAILURE)
    else if command.Unmark? then (st.(table := UnmarkEach(st.table, targets, command.which)), SUCCESS)
    else ForEachMatch(env, st, command, targets, None)
  }

  function UnmarkEach(t: Table, targets: seq<Target>, which: Option<string>): Table
    decreases |targets|
  {
    if targets == [] then t else UnmarkEach(UnmarkTarget(t, targets[0], which), targets[1..], which)
  }

  function ForEachMatch<W(!new)>(env: Env<W>, st: State<W>, command: Command, targets: seq<Target>,
                                 lastFailure: Option<Outcome>): (r: (State<W>, Outcome))
    requires WellFormed(env)
    ensures Grows(st, r.0)
    decreases Unexecuted(env, st), 3, |targets|
  {
    if targets == [] then (st, if lastFailure.Some? then lastFailure.value else SUCCESS)
    else
      var (st1, outcome) := RunTargeted(env, st, command, targets[0]);
      if IsInvalid(outcome) then (st1, outcome)
      else ForEachMatch(env, st1, command, targets[1..], if outcome.success then lastFailure else Some(outcome))
  }

  function RunTargeted<W(!new)>(env: Env<W>, st: State<W>, command: Command, target: Target): (r: (State<W>, Outcome))
    requires WellFormed(env)
    ensures Grows(st, r.0)
    decreases Unexecuted(env, st), 2
  {
    match command
    case Mark(add, toggle, identifier) => (MarkAndRecheck(env, st, target, identifier, add, toggle), SUCCESS)
    case Unmark(which) => (st.(table := UnmarkTarget(st.table, target, which)), SUCCESS)
    case SetLayoutOption(option) =>
      var (w, outcome) := env.globalSetting(st.world, option); (st.(world := w), outcome)
    case _ =>
      var (w, outcome) := env.targetedHandler(st.world, st.table, command, target); (st.(world := w), outcome)
  }

  function RunFocused<W(!new)>(env: Env<W>, st: State<W>, command: Command): (r: (State<W>, Outcome))
    requires WellFormed(env)
    ensures Grows(st, r.0)
    decreases Unexecuted(env, st), 2
  {
    match command
    case Mark(add, toggle, identifier) =>
      (match env.focusedTarget(st.world)
       case None => (st, PARSE_ERROR)
       case Some(target) => (MarkAndRecheck(env, st, target, identifier, add, toggle), SUCCESS))
    case Unmark(which) => (st.(table := UnmarkGlobally(st.table, which)), SUCCESS)
    case SetLayoutOption(option) =>
      var (w, outcome) := env.globalSetting(st.world, option); (st.(world := w), outcome)
    case _ =>
      var (w, outcome) := env.focusedHandler(st.world, st.table, command); (st.(world := w), outcome)
  }

  /** `mark_target`: move the mark, then re-check the rules of a marked window. */
  function MarkAndRecheck<W(!new)>(env: Env<W>, st: State<W>, target: Target, m: Marks.Mark, add: bool, toggle: bool):
      (r: State<W>)
    requires WellFormed(env)
    ensures Grows(st, r)
    decreases Unexecuted(env, st), 1, 1
  {
    var marked := st.(table := MarkTarget(st.table, target, m, add, toggle));
    match target
    case Window(id) => RunForWindow(env, marked, id)
    case Container(_, _) => marked
  }

  function RunForWindow<W(!new)>(env: Env<W>, st: State<W>, id: WindowId): (r: State<W>)
    requires WellFormed(env)
    ensures Grows(st, r)
    decreases Unexecuted(env, st), 1, 0
  {
    RunRules(env, st, Collect(env, st, id, env.rules), Unexecuted(env, st))
  }

  /** Executes the collected rules without looking again whether a nested pass already did. `budget` is
      what was unexecuted when they were collected. */
  function RunRules<W(!new)>(env: Env<W>, st: State<W>, keys: seq<Key>, ghost budget: set<Key>): (r: State<W>)
    requires WellFormed(env)
    requires Unexecuted(env, st) <= budget && forall k :: k in keys ==> k in budget
    requires keys != [] && Unexecuted(env, st) == budget ==> keys[0] !in st.executed
    ensures Grows(st, r)
    decreases budget, 0, |keys|
  {
    if keys == [] then st
    else
      var key := keys[0];
      var entered := EnterRule(st, key);
      assert key in budget && key !in Unexecuted(env, entered);
      var left := Execute(env, entered, env.parseRule(entered.world, key), None).0;
      assert Unexecuted(env, left) < budget;
      RunRules(env, LeaveRule(left, key), keys[1..], budget)
  }

  // ----- Commands that execute no rule

  predicate MarkFree(commands: seq<Parsed>) {
    forall i :: 0 <= i < |commands| ==> !(commands[i].Parsed? && commands[i].command.Mark?)
  }

  /** A command list that marks nothing executes no rule. */
  lemma {:induction false} MarkFreeIsQuiet<W(!new)>(env: Env<W>, st: State<W>, commands: seq<Parsed>,
                                                    retained: Option<seq<Target>>)
    requires WellFormed(env) && MarkFree(commands)
    ensures var after := Execute(env, st, commands, retained).0; after.log == st.log && after.executed == st.executed
    decreases |commands|
  {
    if commands == [] {
    } else {
      ParsedIsQuiet(env, st, commands[0], retained);
      var (st1, retained1, outcome) := ExecuteParsed(env, st, commands[0], retained);
      MarkFreeIsQuiet(env, st1, commands[1..], retained1);
    }
  }

  lemma ParsedIsQuiet<W(!new)>(env: Env<W>, st: State<W>, parsed: Parsed, retained: Option<seq<Target>>)
    requires WellFormed(env) && !(parsed.Parsed? && parsed.command.Mark?)
    ensures var after := ExecuteParsed(env, st, parsed, retained).0; after.log == st.log && after.executed == st.executed
  {
    if parsed.Parsed? && parsed.criteria.None? {
      assert var after := RunFocused(env, st, parsed.command).0; after.log == st.log && after.executed == st.executed;
    } else if parsed.Parsed? {
      var kept := if parsed.criteriaStart then None else retained;
      var c := env.parseCriteria(st.world, parsed.criteria.value);
      if c.Some? {
        var targets := if kept.Some? then kept.value else env.matching(st.world, st.table, c.value);
        MatchesAreQuiet(env, st, parsed.command, targets, None);
        var after := RunOnTargets(env, st, parsed.command, targets).0;
        assert after.log == st.log && after.executed == st.executed;
      }
    }
  }

  lemma {:induction false} MatchesAreQuiet<W(!new)>(env: Env<W>, st: State<W>, command: Command, targets: seq<Target>,
                                                    lastFailure: Option<Outcome>)
    requires WellFormed(env) && !command.Mark?
    ensures var after := ForEachMatch(env, st, command, targets, lastFailure).0;
            after.log == st.log && after.executed == st.executed
    decreases |targets|
  {
    if targets == [] {
    } else {
      var (st1, outcome) := RunTargeted(env, st, command, targets[0]);
      MatchesAreQuiet(env, st1, command, targets[1..], if outcome.success then lastFailure else Some(outcome));
    }
  }

  // ----- Rule tables that execute each pair once

  predicate Distinct(keys: seq<Key>) {
    forall i, j :: 0 <= i < j < |keys| ==> keys[i] != keys[j]
  }

  ghost predicate Plain<W(!new)>(env: Env<W>, key: Key) {
    forall w :: MarkFree(env.parseRule(w, key))
  }

  function KeyOf(id: WindowId, r: Rule): Key {
    Key(id, r.raw, r.command)
  }

  /** No rule is listed twice, and none but the last one marks anything. */
  ghost predicate Tidy<W(!new)>(env: Env<W>, rules: seq<Rule>) {
    && (forall i, j, id :: 0 <= i < j < |rules| ==> KeyOf(id, rules[i]) != KeyOf(id, rules[j]))
    && (forall i, id :: 0 <= i < |rules| - 1 ==> Plain(env, KeyOf(id, rules[i])))
  }

  /** Collected pairs that stay unexecuted until their turn comes. */
  ghost predicate TidyKeys<W(!new)>(env: Env<W>, keys: seq<Key>, executed: set<Key>) {
    && Distinct(keys)
    && (forall k :: k in keys ==> k !in executed)
    && (forall i :: 0 <= i < |keys| - 1 ==> Plain(env, keys[i]))
  }

  lemma {:induction false} CollectedFrom<W(!new)>(env: Env<W>, st: State<W>, id: WindowId, rules: seq<Rule>, k: Key)
      returns (i: nat)
    requires WellFormed(env) && (forall r :: r in rules ==> r in env.rules) && k in Collect(env, st, id, rules)
    ensures i < |rules| && k == KeyOf(id, rules[i])
  {
    if k == KeyOf(id, rules[0]) {
      i := 0;
    } else {
      var n := CollectedFrom(env, st, id, rules[1..], k);
      i := n + 1;
    }
  }

  lemma TidyFront<W(!new)>(env: Env<W>, key: Key, rest: seq<Key>, executed: set<Key>)
    requires TidyKeys(env, rest, executed) && key !in executed && key !in rest && (rest != [] ==> Plain(env, key))
    ensures TidyKeys(env, [key] + rest, executed)
  {
    assert forall i :: 0 <= i < |rest| ==> rest[i] in rest;
  }

  lemma {:induction false} CollectTidy<W(!new)>(env: Env<W>, st: State<W>, id: WindowId, rules: seq<Rule>)
    requires WellFormed(env) && Tidy(env, rules) && forall r :: r in rules ==> r in env.rules
    ensures TidyKeys(env, Collect(env, st, id, rules), st.executed)
  {
    if rules == [] {
    } else {
      var key, rest := KeyOf(id, rules[0]), Collect(env, st, id, rules[1..]);
      CollectTidy(env, st, id, rules[1..]);
      if key in rest {
        var i := CollectedFrom(env, st, id, rules[1..], key);
        assert false;
      }
      if key !in st.executed {
        TidyFront(env, key, rest, st.executed);
      }
    }
  }

  // ----- What every execution keeps

  /** Replays a log against the stack of active rules; `None` if a rule were entered while active, or
      left while not on top. */
  function Replay(stack: seq<Key>, log: seq<LogEntry>): Option<seq<Key>>
    decreases |log|
  {
    if log == [] then Some(stack)
    else
      match log[0]
      case Enter(k, _) => if k in stack then None else Replay(stack + [k], log[1..])
      case Leave(k) =>
        if stack != [] && stack[|stack| - 1] == k then Replay(stack[..|stack| - 1], log[1..]) else None
  }

  lemma {:induction false} ReplayConcat(stack: seq<Key>, a: seq<LogEntry>, b: seq<LogEntry>)
    ensures Replay(stack, a + b) ==
            match Replay(stack, a) case None => None case Some(s) => Replay(s, b)
    decreases |a|
  {
    if a == [] {
      assert a + b == b;
    } else {
      assert (a + b)[1..] == a[1..] + b;
      match a[0]
      case Enter(k, _) => ReplayConcat(stack + [k], a[1..], b);
      case Leave(k) =>
        if stack != [] {
          ReplayConcat(stack[..|stack| - 1], a[1..], b);
        }
    }
  }

  /** On top of any stack of rules from `base`, the log returns to that stack and never re-enters a rule. */
  ghost predicate Nested(log: seq<LogEntry>, base: set<Key>) {
    forall stack :: (forall k :: k in stack ==> k in base) ==> Replay(stack, log) == Some(stack)
  }

  function Entered(log: seq<LogEntry>): set<Key> {
    if log == [] then {}
    else (match log[0] case Enter(k, _) => {k} case Leave(_) => {}) + Entered(log[1..])
  }

  lemma {:induction false} EnteredConcat(a: seq<LogEntry>, b: seq<LogEntry>)
    ensures Entered(a + b) == Entered(a) + Entered(b)
  {
    if a == [] {
      assert a + b == b;
    } else {
      assert (a + b)[1..] == a[1..] + b;
      EnteredConcat(a[1..], b);
    }
  }

  /** Every entry tells correctly whether it is the first execution of its pair. */
  predicate Flagged(log: seq<LogEntry>, executed: set<Key>)
    decreases |log|
  {
    if log == [] then true
    else
      match log[0]
      case Enter(k, first) => first == (k !in executed) && Flagged(log[1..], executed + {k})
      case Leave(_) => Flagged(log[1..], executed)
  }

  lemma {:induction false} FlaggedConcat(a: seq<LogEntry>, b: seq<LogEntry>, executed: set<Key>)
    ensures Flagged(a + b, executed) <==> Flagged(a, executed) && Flagged(b, executed + Entered(a))
    decreases |a|
  {
    if a == [] {
      assert a + b == b && executed + Entered(a) == executed;
    } else {
      assert (a + b)[1..] == a[1..] + b;
      match a[0]
      case Enter(k, _) =>
        FlaggedConcat(a[1..], b, executed + {k});
        assert executed + {k} + Entered(a[1..]) == executed + Entered(a);
      case Leave(_) =>
        FlaggedConcat(a[1..], b, executed);
        assert executed + Entered(a[1..]) == executed + Entered(a);
    }
  }

  predicate AllFirst(log: seq<LogEntry>) {
    forall i :: 0 <= i < |log| && log[i].Enter? ==> log[i].first
  }

  lemma AllFirstConcat(a: seq<LogEntry>, b: seq<LogEntry>)
    ensures AllFirst(a + b) <==> AllFirst(a) && AllFirst(b)
  {
    assert forall i :: 0 <= i < |a| ==> (a + b)[i] == a[i];
    assert forall i :: 0 <= i < |b| ==> (a + b)[|a| + i] == b[i];
  }

  /** The log written between two states. */
  function Written<W>(st: State<W>, after: State<W>): seq<LogEntry>
    requires st.log <= after.log
  {
    after.log[|st.log|..]
  }

  /** How two states of an execution relate while the rules of `base` are the only ones that may be active.
      With tidy rules, moreover, no pair is executed again. */
  ghost predicate Sound<W(!new)>(tidy: bool, base: set<Key>, st: State<W>, after: State<W>) {
    && st.log <= after.log
    && after.executed == st.executed + Entered(Written(st, after))
    && Flagged(Written(st, after), st.executed)
    && Nested(Written(st, after), base)
    && (tidy ==> AllFirst(Written(st, after)))
    && (Valid(st.table) ==> Valid(after.table))
  }

  /** A step that writes no log and executes no rule. */
  lemma SoundStep<W(!new)>(tidy: bool, base: set<Key>, st: State<W>, after: State<W>)
    requires after.log == st.log && after.executed == st.executed && (Valid(st.table) ==> Valid(after.table))
    ensures Sound(tidy, base, st, after)
  {
    assert Written(st, after) == [];
  }

  lemma SoundTrans<W(!new)>(tidy: bool, base: set<Key>, a: State<W>, b: State<W>, base': set<Key>, c: State<W>)
    requires Sound(tidy, base, a, b) && Sound(tidy, base', b, c) && base <= base'
    ensures Sound(tidy, base, a, c)
  {
    var d1, d2 := Written(a, b), Written(b, c);
    assert Written(a, c) == d1 + d2;
    EnteredConcat(d1, d2);
    FlaggedConcat(d1, d2, a.executed);
    AllFirstConcat(d1, d2);
    forall stack | forall k :: k in stack ==> k in base
      ensures Replay(stack, d1 + d2) == Some(stack)
    {
      ReplayConcat(stack, d1, d2);
    }
  }

  /** One rule, entered while not in `base`, executed and left again. */
  lemma SoundRule<W(!new)>(tidy: bool, base: set<Key>, st: State<W>, key: Key, left: State<W>)
    requires base <= st.executed && key !in base && (tidy ==> key !in st.executed)
    requires Sound(tidy, st.executed + {key}, EnterRule(st, key), left)
    ensures Sound(tidy, base, st, LeaveRule(left, key))
  {
    var entered, after := EnterRule(st, key), LeaveRule(left, key);
    var d := Written(entered, left);
    var first := [Enter(key, key !in st.executed)];
    assert Written(st, after) == first + (d + [Leave(key)]);
    EnteredConcat(first, d + [Leave(key)]);
    EnteredConcat(d, [Leave(key)]);
    FlaggedConcat(first, d + [Leave(key)], st.executed);
    assert st.executed + Entered(first) == entered.executed;
    FlaggedConcat(d, [Leave(key)], entered.executed);
    AllFirstConcat(first, d + [Leave(key)]);
    AllFirstConcat(d, [Leave(key)]);
    forall stack | forall k :: k in stack ==> k in base
      ensures Replay(stack, first + (d + [Leave(key)])) == Some(stack)
    {
      assert (first + (d + [Leave(key)]))[1..] == d + [Leave(key)];
      ReplayConcat(stack + [key], d, [Leave(key)]);
      assert (stack + [key])[..|stack|] == stack;
    }
  }

  lemma {:induction false} ExecuteSound<W(!new)>(env: Env<W>, st: State<W>, commands: seq<Parsed>, retained: Option<seq<Target>>)
    requires WellFormed(env)
    ensures Sound(Tidy(env, env.rules), st.executed, st, Execute(env, st, commands, retained).0)
    decreases Unexecuted(env, st), 5, |commands|
  {
    if commands == [] {
      SoundStep(Tidy(env, env.rules), st.executed, st, st);
    } else {
      ExecuteParsedSound(env, st, commands[0], retained);
      var (st1, retained1, outcome) := ExecuteParsed(env, st, commands[0], retained);
      if !IsInvalid(outcome) {
        ExecuteSound(env, st1, commands[1..], retained1);
        SoundTrans(Tidy(env, env.rules), st.executed, st, st1, st1.executed, Execute(env, st1, commands[1..], retained1).0);
      }
    }
  }

  lemma {:induction false} ExecuteParsedSound<W(!new)>(env: Env<W>, st: State<W>, parsed: Parsed, retained: Option<seq<Target>>)
    requires WellFormed(env)
    ensures Sound(Tidy(env, env.rules), st.executed, st, ExecuteParsed(env, st, parsed, retained).0)
    decreases Unexecuted(env, st), 4
  {
    SoundStep(Tidy(env, env.rules), st.executed, st, st);
    if parsed.Parsed? {
      if parsed.criteria.None? {
        RunFocusedSound(env, st, parsed.command);
      } else {
        var kept := if parsed.criteriaStart then None else retained;
        var c := env.parseCriteria(st.world, parsed.criteria.value);
        if c.Some? {
          var targets := if kept.Some? then kept.value else env.matching(st.world, st.table, c.value);
          RunOnTargetsSound(env, st, parsed.command, targets);
        }
      }
    }
  }

  lemma {:induction false} UnmarkEachValid(t: Table, targets: seq<Target>, which: Option<string>)
    requires Valid(t)
    ensures Valid(UnmarkEach(t, targets, which))
    decreases |targets|
  {
    if targets == [] {
    } else {
      ApplyKeepsValid(t, UnmarkOp(targets[0], which));
      UnmarkEachValid(UnmarkTarget(t, targets[0], which), targets[1..], which);
    }
  }

  lemma {:induction false} RunOnTargetsSound<W(!new)>(env: Env<W>, st: State<W>, command: Command, targets: seq<Target>)
    requires WellFormed(env)
    ensures Sound(Tidy(env, env.rules), st.executed, st, RunOnTargets(env, st, command, targets).0)
    decreases Unexecuted(env, st), 3, |targets| + 1
  {
    SoundStep(Tidy(env, env.rules), st.executed, st, st);
    if command.Unmark? {
      if Valid(st.table) {
        UnmarkEachValid(st.table, targets, command.which);
      }
      SoundStep(Tidy(env, env.rules), st.executed, st, st.(table := UnmarkEach(st.table, targets, command.which)));
    } else {
      ForEachMatchSound(env, st, command, targets, None);
    }
  }

  lemma {:induction false} ForEachMatchSound<W(!new)>(env: Env<W>, st: State<W>, command: Command, targets: seq<Target>,
                                   lastFailure: Option<Outcome>)
    requires WellFormed(env)
    ensures Sound(Tidy(env, env.rules), st.executed, st, ForEachMatch(env, st, command, targets, lastFailure).0)
    decreases Unexecuted(env, st), 3, |targets|
  {
    if targets == [] {
      SoundStep(Tidy(env, env.rules), st.executed, st, st);
    } else {
      RunTargetedSound(env, st, command, targets[0]);
      var (st1, outcome) := RunTargeted(env, st, command, targets[0]);
      if !IsInvalid(outcome) {
        var failure := if outcome.success then lastFailure else Some(outcome);
        ForEachMatchSound(env, st1, command, targets[1..], failure);
        SoundTrans(Tidy(env, env.rules), st.executed, st, st1, st1.executed, ForEachMatch(env, st1, command, targets[1..], failure).0);
      }
    }
  }

  lemma {:induction false} RunTargetedSound<W(!new)>(env: Env<W>, st: State<W>, command: Command, target: Target)
    requires WellFormed(env)
    ensures Sound(Tidy(env, env.rules), st.executed, st, RunTargeted(env, st, command, target).0)
    decreases Unexecuted(env, st), 2
  {
    match command
    case Mark(add, toggle, identifier) => MarkAndRecheckSound(env, st, target, identifier, add, toggle);
    case Unmark(which) =>
      if Valid(st.table) {
        ApplyKeepsValid(st.table, UnmarkOp(target, which));
      }
      SoundStep(Tidy(env, env.rules), st.executed, st, RunTargeted(env, st, command, target).0);
    case _ => SoundStep(Tidy(env, env.rules), st.executed, st, RunTargeted(env, st, command, target).0);
  }

  lemma {:induction false} RunFocusedSound<W(!new)>(env: Env<W>, st: State<W>, command: Command)
    requires WellFormed(env)
    ensures Sound(Tidy(env, env.rules), st.executed, st, RunFocused(env, st, command).0)
    decreases Unexecuted(env, st), 2
  {
    match command
    case Mark(add, toggle, identifier) =>
      SoundStep(Tidy(env, env.rules), st.executed, st, st);
      var target := env.focusedTarget(st.world);
      if target.Some? {
        MarkAndRecheckSound(env, st, target.value, identifier, add, toggle);
      }
    case Unmark(which) =>
      if Valid(st.table) {
        ApplyKeepsValid(st.table, UnmarkAllOp(which));
      }
      SoundStep(Tidy(env, env.rules), st.executed, st, RunFocused(env, st, command).0);
    case _ => SoundStep(Tidy(env, env.rules), st.executed, st, RunFocused(env, st, command).0);
  }

  lemma {:induction false} MarkAndRecheckSound<W(!new)>(env: Env<W>, st: State<W>, target: Target, m: Marks.Mark, add: bool, toggle: bool)
    requires WellFormed(env)
    ensures Sound(Tidy(env, env.rules), st.executed, st, MarkAndRecheck(env, st, target, m, add, toggle))
    decreases Unexecuted(env, st), 1, 1
  {
    var marked := st.(table := MarkTarget(st.table, target, m, add, toggle));
    if Valid(st.table) {
      MarkTargetEffect(st.table, target, m, add, toggle);
    }
    SoundStep(Tidy(env, env.rules), st.executed, st, marked);
    if target.Window? {
      RunForWindowSound(env, marked, target.id);
      SoundTrans(Tidy(env, env.rules), st.executed, st, marked, marked.executed, RunForWindow(env, marked, target.id));
    }
  }

  lemma {:induction false} RunForWindowSound<W(!new)>(env: Env<W>, st: State<W>, id: WindowId)
    requires WellFormed(env)
    ensures Sound(Tidy(env, env.rules), st.executed, st, RunForWindow(env, st, id))
    decreases Unexecuted(env, st), 1, 0
  {
    if Tidy(env, env.rules) {
      CollectTidy(env, st, id, env.rules);
    }
    RunRulesSound(env, st, Collect(env, st, id, env.rules), Unexecuted(env, st), st.executed);
  }

  lemma NextIsTidy<W(!new)>(env: Env<W>, keys: seq<Key>, executed: set<Key>)
    requires keys != [] && TidyKeys(env, keys, executed)
    ensures TidyKeys(env, keys[1..], executed + {keys[0]})
  {
    forall k | k in keys[1..]
      ensures k !in executed + {keys[0]}
    {
      var i :| 0 <= i < |keys[1..]| && keys[1..][i] == k;
      assert keys[i + 1] == k;
    }
  }

  lemma {:induction false} RunRulesSound<W(!new)>(env: Env<W>, st: State<W>, keys: seq<Key>, budget: set<Key>, base: set<Key>)
    requires WellFormed(env)
    requires Unexecuted(env, st) <= budget && forall k :: k in keys ==> k in budget
    requires keys != [] && Unexecuted(env, st) == budget ==> keys[0] !in st.executed
    requires base <= st.executed && forall k :: k in keys ==> k !in base
    requires Tidy(env, env.rules) ==> TidyKeys(env, keys, st.executed)
    ensures Sound(Tidy(env, env.rules), base, st, RunRules(env, st, keys, budget))
    decreases budget, 0, |keys|
  {
    if keys == [] {
      SoundStep(Tidy(env, env.rules), base, st, st);
    } else {
      var key := keys[0];
      var entered := EnterRule(st, key);
      assert key in budget && key !in Unexecuted(env, entered);
      ExecuteSound(env, entered, env.parseRule(entered.world, key), None);
      var left := Execute(env, entered, env.parseRule(entered.world, key), None).0;
      SoundRule(Tidy(env, env.rules), base, st, key, left);
      var after := LeaveRule(left, key);
      assert Unexecuted(env, after) < budget;
      if Tidy(env, env.rules) && 1 < |keys| {
        MarkFreeIsQuiet(env, entered, env.parseRule(entered.world, key), None);
        NextIsTidy(env, keys, st.executed);
      }
      RunRulesSound(env, after, keys[1..], budget, base);
      SoundTrans(Tidy(env, env.rules), base, st, after, base, RunRules(env, after, keys[1..], budget));
    }
  }
}
