/** Re-entrant `for_window` rules (`src/command/targeted.rs`): which window-rule pairs an execution enters,
    and when the promise that each runs once is kept.
  */
module ForWindow {
  import opened Commands
  import opened Marks
  import opened Options

  /** While a command list runs, no window-rule pair is ever active twice, all rules that were entered are
      left again, and marks stay unique. */
  lemma NoRuleReenters<W(!new)>(env: Env<W>, st: State<W>, commands: seq<Parsed>)
    requires WellFormed(env) && Valid(st.table)
    ensures var after := Execute(env, st, commands, None).0;
            && st.log <= after.log
            && Replay([], Written(st, after)) == Some([])
            && after.executed == st.executed + Entered(Written(st, after))
            && Valid(after.table)
  {
    ExecuteSound(env, st, commands, None);
  }

  /** The rules a log enters at the given depth above its start, in order. */
  function TopKeys(log: seq<LogEntry>, depth: nat): seq<Key>
    decreases |log|
  {
    if log == [] then []
    else
      match log[0]
      case Enter(k, _) => (if depth == 0 then [k] else []) + TopKeys(log[1..], depth + 1)
      case Leave(_) => if depth == 0 then [] else TopKeys(log[1..], depth - 1)
  }

  lemma {:induction false} TopKeysSkip(stack: seq<Key>, log: seq<LogEntry>, rest: seq<LogEntry>)
    requires Replay(stack, log).Some?
    ensures TopKeys(log + rest, |stack| + 1) == TopKeys(rest, |Replay(stack, log).value| + 1)
    decreases |log|
  {
    if log == [] {
      assert log + rest == rest;
    } else {
      assert (log + rest)[1..] == log[1..] + rest;
      match log[0]
      case Enter(k, _) => TopKeysSkip(stack + [k], log[1..], rest);
      case Leave(k) => TopKeysSkip(stack[..|stack| - 1], log[1..], rest);
    }
  }

  lemma TopKeysRule(key: Key, first: bool, log: seq<LogEntry>, rest: seq<LogEntry>)
    requires Replay([], log) == Some([])
    ensures TopKeys([Enter(key, first)] + (log + ([Leave(key)] + rest)), 0) == [key] + TopKeys(rest, 0)
  {
    TopKeysSkip([], log, [Leave(key)] + rest);
    assert ([Leave(key)] + rest)[1..] == rest;
    assert ([Enter(key, first)] + (log + ([Leave(key)] + rest)))[1..] == log + ([Leave(key)] + rest);
  }

  lemma WrittenRule<W>(st: State<W>, key: Key, left: State<W>, after: State<W>)
    requires EnterRule(st, key).log <= left.log && LeaveRule(left, key).log <= after.log
    ensures st.log <= after.log
    ensures Written(st, after) ==
            [Enter(key, key !in st.executed)] +
            (Written(EnterRule(st, key), left) + ([Leave(key)] + Written(LeaveRule(left, key), after)))
  {}

  lemma TopKeysOfRule<W>(st: State<W>, key: Key, left: State<W>, after: State<W>)
    requires EnterRule(st, key).log <= left.log && LeaveRule(left, key).log <= after.log
    requires Replay([], Written(EnterRule(st, key), left)) == Some([])
    ensures st.log <= after.log
    ensures TopKeys(Written(st, after), 0) == [key] + TopKeys(Written(LeaveRule(left, key), after), 0)
  {
    WrittenRule(st, key, left, after);
    TopKeysRule(key, key !in st.executed, Written(EnterRule(st, key), left), Written(LeaveRule(left, key), after));
  }

  /** What running the first collected rule amounts to. */
  lemma FirstRule<W(!new)>(env: Env<W>, st: State<W>, keys: seq<Key>, budget: set<Key>) returns (left: State<W>)
    requires WellFormed(env) && keys != []
    requires Unexecuted(env, st) <= budget && forall k :: k in keys ==> k in budget
    requires Unexecuted(env, st) == budget ==> keys[0] !in st.executed
    ensures var entered := EnterRule(st, keys[0]);
            && left == Execute(env, entered, env.parseRule(entered.world, keys[0]), None).0
            && entered.log <= left.log
            && Replay([], Written(entered, left)) == Some([])
    ensures Unexecuted(env, LeaveRule(left, keys[0])) < budget && forall k :: k in keys[1..] ==> k in budget
    ensures RunRules(env, st, keys, budget) == RunRules(env, LeaveRule(left, keys[0]), keys[1..], budget)
  {
    var entered := EnterRule(st, keys[0]);
    ExecuteSound(env, entered, env.parseRule(entered.world, keys[0]), None);
    left := Execute(env, entered, env.parseRule(entered.world, keys[0]), None).0;
    assert keys[0] in budget && keys[0] !in Unexecuted(env, left);
  }

  lemma {:induction false} RunRulesTop<W(!new)>(env: Env<W>, st: State<W>, keys: seq<Key>, budget: set<Key>)
    requires WellFormed(env)
    requires Unexecuted(env, st) <= budget && forall k :: k in keys ==> k in budget
    requires keys != [] && Unexecuted(env, st) == budget ==> keys[0] !in st.executed
    ensures st.log <= RunRules(env, st, keys, budget).log
    ensures TopKeys(Written(st, RunRules(env, st, keys, budget)), 0) == keys
    decreases |keys|
  {
    var after := RunRules(env, st, keys, budget);
    if keys == [] {
      assert Written(st, after) == [];
    } else {
      var key := keys[0];
      var left := FirstRule(env, st, keys, budget);
      RunRulesTop(env, LeaveRule(left, key), keys[1..], budget);
      TopKeysOfRule(st, key, left, after);
      assert [key] + keys[1..] == keys;
    }
  }

  /** A pass over the rules executes itself, in order, every pair it collected. */
  lemma FrameRunsWhatItCollects<W(!new)>(env: Env<W>, st: State<W>, id: WindowId)
    requires WellFormed(env)
    ensures st.log <= RunForWindow(env, st, id).log
    ensures TopKeys(Written(st, RunForWindow(env, st, id)), 0) == Collect(env, st, id, env.rules)
  {
    RunRulesTop(env, st, Collect(env, st, id, env.rules), Unexecuted(env, st));
  }

  /** The documented promise: each pair is executed once. */
  ghost predicate AtMostOnce(log: seq<LogEntry>, executed: set<Key>) {
    && (forall i :: 0 <= i < |log| && log[i].Enter? ==> log[i].key !in executed)
    && (forall i, j :: 0 <= i < j < |log| && log[i].Enter? && log[j].Enter? ==> log[i].key != log[j].key)
  }

  /** In the log of an execution the promise holds exactly when no entry finds its pair executed already. */
  lemma {:induction false} OnceIffFirst(log: seq<LogEntry>, executed: set<Key>)
    requires Flagged(log, executed)
    ensures AtMostOnce(log, executed) <==> AllFirst(log)
    decreases |log|
  {
    if log == [] {
    } else {
      var rest := log[1..];
      assert forall i :: 0 <= i < |rest| ==> rest[i] == log[i + 1];
      assert forall i :: 1 <= i < |log| ==> log[i] == rest[i - 1];
      var later := match log[0] case Enter(k, _) => executed + {k} case Leave(_) => executed;
      OnceIffFirst(rest, later);
      assert AllFirst(log) <==> (log[0].Enter? ==> log[0].first) && AllFirst(rest);
      if AtMostOnce(log, executed) {
        assert AtMostOnce(rest, later);
      }
      if AtMostOnce(rest, later) && (log[0].Enter? ==> log[0].first) {
        forall i, j | 0 <= i < j < |log| && log[i].Enter? && log[j].Enter?
          ensures log[i].key != log[j].key
        {
          assert log[j] == rest[j - 1];
        }
        assert AtMostOnce(log, executed);
      }
    }
  }

  /** Tidy rule tables keep the promise, whatever commands run and whatever matches. */
  lemma TidyRulesRunOnce<W(!new)>(env: Env<W>, st: State<W>, commands: seq<Parsed>)
    requires WellFormed(env) && Tidy(env, env.rules)
    ensures st.log <= Execute(env, st, commands, None).0.log
    ensures AtMostOnce(Written(st, Execute(env, st, commands, None).0), st.executed)
  {
    ExecuteSound(env, st, commands, None);
    OnceIffFirst(Written(st, Execute(env, st, commands, None).0), st.executed);
  }

  // ----- Pairs that run twice

  /** A collected pair that is executed before its turn comes is executed again. */
  lemma {:induction false} RepeatsExecuted<W(!new)>(env: Env<W>, st: State<W>, keys: seq<Key>, budget: set<Key>, j: nat)
    requires WellFormed(env)
    requires Unexecuted(env, st) <= budget && forall k :: k in keys ==> k in budget
    requires keys != [] && Unexecuted(env, st) == budget ==> keys[0] !in st.executed
    requires j < |keys| && keys[j] in st.executed
    ensures st.log <= RunRules(env, st, keys, budget).log
    ensures !AllFirst(Written(st, RunRules(env, st, keys, budget)))
    decreases j
  {
    var after := RunRules(env, st, keys, budget);
    var left := FirstRule(env, st, keys, budget);
    var next := LeaveRule(left, keys[0]);
    RunRulesTop(env, next, keys[1..], budget);
    WrittenRule(st, keys[0], left, after);
    if j == 0 {
      assert Written(st, after)[0] == Enter(keys[0], false);
    } else {
      RepeatsExecuted(env, next, keys[1..], budget, j - 1);
      LaterRepeats(st, keys[0], left, after);
    }
  }

  lemma LaterRepeats<W>(st: State<W>, key: Key, left: State<W>, after: State<W>)
    requires EnterRule(st, key).log <= left.log && LeaveRule(left, key).log <= after.log
    requires !AllFirst(Written(LeaveRule(left, key), after))
    ensures st.log <= after.log && !AllFirst(Written(st, after))
  {
    WrittenRule(st, key, left, after);
    var rest := Written(LeaveRule(left, key), after);
    AllFirstConcat([Leave(key)], rest);
    AllFirstConcat(Written(EnterRule(st, key), left), [Leave(key)] + rest);
    AllFirstConcat([Enter(key, key !in st.executed)], Written(EnterRule(st, key), left) + ([Leave(key)] + rest));
  }

  lemma {:induction false} RulesExecuted<W(!new)>(env: Env<W>, st: State<W>, keys: seq<Key>, budget: set<Key>, k: Key)
    requires WellFormed(env)
    requires Unexecuted(env, st) <= budget && forall k :: k in keys ==> k in budget
    requires keys != [] && Unexecuted(env, st) == budget ==> keys[0] !in st.executed
    requires k in keys
    ensures k in RunRules(env, st, keys, budget).executed
    decreases |keys|
  {
    var left := FirstRule(env, st, keys, budget);
    if k == keys[0] {
    } else {
      RulesExecuted(env, LeaveRule(left, keys[0]), keys[1..], budget, k);
    }
  }

  lemma {:induction false} ExecutedOrCollected<W(!new)>(env: Env<W>, st: State<W>, id: WindowId, rules: seq<Rule>, r: Rule)
    requires WellFormed(env) && r in rules && forall r :: r in rules ==> r in env.rules
    requires Window(id) in env.matching(st.world, st.table, r.criteria)
    ensures KeyOf(id, r) in st.executed || KeyOf(id, r) in Collect(env, st, id, rules)
  {
    if r == rules[0] {
    } else {
      ExecutedOrCollected(env, st, id, rules[1..], r);
    }
  }

  /** A pass leaves every rule that matched the window at its start executed for it. */
  lemma PassExecutesMatching<W(!new)>(env: Env<W>, st: State<W>, id: WindowId, r: Rule)
    requires WellFormed(env) && r in env.rules && Window(id) in env.matching(st.world, st.table, r.criteria)
    ensures KeyOf(id, r) in RunForWindow(env, st, id).executed
  {
    ExecutedOrCollected(env, st, id, env.rules, r);
    var keys := Collect(env, st, id, env.rules);
    if KeyOf(id, r) in keys {
      RulesExecuted(env, st, keys, Unexecuted(env, st), KeyOf(id, r));
    }
  }

  /** The rule matches the window in every state. */
  ghost predicate AlwaysMatches<W(!new)>(env: Env<W>, id: WindowId, r: Rule) {
    forall w, t :: Window(id) in env.matching(w, t, r.criteria)
  }

  ghost predicate AllMatch<W(!new)>(env: Env<W>, id: WindowId) {
    forall r :: r in env.rules ==> AlwaysMatches(env, id, r)
  }

  /** Marking several targets with the window among them executes every rule that always matches it. */
  lemma {:induction false} MarkingExecutes<W(!new)>(env: Env<W>, st: State<W>, command: Command, targets: seq<Target>,
                                                    lastFailure: Option<Outcome>, id: WindowId, r: Rule)
    requires WellFormed(env) && AlwaysMatches(env, id, r) && r in env.rules
    requires command.Mark? && Window(id) in targets
    ensures KeyOf(id, r) in ForEachMatch(env, st, command, targets, lastFailure).0.executed
    decreases |targets|
  {
    var (st1, outcome) := RunTargeted(env, st, command, targets[0]);
    assert outcome == SUCCESS;
    if targets[0] == Window(id) {
      MarkExecutes(env, st, id, command.identifier, command.add, command.toggle, r);
    } else {
      MarkingExecutes(env, st1, command, targets[1..], lastFailure, id, r);
    }
  }

  lemma MarkExecutes<W(!new)>(env: Env<W>, st: State<W>, id: WindowId, m: Marks.Mark, add: bool, toggle: bool, r: Rule)
    requires WellFormed(env) && AlwaysMatches(env, id, r) && r in env.rules
    ensures KeyOf(id, r) in MarkAndRecheck(env, st, Window(id), m, add, toggle).executed
  {
    PassExecutesMatching(env, st.(table := MarkTarget(st.table, Window(id), m, add, toggle)), id, r);
  }

  /** The targets of a command with criteria that parse. */
  function TargetsOf<W>(env: Env<W>, st: State<W>, parsed: Parsed, retained: Option<seq<Target>>): seq<Target>
    requires parsed.Parsed? && parsed.criteria.Some? && env.parseCriteria(st.world, parsed.criteria.value).Some?
  {
    if !parsed.criteriaStart && retained.Some? then retained.value
    else env.matching(st.world, st.table, env.parseCriteria(st.world, parsed.criteria.value).value)
  }

  /** The command marks the window, through its criteria or as the focused target. */
  predicate MarksWindow<W>(env: Env<W>, st: State<W>, parsed: Parsed, retained: Option<seq<Target>>, id: WindowId) {
    && parsed.Parsed? && parsed.command.Mark?
    && (match parsed.criteria
        case None => env.focusedTarget(st.world) == Some(Window(id))
        case Some(raw) => env.parseCriteria(st.world, raw).Some? && Window(id) in TargetsOf(env, st, parsed, retained))
  }

  /** The command list gets to a command that marks the window. */
  predicate ReachesMark<W(!new)>(env: Env<W>, st: State<W>, commands: seq<Parsed>, retained: Option<seq<Target>>,
                                 id: WindowId)
    requires WellFormed(env)
    decreases |commands|
  {
    commands != [] &&
    (MarksWindow(env, st, commands[0], retained, id) ||
     var (st1, retained1, outcome) := ExecuteParsed(env, st, commands[0], retained);
     !IsInvalid(outcome) && ReachesMark(env, st1, commands[1..], retained1, id))
  }

  lemma MarksWindowExecutes<W(!new)>(env: Env<W>, st: State<W>, parsed: Parsed, retained: Option<seq<Target>>,
                                     id: WindowId, r: Rule)
    requires WellFormed(env) && AlwaysMatches(env, id, r) && r in env.rules && MarksWindow(env, st, parsed, retained, id)
    ensures KeyOf(id, r) in ExecuteParsed(env, st, parsed, retained).0.executed
  {
    var command := parsed.command;
    if parsed.criteria.None? {
      MarkExecutes(env, st, id, command.identifier, command.add, command.toggle, r);
      assert ExecuteParsed(env, st, parsed, retained).0 == RunFocused(env, st, command).0;
    } else {
      var targets := TargetsOf(env, st, parsed, retained);
      MarkingExecutes(env, st, command, targets, None, id, r);
      assert ExecuteParsed(env, st, parsed, retained).0 == RunOnTargets(env, st, command, targets).0;
    }
  }

  lemma {:induction false} ReachedMarkExecutes<W(!new)>(env: Env<W>, st: State<W>, commands: seq<Parsed>,
                                                        retained: Option<seq<Target>>, id: WindowId, r: Rule)
    requires WellFormed(env) && AlwaysMatches(env, id, r) && r in env.rules && ReachesMark(env, st, commands, retained, id)
    ensures KeyOf(id, r) in Execute(env, st, commands, retained).0.executed
    decreases |commands|
  {
    var (st1, retained1, outcome) := ExecuteParsed(env, st, commands[0], retained);
    if MarksWindow(env, st, commands[0], retained, id) {
      MarksWindowExecutes(env, st, commands[0], retained, id, r);
    } else {
      ReachedMarkExecutes(env, st1, commands[1..], retained1, id, r);
    }
  }

  /** Executed in whatever state, the rule gets to mark the window. */
  ghost predicate AlwaysMarks<W(!new)>(env: Env<W>, id: WindowId, key: Key)
    requires WellFormed(env)
  {
    forall st: State<W> :: ReachesMark(env, st, env.parseRule(st.world, key), None, id)
  }

  /** For each rule it is settled whether it marks: never anything, or always the window. */
  ghost predicate Definite<W(!new)>(env: Env<W>, id: WindowId)
    requires WellFormed(env)
  {
    forall r, id' :: r in env.rules ==> Plain(env, KeyOf(id', r)) || AlwaysMarks(env, id, KeyOf(id, r))
  }

  /** Executing `key` leaves `later` executed too: it is the same pair, or `key` marks the window. */
  ghost predicate Spoils<W(!new)>(env: Env<W>, id: WindowId, key: Key, later: Key)
    requires WellFormed(env)
  {
    || key == later
    || ((exists r :: r in env.rules && later == KeyOf(id, r)) && AlwaysMarks(env, id, key))
  }

  lemma SpoiledIsExecuted<W(!new)>(env: Env<W>, st: State<W>, id: WindowId, key: Key, later: Key)
    requires WellFormed(env) && AllMatch(env, id) && Spoils(env, id, key, later) && key in st.executed
    ensures later in Execute(env, st, env.parseRule(st.world, key), None).0.executed
  {
    if key != later {
      var r :| r in env.rules && later == KeyOf(id, r);
      ReachedMarkExecutes(env, st, env.parseRule(st.world, key), None, id, r);
    }
  }

  lemma {:induction false} SpoiledRepeats<W(!new)>(env: Env<W>, st: State<W>, id: WindowId, keys: seq<Key>,
                                                   budget: set<Key>, i: nat, j: nat)
    requires WellFormed(env) && AllMatch(env, id) && i < j < |keys| && Spoils(env, id, keys[i], keys[j])
    requires Unexecuted(env, st) <= budget && forall k :: k in keys ==> k in budget
    requires Unexecuted(env, st) == budget ==> keys[0] !in st.executed
    ensures st.log <= RunRules(env, st, keys, budget).log
    ensures !AllFirst(Written(st, RunRules(env, st, keys, budget)))
    decreases i
  {
    var left := FirstRule(env, st, keys, budget);
    var next := LeaveRule(left, keys[0]);
    assert keys[1..][j - 1] == keys[j];
    if i == 0 {
      SpoiledIsExecuted(env, EnterRule(st, keys[0]), id, keys[0], keys[j]);
      RepeatsExecuted(env, next, keys[1..], budget, j - 1);
    } else {
      assert keys[1..][i - 1] == keys[i];
      SpoiledRepeats(env, next, id, keys[1..], budget, i - 1, j - 1);
    }
    LaterRepeats(st, keys[0], left, RunRules(env, st, keys, budget));
  }

  lemma {:induction false} AllCollected<W(!new)>(env: Env<W>, st: State<W>, id: WindowId, rules: seq<Rule>)
    requires WellFormed(env) && AllMatch(env, id) && st.executed == {} && forall r :: r in rules ==> r in env.rules
    ensures Collect(env, st, id, rules) == seq(|rules|, i requires 0 <= i < |rules| => KeyOf(id, rules[i]))
  {
    if rules == [] {
    } else {
      assert AlwaysMatches(env, id, rules[0]);
      AllCollected(env, st, id, rules[1..]);
    }
  }

  /** Where every rule matches a window and definitely marks it or nothing, the first pass for the window keeps
      the promise if and only if the rule table is tidy. */
  lemma OnceIffTidy<W(!new)>(env: Env<W>, st: State<W>, id: WindowId)
    requires WellFormed(env) && AllMatch(env, id) && Definite(env, id) && st.executed == {}
    ensures st.log <= RunForWindow(env, st, id).log
    ensures AtMostOnce(Written(st, RunForWindow(env, st, id)), {}) <==> Tidy(env, env.rules)
  {
    RunForWindowSound(env, st, id);
    OnceIffFirst(Written(st, RunForWindow(env, st, id)), {});
    if !Tidy(env, env.rules) {
      var i, j := Culprits(env, id);
      AllCollected(env, st, id, env.rules);
      SpoiledRepeats(env, st, id, Collect(env, st, id, env.rules), Unexecuted(env, st), i, j);
    }
  }

  /** What makes a rule table untidy: a pair listed again, or a marking rule with a successor. */
  lemma Culprits<W(!new)>(env: Env<W>, id: WindowId) returns (i: nat, j: nat)
    requires WellFormed(env) && Definite(env, id) && !Tidy(env, env.rules)
    ensures i < j < |env.rules| && Spoils(env, id, KeyOf(id, env.rules[i]), KeyOf(id, env.rules[j]))
  {
    var rules := env.rules;
    if i0, j0, id0 :| 0 <= i0 < j0 < |rules| && KeyOf(id0, rules[i0]) == KeyOf(id0, rules[j0]) {
      i, j := i0, j0;
    } else {
      var i0, id0 :| 0 <= i0 < |rules| - 1 && !Plain(env, KeyOf(id0, rules[i0]));
      i, j := i0, i0 + 1;
      assert rules[i] in rules && rules[j] in rules;
    }
  }

  /** One window, and two rules that match it; the first one marks the window. */
  function TwoRules(): Env<()> {
    Env(
      {0},
      [Rule("a", "mark m", 0), Rule("b", "nop", 0)],
      (w: (), k: Key) =>
        [Parsed(true, Some(""), if k.command == "mark m" then Mark(true, false, "m") else Other(0))],
      (w: (), raw: string) => Some(0),
      (w: (), t: Table, c: Criteria) => [Window(0)],
      (w: ()) => None,
      (w: (), option: nat) => (w, SUCCESS),
      (w: (), t: Table, command: Command) => (w, SUCCESS),
      (w: (), t: Table, command: Command, target: Target) => (w, SUCCESS)
    )
  }

  lemma TwoRulesMark(st: State<()>, commands: seq<Parsed>)
    requires commands != [] && commands[0] == Parsed(true, Some(""), Mark(true, false, "m"))
    ensures WellFormed(TwoRules()) && ReachesMark(TwoRules(), st, commands, None, 0)
  {
    assert MarksWindow(TwoRules(), st, commands[0], None, 0);
  }

  lemma TwoRulesDefinite()
    ensures WellFormed(TwoRules()) && AllMatch(TwoRules(), 0) && Definite(TwoRules(), 0)
  {
    var env := TwoRules();
    forall r, id | r in env.rules
      ensures Plain(env, KeyOf(id, r)) || AlwaysMarks(env, 0, KeyOf(0, r))
    {
      if r.command == "mark m" {
        forall st: State<()>
          ensures ReachesMark(env, st, env.parseRule(st.world, KeyOf(0, r)), None, 0)
        {
          TwoRulesMark(st, env.parseRule(st.world, KeyOf(0, r)));
        }
      }
    }
  }

  lemma TwoRulesUntidy()
    ensures !Tidy(TwoRules(), TwoRules().rules)
  {
    var env := TwoRules();
    var commands := env.parseRule((), KeyOf(0, env.rules[0]));
    assert commands[0].Parsed? && commands[0].command.Mark?;
    assert !MarkFree(commands);
    assert !Plain(env, KeyOf(0, env.rules[0]));
  }

  /** The promise fails: the first rule's mark makes a nested pass execute the second rule, and then the
      outer pass, which had collected both, executes it again. */
  lemma RuleRunsTwice(st: State<()>)
    requires st.executed == {}
    ensures WellFormed(TwoRules()) && st.log <= RunForWindow(TwoRules(), st, 0).log
    ensures !AtMostOnce(Written(st, RunForWindow(TwoRules(), st, 0)), {})
  {
    TwoRulesDefinite();
    TwoRulesUntidy();
    OnceIffTidy(TwoRules(), st, 0);
  }

  // ----- The loops

  method CollectRules<W(!new)>(env: Env<W>, st: State<W>, id: WindowId) returns (keys: seq<Key>)
    requires WellFormed(env)
    ensures keys == Collect(env, st, id, env.rules)
  {
    keys := [];
    assert env.rules[0..] == env.rules;
    for i := 0 to |env.rules|
      invariant keys + Collect(env, st, id, env.rules[i..]) == Collect(env, st, id, env.rules)
    {
      var rule := env.rules[i];
      assert env.rules[i..][1..] == env.rules[i + 1..];
      var key := Key(id, rule.raw, rule.command);
      if key !in st.executed && Window(id) in env.matching(st.world, st.table, rule.criteria) {
        assert keys + ([key] + Collect(env, st, id, env.rules[i + 1..])) ==
               keys + [key] + Collect(env, st, id, env.rules[i + 1..]);
        keys := keys + [key];
      }
    }
  }

  /** `run_for_window`: one loop collects, the other executes what was collected. */
  method RunMatchingRules<W(!new)>(env: Env<W>, st: State<W>, id: WindowId) returns (after: State<W>)
    requires WellFormed(env)
    ensures after == RunForWindow(env, st, id)
  {
    var keys := CollectRules(env, st, id);
    ghost var budget := Unexecuted(env, st);
    after := st;
    assert keys[0..] == keys;
    for i := 0 to |keys|
      invariant Unexecuted(env, after) <= budget && forall k :: k in keys[i..] ==> k in budget
      invariant keys[i..] != [] && Unexecuted(env, after) == budget ==> keys[i] !in after.executed
      invariant RunRules(env, after, keys[i..], budget) == RunForWindow(env, st, id)
    {
      assert keys[i..][1..] == keys[i + 1..];
      ghost var expected := FirstRule(env, after, keys[i..], budget);
      var entered := EnterRule(after, keys[i]);
      var left := Execute(env, entered, env.parseRule(entered.world, keys[i]), None).0;
      after := LeaveRule(left, keys[i]);
    }
  }
}
