/** Command lists (`src/command/dispatch.rs`): where execution stops, what is reported, and which targets
    the commands of a criteria group see.
  */
module CommandLists {
  import opened Commands
  import opened Marks
  import opened Options

  /** Every command of the list, executed in order without ever stopping, with the state after each. */
  function Uncut<W(!new)>(env: Env<W>, st: State<W>, commands: seq<Parsed>, retained: Option<seq<Target>>):
      (r: seq<(State<W>, Outcome)>)
    requires WellFormed(env)
    ensures |r| == |commands|
    decreases |commands|
  {
    if commands == [] then []
    else
      var (st1, retained1, outcome) := ExecuteParsed(env, st, commands[0], retained);
      [(st1, outcome)] + Uncut(env, st1, commands[1..], retained1)
  }

  /** The results up to and including the first invalid one. */
  function Cut<W>(results: seq<(State<W>, Outcome)>): (r: seq<(State<W>, Outcome)>)
    ensures r <= results
    ensures forall i :: 0 <= i < |r| - 1 ==> !IsInvalid(r[i].1)
    ensures r != results ==> r != [] && IsInvalid(r[|r| - 1].1)
  {
    if results == [] then []
    else if IsInvalid(results[0].1) then [results[0]]
    else [results[0]] + Cut(results[1..])
  }

  function Outcomes<W>(results: seq<(State<W>, Outcome)>): (r: seq<Outcome>)
    ensures |r| == |results| && forall i :: 0 <= i < |r| ==> r[i] == results[i].1
  {
    if results == [] then [] else [results[0].1] + Outcomes(results[1..])
  }

  /** The state after the last result. */
  function FinalState<W>(st: State<W>, results: seq<(State<W>, Outcome)>): State<W> {
    if results == [] then st else results[|results| - 1].0
  }

  /** A command list has the outcomes and the effect of the uncut list, cut right after the first
      CMD_INVALID. */
  lemma {:induction false} ExecuteIsCut<W(!new)>(env: Env<W>, st: State<W>, commands: seq<Parsed>,
                                                 retained: Option<seq<Target>>)
    requires WellFormed(env)
    ensures var cut := Cut(Uncut(env, st, commands, retained));
            Execute(env, st, commands, retained) == (FinalState(st, cut), Outcomes(cut))
    decreases |commands|
  {
    if commands == [] {
    } else {
      var (st1, retained1, outcome) := ExecuteParsed(env, st, commands[0], retained);
      var rest := Uncut(env, st1, commands[1..], retained1);
      assert ([(st1, outcome)] + rest)[1..] == rest;
      if !IsInvalid(outcome) {
        ExecuteIsCut(env, st1, commands[1..], retained1);
        CutFront(st, st1, outcome, rest);
      } else {
        assert Outcomes([(st1, outcome)]) == [outcome];
      }
    }
  }

  lemma CutFront<W>(st: State<W>, st1: State<W>, outcome: Outcome, rest: seq<(State<W>, Outcome)>)
    requires !IsInvalid(outcome)
    ensures var cut := Cut([(st1, outcome)] + rest);
            FinalState(st, cut) == FinalState(st1, Cut(rest)) && Outcomes(cut) == [outcome] + Outcomes(Cut(rest))
  {
    assert ([(st1, outcome)] + rest)[1..] == rest;
    assert ([(st1, outcome)] + Cut(rest))[1..] == Cut(rest);
  }

  /** One command on every match, without ever stopping. */
  function UncutMatches<W(!new)>(env: Env<W>, st: State<W>, command: Command, targets: seq<Target>):
      (r: seq<(State<W>, Outcome)>)
    requires WellFormed(env)
    ensures |r| == |targets|
    decreases |targets|
  {
    if targets == [] then []
    else
      var (st1, outcome) := RunTargeted(env, st, command, targets[0]);
      [(st1, outcome)] + UncutMatches(env, st1, command, targets[1..])
  }

  /** The outcome that stands for a list of outcomes: the last failure, or else the given default. */
  function LastFailure(outcomes: seq<Outcome>, default: Outcome): Outcome
    decreases |outcomes|
  {
    if outcomes == [] then default
    else if !outcomes[|outcomes| - 1].success then outcomes[|outcomes| - 1]
    else LastFailure(outcomes[..|outcomes| - 1], default)
  }

  /** The reported outcome is a failure with no failure after it, or else nothing failed. */
  lemma {:induction false} LastFailureIsLast(outcomes: seq<Outcome>, default: Outcome)
    ensures var o := LastFailure(outcomes, default);
            || (o == default && forall i :: 0 <= i < |outcomes| ==> outcomes[i].success)
            || (exists i :: 0 <= i < |outcomes| && outcomes[i] == o && !o.success &&
                            forall j :: i < j < |outcomes| ==> outcomes[j].success)
    decreases |outcomes|
  {
    if outcomes == [] {
    } else {
      var n := |outcomes| - 1;
      LastFailureIsLast(outcomes[..n], default);
      if outcomes[n].success {
        var o := LastFailure(outcomes[..n], default);
        if i :| 0 <= i < n && outcomes[..n][i] == o && !o.success &&
                forall j :: i < j < n ==> outcomes[..n][j].success {
          assert outcomes[i] == o && forall j :: i < j < |outcomes| ==> outcomes[j].success;
        }
      } else {
        assert outcomes[n] == LastFailure(outcomes, default);
      }
    }
  }

  lemma {:induction false} LastFailureFront(first: Outcome, rest: seq<Outcome>, default: Outcome)
    ensures LastFailure([first] + rest, default) == LastFailure(rest, if first.success then default else first)
    decreases |rest|
  {
    if rest == [] {
      assert [first] + rest == [first] && [first][..0] == [];
    } else {
      assert ([first] + rest)[..|rest|] == [first] + rest[..|rest| - 1];
      LastFailureFront(first, rest[..|rest| - 1], default);
    }
  }

  /** Matches run in order up to the first CMD_INVALID, and the last failure among them is reported, which
      is the CMD_INVALID if there is one. */
  lemma {:induction false} MatchesAreCut<W(!new)>(env: Env<W>, st: State<W>, command: Command, targets: seq<Target>,
                                                  lastFailure: Option<Outcome>)
    requires WellFormed(env)
    ensures var cut := Cut(UncutMatches(env, st, command, targets));
            ForEachMatch(env, st, command, targets, lastFailure) ==
            (FinalState(st, cut), LastFailure(Outcomes(cut), if lastFailure.Some? then lastFailure.value else SUCCESS))
    decreases |targets|
  {
    if targets == [] {
    } else {
      var (st1, outcome) := RunTargeted(env, st, command, targets[0]);
      var rest := UncutMatches(env, st1, command, targets[1..]);
      assert ([(st1, outcome)] + rest)[1..] == rest;
      var default := if lastFailure.Some? then lastFailure.value else SUCCESS;
      if IsInvalid(outcome) {
        assert Outcomes([(st1, outcome)]) == [outcome];
      } else {
        MatchesAreCut(env, st1, command, targets[1..], if outcome.success then lastFailure else Some(outcome));
        CutFront(st, st1, outcome, rest);
        LastFailureFront(outcome, Outcomes(Cut(rest)), default);
      }
    }
  }

  /** A criteria group as the parser delivers it. */
  function Group(raw: string, commands: seq<Command>, start: bool): seq<Parsed> {
    if commands == [] then []
    else [Parsed(start, Some(raw), commands[0])] + Group(raw, commands[1..], false)
  }

  /** The commands of a group, each on the same targets. */
  function RunGroup<W(!new)>(env: Env<W>, st: State<W>, commands: seq<Command>, targets: seq<Target>):
      (State<W>, seq<Outcome>)
    requires WellFormed(env)
    decreases |commands|
  {
    if commands == [] then (st, [])
    else
      var (st1, outcome) := RunOnTargets(env, st, commands[0], targets);
      if IsInvalid(outcome) then (st1, [outcome])
      else var (st2, rest) := RunGroup(env, st1, commands[1..], targets); (st2, [outcome] + rest)
  }

  lemma {:induction false} GroupKeepsTargets<W(!new)>(env: Env<W>, st: State<W>, raw: string, commands: seq<Command>,
                                                      targets: seq<Target>)
    requires WellFormed(env) && forall w :: env.parseCriteria(w, raw).Some?
    ensures Execute(env, st, Group(raw, commands, false), Some(targets)) == RunGroup(env, st, commands, targets)
    decreases |commands|
  {
    if commands == [] {
    } else {
      var (st1, outcome) := RunOnTargets(env, st, commands[0], targets);
      var group := Group(raw, commands, false);
      assert group[1..] == Group(raw, commands[1..], false);
      assert ExecuteParsed(env, st, group[0], Some(targets)) == (st1, Some(targets), outcome);
      GroupKeepsTargets(env, st1, raw, commands[1..], targets);
    }
  }

  /** All commands of a criteria group act on the targets that matched before the first of them ran, no
      matter what they change and what an earlier group had retained. */
  lemma GroupSeesOneSnapshot<W(!new)>(env: Env<W>, st: State<W>, raw: string, commands: seq<Command>,
                                      retained: Option<seq<Target>>)
    requires WellFormed(env) && forall w :: env.parseCriteria(w, raw).Some?
    ensures Execute(env, st, Group(raw, commands, true), retained) ==
            RunGroup(env, st, commands, env.matching(st.world, st.table, env.parseCriteria(st.world, raw).value))
  {
    if commands != [] {
      var targets := env.matching(st.world, st.table, env.parseCriteria(st.world, raw).value);
      var (st1, outcome) := RunOnTargets(env, st, commands[0], targets);
      var group := Group(raw, commands, true);
      assert group[1..] == Group(raw, commands[1..], false);
      assert ExecuteParsed(env, st, group[0], retained) == (st1, Some(targets), outcome);
      GroupKeepsTargets(env, st1, raw, commands[1..], targets);
    }
  }

  // ----- The loops

  /** `execute`, after parsing. */
  method ExecuteCommands<W(!new)>(env: Env<W>, st: State<W>, commands: seq<Parsed>)
    returns (after: State<W>, outcomes: seq<Outcome>)
    requires WellFormed(env)
    ensures (after, outcomes) == Execute(env, st, commands, None)
  {
    var retained := None;
    after, outcomes := st, [];
    var i := 0;
    assert commands[0..] == commands;
    assert forall os: seq<Outcome> :: [] + os == os;
    while i < |commands|
      invariant 0 <= i <= |commands|
      invariant var rest := Execute(env, after, commands[i..], retained);
                Execute(env, st, commands, None) == (rest.0, outcomes + rest.1)
    {
      assert commands[i..][1..] == commands[i + 1..];
      var (next, kept, outcome) := ExecuteParsed(env, after, commands[i], retained);
      var invalid := IsInvalid(outcome);
      ghost var rest := Execute(env, next, commands[i + 1..], kept);
      assert Execute(env, after, commands[i..], retained) ==
             if invalid then (next, [outcome]) else (rest.0, [outcome] + rest.1);
      assert outcomes + ([outcome] + rest.1) == outcomes + [outcome] + rest.1;
      after, retained, outcomes := next, kept, outcomes + [outcome];
      i := i + 1;
      if invalid {
        return;
      }
    }
    assert outcomes + [] == outcomes;
  }

  /** `for_each_match`. */
  method RunMatches<W(!new)>(env: Env<W>, st: State<W>, command: Command, targets: seq<Target>)
    returns (after: State<W>, outcome: Outcome)
    requires WellFormed(env)
    ensures (after, outcome) == ForEachMatch(env, st, command, targets, None)
  {
    var lastFailure := None;
    after := st;
    assert targets[0..] == targets;
    for i := 0 to |targets|
      invariant ForEachMatch(env, after, command, targets[i..], lastFailure) ==
                ForEachMatch(env, st, command, targets, None)
    {
      assert targets[i..][1..] == targets[i + 1..];
      var (next, result) := RunTargeted(env, after, command, targets[i]);
      if IsInvalid(result) {
        return next, result;
      }
      after := next;
      if !result.success {
        lastFailure := Some(result);
      }
    }
    outcome := if lastFailure.Some? then lastFailure.value else SUCCESS;
  }
}
