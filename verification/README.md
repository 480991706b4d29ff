# Verified models of swayward's core logic

swayward is a Wayland compositor that speaks the i3/sway command language. This project models the parts of it
whose correctness depends on many events, callers or commands interacting, and proves what they promise for every
input, every run or every reachable state. `dafny verify dfyconfig.toml` checks everything.

| file | component |
|---|---|
| `Redraw.dfy` | the redraw protocol of one output: requests, renders, vblanks, estimated-vblank timers |
| `Gamma.dfy` | GAMMA_LUT blob ownership across failures, pauses and resumes of the session |
| `KeyboardMonitor.dfy` | the accessibility keyboard monitor: grabs and watches of many clients against a key stream |
| `Marks.dfy` | mark ownership of windows and containers |
| `Commands.dfy`, `ForWindow.dfy`, `CommandLists.dfy`, `CommandEffects.dfy` | the command interpreter, re-entrant `for_window` rules, list and group semantics, and the effect of each command |
| `Criteria.dfy`, `WalkOrder.dfy`, `Placement.dfy`, `Matching.dfy` | the criteria walk, its order, the selection of targets, which windows of a layout the walk reaches, and the interpreter on top of it |
| `Region.dfy`, `BlurCache.dfy` | splitting a region into rectangles, and the lazy blur cache that serves it |
| `Bezier.dfy`, `FrameClock.dfy`, `Clock.dfy`, `ScrollTracker.dfy`, `RubberBand.dfy` | animation, timing and input arithmetic |
| `Options.dfy`, `Arithmetic.dfy` | what the others share |

Protocols are a step function over events, an invariant, and theorems about whole runs. Where the source updates
fields in place there is also a class whose methods are proved to perform exactly the step, and where it loops there
is a method with the loop, proved against a function of its inputs.

## What turned out not to hold

Each of these is stated by a concrete case or an exact condition, with the code kept as it is.

- The comment on `run_for_window` says that a rule executes once per window. A pass executes what it collected
  without looking again, so a rule that marks its window lets a nested pass run a later rule that the outer pass then
  runs a second time (`ForWindow.RuleRunsTwice`). The rule tables that keep the promise are those that list no rule
  twice and in which no rule but the last one marks anything: with such a table every command list keeps it in every
  environment (`ForWindow.TidyRulesRunOnce`), and with any other table it is broken once all rules match a window and
  the marking ones get to mark it (`ForWindow.OnceIffTidy`). What the code gives for all tables is termination and that no pair is active twice
  (`ForWindow.NoRuleReenters`).
- At a fixed refresh rate the frame clock skips a refresh when `now` is exactly the last presentation time, and so a
  later `now` can give an earlier prediction (`FrameClock.LaterPredictsEarlier`). `FrameClock.MonotoneIff` says exactly
  when.
- A vblank for which no frame was submitted makes the estimated-vblank timer hit its `unreachable!()` exactly if that
  timer is pending (`Redraw.RogueVBlank`, with the run `Redraw.RogueVBlankPanics`).
- A pending redraw request is dropped exactly by a vblank on a powered-off output (`Redraw.RequestDropped`, with the run
  `Redraw.DroppedRequest`), and a running animation stalls exactly when the backend returns early with no timer pending
  (`Redraw.AnimationContinuesIff`, with the run `Redraw.StalledAnimation`).
- Two keyboards pressing the same key can make a release pass although its press was blocked
  (`KeyboardMonitor.TwoKeyboards`). `KeyboardMonitor.ReleaseBlocked` gives the law for all streams.
- After resuming the session, a pending gamma change that fails leaves another program's value in place instead of
  restoring the old ramp, for instance when the upload of the waiting ramp fails
  (`Gamma.FailedUploadLeavesForeignValue`). `Gamma.ResumeSyncsIff` gives the exact condition on the waiting ramp and the
  kernel calls.
- A blur region requested between a commit and its delayed application is later committed and applied without the
  cache noticing (`BlurCache.StaleRead`). A request is safe exactly if all commits still to be applied are for the
  region it asks for (`BlurCache.RequestSafeIff`); commits that are applied at once always are.
- A scroll event keeps the exact distance exactly while the accumulated total is below 128 ticks
  (`ScrollTracker.AccumulateEffect`).
- The walk is meant to offer every window a criteria command can match. Windows of a group hidden in the scratchpad
  are known to the layout and listed never (`Placement.HiddenPairUnlisted`), so no window criterion matches them. The
  walk lists every window of a layout exactly once exactly if no such group has a window (`Placement.AllListedIff`).

## Model

| member | source | states |
|---|---|---|
| `Redraw.StepSafe` | src/backend/tty.rs:1839-2048 | Every event the environment can deliver keeps the accounting: one live estimated-vblank timer, the stored one, exactly in the two estimated states; a frame in flight exactly while waiting for a vblank. No `unreachable!()` is hit. |
| `Redraw.RunSafe` | src/backend/tty.rs:1642-2048 | The same over every legal run of requests, power changes, renders, vblanks and timers. |
| `Redraw.RemovalLeavesNoTimer` | src/swayward/outputs.rs:205-222 | Whatever happened to an output, removing it leaves no timer registered for it. |
| `Redraw.RogueVBlank` | src/backend/tty.rs:1758-1774 | An unexpected vblank is harmless if and only if no estimated-vblank timer is pending. |
| `Redraw.RogueVBlankPanics` | src/backend/tty.rs:1758-1774 | A run from a new output in which an unexpected vblank makes the timer panic. |
| `Redraw.RequestStaysPending` | src/swayward.rs:727-746 | A pending request survives every event until a render starts or a vblank meets a powered-off output. |
| `Redraw.NoRequestLost` | src/swayward.rs:727-746 | From any state, a request stays visible over any run in which nothing consumes it. |
| `Redraw.RequestDropped` | src/backend/tty.rs:1758-1837 | Among all other events, exactly a vblank on a powered-off output drops a request. |
| `Redraw.DroppedRequest` | src/backend/tty.rs:1758-1837 | A legal run from a new output in which a pending request is dropped. |
| `Redraw.PendingBecomesRenderable` | src/backend/tty.rs:1758-1837 | One vblank makes a waiting request renderable, and turning an output on leaves a request. |
| `Redraw.VBlankMakesRenderable` | src/backend/tty.rs:1758-1837 | Over every legal run without a consuming event, one vblank anywhere in it makes a pending request renderable at its end. |
| `Redraw.WaitsForVBlank` | src/backend/tty.rs:2003-2025 | After a submission nothing is rendered before the vblank, over any run. |
| `Redraw.SubmissionsSeparated` | src/backend/tty.rs:2003-2025 | Two submissions of an output always have a vblank between them. |
| `Redraw.StepCountsCycle` | src/swayward.rs:557-577 | An event advances the frame callback sequence exactly if it submits a frame or is a timer firing. |
| `Redraw.SequenceCountsCycles` | src/swayward.rs:557-577 | Over every run the sequence counts the refresh cycles modulo 2^32, and nothing else. |
| `Redraw.RedrawIsFinal` | src/swayward/render.rs:964-1030 | However a redraw ends, its output is not renderable afterwards. |
| `Redraw.AnimationContinuesIff` | src/swayward/render.rs:964-1030 | A render with animations going is followed by another without a new request, if and only if the backend did not return early from the plain queued state. |
| `Redraw.StalledAnimation` | src/swayward/render.rs:964-1030 | A run from a new output in which an animation stalls. |
| `Redraw.QuietOutputIdles` | src/swayward/render.rs:964-1030 | Without animations and requests an output goes idle, whatever the backend returned. |
| `Redraw.PowerFollows` | src/command/output.rs:78-95 | Over every legal run an output is on if and only if it was last told so. |
| `Redraw.AnimationsFollow` | src/swayward/render.rs:964-1030 | Over every legal run it remembers the animations of the last redraw that took place. |
| `Redraw.AcceptedFrameIsInFlight` | src/backend/tty.rs:2003-2025 | A redraw of a powered output whose frame is accepted leaves that frame in flight, no timer and no request. |
| `Redraw.TurnedOnIsRedrawn` | src/command/output.rs:85-95 | From every state, turning an output on leaves it powered with a request, and once renderable its accepted frame is in flight. |
| `Redraw.TurnedOffKeepsState` | src/command/output.rs:85-95 | Turning an output off changes its power and nothing else. |
| `Redraw.SuppressedRedraw` | src/swayward/render.rs:964-1030 | Without power or with inactive monitors nothing is submitted, no timer starts and no cycle is counted. |
| `Redraw.ResultTells` | src/backend/tty.rs:1887-2048 | The backend reports a submission exactly if a frame is in flight, and no damage exactly if there was none. |
| `Redraw.OutputState.constructor` | src/swayward.rs:590-602 | A new output is idle with no timer and no frame in flight. |
| `Redraw.OutputState.RequestRedraw` | src/swayward/render.rs:12-15 | Performs the request step and keeps the invariant. |
| `Redraw.OutputState.ChangePower` | src/command/output.rs:78-95 | Performs the power step; only turning on requests a redraw. |
| `Redraw.OutputState.QueueEstimatedVBlankTimer` | src/backend/tty.rs:3020-3064 | From each state a render may be in, ends with exactly one timer, reusing a pending one. |
| `Redraw.OutputState.RenderOutput` | src/backend/tty.rs:1887-2048 | Every way through the backend's render performs its step and reports its result. |
| `Redraw.OutputState.RedrawNow` | src/swayward/render.rs:964-1030 | Performs the redraw step, keeps the invariant and leaves the output not renderable. |
| `Redraw.OutputState.DeliverVBlank` | src/backend/tty.rs:1642-1837 | Performs the vblank step from every state, and keeps the invariant if and only if no estimated timer was pending. |
| `Redraw.OutputState.FireEstimatedVBlankTimer` | src/backend/tty.rs:1839-1870 | A registered timer's firing performs its step and keeps the invariant. |
| `Redraw.RedrawQueuedOutputs` | src/swayward/render.rs:17-30 | The loop terminates; each queued output is redrawn exactly once, no other output is touched. |
| `Gamma.InterleaveRoundTrip` | src/backend/tty.rs:2745-2754 | The uploaded table gives back the three channels of the ramp, none swapped, nothing lost. |
| `Gamma.BuildTable` | src/backend/tty.rs:2745-2754 | Splitting and zipping the ramp builds that table. |
| `Gamma.ApplyKeepsAccounted` | src/backend/tty.rs:2725-2792 | Setting a ramp loses no blob, whichever kernel call fails. |
| `Gamma.StepKeepsAccounted` | src/backend/tty.rs:2131-2153 | Nor does any request, pause or resume. |
| `Gamma.NoBlobIsLost` | src/backend/tty.rs:2725-2807 | Over every run the existing blobs are exactly the current one and the leaked ones. |
| `Gamma.ChangeLeaks` | src/backend/tty.rs:2764-2792 | A change leaks exactly the blob it discards, and only if the destruction of that blob fails. |
| `Gamma.LeakedAreRefused` | src/backend/tty.rs:2725-2792 | After every history the leaked blobs are exactly those whose destruction the kernel refused, at most one per refusal. |
| `Gamma.OnlyCurrentExists` | src/backend/tty.rs:2785-2789 | As long as no destruction fails, whatever else does, exactly the current blob exists, or none. |
| `Gamma.ChangeSyncsIff` | src/backend/tty.rs:2725-2792 | From every state, a change succeeds if and only if it fits and the kernel calls it depends on succeed; success puts the property in step, failure leaves it and the current blob alone. |
| `Gamma.ResumeSyncsIff` | src/backend/tty.rs:706-720 | A resume puts the property in step if and only if it was in step, or the waiting change is accepted, or none waits and the kernel accepts the old ramp. |
| `Gamma.HistoryTracked` | src/backend/tty.rs:2131-2153 | After every history with any failures, the waiting change is the last one asked for since the pause. |
| `Gamma.ResumeAppliesWaiting` | src/backend/tty.rs:706-720 | After every history and for all failures, a resume applies exactly that change, or restores the old ramp if none waits. |
| `Gamma.ResumeShows` | src/backend/tty.rs:706-720 | After every history, a resume whose own calls succeed shows the change that waited, or the old ramp. |
| `Gamma.CurrentIsLastAccepted` | src/backend/tty.rs:2725-2792 | After every history with any failures, the current blob holds the last ramp the kernel accepted. |
| `Gamma.LastAcceptedShows` | src/backend/tty.rs:2725-2807 | After every history since whose last successful set or restore no other program had the property, that ramp is shown. |
| `Gamma.ForeignValueStays` | src/backend/tty.rs:706-720 | Any waiting change that is not accepted on the resume leaves a foreign value in place. |
| `Gamma.FailedUploadLeavesForeignValue` | src/backend/tty.rs:706-720 | So does a fitting ramp whose upload fails. |
| `Gamma.ChangeUploads` | src/backend/tty.rs:2725-2792 | With any failures, an accepted change becomes the current blob with the table of its ramp, and any other keeps the current contents. |
| `Gamma.SmoothRun` | src/backend/tty.rs:2131-2153 | In particular, without any failure an active session shows the last ramp asked for and an inactive one has shown or remembers it. |
| `Gamma.LastRampShows` | src/backend/tty.rs:706-720 | If the last ramp asked for was accepted, at once or on a later resume, and the property is in step, it is shown, whatever failed before. |
| `Gamma.Surface.constructor` | src/backend/tty.rs:2131-2153 | A surface starts without blobs and without a pending change. |
| `Gamma.Surface.SetProps` | src/backend/tty.rs:2725-2792 | Performs the change step with its failures, in the source's order of kernel calls. |
| `Gamma.Surface.Request` | src/backend/tty.rs:2131-2153 | Applies the ramp when active, reporting whether that succeeded, and stores it as pending otherwise. |
| `Gamma.Surface.ResumeSession` | src/backend/tty.rs:706-720 | Applies the pending change, or restores the current blob when there is none. |
| `KeyboardMonitor.RunInvariant` | src/dbus/freedesktop_a11y.rs:254-362 | The locked state is a function of the history: client table, union of modifiers, keys with an unreleased blocked press, last grabbed presses. |
| `KeyboardMonitor.StepKeepsUnion` | src/dbus/freedesktop_a11y.rs:355-362 | The cached modifiers stay the union of all clients' modifiers. |
| `KeyboardMonitor.BlockedIsHeld` | src/dbus/freedesktop_a11y.rs:254-352 | A key whose press was blocked since its last release is held down. |
| `KeyboardMonitor.SuppressedKeysAreHeld` | src/dbus/freedesktop_a11y.rs:254-352 | In every reachable state the suppressed keys are among the keys held down. |
| `KeyboardMonitor.ReleaseBlocked` | src/dbus/freedesktop_a11y.rs:254-352 | For every stream, a release is blocked if and only if a press of the key was blocked since its previous release. |
| `KeyboardMonitor.ReleaseMatchesPress` | src/dbus/freedesktop_a11y.rs:254-352 | The release ending a hold is blocked if and only if its press was, whatever clients do in between. |
| `KeyboardMonitor.FirstRelease` | src/dbus/freedesktop_a11y.rs:254-352 | Without alternation, the first release after a press answers for every press of the hold. |
| `KeyboardMonitor.TwoKeyboards` | src/dbus/freedesktop_a11y.rs:254-352 | The case where a release is passed on although its press was blocked. |
| `KeyboardMonitor.PressBlocked` | src/dbus/freedesktop_a11y.rs:295-352 | For every history, a press is blocked if and only if the key is held with a blocked press or a client would grab it by its own requests, and it is not a modifier some client asked for, pressed again within the repeat delay. |
| `KeyboardMonitor.VerdictKind` | src/dbus/freedesktop_a11y.rs:345-351 | A blocked key is a modifier's first press if and only if some client's last key grabs name it as a modifier. |
| `KeyboardMonitor.WouldGrabIsShouldGrab` | src/dbus/freedesktop_a11y.rs:364-391 | A client's decision depends only on what it asked for and on the history of key events. |
| `KeyboardMonitor.ModifierIff` | src/dbus/freedesktop_a11y.rs:355-362 | The union of modifiers has a key if and only if some client's last key grabs name it. |
| `KeyboardMonitor.ClientHistory` | src/dbus/freedesktop_a11y.rs:117-232 | Each kind of request holds until the same client reverses it or goes away, independently of the others. |
| `KeyboardMonitor.ToldIff` | src/dbus/freedesktop_a11y.rs:254-352 | A client is told of a key event if and only if it watches the keyboard or would grab the event. |
| `KeyboardMonitor.BlockedPressIsReported` | src/dbus/freedesktop_a11y.rs:254-352 | A press that starts a hold is never swallowed silently. |
| `KeyboardMonitor.ShouldGrabKeypress` | src/dbus/freedesktop_a11y.rs:364-391 | The loops over modifiers and keystrokes decide the grab condition, both ways. |
| `KeyboardMonitor.KeyboardData.constructor` | src/dbus/freedesktop_a11y.rs:38-52 | The initial state has no clients and no keys. |
| `KeyboardMonitor.KeyboardData.SetGrabbed` | src/dbus/freedesktop_a11y.rs:117-150 | Performs the grab and ungrab steps. |
| `KeyboardMonitor.KeyboardData.SetWatched` | src/dbus/freedesktop_a11y.rs:158-190 | Performs the watch and unwatch steps. |
| `KeyboardMonitor.KeyboardData.SetGrabs` | src/dbus/freedesktop_a11y.rs:192-232 | Replaces a client's key grabs and rebuilds the union. |
| `KeyboardMonitor.KeyboardData.Disconnect` | src/dbus/freedesktop_a11y.rs:529-541 | Forgets a client and rebuilds the union. |
| `KeyboardMonitor.KeyboardData.DropAllClients` | src/dbus/freedesktop_a11y.rs:601-617 | Forgets all clients when the monitor breaks. |
| `KeyboardMonitor.KeyboardData.RebuildGrabbedMods` | src/dbus/freedesktop_a11y.rs:355-362 | The loop computes the union of all clients' modifiers. |
| `KeyboardMonitor.KeyboardData.AnyClientGrabs` | src/dbus/freedesktop_a11y.rs:295-352 | The loop over clients finds a grabbing one if and only if there is one. |
| `KeyboardMonitor.KeyboardData.Process` | src/dbus/freedesktop_a11y.rs:254-352 | Performs the key step, returns its verdict and tells exactly the recipients. |
| `Marks.StripEffect` | src/command/targeted.rs:519-533 | Taking all marks from a target empties it and changes nobody else. |
| `Marks.UnmarkGloballyEffect` | src/command/targeted.rs:501-510 | Every target loses exactly the given mark. |
| `Marks.GiveEffect` | src/swayward/marks.rs:4-25 | Giving a free mark appends it to the target and changes nobody else. |
| `Marks.MarkTargetEffect` | src/command/targeted.rs:431-499 | The complete effect of `mark` on every target, for all four combinations of `--add` and `--toggle`, on valid tables. |
| `Marks.MarkEndsOnTarget` | src/command/targeted.rs:431-499 | The target holds the mark if and only if it was not toggled off, nobody else does, and no other mark of anybody else changes. |
| `Marks.UnmarkOneEffect` | src/command/targeted.rs:519-533 | One target loses exactly the given mark. |
| `Marks.UnmarkAllEffect` | src/command/targeted.rs:501-510 | Unmarking without a mark leaves nobody any. |
| `Marks.SetMarkEffect` | src/swayward/marks.rs:4-25 | The complete effect of `set_mark` on every target for all four combinations of its flags. |
| `Marks.ApplyKeepsValid` | src/command/targeted.rs:431-533 | Every mark and unmark keeps marks unique and both window tables in agreement. |
| `Marks.RunsKeepMarksUnique` | src/command/targeted.rs:431-533 | Over every run each mark has at most one holder. |
| `Marks.MarkStore.constructor` | src/swayward/marks.rs:4-25 | Starts without marks. |
| `Marks.MarkStore.SetMarkOn` | src/swayward/marks.rs:4-25 | Updates both window tables as specified. |
| `Marks.MarkStore.UnmarkWindows` | src/swayward/marks.rs:48-75 | All four forms of unmarking windows update both tables as specified. |
| `Marks.MarkStore.UnmarkEverywhere` | src/command/targeted.rs:501-510 | Takes one mark, or all, from windows and containers. |
| `Marks.MarkStore.UnmarkOn` | src/command/targeted.rs:519-533 | Takes one mark, or all, from one target. |
| `Marks.MarkStore.MarkOn` | src/command/targeted.rs:431-499 | The steps of `mark_target` before its pass over the rules keep the table valid and have the specified effect. |
| `Commands.Execute` | src/command/dispatch.rs:15-59 | Running a command list terminates in every environment, however its rules nest, and only ever adds executed pairs. |
| `Commands.RunForWindow` | src/command/targeted.rs:844-868 | So does a pass over the `for_window` rules, by the pairs not executed yet. |
| `Commands.Collect` | src/command/targeted.rs:848-859 | A pass collects only pairs that were not executed. |
| `Commands.MarkFreeIsQuiet` | src/command/dispatch.rs:15-59 | A command list without `mark` executes no rule. |
| `Commands.CollectTidy` | src/command/targeted.rs:848-859 | From a tidy table a pass collects distinct unexecuted pairs of which only the last may mark. |
| `Commands.ExecuteSound` | src/command/dispatch.rs:15-59 | Running a list nests its rules properly, re-enters none, flags repeats correctly, records exactly what was entered, keeps marks unique, and with a tidy rule table repeats no pair. |
| `Commands.ExecuteParsedSound` | src/command/dispatch.rs:245-298 | The same for one command, with and without criteria. |
| `Commands.ForEachMatchSound` | src/command/dispatch.rs:69-84 | The same for one command on its matches. |
| `Commands.RunTargetedSound` | src/command/targeted.rs:237-393 | The same for a command on one target. |
| `Commands.RunFocusedSound` | src/command/targeted.rs:870-898 | The same for a command without criteria. |
| `Commands.MarkAndRecheckSound` | src/command/targeted.rs:431-499 | The same for `mark` with its nested pass over the rules. |
| `Commands.RunForWindowSound` | src/command/targeted.rs:844-868 | The same for a pass over the rules. |
| `Commands.RunRulesSound` | src/command/targeted.rs:860-867 | The same for the collected rules, none of which may be active. |
| `Commands.SoundRule` | src/command/targeted.rs:860-867 | Entering, running and leaving one inactive rule is sound. |
| `ForWindow.NoRuleReenters` | src/command/targeted.rs:844-868 | Over a whole command list no window-rule pair is active twice, every rule entered is left, and marks stay unique. |
| `ForWindow.FrameRunsWhatItCollects` | src/command/targeted.rs:844-868 | A pass executes itself, in order, exactly the pairs it collected. |
| `ForWindow.RunRulesTop` | src/command/targeted.rs:860-867 | The outermost rules in the log of a pass are the collected ones, whatever they nest. |
| `ForWindow.OnceIffFirst` | src/command/targeted.rs:844-847 | A log keeps the promise of one execution per window if and only if no entry repeats a pair. |
| `ForWindow.TidyRulesRunOnce` | src/command/targeted.rs:844-868 | If no rule is listed twice and none but the last marks, every command list executes each pair at most once, in every environment. |
| `ForWindow.RepeatsExecuted` | src/command/targeted.rs:860-867 | A collected pair that a nested pass executed before its turn is executed again. |
| `ForWindow.PassExecutesMatching` | src/command/targeted.rs:844-868 | A pass leaves every rule that matched the window at its start executed for it, in every environment. |
| `ForWindow.MarkingExecutes` | src/command/targeted.rs:494-498 | Marking several targets with the window among them leaves every rule that always matches the window executed for it. |
| `ForWindow.ReachedMarkExecutes` | src/command/dispatch.rs:36-59 | So does a command list that gets to such a mark, through criteria or focus. |
| `ForWindow.OnceIffTidy` | src/command/targeted.rs:844-868 | Where all rules match a window and each either never marks or always gets to mark it, the first pass keeps the promise if and only if no rule is listed twice and none but the last marks. |
| `ForWindow.RuleRunsTwice` | src/command/targeted.rs:844-868 | Two rules for which a pass breaks the promise of the comment. |
| `ForWindow.CollectRules` | src/command/targeted.rs:848-859 | The collecting loop gives exactly the matching, unexecuted pairs in order. |
| `ForWindow.RunMatchingRules` | src/command/targeted.rs:848-868 | The two loops together perform the pass. |
| `CommandLists.ExecuteIsCut` | src/command/dispatch.rs:36-59 | Outcomes and effect of a list are those of the uncut list, cut right after its first CMD_INVALID. |
| `CommandLists.MatchesAreCut` | src/command/dispatch.rs:66-84 | Matches run in order up to the first CMD_INVALID; that, or else the last failure, is reported. |
| `CommandLists.LastFailureIsLast` | src/command/dispatch.rs:66-84 | The reported outcome is a failure with no failure after it, or else nothing failed. |
| `CommandLists.GroupKeepsTargets` | src/command/dispatch.rs:245-286 | Later commands of a criteria group act on the retained targets. |
| `CommandLists.GroupSeesOneSnapshot` | src/command/dispatch.rs:245-286 | All commands of a group act on what matched before the first of them, whatever they change. |
| `CommandLists.ExecuteCommands` | src/command/dispatch.rs:36-59 | The loop with its early stop computes the list's outcomes and effect. |
| `CommandLists.RunMatches` | src/command/dispatch.rs:69-84 | The loop over matches computes their outcome and effect. |
| `CommandEffects.PassStarts` | src/command/targeted.rs:848-868 | A pass does nothing if it collects nothing, and otherwise enters the first collected rule in the very state it starts in. |
| `CommandEffects.FocusedMark` | src/command/targeted.rs:870-893 | `mark` on the focused target: the holders change as documented for all flags before any rule is checked; without a target nothing changes and the list ends. |
| `CommandEffects.FocusedWindowMark` | src/command/targeted.rs:479-498 | For a focused window, the first rule entered sees the new marks, and without one they are the final marks. |
| `CommandEffects.FocusedMarkWithoutRules` | src/command/targeted.rs:870-893 | A `mark` that executes no rule changes the holders as documented and nothing else. |
| `CommandEffects.CriteriaMark` | src/command/dispatch.rs:283-285 | The same for `mark` through criteria that select one target. |
| `CommandEffects.FocusedUnmark` | src/command/targeted.rs:895-898 | `unmark` without criteria takes the mark, or all marks, from everybody. |
| `CommandEffects.FocusedCommand` | src/command/dispatch.rs:288-298 | Every other command without criteria changes exactly what its handler changes. |
| `CommandEffects.MatchMark` | src/command/targeted.rs:237-393 | `mark` on one of several matches changes the holders as documented before any rule is checked. |
| `CommandEffects.MatchEffect` | src/command/targeted.rs:237-393 | Every other command on one match: `unmark` takes the mark, or all marks, from it alone, the rest is up to the handler. |
| `CommandEffects.CriteriaUnmark` | src/command/dispatch.rs:277-282 | `unmark` through criteria takes the mark, or all marks, from exactly the matches. |
| `CommandEffects.RefusedCommands` | src/command/dispatch.rs:250-270 | What the parser refused has its own outcome and no effect; criteria that fail or match nothing, and `exit` and `reload` with criteria, fail without effect and without ending the list. |
| `CommandEffects.GroupTargets` | src/command/dispatch.rs:36-59 | Which targets the rest of a group sees: a new group forgets them, parsed criteria fix them, nothing else touches them. |
| `CommandEffects.CollectedIff` | src/command/targeted.rs:848-859 | A pass collects a pair if and only if its rule matches the window and the pair was not executed. |
| `CommandEffects.CollectedInOrder` | src/command/targeted.rs:848-859 | Collected pairs come in the order of their rules. |
| `Criteria.WalkListings` | src/command/targeted.rs:657-770 | A walk lists a window once per leaf, and once more exactly if it was offered before that and still waited. |
| `Criteria.CandidateListings` | src/command/targeted.rs:669-770 | How often each window is listed, for every layout. |
| `Criteria.ListedOnceIff` | src/command/targeted.rs:669-770 | A window is listed exactly once if and only if it has a snapshot and no leaf, or one leaf and was not offered before it. |
| `Criteria.EveryWindowOnce` | src/command/targeted.rs:669-770 | A window that is a leaf at most once, and none if it floats alone, is listed exactly once if it has a snapshot or a leaf, and never otherwise. |
| `Criteria.OfferedIsFloating` | src/command/targeted.rs:669-770 | Only plain floating windows are offered by workspaces. |
| `Criteria.PushTree` | src/command/targeted.rs:669-770 | The node loop pushes the tree's candidates and takes its windows from the waiting ones. |
| `Criteria.PushWorkspace` | src/command/targeted.rs:669-770 | One workspace contributes its parts in the walk's order. |
| `Criteria.CollectCandidates` | src/command/targeted.rs:669-770 | The loops together produce the walk over the whole layout. |
| `Criteria.SelectedIffMatched` | src/command/targeted.rs:772-829 | A target is selected if and only if some candidate for it matches. |
| `Criteria.SelectedInOrder` | src/command/targeted.rs:772-829 | Targets come in the order of their first match, so none comes twice. |
| `Criteria.MatchingTargets` | src/command/targeted.rs:772-829 | The loop with its set of seen targets computes that selection. |
| `Criteria.StableSortSorts` | src/command/targeted.rs:790-805 | The reference sort is ascending and a permutation. |
| `Criteria.SortEnds` | src/command/targeted.rs:790-805 | After the stable sort the first minimum is in front and the last maximum at the end. |
| `Criteria.UrgentTarget` | src/command/targeted.rs:790-805 | The urgent criterion selects the first window of minimal or the last of maximal urgency time. |
| `WalkOrder.CandidatesInOrder` | src/command/targeted.rs:664-770 | For every layout, candidates come in the documented order of places: per workspace the tiling tree, floating windows and groups each from the last to the first, then hidden groups, hidden windows and the rest; every tree node is listed. |
| `WalkOrder.ContainerListedIff` | src/command/targeted.rs:702-707 | A container is a candidate if and only if a workspace has it as a split of its tiling tree or of a floating group. |
| `WalkOrder.HiddenNodeListedIff` | src/command/targeted.rs:746-756 | A node is a candidate for a window if and only if the window stands for it as a node of a hidden group. |
| `WalkOrder.WalkPlaces` | src/command/targeted.rs:696-770 | A walk keeps the order of its visits and drops only windows that were listed before or have no snapshot. |
| `Placement.LookupAnyIsFirst` | src/layout/tiling_tree/mod.rs:268-275 | Looking a node up in nested trees finds the first leaf with that node in walk order. |
| `Placement.ResolvedIsOwn` | src/command/targeted.rs:693-718 | In trees without shared nodes every leaf is resolved to its own window. |
| `Placement.KeptWindows` | src/layout/tiling_tree/mod.rs:190-201 | Filtering leaves keeps every other window as often as it was there. |
| `Placement.KeptNodes` | src/layout/tiling_tree/mod.rs:190-201 | Filtering leaves adds no node. |
| `Placement.SplitKeptIff` | src/layout/tiling_tree/mod.rs:190-201 | A split stays if and only if some leaf below it does. |
| `Placement.ParentsFirst` | src/layout/tiling_tree/mod.rs:284-299 | A node below another one is listed after it. |
| `Placement.TreesInOrder` | src/layout/tiling_tree/mod.rs:284-299 | The nodes of a subtree are listed together, after those of earlier siblings and before those of later ones. |
| `Placement.SpaceLeaves` | src/layout/workspace/ipc.rs:32-51 | The leaves visited on a workspace are the tiled windows that are not floating for IPC and the windows of floating groups. |
| `Placement.SpaceRoles` | src/layout/workspace/ipc.rs:32-45 | A window of a workspace is offered if and only if it floats alone or is tiled and returns to floating, and is a leaf if and only if it is in a group or otherwise tiled. |
| `Placement.FirstWindowStandsFor` | src/layout/scratchpad.rs:248-257 | A window stands for a hidden node if and only if it is the first of its group. |
| `Placement.SpaceOnce` | src/layout/workspace.rs:1711-1715 | A window in one place of a workspace is never both a leaf and offered, and is a leaf or among the tiles. |
| `Placement.ListedUnlessGrouped` | src/command/targeted.rs:669-770 | In every layout with each window in one place, a window is listed as often as the layout has it, less its occurrences in hidden groups. |
| `Placement.AllListedIff` | src/command/targeted.rs:664-669 | Every window of such a layout is listed exactly once if and only if no hidden group has a window. |
| `Placement.HiddenPairUnlisted` | src/layout/scratchpad.rs:223-257 | A hidden group of two windows: the layout has both, the walk lists neither. |
| `Placement.GroupedOnlyThroughNodes` | src/command/targeted.rs:746-756 | A window of a hidden group is selected if and only if a node candidate that stands for it matches. |
| `Matching.FindTargets` | src/command/targeted.rs:777-829 | Both kinds of criteria: the loops compute the selected targets, or the most urgent matching window. |
| `Matching.UrgentFound` | src/command/targeted.rs:787-805 | With an urgency criterion, exactly one target is found as soon as any listed window matches: the latest and last of these, or the oldest and first. |
| `Matching.TargetIsCandidate` | src/command/targeted.rs:777-829 | Whatever the criteria, a target is found only through a matching candidate. |
| `Matching.CandidateIsWindow` | src/command/targeted.rs:669-770 | Every candidate for a window is for a window of the layout, in every layout. |
| `Matching.WalkingIsWellFormed` | src/command/targeted.rs:831-842 | With the walk as its matching, the interpreter's environment is well-formed, so all its theorems apply. |
| `Matching.LayoutCommandsAreSound` | src/command/dispatch.rs:15-59 | Commands run against layouts re-enter no rule, leave every rule they enter and keep marks unique. |
| `Matching.RulesSkipGrouped` | src/command/targeted.rs:844-859 | No rule matches a window of a hidden group unless its criteria match a node that stands for it. |
| `Region.AddSpan` | src/utils/region.rs:137-160 | Merging a span keeps the list sorted with gaps and covers exactly the union. |
| `Region.SubtractSpan` | src/utils/region.rs:161-185 | Cutting a span keeps the list sorted with gaps and covers exactly the difference. |
| `Region.CollectEdges` | src/utils/region.rs:102-108 | Exactly the top and bottom edges, increasing and without repetition. |
| `Region.BandUniform` | src/utils/region.rs:94-195 | Between two consecutive edges all rows of the region are equal. |
| `Region.BandSpans` | src/utils/region.rs:120-187 | The spans of a band are exactly the pixels of its rows, with adds and subtracts applied in order. |
| `Region.BandRectsCover` | src/utils/region.rs:189-191 | The rectangles of a band cover exactly its part of the region. |
| `Region.AppendBand` | src/utils/region.rs:189-193 | Appending a band keeps all rectangles non-empty and apart. |
| `Region.BandedIsDisjoint` | src/utils/region.rs:94-195 | Rectangles listed band by band cannot overlap. |
| `Region.Bands` | src/utils/region.rs:110-194 | The band loop, given the edges, produces a decomposition of the region. |
| `Region.Decompose` | src/utils/region.rs:94-195 | The output is a set of non-empty, pairwise disjoint rectangles that cover exactly the pixels of the region. |
| `BlurCache.SettledStep` | src/handlers/background_effect.rs:34-107 | Every event other than an unsafe request keeps the surface settled: reads are right, and the hook will mark every change on its way. |
| `BlurCache.NeverStaleIff` | src/handlers/background_effect.rs:74-107 | Reads stay right over every continuation without requests if and only if the surface is settled. |
| `BlurCache.RequestSafeIff` | src/handlers/background_effect.rs:74-107 | A request keeps that if and only if every commit still to be applied is for the region it asks for. |
| `BlurCache.StaleRead` | src/handlers/background_effect.rs:74-107 | A history in which a read serves the region before the applied one. |
| `BlurCache.RunTracksRequests` | src/handlers/background_effect.rs:74-121 | Over every run the pending, waiting and current regions are the last requested, the committed but unapplied, and the last applied ones. |
| `BlurCache.ReadServesApplied` | src/handlers/background_effect.rs:34-107 | If every request is safe, a read serves the region applied last and never a pending one. |
| `BlurCache.PromptReadServesCommitted` | src/handlers/background_effect.rs:34-107 | Under every interleaving of requests, reads and commits applied at once, a read serves the last committed region. |
| `BlurCache.SecondReadIsFree` | src/handlers/background_effect.rs:34-46 | A read right after a read changes nothing, from every state. |
| `BlurCache.Surface.constructor` | src/handlers/background_effect.rs:19-31 | A fresh surface has no region and nothing cached. |
| `BlurCache.Surface.MarkPendingDirty` | src/handlers/background_effect.rs:74-107 | Marks the pending state and registers the hook once. |
| `BlurCache.Surface.SetBlurRegion` | src/handlers/background_effect.rs:109-121 | Performs the set step without touching the cached list. |
| `BlurCache.Surface.UnsetBlurRegion` | src/handlers/background_effect.rs:109-121 | Performs the unset step without touching the cached list. |
| `BlurCache.Surface.CommitSurface` | src/handlers/background_effect.rs:90-107 | A commit queues the pending state and touches neither flags nor lists. |
| `BlurCache.Surface.ApplyCommit` | src/handlers/background_effect.rs:90-107 | Applying the oldest commit, with its hook, performs the apply step. |
| `BlurCache.Surface.DropSnapshot` | src/handlers/background_effect.rs:48-59 | A reader gives up one reference; other references to the same list stay. |
| `BlurCache.Surface.PostCommitHook` | src/handlers/background_effect.rs:74-107 | Turns a pending change into a dirty cache and never clears dirtiness. |
| `BlurCache.Surface.GetCachedBlurRegion` | src/handlers/background_effect.rs:34-46 | Returns a decomposition of the current region wherever the protocol says the read is right, and never writes to a list to which any reader still holds a reference. |
| `BlurCache.Surface.RecomputeBlurRegion` | src/handlers/background_effect.rs:48-72 | Recomputes in place only when no reader holds a reference to the list. |
| `Bezier.Increment` | src/animation/bezier.rs:19-27 | The exact difference of a coordinate between two parameters. |
| `Bezier.SlopeBounds` | src/animation/bezier.rs:19-27 | The secant slope lies in [0, 3] for control points in [0, 1]. |
| `Bezier.Rises` | src/animation/bezier.rs:19-27 | Coordinates rise, at most three times as fast as the parameter. |
| `Bezier.CoordinateInUnit` | src/animation/bezier.rs:19-27 | Coordinates stay in [0, 1]. |
| `Bezier.BisectRange` | src/animation/bezier.rs:29-45 | The bisection never leaves its interval. |
| `Bezier.BisectMonotone` | src/animation/bezier.rs:29-45 | The approximate inverse is monotone in x, for every curve and number of steps. |
| `Bezier.BisectAccurate` | src/animation/bezier.rs:29-45 | An enclosing interval stays enclosing, so the error halves with every step. |
| `Bezier.InverseAccurate` | src/animation/bezier.rs:29-45 | For x in [0, 1) the inverse is off by at most 3 / 2^32. |
| `Bezier.TForX` | src/animation/bezier.rs:29-45 | The loop of 31 steps computes the bisection. |
| `Bezier.EaseInUnit` | src/animation/bezier.rs:48-60 | Easing stays in [0, 1]. |
| `Bezier.EaseMonotone` | src/animation/bezier.rs:48-60 | Easing is monotone in x, across its cutoffs too. |
| `Bezier.EaseOnCurve` | src/animation/bezier.rs:48-60 | Between the cutoffs the easing is the Bernstein form of y1 and y2 at a parameter whose horizontal coordinate is within 3 / 2^32 of x. |
| `Bezier.EaseAtCutoffs` | src/animation/bezier.rs:49-56 | At the cutoffs it is 0 or 1. |
| `Bezier.DiagonalIsIdentity` | src/animation/bezier.rs:48-60 | With control points on the diagonal the easing is the identity up to 3 / 2^32. |
| `Bezier.EaseAt` | src/animation/bezier.rs:48-60 | The method with its cutoffs computes the easing. |
| `FrameClock.LeastGridPoint` | src/frame_clock.rs:56-97 | At a fixed rate the prediction is the least grid point strictly after the adjusted time. |
| `FrameClock.FixedRateCases` | src/frame_clock.rs:56-97 | Which refresh is predicted, case by case, including the skipped one. |
| `FrameClock.LateGridPoint` | src/frame_clock.rs:56-97 | After the presentation the prediction is the first grid point after now. |
| `FrameClock.LateIsMonotone` | src/frame_clock.rs:56-97 | From one interval after the presentation on, predictions are monotone. |
| `FrameClock.MonotoneIff` | src/frame_clock.rs:56-97 | A later time gives an earlier prediction exactly when it moves from a skipping case to an on-time one. |
| `FrameClock.LaterPredictsEarlier` | src/frame_clock.rs:56-97 | The prediction at the presentation time is a whole interval later than a nanosecond afterwards. |
| `FrameClock.VariableRateIsMax` | src/frame_clock.rs:56-97 | With a variable rate the prediction is the later of now and one interval after the last presentation. |
| `FrameClock.PredictionIsAhead` | src/frame_clock.rs:56-97 | No prediction lies in the past or less than an interval after the last presentation. |
| `FrameClock.PhaseNeverDrifts` | src/frame_clock.rs:47-97 | Over every run presented as predicted, presentations stay on the first grid and take at least one interval each. |
| `FrameClock.FrameClock.constructor` | src/frame_clock.rs:14-27 | A new clock has not presented anything. |
| `FrameClock.FrameClock.SetVrr` | src/frame_clock.rs:34-41 | A change of mode forgets the last presentation; no change keeps it. |
| `FrameClock.FrameClock.Presented` | src/frame_clock.rs:47-54 | An unknown presentation time is ignored. |
| `FrameClock.FrameClock.NextPresentationTime` | src/frame_clock.rs:56-97 | Predicts as specified, or returns now without an interval or a presentation. |
| `Clock.AdvanceIsClamped` | src/animation/clock.rs:135-154 | Both directions are the scaled step, clamped to the valid times. |
| `Clock.AdvanceMonotone` | src/animation/clock.rs:135-154 | The clock does not go back while its source does not. |
| `Clock.ExtraSample` | src/animation/clock.rs:135-154 | An extra sample on the way changes nothing, saturated or not. |
| `Clock.ClockMonotone` | src/animation/clock.rs:107-155 | Over any run of samples of a source that does not go back, at any rates, the clock does not go back. |
| `Clock.SampleAnywhere` | src/animation/clock.rs:107-155 | A sample inserted anywhere in a run, on the way to the next one and at its rate, changes nothing. |
| `Clock.ClockSumsSteps` | src/animation/clock.rs:107-155 | Without saturation the clock is its start plus rate times step over all samples. |
| `Clock.UnsaturatedIsSafe` | src/animation/clock.rs:142-150 | A step that does not saturate does not make the scaling panic. |
| `Clock.AdjustableClock.constructor` | src/animation/clock.rs:107-155 | A clock starts at its source time with rate one. |
| `Clock.AdjustableClock.Clear` | src/animation/clock.rs:89-105 | Forgets the cached source time and nothing else. |
| `Clock.AdjustableClock.SetUnadjusted` | src/animation/clock.rs:89-105 | Fixes the source time and nothing else. |
| `Clock.AdjustableClock.SetRate` | src/animation/clock.rs:123-125 | Clamps the rate. |
| `Clock.AdjustableClock.NowUnadjusted` | src/animation/clock.rs:89-105 | Reads the monotonic clock only if the source time was cleared. |
| `Clock.AdjustableClock.Now` | src/animation/clock.rs:135-154 | Advances by one sample, or panics exactly if the scaled step is no duration; constant until the source time changes, whatever the rate. |
| `ScrollTracker.PositiveTotal` | src/input/scroll_tracker.rs:17-34 | Ticks and remainder never exceed a non-negative total and give it back if and only if it is below 128 ticks. |
| `ScrollTracker.NegativeTotal` | src/input/scroll_tracker.rs:17-34 | The same for negative totals, with truncation toward zero. |
| `ScrollTracker.AccumulateEffect` | src/input/scroll_tracker.rs:17-34 | The remainder stays below a tick, at most 127 ticks are reported, none opposes the amount, and the total is conserved if and only if it is below 128 ticks. |
| `ScrollTracker.ReversalStartsAfresh` | src/input/scroll_tracker.rs:17-34 | A reversed event acts as on a new tracker; otherwise it adds up, exactly below 128 ticks. |
| `ScrollTracker.ScrollConserved` | src/input/scroll_tracker.rs:17-34 | Over every run without reversal and saturation, tick times all ticks plus what stays accumulated is the distance scrolled. |
| `ScrollTracker.ForwardConservedIff` | src/input/scroll_tracker.rs:17-34 | A forward run never reports more than was scrolled, and exactly that if and only if no event accumulates 128 ticks. |
| `ScrollTracker.ForwardTicks` | src/input/scroll_tracker.rs:17-34 | The ticks of an unsaturated forward run are exactly those that fit into the distance. |
| `ScrollTracker.AccumulateMirrored` | src/input/scroll_tracker.rs:17-34 | Scrolling the other way mirrors state and ticks. |
| `ScrollTracker.SplittingDoesNotMatter` | src/input/scroll_tracker.rs:17-34 | However an unsaturated scroll in one direction is split into events, the same number of ticks comes out. |
| `ScrollTracker.ScrollTracker.constructor` | src/input/scroll_tracker.rs:9-15 | Starts with nothing accumulated, for every tick of its type; usable if and only if the tick is positive. |
| `ScrollTracker.ScrollTracker.AccumulateAmount` | src/input/scroll_tracker.rs:17-34 | Performs the accumulation step in place. |
| `ScrollTracker.ScrollTracker.Reset` | src/input/scroll_tracker.rs:36-39 | Forgets direction and remainder but not the tick. |
| `RubberBand.BandByGive` | src/rubber_band.rs:8-13 | The band is the limit times what it has given way so far. |
| `RubberBand.DerivativeByGive` | src/rubber_band.rs:15-20 | The derivative is the stiffness times the square of the remaining give. |
| `RubberBand.Secant` | src/rubber_band.rs:8-20 | The exact difference between two points of the band. |
| `RubberBand.QuotientBetweenDerivatives` | src/rubber_band.rs:8-20 | Every difference quotient lies between the derivatives at its ends. |
| `RubberBand.BandRange` | src/rubber_band.rs:8-13 | The band is non-negative, monotone and never reaches its limit. |
| `RubberBand.ClampRange` | src/rubber_band.rs:22-28 | The identity inside the range, less than the limit beyond its ends outside. |
| `RubberBand.ClampMonotone` | src/rubber_band.rs:22-28 | Clamping keeps order. |
| `RubberBand.ClampSlope` | src/rubber_band.rs:22-38 | On each side of the range the clamp derivatives enclose the difference quotients of the clamp. |
| `RubberBand.ClampSlopeInside` | src/rubber_band.rs:22-38 | Inside the range the clamp is the identity and its derivative one. |

## Left out

- Region.Decompose: takes rectangles of non-negative width, as Smithay's size type demands, and does not model 32-bit overflow of coordinates.
- BlurCache.Surface.ApplyCommit: the post-commit hook is taken to run when a commit is applied, which is Smithay's doing and not part of this model; why an application is delayed is not modelled.
- Redraw.RunSafe: assumes that a vblank is delivered only for a submitted frame and a timer fires only while registered; Redraw.RogueVBlank says what happens otherwise.
- Redraw.OutputState.DeliverVBlank: vblank throttling appears only as a delivery at a later time, and presentation feedback is not modelled.
- Commands.Execute: takes the parsed list, the focused target and all handlers other than marking as parameters of an environment, and so is matching, which `Matching.Walking` fills in; it passes the compositor state by value, so aliasing inside it is not modelled.
- Commands.RunForWindow: the rule table does not change while commands run, and no window is unmapped meanwhile.
- ForWindow.OnceIffTidy: its necessity half needs rules that match the window and of which it is settled whether they mark it, since otherwise it depends on the handlers whether a command list gets to its `mark`; its sufficiency half is `ForWindow.TidyRulesRunOnce` and needs nothing.
- CommandLists.GroupSeesOneSnapshot: covers criteria that parse; a group whose criteria fail is an ordinary failing command.
- Criteria.MatchingTargets: whether a candidate matches is a parameter.
- Placement.ListedUnlessGrouped: takes each window to be in one place and node ids to be unique in a tree, which the layout code maintains and this model does not prove.
- Bezier.EaseAt: over the reals; rounding of f64 is not modelled.
- ScrollTracker.AccumulateEffect: over the reals; rounding of f64, infinities and NaN are not modelled.
- Clock.AdjustableClock.Now: over the reals; rounding of a duration to nanoseconds is not modelled.
- Clock.AdvanceIsClamped: is about the step as computed; where `Duration::mul_f64` panics instead is said by Clock.AdjustableClock.Now.
- RubberBand.ClampRange: over the reals and for a positive stiffness and limit.
- FrameClock.FrameClock.NextPresentationTime: does not model overflow of 64-bit nanoseconds.
- Gamma.Surface.SetProps: kernel calls succeed or fail arbitrarily; the legacy gamma path without the property is not modelled.
- KeyboardMonitor.KeyboardData.Process: says whom a key event is signalled to, not the transport of the signal or its errors.
- The container tree, workspaces, scratchpad and the handlers that forward to them.
- The command, criteria and variable parsers.
- Moving container marks when the tree is rebuilt.
- Spring and deceleration curves, which need exponentials.
- Rendering, screen casting, the session lock, IPC events and configuration.
- Plain setters, which would only add easy members.
