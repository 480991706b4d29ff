/** The per-surface cache of the processed blur region (`src/handlers/background_effect.rs`).

    Clients set a region on the pending state of a surface. A commit queues the pending state, and applying it
    makes it current; a blocker may put time between the two. The cache keeps two flags, which a hook moves when
    a commit is applied, and recomputes the rectangle list only when it is read.
  */
module BlurCache {
  import opened Options
  import opened Region

  type Blur = Option<seq<Piece>>

  // ----- The protocol on values

  datatype Event =
    | SetRegion(region: seq<Piece>)
    | UnsetRegion
    | Commit
    | Apply
    | Read

  predicate IsRequest(e: Event) {
    e.SetRegion? || e.UnsetRegion?
  }

  /** Surface state and cache flags. `queue` are the commits still to be applied, and `cachedFor` is the region
      the cached rectangles were computed from. */
  datatype View = View(
    pending: Blur,
    queue: seq<Blur>,
    current: Blur,
    pendingDirty: bool,
    dirty: bool,
    hookRegistered: bool,
    cachedFor: Blur
  )

  const FRESH := View(None, [], None, false, false, false, None)

  function Step(v: View, e: Event): View {
    match e
    case SetRegion(region) => v.(pending := Some(region), pendingDirty := true, hookRegistered := true)
    case UnsetRegion => v.(pending := None, pendingDirty := true, hookRegistered := true)
    case Commit => v.(queue := v.queue + [v.pending])
    case Apply =>
      if v.queue == [] then v
      else
        // The surface applies the state first; the post-commit hook runs afterwards, if registered.
        var applied := v.(current := v.queue[0], queue := v.queue[1..]);
        if v.hookRegistered && v.pendingDirty then applied.(pendingDirty := false, dirty := true) else applied
    case Read => if v.dirty then v.(dirty := false, cachedFor := v.current) else v
  }

  function RunFrom(v: View, events: seq<Event>): View
    decreases |events|
  {
    if events == [] then v else RunFrom(Step(v, events[0]), events[1..])
  }

  lemma {:induction false} RunFromConcat(v: View, a: seq<Event>, b: seq<Event>)
    ensures RunFrom(v, a + b) == RunFrom(RunFrom(v, a), b)
    decreases |a|
  {
    if a == [] {
      assert a + b == b;
    } else {
      assert (a + b)[1..] == a[1..] + b;
      RunFromConcat(Step(v, a[0]), a[1..], b);
    }
  }

  // ----- When a read is right

  /** A read now serves the current region. */
  predicate ServesCurrent(v: View) {
    Step(v, Read).cachedFor == v.current
  }

  predicate AllEqual(regions: seq<Blur>, b: Blur) {
    forall i :: 0 <= i < |regions| ==> regions[i] == b
  }

  /** The hook will mark the cache for every change that is still on its way: while a change is marked as
      pending, all that is to come is the same region, and otherwise it is the current one. */
  predicate Settled(v: View) {
    && ServesCurrent(v)
    && AllEqual(v.queue, v.pending)
    && (!v.pendingDirty ==> v.pending == v.current)
    && (v.pendingDirty ==> v.hookRegistered)
  }

  /** However the surface goes on without a request, reads serve the current region. */
  ghost predicate NeverStale(v: View) {
    forall events :: (forall i :: 0 <= i < |events| ==> !IsRequest(events[i])) ==> ServesCurrent(RunFrom(v, events))
  }

  lemma SettledStep(v: View, e: Event)
    requires Settled(v) && (IsRequest(e) ==> AllEqual(v.queue, Step(v, e).pending))
    ensures Settled(Step(v, e))
  {}

  lemma {:induction false} SettledStays(v: View, events: seq<Event>)
    requires Settled(v) && forall i :: 0 <= i < |events| ==> !IsRequest(events[i])
    ensures Settled(RunFrom(v, events))
    decreases |events|
  {
    if events == [] {
    } else {
      SettledStep(v, events[0]);
      SettledStays(Step(v, events[0]), events[1..]);
    }
  }

  function Applies(n: nat): (r: seq<Event>)
    ensures |r| == n && forall i :: 0 <= i < n ==> r[i] == Apply
  {
    if n == 0 then [] else [Apply] + Applies(n - 1)
  }

  /** Applying commits that no hook marks moves the current region and nothing else. */
  lemma {:induction false} UnmarkedApplies(v: View, n: nat)
    requires n < |v.queue| && !v.pendingDirty
    ensures RunFrom(v, Applies(n + 1)) == v.(current := v.queue[n], queue := v.queue[n + 1..])
    decreases n
  {
    var next := Step(v, Apply);
    assert Applies(n + 1)[1..] == Applies(n);
    if n == 0 {
    } else {
      UnmarkedApplies(next, n - 1);
    }
  }

  /** If some commit on its way is for another region and no request is marked, a read goes wrong. */
  lemma UnmarkedGoesStale(v: View, n: nat)
    requires n < |v.queue| && v.queue[n] != v.current && !v.pendingDirty
    ensures !NeverStale(v)
  {
    var read := Step(v, Read);
    var events := [Read] + Applies(n + 1);
    assert events[1..] == Applies(n + 1);
    UnmarkedApplies(read, n);
    assert forall i :: 0 <= i < |events| ==> !IsRequest(events[i]);
    assert !ServesCurrent(read) || !ServesCurrent(RunFrom(v, events));
    if !ServesCurrent(read) {
      assert [Read][1..] == [];
      assert RunFrom(v, [Read]) == read;
    }
  }

  lemma StaleBefore(v: View, e: Event)
    requires !IsRequest(e) && !NeverStale(Step(v, e))
    ensures !NeverStale(v)
  {
    var events :| (forall i :: 0 <= i < |events| ==> !IsRequest(events[i])) &&
                  !ServesCurrent(RunFrom(Step(v, e), events));
    var longer := [e] + events;
    assert longer[1..] == events;
    assert forall i :: 0 <= i < |longer| ==> !IsRequest(longer[i]);
  }

  /** Reads stay right without further requests if and only if the surface is settled. */
  lemma NeverStaleIff(v: View)
    requires v.pendingDirty ==> v.hookRegistered
    ensures NeverStale(v) <==> Settled(v)
  {
    if Settled(v) {
      forall events | forall i :: 0 <= i < |events| ==> !IsRequest(events[i])
        ensures ServesCurrent(RunFrom(v, events))
      {
        SettledStays(v, events);
      }
    } else {
      UnsettledGoesStale(v);
    }
  }

  lemma UnsettledGoesStale(v: View)
    requires !Settled(v) && (v.pendingDirty ==> v.hookRegistered)
    ensures !NeverStale(v)
  {
    if !ServesCurrent(v) {
      assert RunFrom(v, []) == v;
    } else {
      var committed := Step(v, Commit);
      if v.pendingDirty {
        var applied := Step(committed, Apply);
        var n :| 0 <= n < |v.queue| && v.queue[n] != v.pending;
        UnmarkedGoesStale(applied, if v.queue[0] != v.pending then |v.queue| - 1 else n - 1);
        StaleBefore(committed, Apply);
      } else {
        var n := |v.queue|;
        if v.pending == v.current {
          n :| 0 <= n < |v.queue| && v.queue[n] != v.pending;
        }
        assert committed.queue[n] != v.current;
        UnmarkedGoesStale(committed, n);
      }
      StaleBefore(v, Commit);
    }
  }

  /** A request on a settled surface is safe if and only if every commit still to be applied is for the region
      it asks for, in particular if there is none. */
  lemma RequestSafeIff(v: View, e: Event)
    requires Settled(v) && IsRequest(e)
    ensures NeverStale(Step(v, e)) <==> AllEqual(v.queue, Step(v, e).pending)
  {
    NeverStaleIff(Step(v, e));
  }

  lemma RunFour(v: View, a: Event, b: Event, c: Event, d: Event)
    ensures RunFrom(v, [a, b, c, d]) == Step(Step(Step(Step(v, a), b), c), d)
  {
    assert [a, b, c, d][1..] == [b, c, d] && [b, c, d][1..] == [c, d] && [c, d][1..] == [d] && [d][1..] == [];
    var third := Step(Step(Step(v, a), b), c);
    assert RunFrom(third, [d]) == Step(third, d);
    assert RunFrom(Step(Step(v, a), b), [c, d]) == RunFrom(third, [d]);
  }

  /** A second region requested between a commit and its application is committed and applied, and still a read
      serves the first one. */
  lemma StaleRead(a: seq<Piece>, b: seq<Piece>)
    requires a != b
    ensures var events := [SetRegion(a), Commit, SetRegion(b), Apply] + [Read, Commit, Apply, Read];
            var v := RunFrom(FRESH, events);
            v.current == Some(b) && v.cachedFor == Some(a) && v.queue == []
  {
    RunFromConcat(FRESH, [SetRegion(a), Commit, SetRegion(b), Apply], [Read, Commit, Apply, Read]);
    RunFour(FRESH, SetRegion(a), Commit, SetRegion(b), Apply);
    var v := View(Some(b), [], Some(a), false, true, true, None);
    assert RunFrom(FRESH, [SetRegion(a), Commit, SetRegion(b), Apply]) == v;
    RunFour(v, Read, Commit, Apply, Read);
  }

  // ----- Histories

  /** The region most recently requested in a history. */
  function LastRequest(events: seq<Event>): Blur {
    if events == [] then None
    else
      var e := events[|events| - 1];
      match e
      case SetRegion(region) => Some(region)
      case UnsetRegion => None
      case _ => LastRequest(events[..|events| - 1])
  }

  /** The regions committed in a history, in order. */
  function Commits(events: seq<Event>): seq<Blur> {
    if events == [] then []
    else
      var before := events[..|events| - 1];
      Commits(before) + if events[|events| - 1].Commit? then [LastRequest(before)] else []
  }

  /** How many of them were applied. */
  function Applied(events: seq<Event>): (n: nat)
    ensures n <= |Commits(events)|
  {
    if events == [] then 0
    else
      var before := events[..|events| - 1];
      Applied(before) + if events[|events| - 1].Apply? && Applied(before) < |Commits(before)| then 1 else 0
  }

  /** The region of the commit applied last. */
  function LastApplied(events: seq<Event>): Blur {
    if Applied(events) == 0 then None else Commits(events)[Applied(events) - 1]
  }

  predicate Tracks(v: View, events: seq<Event>) {
    && v.pending == LastRequest(events)
    && v.queue == Commits(events)[Applied(events)..]
    && v.current == LastApplied(events)
  }

  lemma StepTracks(v: View, before: seq<Event>, e: Event)
    requires Tracks(v, before)
    ensures Tracks(Step(v, e), before + [e])
  {
    var events := before + [e];
    assert events[..|events| - 1] == before;
    assert Commits(events) == Commits(before) + if e.Commit? then [LastRequest(before)] else [];
  }

  /** Surface states follow the history: what was asked for, what waits, and what was applied. */
  lemma {:induction false} RunTracksRequests(events: seq<Event>)
    ensures Tracks(RunFrom(FRESH, events), events)
  {
    if events == [] {
    } else {
      var before, e := events[..|events| - 1], events[|events| - 1];
      RunTracksRequests(before);
      StepTracks(RunFrom(FRESH, before), before, e);
      RunFromConcat(FRESH, before, [e]);
      assert before + [e] == events && [e][1..] == [];
    }
  }

  /** Each request is for the region of all commits that still wait. */
  predicate Careful(v: View, events: seq<Event>)
    decreases |events|
  {
    events == [] ||
    (&& (IsRequest(events[0]) ==> AllEqual(v.queue, Step(v, events[0]).pending))
     && Careful(Step(v, events[0]), events[1..]))
  }

  lemma {:induction false} CarefulStaysSettled(v: View, events: seq<Event>)
    requires Settled(v) && Careful(v, events)
    ensures Settled(RunFrom(v, events))
    decreases |events|
  {
    if events == [] {
    } else {
      SettledStep(v, events[0]);
      CarefulStaysSettled(Step(v, events[0]), events[1..]);
    }
  }

  /** If no request for another region falls between a commit and its application, reads always serve the
      region applied last and never a pending one. */
  lemma ReadServesApplied(events: seq<Event>)
    requires Careful(FRESH, events)
    ensures RunFrom(FRESH, events + [Read]).cachedFor == LastApplied(events)
  {
    CarefulStaysSettled(FRESH, events);
    RunTracksRequests(events);
    RunFromConcat(FRESH, events, [Read]);
    assert [Read][1..] == [];
  }

  /** A read right after a read recomputes nothing, so the cache is in fact used. */
  lemma SecondReadIsFree(v: View)
    ensures RunFrom(v, [Read, Read]) == RunFrom(v, [Read])
  {
    assert [Read, Read][1..] == [Read] && [Read][1..] == [];
  }

  // ----- Commits that are applied at once

  /** The history in which every commit is applied before anything else happens. */
  function Promptly(events: seq<Event>): seq<Event> {
    if events == [] then []
    else
      var e := events[|events| - 1];
      Promptly(events[..|events| - 1]) + if e.Commit? then [Commit, Apply] else [e]
  }

  /** The region most recently requested before the last commit of a history. */
  function LastCommitted(events: seq<Event>): Blur {
    if events == [] then None
    else
      var before := events[..|events| - 1];
      if events[|events| - 1].Commit? then LastRequest(before) else LastCommitted(before)
  }

  lemma {:induction false} PromptRun(events: seq<Event>)
    requires forall i :: 0 <= i < |events| ==> !events[i].Apply?
    ensures var v := RunFrom(FRESH, Promptly(events));
            Settled(v) && v.queue == [] && v.pending == LastRequest(events) && v.current == LastCommitted(events)
  {
    if events == [] {
    } else {
      var before, e := events[..|events| - 1], events[|events| - 1];
      var v := RunFrom(FRESH, Promptly(before));
      PromptRun(before);
      RunFromConcat(FRESH, Promptly(before), if e.Commit? then [Commit, Apply] else [e]);
      SettledStep(v, e);
      assert [e][1..] == [] && [Commit, Apply][1..] == [Apply] && [Apply][1..] == [];
      if e.Commit? {
        SettledStep(Step(v, Commit), Apply);
        assert RunFrom(FRESH, Promptly(events)) == Step(Step(v, Commit), Apply);
      } else {
        assert RunFrom(FRESH, Promptly(events)) == Step(v, e);
      }
    }
  }

  /** Under every interleaving of requests, reads and commits that are applied at once, a read serves the
      committed region and never the pending one. */
  lemma PromptReadServesCommitted(events: seq<Event>)
    requires forall i :: 0 <= i < |events| ==> !events[i].Apply?
    ensures RunFrom(FRESH, Promptly(events) + [Read]).cachedFor == LastCommitted(events)
  {
    PromptRun(events);
    RunFromConcat(FRESH, Promptly(events), [Read]);
    assert [Read][1..] == [];
  }

  // ----- The cache itself, with its shared rectangle lists

  /** A reference-counted rectangle list. */
  class RectList {
    var rects: seq<Rect>

    constructor (rects: seq<Rect>)
      ensures this.rects == rects
    {
      this.rects := rects;
    }
  }

  class Surface {
    var pending: Blur
    var queue: seq<Blur>
    var current: Blur
    /** Whether the surface ever had blur state. */
    var hasState: bool

    var pendingDirty: bool
    var dirty: bool
    var hookRegistered: bool
    var rects: RectList?

    /** The references that readers hold, so that a list has one more owner than its multiplicity here. */
    var held: multiset<RectList>

    ghost var cachedFor: Blur

    ghost function Abstract(): View
      reads this
    {
      View(pending, queue, current, pendingDirty, dirty, hookRegistered, cachedFor)
    }

    static predicate Sized(b: Blur) {
      b.Some? ==> WellSized(b.value)
    }

    ghost predicate Valid()
      reads this, rects
    {
      && (pendingDirty ==> hookRegistered)
      && Sized(pending) && Sized(current) && (forall i :: 0 <= i < |queue| ==> Sized(queue[i]))
      && (!hasState ==> pending.None? && current.None? && AllEqual(queue, None))
      && Serves(rects, cachedFor)
    }

    /** The list `r` is what readers must get for the region `b`. */
    ghost predicate Serves(r: RectList?, b: Blur)
      reads r
    {
      match b
      case None => r == null
      case Some(pieces) => r != null && IsDecomposition(pieces, r.rects)
    }

    constructor ()
      ensures Valid() && Abstract() == FRESH && held == multiset{}
    {
      pending, queue, current, hasState := None, [], None, false;
      pendingDirty, dirty, hookRegistered, rects := false, false, false, null;
      held, cachedFor := multiset{}, None;
    }

    method MarkPendingDirty()
      modifies this`pendingDirty, this`hookRegistered
      ensures pendingDirty && hookRegistered
    {
      pendingDirty := true;
      if !hookRegistered {
        hookRegistered := true;
      }
    }

    method SetBlurRegion(region: seq<Piece>)
      requires Valid() && WellSized(region)
      modifies this
      ensures Valid() && Abstract() == Step(old(Abstract()), SetRegion(region))
      ensures held == old(held) && rects == old(rects)
    {
      hasState, pending := true, Some(region);
      MarkPendingDirty();
    }

    method UnsetBlurRegion()
      requires Valid()
      modifies this
      ensures Valid() && Abstract() == Step(old(Abstract()), UnsetRegion)
      ensures held == old(held) && rects == old(rects)
    {
      hasState, pending := true, None;
      MarkPendingDirty();
    }

    /** Commits the pending state, to be applied once nothing blocks it. */
    method CommitSurface()
      requires Valid()
      modifies this`queue
      ensures Valid() && Abstract() == Step(old(Abstract()), Commit)
    {
      queue := queue + [pending];
    }

    /** Applies the oldest commit that waits. */
    method ApplyCommit()
      requires Valid() && queue != []
      modifies this
      ensures Valid() && Abstract() == Step(old(Abstract()), Apply)
      ensures held == old(held) && rects == old(rects)
    {
      current, queue := queue[0], queue[1..];
      if hookRegistered {
        PostCommitHook();
      }
    }

    method PostCommitHook()
      modifies this`pendingDirty, this`dirty
      ensures pendingDirty == false
      ensures dirty == (old(dirty) || old(pendingDirty))
    {
      if pendingDirty {
        pendingDirty := false;
        dirty := true;
      }
    }

    /** A reader gives up one reference. */
    method DropSnapshot(list: RectList)
      requires Valid()
      modifies this`held
      ensures Valid() && held == old(held) - multiset{list}
    {
      held := held - multiset{list};
    }

    /** Returns the cached list, recomputing it first if dirty.

        No list to which a reader still holds a reference is ever written to, however many readers share it,
        and the list returned now tiles exactly the region it was computed for: the current one, unless the
        hook missed a change.
      */
    method GetCachedBlurRegion() returns (list: RectList?)
      requires Valid()
      modifies this, if rects == null then {} else {rects}
      ensures Valid() && Abstract() == Step(old(Abstract()), Read)
      ensures list == rects && Serves(list, cachedFor)
      ensures old(ServesCurrent(Abstract())) ==> Serves(list, current)
      ensures forall l :: l in old(held) ==> l.rects == old(l.rects)
      ensures held == if list == null then old(held) else old(held) + multiset{list}
      ensures rects == null || rects == old(rects) || fresh(rects)
      ensures !old(dirty) ==> rects == old(rects)
    {
      if dirty {
        dirty := false;
        RecomputeBlurRegion();
      }
      list := rects;
      if rects != null {
        held := held + multiset{rects};
      }
    }

    method RecomputeBlurRegion()
      requires Sized(current) && (!hasState ==> current.None?)
      modifies this`rects, this`cachedFor, if rects == null then {} else {rects}
      ensures cachedFor == current && Serves(rects, current)
      ensures forall l :: l in held ==> l.rects == old(l.rects)
      ensures rects == null || rects == old(rects) || fresh(rects)
    {
      cachedFor := current;
      if !hasState || current.None? {
        rects := null;
        return;
      }
      var computed := Decompose(current.value);
      if rects == null || rects in held {
        // Not uniquely owned: the others keep the old list.
        rects := new RectList(computed);
      } else {
        rects.rects := computed;
      }
    }
  }
}
