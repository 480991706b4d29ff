/** Gamma ramps of a CRTC (`src/backend/tty.rs`).

    A ramp is uploaded as a kernel property blob, `GAMMA_LUT` is pointed at it, and the previous blob is
    destroyed. Every kernel call may fail. While the session is inactive, other programs may point the
    property elsewhere, and changes wait until the session resumes.
  */
module Gamma {
  import opened Options

  type Ramp = seq<nat>
  type BlobId = nat

  datatype Color = Color(red: nat, green: nat, blue: nat)

  // ----- The uploaded table

  /** The ramp holds all red values, then all green, then all blue ones. */
  function Interleave(ramp: Ramp, size: nat): (r: seq<Color>)
    requires |ramp| == 3 * size
    ensures |r| == size
  {
    seq(size, i requires 0 <= i < size => Color(ramp[i], ramp[size + i], ramp[2 * size + i]))
  }

  function Channel(table: seq<Color>, pick: Color -> nat): seq<nat> {
    seq(|table|, i requires 0 <= i < |table| => pick(table[i]))
  }

  /** The uploaded table holds the ramp's three channels, none swapped and nothing lost. */
  lemma InterleaveRoundTrip(ramp: Ramp, size: nat)
    requires |ramp| == 3 * size
    ensures var table := Interleave(ramp, size);
            Channel(table, (c: Color) => c.red) + Channel(table, (c: Color) => c.green) +
            Channel(table, (c: Color) => c.blue) == ramp
  {}

  /** The table as `set_gamma` builds it, by splitting the ramp and zipping the parts. */
  method BuildTable(ramp: Ramp, size: nat) returns (table: seq<Color>)
    requires |ramp| == 3 * size
    ensures table == Interleave(ramp, size)
  {
    var red, rest := ramp[..size], ramp[size..];
    var second, third := rest[..size], rest[size..];
    table := [];
    for i := 0 to size
      invariant |table| == i
      invariant forall k :: 0 <= k < i ==> table[k] == Color(ramp[k], ramp[size + k], ramp[2 * size + k])
    {
      table := table + [Color(red[i], second[i], third[i])];
    }
  }

  // ----- The protocol

  /** Which kernel calls of an operation fail. */
  datatype Faults = Faults(size: bool, create: bool, point: bool, destroy: bool)

  const NO_FAULTS := Faults(false, false, false, false)

  /** `blobs` are the property blobs that exist, `leaked` those whose destruction failed. */
  datatype Crtc = Crtc(
    size: nat,
    blobs: map<BlobId, seq<Color>>,
    leaked: set<BlobId>,
    property: BlobId,
    nextBlob: BlobId,
    previousBlob: Option<BlobId>,
    pendingChange: Option<Option<Ramp>>,
    active: bool
  )

  datatype Event =
    | SetGamma(ramp: Option<Ramp>, faults: Faults)
    | Pause
    | Resume(resumeFaults: Faults)
    | Foreign(value: BlobId)

  function IdOf(blob: Option<BlobId>): BlobId {
    match blob case None => 0 case Some(id) => id
  }

  function Destroy(c: Crtc, id: BlobId, fails: bool): Crtc {
    if fails then c.(leaked := c.leaked + {id}) else c.(blobs := c.blobs - {id})
  }

  /** `GammaProps::set_gamma`: the new state and whether it succeeded. */
  function ApplyRamp(c: Crtc, ramp: Option<Ramp>, faults: Faults): (Crtc, bool) {
    match ramp
    case None => PointAt(c, None, faults)
    case Some(r) =>
      if faults.size || |r| != 3 * c.size || faults.create then (c, false)
      else
        var id := c.nextBlob;
        PointAt(c.(blobs := c.blobs[id := Interleave(r, c.size)], nextBlob := id + 1), Some(id), faults)
  }

  function PointAt(c: Crtc, blob: Option<BlobId>, faults: Faults): (Crtc, bool) {
    if faults.point then (if blob.Some? then Destroy(c, blob.value, faults.destroy) else c, false)
    else
      var pointed := c.(property := IdOf(blob), previousBlob := blob);
      (if c.previousBlob.Some? then Destroy(pointed, c.previousBlob.value, faults.destroy) else pointed, true)
  }

  /** `GammaProps::restore_gamma`. */
  function Restore(c: Crtc, faults: Faults): (Crtc, bool) {
    if faults.point then (c, false) else (c.(property := IdOf(c.previousBlob)), true)
  }

  /** What resuming the session does to the property: a waiting change is applied, otherwise the old ramp is
      restored. A waiting change is forgotten even if it fails. */
  function Reactivate(c: Crtc, faults: Faults): (Crtc, bool) {
    match c.pendingChange
    case Some(ramp) => ApplyRamp(c.(pendingChange := None), ramp, faults)
    case None => Restore(c, faults)
  }

  function Step(c: Crtc, e: Event): Crtc {
    match e
    case SetGamma(ramp, faults) =>
      if !c.active then c.(pendingChange := Some(ramp)) else ApplyRamp(c, ramp, faults).0
    case Pause => c.(active := false)
    case Resume(faults) => if c.active then c else Reactivate(c.(active := true), faults).0
    case Foreign(value) => if c.active then c else c.(property := value)
  }

  function NewCrtc(size: nat): Crtc {
    Crtc(size, map[], {}, 0, 1, None, None, true)
  }

  function Run(size: nat, events: seq<Event>): Crtc {
    if events == [] then NewCrtc(size) else Step(Run(size, events[..|events| - 1]), events[|events| - 1])
  }

  // ----- No blob is lost track of

  function Owned(c: Crtc): set<BlobId> {
    if c.previousBlob.Some? then {c.previousBlob.value} else {}
  }

  /** The blobs that exist are the current one and those whose destruction failed. */
  predicate Accounted(c: Crtc) {
    && c.blobs.Keys == c.leaked + Owned(c)
    && c.leaked !! Owned(c)
    && (forall id :: id in c.blobs ==> 0 < id < c.nextBlob)
    && 0 < c.nextBlob
  }

  lemma ApplyKeepsAccounted(c: Crtc, ramp: Option<Ramp>, faults: Faults)
    requires Accounted(c)
    ensures Accounted(ApplyRamp(c, ramp, faults).0)
  {
    if ramp.Some? && !(faults.size || |ramp.value| != 3 * c.size || faults.create) {
      var id := c.nextBlob;
      assert id !in c.blobs.Keys;
      var uploaded := c.(blobs := c.blobs[id := Interleave(ramp.value, c.size)], nextBlob := id + 1);
      assert uploaded.blobs.Keys == c.blobs.Keys + {id};
    }
  }

  lemma StepKeepsAccounted(c: Crtc, e: Event)
    requires Accounted(c)
    ensures Accounted(Step(c, e))
  {
    match e
    case SetGamma(ramp, faults) => ApplyKeepsAccounted(c, ramp, faults);
    case Resume(faults) =>
      if c.pendingChange.Some? {
        ApplyKeepsAccounted(c.(active := true, pendingChange := None), c.pendingChange.value, faults);
      }
    case _ =>
  }

  /** Whatever fails and whenever the session pauses, the existing blobs are exactly the current one and
      those the kernel refused to destroy. */
  lemma {:induction false} NoBlobIsLost(size: nat, events: seq<Event>)
    ensures Accounted(Run(size, events))
  {
    if events == [] {
    } else {
      NoBlobIsLost(size, events[..|events| - 1]);
      StepKeepsAccounted(Run(size, events[..|events| - 1]), events[|events| - 1]);
    }
  }

  // ----- What the hardware shows

  /** `GAMMA_LUT` names the current blob, or none. */
  predicate Synced(c: Crtc) {
    c.property == IdOf(c.previousBlob)
  }

  predicate Sized(ramp: Option<Ramp>, size: nat) {
    ramp.Some? ==> |ramp.value| == 3 * size
  }

  /** The change fits, and no kernel call it depends on fails. */
  predicate Accepts(size: nat, ramp: Option<Ramp>, faults: Faults) {
    !faults.point && Sized(ramp, size) && (ramp.Some? ==> !faults.size && !faults.create)
  }

  function Uploaded(ramp: Option<Ramp>, size: nat): Option<seq<Color>>
    requires Sized(ramp, size)
  {
    match ramp case None => None case Some(r) => Some(Interleave(r, size))
  }

  /** The contents of the current blob. */
  function Current(c: Crtc): Option<seq<Color>> {
    if c.previousBlob.Some? && c.previousBlob.value in c.blobs then Some(c.blobs[c.previousBlob.value]) else None
  }

  /** The table the property shows. */
  function Shown(c: Crtc): Option<seq<Color>> {
    if c.property in c.blobs then Some(c.blobs[c.property]) else None
  }

  /** In whatever state the property is, a change puts it in step if and only if it is accepted or the property
      was in step, and a change that is not accepted leaves the property and the current blob alone. */
  lemma ChangeSyncsIff(c: Crtc, ramp: Option<Ramp>, faults: Faults)
    ensures var (after, ok) := ApplyRamp(c, ramp, faults);
            && (ok <==> Accepts(c.size, ramp, faults))
            && (ok ==> Synced(after) && after.previousBlob.Some? == ramp.Some?)
            && (!ok ==> after.property == c.property && after.previousBlob == c.previousBlob)
            && (Synced(after) <==> ok || Synced(c))
  {}

  /** An accepted change becomes the current blob, with exactly the table of its ramp; any other change keeps
      the contents of the current blob. */
  lemma ChangeUploads(c: Crtc, ramp: Option<Ramp>, faults: Faults)
    requires Accounted(c)
    ensures var (after, ok) := ApplyRamp(c, ramp, faults);
            && after.size == c.size
            && Current(after) == if Accepts(c.size, ramp, faults) then Uploaded(ramp, c.size) else Current(c)
  {
    if ramp.Some? {
      assert c.nextBlob !in c.blobs.Keys;
    }
  }

  /** While the property is in step, it shows the current blob. */
  lemma SyncedShows(c: Crtc)
    requires Accounted(c) && Synced(c)
    ensures Shown(c) == Current(c)
  {
    assert 0 !in c.blobs;
  }

  /** Resuming puts the property in step if and only if it was in step, or the kernel accepts the waiting change,
      or nothing waits and the kernel accepts the old ramp. Otherwise the old ramp is not restored. */
  lemma ResumeSyncsIff(c: Crtc, faults: Faults)
    requires !c.active
    ensures Synced(Step(c, Resume(faults))) <==>
            || Synced(c)
            || (if c.pendingChange.Some? then Accepts(c.size, c.pendingChange.value, faults) else !faults.point)
  {}

  // ----- Histories with any failures

  /** Whether the session is active after a history. */
  predicate IsActive(events: seq<Event>) {
    if events == [] then true
    else
      match events[|events| - 1]
      case Pause => false
      case Resume(_) => true
      case _ => IsActive(events[..|events| - 1])
  }

  /** The change that waits: the last one asked for since the session was paused. */
  function Waiting(events: seq<Event>): Option<Option<Ramp>> {
    if events == [] then None
    else
      var before := events[..|events| - 1];
      match events[|events| - 1]
      case SetGamma(ramp, _) => if IsActive(before) then None else Some(ramp)
      case Resume(_) => None
      case _ => Waiting(before)
  }

  /** The last ramp asked for in a history. */
  function Wanted(events: seq<Event>): Option<Ramp> {
    if events == [] then None
    else if events[|events| - 1].SetGamma? then events[|events| - 1].ramp
    else Wanted(events[..|events| - 1])
  }

  /** Whatever failed: the state knows whether the session is active and which change waits, and that is the last
      one asked for. */
  lemma {:induction false} HistoryTracked(size: nat, events: seq<Event>)
    ensures var c := Run(size, events);
            c.size == size && c.active == IsActive(events) && c.pendingChange == Waiting(events)
    ensures Waiting(events).Some? ==> !IsActive(events) && Waiting(events).value == Wanted(events)
  {
    if events == [] {
    } else {
      HistoryTracked(size, events[..|events| - 1]);
    }
  }

  lemma RunAppend(size: nat, events: seq<Event>, e: Event)
    ensures Run(size, events + [e]) == Step(Run(size, events), e)
  {
    assert (events + [e])[..|events|] == events;
  }

  /** After any history, resuming applies exactly the change asked for last since the pause, and restores the old
      ramp if none was; earlier changes of the pause are never applied. */
  lemma ResumeAppliesWaiting(size: nat, events: seq<Event>, faults: Faults)
    requires !IsActive(events)
    ensures var c := Run(size, events).(active := true, pendingChange := None);
            Run(size, events + [Resume(faults)]) ==
            match Waiting(events)
            case Some(ramp) => ApplyRamp(c, ramp, faults).0
            case None => Restore(c, faults).0
  {
    HistoryTracked(size, events);
    RunAppend(size, events, Resume(faults));
  }

  /** After any history, a resume whose own calls succeed shows the change that waited, or the old ramp if none
      did. */
  lemma ResumeShows(size: nat, events: seq<Event>, faults: Faults)
    requires !IsActive(events) && !faults.point
    ensures var after := Run(size, events + [Resume(faults)]);
            match Waiting(events)
            case Some(ramp) => Accepts(size, ramp, faults) ==> Shown(after) == Uploaded(ramp, size)
            case None => Shown(after) == Current(Run(size, events))
  {
    var c := Run(size, events).(active := true, pendingChange := None);
    HistoryTracked(size, events);
    NoBlobIsLost(size, events);
    NoBlobIsLost(size, events + [Resume(faults)]);
    ResumeAppliesWaiting(size, events, faults);
    if Waiting(events).Some? {
      ChangeSyncsIff(c, Waiting(events).value, faults);
      ChangeUploads(c, Waiting(events).value, faults);
    }
    if Synced(Run(size, events + [Resume(faults)])) {
      SyncedShows(Run(size, events + [Resume(faults)]));
    }
  }

  /** The change that an event puts to the kernel after a history, if any. */
  function Attempted(before: seq<Event>, e: Event): Option<Option<Ramp>> {
    match e
    case SetGamma(ramp, _) => if IsActive(before) then Some(ramp) else None
    case Resume(_) => if IsActive(before) then None else Waiting(before)
    case _ => None
  }

  function FaultsOf(e: Event): Faults {
    match e
    case SetGamma(_, faults) => faults
    case Resume(faults) => faults
    case _ => NO_FAULTS
  }

  predicate Accepted(size: nat, before: seq<Event>, e: Event) {
    Attempted(before, e).Some? && Accepts(size, Attempted(before, e).value, FaultsOf(e))
  }

  /** The last ramp that the kernel accepted. */
  function LastAccepted(size: nat, events: seq<Event>): (ramp: Option<Ramp>)
    ensures Sized(ramp, size)
  {
    if events == [] then None
    else
      var before, e := events[..|events| - 1], events[|events| - 1];
      if Accepted(size, before, e) then Attempted(before, e).value else LastAccepted(size, before)
  }

  /** Whether the property was put in step since another program last could have touched it. */
  predicate InStep(size: nat, events: seq<Event>) {
    if events == [] then true
    else
      var before, e := events[..|events| - 1], events[|events| - 1];
      || Accepted(size, before, e)
      || (e.Resume? && !IsActive(before) && Waiting(before) == None && !e.resumeFaults.point)
      || (InStep(size, before) && (e.Foreign? ==> IsActive(before)))
  }

  /** After every history, whatever failed in it, the current blob holds the last ramp that was accepted. */
  lemma {:induction false} CurrentIsLastAccepted(size: nat, events: seq<Event>)
    ensures Current(Run(size, events)) == Uploaded(LastAccepted(size, events), size)
  {
    if events == [] {
    } else {
      var before, e := events[..|events| - 1], events[|events| - 1];
      var c := Run(size, before);
      CurrentIsLastAccepted(size, before);
      HistoryTracked(size, before);
      NoBlobIsLost(size, before);
      match e
      case SetGamma(ramp, faults) => ChangeUploads(c, ramp, faults);
      case Resume(faults) =>
        if !c.active && c.pendingChange.Some? {
          ChangeUploads(c.(active := true, pendingChange := None), c.pendingChange.value, faults);
        }
      case _ =>
    }
  }

  lemma {:induction false} InStepIsSynced(size: nat, events: seq<Event>)
    requires InStep(size, events)
    ensures Synced(Run(size, events))
  {
    if events == [] {
    } else {
      var before, e := events[..|events| - 1], events[|events| - 1];
      var c := Run(size, before);
      HistoryTracked(size, before);
      if InStep(size, before) {
        InStepIsSynced(size, before);
      }
      match e
      case SetGamma(ramp, faults) => ChangeSyncsIff(c, ramp, faults);
      case Resume(faults) =>
        if !c.active {
          ResumeSyncsIff(c, faults);
        }
      case _ =>
    }
  }

  /** After every history that leaves the property in step, the hardware shows the last ramp that was accepted. */
  lemma LastAcceptedShows(size: nat, events: seq<Event>)
    requires InStep(size, events)
    ensures Shown(Run(size, events)) == Uploaded(LastAccepted(size, events), size)
  {
    NoBlobIsLost(size, events);
    InStepIsSynced(size, events);
    SyncedShows(Run(size, events));
    CurrentIsLastAccepted(size, events);
  }

  /** Whether the last ramp asked for was accepted, at once or on a later resume. */
  predicate Answered(size: nat, events: seq<Event>) {
    if events == [] then true
    else
      var before, e := events[..|events| - 1], events[|events| - 1];
      || Accepted(size, before, e)
      || (!e.SetGamma? && Answered(size, before))
  }

  lemma {:induction false} AnsweredIsAccepted(size: nat, events: seq<Event>)
    requires Answered(size, events)
    ensures LastAccepted(size, events) == Wanted(events)
  {
    if events == [] {
    } else {
      var before, e := events[..|events| - 1], events[|events| - 1];
      HistoryTracked(size, before);
      if Accepted(size, before, e) {
      } else {
        AnsweredIsAccepted(size, before);
      }
    }
  }

  /** If the last ramp asked for was accepted and the property is in step, it is shown, whatever failed before. */
  lemma LastRampShows(size: nat, events: seq<Event>)
    requires InStep(size, events) && Answered(size, events)
    ensures Sized(Wanted(events), size)
    ensures Shown(Run(size, events)) == Uploaded(Wanted(events), size)
  {
    LastAcceptedShows(size, events);
    AnsweredIsAccepted(size, events);
  }

  /** No kernel call fails and every ramp has the right length. */
  predicate Smooth(size: nat, events: seq<Event>) {
    forall i :: 0 <= i < |events| ==> SmoothEvent(size, events[i])
  }

  predicate SmoothEvent(size: nat, e: Event) {
    match e
    case SetGamma(ramp, faults) => faults == NO_FAULTS && Sized(ramp, size)
    case Resume(faults) => faults == NO_FAULTS
    case _ => true
  }

  /** In particular, without failures an active session shows the last ramp asked for, and an inactive one
      remembers it unless it was shown before the pause. */
  lemma {:induction false} SmoothRun(size: nat, events: seq<Event>)
    requires Smooth(size, events)
    ensures Sized(Wanted(events), size)
    ensures IsActive(events) ==> InStep(size, events)
    ensures Answered(size, events) || Waiting(events) == Some(Wanted(events))
    ensures IsActive(events) ==> Answered(size, events) && Shown(Run(size, events)) == Uploaded(Wanted(events), size)
  {
    if events == [] {
    } else {
      var before, e := events[..|events| - 1], events[|events| - 1];
      SmoothRun(size, before);
      HistoryTracked(size, before);
      HistoryTracked(size, events);
      assert SmoothEvent(size, e);
    }
    if IsActive(events) {
      LastRampShows(size, events);
    }
  }

  /** A change that waited while another program had the property, and is not accepted on the resume, leaves that
      program's value in place. */
  lemma ForeignValueStays(size: nat, ramp: Option<Ramp>, foreign: BlobId, faults: Faults)
    requires foreign != 0 && !Accepts(size, ramp, faults)
    ensures var c := Run(size, [Pause, Foreign(foreign), SetGamma(ramp, NO_FAULTS)] + [Resume(faults)]);
            c.active && c.property == foreign && c.previousBlob == None && c.pendingChange == None
  {
    var events := [Pause, Foreign(foreign), SetGamma(ramp, NO_FAULTS)];
    assert events[..2] == [Pause, Foreign(foreign)] && [Pause, Foreign(foreign)][..1] == [Pause];
    assert [Pause][..0] == [];
    assert Run(size, [Pause]) == NewCrtc(size).(active := false);
    assert Run(size, [Pause, Foreign(foreign)]) == NewCrtc(size).(active := false, property := foreign);
    RunAppend(size, events, Resume(faults));
    ChangeSyncsIff(Run(size, events).(active := true, pendingChange := None), ramp, faults);
  }

  /** For instance when the upload of a fitting ramp fails. */
  lemma FailedUploadLeavesForeignValue(size: nat, ramp: Ramp, foreign: BlobId)
    requires foreign != 0 && |ramp| == 3 * size
    ensures var upload := Faults(false, true, false, false);
            var c := Run(size, [Pause, Foreign(foreign), SetGamma(Some(ramp), NO_FAULTS)] + [Resume(upload)]);
            c.active && c.property == foreign && !Synced(c)
  {
    ForeignValueStays(size, Some(ramp), foreign, Faults(false, true, false, false));
  }

  // ----- Which blobs are leaked

  /** The blob that an event wants destroyed: the one an accepted change replaces, or the one just uploaded if the
      property could not be pointed at it. */
  function Discarded(size: nat, before: seq<Event>, e: Event): set<BlobId> {
    var c, faults := Run(size, before), FaultsOf(e);
    match Attempted(before, e)
    case None => {}
    case Some(ramp) =>
      if !faults.point then
        if Accepts(size, ramp, faults) && c.previousBlob.Some? then {c.previousBlob.value} else {}
      else if ramp.Some? && Sized(ramp, size) && !faults.size && !faults.create then {c.nextBlob}
      else {}
  }

  /** The blobs whose destruction the kernel refused in a history. */
  function Refused(size: nat, events: seq<Event>): set<BlobId> {
    if events == [] then {}
    else
      var before, e := events[..|events| - 1], events[|events| - 1];
      Refused(size, before) + if FaultsOf(e).destroy then Discarded(size, before, e) else {}
  }

  function DestroyFaults(events: seq<Event>): nat {
    if events == [] then 0
    else DestroyFaults(events[..|events| - 1]) + if FaultsOf(events[|events| - 1]).destroy then 1 else 0
  }

  /** One change leaks what it discards exactly if the destruction fails. */
  lemma ChangeLeaks(c: Crtc, ramp: Option<Ramp>, faults: Faults)
    ensures ApplyRamp(c, ramp, faults).0.leaked == c.leaked +
            if !faults.destroy then {}
            else if !faults.point then
              if Accepts(c.size, ramp, faults) && c.previousBlob.Some? then {c.previousBlob.value} else {}
            else if ramp.Some? && Sized(ramp, c.size) && !faults.size && !faults.create then {c.nextBlob}
            else {}
  {}

  /** After every history the leaked blobs are exactly those whose destruction failed, and at most one for each
      such failure. */
  lemma {:induction false} LeakedAreRefused(size: nat, events: seq<Event>)
    ensures Run(size, events).leaked == Refused(size, events)
    ensures |Refused(size, events)| <= DestroyFaults(events)
  {
    if events == [] {
    } else {
      var before, e := events[..|events| - 1], events[|events| - 1];
      var c := Run(size, before);
      LeakedAreRefused(size, before);
      HistoryTracked(size, before);
      match e
      case SetGamma(ramp, faults) => ChangeLeaks(c, ramp, faults);
      case Resume(faults) =>
        if !c.active && c.pendingChange.Some? {
          ChangeLeaks(c.(active := true, pendingChange := None), c.pendingChange.value, faults);
        }
      case _ =>
    }
  }

  /** So as long as no destruction fails, whatever else does, at most the current blob exists. */
  lemma OnlyCurrentExists(size: nat, events: seq<Event>)
    requires DestroyFaults(events) == 0
    ensures Run(size, events).blobs.Keys ==
            if Run(size, events).previousBlob.Some? then {Run(size, events).previousBlob.value} else {}
  {
    NoBlobIsLost(size, events);
    LeakedAreRefused(size, events);
  }

  // ----- The mutable surface

  class Surface {
    const size: nat
    var blobs: map<BlobId, seq<Color>>
    var leaked: set<BlobId>
    var property: BlobId
    var nextBlob: BlobId
    var previousBlob: Option<BlobId>
    var pendingChange: Option<Option<Ramp>>
    var active: bool

    ghost function Abstract(): Crtc
      reads this
    {
      Crtc(size, blobs, leaked, property, nextBlob, previousBlob, pendingChange, active)
    }

    constructor (size: nat)
      ensures Abstract() == NewCrtc(size) && Accounted(Abstract())
    {
      this.size, blobs, leaked, property, nextBlob := size, map[], {}, 0, 1;
      previousBlob, pendingChange, active := None, None, true;
    }

    method DestroyBlob(id: BlobId, fails: bool)
      modifies this
      ensures Abstract() == Destroy(old(Abstract()), id, fails)
    {
      if fails {
        leaked := leaked + {id};
      } else {
        blobs := blobs - {id};
      }
    }

    method SetProps(ramp: Option<Ramp>, faults: Faults) returns (ok: bool)
      requires Accounted(Abstract())
      modifies this
      ensures Accounted(Abstract()) && (Abstract(), ok) == ApplyRamp(old(Abstract()), ramp, faults)
    {
      ApplyKeepsAccounted(Abstract(), ramp, faults);
      var blob: Option<BlobId> := None;
      if ramp.Some? {
        if faults.size || |ramp.value| != 3 * size || faults.create {
          return false;
        }
        var table := BuildTable(ramp.value, size);
        blob := Some(nextBlob);
        blobs, nextBlob := blobs[nextBlob := table], nextBlob + 1;
      }
      if faults.point {
        if blob.Some? {
          DestroyBlob(blob.value, faults.destroy);
        }
        return false;
      }
      property := IdOf(blob);
      var previous := previousBlob;
      previousBlob := blob;
      if previous.Some? {
        DestroyBlob(previous.value, faults.destroy);
      }
      return true;
    }

    method Request(ramp: Option<Ramp>, faults: Faults) returns (ok: bool)
      requires Accounted(Abstract())
      modifies this
      ensures Accounted(Abstract()) && Abstract() == Step(old(Abstract()), SetGamma(ramp, faults))
      ensures ok == (!old(active) || ApplyRamp(old(Abstract()), ramp, faults).1)
    {
      if !active {
        pendingChange := Some(ramp);
        return true;
      }
      ok := SetProps(ramp, faults);
    }

    method ResumeSession(faults: Faults)
      requires Accounted(Abstract()) && !active
      modifies this
      ensures Accounted(Abstract()) && Abstract() == Step(old(Abstract()), Resume(faults))
    {
      active := true;
      if pendingChange.Some? {
        var ramp := pendingChange.value;
        pendingChange := None;
        var _ := SetProps(ramp, faults);
      } else if !faults.point {
        property := IdOf(previousBlob);
      }
    }
  }
}
