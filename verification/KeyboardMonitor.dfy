/** The accessibility keyboard monitor (`src/dbus/freedesktop_a11y.rs`).

    D-Bus clients grab keys while key events come in; both sides take the same lock, so a run is an
    arbitrary interleaving of `Event`s. `KeyboardData` is the locked state; the lemmas speak about runs.
  */
module KeyboardMonitor {
  import opened Options

  type Keysym = nat
  type Name = string

  const DURATION_MAX: nat := 0x1_0000_0000_0000_0000 * 1_000_000_000 - 1

  /** A duration in nanoseconds. */
  type Duration = n: nat | n <= DURATION_MAX witness 0

  function SaturatingAdd(a: Duration, b: Duration): Duration {
    if a + b <= DURATION_MAX then a + b else DURATION_MAX
  }

  datatype Client = Client(
    watched: bool,
    grabbed: bool,
    modifiers: set<Keysym>,
    keystrokes: seq<(Keysym, nat)>
  )

  const DEFAULT_CLIENT := Client(false, false, {}, [])

  datatype Data = Data(
    clients: map<Name, Client>,
    grabbedMods: set<Keysym>,
    lastPress: map<Keysym, Duration>,
    suppressed: set<Keysym>
  )

  const DEFAULT_DATA := Data(map[], {}, map[], {})

  datatype Block = Pass | ModifierFirstPress | Blocked

  datatype Key = Key(released: bool, keysym: Keysym, mods: nat, time: Duration, repeatDelay: Duration)

  datatype Event =
    | GrabKeyboard(name: Name)
    | UngrabKeyboard(name: Name)
    | WatchKeyboard(name: Name)
    | UnwatchKeyboard(name: Name)
    | SetKeyGrabs(name: Name, modifiers: seq<Keysym>, keystrokes: seq<(Keysym, nat)>)
    | Disconnected(name: Name)
    | MonitorBroken
    | KeyEvent(key: Key)

  // ----- Clients

  function Entry(clients: map<Name, Client>, name: Name): Client {
    if name in clients then clients[name] else DEFAULT_CLIENT
  }

  /** The client table after one event. It does not depend on key events. */
  function UpdateClients(clients: map<Name, Client>, e: Event): map<Name, Client> {
    match e
    case GrabKeyboard(name) => clients[name := Entry(clients, name).(grabbed := true)]
    case UngrabKeyboard(name) => if name in clients then clients[name := clients[name].(grabbed := false)] else clients
    case WatchKeyboard(name) => clients[name := Entry(clients, name).(watched := true)]
    case UnwatchKeyboard(name) => if name in clients then clients[name := clients[name].(watched := false)] else clients
    case SetKeyGrabs(name, modifiers, keystrokes) =>
      clients[name := Entry(clients, name).(modifiers := Elements(modifiers), keystrokes := keystrokes)]
    case Disconnected(name) => clients - {name}
    case MonitorBroken => map[]
    case KeyEvent(_) => clients
  }

  /** The modifiers of all clients together. */
  function AllModifiers(clients: map<Name, Client>): set<Keysym> {
    set name, m | name in clients && m in clients[name].modifiers :: m
  }

  predicate ShouldGrab(c: Client, suppressed: set<Keysym>, mods: nat, keysym: Keysym) {
    || c.grabbed
    || keysym in c.modifiers
    || c.modifiers * suppressed != {}
    || (keysym, mods) in c.keystrokes
  }

  predicate ShouldWatch(c: Client, suppressed: set<Keysym>, mods: nat, keysym: Keysym) {
    c.watched || ShouldGrab(c, suppressed, mods, keysym)
  }

  predicate SomeClientGrabs(clients: map<Name, Client>, suppressed: set<Keysym>, mods: nat, keysym: Keysym) {
    exists name :: name in clients && ShouldGrab(clients[name], suppressed, mods, keysym)
  }

  /** Who is told about a key event. */
  function Recipients(d: Data, k: Key): set<Name> {
    set name | name in d.clients && ShouldWatch(d.clients[name], d.suppressed, k.mods, k.keysym)
  }

  // ----- Key events

  predicate IsDoublePress(d: Data, k: Key) {
    && k.keysym in d.grabbedMods
    && k.time <= SaturatingAdd(if k.keysym in d.lastPress then d.lastPress[k.keysym] else 0, k.repeatDelay)
  }

  function Verdict(d: Data, k: Key, block: bool): Block {
    if !block then Pass else if k.keysym in d.grabbedMods then ModifierFirstPress else Blocked
  }

  function ProcessRelease(d: Data, k: Key): (Data, Block) {
    (d.(suppressed := d.suppressed - {k.keysym}), Verdict(d, k, k.keysym in d.suppressed))
  }

  function ProcessPress(d: Data, k: Key): (Data, Block) {
    var noted := if k.keysym in d.grabbedMods then d.(lastPress := d.lastPress[k.keysym := k.time]) else d;
    if IsDoublePress(d, k) then (noted, Pass)
    else if k.keysym in d.suppressed then (noted, Verdict(d, k, true))
    else if SomeClientGrabs(d.clients, d.suppressed, k.mods, k.keysym) then
      (noted.(suppressed := d.suppressed + {k.keysym}), Verdict(d, k, true))
    else (noted, Pass)
  }

  function ProcessKey(d: Data, k: Key): (Data, Block) {
    if k.released then ProcessRelease(d, k) else ProcessPress(d, k)
  }

  function Step(d: Data, e: Event): Data {
    match e
    case KeyEvent(k) => ProcessKey(d, k).0
    case SetKeyGrabs(_, _, _) => Rebuilt(d.(clients := UpdateClients(d.clients, e)))
    case Disconnected(_) => Rebuilt(d.(clients := UpdateClients(d.clients, e)))
    case MonitorBroken => Rebuilt(d.(clients := UpdateClients(d.clients, e)))
    case _ => d.(clients := UpdateClients(d.clients, e))
  }

  function Rebuilt(d: Data): Data {
    d.(grabbedMods := AllModifiers(d.clients))
  }

  // ----- Runs

  function Init<T>(s: seq<T>): seq<T>
    requires s != []
  {
    s[..|s| - 1]
  }

  function Last<T>(s: seq<T>): T
    requires s != []
  {
    s[|s| - 1]
  }

  function After(events: seq<Event>): Data {
    if events == [] then DEFAULT_DATA else Step(After(Init(events)), Last(events))
  }

  /** Whether the key event that ends a run is blocked. */
  predicate LastBlocked(events: seq<Event>) {
    events != [] && Last(events).KeyEvent? && ProcessKey(After(Init(events)), Last(events).key).1 != Pass
  }

  predicate IsKey(e: Event, keysym: Keysym) {
    e.KeyEvent? && e.key.keysym == keysym
  }

  /** The most recent event of this key, if any, is a press. */
  predicate Held(events: seq<Event>, keysym: Keysym) {
    if events == [] then false
    else if IsKey(Last(events), keysym) then !Last(events).key.released
    else Held(Init(events), keysym)
  }

  /** A press of this key was blocked after its most recent release. */
  predicate BlockedSinceRelease(events: seq<Event>, keysym: Keysym) {
    if events == [] then false
    else if IsKey(Last(events), keysym) then
      !Last(events).key.released && (LastBlocked(events) || BlockedSinceRelease(Init(events), keysym))
    else BlockedSinceRelease(Init(events), keysym)
  }

  function ClientsAfter(events: seq<Event>): map<Name, Client> {
    if events == [] then map[] else UpdateClients(ClientsAfter(Init(events)), Last(events))
  }

  // ----- What the clients asked for

  predicate Ends(e: Event, name: Name) {
    e == Disconnected(name) || e == MonitorBroken
  }

  /** The client's most recent grab request still stands. */
  predicate Grabbing(events: seq<Event>, name: Name) {
    if events == [] || Ends(Last(events), name) || Last(events) == UngrabKeyboard(name) then false
    else Last(events) == GrabKeyboard(name) || Grabbing(Init(events), name)
  }

  predicate Watching(events: seq<Event>, name: Name) {
    if events == [] || Ends(Last(events), name) || Last(events) == UnwatchKeyboard(name) then false
    else Last(events) == WatchKeyboard(name) || Watching(Init(events), name)
  }

  /** The modifiers and keystrokes of the client's last SetKeyGrabs call since it connected. */
  function KeyGrabs(events: seq<Event>, name: Name): (seq<Keysym>, seq<(Keysym, nat)>) {
    if events == [] || Ends(Last(events), name) then ([], [])
    else if Last(events).SetKeyGrabs? && Last(events).name == name then (Last(events).modifiers, Last(events).keystrokes)
    else KeyGrabs(Init(events), name)
  }

  /** Each kind of request stays in effect until the same client reverses it or goes away, independently of
      the other kinds and of other clients. */
  lemma {:induction false} ClientHistory(events: seq<Event>, name: Name)
    ensures Entry(ClientsAfter(events), name) ==
            var (modifiers, keystrokes) := KeyGrabs(events, name);
            Client(Watching(events, name), Grabbing(events, name), Elements(modifiers), keystrokes)
  {
    if events == [] {
      assert Elements<Keysym>([]) == {};
    } else {
      assert Elements<Keysym>([]) == {};
      ClientHistory(Init(events), name);
    }
  }

  /** Some connected client has the key among its modifiers. */
  ghost predicate IsModifier(events: seq<Event>, keysym: Keysym) {
    exists name :: keysym in KeyGrabs(events, name).0
  }

  lemma ModifierIff(events: seq<Event>, keysym: Keysym)
    ensures keysym in AllModifiers(ClientsAfter(events)) <==> IsModifier(events, keysym)
  {
    var clients := ClientsAfter(events);
    if keysym in AllModifiers(clients) {
      var name :| name in clients && keysym in clients[name].modifiers;
      ClientHistory(events, name);
      assert keysym in KeyGrabs(events, name).0;
    }
    if name :| keysym in KeyGrabs(events, name).0 {
      ClientHistory(events, name);
      assert keysym in Elements(KeyGrabs(events, name).0);
      assert keysym in Entry(clients, name).modifiers;
      assert name in clients && keysym in clients[name].modifiers;
    }
  }

  /** The time of the most recent press of this key that came while some client had it as a modifier. */
  ghost function LastGrabbedPress(events: seq<Event>, keysym: Keysym): Duration {
    if events == [] then 0
    else
      var e := Last(events);
      if IsKey(e, keysym) && !e.key.released && IsModifier(Init(events), keysym) then e.key.time
      else LastGrabbedPress(Init(events), keysym)
  }

  lemma {:induction false} TablesFollow(events: seq<Event>, keysym: Keysym)
    ensures After(events).clients == ClientsAfter(events)
    ensures After(events).grabbedMods == AllModifiers(ClientsAfter(events))
    ensures keysym in After(events).grabbedMods <==> IsModifier(events, keysym)
  {
    ModifierIff(events, keysym);
    if events == [] {
    } else {
      TablesFollow(Init(events), keysym);
      StepKeepsUnion(After(Init(events)), Last(events));
    }
  }

  lemma {:induction false} SuppressedFollow(events: seq<Event>, keysym: Keysym)
    ensures keysym in After(events).suppressed <==> BlockedSinceRelease(events, keysym)
  {
    if events == [] {
    } else {
      SuppressedFollow(Init(events), keysym);
    }
  }

  lemma StepNotesPress(d: Data, e: Event, keysym: Keysym)
    ensures var before, after := d.lastPress, Step(d, e).lastPress;
            (if keysym in after then after[keysym] else 0) ==
            if IsKey(e, keysym) && !e.key.released && keysym in d.grabbedMods then e.key.time
            else if keysym in before then before[keysym] else 0
  {}

  lemma {:induction false} LastPressFollows(events: seq<Event>, keysym: Keysym)
    ensures LastGrabbedPress(events, keysym) ==
            var last := After(events).lastPress; if keysym in last then last[keysym] else 0
  {
    if events == [] {
    } else {
      TablesFollow(Init(events), keysym);
      LastPressFollows(Init(events), keysym);
      StepNotesPress(After(Init(events)), Last(events), keysym);
    }
  }

  /** The whole locked state is a function of the history: the table of clients, the union of their
      modifiers, the last presses, and the keys whose blocked press is still unreleased. */
  lemma RunInvariant(events: seq<Event>, keysym: Keysym)
    ensures After(events).clients == ClientsAfter(events)
    ensures After(events).grabbedMods == AllModifiers(ClientsAfter(events))
    ensures keysym in After(events).grabbedMods <==> IsModifier(events, keysym)
    ensures keysym in After(events).suppressed <==> BlockedSinceRelease(events, keysym)
    ensures LastGrabbedPress(events, keysym) ==
            var last := After(events).lastPress; if keysym in last then last[keysym] else 0
  {
    TablesFollow(events, keysym);
    SuppressedFollow(events, keysym);
    LastPressFollows(events, keysym);
  }

  /** The cached modifier set stays the union, although not every change of the table rebuilds it. */
  lemma StepKeepsUnion(d: Data, e: Event)
    requires d.grabbedMods == AllModifiers(d.clients)
    ensures Step(d, e).clients == UpdateClients(d.clients, e)
    ensures Step(d, e).grabbedMods == AllModifiers(Step(d, e).clients)
  {
    var after := Step(d, e).clients;
    if e.GrabKeyboard? || e.UngrabKeyboard? || e.WatchKeyboard? || e.UnwatchKeyboard? {
      forall name, m
        ensures name in after && m in after[name].modifiers <==> name in d.clients && m in d.clients[name].modifiers
      {}
      assert AllModifiers(after) == AllModifiers(d.clients);
    }
  }

  /** A suppressed key is held down. */
  lemma {:induction false} BlockedIsHeld(events: seq<Event>, keysym: Keysym)
    ensures BlockedSinceRelease(events, keysym) ==> Held(events, keysym)
  {
    if events == [] {
    } else {
      BlockedIsHeld(Init(events), keysym);
    }
  }

  lemma SuppressedKeysAreHeld(events: seq<Event>)
    ensures forall keysym :: keysym in After(events).suppressed ==> Held(events, keysym)
  {
    forall keysym | keysym in After(events).suppressed
      ensures Held(events, keysym)
    {
      RunInvariant(events, keysym);
      BlockedIsHeld(events, keysym);
    }
  }

  /** For every history whatsoever: a release is blocked exactly when a press of the same key was blocked
      since the previous release. */
  lemma ReleaseBlocked(events: seq<Event>)
    requires events != [] && Last(events).KeyEvent? && Last(events).key.released
    ensures LastBlocked(events) <==> BlockedSinceRelease(Init(events), Last(events).key.keysym)
  {
    RunInvariant(Init(events), Last(events).key.keysym);
  }

  predicate Quiet(events: seq<Event>, keysym: Keysym) {
    forall i :: 0 <= i < |events| ==> !IsKey(events[i], keysym)
  }

  lemma {:induction false} QuietKeeps(before: seq<Event>, quiet: seq<Event>, keysym: Keysym)
    requires Quiet(quiet, keysym)
    ensures BlockedSinceRelease(before + quiet, keysym) <==> BlockedSinceRelease(before, keysym)
  {
    if quiet == [] {
      assert before + quiet == before;
    } else {
      assert Init(before + quiet) == before + Init(quiet);
      QuietKeeps(before, Init(quiet), keysym);
    }
  }

  /** The release that ends a hold is blocked exactly when its press was, whatever grabs, changes and
      disconnects happen in between, provided the key was up before the press. */
  lemma ReleaseMatchesPress(before: seq<Event>, press: Key, between: seq<Event>, release: Key)
    requires !press.released && release.released && press.keysym == release.keysym
    requires !Held(before, press.keysym) && Quiet(between, press.keysym)
    ensures LastBlocked(before + [KeyEvent(press)] + between + [KeyEvent(release)]) <==>
            LastBlocked(before + [KeyEvent(press)])
  {
    FirstRelease(before, press, between, release);
    BlockedIsHeld(before, press.keysym);
  }

  /** Without that proviso: the first release after a press answers for every press of the hold. */
  lemma FirstRelease(before: seq<Event>, press: Key, between: seq<Event>, release: Key)
    requires !press.released && release.released && press.keysym == release.keysym
    requires Quiet(between, press.keysym)
    ensures LastBlocked(before + [KeyEvent(press)] + between + [KeyEvent(release)]) <==>
            LastBlocked(before + [KeyEvent(press)]) || BlockedSinceRelease(before, press.keysym)
  {
    var pressed := before + [KeyEvent(press)];
    assert Init(pressed) == before;
    var all := pressed + between + [KeyEvent(release)];
    assert Init(all) == pressed + between;
    ReleaseBlocked(all);
    QuietKeeps(pressed, between, press.keysym);
  }

  /** Two keyboards show that the proviso is needed: with both keys of a grabbing client down, the second
      release is passed on although the second press was blocked. */
  lemma TwoKeyboards(name: Name, keysym: Keysym, mods: nat, time: Duration, delay: Duration)
    ensures var press := KeyEvent(Key(false, keysym, mods, time, delay));
            var release := KeyEvent(Key(true, keysym, mods, time, delay));
            var grab := [GrabKeyboard(name)];
            && LastBlocked(grab + [press, press])
            && LastBlocked(grab + [press, press, release])
            && !LastBlocked(grab + [press, press, release, release])
  {
    var press := KeyEvent(Key(false, keysym, mods, time, delay));
    var release := KeyEvent(Key(true, keysym, mods, time, delay));
    var grab := [GrabKeyboard(name)];
    assert After(grab) == Data(map[name := DEFAULT_CLIENT.(grabbed := true)], {}, map[], {}) by {
      assert Init(grab) == [];
    }
    var s1, s2, s3, s4 :=
      grab + [press], grab + [press, press], grab + [press, press, release], grab + [press, press, release, release];
    assert Init(s1) == grab && Init(s2) == s1 && Init(s3) == s2 && Init(s4) == s3;
    assert name in After(grab).clients && After(grab).clients[name].grabbed;
    assert After(s1).suppressed == {keysym};
    assert After(s2).suppressed == {keysym};
    assert After(s3).suppressed == {};
  }

  /** Would this client, given what it asked for, grab the press? */
  predicate WouldGrab(events: seq<Event>, name: Name, k: Key) {
    var (modifiers, keystrokes) := KeyGrabs(events, name);
    || Grabbing(events, name)
    || k.keysym in modifiers
    || (exists m :: m in modifiers && BlockedSinceRelease(events, m))
    || (k.keysym, k.mods) in keystrokes
  }

  lemma WouldGrabIsShouldGrab(events: seq<Event>, name: Name, k: Key)
    ensures WouldGrab(events, name, k) <==>
            ShouldGrab(Entry(After(events).clients, name), After(events).suppressed, k.mods, k.keysym)
  {
    RunInvariant(events, k.keysym);
    ClientHistory(events, name);
    var c, suppressed := Entry(After(events).clients, name), After(events).suppressed;
    forall m
      ensures m in suppressed <==> BlockedSinceRelease(events, m)
    {
      RunInvariant(events, m);
    }
    if c.modifiers * suppressed != {} {
      var m :| m in c.modifiers * suppressed;
      assert m in c.modifiers && BlockedSinceRelease(events, m);
    }
    if m :| m in c.modifiers && BlockedSinceRelease(events, m) {
      assert m in c.modifiers * suppressed;
    }
  }

  lemma SomeWouldGrab(events: seq<Event>, k: Key)
    ensures SomeClientGrabs(After(events).clients, After(events).suppressed, k.mods, k.keysym) <==>
            exists name :: WouldGrab(events, name, k)
  {
    var d := After(events);
    if name :| name in d.clients && ShouldGrab(d.clients[name], d.suppressed, k.mods, k.keysym) {
      WouldGrabIsShouldGrab(events, name, k);
    }
    if name :| WouldGrab(events, name, k) {
      WouldGrabIsShouldGrab(events, name, k);
      assert name in d.clients;
    }
  }

  /** Pressed again within the repeat delay, a modifier of some client counts as an ordinary key. */
  ghost predicate DoublePress(before: seq<Event>, k: Key) {
    IsModifier(before, k.keysym) && k.time <= LastGrabbedPress(before, k.keysym) + k.repeatDelay
  }

  /** A press, in whatever state the key is, is blocked exactly when the key is held with a blocked press or some
      client would grab it, and it is not a grabbed modifier pressed again within the repeat delay. */
  lemma PressBlocked(before: seq<Event>, k: Key)
    requires !k.released
    ensures LastBlocked(before + [KeyEvent(k)]) <==>
            && (BlockedSinceRelease(before, k.keysym) || exists name :: WouldGrab(before, name, k))
            && !DoublePress(before, k)
  {
    assert Init(before + [KeyEvent(k)]) == before;
    RunInvariant(before, k.keysym);
    SomeWouldGrab(before, k);
  }

  /** What keeps a blocked key from changing the keyboard state at all: it is the modifier of some client. */
  lemma VerdictKind(before: seq<Event>, k: Key)
    requires LastBlocked(before + [KeyEvent(k)])
    ensures ProcessKey(After(before), k).1 == ModifierFirstPress <==> IsModifier(before, k.keysym)
  {
    assert Init(before + [KeyEvent(k)]) == before;
    RunInvariant(before, k.keysym);
  }

  /** Who is told about a key event: the watching clients and those that would grab it. */
  lemma ToldIff(before: seq<Event>, k: Key, name: Name)
    ensures name in Recipients(After(before), k) <==> Watching(before, name) || WouldGrab(before, name, k)
  {
    RunInvariant(before, k.keysym);
    ClientHistory(before, name);
    WouldGrabIsShouldGrab(before, name, k);
  }

  /** A press that starts a hold is never swallowed silently: a client that grabs it is told. */
  lemma BlockedPressIsReported(d: Data, k: Key)
    requires !k.released && k.keysym !in d.suppressed && ProcessKey(d, k).1 != Pass
    ensures exists name :: name in Recipients(d, k) && ShouldGrab(d.clients[name], d.suppressed, k.mods, k.keysym)
  {
    var name :| name in d.clients && ShouldGrab(d.clients[name], d.suppressed, k.mods, k.keysym);
    assert name in Recipients(d, k);
  }

  // ----- The locked state

  /** `KeyboardClient::should_grab_keypress`. */
  method ShouldGrabKeypress(c: Client, suppressed: set<Keysym>, mods: nat, keysym: Keysym) returns (grab: bool)
    ensures grab <==> ShouldGrab(c, suppressed, mods, keysym)
  {
    if c.grabbed {
      return true;
    }
    var rest := c.modifiers;
    while rest != {}
      invariant rest <= c.modifiers
      invariant forall m :: m in c.modifiers ==> m in rest || (m != keysym && m !in suppressed)
      decreases rest
    {
      var modifier :| modifier in rest;
      if modifier == keysym || modifier in suppressed {
        assert modifier in suppressed ==> modifier in c.modifiers * suppressed;
        return true;
      }
      rest := rest - {modifier};
    }
    assert c.modifiers * suppressed == {};
    for i := 0 to |c.keystrokes|
      invariant (keysym, mods) !in c.keystrokes[..i]
    {
      if c.keystrokes[i] == (keysym, mods) {
        return true;
      }
    }
    return false;
  }

  class KeyboardData {
    var clients: map<Name, Client>
    var grabbedMods: set<Keysym>
    var lastPress: map<Keysym, Duration>
    var suppressed: set<Keysym>

    ghost function Abstract(): Data
      reads this
    {
      Data(clients, grabbedMods, lastPress, suppressed)
    }

    constructor ()
      ensures Abstract() == DEFAULT_DATA
    {
      clients, grabbedMods, lastPress, suppressed := map[], {}, map[], {};
    }

    method SetGrabbed(name: Name, on: bool)
      modifies this
      ensures Abstract() == Step(old(Abstract()), if on then GrabKeyboard(name) else UngrabKeyboard(name))
    {
      if on {
        clients := clients[name := Entry(clients, name).(grabbed := true)];
      } else if name in clients {
        clients := clients[name := clients[name].(grabbed := false)];
      }
    }

    method SetWatched(name: Name, on: bool)
      modifies this
      ensures Abstract() == Step(old(Abstract()), if on then WatchKeyboard(name) else UnwatchKeyboard(name))
    {
      if on {
        clients := clients[name := Entry(clients, name).(watched := true)];
      } else if name in clients {
        clients := clients[name := clients[name].(watched := false)];
      }
    }

    method SetGrabs(name: Name, modifiers: seq<Keysym>, keystrokes: seq<(Keysym, nat)>)
      modifies this
      ensures Abstract() == Step(old(Abstract()), SetKeyGrabs(name, modifiers, keystrokes))
    {
      clients := clients[name := Entry(clients, name).(modifiers := Elements(modifiers), keystrokes := keystrokes)];
      RebuildGrabbedMods();
    }

    method Disconnect(name: Name)
      modifies this
      ensures Abstract() == Step(old(Abstract()), Disconnected(name))
    {
      clients := clients - {name};
      RebuildGrabbedMods();
    }

    method DropAllClients()
      modifies this
      ensures Abstract() == Step(old(Abstract()), MonitorBroken)
    {
      clients := map[];
      RebuildGrabbedMods();
    }

    method RebuildGrabbedMods()
      modifies this`grabbedMods
      ensures grabbedMods == AllModifiers(clients)
    {
      grabbedMods := {};
      var rest := clients.Keys;
      while rest != {}
        invariant rest <= clients.Keys
        invariant grabbedMods == set name, m | name in clients.Keys - rest && m in clients[name].modifiers :: m
        decreases rest
      {
        var name :| name in rest;
        assert clients.Keys - (rest - {name}) == (clients.Keys - rest) + {name};
        grabbedMods := grabbedMods + clients[name].modifiers;
        rest := rest - {name};
      }
    }

    /** Whether any client grabs the press. */
    method AnyClientGrabs(mods: nat, keysym: Keysym) returns (any: bool)
      ensures any <==> SomeClientGrabs(clients, suppressed, mods, keysym)
    {
      var rest := clients.Keys;
      while rest != {}
        invariant rest <= clients.Keys
        invariant forall name :: name in clients.Keys - rest ==> !ShouldGrab(clients[name], suppressed, mods, keysym)
        decreases rest
      {
        var name :| name in rest;
        var grab := ShouldGrabKeypress(clients[name], suppressed, mods, keysym);
        if grab {
          return true;
        }
        rest := rest - {name};
      }
      return false;
    }

    /** `KeyboardMonitor::process_key`; `told` are the clients the event is signalled to. */
    method Process(k: Key) returns (block: Block, told: set<Name>)
      modifies this
      ensures (Abstract(), block) == ProcessKey(old(Abstract()), k)
      ensures told == Recipients(old(Abstract()), k)
    {
      told := Notify(k);
      if k.keysym in grabbedMods {
        if k.released {
          if k.keysym !in suppressed {
            assert suppressed - {k.keysym} == suppressed;
            return Pass, told;
          }
        } else {
          var last := if k.keysym in lastPress then lastPress[k.keysym] else 0;
          lastPress := lastPress[k.keysym := k.time];
          if k.time <= SaturatingAdd(last, k.repeatDelay) {
            return Pass, told;
          }
        }
      }
      var blocked := false;
      if k.released {
        if k.keysym in suppressed {
          suppressed := suppressed - {k.keysym};
          blocked := true;
        } else {
          assert suppressed - {k.keysym} == suppressed;
        }
      } else if k.keysym in suppressed {
        blocked := true;
      } else {
        var any := AnyClientGrabs(k.mods, k.keysym);
        if any {
          suppressed := suppressed + {k.keysym};
          blocked := true;
        }
      }
      block := if !blocked then Pass else if k.keysym in grabbedMods then ModifierFirstPress else Blocked;
    }

    method Notify(k: Key) returns (told: set<Name>)
      ensures told == Recipients(Abstract(), k)
    {
      told := {};
      var rest := clients.Keys;
      while rest != {}
        invariant rest <= clients.Keys
        invariant told == set name | name in clients.Keys - rest && ShouldWatch(clients[name], suppressed, k.mods, k.keysym)
        decreases rest
      {
        var name :| name in rest;
        assert clients.Keys - (rest - {name}) == (clients.Keys - rest) + {name};
        var watch := clients[name].watched;
        if !watch {
          watch := ShouldGrabKeypress(clients[name], suppressed, k.mods, k.keysym);
        }
        if watch {
          told := told + {name};
        }
        rest := rest - {name};
      }
    }
  }
}
