/** The grab controller (main.go): which devices are held, when the grab flips, and what
    that does to the Reporter and its target. */
module Kvm {
  import opened Reporting
  import opened Slices

  /** A tracked evdev node. `fd` stands for the object's identity: each open makes a new one. */
  datatype Device = Device(path: string, fd: nat)

  /** The controller's state under its lock, with the kernel's view of which devices are
      held. `atGrab`, `grabs` and `commands` are history: the devices at the last successful
      grab, how many there were, and how many commands could have caused one. */
  datatype Core = Core(
    devs: seq<Device>, grabbed: bool, held: set<Device>, hooked: bool, notified: seq<bool>,
    atGrab: seq<Device>, grabs: nat, commands: nat)

  /** What the controller makes the Reporter do before it lets go of its lock. */
  datatype Action = Nothing | DoReset | DoClear

  datatype Outcome = Outcome(k: Core, action: Action)

  function All(devs: seq<Device>): set<Device> {
    set d | d in devs
  }

  function SetGrabbed(k: Core, v: bool): Core {
    k.(grabbed := v, notified := if k.hooked then k.notified + [v] else k.notified)
  }

  /** applyGrab; `failAt` is the index of the first grab ioctl that fails, if it is below the
      number of devices. Ungrabs succeed. */
  function ApplyGrab(k: Core, on: bool, failAt: nat): Outcome {
    if on then
      if failAt < |k.devs| then
        Outcome(SetGrabbed(k.(held := k.held - All(k.devs[..failAt])), false), Nothing)
      else
        Outcome(SetGrabbed(k.(held := k.held + All(k.devs), atGrab := k.devs, grabs := k.grabs + 1), true), DoReset)
    else
      Outcome(SetGrabbed(k.(held := k.held - All(k.devs)), false), DoReset)
  }

  function ToggleGrab(k: Core, failAt: nat): Outcome {
    ApplyGrab(k.(commands := k.commands + 1), !k.grabbed, failAt)
  }

  function SetGrab(k: Core, on: bool, failAt: nat): Outcome {
    var k' := k.(commands := k.commands + 1);
    if k.grabbed == on then Outcome(k', Nothing) else ApplyGrab(k', on, failAt)
  }

  predicate IsToggle(toggleKey: int, e: Event) {
    e.typ == EV_KEY && e.code == toggleKey
  }

  /** handle: a press of the toggle key flips the grab; every event of that key is swallowed. */
  function HandleEvent(k: Core, toggleKey: int, e: Event, failAt: nat): Outcome {
    if IsToggle(toggleKey, e) && e.value == KEY_DOWN then ToggleGrab(k, failAt) else Outcome(k, Nothing)
  }

  function ReleaseLocked(k: Core): Outcome {
    if !k.grabbed then Outcome(k, Nothing)
    else Outcome(SetGrabbed(k.(held := k.held - All(k.devs)), false), DoClear)
  }

  /** deviceLost: closing the node also ends the kernel's hold on it. */
  function DeviceLost(k: Core, d: Device): Outcome {
    ReleaseLocked(k.(devs := Without(k.devs, d), held := k.held - {d}))
  }

  predicate Tracks(devs: seq<Device>, path: string) {
    exists i :: 0 <= i < |devs| && devs[i].path == path
  }

  function TrackIfNew(k: Core, d: Device): Core {
    if Tracks(k.devs, d.path) then k else k.(devs := k.devs + [d])
  }

  // ---- The grab invariant ----

  predicate UniquePaths(devs: seq<Device>) {
    forall i, j :: 0 <= i < j < |devs| ==> devs[i].path != devs[j].path
  }

  /** Released, nothing is held; grabbed, exactly the devices present at the grab are held,
      and they are a prefix of the tracked ones (later arrivals are not held). The last
      notification tells the truth, and grabs never outnumber commands. */
  predicate GrabInvariant(k: Core) {
    && UniquePaths(k.devs)
    && (if k.grabbed then k.atGrab <= k.devs && k.held == All(k.atGrab) else k.held == {})
    && (k.notified != [] ==> k.hooked && k.notified[|k.notified| - 1] == k.grabbed)
    && k.grabs <= k.commands
  }

  /** Everything that can happen to the controller. */
  datatype Call =
    | OnEvent(e: Event, failAt: nat)
    | OnSetGrab(on: bool, failAt: nat)
    | OnToggle(failAt: nat)
    | OnForceRelease
    | OnDeviceLost(d: Device)
    | OnTrack(d: Device)
    | OnHook

  function Perform(k: Core, toggleKey: int, call: Call): Outcome {
    match call
    case OnEvent(e, failAt) => HandleEvent(k, toggleKey, e, failAt)
    case OnSetGrab(on, failAt) => SetGrab(k, on, failAt)
    case OnToggle(failAt) => ToggleGrab(k, failAt)
    case OnForceRelease => ReleaseLocked(k)
    case OnDeviceLost(d) => DeviceLost(k, d)
    case OnTrack(d) => Outcome(TrackIfNew(k, d), Nothing)
    case OnHook => Outcome(k.(hooked := true), Nothing)
  }

  function Initial(devs: seq<Device>): Core {
    Core(devs, false, {}, false, [], [], 0, 0)
  }

  function PerformAll(k: Core, toggleKey: int, calls: seq<Call>): Core
    decreases |calls|
  {
    if calls == [] then k else PerformAll(Perform(k, toggleKey, calls[0]).k, toggleKey, calls[1..])
  }

  lemma {:induction false} WithoutProps(devs: seq<Device>, d: Device)
    ensures All(Without(devs, d)) == All(devs) - {d}
    ensures UniquePaths(devs) ==> UniquePaths(Without(devs, d))
  {
    WithoutMembers(devs, d);
    if devs != [] {
      var first, rest := devs[0], devs[1..];
      WithoutProps(rest, d);
      WithoutHead(first, rest, d);
      assert devs == [first] + rest;
      UniqueWithout(first, rest, d);
    }
  }

  lemma {:induction false} WithoutMembers(devs: seq<Device>, d: Device)
    ensures forall e :: e in Without(devs, d) <==> e in devs && e != d
  {
    if devs != [] {
      WithoutMembers(devs[1..], d);
      WithoutHead(devs[0], devs[1..], d);
      assert devs == [devs[0]] + devs[1..];
    }
  }

  lemma {:induction false} WithoutHead(first: Device, rest: seq<Device>, d: Device)
    ensures Without([first] + rest, d) == if first != d then [first] + Without(rest, d) else Without(rest, d)
  {
    assert ([first] + rest)[1..] == rest;
  }

  lemma {:induction false} WithoutAbsent(devs: seq<Device>, d: Device)
    requires d !in devs
    ensures Without(devs, d) == devs
  {
    if devs != [] {
      WithoutAbsent(devs[1..], d);
    }
  }

  lemma {:induction false} UniqueWithout(first: Device, rest: seq<Device>, d: Device)
    requires All(Without(rest, d)) <= All(rest) && (UniquePaths(rest) ==> UniquePaths(Without(rest, d)))
    ensures UniquePaths([first] + rest) ==> UniquePaths([first] + Without(rest, d)) && UniquePaths(Without(rest, d))
  {
    UniqueCons(first, rest);
    UniqueCons(first, Without(rest, d));
  }

  lemma {:induction false} UniqueCons(first: Device, rest: seq<Device>)
    ensures UniquePaths([first] + rest) <==> UniquePaths(rest) && forall d :: d in All(rest) ==> d.path != first.path
  {
    var devs := [first] + rest;
    if UniquePaths(devs) {
      forall i, j | 0 <= i < j < |rest| ensures rest[i].path != rest[j].path {
        assert devs[i + 1] == rest[i] && devs[j + 1] == rest[j];
      }
      forall d | d in All(rest) ensures d.path != first.path {
        var i :| 0 <= i < |rest| && rest[i] == d;
        assert devs[i + 1] == d && devs[0] == first;
      }
    }
  }

  /** The in-place filter takes out exactly the lost device and keeps the others' order. */
  lemma {:induction false} WithoutDropsOne(devs: seq<Device>, i: nat)
    requires i < |devs| && forall j :: 0 <= j < |devs| && j != i ==> devs[j] != devs[i]
    ensures Without(devs, devs[i]) == devs[..i] + devs[i + 1..]
  {
    if i == 0 {
      WithoutAbsent(devs[1..], devs[0]);
    } else {
      WithoutDropsOne(devs[1..], i - 1);
      assert devs[1..][..i - 1] == devs[1..i] && devs[1..][i - 1 + 1..] == devs[i + 1..];
    }
  }

  lemma {:induction false} PerformKeeps(k: Core, toggleKey: int, call: Call)
    requires GrabInvariant(k)
    ensures GrabInvariant(Perform(k, toggleKey, call).k)
  {
    match call
    case OnDeviceLost(d) => LostKeeps(k, d);
    case OnTrack(d) => TrackKeeps(k, d);
    case OnEvent(_, failAt) => ApplyKeeps(k, !k.grabbed, failAt);
    case OnToggle(failAt) => ApplyKeeps(k, !k.grabbed, failAt);
    case OnSetGrab(on, failAt) =>
      if on != k.grabbed { ApplyKeeps(k, on, failAt); }
    case OnForceRelease => ReleaseKeeps(k);
    case OnHook =>
  }

  lemma {:induction false} LostKeeps(k: Core, d: Device)
    requires GrabInvariant(k)
    ensures GrabInvariant(DeviceLost(k, d).k)
  {
    WithoutProps(k.devs, d);
    HeldAreTracked(k);
    assert k.held - {d} - All(Without(k.devs, d)) == {};
  }

  lemma {:induction false} TrackKeeps(k: Core, d: Device)
    requires GrabInvariant(k)
    ensures GrabInvariant(TrackIfNew(k, d))
  {
    assert k.grabbed ==> k.atGrab <= k.devs + [d];
  }

  lemma {:induction false} ReleaseKeeps(k: Core)
    requires GrabInvariant(k)
    ensures GrabInvariant(ReleaseLocked(k).k)
  {
    HeldAreTracked(k);
  }

  lemma {:induction false} ApplyKeeps(k: Core, on: bool, failAt: nat)
    requires GrabInvariant(k) && on != k.grabbed
    ensures GrabInvariant(ApplyGrab(k.(commands := k.commands + 1), on, failAt).k)
  {
    HeldAreTracked(k);
    assert {} + All(k.devs) == All(k.devs);
    if on && failAt < |k.devs| {
      assert {} - All(k.devs[..failAt]) == {};
    }
  }

  lemma {:induction false} HeldAreTracked(k: Core)
    requires GrabInvariant(k)
    ensures k.held <= All(k.devs) && k.held - All(k.devs) == {}
  {
    forall d | d in k.held ensures d in k.devs {
      assert k.grabbed && d in k.atGrab;
    }
  }

  /** The invariant holds over every run of commands, hotkeys, forced releases, hot-plugs and
      losses, with grab ioctls failing anywhere. */
  lemma {:induction false} GrabInvariantAlways(k: Core, toggleKey: int, calls: seq<Call>)
    requires GrabInvariant(k)
    ensures GrabInvariant(PerformAll(k, toggleKey, calls))
    decreases |calls|
  {
    if calls != [] {
      PerformKeeps(k, toggleKey, calls[0]);
      GrabInvariantAlways(Perform(k, toggleKey, calls[0]).k, toggleKey, calls[1..]);
    }
  }

  /** Whether the grab is on after a call. Turning it on takes every ioctl to succeed. */
  function GrabbedAfter(k: Core, toggleKey: int, call: Call): bool {
    match call
    case OnEvent(e, failAt) =>
      if e == Event(EV_KEY, toggleKey, KEY_DOWN) then !k.grabbed && failAt >= |k.devs| else k.grabbed
    case OnToggle(failAt) => !k.grabbed && failAt >= |k.devs|
    case OnSetGrab(on, failAt) => on && (k.grabbed || failAt >= |k.devs|)
    case OnForceRelease => false
    case OnDeviceLost(_) => false
    case OnTrack(_) => k.grabbed
    case OnHook => k.grabbed
  }

  /** Whether a call tries to take the grab. */
  predicate TriesGrab(k: Core, toggleKey: int, call: Call) {
    !k.grabbed &&
    match call
    case OnEvent(e, _) => e == Event(EV_KEY, toggleKey, KEY_DOWN)
    case OnToggle(_) => true
    case OnSetGrab(on, _) => on
    case _ => false
  }

  /** Every call does what it was asked to: the grab ends up as GrabbedAfter says; a grab newly
      taken holds every tracked device; the state is notified once on every change and on a
      failed attempt, and never else; the Reporter is told of a change and of nothing else. */
  lemma {:induction false} CallsObeyed(k: Core, toggleKey: int, call: Call)
    requires GrabInvariant(k)
    ensures var o := Perform(k, toggleKey, call);
            && o.k.grabbed == GrabbedAfter(k, toggleKey, call)
            && (o.k.grabbed && !k.grabbed ==> o.k.held == All(k.devs) && o.k.grabs == k.grabs + 1)
            && o.k.notified == k.notified
                 + (if k.hooked && (o.k.grabbed != k.grabbed || TriesGrab(k, toggleKey, call)) then [o.k.grabbed] else [])
            && (o.action != Nothing <==> o.k.grabbed != k.grabbed)
            && (o.action == DoClear <==> k.grabbed && (call.OnForceRelease? || call.OnDeviceLost?))
            && o.k.hooked == (k.hooked || call.OnHook?)
            && (TriesGrab(k, toggleKey, call) ==> o.k.commands == k.commands + 1)
  {
  }

  lemma {:induction false} InitialHolds(devs: seq<Device>)
    requires UniquePaths(devs)
    ensures GrabInvariant(Initial(devs))
  {
  }

  /** A device plugged in while grabbed is tracked and not held, until the next grab. */
  lemma {:induction false} HotPlugIsNotHeld(k: Core, toggleKey: int, d: Device)
    requires GrabInvariant(k) && k.grabbed && !Tracks(k.devs, d.path)
    ensures var k' := Perform(k, toggleKey, OnTrack(d)).k; d in k'.devs && d !in k'.held && k'.held == k.held
  {
    assert d in (k.devs + [d]);
  }
}
