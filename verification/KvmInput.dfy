/** The controller and the Reporter together, each event handled in one piece: the
    controller object, and what the target is left with. */
module KvmInput {
  import opened Bytes
  import opened Reporting
  import opened Slices
  import opened MotionProperties
  import opened Kvm

  function Act(a: Action, r: Reaction): Reaction {
    match a
    case Nothing => r
    case DoReset => Reaction(NEUTRAL, r.out + ResetReports())
    case DoClear => Reaction(NEUTRAL, r.out)
  }

  /** The kvm object. */
  class Controller {
    const toggleKey: int
    const rep: Reporter
    const devs: Slice<Device>
    var grabbed: bool
    var held: set<Device>
    var hooked: bool
    var notified: seq<bool>
    ghost var atGrab: seq<Device>
    ghost var grabs: nat
    ghost var commands: nat

    constructor (devs: seq<Device>, rep: Reporter, toggleKey: int)
      requires rep.Valid()
      ensures Valid() && fresh(this.devs) && fresh(this.devs.data)
      ensures Abs() == Initial(devs) && this.rep == rep && this.toggleKey == toggleKey
    {
      this.rep, this.toggleKey := rep, toggleKey;
      this.devs := new Slice.Of(devs);
      grabbed, held, hooked, notified := false, {}, false, [];
      atGrab, grabs, commands := [], 0, 0;
    }

    ghost predicate Valid()
      reads this, devs, rep, rep.keys
    {
      devs.Valid() && rep.Valid()
    }

    ghost function Abs(): Core
      reads this, devs, devs.data
      requires devs.Valid()
    {
      Core(devs.Contents(), grabbed, held, hooked, notified, atGrab, grabs, commands)
    }

    /** The Reporter's state and everything it has sent. */
    ghost function Rep(): Reaction
      reads rep, rep.keys, rep.keys.data
      requires rep.Valid()
    {
      Reaction(rep.Abs(), rep.sent)
    }

    method SetGrabbed(v: bool)
      requires Valid()
      modifies `grabbed, `notified
      ensures Valid() && Abs() == Kvm.SetGrabbed(old(Abs()), v)
    {
      grabbed := v;
      if hooked { notified := notified + [v]; }
    }

    /** All-or-nothing: a failed ioctl gives back every grab already taken. */
    method ApplyGrab(on: bool, failAt: nat)
      requires Valid()
      modifies this, rep, rep.keys
      ensures Valid() && rep.keys.data == old(rep.keys.data)
      ensures var o := Kvm.ApplyGrab(old(Abs()), on, failAt);
              Abs() == o.k && Rep() == Act(o.action, old(Rep()))
    {
      if on {
        var taken := GrabAll(failAt);
        if taken < devs.len {
          UngrabFirst(taken);
          SetGrabbed(false);
          return;
        }
        atGrab, grabs := devs.Contents(), grabs + 1;
        SetGrabbed(true);
        rep.Reset();
        return;
      }
      UngrabFirst(devs.len);
      SetGrabbed(false);
      rep.Reset();
    }

    /** Grabs devices in order until one fails; returns how many were taken. */
    method GrabAll(failAt: nat) returns (taken: nat)
      requires devs.Valid()
      modifies `held
      ensures taken == Min(failAt, devs.len) && held == old(held) + All(devs.Contents()[..taken])
    {
      ghost var ds := devs.Contents();
      for i := 0 to devs.len
        invariant i <= failAt && held == old(held) + All(ds[..i])
      {
        if i == failAt { return i; }
        AllExtend(ds, i);
        held := held + {devs.data[i]};
      }
      return devs.len;
    }

    method UngrabFirst(n: nat)
      requires devs.Valid() && n <= devs.len
      modifies `held
      ensures held == old(held) - All(devs.Contents()[..n])
    {
      ghost var ds := devs.Contents();
      for i := 0 to n
        invariant held == old(held) - All(ds[..i])
      {
        AllExtend(ds, i);
        held := held - {devs.data[i]};
      }
    }

    method SetGrab(on: bool, failAt: nat)
      requires Valid()
      modifies this, rep, rep.keys
      ensures Valid() && rep.keys.data == old(rep.keys.data)
      ensures var o := Kvm.SetGrab(old(Abs()), on, failAt);
              Abs() == o.k && Rep() == Act(o.action, old(Rep()))
    {
      commands := commands + 1;
      if grabbed == on { return; }
      ApplyGrab(on, failAt);
    }

    method ToggleGrab(failAt: nat)
      requires Valid()
      modifies this, rep, rep.keys
      ensures Valid() && rep.keys.data == old(rep.keys.data)
      ensures var o := Kvm.ToggleGrab(old(Abs()), failAt);
              Abs() == o.k && Rep() == Act(o.action, old(Rep()))
    {
      commands := commands + 1;
      ApplyGrab(!grabbed, failAt);
    }

    method Handle(e: Event, failAt: nat) returns (swallowed: bool)
      requires Valid()
      modifies this, rep, rep.keys
      ensures Valid() && rep.keys.data == old(rep.keys.data)
      ensures var o := HandleEvent(old(Abs()), toggleKey, e, failAt);
              Abs() == o.k && Rep() == Act(o.action, old(Rep()))
      ensures swallowed == IsToggle(toggleKey, e)
    {
      if e.typ != EV_KEY { return false; }
      if e.code == toggleKey && e.value == KEY_DOWN {
        commands := commands + 1;
        ApplyGrab(!grabbed, failAt);
        return true;
      }
      return e.code == toggleKey;
    }

    method ReleaseLocked()
      requires Valid()
      modifies this, rep, rep.keys
      ensures Valid() && rep.keys.data == old(rep.keys.data)
      ensures var o := Kvm.ReleaseLocked(old(Abs())); Abs() == o.k && Rep() == Act(o.action, old(Rep()))
    {
      if !grabbed { return; }
      UngrabFirst(devs.len);
      SetGrabbed(false);
      rep.ClearState();
    }

    method TrackIfNew(d: Device) returns (added: bool)
      requires devs.Valid()
      modifies devs, devs.data
      ensures devs.Valid() && (devs.data == old(devs.data) || fresh(devs.data))
      ensures added == !Tracks(old(devs.Contents()), d.path) && Abs() == Kvm.TrackIfNew(old(Abs()), d)
    {
      for i := 0 to devs.len
        invariant forall j :: 0 <= j < i ==> devs.data[j].path != d.path
      {
        if devs.data[i].path == d.path {
          assert devs.Contents()[i].path == d.path;
          return false;
        }
      }
      devs.Append(d);
      return true;
    }

    /** Drops the device from the list in place, closes it (the kernel's hold goes with it)
        and releases the rest. */
    method DeviceLost(d: Device)
      requires Valid()
      modifies this, devs, devs.data, rep, rep.keys
      ensures Valid() && devs.data == old(devs.data) && rep.keys.data == old(rep.keys.data)
      ensures var o := Kvm.DeviceLost(old(Abs()), d); Abs() == o.k && Rep() == Act(o.action, old(Rep()))
    {
      devs.Drop(d);
      held := held - {d};
      ReleaseLocked();
    }

    /** One round of readDevice's loop. */
    method ReadOne(e: Event, failAt: nat)
      requires Valid()
      modifies this, rep, rep.keys, rep.keys.data
      ensures Valid()
      ensures var w := World(old(Abs()), old(Rep()));
              World(Abs(), Rep()) == Step(rep.config, toggleKey, w, Input(e, failAt))
    {
      var swallowed := Handle(e, failAt);
      if swallowed { return; }
      if grabbed { rep.Handle(e); }
    }
  }

  lemma {:induction false} AllExtend(devs: seq<Device>, i: nat)
    requires i < |devs|
    ensures All(devs[..i + 1]) == All(devs[..i]) + {devs[i]}
  {
    assert devs[..i + 1] == devs[..i] + [devs[i]];
  }

  // ---- Runs ----

  /** The controller, and the Reporter with everything it has sent. */
  datatype World = World(k: Core, r: Reaction)

  datatype Happening =
    | Input(e: Event, failAt: nat) // a reader passes on one event
    | Control(call: Call)          // a command, a forced release, hot-plug or loss
    | Timer                        // one tick of the coalescing timer

  function Step(c: Config, toggleKey: int, w: World, h: Happening): World {
    match h
    case Input(e, failAt) =>
      var o := HandleEvent(w.k, toggleKey, e, failAt);
      var r := Act(o.action, w.r);
      World(o.k, if IsToggle(toggleKey, e) || !o.k.grabbed then r else Extend(c, r, Ev(e)))
    case Control(call) =>
      var o := Perform(w.k, toggleKey, call);
      World(o.k, Act(o.action, w.r))
    case Timer => World(w.k, Extend(c, w.r, Item.Tick))
  }

  function Steps(c: Config, toggleKey: int, w: World, hs: seq<Happening>): World
    decreases |hs|
  {
    if hs == [] then w else Steps(c, toggleKey, Step(c, toggleKey, w, hs[0]), hs[1..])
  }

  /** While released, the Reporter holds nothing and has nothing to send. */
  predicate Quiet(w: World) {
    !w.k.grabbed ==> w.r.s == NEUTRAL
  }

  predicate NeutralTarget(out: seq<Report>) {
    LastKeyboard(out) == KeyboardReport(0, []) && LastButtons(out) == 0
  }

  lemma {:induction false} ResetNeutralises(out: seq<Report>)
    ensures NeutralTarget(out + ResetReports())
  {
    var reset := ResetReports();
    LastAppend(out, reset[0]);
    LastAppend(out + [reset[0]], reset[1]);
    assert out + [reset[0]] + [reset[1]] == out + reset;
  }

  /** The handover law, one step at a time. Released input stays quiet: nothing is sent and
      nothing pends. Each successful grab and each voluntary release leaves the target with
      no key and no button down. A forced release or a lost device sends nothing at all, so
      the target keeps whatever it had. */
  lemma {:induction false} Handover(c: Config, toggleKey: int, w: World, h: Happening)
    requires Quiet(w)
    ensures var w' := Step(c, toggleKey, w, h);
            && Quiet(w')
            && (!w.k.grabbed && !w'.k.grabbed ==> w'.r.out == w.r.out)
            && (!w.k.grabbed && w'.k.grabbed ==>
                  w'.r == Reaction(NEUTRAL, w.r.out + ResetReports()) && NeutralTarget(w'.r.out))
            && (w.k.grabbed && !w'.k.grabbed && Forced(h) ==> w'.r == Reaction(NEUTRAL, w.r.out))
            && (w.k.grabbed && !w'.k.grabbed && !Forced(h) ==>
                  w'.r == Reaction(NEUTRAL, w.r.out + ResetReports()) && NeutralTarget(w'.r.out))
  {
    ResetNeutralises(w.r.out);
    assert w.r.out + [] == w.r.out;
  }

  predicate Forced(h: Happening) {
    h.Control? && (h.call.OnForceRelease? || h.call.OnDeviceLost?)
  }

  /** No moment of the run is grabbed. */
  predicate NeverGrabbed(c: Config, toggleKey: int, w: World, hs: seq<Happening>)
    decreases |hs|
  {
    !w.k.grabbed && (hs != [] ==> NeverGrabbed(c, toggleKey, Step(c, toggleKey, w, hs[0]), hs[1..]))
  }

  /** Over a whole run without a successful grab, whatever is typed, moved or plugged in and
      however often the timer fires, nothing reaches the target. */
  lemma {:induction false} SilentUntilGrabbed(c: Config, toggleKey: int, w: World, hs: seq<Happening>)
    requires Quiet(w) && NeverGrabbed(c, toggleKey, w, hs)
    ensures Steps(c, toggleKey, w, hs).r == w.r
    decreases |hs|
  {
    if hs != [] {
      var w' := Step(c, toggleKey, w, hs[0]);
      Handover(c, toggleKey, w, hs[0]);
      SilentUntilGrabbed(c, toggleKey, w', hs[1..]);
    }
  }

  lemma {:induction false} AlwaysQuiet(c: Config, toggleKey: int, w: World, hs: seq<Happening>)
    requires Quiet(w)
    ensures Quiet(Steps(c, toggleKey, w, hs))
    decreases |hs|
  {
    if hs != [] {
      Handover(c, toggleKey, w, hs[0]);
      AlwaysQuiet(c, toggleKey, Step(c, toggleKey, w, hs[0]), hs[1..]);
    }
  }
}
