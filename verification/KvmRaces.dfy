/** Reader threads against the controller: each reader checks the grab under the
    controller's lock and feeds the Reporter later, under the Reporter's lock. The
    controller holds its own lock until the Reporter has been reset or cleared. */
module KvmRaces {
  import opened Bytes
  import opened Reporting
  import opened MotionProperties
  import opened Kvm
  import opened KvmInput

  /** Where a reader is between two reads. */
  datatype Phase =
    | Idle
    | Handled(e: Event) // past handle, before isGrabbed
    | Passed(e: Event)  // past isGrabbed, before rep.Handle
    | Gone              // its device was lost

  /** An event or tick that entered the Reporter; `late` when its reader had passed the check
      before the last grab. */
  datatype Arrival = Arrival(i: Item, late: bool)

  /** `pending` is what the lock holder still owes the Reporter; the lock is free when it is
      Nothing. The rest is history. Of the last release: the readers past their check then,
      those whose event entered the Reporter since, whether it was a voluntary one, and what
      had been sent when it was over. Of the last grab: the readers past their check then, and
      those of them still to enter. And what entered the Reporter since its last reset. */
  datatype State = State(
    k: Core, r: Reaction, pending: Action, readers: seq<Phase>,
    atRelease: set<nat>, entered: seq<nat>, voluntary: bool, base: seq<Report>,
    atGrab: set<nat>, carried: set<nat>, arrived: seq<Arrival>)

  datatype Move =
    | Read(i: nat, e: Event, failAt: nat) // handle
    | Check(i: nat)                       // isGrabbed
    | Enter(i: nat)                       // rep.Handle
    | Lose(i: nat, d: Device)             // deviceLost, by the device's own reader
    | Track(d: Device)                    // trackIfNew, with a new reader
    | Command(call: Call)                 // SetGrab, ToggleGrab, a forced release
    | Finish                              // the Reporter call that ends a critical section
    | Timer                               // one tick

  function PassedReaders(readers: seq<Phase>): set<nat> {
    set i | 0 <= i < |readers| && readers[i].Passed?
  }

  /** A critical section up to its Reporter call. */
  function Section(s: State, o: Outcome): State {
    var s' := s.(k := o.k, pending := o.action);
    if s.k.grabbed && !o.k.grabbed then
      s'.(atRelease := PassedReaders(s.readers), entered := [], voluntary := o.action == DoReset)
    else if !s.k.grabbed && o.k.grabbed then
      s'.(atGrab := PassedReaders(s.readers), carried := PassedReaders(s.readers))
    else s'
  }

  predicate Enabled(s: State, m: Move) {
    match m
    case Read(i, e, _) => i < |s.readers| && s.readers[i].Idle? && (e.typ == EV_KEY ==> s.pending == Nothing)
    case Check(i) => i < |s.readers| && s.readers[i].Handled? && s.pending == Nothing
    case Enter(i) => i < |s.readers| && s.readers[i].Passed?
    case Lose(i, d) => i < |s.readers| && s.readers[i].Idle? && s.pending == Nothing
    case Track(d) => s.pending == Nothing
    case Command(call) => (call.OnSetGrab? || call.OnToggle? || call.OnForceRelease? || call.OnHook?) && s.pending == Nothing
    case Finish => s.pending != Nothing
    case Timer => true
  }

  function Next(c: Config, toggleKey: int, s: State, m: Move): State
    requires Enabled(s, m)
  {
    match m
    case Read(i, e, failAt) =>
      var phase := if IsToggle(toggleKey, e) then Idle else Handled(e);
      var s' := if e.typ == EV_KEY then Section(s, HandleEvent(s.k, toggleKey, e, failAt)) else s;
      s'.(readers := s.readers[i := phase])
    case Check(i) =>
      s.(readers := s.readers[i := if s.k.grabbed then Passed(s.readers[i].e) else Idle])
    case Enter(i) =>
      s.(r := Extend(c, s.r, Ev(s.readers[i].e)), readers := s.readers[i := Idle],
         entered := if s.k.grabbed then s.entered else s.entered + [i],
         carried := s.carried - {i},
         arrived := s.arrived + [Arrival(Ev(s.readers[i].e), i in s.carried)])
    case Lose(i, d) =>
      Section(s, DeviceLost(s.k, d)).(readers := s.readers[i := Gone])
    case Track(d) =>
      if Tracks(s.k.devs, d.path) then s else s.(k := TrackIfNew(s.k, d), readers := s.readers + [Idle])
    case Command(call) => Section(s, Perform(s.k, toggleKey, call))
    case Finish =>
      var r := Act(s.pending, s.r);
      s.(r := r, pending := Nothing, base := if s.k.grabbed then s.base else r.out, arrived := [])
    case Timer => s.(r := Extend(c, s.r, Item.Tick), arrived := s.arrived + [Arrival(Item.Tick, false)])
  }

  function Start(devs: seq<Device>): State {
    State(Initial(devs), Reaction(NEUTRAL, []), Nothing, seq(|devs|, _ => Idle), {}, [], false, [], {}, {}, [])
  }

  /** Every move is possible when it happens. */
  predicate Feasible(c: Config, toggleKey: int, s: State, ms: seq<Move>)
    decreases |ms|
  {
    ms == [] || (Enabled(s, ms[0]) && Feasible(c, toggleKey, Next(c, toggleKey, s, ms[0]), ms[1..]))
  }

  function Run(c: Config, toggleKey: int, s: State, ms: seq<Move>): State
    requires Feasible(c, toggleKey, s, ms)
    decreases |ms|
  {
    if ms == [] then s else Run(c, toggleKey, Next(c, toggleKey, s, ms[0]), ms[1..])
  }

  // ---- The bound on late events ----

  /** While released: whoever may still feed the Reporter, or has since the release, had
      passed its check by then, and none has fed it twice. */
  predicate LateBound(s: State) {
    !s.k.grabbed ==>
      && (forall i :: 0 <= i < |s.entered| ==> s.entered[i] in s.atRelease)
      && (forall i, j :: 0 <= i < j < |s.entered| ==> s.entered[i] != s.entered[j])
      && (forall i :: 0 <= i < |s.readers| && s.readers[i].Passed? ==> i in s.atRelease && i !in s.entered)
  }

  /** With nobody past the check at the release, the Reporter is neutral and silent once the
      critical section is over. */
  predicate QuietBound(s: State) {
    && (!s.k.grabbed && s.atRelease == {} && s.pending == Nothing ==> s.r == Reaction(NEUTRAL, s.base))
    && (s.pending == DoClear ==> !s.k.grabbed && !s.voluntary)
  }

  lemma {:induction false} LateStep(c: Config, toggleKey: int, s: State, m: Move)
    requires Enabled(s, m) && LateBound(s)
    ensures LateBound(Next(c, toggleKey, s, m))
  {
    var s' := Next(c, toggleKey, s, m);
    if m.Enter? && !s.k.grabbed {
      assert m.i in s.atRelease && m.i !in s.entered;
      assert s'.entered == s.entered + [m.i];
    }
  }

  lemma {:induction false} QuietStep(c: Config, toggleKey: int, s: State, m: Move)
    requires Enabled(s, m) && LateBound(s) && QuietBound(s)
    ensures QuietBound(Next(c, toggleKey, s, m))
  {
    if m.Enter? && !s.k.grabbed {
      assert m.i in s.atRelease;
    }
    assert s.r.out + [] == s.r.out;
  }

  lemma {:induction false} BoundsAlways(c: Config, toggleKey: int, s: State, ms: seq<Move>)
    requires Feasible(c, toggleKey, s, ms) && LateBound(s) && QuietBound(s)
    ensures LateBound(Run(c, toggleKey, s, ms)) && QuietBound(Run(c, toggleKey, s, ms))
    decreases |ms|
  {
    if ms != [] {
      LateStep(c, toggleKey, s, ms[0]);
      QuietStep(c, toggleKey, s, ms[0]);
      BoundsAlways(c, toggleKey, Next(c, toggleKey, s, ms[0]), ms[1..]);
    }
  }

  lemma {:induction false} DistinctFit(xs: seq<nat>, ys: set<nat>)
    requires forall i :: 0 <= i < |xs| ==> xs[i] in ys
    requires forall i, j :: 0 <= i < j < |xs| ==> xs[i] != xs[j]
    ensures |xs| <= |ys|
  {
    if xs != [] {
      var rest := xs[1..];
      forall i | 0 <= i < |rest| ensures rest[i] in ys - {xs[0]} {
        assert rest[i] == xs[i + 1];
      }
      DistinctFit(rest, ys - {xs[0]});
    }
  }

  /** Over every interleaving of readers, hotkeys, commands and forced releases: between a
      release and the next successful grab, at most as many events enter the Reporter as
      readers had passed their check at the release, at most one from each. With none, the
      Reporter is neutral and has sent nothing since the end of the release. */
  lemma {:induction false} CheckThenActBound(c: Config, toggleKey: int, devs: seq<Device>, ms: seq<Move>)
    requires Feasible(c, toggleKey, Start(devs), ms)
    ensures var s := Run(c, toggleKey, Start(devs), ms);
            !s.k.grabbed ==>
              && |s.entered| <= |s.atRelease|
              && (forall i :: 0 <= i < |s.entered| ==> s.entered[i] in s.atRelease)
              && (forall i, j :: 0 <= i < j < |s.entered| ==> s.entered[i] != s.entered[j])
              && (s.atRelease == {} && s.pending == Nothing ==> s.r == Reaction(NEUTRAL, s.base))
  {
    BoundsAlways(c, toggleKey, Start(devs), ms);
    var s := Run(c, toggleKey, Start(devs), ms);
    if !s.k.grabbed {
      DistinctFit(s.entered, s.atRelease);
    }
  }

  // ---- What the target is left with ----

  /** A late event may leave motion or a button behind, but not both, so that no tick presses
      a button. */
  predicate Harmless(s: RState) {
    Motionless(s) || s.buttons == 0
  }

  /** After a voluntary release with at most one reader past its check: the target is neutral,
      and the one late event there can be is not enough to change that. */
  predicate NeutralBound(s: State) {
    !s.k.grabbed && s.voluntary && |s.atRelease| <= 1 && s.pending == Nothing ==>
      && NeutralTarget(s.r.out)
      && (s.r.s == NEUTRAL || (s.entered != [] && Harmless(s.r.s)))
  }

  lemma {:induction false} OneLateEvent(c: Config, r: Reaction, e: Event)
    requires r.s == NEUTRAL
    ensures var r' := Extend(c, r, Ev(e)); r'.out == r.out && Harmless(r'.s)
  {
    assert r.out + [] == r.out;
    if e.typ == EV_KEY {
      KeyHeld(c, r.s, Ev(e));
      KeyEffect(r.s, Lookup(e.code), e.value);
    }
  }

  lemma {:induction false} TickIsHarmless(c: Config, r: Reaction)
    requires NeutralTarget(r.out) && Harmless(r.s)
    ensures var r' := Extend(c, r, Item.Tick);
            NeutralTarget(r'.out) && Harmless(r'.s) && (r.s == NEUTRAL ==> r'.s == NEUTRAL)
  {
    assert r.out + [] == r.out;
    LastAppend(r.out, FlushMouse(c, r.s).out[0]);
  }

  /** The only reader that can be late has not been. */
  lemma {:induction false} OnlyOneCanEnter(s: State, i: nat)
    requires LateBound(s) && !s.k.grabbed && |s.atRelease| <= 1
    requires i < |s.readers| && s.readers[i].Passed?
    ensures s.entered == []
  {
    if s.entered != [] {
      assert s.entered[0] in s.entered;
      assert {i, s.entered[0]} <= s.atRelease && i != s.entered[0];
      SubsetSize({i, s.entered[0]}, s.atRelease);
    }
  }

  lemma {:induction false} SubsetSize(a: set<nat>, b: set<nat>)
    requires a <= b
    ensures |a| <= |b|
  {
    assert b == a + (b - a);
  }

  lemma {:induction false} NeutralStep(c: Config, toggleKey: int, s: State, m: Move)
    requires Enabled(s, m) && LateBound(s) && QuietBound(s) && NeutralBound(s)
    ensures NeutralBound(Next(c, toggleKey, s, m))
  {
    match m
    case Enter(i) =>
      if !s.k.grabbed && |s.atRelease| <= 1 && s.voluntary && s.pending == Nothing {
        OnlyOneCanEnter(s, i);
        OneLateEvent(c, s.r, s.readers[i].e);
      }
    case Timer =>
      if !s.k.grabbed && |s.atRelease| <= 1 && s.voluntary && s.pending == Nothing {
        TickIsHarmless(c, s.r);
      }
    case Finish => ResetNeutralises(s.r.out);
    case _ =>
  }

  lemma {:induction false} NeutralAlways(c: Config, toggleKey: int, s: State, ms: seq<Move>)
    requires Feasible(c, toggleKey, s, ms) && LateBound(s) && QuietBound(s) && NeutralBound(s)
    ensures NeutralBound(Run(c, toggleKey, s, ms))
    decreases |ms|
  {
    if ms != [] {
      LateStep(c, toggleKey, s, ms[0]);
      QuietStep(c, toggleKey, s, ms[0]);
      NeutralStep(c, toggleKey, s, ms[0]);
      NeutralAlways(c, toggleKey, Next(c, toggleKey, s, ms[0]), ms[1..]);
    }
  }

  /** A voluntary release with n readers past their check is over. */
  predicate Released(s: State, n: nat) {
    !s.k.grabbed && s.pending == Nothing && s.voluntary && |s.atRelease| == n
  }

  /** Over every interleaving the target has no key and no button down from then on, until the
      next successful grab. */
  ghost predicate StaysNeutral(c: Config, toggleKey: int, n: nat) {
    forall devs, ms ::
      UniquePaths(devs) && Feasible(c, toggleKey, Start(devs), ms) && Released(Run(c, toggleKey, Start(devs), ms), n) ==>
        NeutralTarget(Run(c, toggleKey, Start(devs), ms).r.out)
  }

  /** The exact bound for a target without stuck keys and buttons: one late reader. */
  lemma {:induction false} NeutralIffOneLate(c: Config, toggleKey: int, n: nat)
    ensures StaysNeutral(c, toggleKey, n) <==> n <= 1
  {
    if n <= 1 {
      forall devs, ms | Feasible(c, toggleKey, Start(devs), ms) && Released(Run(c, toggleKey, Start(devs), ms), n)
        ensures NeutralTarget(Run(c, toggleKey, Start(devs), ms).r.out)
      {
        NeutralAlways(c, toggleKey, Start(devs), ms);
      }
    } else {
      var devs := Nodes(n);
      var ms := StuckRun(c, toggleKey, n);
      assert UniquePaths(devs);
      assert !NeutralTarget(Run(c, toggleKey, Start(devs), ms).r.out);
    }
  }

  /** The grab invariant survives every interleaving too. */
  lemma {:induction false} GrabInvariantInterleaved(c: Config, toggleKey: int, s: State, ms: seq<Move>)
    requires Feasible(c, toggleKey, s, ms) && GrabInvariant(s.k)
    ensures GrabInvariant(Run(c, toggleKey, s, ms).k)
    decreases |ms|
  {
    if ms != [] {
      var m := ms[0];
      match m {
        case Read(_, e, failAt) => PerformKeeps(s.k, toggleKey, OnEvent(e, failAt));
        case Lose(_, d) => PerformKeeps(s.k, toggleKey, OnDeviceLost(d));
        case Track(d) => PerformKeeps(s.k, toggleKey, OnTrack(d));
        case Command(call) => PerformKeeps(s.k, toggleKey, call);
        case _ =>
      }
      GrabInvariantInterleaved(c, toggleKey, Next(c, toggleKey, s, m), ms[1..]);
    }
  }

  // ---- What the race can do ----

  /** A key that is not the toggle key, and its usage. */
  function SpareKey(toggleKey: int): int {
    if toggleKey == 30 then 48 else 30
  }

  function SpareUsage(toggleKey: int): int {
    if toggleKey == 30 then 0x05 else 0x04
  }

  /** The first reader is late with a key press, the others with the end of a frame. */
  function LateEvent(toggleKey: int, i: nat): Event {
    if i == 0 then Event(EV_KEY, SpareKey(toggleKey), KEY_DOWN) else Event(EV_SYN, 0, 0)
  }

  lemma {:induction false} RunCons(c: Config, toggleKey: int, s: State, m: Move, ms: seq<Move>)
    requires Enabled(s, m) && Feasible(c, toggleKey, Next(c, toggleKey, s, m), ms)
    ensures Feasible(c, toggleKey, s, [m] + ms)
    ensures Run(c, toggleKey, s, [m] + ms) == Run(c, toggleKey, Next(c, toggleKey, s, m), ms)
  {
    assert ([m] + ms)[1..] == ms;
  }

  lemma {:induction false} RunThen(c: Config, toggleKey: int, s: State, a: seq<Move>, b: seq<Move>)
    requires Feasible(c, toggleKey, s, a) && Feasible(c, toggleKey, Run(c, toggleKey, s, a), b)
    ensures Feasible(c, toggleKey, s, a + b)
    ensures Run(c, toggleKey, s, a + b) == Run(c, toggleKey, Run(c, toggleKey, s, a), b)
    decreases |a|
  {
    if a == [] {
      assert a + b == b;
    } else {
      assert (a + b)[1..] == a[1..] + b;
      RunThen(c, toggleKey, Next(c, toggleKey, s, a[0]), a[1..], b);
    }
  }

  /** The readers from i up to n are past their check with their late events. */
  function Passing(toggleKey: int, readers: seq<Phase>, i: nat, n: nat): seq<Phase> {
    seq(|readers|, j requires 0 <= j < |readers| =>
      if i <= j < n then Passed(LateEvent(toggleKey, j)) else readers[j])
  }

  /** While grabbed, the readers from i up to n can get past their check. */
  lemma {:induction false} SomePass(c: Config, toggleKey: int, s: State, i: nat, n: nat) returns (ms: seq<Move>)
    requires s.k.grabbed && s.pending == Nothing && i <= n <= |s.readers|
    requires forall j :: i <= j < n ==> s.readers[j].Idle?
    ensures Feasible(c, toggleKey, s, ms)
    ensures Run(c, toggleKey, s, ms) == s.(readers := Passing(toggleKey, s.readers, i, n))
    decreases n - i
  {
    if i == n {
      ms := [];
      assert Passing(toggleKey, s.readers, i, n) == s.readers;
    } else {
      var e := LateEvent(toggleKey, i);
      var s1 := s.(readers := s.readers[i := Handled(e)]);
      var s2 := s.(readers := s.readers[i := Passed(e)]);
      ReadThenCheck(c, toggleKey, s, i, e);
      assert s1.readers[i := Passed(e)] == s2.readers;
      var rest := SomePass(c, toggleKey, s2, i + 1, n);
      assert Passing(toggleKey, s2.readers, i + 1, n) == Passing(toggleKey, s.readers, i, n);
      RunCons(c, toggleKey, s1, Check(i), rest);
      RunCons(c, toggleKey, s, Read(i, e, 0), [Check(i)] + rest);
      ms := [Read(i, e, 0)] + ([Check(i)] + rest);
    }
  }

  lemma {:induction false} ReadThenCheck(c: Config, toggleKey: int, s: State, i: nat, e: Event)
    requires s.k.grabbed && s.pending == Nothing && i < |s.readers| && s.readers[i].Idle? && !IsToggle(toggleKey, e)
    ensures var s1 := s.(readers := s.readers[i := Handled(e)]);
            && Enabled(s, Read(i, e, 0)) && Next(c, toggleKey, s, Read(i, e, 0)) == s1
            && Enabled(s1, Check(i)) && Next(c, toggleKey, s1, Check(i)) == s1.(readers := s1.readers[i := Passed(e)])
  {
  }

  function Nodes(n: nat): (devs: seq<Device>)
    ensures |devs| == n && UniquePaths(devs)
  {
    var devs := seq(n, i requires 0 <= i < n => Device(seq(i, _ => 'e'), i));
    assert forall i :: 0 <= i < n ==> |devs[i].path| == i;
    devs
  }

  /** The grab is taken, every reader gets past its check, the grab is given back, and only
      then do a key press and the end of its frame reach the Reporter. */
  lemma {:induction false} StuckRun(c: Config, toggleKey: int, n: nat) returns (ms: seq<Move>)
    requires n >= 2
    ensures Feasible(c, toggleKey, Start(Nodes(n)), ms)
    ensures var s := Run(c, toggleKey, Start(Nodes(n)), ms); Released(s, n) && !NeutralTarget(s.r.out)
  {
    var s0 := Start(Nodes(n));
    var take := TakesGrab(c, toggleKey, Nodes(n));
    var s1 := Run(c, toggleKey, s0, take);
    var pass := SomePass(c, toggleKey, s1, 0, n);
    var s2 := Run(c, toggleKey, s1, pass);
    AllArePassed(s2.readers);
    var stick := LateReadersStickAKey(c, toggleKey, s2);
    RunThen(c, toggleKey, s1, pass, stick);
    RunThen(c, toggleKey, s0, take, pass + stick);
    ms := take + (pass + stick);
  }

  lemma {:induction false} TakesGrab(c: Config, toggleKey: int, devs: seq<Device>) returns (take: seq<Move>)
    ensures Feasible(c, toggleKey, Start(devs), take)
    ensures var s := Run(c, toggleKey, Start(devs), take);
            s.k.grabbed && s.pending == Nothing && s.readers == Start(devs).readers
  {
    var s1 := Next(c, toggleKey, Start(devs), Command(OnToggle(|devs|)));
    RunCons(c, toggleKey, s1, Finish, []);
    RunCons(c, toggleKey, Start(devs), Command(OnToggle(|devs|)), [Finish] + []);
    take := [Command(OnToggle(|devs|))] + ([Finish] + []);
  }

  lemma {:induction false} AllArePassed(readers: seq<Phase>)
    requires forall i :: 0 <= i < |readers| ==> readers[i].Passed?
    ensures |PassedReaders(readers)| == |readers|
  {
    if readers != [] {
      var n := |readers| - 1;
      AllArePassed(readers[..n]);
      assert PassedReaders(readers) == PassedReaders(readers[..n]) + {n};
    }
  }

  /** The user gives the grab back. After that has run to its end, two late readers can still
      press a key on the target, which nothing releases until the next grab. */
  lemma {:induction false} LateReadersStickAKey(c: Config, toggleKey: int, s: State) returns (ms: seq<Move>)
    requires s.k.grabbed && s.pending == Nothing && |s.readers| >= 2
    requires s.readers[0] == Passed(LateEvent(toggleKey, 0)) && s.readers[1] == Passed(LateEvent(toggleKey, 1))
    ensures Feasible(c, toggleKey, s, ms)
    ensures var s' := Run(c, toggleKey, s, ms);
            && Released(s', |PassedReaders(s.readers)|) && !NeutralTarget(s'.r.out)
            && LastKeyboard(s'.r.out) == KeyboardReport(0, [SpareUsage(toggleKey)])
  {
    var s1 := Next(c, toggleKey, s, Command(OnToggle(0)));
    var s2 := Next(c, toggleKey, s1, Finish);
    assert s2.r.s == NEUTRAL && s2.readers == s.readers && !s2.k.grabbed;
    var s3 := Next(c, toggleKey, s2, Enter(0));
    PressingSpare(c, toggleKey, s2.r);
    var s4 := Next(c, toggleKey, s3, Enter(1));
    EndingFrame(c, SpareUsage(toggleKey), s3.r);
    RunCons(c, toggleKey, s3, Enter(1), []);
    RunCons(c, toggleKey, s2, Enter(0), [Enter(1)] + []);
    RunCons(c, toggleKey, s1, Finish, [Enter(0)] + ([Enter(1)] + []));
    RunCons(c, toggleKey, s, Command(OnToggle(0)), [Finish] + ([Enter(0)] + ([Enter(1)] + [])));
    ms := [Command(OnToggle(0))] + ([Finish] + ([Enter(0)] + ([Enter(1)] + [])));
  }

  lemma {:induction false} PressingSpare(c: Config, toggleKey: int, r: Reaction)
    requires r.s == NEUTRAL
    ensures Extend(c, r, Ev(LateEvent(toggleKey, 0)))
         == Reaction(NEUTRAL.(keys := [SpareUsage(toggleKey)], kbdDirty := true), r.out)
  {
    assert r.out + [] == r.out;
    assert Lookup(SpareKey(toggleKey)) == Entry(0, 0, SpareUsage(toggleKey));
  }

  lemma {:induction false} EndingFrame(c: Config, usage: int, r: Reaction)
    requires r.s == NEUTRAL.(keys := [usage], kbdDirty := true) && 0 < usage < 256
    ensures var out := Extend(c, r, Ev(Event(EV_SYN, 0, 0))).out;
            LastKeyboard(out) == KeyboardReport(0, [usage]) && !NeutralTarget(out)
  {
    LastAppend(r.out, Keyboard(KeyboardReport(0, [usage])));
    SynSendsKeys(c, r.s);
    OneKeyShows(usage);
  }

  lemma {:induction false} SynSendsKeys(c: Config, s: RState)
    requires s.kbdDirty && !s.mouseDirty && !s.mouseBtn
    ensures OnSyn(c, s).out == [Keyboard(KeyboardReport(s.mods, s.keys))]
  {
  }

  lemma {:induction false} OneKeyShows(usage: int)
    requires 0 < usage < 256
    ensures KeyboardReport(0, [usage]) != KeyboardReport(0, [])
  {
    assert KeyboardReport(0, [usage])[2] == LowByte(usage) && KeyboardReport(0, [])[2] == 0;
  }
}
