/** The interleaved model takes every step that the model with events in one piece takes. */
module KvmAtomic {
  import opened Reporting
  import opened Kvm
  import opened KvmInput
  import opened KvmRaces

  /** Between critical sections, with reader i waiting for its next event. */
  predicate Ready(s: State, i: nat) {
    s.pending == Nothing && i < |s.readers| && s.readers[i].Idle?
  }

  function WorldOf(s: State): World {
    World(s.k, s.r)
  }

  /** What a call that changed the grab still owes the Reporter: nothing sent when it was forced,
      a reset when it was asked for. */
  lemma {:induction false} SectionOwes(s: State, toggleKey: int, call: Call)
    ensures var s' := Section(s, Perform(s.k, toggleKey, call));
            && s'.k == Perform(s.k, toggleKey, call).k && s'.r == s.r && s'.readers == s.readers
            && s'.pending == (if s'.k.grabbed == s.k.grabbed then Nothing
                              else if call.OnForceRelease? || call.OnDeviceLost? then DoClear else DoReset)
  {
  }

  /** A critical section runs to its end: the controller has done the call, and the Reporter has
      been reset, cleared or left alone. */
  lemma {:induction false} Completes(c: Config, toggleKey: int, s: State, call: Call) returns (ms: seq<Move>)
    requires s.pending == Nothing
    ensures var s1 := Section(s, Perform(s.k, toggleKey, call));
            && Feasible(c, toggleKey, s1, ms)
            && var s' := KvmRaces.Run(c, toggleKey, s1, ms);
               && WorldOf(s') == Step(c, toggleKey, WorldOf(s), Control(call))
               && s'.pending == Nothing && s'.readers == s.readers
  {
    var s1 := Section(s, Perform(s.k, toggleKey, call));
    if s1.pending == Nothing {
      ms := [];
    } else {
      ms := [Finish] + [];
      RunCons(c, toggleKey, s1, Finish, []);
    }
  }

  /** A command, a forced release, a hook. */
  lemma {:induction false} CommandTaken(c: Config, toggleKey: int, s: State, call: Call) returns (ms: seq<Move>)
    requires s.pending == Nothing && (call.OnSetGrab? || call.OnToggle? || call.OnForceRelease? || call.OnHook?)
    ensures Feasible(c, toggleKey, s, ms)
    ensures var s' := KvmRaces.Run(c, toggleKey, s, ms);
            && WorldOf(s') == Step(c, toggleKey, WorldOf(s), Control(call))
            && s'.pending == Nothing && s'.readers == s.readers
  {
    var rest := Completes(c, toggleKey, s, call);
    RunCons(c, toggleKey, s, Command(call), rest);
    ms := [Command(call)] + rest;
  }

  /** A loss, reported by a reader, which ends. */
  lemma {:induction false} LossTaken(c: Config, toggleKey: int, s: State, i: nat, d: Device) returns (ms: seq<Move>)
    requires Ready(s, i)
    ensures Feasible(c, toggleKey, s, ms)
    ensures var s' := KvmRaces.Run(c, toggleKey, s, ms);
            && WorldOf(s') == Step(c, toggleKey, WorldOf(s), Control(OnDeviceLost(d)))
            && s'.pending == Nothing && s'.readers == s.readers[i := Gone]
  {
    var s1 := KvmRaces.Next(c, toggleKey, s, Lose(i, d));
    if s1.pending == Nothing {
      ms := [Lose(i, d)] + [];
      RunCons(c, toggleKey, s, Lose(i, d), []);
    } else {
      ms := [Lose(i, d)] + ([Finish] + []);
      RunCons(c, toggleKey, s1, Finish, []);
      RunCons(c, toggleKey, s, Lose(i, d), [Finish] + []);
    }
  }

  /** A hot-plug, with a reader for a device that is new. */
  lemma {:induction false} HotPlugTaken(c: Config, toggleKey: int, s: State, d: Device) returns (ms: seq<Move>)
    requires s.pending == Nothing
    ensures Feasible(c, toggleKey, s, ms)
    ensures var s' := KvmRaces.Run(c, toggleKey, s, ms);
            && WorldOf(s') == Step(c, toggleKey, WorldOf(s), Control(OnTrack(d)))
            && s'.pending == Nothing
            && s'.readers == s.readers + (if Tracks(s.k.devs, d.path) then [] else [Idle])
  {
    ms := [Track(d)] + [];
    RunCons(c, toggleKey, s, Track(d), []);
  }

  /** An event in one piece: read, the toggle carried out or the check passed, and forwarded. */
  lemma {:induction false} EventTaken(c: Config, toggleKey: int, s: State, i: nat, e: Event, failAt: nat)
    returns (ms: seq<Move>)
    requires Ready(s, i)
    ensures Feasible(c, toggleKey, s, ms)
    ensures var s' := KvmRaces.Run(c, toggleKey, s, ms);
            && WorldOf(s') == Step(c, toggleKey, WorldOf(s), Input(e, failAt))
            && s'.pending == Nothing && s'.readers == s.readers
  {
    if e.typ == EV_KEY && e.code == toggleKey {
      ms := ToggleTaken(c, toggleKey, s, i, e, failAt);
    } else {
      ms := OtherTaken(c, toggleKey, s, i, e, failAt);
    }
  }

  lemma {:induction false} ToggleTaken(c: Config, toggleKey: int, s: State, i: nat, e: Event, failAt: nat)
    returns (ms: seq<Move>)
    requires Ready(s, i) && e.typ == EV_KEY && e.code == toggleKey
    ensures Feasible(c, toggleKey, s, ms)
    ensures var s' := KvmRaces.Run(c, toggleKey, s, ms);
            && WorldOf(s') == Step(c, toggleKey, WorldOf(s), Input(e, failAt))
            && s'.pending == Nothing && s'.readers == s.readers
  {
    var s1 := KvmRaces.Next(c, toggleKey, s, Read(i, e, failAt));
    assert s.readers[i := Idle] == s.readers;
    assert s1 == Section(s, Perform(s.k, toggleKey, OnEvent(e, failAt)));
    var rest := Completes(c, toggleKey, s, OnEvent(e, failAt));
    RunCons(c, toggleKey, s, Read(i, e, failAt), rest);
    ms := [Read(i, e, failAt)] + rest;
  }

  lemma {:induction false} OtherTaken(c: Config, toggleKey: int, s: State, i: nat, e: Event, failAt: nat)
    returns (ms: seq<Move>)
    requires Ready(s, i) && !(e.typ == EV_KEY && e.code == toggleKey)
    ensures Feasible(c, toggleKey, s, ms)
    ensures var s' := KvmRaces.Run(c, toggleKey, s, ms);
            && WorldOf(s') == Step(c, toggleKey, WorldOf(s), Input(e, failAt))
            && s'.pending == Nothing && s'.readers == s.readers
  {
    var s1 := KvmRaces.Next(c, toggleKey, s, Read(i, e, failAt));
    var s2 := KvmRaces.Next(c, toggleKey, s1, Check(i));
    assert s1.k == s.k && s1.r == s.r && s1.readers == s.readers[i := Handled(e)];
    if s.k.grabbed {
      RunCons(c, toggleKey, s2, Enter(i), []);
      RunCons(c, toggleKey, s1, Check(i), [Enter(i)] + []);
      RunCons(c, toggleKey, s, Read(i, e, failAt), [Check(i)] + ([Enter(i)] + []));
      ms := [Read(i, e, failAt)] + ([Check(i)] + ([Enter(i)] + []));
    } else {
      RunCons(c, toggleKey, s1, Check(i), []);
      RunCons(c, toggleKey, s, Read(i, e, failAt), [Check(i)] + []);
      ms := [Read(i, e, failAt)] + ([Check(i)] + []);
    }
  }

  /** A tick. */
  lemma {:induction false} TickTaken(c: Config, toggleKey: int, s: State)
    ensures var s' := KvmRaces.Next(c, toggleKey, s, Move.Timer);
            WorldOf(s') == Step(c, toggleKey, WorldOf(s), Happening.Timer) && s'.pending == s.pending
  {
  }

  // ---- Whole runs ----

  /** The losses in a run. */
  function Losses(hs: seq<Happening>): nat {
    if hs == [] then 0 else (if IsLoss(hs[0]) then 1 else 0) + Losses(hs[1..])
  }

  predicate IsLoss(h: Happening) {
    h.Control? && h.call.OnDeviceLost?
  }

  /** Between critical sections, with more than n readers, from reader i on, that wait. */
  predicate Spare(s: State, i: nat, n: nat) {
    && s.pending == Nothing
    && i + n < |s.readers|
    && forall j :: i <= j < |s.readers| ==> s.readers[j].Idle?
  }

  /** One happening; only a loss costs a reader. */
  lemma {:induction false} HappeningTaken(c: Config, toggleKey: int, s: State, i: nat, n: nat, h: Happening)
    returns (ms: seq<Move>)
    requires Spare(s, i, n) && !(h.Control? && h.call.OnEvent?) && (IsLoss(h) ==> n > 0)
    ensures Feasible(c, toggleKey, s, ms)
    ensures var s' := KvmRaces.Run(c, toggleKey, s, ms);
            && WorldOf(s') == Step(c, toggleKey, WorldOf(s), h)
            && (if IsLoss(h) then Spare(s', i + 1, n - 1) else Spare(s', i, n))
  {
    match h
    case Input(e, failAt) => ms := EventTaken(c, toggleKey, s, i, e, failAt);
    case Timer =>
      ms := [Move.Timer] + [];
      RunCons(c, toggleKey, s, Move.Timer, []);
      TickTaken(c, toggleKey, s);
    case Control(OnDeviceLost(d)) => ms := LossTaken(c, toggleKey, s, i, d);
    case Control(OnTrack(d)) => ms := HotPlugTaken(c, toggleKey, s, d);
    case Control(call) => ms := CommandTaken(c, toggleKey, s, call);
  }

  /** Every run with events in one piece, in which some reader survives the losses, is a run of
      the interleaved model: the same controller, the same Reporter, the same reports. */
  lemma {:induction false} AtomicRunTaken(c: Config, toggleKey: int, s: State, i: nat, hs: seq<Happening>)
    returns (ms: seq<Move>)
    requires Spare(s, i, Losses(hs))
    requires forall j :: 0 <= j < |hs| ==> !(hs[j].Control? && hs[j].call.OnEvent?)
    ensures Feasible(c, toggleKey, s, ms)
    ensures WorldOf(KvmRaces.Run(c, toggleKey, s, ms)) == Steps(c, toggleKey, WorldOf(s), hs)
    decreases |hs|
  {
    if hs == [] {
      ms := [];
    } else {
      var first := HappeningTaken(c, toggleKey, s, i, Losses(hs), hs[0]);
      var s1 := KvmRaces.Run(c, toggleKey, s, first);
      var rest := AtomicRunTaken(c, toggleKey, s1, if IsLoss(hs[0]) then i + 1 else i, hs[1..]);
      RunThen(c, toggleKey, s, first, rest);
      ms := first + rest;
    }
  }

  // ---- The controller's calls ----

  /** The calls a run makes, in the order in which they get the lock. */
  function CallsOf(ms: seq<Move>): seq<Call> {
    if ms == [] then [] else CallsIn(ms[0]) + CallsOf(ms[1..])
  }

  function CallsIn(m: Move): seq<Call> {
    match m
    case Read(_, e, failAt) => if e.typ == EV_KEY then [OnEvent(e, failAt)] else []
    case Lose(_, d) => [OnDeviceLost(d)]
    case Track(d) => [OnTrack(d)]
    case Command(call) => [call]
    case _ => []
  }

  lemma {:induction false} CallOfMove(c: Config, toggleKey: int, s: State, m: Move)
    requires Enabled(s, m)
    ensures KvmRaces.Next(c, toggleKey, s, m).k == PerformAll(s.k, toggleKey, CallsIn(m))
  {
    if CallsIn(m) != [] {
      assert CallsIn(m)[1..] == [];
    }
  }

  /** Over every interleaving the controller is where its calls, one after the other, take it. */
  lemma {:induction false} CallsInOrder(c: Config, toggleKey: int, s: State, ms: seq<Move>)
    requires Feasible(c, toggleKey, s, ms)
    ensures KvmRaces.Run(c, toggleKey, s, ms).k == PerformAll(s.k, toggleKey, CallsOf(ms))
    decreases |ms|
  {
    if ms != [] {
      var s1 := KvmRaces.Next(c, toggleKey, s, ms[0]);
      CallOfMove(c, toggleKey, s, ms[0]);
      CallsInOrder(c, toggleKey, s1, ms[1..]);
      PerformConcat(s.k, toggleKey, CallsIn(ms[0]), CallsOf(ms[1..]));
    }
  }

  lemma {:induction false} PerformConcat(k: Core, toggleKey: int, a: seq<Call>, b: seq<Call>)
    ensures PerformAll(k, toggleKey, a + b) == PerformAll(PerformAll(k, toggleKey, a), toggleKey, b)
    decreases |a|
  {
    if a == [] {
      assert a + b == b;
    } else {
      assert (a + b)[1..] == a[1..] + b;
      PerformConcat(Perform(k, toggleKey, a[0]).k, toggleKey, a[1..], b);
    }
  }
}
