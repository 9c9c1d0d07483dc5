/** What the target holds while readers interleave: it is always what has entered the Reporter
    since the grab, and that may include late events from before it. */
module KvmMirror {
  import opened Bytes
  import Wire
  import Parsing
  import opened Reporting
  import opened KeyboardProperties
  import opened MotionProperties
  import opened Kvm
  import opened KvmInput
  import opened KvmRaces
  import opened Pipeline
  import opened WholeRun

  function ItemsOf(arrived: seq<Arrival>): seq<Item> {
    seq(|arrived|, i requires 0 <= i < |arrived| => arrived[i].i)
  }

  /** The items that are not late. */
  function FreshOf(arrived: seq<Arrival>): seq<Item> {
    if arrived == [] then []
    else
      var last := arrived[|arrived| - 1];
      FreshOf(arrived[..|arrived| - 1]) + if last.late then [] else [last.i]
  }

  function LateCount(arrived: seq<Arrival>): nat {
    if arrived == [] then 0
    else LateCount(arrived[..|arrived| - 1]) + if arrived[|arrived| - 1].late then 1 else 0
  }

  lemma {:induction false} ArrivedAppend(arrived: seq<Arrival>, a: Arrival)
    ensures ItemsOf(arrived + [a]) == ItemsOf(arrived) + [a.i]
    ensures LateCount(arrived + [a]) == LateCount(arrived) + if a.late then 1 else 0
  {
    assert (arrived + [a])[..|arrived|] == arrived;
  }

  lemma {:induction false} AllFresh(arrived: seq<Arrival>)
    requires LateCount(arrived) == 0
    ensures FreshOf(arrived) == ItemsOf(arrived)
  {
    if arrived != [] {
      var before := arrived[..|arrived| - 1];
      AllFresh(before);
      ArrivedAppend(before, arrived[|arrived| - 1]);
      assert arrived == before + [arrived[|arrived| - 1]];
    }
  }

  // ---- The invariant ----

  /** The grab is on and its critical section is over. */
  predicate Holding(s: State) {
    s.k.grabbed && s.pending == Nothing
  }

  /** The Reporter is where the arrivals take it from a reset, and what it sent last is what
      they make it send. */
  predicate Follows(c: Config, s: State) {
    Holding(s) ==>
      s.r.s == Since(c, ItemsOf(s.arrived)).s && EndsWith(s.r.out, Since(c, ItemsOf(s.arrived)).out)
  }

  /** Only readers past their check at the grab are ever late, each once. */
  predicate LateFew(s: State) {
    && |s.carried| <= |s.atGrab|
    && (Holding(s) ==> LateCount(s.arrived) + |s.carried| <= |s.atGrab|)
    && (forall i :: i in s.carried ==> i < |s.readers| && s.readers[i].Passed?)
    && (s.k.grabbed ==> s.pending != DoClear)
  }

  lemma {:induction false} EnterFollows(c: Config, toggleKey: int, s: State, i: nat)
    requires Enabled(s, Enter(i)) && Follows(c, s) && LateFew(s)
    ensures var s' := KvmRaces.Next(c, toggleKey, s, Enter(i)); Follows(c, s') && LateFew(s')
  {
    var e := Ev(s.readers[i].e);
    ArrivedAppend(s.arrived, Arrival(e, i in s.carried));
    if Holding(s) { ExtendInStep(c, s.r, ItemsOf(s.arrived), e); }
    assert i !in s.carried ==> s.carried - {i} == s.carried;
  }

  lemma {:induction false} TimerFollows(c: Config, toggleKey: int, s: State)
    requires Follows(c, s) && LateFew(s)
    ensures var s' := KvmRaces.Next(c, toggleKey, s, Move.Timer); Follows(c, s') && LateFew(s')
  {
    ArrivedAppend(s.arrived, Arrival(Item.Tick, false));
    if Holding(s) { ExtendInStep(c, s.r, ItemsOf(s.arrived), Item.Tick); }
  }

  lemma {:induction false} FinishFollows(c: Config, toggleKey: int, s: State)
    requires Enabled(s, Finish) && LateFew(s)
    ensures var s' := KvmRaces.Next(c, toggleKey, s, Finish); Follows(c, s') && LateFew(s')
  {
    assert ItemsOf([]) == [];
  }

  /** A critical section up to its Reporter call. */
  lemma {:induction false} SectionFollows(c: Config, toggleKey: int, s: State, call: Call)
    requires s.pending == Nothing && Follows(c, s) && LateFew(s)
    ensures var s' := Section(s, Perform(s.k, toggleKey, call)); Follows(c, s') && LateFew(s')
  {
  }

  lemma {:induction false} ReadFollows(c: Config, toggleKey: int, s: State, i: nat, e: Event, failAt: nat)
    requires Enabled(s, Read(i, e, failAt)) && Follows(c, s) && LateFew(s)
    ensures var s' := KvmRaces.Next(c, toggleKey, s, Read(i, e, failAt)); Follows(c, s') && LateFew(s')
  {
    if e.typ == EV_KEY { SectionFollows(c, toggleKey, s, OnEvent(e, failAt)); }
  }

  lemma {:induction false} LoseFollows(c: Config, toggleKey: int, s: State, i: nat, d: Device)
    requires Enabled(s, Lose(i, d)) && Follows(c, s) && LateFew(s)
    ensures var s' := KvmRaces.Next(c, toggleKey, s, Lose(i, d)); Follows(c, s') && LateFew(s')
  {
    SectionFollows(c, toggleKey, s, OnDeviceLost(d));
  }

  lemma {:induction false} StepFollows(c: Config, toggleKey: int, s: State, m: Move)
    requires Enabled(s, m) && Follows(c, s) && LateFew(s)
    ensures var s' := KvmRaces.Next(c, toggleKey, s, m); Follows(c, s') && LateFew(s')
  {
    match m
    case Read(i, e, failAt) => ReadFollows(c, toggleKey, s, i, e, failAt);
    case Check(_) =>
    case Enter(i) => EnterFollows(c, toggleKey, s, i);
    case Lose(i, d) => LoseFollows(c, toggleKey, s, i, d);
    case Track(_) =>
    case Command(call) => SectionFollows(c, toggleKey, s, call);
    case Finish => FinishFollows(c, toggleKey, s);
    case Timer => TimerFollows(c, toggleKey, s);
  }

  /** Over every interleaving: while grabbed the Reporter is where the events and ticks that
      entered it since the grab take it from a reset; and at most as many of those are late as
      readers had passed their check before the grab. */
  lemma {:induction false} FollowsAlways(c: Config, toggleKey: int, s: State, ms: seq<Move>)
    requires Feasible(c, toggleKey, s, ms) && Follows(c, s) && LateFew(s)
    ensures Follows(c, KvmRaces.Run(c, toggleKey, s, ms)) && LateFew(KvmRaces.Run(c, toggleKey, s, ms))
    decreases |ms|
  {
    if ms != [] {
      StepFollows(c, toggleKey, s, ms[0]);
      FollowsAlways(c, toggleKey, KvmRaces.Next(c, toggleKey, s, ms[0]), ms[1..]);
    }
  }

  lemma {:induction false} SentSendable(c: Config, toggleKey: int, s: State, ms: seq<Move>)
    requires Feasible(c, toggleKey, s, ms) && AllSendable(s.r.out)
    ensures AllSendable(KvmRaces.Run(c, toggleKey, s, ms).r.out)
    decreases |ms|
  {
    if ms != [] {
      match ms[0] {
        case Enter(i) => ItemSends(c, s.r.s, Ev(s.readers[i].e));
        case Timer => ItemSends(c, s.r.s, Item.Tick);
        case _ =>
      }
      SentSendable(c, toggleKey, KvmRaces.Next(c, toggleKey, s, ms[0]), ms[1..]);
    }
  }

  /** A SYN has just entered the Reporter, n readers having been past their check at the grab. */
  predicate AtSyn(s: State, n: nat) {
    Holding(s) && |s.atGrab| == n && s.arrived != [] && IsSyn(s.arrived[|s.arrived| - 1].i)
  }

  lemma {:induction false} AtSynMirrors(c: Config, s: State, n: nat)
    requires AtSyn(s, n) && Follows(c, s) && LateFew(s)
    ensures Mirrors(c, s.r.out, ItemsOf(s.arrived)) && LateCount(s.arrived) <= n
  {
    MirrorsAtSyn(c, s.r.out, ItemsOf(s.arrived));
  }

  /** Over every interleaving, and however the link cuts the bytes: after a SYN while grabbed
      the target holds exactly what the events that entered the Reporter since the grab say,
      of which at most as many are late as readers were past their check at the grab. */
  lemma {:induction false} TargetMirrorsArrivals(c: Config, toggleKey: int, devs: seq<Device>, ms: seq<Move>, n: nat,
                                                 p: Parsing.ParserState, buf: Parsing.ChunkBuf, pieces: seq<seq<byte>>)
    requires Feasible(c, toggleKey, Start(devs), ms) && AtSyn(KvmRaces.Run(c, toggleKey, Start(devs), ms), n)
    requires p.st == Parsing.Sync
    requires Flatten(pieces) == Wire.EncodeAll(MsgsOf(KvmRaces.Run(c, toggleKey, Start(devs), ms).r.out))
    ensures var s, got := KvmRaces.Run(c, toggleKey, Start(devs), ms), Parsing.RunPieces(p, buf, pieces).out;
            && (forall i :: 0 <= i < |got| ==> IsReport(got[i]))
            && Mirrors(c, Received(p, buf, pieces), ItemsOf(s.arrived)) && LateCount(s.arrived) <= n
  {
    var s := KvmRaces.Run(c, toggleKey, Start(devs), ms);
    FollowsAlways(c, toggleKey, Start(devs), ms);
    SentSendable(c, toggleKey, Start(devs), ms);
    AtSynMirrors(c, s, n);
    ReceivedMirrors(c, s.r.out, ItemsOf(s.arrived), p, buf, pieces);
  }

  // ---- The toggle key ----

  /** No reader carries an event of the toggle key past handle, and none has arrived. */
  predicate ToggleKept(toggleKey: int, s: State) {
    && (forall i :: 0 <= i < |s.readers| ==> CarriesNoToggle(toggleKey, s.readers[i]))
    && NoToggleKey(toggleKey, ItemsOf(s.arrived))
  }

  predicate CarriesNoToggle(toggleKey: int, p: Phase) {
    p.Handled? || p.Passed? ==> !OfToggleKey(toggleKey, p.e)
  }

  lemma {:induction false} ToggleStep(c: Config, toggleKey: int, s: State, m: Move)
    requires Enabled(s, m) && ToggleKept(toggleKey, s)
    ensures ToggleKept(toggleKey, KvmRaces.Next(c, toggleKey, s, m))
  {
    match m
    case Enter(i) =>
      assert CarriesNoToggle(toggleKey, s.readers[i]);
      ArrivedAppend(s.arrived, Arrival(Ev(s.readers[i].e), i in s.carried));
    case Timer => ArrivedAppend(s.arrived, Arrival(Item.Tick, false));
    case _ =>
  }

  /** Over every interleaving no event of the toggle key enters the Reporter. */
  lemma {:induction false} ToggleNeverArrives(c: Config, toggleKey: int, s: State, ms: seq<Move>)
    requires Feasible(c, toggleKey, s, ms) && ToggleKept(toggleKey, s)
    ensures ToggleKept(toggleKey, KvmRaces.Run(c, toggleKey, s, ms))
    decreases |ms|
  {
    if ms != [] {
      ToggleStep(c, toggleKey, s, ms[0]);
      ToggleNeverArrives(c, toggleKey, KvmRaces.Next(c, toggleKey, s, ms[0]), ms[1..]);
    }
  }

  /** Every other event that is read is checked next, and passes exactly while grabbed. */
  lemma {:induction false} RestIsChecked(c: Config, toggleKey: int, s: State, i: nat, e: Event, failAt: nat)
    requires Enabled(s, Read(i, e, failAt)) && !OfToggleKey(toggleKey, e)
    ensures var s' := KvmRaces.Next(c, toggleKey, s, Read(i, e, failAt));
            && s'.readers == s.readers[i := Handled(e)] && s'.k == s.k && s'.r == s.r
            && (Enabled(s', Check(i)) ==>
                  KvmRaces.Next(c, toggleKey, s', Check(i)).readers[i] == if s.k.grabbed then Passed(e) else Idle)
  {
  }

  /** A device that is new gets a reader of its own, ready to read; no other call adds one. */
  lemma {:induction false} OneReaderEach(c: Config, toggleKey: int, s: State, m: Move)
    requires Enabled(s, m)
    ensures var s' := KvmRaces.Next(c, toggleKey, s, m);
            if m.Track? && !Tracks(s.k.devs, m.d.path) then s'.readers == s.readers + [Idle] && m.d in s'.k.devs
            else |s'.readers| == |s.readers|
  {
    if m.Track? {
      assert m.d in s.k.devs + [m.d];
    }
  }

  /** A reader that lost its device has ended, and stays so: it carries no event and reads none. */
  lemma {:induction false} LostReaderEnds(c: Config, toggleKey: int, s: State, i: nat, d: Device, ms: seq<Move>)
    requires Enabled(s, Lose(i, d)) && Feasible(c, toggleKey, KvmRaces.Next(c, toggleKey, s, Lose(i, d)), ms)
    ensures var s' := KvmRaces.Run(c, toggleKey, KvmRaces.Next(c, toggleKey, s, Lose(i, d)), ms);
            i < |s'.readers| && s'.readers[i].Gone?
  {
    GoneStaysGone(c, toggleKey, KvmRaces.Next(c, toggleKey, s, Lose(i, d)), i, ms);
  }

  lemma {:induction false} GoneStaysGone(c: Config, toggleKey: int, s: State, i: nat, ms: seq<Move>)
    requires i < |s.readers| && s.readers[i].Gone? && Feasible(c, toggleKey, s, ms)
    ensures var s' := KvmRaces.Run(c, toggleKey, s, ms); i < |s'.readers| && s'.readers[i].Gone?
    decreases |ms|
  {
    if ms != [] {
      GoneStaysGone(c, toggleKey, KvmRaces.Next(c, toggleKey, s, ms[0]), i, ms[1..]);
    }
  }

  // ---- When late events show ----

  /** Over every interleaving the target holds what the events that are not late say. */
  ghost predicate MirrorsFresh(c: Config, toggleKey: int, n: nat) {
    forall devs, ms ::
      && UniquePaths(devs) && Feasible(c, toggleKey, Start(devs), ms)
      && AtSyn(KvmRaces.Run(c, toggleKey, Start(devs), ms), n) ==>
        var s := KvmRaces.Run(c, toggleKey, Start(devs), ms);
        Mirrors(c, s.r.out, FreshOf(s.arrived))
  }

  /** The exact bound: no reader at all may be past its check when the grab is taken. */
  lemma {:induction false} FreshIffNoneLate(c: Config, toggleKey: int, n: nat)
    ensures MirrorsFresh(c, toggleKey, n) <==> n == 0
  {
    if n == 0 {
      forall devs, ms |
        Feasible(c, toggleKey, Start(devs), ms) && AtSyn(KvmRaces.Run(c, toggleKey, Start(devs), ms), n)
        ensures var s := KvmRaces.Run(c, toggleKey, Start(devs), ms); Mirrors(c, s.r.out, FreshOf(s.arrived))
      {
        var s := KvmRaces.Run(c, toggleKey, Start(devs), ms);
        FollowsAlways(c, toggleKey, Start(devs), ms);
        AtSynMirrors(c, s, n);
        AllFresh(s.arrived);
      }
    } else {
      var devs := Nodes(n + 1);
      var ms := StaleRun(c, toggleKey, n);
      assert UniquePaths(devs);
      assert !Mirrors(c, KvmRaces.Run(c, toggleKey, Start(devs), ms).r.out,
                      FreshOf(KvmRaces.Run(c, toggleKey, Start(devs), ms).arrived));
    }
  }

  /** n readers pass their check, the first with a key press; the grab is given back and taken
      again; then the press enters, and a SYN read since. The target holds a key that no event
      since the grab has pressed. */
  lemma {:induction false} StaleRun(c: Config, toggleKey: int, n: nat) returns (ms: seq<Move>)
    requires n > 0
    ensures Feasible(c, toggleKey, Start(Nodes(n + 1)), ms)
    ensures var s := KvmRaces.Run(c, toggleKey, Start(Nodes(n + 1)), ms);
            AtSyn(s, n) && !Mirrors(c, s.r.out, FreshOf(s.arrived))
  {
    var s0 := Start(Nodes(n + 1));
    var take := TakesGrab(c, toggleKey, Nodes(n + 1));
    var s1 := KvmRaces.Run(c, toggleKey, s0, take);
    var pass := SomePass(c, toggleKey, s1, 0, n);
    var s2 := KvmRaces.Run(c, toggleKey, s1, pass);
    FirstArePassed(s2.readers, n);
    var again := GrabsAgain(c, toggleKey, s2);
    var s3 := KvmRaces.Run(c, toggleKey, s2, again);
    var stale := StaleEnters(c, toggleKey, s3, n);
    RunThen(c, toggleKey, s2, again, stale);
    RunThen(c, toggleKey, s1, pass, again + stale);
    RunThen(c, toggleKey, s0, take, pass + (again + stale));
    ms := take + (pass + (again + stale));
  }

  lemma {:induction false} FirstArePassed(readers: seq<Phase>, n: nat)
    requires n <= |readers| && forall i :: 0 <= i < |readers| ==> (readers[i].Passed? <==> i < n)
    ensures |PassedReaders(readers)| == n
  {
    AllArePassed(readers[..n]);
    assert PassedReaders(readers) == PassedReaders(readers[..n]);
  }

  /** The grab is given back and taken again. */
  lemma {:induction false} GrabsAgain(c: Config, toggleKey: int, s: State) returns (ms: seq<Move>)
    requires Holding(s)
    ensures Feasible(c, toggleKey, s, ms)
    ensures var s' := KvmRaces.Run(c, toggleKey, s, ms);
            && Holding(s') && s'.readers == s.readers && s'.r.s == NEUTRAL && s'.arrived == []
            && s'.atGrab == s'.carried == PassedReaders(s.readers)
  {
    var n := |s.k.devs|;
    var s1 := KvmRaces.Next(c, toggleKey, s, Command(OnToggle(n)));
    var s2 := KvmRaces.Next(c, toggleKey, s1, Finish);
    var s3 := KvmRaces.Next(c, toggleKey, s2, Command(OnToggle(n)));
    assert s3.k.grabbed && s3.pending == DoReset;
    RunCons(c, toggleKey, s3, Finish, []);
    RunCons(c, toggleKey, s2, Command(OnToggle(n)), [Finish] + []);
    RunCons(c, toggleKey, s1, Finish, [Command(OnToggle(n))] + ([Finish] + []));
    RunCons(c, toggleKey, s, Command(OnToggle(n)), [Finish] + ([Command(OnToggle(n))] + ([Finish] + [])));
    ms := [Command(OnToggle(n))] + ([Finish] + ([Command(OnToggle(n))] + ([Finish] + [])));
  }

  /** A late press enters, then a SYN that another reader reads now. */
  lemma {:induction false} StaleEnters(c: Config, toggleKey: int, s: State, n: nat) returns (ms: seq<Move>)
    requires Holding(s) && s.r.s == NEUTRAL && s.arrived == [] && 0 < n < |s.readers|
    requires s.readers[0] == Passed(LateEvent(toggleKey, 0)) && s.readers[n].Idle?
    requires 0 in s.carried && n !in s.carried && |s.atGrab| == n
    ensures Feasible(c, toggleKey, s, ms)
    ensures var s' := KvmRaces.Run(c, toggleKey, s, ms); AtSyn(s', n) && !Mirrors(c, s'.r.out, FreshOf(s'.arrived))
  {
    var s1 := KvmRaces.Next(c, toggleKey, s, Enter(0));
    PressingSpare(c, toggleKey, s.r);
    assert s1.arrived == [Arrival(Ev(LateEvent(toggleKey, 0)), true)];
    var rest := SynFollows(c, toggleKey, s1, n);
    RunCons(c, toggleKey, s, Enter(0), rest);
    ms := [Enter(0)] + rest;
    var s' := KvmRaces.Run(c, toggleKey, s1, rest);
    OnlyASyn(c, s'.arrived, SpareUsage(toggleKey), s'.r.out);
  }

  /** An idle reader passes on a SYN, which sends the one key that is down. */
  lemma {:induction false} SynFollows(c: Config, toggleKey: int, s: State, n: nat) returns (ms: seq<Move>)
    requires Holding(s) && 0 < n < |s.readers| && s.readers[n].Idle? && n !in s.carried && |s.atGrab| == n
    requires s.r.s == NEUTRAL.(keys := [SpareUsage(toggleKey)], kbdDirty := true)
    ensures Feasible(c, toggleKey, s, ms)
    ensures var s' := KvmRaces.Run(c, toggleKey, s, ms);
            && AtSyn(s', n) && s'.arrived == s.arrived + [Arrival(Ev(LateEvent(toggleKey, n)), false)]
            && LastKeyboard(s'.r.out) == KeyboardReport(0, [SpareUsage(toggleKey)])
  {
    var syn := LateEvent(toggleKey, n);
    ReadThenCheck(c, toggleKey, s, n, syn);
    var s1 := KvmRaces.Next(c, toggleKey, s, Read(n, syn, 0));
    var s2 := KvmRaces.Next(c, toggleKey, s1, Check(n));
    assert s2.readers[n] == Passed(syn) && s2.r == s.r;
    EndingFrame(c, SpareUsage(toggleKey), s2.r);
    RunCons(c, toggleKey, s2, Enter(n), []);
    RunCons(c, toggleKey, s1, Check(n), [Enter(n)] + []);
    RunCons(c, toggleKey, s, Read(n, syn, 0), [Check(n)] + ([Enter(n)] + []));
    ms := [Read(n, syn, 0)] + ([Check(n)] + ([Enter(n)] + []));
  }

  lemma {:induction false} OnlyASyn(c: Config, arrived: seq<Arrival>, usage: int, out: seq<Report>)
    requires |arrived| == 2 && arrived[0].late && !arrived[1].late && IsSyn(arrived[1].i)
    requires 0x04 <= usage <= 0x52 && LastKeyboard(out) == KeyboardReport(0, [usage])
    ensures !Mirrors(c, out, FreshOf(arrived))
  {
    FreshOfTwo(arrived);
    NoKeyFromSyn(c, arrived[1].i);
    ReportDecodes(0, [usage]);
  }

  lemma {:induction false} FreshOfTwo(arrived: seq<Arrival>)
    requires |arrived| == 2 && arrived[0].late && !arrived[1].late
    ensures FreshOf(arrived) == [arrived[1].i]
  {
    assert arrived[..1][..0] == [];
    assert FreshOf(arrived[..1]) == [] + [] == [];
    assert [] + [arrived[1].i] == [arrived[1].i];
  }

  lemma {:induction false} NoKeyFromSyn(c: Config, syn: Item)
    requires IsSyn(syn)
    ensures Since(c, [syn]).s.keys == []
  {
    SinceAppend(c, [], syn);
    assert [] + [syn] == [syn];
    ItemHeld(c, NEUTRAL, syn);
  }
}
