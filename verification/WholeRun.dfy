/** The daemon and the target together, each event handled in one piece: over every run of the
    grab controller, what the target holds is what the events since the last grab say. */
module WholeRun {
  import opened Bytes
  import Wire
  import Parsing
  import opened Reporting
  import opened KeyboardProperties
  import opened MotionProperties
  import Kvm
  import opened KvmInput
  import opened Pipeline

  /** The events and ticks since the last successful grab, after one more happening. */
  function NextItems(c: Config, toggleKey: int, w: World, items: seq<Item>, h: Happening): seq<Item> {
    if !w.k.grabbed || !Step(c, toggleKey, w, h).k.grabbed then []
    else
      match h
      case Input(e, _) => if Kvm.IsToggle(toggleKey, e) then items else items + [Ev(e)]
      case Control(_) => items
      case Timer => items + [Item.Tick]
  }

  function SinceGrab(c: Config, toggleKey: int, w: World, items: seq<Item>, hs: seq<Happening>): seq<Item>
    decreases |hs|
  {
    if hs == [] then items
    else SinceGrab(c, toggleKey, Step(c, toggleKey, w, hs[0]), NextItems(c, toggleKey, w, items, hs[0]), hs[1..])
  }

  predicate EndsWith(out: seq<Report>, tail: seq<Report>) {
    |tail| <= |out| && out[|out| - |tail|..] == tail
  }

  /** While grabbed, the Reporter is where those items take it from a reset, and what it sent
      last is what they make it send. */
  predicate InStep(c: Config, w: World, items: seq<Item>) {
    w.k.grabbed ==> w.r.s == Since(c, items).s && EndsWith(w.r.out, Since(c, items).out)
  }

  lemma {:induction false} ExtendInStep(c: Config, r: Reaction, items: seq<Item>, i: Item)
    requires r.s == Since(c, items).s && EndsWith(r.out, Since(c, items).out)
    ensures var r', all := Extend(c, r, i), Since(c, items + [i]); r'.s == all.s && EndsWith(r'.out, all.out)
  {
    var b, more := Since(c, items), OnItem(c, r.s, i).out;
    SinceAppend(c, items, i);
    EndsWithMore(r.out, b.out, more);
  }

  lemma {:induction false} EndsWithMore(out: seq<Report>, tail: seq<Report>, more: seq<Report>)
    requires EndsWith(out, tail)
    ensures EndsWith(out + more, tail + more)
  {
    var n := |out| - |tail|;
    assert (out + more)[n..] == out[n..] + more;
  }

  lemma {:induction false} StepInStep(c: Config, toggleKey: int, w: World, items: seq<Item>, h: Happening)
    requires Quiet(w) && InStep(c, w, items)
    ensures InStep(c, Step(c, toggleKey, w, h), NextItems(c, toggleKey, w, items, h))
  {
    var w' := Step(c, toggleKey, w, h);
    if w'.k.grabbed {
      if w.k.grabbed {
        StaysGrabbed(c, toggleKey, w, h);
        match h
        case Input(e, _) => if !Kvm.IsToggle(toggleKey, e) { ExtendInStep(c, w.r, items, Ev(e)); }
        case Control(_) =>
        case Timer => ExtendInStep(c, w.r, items, Item.Tick);
      } else {
        Handover(c, toggleKey, w, h);
      }
    }
  }

  /** While the grab stays on, only the events and ticks themselves reach the Reporter. */
  lemma {:induction false} StaysGrabbed(c: Config, toggleKey: int, w: World, h: Happening)
    requires w.k.grabbed && Step(c, toggleKey, w, h).k.grabbed
    ensures Step(c, toggleKey, w, h).r ==
            match h
            case Input(e, _) => if Kvm.IsToggle(toggleKey, e) then w.r else Extend(c, w.r, Ev(e))
            case Control(_) => w.r
            case Timer => Extend(c, w.r, Item.Tick)
  {
  }

  lemma {:induction false} AlwaysInStep(c: Config, toggleKey: int, w: World, items: seq<Item>, hs: seq<Happening>)
    requires Quiet(w) && InStep(c, w, items)
    ensures InStep(c, Steps(c, toggleKey, w, hs), SinceGrab(c, toggleKey, w, items, hs))
    decreases |hs|
  {
    if hs != [] {
      StepInStep(c, toggleKey, w, items, hs[0]);
      Handover(c, toggleKey, w, hs[0]);
      AlwaysInStep(c, toggleKey, Step(c, toggleKey, w, hs[0]), NextItems(c, toggleKey, w, items, hs[0]), hs[1..]);
    }
  }

  // ---- What is forwarded ----

  /** A press, release or repeat of the toggle key. */
  predicate OfToggleKey(toggleKey: int, e: Event) {
    e.typ == EV_KEY && e.code == toggleKey
  }

  predicate NoToggleKey(toggleKey: int, items: seq<Item>) {
    forall i :: 0 <= i < |items| && items[i].Ev? ==> !OfToggleKey(toggleKey, items[i].e)
  }

  /** Over every run, no event of the toggle key is ever forwarded, release and repeat included. */
  lemma {:induction false} ToggleKeyStaysHere(c: Config, toggleKey: int, w: World, items: seq<Item>, hs: seq<Happening>)
    requires NoToggleKey(toggleKey, items)
    ensures NoToggleKey(toggleKey, SinceGrab(c, toggleKey, w, items, hs))
    decreases |hs|
  {
    if hs != [] {
      ToggleKeyStaysHere(c, toggleKey, Step(c, toggleKey, w, hs[0]), NextItems(c, toggleKey, w, items, hs[0]), hs[1..]);
    }
  }

  /** An event of another key, or a tick. */
  function TypedBy(toggleKey: int, h: Happening): seq<Item> {
    match h
    case Input(e, _) => if OfToggleKey(toggleKey, e) then [] else [Ev(e)]
    case Control(_) => []
    case Timer => [Item.Tick]
  }

  function Typed(toggleKey: int, hs: seq<Happening>): seq<Item> {
    if hs == [] then [] else TypedBy(toggleKey, hs[0]) + Typed(toggleKey, hs[1..])
  }

  /** Every moment of the run is grabbed. */
  predicate AlwaysGrabbed(c: Config, toggleKey: int, w: World, hs: seq<Happening>)
    decreases |hs|
  {
    w.k.grabbed && (hs != [] ==> AlwaysGrabbed(c, toggleKey, Step(c, toggleKey, w, hs[0]), hs[1..]))
  }

  lemma {:induction false} OneForwarded(c: Config, toggleKey: int, w: World, items: seq<Item>, h: Happening)
    requires w.k.grabbed && Step(c, toggleKey, w, h).k.grabbed
    ensures NextItems(c, toggleKey, w, items, h) == items + TypedBy(toggleKey, h)
  {
    assert items + [] == items;
  }

  /** While the grab stays on, exactly those are forwarded, in order. */
  lemma {:induction false} RestIsForwarded(c: Config, toggleKey: int, w: World, items: seq<Item>, hs: seq<Happening>)
    requires AlwaysGrabbed(c, toggleKey, w, hs)
    ensures SinceGrab(c, toggleKey, w, items, hs) == items + Typed(toggleKey, hs)
    decreases |hs|
  {
    if hs == [] {
      assert items + [] == items;
    } else {
      OneForwarded(c, toggleKey, w, items, hs[0]);
      RestIsForwarded(c, toggleKey, Step(c, toggleKey, w, hs[0]), items + TypedBy(toggleKey, hs[0]), hs[1..]);
      Regroup(items, TypedBy(toggleKey, hs[0]), Typed(toggleKey, hs[1..]));
    }
  }

  lemma {:induction false} Regroup(a: seq<Item>, b: seq<Item>, c: seq<Item>)
    ensures a + b + c == a + (b + c)
  {
  }

  // ---- What the target holds ----

  /** Reports sent before do not show once a later one of the same kind has been sent. */
  lemma {:induction false} LastOfConcat(pre: seq<Report>, tail: seq<Report>)
    ensures (exists r :: r in tail && r.Keyboard?) ==> LastKeyboard(pre + tail) == LastKeyboard(tail)
    ensures (exists r :: r in tail && r.Mouse?) ==> LastButtons(pre + tail) == LastButtons(tail)
  {
    if tail != [] {
      var front, last := tail[..|tail| - 1], tail[|tail| - 1];
      assert pre + tail == pre + front + [last] && tail == front + [last];
      LastOfConcat(pre, front);
      LastAppend(pre + front, last);
      LastAppend(front, last);
    }
  }

  lemma {:induction false} StartsWithReset(c: Config, items: seq<Item>)
    ensures ResetReports() <= Since(c, items).out
  {
    if items != [] {
      StartsWithReset(c, items[..|items| - 1]);
    }
  }

  lemma {:induction false} LastSinceGrab(c: Config, out: seq<Report>, items: seq<Item>)
    requires EndsWith(out, Since(c, items).out)
    ensures LastKeyboard(out) == LastKeyboard(Since(c, items).out)
    ensures LastButtons(out) == LastButtons(Since(c, items).out)
  {
    var tail := Since(c, items).out;
    var pre := out[..|out| - |tail|];
    assert out == pre + tail;
    StartsWithReset(c, items);
    assert tail[0] in tail && tail[0].Keyboard? && tail[1] in tail && tail[1].Mouse?;
    LastOfConcat(pre, tail);
  }

  lemma {:induction false} StepSendable(c: Config, toggleKey: int, w: World, h: Happening)
    requires AllSendable(w.r.out)
    ensures AllSendable(Step(c, toggleKey, w, h).r.out)
  {
    forall r: Reaction, i: Item | AllSendable(r.out) ensures AllSendable(Extend(c, r, i).out) {
      ItemSends(c, r.s, i);
    }
  }

  lemma {:induction false} RunSendable(c: Config, toggleKey: int, w: World, hs: seq<Happening>)
    requires AllSendable(w.r.out)
    ensures AllSendable(Steps(c, toggleKey, w, hs).r.out)
    decreases |hs|
  {
    if hs != [] {
      StepSendable(c, toggleKey, w, hs[0]);
      RunSendable(c, toggleKey, Step(c, toggleKey, w, hs[0]), hs[1..]);
    }
  }

  function Begin(devs: seq<Kvm.Device>): World {
    World(Kvm.Initial(devs), Reaction(NEUTRAL, []))
  }

  /** What a target that got these reports holds is what this history says is held: the
      modifiers, the keys in press order (rollover beyond six) and the buttons. */
  ghost predicate Mirrors(c: Config, got: seq<Report>, items: seq<Item>) {
    var keys := Since(c, items).s.keys;
    && KeysRefine(items, keys) && |LastKeyboard(got)| == 8
    && Decode(LastKeyboard(got)) == (if |keys| > SLOTS then Rollover(HeldMods(items)) else Held6(HeldMods(items), keys))
    && LastButtons(got) == HeldButtons(items)
  }

  lemma {:induction false} MirrorsAtSyn(c: Config, out: seq<Report>, items: seq<Item>)
    requires EndsWith(out, Since(c, items).out) && items != [] && IsSyn(items[|items| - 1])
    ensures Mirrors(c, out, items)
  {
    LastSinceGrab(c, out, items);
    CaughtUpAtSyn(c, items);
    FlushedReportRefines(c, items);
    MasksRefine(c, items);
  }

  /** The link changes nothing about that. */
  lemma {:induction false} ReceivedMirrors(c: Config, out: seq<Report>, items: seq<Item>,
                                           p: Parsing.ParserState, buf: Parsing.ChunkBuf, pieces: seq<seq<byte>>)
    requires Mirrors(c, out, items) && AllSendable(out)
    requires p.st == Parsing.Sync && Flatten(pieces) == Wire.EncodeAll(MsgsOf(out))
    ensures var ms := Parsing.RunPieces(p, buf, pieces).out;
            (forall i :: 0 <= i < |ms| ==> IsReport(ms[i])) && Mirrors(c, Received(p, buf, pieces), items)
  {
    SendableArrive(out, p, buf, pieces);
  }

  /** From the start of the daemon, over every run of events, each handled in one piece, of
      commands, releases, hot-plugs, losses and ticks, and however the link cuts the bytes:
      after a SYN while grabbed the target holds exactly what the events since the last grab
      say. */
  lemma {:induction false} TargetMirrorsSinceGrab(c: Config, toggleKey: int, devs: seq<Kvm.Device>, hs: seq<Happening>,
                                                  p: Parsing.ParserState, buf: Parsing.ChunkBuf, pieces: seq<seq<byte>>)
    requires var w := Steps(c, toggleKey, Begin(devs), hs);
             w.k.grabbed && p.st == Parsing.Sync && Flatten(pieces) == Wire.EncodeAll(MsgsOf(w.r.out))
    requires var items := SinceGrab(c, toggleKey, Begin(devs), [], hs); items != [] && IsSyn(items[|items| - 1])
    ensures var items, ms := SinceGrab(c, toggleKey, Begin(devs), [], hs), Parsing.RunPieces(p, buf, pieces).out;
            && (forall i :: 0 <= i < |ms| ==> IsReport(ms[i]))
            && Mirrors(c, Received(p, buf, pieces), items)
  {
    var w, items := Steps(c, toggleKey, Begin(devs), hs), SinceGrab(c, toggleKey, Begin(devs), [], hs);
    AlwaysInStep(c, toggleKey, Begin(devs), [], hs);
    RunSendable(c, toggleKey, Begin(devs), hs);
    WorldMirrors(c, w, items);
    ReceivedMirrors(c, w.r.out, items, p, buf, pieces);
  }

  lemma {:induction false} WorldMirrors(c: Config, w: World, items: seq<Item>)
    requires InStep(c, w, items) && w.k.grabbed && items != [] && IsSyn(items[|items| - 1])
    ensures Mirrors(c, w.r.out, items)
  {
    MirrorsAtSyn(c, w.r.out, items);
  }
}
