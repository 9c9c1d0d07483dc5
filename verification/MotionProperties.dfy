/** Mouse motion and the two flush disciplines: nothing is lost but to saturation, the
    target always catches up, and coalescing changes timing only. */
module MotionProperties {
  import opened Bytes
  import opened Keymap
  import opened Reporting

  datatype Axis = X | Y | Wheel

  function AxisCode(a: Axis): int {
    match a
    case X => REL_X
    case Y => REL_Y
    case Wheel => REL_WHEEL
  }

  function Acc(s: RState, a: Axis): int {
    match a
    case X => s.dx
    case Y => s.dy
    case Wheel => s.wheel
  }

  /** A displacement as the target counts it: an inverted wheel turns the other way. */
  function Turned(c: Config, a: Axis, v: int): int {
    if a == Wheel && c.invertWheel then -v else v
  }

  function Clamp(a: Axis, v: int): int {
    if a == Wheel then Clamp8(v) else Clamp16(v)
  }

  function Moved(r: Report, a: Axis): int {
    match r
    case Keyboard(_) => 0
    case Mouse(_, dx, dy, wheel) => match a case X => dx case Y => dy case Wheel => wheel
  }

  /** No motion is pending. */
  predicate Motionless(s: RState) {
    s.dx == 0 && s.dy == 0 && s.wheel == 0
  }

  /** Displacement the target has been told. */
  function Sent(out: seq<Report>, a: Axis): int {
    if out == [] then 0 else Sent(out[..|out| - 1], a) + Moved(out[|out| - 1], a)
  }

  predicate IsSyn(i: Item) {
    i.Ev? && i.e.typ == EV_SYN
  }

  /** The motion an item brings along an axis. */
  function Motion(i: Item, a: Axis): int {
    if i.Ev? && i.e.typ == EV_REL && i.e.code == AxisCode(a) then i.e.value else 0
  }

  function TotalMotion(items: seq<Item>, a: Axis): int {
    if items == [] then 0 else TotalMotion(items[..|items| - 1], a) + Motion(items[|items| - 1], a)
  }

  predicate FlushesMouse(c: Config, s: RState, i: Item) {
    if i.Tick? then c.coalesce && (s.dx != 0 || s.dy != 0 || s.wheel != 0)
    else IsSyn(i) && SynFlushesMouse(c, s)
  }

  function FieldWidth(a: Axis): int {
    if a == Wheel then 256 else TWO16
  }

  /** What a flush tells the target when an accumulator has this value. */
  function Emitted(c: Config, a: Axis, acc: int): int {
    Clamp(a, if a == Wheel then WheelOut(c, acc) else acc)
  }

  /** What saturation then discards. */
  function Discarded(c: Config, a: Axis, acc: int): int {
    Turned(c, a, acc) - Emitted(c, a, acc)
  }

  function DiscardedBy(c: Config, s: RState, i: Item, a: Axis): int {
    if FlushesMouse(c, s, i) then Discarded(c, a, Acc(s, a)) else 0
  }

  function Loss(c: Config, items: seq<Item>, a: Axis): int {
    if items == [] then 0
    else
      var before, last := items[..|items| - 1], items[|items| - 1];
      Loss(c, before, a) + DiscardedBy(c, Since(c, before).s, last, a)
  }

  /** The same without regard to sign: losses in opposite directions add up. */
  function Saturation(c: Config, items: seq<Item>, a: Axis): (n: nat)
    ensures Loss(c, items, a) + n >= 0 && Loss(c, items, a) <= n
  {
    if items == [] then 0
    else
      var before, last := items[..|items| - 1], items[|items| - 1];
      var lost := DiscardedBy(c, Since(c, before).s, last, a);
      Saturation(c, before, a) + if lost < 0 then -lost else lost
  }

  /** What int32 arithmetic drops when a sum leaves its range: a multiple of 2^32. */
  function Wrap(v: int): int {
    v - Int32(v)
  }

  /** The sum an item makes of the accumulator, before it is cut to int32. */
  function SumWith(s: RState, i: Item, a: Axis): int {
    Acc(s, a) + Motion(i, a)
  }

  function WrappedBy(s: RState, i: Item, a: Axis): int {
    Wrap(SumWith(s, i, a))
  }

  function Wrapped(c: Config, items: seq<Item>, a: Axis): int {
    if items == [] then 0
    else
      var before, last := items[..|items| - 1], items[|items| - 1];
      Wrapped(c, before, a) + WrappedBy(Since(c, before).s, last, a)
  }

  /** No sum leaves the int32 range. */
  predicate NoOverflow(c: Config, items: seq<Item>, a: Axis) {
    items == [] ||
    var before, last := items[..|items| - 1], items[|items| - 1];
    NoOverflow(c, before, a) && FitsIn(SumWith(Since(c, before).s, last, a), TWO32)
  }

  lemma {:induction false} SentConcat(x: seq<Report>, y: seq<Report>, a: Axis)
    ensures Sent(x + y, a) == Sent(x, a) + Sent(y, a)
  {
    if y == [] {
      assert x + y == x;
    } else {
      assert (x + y)[..|x + y| - 1] == x + y[..|y| - 1];
      SentConcat(x, y[..|y| - 1], a);
    }
  }

  lemma {:induction false} SentOne(r: Report, a: Axis)
    ensures Sent([r], a) == Moved(r, a)
  {
    assert [r][..0] == [];
  }

  /** What an item makes the Reporter send, in terms of the two flushes. */
  lemma {:induction false} ItemSends(c: Config, s: RState, i: Item)
    ensures OnItem(c, s, i).out
         == (if IsSyn(i) && s.kbdDirty then FlushKeyboard(s).out else [])
            + (if FlushesMouse(c, s, i) then FlushMouse(c, s).out else [])
  {
  }

  /** What an item does to an accumulator in range. */
  lemma {:induction false} ItemMoves(c: Config, s: RState, i: Item, a: Axis)
    requires FitsIn(Acc(s, a), TWO32)
    ensures Acc(OnItem(c, s, i).s, a) == if FlushesMouse(c, s, i) then 0 else Int32(Acc(s, a) + Motion(i, a))
  {
    FitsNoWrap(Acc(s, a));
    if i.Ev? && i.e.typ == EV_KEY {
      KeyHeld(c, s, i);
      KeyEffect(s, Lookup(i.e.code), i.e.value);
    } else if i.Ev? && i.e.typ == EV_REL {
      RelMoves(s, i.e.code, i.e.value, a);
    } else if IsSyn(i) {
      SynMoves(c, s, a);
    }
  }

  lemma {:induction false} RelMoves(s: RState, code: int, value: int, a: Axis)
    requires FitsIn(Acc(s, a), TWO32)
    ensures Acc(OnRel(s, code, value), a) == Int32(Acc(s, a) + if code == AxisCode(a) then value else 0)
  {
    FitsNoWrap(Acc(s, a));
  }

  lemma {:induction false} SynMoves(c: Config, s: RState, a: Axis)
    ensures Acc(OnSyn(c, s).s, a) == if SynFlushesMouse(c, s) then 0 else Acc(s, a)
  {
  }

  /** Accumulators are int32 values. */
  lemma {:induction false} InRange(c: Config, items: seq<Item>, a: Axis)
    ensures FitsIn(Acc(Since(c, items).s, a), TWO32)
  {
    if items != [] {
      var before, last := items[..|items| - 1], items[|items| - 1];
      InRange(c, before, a);
      ItemMoves(c, Since(c, before).s, last, a);
    }
  }

  /** One step: what leaves the accumulator is sent or discarded, but for wrap-around. */
  lemma {:induction false} StepConserves(c: Config, s: RState, i: Item, a: Axis)
    requires FitsIn(Acc(s, a), TWO32)
    ensures var r, sum := OnItem(c, s, i), Acc(s, a) + Motion(i, a);
            Turned(c, a, sum)
            == Sent(r.out, a) + Turned(c, a, Acc(r.s, a)) + DiscardedBy(c, s, i, a) + Turned(c, a, Wrap(sum))
  {
    SentByStep(c, s, i, a);
    FlushMoves(c, s, a);
    ItemMoves(c, s, i, a);
    FlushHasNoMotion(c, s, i, a);
    Balance(c, a, Acc(s, a), Motion(i, a), FlushesMouse(c, s, i));
  }

  lemma {:induction false} FlushHasNoMotion(c: Config, s: RState, i: Item, a: Axis)
    ensures FlushesMouse(c, s, i) ==> Motion(i, a) == 0
  {
  }

  lemma {:induction false} Balance(c: Config, a: Axis, acc: int, motion: int, flush: bool)
    requires FitsIn(acc, TWO32) && (flush ==> motion == 0)
    ensures Turned(c, a, acc + motion)
         == (if flush then Emitted(c, a, acc) + Discarded(c, a, acc) else Turned(c, a, Int32(acc + motion)))
            + Turned(c, a, Wrap(acc + motion))
  {
  }

  lemma {:induction false} FlushMoves(c: Config, s: RState, a: Axis)
    ensures Moved(FlushMouse(c, s).out[0], a) == Emitted(c, a, Acc(s, a))
  {
  }

  lemma {:induction false} SentByStep(c: Config, s: RState, i: Item, a: Axis)
    ensures Sent(OnItem(c, s, i).out, a) == if FlushesMouse(c, s, i) then Moved(FlushMouse(c, s).out[0], a) else 0
  {
    var k, m := FlushKeyboard(s).out[0], FlushMouse(c, s).out[0];
    ItemSends(c, s, i);
    SentByTwo(k, m, IsSyn(i) && s.kbdDirty, FlushesMouse(c, s, i), a);
  }

  lemma {:induction false} SentByTwo(k: Report, m: Report, sendK: bool, sendM: bool, a: Axis)
    requires k.Keyboard?
    ensures Sent((if sendK then [k] else []) + (if sendM then [m] else []), a) == if sendM then Moved(m, a) else 0
  {
    SentConcat(if sendK then [k] else [], if sendM then [m] else [], a);
    SentOne(k, a);
    SentOne(m, a);
  }

  /** For every run, with ticks anywhere: the motion that came in is the motion sent, plus
      what is still pending, plus what saturation discarded and wrap-around dropped. */
  lemma {:induction false} MotionConserved(c: Config, items: seq<Item>, a: Axis)
    ensures var r := Since(c, items);
            Turned(c, a, TotalMotion(items, a))
            == Sent(r.out, a) + Turned(c, a, Acc(r.s, a)) + Loss(c, items, a) + Turned(c, a, Wrapped(c, items, a))
  {
    if items == [] {
      SentReset();
    } else {
      var before, last := items[..|items| - 1], items[|items| - 1];
      var b := Since(c, before);
      MotionConserved(c, before, a);
      InRange(c, before, a);
      StepConserves(c, b.s, last, a);
      SentConcat(b.out, OnItem(c, b.s, last).out, a);
    }
  }

  /** Nothing is dropped exactly from what fits int32. */
  lemma {:induction false} FitsNoWrap(v: int)
    ensures Wrap(v) == 0 <==> FitsIn(v, TWO32)
  {
  }

  lemma {:induction false} NoOverflowNoWrap(c: Config, items: seq<Item>, a: Axis)
    requires NoOverflow(c, items, a)
    ensures Wrapped(c, items, a) == 0
  {
    if items != [] {
      var before, last := items[..|items| - 1], items[|items| - 1];
      NoOverflowNoWrap(c, before, a);
      FitsNoWrap(SumWith(Since(c, before).s, last, a));
    }
  }

  /** At every flush each accumulator is within its report field. */
  predicate NoSaturation(c: Config, items: seq<Item>, a: Axis) {
    items == [] ||
    var before, last := items[..|items| - 1], items[|items| - 1];
    var s := Since(c, before).s;
    NoSaturation(c, before, a) && (FlushesMouse(c, s, last) ==> FitsIn(Turned(c, a, Acc(s, a)), FieldWidth(a)))
  }

  /** The exact condition for a run without loss. */
  lemma {:induction false} NoLossIffNoSaturation(c: Config, items: seq<Item>, a: Axis)
    ensures Saturation(c, items, a) == 0 <==> NoSaturation(c, items, a)
    ensures NoSaturation(c, items, a) ==> Loss(c, items, a) == 0
  {
    if items != [] {
      var before, last := items[..|items| - 1], items[|items| - 1];
      NoLossIffNoSaturation(c, before, a);
      InRange(c, before, a);
      DiscardedIff(c, a, Acc(Since(c, before).s, a));
    }
  }

  lemma {:induction false} DiscardedIff(c: Config, a: Axis, acc: int)
    requires FitsIn(acc, TWO32)
    ensures Discarded(c, a, acc) == 0 <==> FitsIn(Turned(c, a, acc), FieldWidth(a))
  {
    assert Int32(0x8000_0000) == -0x8000_0000;
  }

  /** A saturated report field holds the nearest value it can. */
  lemma {:induction false} ClampNearest(a: Axis, v: int, w: int)
    requires FitsIn(w, FieldWidth(a))
    ensures FitsIn(Clamp(a, v), FieldWidth(a))
    ensures w <= v ==> w <= Clamp(a, v) <= v
    ensures w >= v ==> v <= Clamp(a, v) <= w
  {
  }

  // ---- The target catches up at every SYN ----

  function LastKeyboard(out: seq<Report>): seq<byte> {
    if out == [] then []
    else match out[|out| - 1]
         case Keyboard(rep) => rep
         case Mouse(_, _, _, _) => LastKeyboard(out[..|out| - 1])
  }

  function LastButtons(out: seq<Report>): bv8 {
    if out == [] then 0 as bv8
    else match out[|out| - 1]
         case Keyboard(_) => LastButtons(out[..|out| - 1])
         case Mouse(buttons, _, _, _) => buttons
  }

  lemma {:induction false} LastAppend(out: seq<Report>, r: Report)
    ensures LastKeyboard(out + [r]) == if r.Keyboard? then r.rep else LastKeyboard(out)
    ensures LastButtons(out + [r]) == if r.Mouse? then r.buttons else LastButtons(out)
  {
    assert (out + [r])[..|out|] == out;
  }

  predicate Caught(r: Reaction) {
    && (!r.s.kbdDirty ==> LastKeyboard(r.out) == KeyboardReport(r.s.mods, r.s.keys))
    && (!r.s.mouseBtn ==> LastButtons(r.out) == r.s.buttons)
    && (r.s.mouseBtn ==> r.s.mouseDirty)
    && (!r.s.mouseDirty ==> Motionless(r.s))
  }

  /** Appending what one item makes the Reporter send. */
  function Extend(c: Config, b: Reaction, i: Item): Reaction {
    var r := OnItem(c, b.s, i);
    r.(out := b.out + r.out)
  }

  lemma {:induction false} CaughtStep(c: Config, b: Reaction, i: Item)
    requires Caught(b)
    ensures var r := Extend(c, b, i);
            && Caught(r)
            && (IsSyn(i) ==> !r.s.kbdDirty && !r.s.mouseBtn && (!c.coalesce ==> !r.s.mouseDirty))
  {
    if IsSyn(i) {
      CaughtSyn(c, b, i);
    } else if i.Tick? {
      CaughtTick(c, b);
    } else {
      CaughtEvent(c, b, i);
    }
  }

  lemma {:induction false} CaughtSyn(c: Config, b: Reaction, i: Item)
    requires Caught(b) && IsSyn(i)
    ensures var r := Extend(c, b, i);
            Caught(r) && !r.s.kbdDirty && !r.s.mouseBtn && (!c.coalesce ==> !r.s.mouseDirty)
  {
    var k := if b.s.kbdDirty then FlushKeyboard(b.s) else Reaction(b.s, []);
    var mid := Reaction(k.s, b.out + k.out);
    LastAppend(b.out, Keyboard(KeyboardReport(b.s.mods, b.s.keys)));
    assert b.out + [] == b.out;
    assert Caught(mid) && !mid.s.kbdDirty;
    LastAppend(mid.out, FlushMouse(c, mid.s).out[0]);
    if SynFlushesMouse(c, mid.s) {
      assert Extend(c, b, i) == Reaction(FlushMouse(c, mid.s).s, mid.out + FlushMouse(c, mid.s).out);
    } else {
      assert Extend(c, b, i) == mid;
    }
  }

  lemma {:induction false} CaughtTick(c: Config, b: Reaction)
    requires Caught(b)
    ensures Caught(Extend(c, b, Tick))
  {
    LastAppend(b.out, FlushMouse(c, b.s).out[0]);
    assert b.out + [] == b.out;
  }

  lemma {:induction false} CaughtEvent(c: Config, b: Reaction, i: Item)
    requires Caught(b) && i.Ev? && !IsSyn(i)
    ensures Caught(Extend(c, b, i))
  {
    assert b.out + [] == b.out;
    if i.e.typ == EV_KEY {
      CaughtKey(b, Lookup(i.e.code), i.e.value);
    } else if i.e.typ == EV_REL {
      CaughtRel(b, i.e.code, i.e.value);
    }
  }

  lemma {:induction false} CaughtKey(b: Reaction, k: Entry, value: int)
    requires Caught(b)
    ensures Caught(Reaction(OnKey(b.s, k, value), b.out))
  {
    KeyEffect(b.s, k, value);
  }

  lemma {:induction false} CaughtRel(b: Reaction, code: int, value: int)
    requires Caught(b)
    ensures Caught(Reaction(OnRel(b.s, code, value), b.out))
  {
  }

  lemma {:induction false} KeyEffect(s: RState, k: Entry, value: int)
    ensures var r := OnKey(s, k, value);
            && r.dx == s.dx && r.dy == s.dy && r.wheel == s.wheel
            && ((r.mouseBtn && r.mouseDirty)
                || (r.mouseBtn == s.mouseBtn && r.mouseDirty == s.mouseDirty && r.buttons == s.buttons))
            && (!r.kbdDirty ==> r.kbdDirty == s.kbdDirty && r.mods == s.mods && r.keys == s.keys)
  {
  }

  lemma {:induction false} AlwaysCaught(c: Config, items: seq<Item>)
    ensures Caught(Since(c, items))
  {
    if items == [] {
      var reset := ResetReports();
      LastAppend([], reset[0]);
      LastAppend([reset[0]], reset[1]);
      assert [] + [reset[0]] == [reset[0]] && [reset[0]] + [reset[1]] == reset;
    } else {
      var before, last := items[..|items| - 1], items[|items| - 1];
      AlwaysCaught(c, before);
      CaughtStep(c, Since(c, before), last);
      assert Since(c, items) == Extend(c, Since(c, before), last);
    }
  }

  /** In both modes, after every SYN the last keyboard report and the last button mask the
      target got are the Reporter's current ones. */
  lemma {:induction false} CaughtUpAtSyn(c: Config, items: seq<Item>)
    requires items != [] && IsSyn(items[|items| - 1])
    ensures var r := Since(c, items);
            LastKeyboard(r.out) == KeyboardReport(r.s.mods, r.s.keys) && LastButtons(r.out) == r.s.buttons
  {
    var before, last := items[..|items| - 1], items[|items| - 1];
    AlwaysCaught(c, before);
    CaughtStep(c, Since(c, before), last);
    assert Since(c, items) == Extend(c, Since(c, before), last);
  }

  /** All motion has been sent, but for what saturation discarded, after every SYN without
      coalescing and after every tick with it. */
  lemma {:induction false} MotionDelivered(c: Config, items: seq<Item>, a: Axis)
    requires items != [] && NoOverflow(c, items, a)
    requires if c.coalesce then items[|items| - 1].Tick? else IsSyn(items[|items| - 1])
    ensures Turned(c, a, TotalMotion(items, a)) == Sent(Since(c, items).out, a) + Loss(c, items, a)
  {
    var before, last := items[..|items| - 1], items[|items| - 1];
    MotionConserved(c, items, a);
    NoOverflowNoWrap(c, items, a);
    AlwaysCaught(c, before);
    NothingPends(c, Since(c, before), last);
    assert Since(c, items) == Extend(c, Since(c, before), last);
    assert Acc(Since(c, items).s, a) == 0;
  }

  lemma {:induction false} NothingPends(c: Config, b: Reaction, i: Item)
    requires Caught(b) && if c.coalesce then i.Tick? else IsSyn(i)
    ensures Motionless(Extend(c, b, i).s)
  {
    if IsSyn(i) {
      CaughtSyn(c, b, i);
    }
  }

  // ---- Coalescing ----

  function Keyboards(out: seq<Report>): seq<Report> {
    if out == [] then []
    else Keyboards(out[..|out| - 1]) + if out[|out| - 1].Keyboard? then [out[|out| - 1]] else []
  }

  lemma {:induction false} KeyboardsConcat(x: seq<Report>, y: seq<Report>)
    ensures Keyboards(x + y) == Keyboards(x) + Keyboards(y)
  {
    if y == [] {
      assert x + y == x;
    } else {
      assert (x + y)[..|x + y| - 1] == x + y[..|y| - 1];
      KeyboardsConcat(x, y[..|y| - 1]);
    }
  }

  predicate SameHeld(s1: RState, s2: RState) {
    s1.mods == s2.mods && s1.keys == s2.keys && s1.kbdDirty == s2.kbdDirty && s1.buttons == s2.buttons
  }

  /** The keyboard and button part of an item's effect, which no mode changes. */
  function HeldNext(s: RState, i: Item): RState {
    if i.Ev? && i.e.typ == EV_KEY then OnKey(s, Lookup(i.e.code), i.e.value)
    else if IsSyn(i) then s.(kbdDirty := false)
    else s
  }

  lemma {:induction false} ItemHeld(c: Config, s: RState, i: Item)
    ensures SameHeld(OnItem(c, s, i).s, HeldNext(s, i))
  {
    if i.Ev? && i.e.typ == EV_KEY {
      KeyHeld(c, s, i);
    } else {
      OtherHeld(c, s, i);
    }
  }

  lemma {:induction false} KeyHeld(c: Config, s: RState, i: Item)
    requires i.Ev? && i.e.typ == EV_KEY
    ensures OnItem(c, s, i).s == HeldNext(s, i)
  {
  }

  lemma {:induction false} OtherHeld(c: Config, s: RState, i: Item)
    requires !(i.Ev? && i.e.typ == EV_KEY)
    ensures SameHeld(OnItem(c, s, i).s, HeldNext(s, i))
  {
    if IsSyn(i) {
      SynHeld(c, s);
    }
  }

  lemma {:induction false} SynHeld(c: Config, s: RState)
    ensures SameHeld(OnSyn(c, s).s, s.(kbdDirty := false))
  {
  }

  lemma {:induction false} SameKeyEffect(s1: RState, s2: RState, k: Entry, value: int)
    requires SameHeld(s1, s2)
    ensures SameHeld(OnKey(s1, k, value), OnKey(s2, k, value))
  {
    if k.button != 0 {
      SameButtonEffect(s1, s2, k.button, value);
    } else if k.modifier != 0 {
      SameModifierEffect(s1, s2, k, value);
    }
  }

  lemma {:induction false} SameButtonEffect(s1: RState, s2: RState, bit: bv8, value: int)
    requires SameHeld(s1, s2)
    ensures SameHeld(OnButton(s1, bit, value), OnButton(s2, bit, value))
  {
  }

  lemma {:induction false} SameModifierEffect(s1: RState, s2: RState, k: Entry, value: int)
    requires SameHeld(s1, s2) && k.button == 0 && k.modifier != 0
    ensures SameHeld(OnKey(s1, k, value), OnKey(s2, k, value))
  {
  }

  lemma {:induction false} SameHeldStep(invert: bool, s1: RState, s2: RState, i: Item)
    requires SameHeld(s1, s2)
    ensures var r1, r2 := OnItem(Config(invert, false), s1, i), OnItem(Config(invert, true), s2, i);
            SameHeld(r1.s, r2.s) && Keyboards(r1.out) == Keyboards(r2.out)
  {
    ItemHeld(Config(invert, false), s1, i);
    ItemHeld(Config(invert, true), s2, i);
    SameHeldNext(s1, s2, i);
    KeyboardsOfStep(Config(invert, false), s1, i);
    KeyboardsOfStep(Config(invert, true), s2, i);
  }

  lemma {:induction false} SameHeldNext(s1: RState, s2: RState, i: Item)
    requires SameHeld(s1, s2)
    ensures SameHeld(HeldNext(s1, i), HeldNext(s2, i))
  {
    if i.Ev? && i.e.typ == EV_KEY {
      SameKeyEffect(s1, s2, Lookup(i.e.code), i.e.value);
    }
  }

  lemma {:induction false} KeyboardsOfStep(c: Config, s: RState, i: Item)
    ensures Keyboards(OnItem(c, s, i).out)
         == if IsSyn(i) && s.kbdDirty then [Keyboard(KeyboardReport(s.mods, s.keys))] else []
  {
    var k, m := FlushKeyboard(s).out[0], FlushMouse(c, s).out[0];
    ItemSends(c, s, i);
    KeyboardsOfTwo(k, m, IsSyn(i) && s.kbdDirty, FlushesMouse(c, s, i));
  }

  lemma {:induction false} KeyboardsOfTwo(k: Report, m: Report, sendK: bool, sendM: bool)
    requires k.Keyboard? && m.Mouse?
    ensures Keyboards((if sendK then [k] else []) + (if sendM then [m] else [])) == if sendK then [k] else []
  {
    KeyboardsConcat(if sendK then [k] else [], if sendM then [m] else []);
    KeyboardsOne(k);
    KeyboardsOne(m);
  }

  lemma {:induction false} KeyboardsOne(r: Report)
    ensures Keyboards([r]) == if r.Keyboard? then [r] else []
  {
    assert [r][..0] == [];
  }

  /** Coalescing leaves the keyboard alone: the same keyboard reports in the same order,
      wherever the ticks fall. */
  lemma {:induction false} SameKeyboardStream(invert: bool, items: seq<Item>)
    ensures var r1, r2 := Since(Config(invert, false), items), Since(Config(invert, true), items);
            SameHeld(r1.s, r2.s) && Keyboards(r1.out) == Keyboards(r2.out)
  {
    if items != [] {
      var before, last := items[..|items| - 1], items[|items| - 1];
      var c1, c2 := Config(invert, false), Config(invert, true);
      var b1, b2 := Since(c1, before), Since(c2, before);
      SameKeyboardStream(invert, before);
      SameHeldStep(invert, b1.s, b2.s, last);
      KeyboardsConcat(b1.out, OnItem(c1, b1.s, last).out);
      KeyboardsConcat(b2.out, OnItem(c2, b2.s, last).out);
    }
  }

  /** Nothing saturates and no sum overflows. */
  predicate Lossless(c: Config, items: seq<Item>) {
    forall a: Axis :: NoOverflow(c, items, a) && NoSaturation(c, items, a)
  }

  /** At a SYN the modes differ by what the coalescing one leaves pending, and by what each of
      them lost. */
  lemma {:induction false} DisplacementGap(invert: bool, frame: seq<Item>, syn: Item, a: Axis)
    requires IsSyn(syn)
    ensures var items, c1, c2 := frame + [syn], Config(invert, false), Config(invert, true);
            Sent(Since(c1, items).out, a) + Loss(c1, items, a) + Turned(c1, a, Wrapped(c1, items, a))
            == Sent(Since(c2, items).out, a) + Loss(c2, items, a) + Turned(c2, a, Wrapped(c2, items, a))
               + Turned(c2, a, Acc(Since(c2, items).s, a))
  {
    var items, c1 := frame + [syn], Config(invert, false);
    assert items[..|frame|] == frame;
    MotionConserved(c1, items, a);
    MotionConserved(Config(invert, true), items, a);
    AlwaysCaught(c1, frame);
    NothingPends(c1, Since(c1, frame), syn);
    assert Acc(Since(c1, items).s, a) == 0;
  }

  /** The exact condition for equal displacement: in a run without loss, at every SYN both modes
      have told the target the same buttons, and the same total motion if and only if the
      coalescing one flushes at that SYN or has nothing to flush. */
  lemma {:induction false} SamePlaceIff(invert: bool, frame: seq<Item>, syn: Item)
    requires IsSyn(syn)
    requires Lossless(Config(invert, false), frame + [syn]) && Lossless(Config(invert, true), frame + [syn])
    ensures var off, on := Since(Config(invert, false), frame + [syn]), Since(Config(invert, true), frame + [syn]);
            var s := Since(Config(invert, true), frame).s;
            && LastButtons(off.out) == LastButtons(on.out)
            && ((forall a: Axis :: Sent(off.out, a) == Sent(on.out, a))
                <==> s.mouseBtn || Motionless(s))
  {
    var items, c1, c2 := frame + [syn], Config(invert, false), Config(invert, true);
    assert items[..|frame|] == frame;
    var s, s' := Since(c2, frame).s, Since(c2, items).s;
    CaughtUpAtSyn(c1, items);
    CaughtUpAtSyn(c2, items);
    SameKeyboardStream(invert, items);
    PendingAfterSyn(c2, s, syn);
    SinceAppend(c2, frame, syn);
    var off, on := Since(c1, items).out, Since(c2, items).out;
    forall a: Axis ensures Sent(off, a) == Sent(on, a) <==> Acc(s', a) == 0 {
      GapIsPending(invert, frame, syn, a);
    }
    MotionlessByAxis(s');
    if Motionless(s') {
      assert forall a: Axis :: Sent(off, a) == Sent(on, a);
    } else {
      var a: Axis :| Acc(s', a) != 0;
      assert Sent(off, a) != Sent(on, a);
    }
  }

  lemma {:induction false} MotionlessByAxis(s: RState)
    ensures Motionless(s) <==> forall a: Axis :: Acc(s, a) == 0
  {
    assert Acc(s, X) == s.dx && Acc(s, Y) == s.dy && Acc(s, Wheel) == s.wheel;
  }

  lemma {:induction false} GapIsPending(invert: bool, frame: seq<Item>, syn: Item, a: Axis)
    requires IsSyn(syn)
    requires Lossless(Config(invert, false), frame + [syn]) && Lossless(Config(invert, true), frame + [syn])
    ensures var c1, c2, items := Config(invert, false), Config(invert, true), frame + [syn];
            Sent(Since(c1, items).out, a) == Sent(Since(c2, items).out, a) <==> Acc(Since(c2, items).s, a) == 0
  {
    var items, c1, c2 := frame + [syn], Config(invert, false), Config(invert, true);
    DisplacementGap(invert, frame, syn, a);
    NoOverflowNoWrap(c1, items, a);
    NoOverflowNoWrap(c2, items, a);
    NoLossIffNoSaturation(c1, items, a);
    NoLossIffNoSaturation(c2, items, a);
  }

  lemma {:induction false} PendingAfterSyn(c: Config, s: RState, syn: Item)
    requires IsSyn(syn) && c.coalesce
    ensures Motionless(OnItem(c, s, syn).s) <==> s.mouseBtn || Motionless(s)
  {
    SynMotion(c, s);
  }

  lemma {:induction false} SynMotion(c: Config, s: RState)
    ensures Motionless(OnSyn(c, s).s) <==> SynFlushesMouse(c, s) || Motionless(s)
  {
  }

  // ---- Frames with a click ----

  /** No event since the last SYN. */
  predicate AtBoundary(items: seq<Item>) {
    items == [] || IsSyn(items[|items| - 1]) || (items[|items| - 1].Tick? && AtBoundary(items[..|items| - 1]))
  }

  /** In the current frame, ticks come before its events only. */
  predicate TicksBeforeEvents(items: seq<Item>) {
    items == [] || IsSyn(items[|items| - 1])
    || if items[|items| - 1].Tick? then AtBoundary(items) else TicksBeforeEvents(items[..|items| - 1])
  }

  predicate IsButton(i: Item) {
    i.Ev? && i.e.typ == EV_KEY && MouseButtonBit(i.e.code) != 0
  }

  /** A button event since the last SYN. */
  predicate ButtonInFrame(items: seq<Item>) {
    items != [] && !IsSyn(items[|items| - 1]) &&
    (IsButton(items[|items| - 1]) || ButtonInFrame(items[..|items| - 1]))
  }

  lemma {:induction false} BoundaryHasNoButton(items: seq<Item>)
    requires AtBoundary(items)
    ensures !ButtonInFrame(items)
  {
    if items != [] && !IsSyn(items[|items| - 1]) {
      BoundaryHasNoButton(items[..|items| - 1]);
    }
  }

  lemma {:induction false} ButtonPending(c: Config, items: seq<Item>)
    requires TicksBeforeEvents(items) && ButtonInFrame(items)
    ensures Since(c, items).s.mouseBtn
  {
    var before, last := items[..|items| - 1], items[|items| - 1];
    if last.Tick? {
      BoundaryHasNoButton(items);
    } else {
      if ButtonInFrame(before) { ButtonPending(c, before); }
      ButtonStays(c, Since(c, before).s, last);
    }
  }

  lemma {:induction false} ButtonStays(c: Config, s: RState, i: Item)
    requires !IsSyn(i) && !i.Tick?
    ensures IsButton(i) || s.mouseBtn ==> OnItem(c, s, i).s.mouseBtn
  {
    if i.e.typ == EV_KEY {
      KeyHeld(c, s, i);
      KeyEffect(s, Lookup(i.e.code), i.e.value);
    }
  }

  /** At every SYN that closes a frame with a button event and no tick inside, both modes have
      told the target the same buttons and the same total displacement, whatever the ticks of
      earlier frames: a click lands at the same place. */
  lemma {:induction false} ClickLandsAtSamePlace(invert: bool, frame: seq<Item>, syn: Item, a: Axis)
    requires IsSyn(syn) && TicksBeforeEvents(frame) && ButtonInFrame(frame)
    requires Lossless(Config(invert, false), frame + [syn]) && Lossless(Config(invert, true), frame + [syn])
    ensures var off, on := Since(Config(invert, false), frame + [syn]), Since(Config(invert, true), frame + [syn]);
            LastButtons(off.out) == LastButtons(on.out) && Sent(off.out, a) == Sent(on.out, a)
  {
    SamePlaceIff(invert, frame, syn);
    ButtonPending(Config(invert, true), frame);
  }

  /** The proviso on ticks is needed: a tick inside a frame sends the click before the rest
      of that frame's motion, which then waits. */
  lemma {:induction false} MidFrameTickMovesClick()
    ensures ButtonInFrame(MidFrame()) && !TicksBeforeEvents(MidFrame())
    ensures Sent(Since(Config(false, false), MidFrame() + [Syn()]).out, X) == 8
    ensures Sent(Since(Config(false, true), MidFrame() + [Syn()]).out, X) == 5
  {
    MidFrameRun(false);
    MidFrameRun(true);
    MidFrameShape();
  }

  lemma {:induction false} MidFrameShape()
    ensures ButtonInFrame(MidFrame()) && !TicksBeforeEvents(MidFrame())
  {
    var frame := MidFrame();
    var upToTick, upToClick := frame[..3], frame[..2];
    assert upToTick[..2] == upToClick && upToTick[2] == Tick && upToClick[1] == LeftDown();
    assert ButtonInFrame(upToClick) && !AtBoundary(upToClick);
  }

  function Motion5(): Item { Ev(Event(EV_REL, REL_X, 5)) }
  function LeftDown(): Item { Ev(Event(EV_KEY, 0x110, KEY_DOWN)) }
  function Motion3(): Item { Ev(Event(EV_REL, REL_X, 3)) }
  function Syn(): Item { Ev(Event(EV_SYN, 0, 0)) }

  function MidFrame(): seq<Item> {
    [Motion5(), LeftDown(), Tick, Motion3()]
  }

  lemma {:induction false} SinceAppend(c: Config, items: seq<Item>, i: Item)
    ensures Since(c, items + [i]) == Extend(c, Since(c, items), i)
  {
    assert (items + [i])[..|items|] == items;
  }

  /** The state and the reports just before the SYN. */
  function BeforeSyn(coalesce: bool): Reaction {
    if coalesce then
      Reaction(NEUTRAL.(dx := 3, buttons := 1, mouseDirty := true), ResetReports() + [Mouse(1, 5, 0, 0)])
    else
      Reaction(NEUTRAL.(dx := 8, buttons := 1, mouseDirty := true, mouseBtn := true), ResetReports())
  }

  const CLICKED := NEUTRAL.(dx := 5, buttons := 1, mouseDirty := true, mouseBtn := true)

  lemma {:induction false} ClickState(c: Config)
    ensures Since(c, [Motion5(), LeftDown()]) == Reaction(CLICKED, ResetReports())
  {
    SinceAppend(c, [], Motion5());
    SinceAppend(c, [Motion5()], LeftDown());
    assert [] + [Motion5()] == [Motion5()] && [Motion5()] + [LeftDown()] == [Motion5(), LeftDown()];
  }

  lemma {:induction false} MidFrameState(coalesce: bool)
    ensures Since(Config(false, coalesce), MidFrame()) == BeforeSyn(coalesce)
  {
    var c := Config(false, coalesce);
    var clicked := [Motion5(), LeftDown()];
    ClickState(c);
    SinceAppend(c, clicked, Tick);
    SinceAppend(c, clicked + [Tick], Motion3());
    assert clicked + [Tick] + [Motion3()] == MidFrame();
    if coalesce {
      assert OnTick(c, CLICKED).out == [Mouse(1, 5, 0, 0)];
    } else {
      assert OnTick(c, CLICKED) == Reaction(CLICKED, []);
    }
  }

  lemma {:induction false} SynAfter(coalesce: bool)
    ensures OnItem(Config(false, coalesce), BeforeSyn(coalesce).s, Syn()).out
         == if coalesce then [] else [Mouse(1, 8, 0, 0)]
  {
  }

  lemma {:induction false} MidFrameRun(coalesce: bool)
    ensures Sent(Since(Config(false, coalesce), MidFrame() + [Syn()]).out, X) == if coalesce then 5 else 8
  {
    var last := if coalesce then Mouse(1, 5, 0, 0) else Mouse(1, 8, 0, 0);
    MidFrameState(coalesce);
    SynAfter(coalesce);
    SinceAppend(Config(false, coalesce), MidFrame(), Syn());
    assert ResetReports() + [] == ResetReports() && ResetReports() + [last] + [] == ResetReports() + [last];
    SentReset();
    SentConcat(ResetReports(), [last], X);
    SentOne(last, X);
  }

  lemma {:induction false} SentReset()
    ensures forall a :: Sent(ResetReports(), a) == 0
  {
    var r := ResetReports();
    forall a ensures Sent(r, a) == 0 {
      SentConcat([r[0]], [r[1]], a);
      SentOne(r[0], a);
      SentOne(r[1], a);
      assert r == [r[0]] + [r[1]];
    }
  }
}
