/** When a report is due and what it holds, from the history of events and ticks alone. */
module ReportHistory {
  import opened Keymap
  import opened Reporting
  import opened KeyboardProperties
  import opened MotionProperties

  // ---- The keyboard ----

  /** A press or release of a modifier or mapped key. */
  predicate TouchesKeys(i: Item) {
    && i.Ev? && i.e.typ == EV_KEY && i.e.value != KEY_REPEAT
    && MouseButtonBit(i.e.code) == 0 && (ModBit(i.e.code) != 0 || HidUsage(i.e.code) != 0)
  }

  /** There has been one since the last SYN. */
  predicate KeysTouched(items: seq<Item>) {
    items != [] && !IsSyn(items[|items| - 1]) &&
    (TouchesKeys(items[|items| - 1]) || KeysTouched(items[..|items| - 1]))
  }

  lemma {:induction false} DirtyStep(c: Config, s: RState, i: Item)
    ensures OnItem(c, s, i).s.kbdDirty <==> !IsSyn(i) && (TouchesKeys(i) || s.kbdDirty)
  {
    ItemHeld(c, s, i);
    if i.Ev? && i.e.typ == EV_KEY {
      DirtyKey(s, Lookup(i.e.code), i.e.value);
    }
  }

  lemma {:induction false} DirtyKey(s: RState, k: Entry, value: int)
    ensures OnKey(s, k, value).kbdDirty <==>
              s.kbdDirty || (k.button == 0 && value != KEY_REPEAT && (k.modifier != 0 || k.usage != 0))
  {
  }

  /** A keyboard report is pending exactly if a key has been touched since the last SYN. */
  lemma {:induction false} KeyboardPending(c: Config, items: seq<Item>)
    ensures Since(c, items).s.kbdDirty <==> KeysTouched(items)
  {
    if items != [] {
      var before, last := items[..|items| - 1], items[|items| - 1];
      KeyboardPending(c, before);
      DirtyStep(c, Since(c, before).s, last);
    }
  }

  /** What is due: at every SYN after a touched key, the report of what is then held. */
  function KeyboardsDue(c: Config, items: seq<Item>): seq<Report> {
    if items == [] then [Keyboard(KeyboardReport(0, []))]
    else
      var before := items[..|items| - 1];
      KeyboardsDue(c, before) + KeyboardDue(c, before, items[|items| - 1])
  }

  function KeyboardDue(c: Config, before: seq<Item>, last: Item): seq<Report> {
    if IsSyn(last) && KeysTouched(before) then [Keyboard(KeyboardReport(HeldMods(before), Since(c, before).s.keys))]
    else []
  }

  /** Over every history the keyboard reports sent are exactly those due, in order. (The keys of
      each are those KeyListRefines describes.) */
  lemma {:induction false} KeyboardStream(c: Config, items: seq<Item>)
    ensures Keyboards(Since(c, items).out) == KeyboardsDue(c, items)
  {
    if items == [] {
      KeyboardsAtReset();
    } else {
      var before, last := items[..|items| - 1], items[|items| - 1];
      KeyboardStream(c, before);
      KeyboardSent(c, before, last);
      KeyboardsConcat(Since(c, before).out, OnItem(c, Since(c, before).s, last).out);
    }
  }

  lemma {:induction false} KeyboardSent(c: Config, before: seq<Item>, last: Item)
    ensures Keyboards(OnItem(c, Since(c, before).s, last).out) == KeyboardDue(c, before, last)
  {
    KeyboardPending(c, before);
    MasksRefine(c, before);
    KeyboardsOfStep(c, Since(c, before).s, last);
  }

  lemma {:induction false} KeyboardsAtReset()
    ensures Keyboards(ResetReports()) == [Keyboard(KeyboardReport(0, []))]
    ensures Mice(ResetReports()) == [Mouse(0, 0, 0, 0)]
  {
    var k, m := ResetReports()[0], ResetReports()[1];
    assert ResetReports() == [k] + [m];
    KeyboardsOfTwo(k, m, true, true);
    MiceOfTwo(k, m, true, true);
  }

  // ---- The mouse ----

  function Mice(out: seq<Report>): seq<Report> {
    if out == [] then []
    else Mice(out[..|out| - 1]) + if out[|out| - 1].Mouse? then [out[|out| - 1]] else []
  }

  lemma {:induction false} MiceConcat(x: seq<Report>, y: seq<Report>)
    ensures Mice(x + y) == Mice(x) + Mice(y)
  {
    if y == [] {
      assert x + y == x;
    } else {
      assert (x + y)[..|x + y| - 1] == x + y[..|y| - 1];
      MiceConcat(x, y[..|y| - 1]);
    }
  }

  lemma {:induction false} MiceOne(r: Report)
    ensures Mice([r]) == if r.Mouse? then [r] else []
  {
    assert [r][..0] == [];
  }

  lemma {:induction false} MiceOfTwo(k: Report, m: Report, sendK: bool, sendM: bool)
    requires k.Keyboard? && m.Mouse?
    ensures Mice((if sendK then [k] else []) + (if sendM then [m] else [])) == if sendM then [m] else []
  {
    MiceConcat(if sendK then [k] else [], if sendM then [m] else []);
    MiceOne(k);
    MiceOne(m);
  }

  /** Motion of any kind, or a button event. */
  predicate TouchesMouse(i: Item) {
    (i.Ev? && i.e.typ == EV_REL) || IsButton(i)
  }

  /** A mouse report is due at this item: at a SYN, after a button event since the last report,
      or without coalescing after any mouse event; and at a tick with coalescing, if there is
      motion to tell. */
  predicate MouseDue(c: Config, before: seq<Item>, last: Item)
    decreases |before|, 1
  {
    if last.Tick? then
      c.coalesce && (MotionSince(c, before, X) % 0x1_0000_0000 != 0 || MotionSince(c, before, Y) % 0x1_0000_0000 != 0
                     || MotionSince(c, before, Wheel) % 0x1_0000_0000 != 0)
    else IsSyn(last) && if c.coalesce then Clicked(c, before) else Touched(c, before)
  }

  /** A mouse event since the last mouse report. */
  predicate Touched(c: Config, items: seq<Item>)
    decreases |items|, 0
  {
    items != [] &&
    var before, last := items[..|items| - 1], items[|items| - 1];
    !MouseDue(c, before, last) && (TouchesMouse(last) || Touched(c, before))
  }

  /** A button event since the last mouse report. */
  predicate Clicked(c: Config, items: seq<Item>)
    decreases |items|, 0
  {
    items != [] &&
    var before, last := items[..|items| - 1], items[|items| - 1];
    !MouseDue(c, before, last) && (IsButton(last) || Clicked(c, before))
  }

  /** The motion since the last mouse report. */
  function MotionSince(c: Config, items: seq<Item>, a: Axis): int
    decreases |items|, 0
  {
    if items == [] then 0
    else
      var before, last := items[..|items| - 1], items[|items| - 1];
      if MouseDue(c, before, last) then 0 else MotionSince(c, before, a) + Motion(last, a)
  }

  /** The report that is then due. */
  function MouseReport(c: Config, items: seq<Item>): Report {
    Mouse(HeldButtons(items), Clamp16(Int32(MotionSince(c, items, X))), Clamp16(Int32(MotionSince(c, items, Y))),
          Clamp8(Int32(Turned(c, Wheel, MotionSince(c, items, Wheel)))))
  }

  function MiceDue(c: Config, items: seq<Item>): seq<Report> {
    if items == [] then [Mouse(0, 0, 0, 0)]
    else
      var before := items[..|items| - 1];
      MiceDue(c, before) + if MouseDue(c, before, items[|items| - 1]) then [MouseReport(c, before)] else []
  }

  /** The Reporter's mouse state is what the history says. */
  predicate Agrees(s: RState, touched: bool, clicked: bool, dx: int, dy: int, wheel: int) {
    && s.mouseDirty == touched && s.mouseBtn == clicked
    && s.dx == Int32(dx) && s.dy == Int32(dy) && s.wheel == Int32(wheel)
  }

  predicate MouseAgrees(c: Config, items: seq<Item>) {
    Agrees(Since(c, items).s, Touched(c, items), Clicked(c, items),
           MotionSince(c, items, X), MotionSince(c, items, Y), MotionSince(c, items, Wheel))
  }

  lemma {:induction false} Int32Period(v: int, q: int)
    ensures Int32(v + q * 0x1_0000_0000) == Int32(v)
  {
  }

  lemma {:induction false} Int32Turns(v: int) returns (q: int)
    ensures Int32(v) == v + q * 0x1_0000_0000
  {
    q := -((v + 0x8000_0000) / 0x1_0000_0000);
  }

  /** A wrapped sum may be wrapped before, and so may a negated value. */
  lemma {:induction false} Int32Again(x: int, y: int)
    ensures Int32(Int32(x) + y) == Int32(x + y)
    ensures Int32(-Int32(x)) == Int32(-x)
  {
    var q := Int32Turns(x);
    Int32Period(x + y, q);
    Int32Period(-x, -q);
  }

  lemma {:induction false} Int32Zero(x: int)
    ensures Int32(x) == 0 <==> x % 0x1_0000_0000 == 0
  {
  }

  /** The flushes are those due. */
  lemma {:induction false} FlushIsDue(c: Config, before: seq<Item>, last: Item)
    requires MouseAgrees(c, before)
    ensures FlushesMouse(c, Since(c, before).s, last) <==> MouseDue(c, before, last)
  {
    if last.Tick? {
      Int32Zero(MotionSince(c, before, X));
      Int32Zero(MotionSince(c, before, Y));
      Int32Zero(MotionSince(c, before, Wheel));
    }
  }

  /** One item, flushing or not. */
  lemma {:induction false} MouseStep(
      c: Config, s: RState, i: Item, touched: bool, clicked: bool, dx: int, dy: int, wheel: int)
    requires Agrees(s, touched, clicked, dx, dy, wheel) && (clicked ==> touched)
    ensures var due := FlushesMouse(c, s, i);
            Agrees(OnItem(c, s, i).s,
                   !due && (TouchesMouse(i) || touched), !due && (IsButton(i) || clicked),
                   if due then 0 else dx + Motion(i, X), if due then 0 else dy + Motion(i, Y),
                   if due then 0 else wheel + Motion(i, Wheel))
  {
    if i.Ev? && i.e.typ == EV_KEY {
      KeyHeld(c, s, i);
      MouseOfKey(s, Lookup(i.e.code), i.e.value);
    } else if i.Ev? && i.e.typ == EV_REL {
      MouseOfRel(s, i, dx, dy, wheel);
    } else if i.Ev? && i.e.typ == EV_SYN {
      MouseOfSyn(c, s);
    }
    Int32OfZero();
  }

  lemma {:induction false} Int32OfZero()
    ensures Int32(0) == 0
  {
  }

  lemma {:induction false} MouseOfRel(s: RState, i: Item, dx: int, dy: int, wheel: int)
    requires i.Ev? && i.e.typ == EV_REL
    requires s.dx == Int32(dx) && s.dy == Int32(dy) && s.wheel == Int32(wheel)
    ensures var r := OnRel(s, i.e.code, i.e.value);
            && r.dx == Int32(dx + Motion(i, X)) && r.dy == Int32(dy + Motion(i, Y))
            && r.wheel == Int32(wheel + Motion(i, Wheel))
  {
    match i.e.code
    case 0 => Int32Again(dx, i.e.value);
    case 1 => Int32Again(dy, i.e.value);
    case 8 => Int32Again(wheel, i.e.value);
    case _ =>
  }

  lemma {:induction false} MouseOfKey(s: RState, k: Entry, value: int)
    ensures var r := OnKey(s, k, value);
            && r.dx == s.dx && r.dy == s.dy && r.wheel == s.wheel
            && r.mouseDirty == (s.mouseDirty || k.button != 0) && r.mouseBtn == (s.mouseBtn || k.button != 0)
  {
    if k.button != 0 {
      assert OnKey(s, k, value) == OnButton(s, k.button, value);
    }
  }

  lemma {:induction false} MouseOfSyn(c: Config, s: RState)
    ensures var r, flushed := OnSyn(c, s).s, SynFlushesMouse(c, s);
            && r.mouseDirty == (s.mouseDirty && !flushed) && r.mouseBtn == (s.mouseBtn && !flushed)
            && (if flushed then Motionless(r) else r.dx == s.dx && r.dy == s.dy && r.wheel == s.wheel)
  {
    FlagsOfSyn(c, s);
    SynMoves(c, s, X);
    SynMoves(c, s, Y);
    SynMoves(c, s, Wheel);
    assert forall r: RState :: r.dx == Acc(r, X) && r.dy == Acc(r, Y) && r.wheel == Acc(r, Wheel);
  }

  lemma {:induction false} FlagsOfSyn(c: Config, s: RState)
    ensures var r, flushed := OnSyn(c, s).s, SynFlushesMouse(c, s);
            r.mouseDirty == (s.mouseDirty && !flushed) && r.mouseBtn == (s.mouseBtn && !flushed)
  {
  }

  lemma {:induction false} ClickTouches(c: Config, items: seq<Item>)
    ensures Clicked(c, items) ==> Touched(c, items)
  {
    if items != [] {
      ClickTouches(c, items[..|items| - 1]);
    }
  }

  /** Over every history: what is pending is what came since the last report. */
  lemma {:induction false} MousePending(c: Config, items: seq<Item>)
    ensures MouseAgrees(c, items)
  {
    if items != [] {
      var before, last := items[..|items| - 1], items[|items| - 1];
      MousePending(c, before);
      assert items == before + [last];
      MouseNext(c, before, last);
    }
  }

  lemma {:induction false} MouseNext(c: Config, before: seq<Item>, last: Item)
    requires MouseAgrees(c, before)
    ensures MouseAgrees(c, before + [last])
  {
    assert (before + [last])[..|before|] == before;
    FlushIsDue(c, before, last);
    ClickTouches(c, before);
    SinceAppend(c, before, last);
    MouseStep(c, Since(c, before).s, last, Touched(c, before), Clicked(c, before),
              MotionSince(c, before, X), MotionSince(c, before, Y), MotionSince(c, before, Wheel));
  }

  /** Over every history, with ticks anywhere and in both modes, the mouse reports sent are
      exactly those due, in order, each with the buttons held and the motion since the last. */
  lemma {:induction false} MouseStream(c: Config, items: seq<Item>)
    ensures Mice(Since(c, items).out) == MiceDue(c, items)
  {
    if items == [] {
      KeyboardsAtReset();
    } else {
      var before, last := items[..|items| - 1], items[|items| - 1];
      MouseStream(c, before);
      MouseSent(c, before, last);
      MiceConcat(Since(c, before).out, OnItem(c, Since(c, before).s, last).out);
    }
  }

  lemma {:induction false} MouseSent(c: Config, before: seq<Item>, last: Item)
    ensures Mice(OnItem(c, Since(c, before).s, last).out)
         == if MouseDue(c, before, last) then [MouseReport(c, before)] else []
  {
    var s := Since(c, before).s;
    MousePending(c, before);
    FlushIsDue(c, before, last);
    ItemSends(c, s, last);
    MiceOfTwo(FlushKeyboard(s).out[0], FlushMouse(c, s).out[0], IsSyn(last) && s.kbdDirty, FlushesMouse(c, s, last));
    MasksRefine(c, before);
    ReportFlushed(c, s, HeldButtons(before),
                  MotionSince(c, before, X), MotionSince(c, before, Y), MotionSince(c, before, Wheel));
  }

  lemma {:induction false} ReportFlushed(c: Config, s: RState, buttons: bv8, dx: int, dy: int, wheel: int)
    requires s.buttons == buttons && s.dx == Int32(dx) && s.dy == Int32(dy) && s.wheel == Int32(wheel)
    ensures FlushMouse(c, s).out[0]
         == Mouse(buttons, Clamp16(Int32(dx)), Clamp16(Int32(dy)), Clamp8(Int32(Turned(c, Wheel, wheel))))
  {
    Int32Again(wheel, 0);
  }
}
