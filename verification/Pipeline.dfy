/** The whole pipeline: evdev history, Reporter, wire frames, firmware parser, and the
    reports the target receives. */
module Pipeline {
  import opened Bytes
  import Wire
  import opened Parsing
  import ParserProperties
  import opened Reporting
  import opened KeyboardProperties
  import opened MotionProperties
  import Statistics

  /** The frame a sink writes for a report. */
  function MsgOf(r: Report): Wire.Msg {
    match r
    case Keyboard(rep) => Wire.Msg(Wire.KEYBOARD, rep)
    case Mouse(buttons, dx, dy, wheel) => Wire.Msg(Wire.MOUSE, Wire.MouseData(MaskByte(buttons), dx, dy, wheel))
  }

  function MsgsOf(rs: seq<Report>): (ms: seq<Wire.Msg>)
    ensures |ms| == |rs|
  {
    seq(|rs|, i requires 0 <= i < |rs| => MsgOf(rs[i]))
  }

  predicate IsReport(m: Wire.Msg) {
    (m.typ == Wire.KEYBOARD && |m.data| == 8) || (m.typ == Wire.MOUSE && |m.data| == 6)
  }

  /** How the target reads what the firmware hands to TinyUSB. */
  function ReportOf(m: Wire.Msg): Report
    requires IsReport(m)
  {
    if m.typ == Wire.KEYBOARD then Keyboard(m.data)
    else
      var (buttons, dx, dy, wheel) := Wire.MouseOf(m.data);
      Mouse(MaskOf(buttons), dx, dy, wheel)
  }

  predicate Sendable(r: Report) {
    match r
    case Keyboard(rep) => |rep| == 8
    case Mouse(_, dx, dy, wheel) => FitsIn(dx, TWO16) && FitsIn(dy, TWO16) && FitsIn(wheel, 256)
  }

  lemma {:induction false} ReportRoundTrip(r: Report)
    requires Sendable(r)
    ensures var m := MsgOf(r); Wire.WellFormed(m) && IsReport(m) && ReportOf(m) == r
  {
    if r.Mouse? {
      Wire.MouseRoundTrip(MaskByte(r.buttons), r.dx, r.dy, r.wheel);
      MaskRoundTrip(r.buttons);
    }
  }

  predicate AllSendable(rs: seq<Report>) {
    forall i :: 0 <= i < |rs| ==> Sendable(rs[i])
  }

  lemma {:induction false} EmittedIsSendable(c: Config, items: seq<Item>)
    ensures AllSendable(Since(c, items).out)
  {
    if items != [] {
      var before, last := items[..|items| - 1], items[|items| - 1];
      EmittedIsSendable(c, before);
      ItemSends(c, Since(c, before).s, last);
    }
  }

  /** The reports that reach the target, in order, when the link delivers every byte and
      the host is ready. */
  function Received(p: ParserState, buf: ChunkBuf, pieces: seq<seq<byte>>): seq<Report>
    requires forall i :: 0 <= i < |RunPieces(p, buf, pieces).out| ==> IsReport(RunPieces(p, buf, pieces).out[i])
  {
    var ms := RunPieces(p, buf, pieces).out;
    seq(|ms|, i requires 0 <= i < |ms| => ReportOf(ms[i]))
  }

  /** However the link cuts the bytes, the target receives exactly the reports that were sent,
      in order and with the same signed values. */
  lemma {:induction false} SendableArrive(out: seq<Report>, p: ParserState, buf: ChunkBuf, pieces: seq<seq<byte>>)
    requires p.st == Sync && AllSendable(out) && Flatten(pieces) == Wire.EncodeAll(MsgsOf(out))
    ensures var ms := RunPieces(p, buf, pieces).out;
            (forall i :: 0 <= i < |ms| ==> IsReport(ms[i])) && Received(p, buf, pieces) == out
  {
    forall i | 0 <= i < |out|
      ensures Wire.WellFormed(MsgOf(out[i])) && IsReport(MsgOf(out[i])) && ReportOf(MsgOf(out[i])) == out[i]
    {
      ReportRoundTrip(out[i]);
    }
    ParserProperties.StreamRoundTrip(p, buf, MsgsOf(out), pieces);
    assert Received(p, buf, pieces) == out;
  }

  /** So it is for the reports of every history. */
  lemma {:induction false} ReportsArrive(c: Config, items: seq<Item>, p: ParserState, buf: ChunkBuf, pieces: seq<seq<byte>>)
    requires p.st == Sync && Flatten(pieces) == Wire.EncodeAll(MsgsOf(Since(c, items).out))
    ensures var ms := RunPieces(p, buf, pieces).out;
            && (forall i :: 0 <= i < |ms| ==> IsReport(ms[i]))
            && Received(p, buf, pieces) == Since(c, items).out
  {
    EmittedIsSendable(c, items);
    SendableArrive(Since(c, items).out, p, buf, pieces);
  }

  /** After every SYN, in both modes, what the target holds is what the history says: the
      modifiers, up to six keys in press order (rollover beyond), and the buttons. */
  lemma {:induction false} TargetMirrorsHistory(c: Config, items: seq<Item>, p: ParserState, buf: ChunkBuf,
                                                pieces: seq<seq<byte>>)
    requires items != [] && IsSyn(items[|items| - 1])
    requires p.st == Sync && Flatten(pieces) == Wire.EncodeAll(MsgsOf(Since(c, items).out))
    ensures var ms, keys := RunPieces(p, buf, pieces).out, Since(c, items).s.keys;
            && (forall i :: 0 <= i < |ms| ==> IsReport(ms[i]))
            && KeysRefine(items, keys)
            && var got := Received(p, buf, pieces);
               && |LastKeyboard(got)| == 8
               && Decode(LastKeyboard(got))
                  == (if |keys| > SLOTS then Rollover(HeldMods(items)) else Held6(HeldMods(items), keys))
               && LastButtons(got) == HeldButtons(items)
  {
    ReportsArrive(c, items, p, buf, pieces);
    CaughtUpAtSyn(c, items);
    FlushedReportRefines(c, items);
    MasksRefine(c, items);
  }

  // ---- What the keystroke counter makes of the Reporter's stream ----

  /** The Reporter's current report keeps its key slots apart exactly while at most six keys
      are held. */
  lemma {:induction false} ReportIsCleanIff(c: Config, items: seq<Item>)
    ensures var s := Since(c, items).s;
            Statistics.Clean(KeyboardReport(s.mods, s.keys)[2..]) <==> |s.keys| <= SLOTS
  {
    var s := Since(c, items).s;
    KeyListRefines(c, items);
    KeysProper(items, s.keys);
    assert KeyboardReport(s.mods, s.keys)[2..] == Slots(s.keys);
    SlotsCleanIff(s.keys);
  }

  /** The key slots of the keyboard reports in a stream. */
  function SlotsOf(out: seq<Report>): seq<seq<byte>> {
    if out == [] then [] else SlotsOf(out[..|out| - 1]) + SlotsIn(out[|out| - 1])
  }

  function SlotsIn(r: Report): seq<seq<byte>> {
    if r.Keyboard? && |r.rep| == 8 then [r.rep[2..]] else []
  }

  /** No keyboard report was sent with more than six keys down. */
  predicate NeverOverSix(c: Config, items: seq<Item>) {
    items == [] ||
    var before, last := items[..|items| - 1], items[|items| - 1];
    NeverOverSix(c, before) && (IsSyn(last) && Since(c, before).s.kbdDirty ==> |Since(c, before).s.keys| <= SLOTS)
  }

  lemma {:induction false} SlotsOfConcat(x: seq<Report>, y: seq<Report>)
    ensures SlotsOf(x + y) == SlotsOf(x) + SlotsOf(y)
  {
    if y == [] {
      assert x + y == x;
    } else {
      assert (x + y)[..|x + y| - 1] == x + y[..|y| - 1];
      SlotsOfConcat(x, y[..|y| - 1]);
    }
  }

  lemma {:induction false} SlotsOfTwo(k: Report, m: Report, sendK: bool, sendM: bool)
    requires k.Keyboard? && m.Mouse?
    ensures SlotsOf((if sendK then [k] else []) + (if sendM then [m] else [])) == if sendK then SlotsIn(k) else []
  {
    SlotsOfConcat(if sendK then [k] else [], if sendM then [m] else []);
    SlotsOfOne(k);
    SlotsOfOne(m);
  }

  lemma {:induction false} SlotsOfOne(r: Report)
    ensures SlotsOf([r]) == SlotsIn(r)
  {
    assert [r][..0] == [];
  }

  /** What an item adds to the slots sent so far. */
  lemma {:induction false} SlotsStep(c: Config, before: seq<Item>, last: Item)
    ensures var s := Since(c, before).s;
            SlotsOf(Since(c, before + [last]).out)
            == SlotsOf(Since(c, before).out) + if IsSyn(last) && s.kbdDirty then [Slots(s.keys)] else []
  {
    var b := Since(c, before);
    SinceAppend(c, before, last);
    SlotsOfConcat(b.out, OnItem(c, b.s, last).out);
    SlotsOfItem(c, b.s, last);
  }

  lemma {:induction false} SlotsOfItem(c: Config, s: RState, i: Item)
    ensures SlotsOf(OnItem(c, s, i).out) == if IsSyn(i) && s.kbdDirty then [Slots(s.keys)] else []
  {
    var k, m := FlushKeyboard(s).out[0], FlushMouse(c, s).out[0];
    ItemSends(c, s, i);
    SlotsOfTwo(k, m, IsSyn(i) && s.kbdDirty, FlushesMouse(c, s, i));
    SlotsOfReport(s.mods, s.keys);
  }

  lemma {:induction false} SlotsOfReport(mods: bv8, keys: seq<int>)
    ensures SlotsIn(Keyboard(KeyboardReport(mods, keys))) == [Slots(keys)]
  {
    assert KeyboardReport(mods, keys)[2..] == Slots(keys);
  }

  lemma {:induction false} SlotsCleanIff(keys: seq<int>)
    requires Proper(keys)
    ensures Statistics.Clean(Slots(keys)) <==> |keys| <= SLOTS
    ensures |keys| <= SLOTS ==> 1 !in Slots(keys)
  {
    var slots := Slots(keys);
    if |keys| > SLOTS {
      assert slots[0] == slots[1] == 1;
    } else {
      forall i, j | 0 <= i < j < |keys| ensures slots[i] != slots[j] {
        assert keys[i] != keys[j];
      }
    }
  }

  /** Six rollover slots count six times unless the report before had them too. */
  lemma {:induction false} NewOnceIff(prev: seq<byte>, keys: seq<int>)
    requires Proper(keys) && 1 !in prev
    ensures Statistics.NewOnce(prev, Slots(keys)) <==> |keys| <= SLOTS
  {
    SlotsCleanIff(keys);
    var slots := Slots(keys);
    if |keys| > SLOTS {
      assert slots[0] == slots[1] == 1 && Statistics.IsNew(prev, 1);
    }
  }

  /** The counter's premise holds of a stream exactly while that is so. */
  predicate CountsRight(slots: seq<seq<byte>>, neverOver: bool) {
    && (Statistics.AllNewOnce(Statistics.BOOT, slots) <==> neverOver)
    && (neverOver ==> 1 !in Statistics.Last(Statistics.BOOT, slots))
  }

  lemma {:induction false} StreamStep(c: Config, items: seq<Item>)
    ensures CountsRight(SlotsOf(Since(c, items).out), NeverOverSix(c, items))
  {
    if items == [] {
      SlotsAtReset();
    } else {
      var before, last := items[..|items| - 1], items[|items| - 1];
      StreamStep(c, before);
      assert items == before + [last];
      StreamNext(c, before, last);
    }
  }

  lemma {:induction false} StreamNext(c: Config, before: seq<Item>, last: Item)
    requires CountsRight(SlotsOf(Since(c, before).out), NeverOverSix(c, before))
    ensures CountsRight(SlotsOf(Since(c, before + [last]).out), NeverOverSix(c, before + [last]))
  {
    var s, slots := Since(c, before).s, SlotsOf(Since(c, before).out);
    SlotsStep(c, before, last);
    assert (before + [last])[..|before|] == before;
    if IsSyn(last) && s.kbdDirty {
      KeyListRefines(c, before);
      KeysProper(before, s.keys);
      AppendSlots(slots, s.keys, NeverOverSix(c, before));
    } else {
      assert slots + [] == slots;
    }
  }

  lemma {:induction false} AppendSlots(slots: seq<seq<byte>>, keys: seq<int>, neverOver: bool)
    requires Proper(keys) && CountsRight(slots, neverOver)
    ensures CountsRight(slots + [Slots(keys)], neverOver && |keys| <= SLOTS)
  {
    Statistics.NewOnceAppend(Statistics.BOOT, slots, Slots(keys));
    SlotsCleanIff(keys);
    if neverOver {
      NewOnceIff(Statistics.Last(Statistics.BOOT, slots), keys);
    }
  }

  lemma {:induction false} SlotsAtReset()
    ensures SlotsOf(ResetReports()) == [Statistics.BOOT] && AllClean([Statistics.BOOT])
    ensures CountsRight([Statistics.BOOT], true)
  {
    var k, m := ResetReports()[0], ResetReports()[1];
    assert ResetReports() == [k] + [m];
    SlotsOfTwo(k, m, true, true);
    SlotsOfReport(0, []);
    assert Slots([]) == Statistics.BOOT;
    assert Statistics.AllNewOnce(Statistics.BOOT, [Statistics.BOOT][1..]);
  }

  /** Over every history, the keystrokes counted from the Reporter's stream are the keys
      pressed if and only if no report was sent with more than six keys down; otherwise they
      are too many. */
  lemma {:induction false} StreamCountsIff(c: Config, items: seq<Item>)
    ensures var slots := SlotsOf(Since(c, items).out);
            && Statistics.Keystrokes(Statistics.BOOT, slots) >= Statistics.Pressed(slots)
            && (Statistics.Keystrokes(Statistics.BOOT, slots) == Statistics.Pressed(slots) <==> NeverOverSix(c, items))
  {
    StreamStep(c, items);
    Statistics.CountedSinceBoot(SlotsOf(Since(c, items).out));
  }

  /** And so is the firmware's 32-bit counter, modulo 2^32. */
  lemma {:induction false} StreamCounter(c: Config, items: seq<Item>)
    requires NeverOverSix(c, items)
    ensures var slots := SlotsOf(Since(c, items).out);
            Statistics.KeystrokeCounter(0, Statistics.BOOT, slots) == Statistics.Pressed(slots) % TWO32
  {
    StreamStep(c, items);
    Statistics.KeystrokeCounterExact(SlotsOf(Since(c, items).out));
  }

  /** Each keyboard report of the stream keeps its key slots apart exactly while that is so. */
  lemma {:induction false} StreamIsCleanIff(c: Config, items: seq<Item>)
    ensures CleanIff(SlotsOf(Since(c, items).out), NeverOverSix(c, items))
  {
    if items == [] {
      SlotsAtReset();
    } else {
      var before, last := items[..|items| - 1], items[|items| - 1];
      StreamIsCleanIff(c, before);
      assert items == before + [last];
      CleanNext(c, before, last);
    }
  }

  lemma {:induction false} CleanNext(c: Config, before: seq<Item>, last: Item)
    requires CleanIff(SlotsOf(Since(c, before).out), NeverOverSix(c, before))
    ensures CleanIff(SlotsOf(Since(c, before + [last]).out), NeverOverSix(c, before + [last]))
  {
    var s, slots := Since(c, before).s, SlotsOf(Since(c, before).out);
    SlotsStep(c, before, last);
    assert (before + [last])[..|before|] == before;
    if IsSyn(last) && s.kbdDirty {
      KeyListRefines(c, before);
      KeysProper(before, s.keys);
      SlotsCleanIff(s.keys);
      AllCleanAppend(slots, Slots(s.keys));
    } else {
      assert slots + [] == slots;
    }
  }

  predicate CleanIff(slots: seq<seq<byte>>, neverOver: bool) {
    AllClean(slots) <==> neverOver
  }

  predicate AllClean(reports: seq<seq<byte>>) {
    forall i :: 0 <= i < |reports| ==> Statistics.Clean(reports[i])
  }

  lemma {:induction false} AllCleanAppend(reports: seq<seq<byte>>, next: seq<byte>)
    ensures AllClean(reports + [next]) <==> AllClean(reports) && Statistics.Clean(next)
  {
    var all := reports + [next];
    assert all[|reports|] == next;
    assert forall i :: 0 <= i < |reports| ==> all[i] == reports[i];
  }
}
