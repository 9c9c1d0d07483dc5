/** Where motion meets the limits of the report: the wheel's declared range, and saturation. */
module MotionLimits {
  import opened Bytes
  import opened Reporting
  import opened MotionProperties

  /** The wheel byte leaves the descriptor's declared range [-127, 127] exactly when the
      accumulated wheel motion is -128 or less. */
  lemma {:induction false} WheelBelowDeclaredRange(v: int)
    ensures -127 <= Clamp8(v) <= 127 <==> v > -128
  {
  }

  /** The wheel values sent are those the descriptor declares. */
  predicate Declared(out: seq<Report>) {
    forall i :: 0 <= i < |out| ==> DeclaredWheel(out[i])
  }

  predicate DeclaredWheel(r: Report) {
    r.Mouse? ==> -127 <= r.wheel <= 127
  }

  /** No flush finds a wheel turned by -128 or less. */
  predicate NeverFarDown(c: Config, items: seq<Item>) {
    items == [] ||
    var before, last := items[..|items| - 1], items[|items| - 1];
    var s := Since(c, before).s;
    NeverFarDown(c, before) && (FlushesMouse(c, s, last) ==> WheelOut(c, s.wheel) > -128)
  }

  lemma {:induction false} DeclaredConcat(a: seq<Report>, b: seq<Report>)
    ensures Declared(a + b) <==> Declared(a) && Declared(b)
  {
    var all := a + b;
    assert forall i :: 0 <= i < |a| ==> all[i] == a[i];
    assert forall i :: 0 <= i < |b| ==> all[|a| + i] == b[i];
  }

  lemma {:induction false} DeclaredTwo(k: Report, m: Report, sendK: bool, sendM: bool)
    requires k.Keyboard?
    ensures Declared((if sendK then [k] else []) + (if sendM then [m] else [])) <==> (sendM ==> DeclaredWheel(m))
  {
    DeclaredConcat(if sendK then [k] else [], if sendM then [m] else []);
    assert sendM ==> (if sendM then [m] else [])[0] == m;
  }

  lemma {:induction false} DeclaredItem(c: Config, s: RState, i: Item)
    ensures Declared(OnItem(c, s, i).out) <==> (FlushesMouse(c, s, i) ==> WheelOut(c, s.wheel) > -128)
  {
    var k, m := FlushKeyboard(s).out[0], FlushMouse(c, s).out[0];
    ItemSends(c, s, i);
    DeclaredTwo(k, m, IsSyn(i) && s.kbdDirty, FlushesMouse(c, s, i));
    WheelOfFlush(c, s);
  }

  lemma {:induction false} WheelOfFlush(c: Config, s: RState)
    ensures DeclaredWheel(FlushMouse(c, s).out[0]) <==> WheelOut(c, s.wheel) > -128
  {
    WheelBelowDeclaredRange(WheelOut(c, s.wheel));
  }

  /** Over every history, every wheel value sent is a declared one if and only if no flush
      found a wheel turned by -128 or less. */
  lemma {:induction false} DeclaredIffNeverFarDown(c: Config, items: seq<Item>)
    ensures Declared(Since(c, items).out) <==> NeverFarDown(c, items)
  {
    if items != [] {
      var before, last := items[..|items| - 1], items[|items| - 1];
      var b := Since(c, before);
      DeclaredIffNeverFarDown(c, before);
      DeclaredItem(c, b.s, last);
      DeclaredConcat(b.out, OnItem(c, b.s, last).out);
    }
  }

  // ---- Runs at the limits ----

  /** One event and the end of its frame, without coalescing. */
  function OneEvent(code: int, value: int): seq<Item> {
    [Ev(Event(EV_REL, code, value)), Ev(Event(EV_SYN, 0, 0))]
  }

  lemma {:induction false} OneEventRun(c: Config, code: int, value: int)
    requires !c.coalesce
    ensures var s := OnRel(NEUTRAL, code, value);
            && Since(c, [OneEvent(code, value)[0]]) == Reaction(s, ResetReports())
            && Since(c, OneEvent(code, value)).out == ResetReports() + FlushMouse(c, s).out
  {
    var e, syn := OneEvent(code, value)[0], OneEvent(code, value)[1];
    SinceAppend(c, [], e);
    SinceAppend(c, [e], syn);
    assert [] + [e] == [e] && [e] + [syn] == OneEvent(code, value);
    assert ResetReports() + [] == ResetReports();
  }

  /** Forty thousand counts in one frame: the target is told of 32767, the rest is lost. */
  lemma {:induction false} SaturatedRun(invert: bool)
    ensures var c, items := Config(invert, false), OneEvent(REL_X, 40000);
            Sent(Since(c, items).out, X) == 32767 && Saturation(c, items, X) == 7233
  {
    var c, e, syn := Config(invert, false), OneEvent(REL_X, 40000)[0], OneEvent(REL_X, 40000)[1];
    var s := OnRel(NEUTRAL, REL_X, 40000);
    assert s.dx == 40000;
    OneEventRun(c, REL_X, 40000);
    SentReset();
    SentConcat(ResetReports(), FlushMouse(c, s).out, X);
    SentOne(FlushMouse(c, s).out[0], X);
    SaturationOfTwo(c, e, syn);
    SaturatedFlush(c, s, syn);
  }

  lemma {:induction false} SaturatedFlush(c: Config, s: RState, syn: Item)
    requires !c.coalesce && s.mouseDirty && s.dx == 40000 && IsSyn(syn)
    ensures DiscardedBy(c, s, syn, X) == 7233 && Moved(FlushMouse(c, s).out[0], X) == 32767
  {
  }

  lemma {:induction false} SaturationOfTwo(c: Config, e: Item, syn: Item)
    requires !FlushesMouse(c, NEUTRAL, e)
    ensures var lost := DiscardedBy(c, Since(c, [e]).s, syn, X);
            Saturation(c, [e, syn], X) == if lost < 0 then -lost else lost
  {
    assert [e, syn][..1] == [e] && [e][..0] == [];
    assert Saturation(c, [e], X) == 0;
  }

  /** A wheel turned by 128 the declared way down sends -128. */
  lemma {:induction false} FarDownRun(invert: bool)
    ensures var c, items := Config(invert, false), OneEvent(REL_WHEEL, if invert then 128 else -128);
            Since(c, items).out == ResetReports() + [Mouse(0, 0, 0, -128)] && !NeverFarDown(c, items)
  {
    var c, v := Config(invert, false), if invert then 128 else -128;
    var s := OnRel(NEUTRAL, REL_WHEEL, v);
    assert FlushMouse(c, s).out == [Mouse(0, 0, 0, -128)];
    OneEventRun(c, REL_WHEEL, v);
    DeclaredIffNeverFarDown(c, OneEvent(REL_WHEEL, v));
    var out := Since(c, OneEvent(REL_WHEEL, v)).out;
    assert out[2] == Mouse(0, 0, 0, -128) && !DeclaredWheel(out[2]);
  }
}
