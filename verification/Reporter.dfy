/** The daemon's Reporter (report.go): evdev events in, HID reports out. */
module Reporting {
  import opened Bytes
  import opened Keymap
  import opened Slices

  const EV_SYN := 0
  const EV_KEY := 1
  const EV_REL := 2
  const REL_X := 0
  const REL_Y := 1
  const REL_WHEEL := 8
  const KEY_UP := 0
  const KEY_DOWN := 1
  const KEY_REPEAT := 2

  const SLOTS := 6

  datatype Event = Event(typ: int, code: int, value: int)

  /** What reaches the Reporter: events, and ticks of the coalescing timer. */
  datatype Item = Ev(e: Event) | Tick

  datatype Report =
    | Keyboard(rep: seq<byte>)
    | Mouse(buttons: bv8, dx: int, dy: int, wheel: int)

  datatype Config = Config(invertWheel: bool, coalesce: bool)

  datatype RState = RState(
    mods: bv8, keys: seq<int>, kbdDirty: bool,
    buttons: bv8, dx: int, dy: int, wheel: int, mouseDirty: bool, mouseBtn: bool)

  const NEUTRAL := RState(0, [], false, 0, 0, 0, 0, false, false)

  datatype Reaction = Reaction(s: RState, out: seq<Report>)

  /** Go's int32(v): the value that agrees with v modulo 2^32. */
  function Int32(v: int): (r: int)
    ensures FitsIn(r, TWO32) && (FitsIn(v, TWO32) ==> r == v)
  {
    (v + 0x8000_0000) % 0x1_0000_0000 - 0x8000_0000
  }

  function Clamp16(v: int): (r: int)
    ensures FitsIn(r, TWO16)
  {
    if v > 32767 then 32767 else if v < -32768 then -32768 else v
  }

  function Clamp8(v: int): (r: int)
    ensures FitsIn(r, 256)
  {
    if v > 127 then 127 else if v < -128 then -128 else v
  }

  function AddKey(keys: seq<int>, usage: int): seq<int> {
    if usage in keys then keys else keys + [usage]
  }

  function RemoveKey(keys: seq<int>, usage: int): seq<int> {
    if keys == [] then []
    else if keys[0] == usage then keys[1..]
    else [keys[0]] + RemoveKey(keys[1..], usage)
  }

  function Slots(keys: seq<int>): (s: seq<byte>)
    ensures |s| == SLOTS
  {
    if |keys| > SLOTS then seq(SLOTS, _ => 1)
    else seq(SLOTS, i requires 0 <= i < SLOTS => if i < |keys| then LowByte(keys[i]) else 0)
  }

  function MaskByte(m: bv8): byte {
    m as int as byte
  }

  function KeyboardReport(mods: bv8, keys: seq<int>): (rep: seq<byte>)
    ensures |rep| == 8
  {
    [MaskByte(mods), 0] + Slots(keys)
  }

  function FlushKeyboard(s: RState): Reaction {
    Reaction(s.(kbdDirty := false), [Keyboard(KeyboardReport(s.mods, s.keys))])
  }

  function WheelOut(c: Config, wheel: int): int {
    if c.invertWheel then Int32(-wheel) else wheel
  }

  function FlushMouse(c: Config, s: RState): Reaction {
    Reaction(
      s.(dx := 0, dy := 0, wheel := 0, mouseDirty := false, mouseBtn := false),
      [Mouse(s.buttons, Clamp16(s.dx), Clamp16(s.dy), Clamp8(WheelOut(c, s.wheel)))])
  }

  /** `m |= bit` on a press, `m &^= bit` otherwise. */
  function Toggle(m: bv8, bit: bv8, down: bool): bv8 {
    if down then m | bit else m & !bit
  }

  function OnButton(s: RState, bit: bv8, value: int): RState {
    s.(buttons := if value == KEY_DOWN || value == KEY_UP then Toggle(s.buttons, bit, value == KEY_DOWN) else s.buttons,
       mouseDirty := true, mouseBtn := true)
  }

  /** What the three tables say about a keycode. */
  datatype Entry = Entry(button: bv8, modifier: bv8, usage: int)

  function Lookup(code: int): Entry {
    Entry(MouseButtonBit(code), ModBit(code), HidUsage(code))
  }

  function OnKey(s: RState, k: Entry, value: int): RState {
    if k.button != 0 then OnButton(s, k.button, value)
    else if value == KEY_REPEAT then s
    else if k.modifier != 0 then
      s.(mods := Toggle(s.mods, k.modifier, value == KEY_DOWN), kbdDirty := true)
    else if k.usage != 0 then
      s.(keys := if value == KEY_DOWN then AddKey(s.keys, k.usage) else RemoveKey(s.keys, k.usage), kbdDirty := true)
    else s
  }

  function OnRel(s: RState, code: int, value: int): RState {
    s.(dx := if code == REL_X then Int32(s.dx + value) else s.dx,
       dy := if code == REL_Y then Int32(s.dy + value) else s.dy,
       wheel := if code == REL_WHEEL then Int32(s.wheel + value) else s.wheel,
       mouseDirty := true)
  }

  /** Whether a SYN sends a mouse report. */
  predicate SynFlushesMouse(c: Config, s: RState) {
    if c.coalesce then s.mouseBtn else s.mouseDirty
  }

  function OnSyn(c: Config, s: RState): Reaction {
    var k := if s.kbdDirty then FlushKeyboard(s) else Reaction(s, []);
    if SynFlushesMouse(c, k.s) then
      var m := FlushMouse(c, k.s);
      m.(out := k.out + m.out)
    else k
  }

  function OnEvent(c: Config, s: RState, e: Event): Reaction {
    if e.typ == EV_KEY then Reaction(OnKey(s, Lookup(e.code), e.value), [])
    else if e.typ == EV_REL then Reaction(OnRel(s, e.code, e.value), [])
    else if e.typ == EV_SYN then OnSyn(c, s)
    else Reaction(s, [])
  }

  /** One tick; the ticker runs only when coalescing is on. */
  function OnTick(c: Config, s: RState): Reaction {
    if c.coalesce && (s.dx != 0 || s.dy != 0 || s.wheel != 0) then FlushMouse(c, s) else Reaction(s, [])
  }

  function OnItem(c: Config, s: RState, i: Item): Reaction {
    match i
    case Ev(e) => OnEvent(c, s, e)
    case Tick => OnTick(c, s)
  }

  /** What Reset sends. */
  function ResetReports(): seq<Report> {
    [Keyboard(KeyboardReport(0, [])), Mouse(0, 0, 0, 0)]
  }

  /** The state and everything sent since a Reset, after these items. */
  function Since(c: Config, items: seq<Item>): Reaction {
    if items == [] then Reaction(NEUTRAL, ResetReports())
    else
      var before := Since(c, items[..|items| - 1]);
      var r := OnItem(c, before.s, items[|items| - 1]);
      r.(out := before.out + r.out)
  }

  /** The Reporter object; `sent` is everything handed to its sink. */
  class Reporter {
    const config: Config
    var mods: bv8
    const keys: Slice<int>
    var kbdDirty: bool
    var buttons: bv8
    var dx: int
    var dy: int
    var wheel: int
    var mouseDirty: bool
    var mouseBtn: bool
    var sent: seq<Report>

    constructor (config: Config)
      ensures this.config == config && fresh(keys) && fresh(keys.data)
      ensures Valid() && Abs() == NEUTRAL && sent == []
    {
      this.config := config;
      mods, kbdDirty := 0, false;
      keys := new Slice(SLOTS);
      buttons, dx, dy, wheel, mouseDirty, mouseBtn := 0, 0, 0, 0, false, false;
      sent := [];
    }

    ghost predicate Valid()
      reads this, keys
    {
      keys.Valid()
    }

    ghost function Abs(): RState
      reads this, keys, keys.data
      requires Valid()
    {
      RState(mods, keys.Contents(), kbdDirty, buttons, dx, dy, wheel, mouseDirty, mouseBtn)
    }

    method PressKey(usage: int)
      requires Valid()
      modifies keys, keys.data
      ensures Valid() && (keys.data == old(keys.data) || fresh(keys.data))
      ensures keys.Contents() == AddKey(old(keys.Contents()), usage)
    {
      var found := keys.Has(usage);
      if found { return; }
      keys.Append(usage);
    }

    method ReleaseKey(usage: int)
      requires Valid()
      modifies keys, keys.data
      ensures Valid() && keys.data == old(keys.data)
      ensures keys.Contents() == RemoveKey(old(keys.Contents()), usage)
    {
      ghost var ks := keys.Contents();
      for i := 0 to keys.len
        invariant Valid() && keys.data == old(keys.data) && keys.Contents() == ks && usage !in ks[..i]
      {
        if keys.data[i] == usage {
          RemoveAt(ks, i);
          keys.DeleteAt(i);
          return;
        }
        assert ks[..i + 1] == ks[..i] + [ks[i]];
      }
      assert ks[..|ks|] == ks;
      RemoveAbsent(ks, usage);
    }

    method BuildKeyboardReport() returns (rep: seq<byte>)
      requires Valid()
      ensures rep == KeyboardReport(mods, keys.Contents())
    {
      rep := seq(8, _ => 0);
      rep := rep[0 := MaskByte(mods)];
      if keys.len > SLOTS {
        for i := 2 to 8
          invariant |rep| == 8 && rep[0] == MaskByte(mods) && rep[1] == 0
          invariant forall j :: 2 <= j < i ==> rep[j] == 1
        {
          rep := rep[i := 1];
        }
        assert rep == KeyboardReport(mods, keys.Contents());
        return;
      }
      ghost var ks := keys.Contents();
      for i := 0 to keys.len
        invariant |rep| == 8 && rep[0] == MaskByte(mods) && rep[1] == 0
        invariant forall j :: 2 <= j < 8 ==> rep[j] == if j < 2 + i then LowByte(ks[j - 2]) else 0
      {
        rep := rep[2 + i := LowByte(keys.data[i])];
      }
      assert rep == KeyboardReport(mods, ks);
    }

    method Handle(e: Event)
      requires Valid()
      modifies this, keys, keys.data
      ensures Valid() && (keys.data == old(keys.data) || fresh(keys.data))
      ensures var r := OnEvent(config, old(Abs()), e); Abs() == r.s && sent == old(sent) + r.out
    {
      if e.typ == EV_KEY {
        HandleKey(Lookup(e.code), e.value);
      } else if e.typ == EV_REL {
        if e.code == REL_X {
          dx := Int32(dx + e.value);
        } else if e.code == REL_Y {
          dy := Int32(dy + e.value);
        } else if e.code == REL_WHEEL {
          wheel := Int32(wheel + e.value);
        }
        mouseDirty := true;
      } else if e.typ == EV_SYN {
        HandleSyn();
      }
    }

    method HandleSyn()
      requires Valid()
      modifies this
      ensures Valid()
      ensures var r := OnSyn(config, old(Abs())); Abs() == r.s && sent == old(sent) + r.out
    {
      if kbdDirty { SendKeyboard(); }
      if !config.coalesce {
        if mouseDirty { SendMouse(); }
      } else if mouseBtn {
        SendMouse();
      }
      assert sent == old(sent) + OnSyn(config, old(Abs())).out;
    }

    method HandleKey(k: Entry, value: int)
      requires Valid()
      modifies this, keys, keys.data
      ensures Valid() && (keys.data == old(keys.data) || fresh(keys.data))
      ensures Abs() == OnKey(old(Abs()), k, value) && sent == old(sent)
    {
      if k.button != 0 {
        HandleButton(k.button, value);
        return;
      }
      if value == KEY_REPEAT { return; }
      if k.modifier != 0 {
        HandleModifier(k.modifier, value);
        return;
      }
      if k.usage != 0 {
        if value == KEY_DOWN {
          PressKey(k.usage);
        } else {
          ReleaseKey(k.usage);
        }
        kbdDirty := true;
      }
    }

    method HandleButton(bit: bv8, value: int)
      requires Valid()
      modifies `buttons, `mouseDirty, `mouseBtn
      ensures Valid() && Abs() == OnButton(old(Abs()), bit, value)
    {
      if value == KEY_DOWN {
        buttons := buttons | bit;
      } else if value == KEY_UP {
        buttons := buttons & !bit;
      }
      mouseDirty, mouseBtn := true, true;
    }

    method HandleModifier(bit: bv8, value: int)
      modifies `mods, `kbdDirty
      ensures mods == Toggle(old(mods), bit, value == KEY_DOWN) && kbdDirty
    {
      mods := if value == KEY_DOWN then mods | bit else mods & !bit;
      kbdDirty := true;
    }

    method SendKeyboard()
      requires Valid()
      modifies `sent, `kbdDirty
      ensures Valid()
      ensures var r := FlushKeyboard(old(Abs())); Abs() == r.s && sent == old(sent) + r.out
    {
      var rep := BuildKeyboardReport();
      sent := sent + [Keyboard(rep)];
      kbdDirty := false;
    }

    method SendMouse()
      requires Valid()
      modifies `sent, `dx, `dy, `wheel, `mouseDirty, `mouseBtn
      ensures Valid()
      ensures var r := FlushMouse(config, old(Abs())); Abs() == r.s && sent == old(sent) + r.out
    {
      var w := wheel;
      if config.invertWheel { w := Int32(-w); }
      sent := sent + [Mouse(buttons, Clamp16(dx), Clamp16(dy), Clamp8(w))];
      dx, dy, wheel := 0, 0, 0;
      mouseDirty, mouseBtn := false, false;
    }

    /** One round of coalesceLoop. */
    method CoalesceTick()
      requires Valid()
      modifies this
      ensures Valid()
      ensures var r := OnTick(config, old(Abs())); Abs() == r.s && sent == old(sent) + r.out
    {
      if config.coalesce && (dx != 0 || dy != 0 || wheel != 0) {
        SendMouse();
      }
    }

    method ClearState()
      requires Valid()
      modifies this, keys
      ensures Valid() && keys.data == old(keys.data) && Abs() == NEUTRAL && sent == old(sent)
    {
      keys.Clear();
      mods, buttons := 0, 0;
      dx, dy, wheel := 0, 0, 0;
      kbdDirty, mouseDirty, mouseBtn := false, false, false;
    }

    method Reset()
      requires Valid()
      modifies this, keys
      ensures Valid() && keys.data == old(keys.data) && Abs() == NEUTRAL
      ensures sent == old(sent) + ResetReports()
    {
      keys.Clear();
      mods, buttons := 0, 0;
      dx, dy, wheel := 0, 0, 0;
      kbdDirty, mouseDirty, mouseBtn := false, false, false;
      sent := sent + [Keyboard(seq(8, _ => 0))];
      sent := sent + [Mouse(0, 0, 0, 0)];
      assert seq(8, _ => 0) == KeyboardReport(0, []);
    }
  }

  lemma {:induction false} RemoveAt(keys: seq<int>, i: nat)
    requires i < |keys| && keys[i] !in keys[..i]
    ensures RemoveKey(keys, keys[i]) == keys[..i] + keys[i + 1..]
  {
    if i > 0 {
      assert keys[..i][0] == keys[0];
      assert keys[1..][..i - 1] == keys[..i][1..];
      RemoveAt(keys[1..], i - 1);
    }
  }

  lemma {:induction false} RemoveAbsent(keys: seq<int>, usage: int)
    requires usage !in keys
    ensures RemoveKey(keys, usage) == keys
  {
    if keys != [] {
      RemoveAbsent(keys[1..], usage);
    }
  }
}
