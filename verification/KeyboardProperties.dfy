/** The Reporter's keyboard and button state against a plain reading of the history:
    the latest event of each key wins. */
module KeyboardProperties {
  import opened Bytes
  import opened Keymap
  import opened Reporting

  // ---- The specification: what is held, from the history alone ----

  /** A key event of this code that the keyboard state listens to. */
  predicate Concerns(i: Item, code: int) {
    i.Ev? && i.e.typ == EV_KEY && i.e.code == code && i.e.value != KEY_REPEAT
  }

  predicate Presses(i: Item, code: int) {
    Concerns(i, code) && i.e.value == KEY_DOWN
  }

  /** The latest non-repeat event of this code is a press. */
  predicate Held(items: seq<Item>, code: int) {
    items != [] &&
    var last := items[|items| - 1];
    if Concerns(last, code) then Presses(last, code) else Held(items[..|items| - 1], code)
  }

  /** When the current hold of this code began. */
  function HeldSince(items: seq<Item>, code: int): (n: nat)
    ensures items != [] ==> n < |items|
  {
    if items == [] then 0
    else
      var before := items[..|items| - 1];
      if Presses(items[|items| - 1], code) && !Held(before, code) then |before| else HeldSince(before, code)
  }

  /** The item at `i` presses the key, and nothing after it concerns the key. */
  predicate LatestIsPress(items: seq<Item>, code: int, i: int) {
    0 <= i < |items| && Presses(items[i], code) && forall j :: i < j < |items| ==> !Concerns(items[j], code)
  }

  lemma {:induction false} HeldMeansLatest(items: seq<Item>, code: int)
    ensures Held(items, code) <==> exists i :: LatestIsPress(items, code, i)
  {
    if items != [] {
      var before, n := items[..|items| - 1], |items| - 1;
      HeldMeansLatest(before, code);
      if Concerns(items[n], code) {
        if Presses(items[n], code) {
          assert LatestIsPress(items, code, n);
        }
      } else {
        forall i ensures LatestIsPress(items, code, i) <==> LatestIsPress(before, code, i) {
          LatestExtends(before, items[n], code, i);
          assert items == before + [items[n]];
        }
      }
    }
  }

  lemma {:induction false} LatestExtends(before: seq<Item>, last: Item, code: int, i: int)
    requires !Concerns(last, code)
    ensures LatestIsPress(before + [last], code, i) <==> LatestIsPress(before, code, i)
  {
    var items := before + [last];
    if LatestIsPress(items, code, i) {
      forall j | i < j < |before| ensures !Concerns(before[j], code) {
        assert items[j] == before[j];
      }
    }
  }

  // ---- Keys ----

  /** The key list is exactly the held keys, in the order their holds began. */
  predicate KeysMatch(items: seq<Item>, keys: seq<int>) {
    && (forall i :: 0 <= i < |keys| ==> IsKey(Keycode(keys[i])) && HidUsage(Keycode(keys[i])) == keys[i])
    && (forall i :: 0 <= i < |keys| ==> Held(items, Keycode(keys[i])))
    && (forall i, j :: 0 <= i < j < |keys| ==> HeldSince(items, Keycode(keys[i])) < HeldSince(items, Keycode(keys[j])))
  }

  ghost predicate AllHeldListed(items: seq<Item>, keys: seq<int>) {
    forall code :: IsKey(code) && Held(items, code) ==> HidUsage(code) in keys
  }

  ghost predicate KeysRefine(items: seq<Item>, keys: seq<int>) {
    KeysMatch(items, keys) && AllHeldListed(items, keys)
  }

  lemma {:induction false} HeldStep(before: seq<Item>, last: Item, code: int)
    ensures var items := before + [last];
            && Held(items, code) == (if Concerns(last, code) then Presses(last, code) else Held(before, code))
            && HeldSince(items, code)
               == if Presses(last, code) && !Held(before, code) then |before| else HeldSince(before, code)
  {
    assert (before + [last])[..|before|] == before;
  }

  /** An event that concerns no listed or listable key. */
  lemma {:induction false} KeysUntouched(before: seq<Item>, last: Item, keys: seq<int>)
    requires KeysRefine(before, keys)
    requires forall code :: IsKey(code) ==> !Concerns(last, code)
    ensures KeysRefine(before + [last], keys)
  {
    forall code | IsKey(code)
      ensures Held(before + [last], code) == Held(before, code)
      ensures HeldSince(before + [last], code) == HeldSince(before, code)
    {
      HeldStep(before, last, code);
    }
  }

  /** A listed usage belongs to one place and one keycode. */
  lemma {:induction false} Listed(items: seq<Item>, keys: seq<int>, code: int) returns (i: nat)
    requires KeysMatch(items, keys) && IsKey(code) && HidUsage(code) in keys
    ensures i < |keys| && keys[i] == HidUsage(code) && Keycode(keys[i]) == code
    ensures forall j :: 0 <= j < |keys| && j != i ==> keys[j] != keys[i] && Keycode(keys[j]) != code
  {
    i :| 0 <= i < |keys| && keys[i] == HidUsage(code);
    UsageDeterminesKeycode(code);
    forall j | 0 <= j < |keys| && j != i ensures keys[j] != keys[i] && Keycode(keys[j]) != code {
      if j < i {
        assert HeldSince(items, Keycode(keys[j])) < HeldSince(items, Keycode(keys[i]));
      } else {
        assert HeldSince(items, Keycode(keys[i])) < HeldSince(items, Keycode(keys[j]));
      }
    }
  }

  lemma {:induction false} KeyPressed(before: seq<Item>, last: Item, keys: seq<int>, code: int)
    requires KeysRefine(before, keys) && IsKey(code) && Presses(last, code)
    ensures KeysRefine(before + [last], AddKey(keys, HidUsage(code)))
  {
    var items, keys' := before + [last], AddKey(keys, HidUsage(code));
    UsageDeterminesKeycode(code);
    forall other ensures Held(items, other) == (other == code || Held(before, other))
                 ensures Held(before, other) ==> HeldSince(items, other) == HeldSince(before, other) {
      HeldStep(before, last, other);
    }
    if HidUsage(code) !in keys {
      assert !Held(before, code);
      HeldStep(before, last, code);
      assert keys' == keys + [HidUsage(code)];
      assert before != [] || keys == [] by { if keys != [] { assert Held(before, Keycode(keys[0])); } }
    }
    forall other | IsKey(other) && Held(items, other) ensures HidUsage(other) in keys' {
      if other != code { assert HidUsage(other) in keys; }
    }
  }

  lemma {:induction false} KeyReleased(before: seq<Item>, last: Item, keys: seq<int>, code: int)
    requires KeysRefine(before, keys) && IsKey(code) && Concerns(last, code) && !Presses(last, code)
    ensures KeysRefine(before + [last], RemoveKey(keys, HidUsage(code)))
  {
    var items, keys' := before + [last], RemoveKey(keys, HidUsage(code));
    forall other ensures Held(items, other) == (other != code && Held(before, other))
                 ensures HeldSince(items, other) == HeldSince(before, other) {
      HeldStep(before, last, other);
    }
    if HidUsage(code) in keys {
      var i := Listed(before, keys, code);
      RemoveAt(keys, i);
      DropOne(before, items, keys, i);
      OthersRemain(before, items, keys, code, i);
    } else {
      RemoveAbsent(keys, HidUsage(code));
      NotListed(before, keys, code);
    }
  }

  lemma {:induction false} OthersRemain(before: seq<Item>, items: seq<Item>, keys: seq<int>, code: int, i: nat)
    requires KeysRefine(before, keys) && i < |keys| && Keycode(keys[i]) == code
    requires forall other :: Held(items, other) ==> other != code && Held(before, other)
    ensures AllHeldListed(items, keys[..i] + keys[i + 1..])
  {
    var keys' := keys[..i] + keys[i + 1..];
    forall other | IsKey(other) && Held(items, other) ensures HidUsage(other) in keys' {
      var j := Listed(before, keys, other);
      assert j != i && keys'[if j < i then j else j - 1] == keys[j];
    }
  }

  lemma {:induction false} NotListed(items: seq<Item>, keys: seq<int>, code: int)
    requires KeysMatch(items, keys) && HidUsage(code) !in keys
    ensures forall j :: 0 <= j < |keys| ==> Keycode(keys[j]) != code
  {
    forall j | 0 <= j < |keys| ensures Keycode(keys[j]) != code {
      assert keys[j] in keys && HidUsage(Keycode(keys[j])) == keys[j];
    }
  }

  lemma {:induction false} DropOne(before: seq<Item>, items: seq<Item>, keys: seq<int>, i: nat)
    requires KeysMatch(before, keys) && i < |keys|
    requires forall j :: 0 <= j < |keys| && j != i ==> Held(items, Keycode(keys[j]))
    requires forall j :: 0 <= j < |keys| ==> HeldSince(items, Keycode(keys[j])) == HeldSince(before, Keycode(keys[j]))
    ensures KeysMatch(items, keys[..i] + keys[i + 1..])
  {
    var keys' := keys[..i] + keys[i + 1..];
    forall j | 0 <= j < |keys'| ensures keys'[j] == keys[if j < i then j else j + 1] {
    }
  }

  /** After every history since a Reset, the key list is exactly the held keys, without
      repetition, in press order. */
  lemma {:induction false} KeyListRefines(c: Config, items: seq<Item>)
    ensures KeysRefine(items, Since(c, items).s.keys)
  {
    if items != [] {
      var before, last := items[..|items| - 1], items[|items| - 1];
      var s := Since(c, before).s;
      KeyListRefines(c, before);
      assert items == before + [last];
      if last.Ev? && last.e.typ == EV_KEY && last.e.value != KEY_REPEAT && IsKey(last.e.code) {
        if last.e.value == KEY_DOWN {
          KeyPressed(before, last, s.keys, last.e.code);
        } else {
          KeyReleased(before, last, s.keys, last.e.code);
        }
      } else {
        OtherItemsKeepKeys(c, s, last);
        KeysUntouched(before, last, s.keys);
      }
    }
  }

  lemma {:induction false} OtherItemsKeepKeys(c: Config, s: RState, last: Item)
    requires !(last.Ev? && last.e.typ == EV_KEY && last.e.value != KEY_REPEAT && IsKey(last.e.code))
    ensures OnItem(c, s, last).s.keys == s.keys
  {
    if last.Ev? && last.e.typ == EV_KEY {
      OtherKeysKeepKeys(s, Lookup(last.e.code), last.e.value);
    }
  }

  lemma {:induction false} OtherKeysKeepKeys(s: RState, k: Entry, value: int)
    requires value == KEY_REPEAT || k.button != 0 || k.modifier != 0 || k.usage == 0
    ensures OnKey(s, k, value).keys == s.keys
  {
  }

  // ---- Modifiers and buttons ----

  /** The modifier byte: one bit per held modifier key. */
  function HeldMods(items: seq<Item>): bv8 {
    (if Held(items, 29) then 0x01 else 0) | (if Held(items, 42) then 0x02 else 0)
    | (if Held(items, 56) then 0x04 else 0) | (if Held(items, 125) then 0x08 else 0)
    | (if Held(items, 97) then 0x10 else 0) | (if Held(items, 54) then 0x20 else 0)
    | (if Held(items, 100) then 0x40 else 0) | (if Held(items, 126) then 0x80 else 0)
  }

  ghost predicate ModsMatch(items: seq<Item>, mods: bv8) {
    forall code :: ModBit(code) != 0 ==> (mods & ModBit(code) != 0 <==> Held(items, code))
  }

  /** Buttons listen to presses and releases only. */
  predicate HeldButton(items: seq<Item>, code: int) {
    items != [] &&
    var last := items[|items| - 1];
    if Concerns(last, code) && last.e.value in {KEY_DOWN, KEY_UP} then last.e.value == KEY_DOWN
    else HeldButton(items[..|items| - 1], code)
  }

  function HeldButtons(items: seq<Item>): bv8 {
    (if HeldButton(items, 0x110) then 0x01 else 0) | (if HeldButton(items, 0x111) then 0x02 else 0)
    | (if HeldButton(items, 0x112) then 0x04 else 0) | (if HeldButton(items, 0x113) then 0x08 else 0)
    | (if HeldButton(items, 0x114) then 0x10 else 0)
  }

  ghost predicate ButtonsMatch(items: seq<Item>, buttons: bv8) {
    && buttons & 0xE0 == 0
    && forall code :: MouseButtonBit(code) != 0 ==> (buttons & MouseButtonBit(code) != 0 <==> HeldButton(items, code))
  }

  lemma {:induction false} SetOneBit(m: bv8, bit: bv8, other: bv8)
    ensures other & bit == 0 ==> (m | bit) & other == m & other && (m & !bit) & other == m & other
    ensures bit != 0 ==> (m | bit) & bit != 0
    ensures (m & !bit) & bit == 0
  {
  }

  lemma {:induction false} MaskFromBits(m: bv8)
    ensures m == Pick(m, 0x01) | Pick(m, 0x02) | Pick(m, 0x04) | Pick(m, 0x08)
                 | Pick(m, 0x10) | Pick(m, 0x20) | Pick(m, 0x40) | Pick(m, 0x80)
    ensures m & 0xE0 == 0 ==>
              m == Pick(m, 0x01) | Pick(m, 0x02) | Pick(m, 0x04) | Pick(m, 0x08) | Pick(m, 0x10)
  {
  }

  function Pick(m: bv8, bit: bv8): bv8 {
    if m & bit != 0 then bit else 0
  }

  /** Only key events change the masks. */
  predicate MaskEffect(s: RState, i: Item, s': RState) {
    if i.Ev? && i.e.typ == EV_KEY then
      var r := OnKey(s, Lookup(i.e.code), i.e.value);
      s'.mods == r.mods && s'.buttons == r.buttons
    else s'.mods == s.mods && s'.buttons == s.buttons
  }

  lemma {:induction false} ItemMasks(c: Config, s: RState, i: Item)
    ensures MaskEffect(s, i, OnItem(c, s, i).s)
  {
  }

  lemma {:induction false} ModsStep(before: seq<Item>, last: Item, s: RState, s': RState)
    requires ModsMatch(before, s.mods) && MaskEffect(s, last, s')
    ensures ModsMatch(before + [last], s'.mods)
  {
    forall code | ModBit(code) != 0 ensures s'.mods & ModBit(code) != 0 <==> Held(before + [last], code) {
      ModStepAt(before, last, s, s', code);
    }
  }

  lemma {:induction false} ModStepAt(before: seq<Item>, last: Item, s: RState, s': RState, code: int)
    requires MaskEffect(s, last, s') && ModBit(code) != 0
    requires s.mods & ModBit(code) != 0 <==> Held(before, code)
    ensures s'.mods & ModBit(code) != 0 <==> Held(before + [last], code)
  {
    HeldStep(before, last, code);
    if last.Ev? && last.e.typ == EV_KEY {
      ModBitStep(s, last.e, code, ModBit(code), ModBit(last.e.code));
    }
  }

  lemma {:induction false} ModBitStep(s: RState, e: Event, code: int, bit: bv8, eventBit: bv8)
    requires bit == ModBit(code) != 0 && eventBit == ModBit(e.code)
    ensures var mods := OnKey(s, Lookup(e.code), e.value).mods;
            if e.code == code && e.value != KEY_REPEAT then mods & bit != 0 <==> e.value == KEY_DOWN
            else mods & bit == s.mods & bit
  {
    ModsKeyStep(s, Lookup(e.code), e.value, bit);
    if e.code == code {
      ModifierIsNoButton(code);
    } else {
      BitsDisjoint(e.code, code);
    }
  }

  lemma {:induction false} ModifierIsNoButton(code: int)
    requires ModBit(code) != 0
    ensures MouseButtonBit(code) == 0
  {
  }

  /** What a key event does to one modifier bit. */
  lemma {:induction false} ModsKeyStep(s: RState, k: Entry, value: int, bit: bv8)
    ensures var mods := OnKey(s, k, value).mods;
            && (k.modifier & bit == 0 || k.button != 0 || value == KEY_REPEAT ==> mods & bit == s.mods & bit)
            && (k.modifier == bit != 0 && k.button == 0 && value != KEY_REPEAT ==>
                  (mods & bit != 0 <==> value == KEY_DOWN))
  {
    SetOneBit(s.mods, k.modifier, bit);
  }

  lemma {:induction false} HeldButtonStep(before: seq<Item>, last: Item, code: int)
    ensures HeldButton(before + [last], code) ==
            if Concerns(last, code) && last.e.value in {KEY_DOWN, KEY_UP} then last.e.value == KEY_DOWN
            else HeldButton(before, code)
  {
    assert (before + [last])[..|before|] == before;
  }

  lemma {:induction false} ButtonsStep(before: seq<Item>, last: Item, s: RState, s': RState)
    requires ButtonsMatch(before, s.buttons) && MaskEffect(s, last, s')
    ensures ButtonsMatch(before + [last], s'.buttons)
  {
    forall code | MouseButtonBit(code) != 0
      ensures s'.buttons & MouseButtonBit(code) != 0 <==> HeldButton(before + [last], code)
    {
      ButtonStepAt(before, last, s, s', code);
    }
    HighBitsStep(last, s, s');
  }

  lemma {:induction false} HighBitsStep(last: Item, s: RState, s': RState)
    requires s.buttons & 0xE0 == 0 && MaskEffect(s, last, s')
    ensures s'.buttons & 0xE0 == 0
  {
    if last.Ev? && last.e.typ == EV_KEY {
      ButtonBitsLow(last.e.code);
      ButtonsKeyStep(s, Lookup(last.e.code), last.e.value, 0xE0);
    }
  }

  lemma {:induction false} ButtonStepAt(before: seq<Item>, last: Item, s: RState, s': RState, code: int)
    requires MaskEffect(s, last, s') && MouseButtonBit(code) != 0
    requires s.buttons & MouseButtonBit(code) != 0 <==> HeldButton(before, code)
    ensures s'.buttons & MouseButtonBit(code) != 0 <==> HeldButton(before + [last], code)
  {
    HeldButtonStep(before, last, code);
    if last.Ev? && last.e.typ == EV_KEY {
      ButtonBitStep(s, last.e, code, MouseButtonBit(code), MouseButtonBit(last.e.code));
    }
  }

  lemma {:induction false} ButtonBitStep(s: RState, e: Event, code: int, bit: bv8, eventBit: bv8)
    requires bit == MouseButtonBit(code) != 0 && eventBit == MouseButtonBit(e.code)
    ensures var buttons := OnKey(s, Lookup(e.code), e.value).buttons;
            if e.code == code && e.value in {KEY_DOWN, KEY_UP} then buttons & bit != 0 <==> e.value == KEY_DOWN
            else buttons & bit == s.buttons & bit
  {
    ButtonsKeyStep(s, Lookup(e.code), e.value, bit);
    if e.code != code {
      BitsDisjoint(e.code, code);
    }
  }

  lemma {:induction false} ButtonBitsLow(code: int)
    ensures MouseButtonBit(code) & 0xE0 == 0
  {
  }

  lemma {:induction false} ButtonsKeyStep(s: RState, k: Entry, value: int, bit: bv8)
    ensures var buttons := OnKey(s, k, value).buttons;
            && (k.button & bit == 0 || value !in {KEY_DOWN, KEY_UP} ==> buttons & bit == s.buttons & bit)
            && (k.button == bit != 0 && value in {KEY_DOWN, KEY_UP} ==> (buttons & bit != 0 <==> value == KEY_DOWN))
  {
    SetOneBit(s.buttons, k.button, bit);
  }

  lemma {:induction false} MasksMatch(c: Config, items: seq<Item>)
    ensures ModsMatch(items, Since(c, items).s.mods)
    ensures ButtonsMatch(items, Since(c, items).s.buttons)
  {
    if items != [] {
      var before, last := items[..|items| - 1], items[|items| - 1];
      MasksMatch(c, before);
      assert items == before + [last];
      ItemMasks(c, Since(c, before).s, last);
      ModsStep(before, last, Since(c, before).s, Since(c, items).s);
      ButtonsStep(before, last, Since(c, before).s, Since(c, items).s);
    }
  }

  /** After every history since a Reset, the modifier byte and the button mask are the OR
      of the bits of the held keys and buttons. */
  lemma {:induction false} MasksRefine(c: Config, items: seq<Item>)
    ensures Since(c, items).s.mods == HeldMods(items)
    ensures Since(c, items).s.buttons == HeldButtons(items)
  {
    var s := Since(c, items).s;
    MasksMatch(c, items);
    MaskFromBits(s.mods);
    MaskFromBits(s.buttons);
    ModsAre(items, s.mods);
    ButtonsAre(items, s.buttons);
  }

  lemma {:induction false} ModsAre(items: seq<Item>, mods: bv8)
    requires ModsMatch(items, mods)
    ensures HeldMods(items) == Pick(mods, 0x01) | Pick(mods, 0x02) | Pick(mods, 0x04) | Pick(mods, 0x08)
                               | Pick(mods, 0x10) | Pick(mods, 0x20) | Pick(mods, 0x40) | Pick(mods, 0x80)
  {
    assert ModBit(29) == 0x01 && ModBit(42) == 0x02 && ModBit(56) == 0x04 && ModBit(125) == 0x08;
    assert ModBit(97) == 0x10 && ModBit(54) == 0x20 && ModBit(100) == 0x40 && ModBit(126) == 0x80;
  }

  lemma {:induction false} ButtonsAre(items: seq<Item>, buttons: bv8)
    requires ButtonsMatch(items, buttons)
    ensures HeldButtons(items) == Pick(buttons, 0x01) | Pick(buttons, 0x02) | Pick(buttons, 0x04)
                                  | Pick(buttons, 0x08) | Pick(buttons, 0x10)
  {
    assert MouseButtonBit(0x110) == 0x01 && MouseButtonBit(0x111) == 0x02 && MouseButtonBit(0x112) == 0x04;
    assert MouseButtonBit(0x113) == 0x08 && MouseButtonBit(0x114) == 0x10;
  }

  // ---- Reports ----

  /** A keyboard report read as HID 1.11 Appendix B.1 and C prescribe. */
  datatype Decoded = Malformed | Rollover(mods: bv8) | Held6(mods: bv8, keys: seq<int>)

  function SlotKeys(slots: seq<byte>): seq<int> {
    if slots == [] || slots[0] == 0 then [] else [slots[0] as int] + SlotKeys(slots[1..])
  }

  function MaskOf(b: byte): bv8 {
    b as int as bv8
  }

  function Decode(rep: seq<byte>): Decoded
    requires |rep| == 8
  {
    if rep[1] != 0 then Malformed
    else if rep[2..] == seq(SLOTS, _ => 1) then Rollover(MaskOf(rep[0])) else Held6(MaskOf(rep[0]), SlotKeys(rep[2..]))
  }

  /** Key lists the Reporter can hold: no zero, no rollover code, one byte each, no repetition. */
  predicate Proper(keys: seq<int>) {
    && (forall i :: 0 <= i < |keys| ==> 0x04 <= keys[i] <= 0x52)
    && (forall i, j :: 0 <= i < j < |keys| ==> keys[i] != keys[j])
  }

  lemma {:induction false} MaskRoundTrip(m: bv8)
    ensures MaskOf(MaskByte(m)) == m
  {
  }

  lemma {:induction false} SlotKeysOf(keys: seq<int>, n: nat)
    requires forall i :: 0 <= i < |keys| ==> 0x04 <= keys[i] <= 0x52
    ensures SlotKeys(seq(|keys|, i requires 0 <= i < |keys| => LowByte(keys[i])) + Zeros(n)) == keys
  {
    var bytes := seq(|keys|, i requires 0 <= i < |keys| => LowByte(keys[i]));
    if keys == [] {
      assert bytes + Zeros(n) == Zeros(n);
    } else {
      var rest := keys[1..];
      var restBytes := seq(|rest|, i requires 0 <= i < |rest| => LowByte(rest[i]));
      SlotKeysOf(rest, n);
      assert (bytes + Zeros(n))[1..] == restBytes + Zeros(n);
    }
  }

  lemma {:induction false} ReportDecodes(mods: bv8, keys: seq<int>)
    requires Proper(keys)
    ensures Decode(KeyboardReport(mods, keys)) == if |keys| > SLOTS then Rollover(mods) else Held6(mods, keys)
  {
    var rep := KeyboardReport(mods, keys);
    MaskRoundTrip(mods);
    assert rep[2..] == Slots(keys);
    if |keys| > SLOTS {
      assert rep[2..] == seq(SLOTS, _ => 1);
    } else {
      SlotsHold(keys);
    }
  }

  lemma {:induction false} SlotsHold(keys: seq<int>)
    requires Proper(keys) && |keys| <= SLOTS
    ensures Slots(keys) != seq(SLOTS, _ => 1) && SlotKeys(Slots(keys)) == keys
  {
    var bytes := seq(|keys|, i requires 0 <= i < |keys| => LowByte(keys[i]));
    SlotKeysOf(keys, SLOTS - |keys|);
    assert Slots(keys) == bytes + Zeros(SLOTS - |keys|);
    assert Slots(keys)[0] != 1;
  }

  lemma {:induction false} KeysProper(items: seq<Item>, keys: seq<int>)
    requires KeysRefine(items, keys)
    ensures Proper(keys)
  {
    forall i | 0 <= i < |keys| ensures 0x04 <= keys[i] <= 0x52 {
      KeyUsageRange(Keycode(keys[i]));
    }
    forall i, j | 0 <= i < j < |keys| ensures keys[i] != keys[j] {
      assert HeldSince(items, Keycode(keys[i])) < HeldSince(items, Keycode(keys[j]));
    }
  }

  /** What the target reads from a flushed report is what the history says is held: the
      modifier bits, and up to six keys in press order, or rollover beyond that. */
  lemma {:induction false} FlushedReportRefines(c: Config, items: seq<Item>)
    ensures var s := Since(c, items).s;
            && FlushKeyboard(s).out == [Keyboard(KeyboardReport(s.mods, s.keys))]
            && KeysRefine(items, s.keys)
            && Decode(KeyboardReport(s.mods, s.keys))
               == if |s.keys| > SLOTS then Rollover(HeldMods(items)) else Held6(HeldMods(items), s.keys)
  {
    KeyListRefines(c, items);
    MasksRefine(c, items);
    KeysProper(items, Since(c, items).s.keys);
    ReportDecodes(Since(c, items).s.mods, Since(c, items).s.keys);
  }
}
