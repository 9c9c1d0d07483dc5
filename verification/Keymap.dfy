/** The daemon's keycode tables (keymap.go). */
module Keymap {

  /** HID usage of a Linux keycode, 0 when the table has no entry. */
  function HidUsage(code: int): int {
    match code
    case 30 => 0x04 case 48 => 0x05 case 46 => 0x06 case 32 => 0x07 case 18 => 0x08 case 33 => 0x09
    case 34 => 0x0A case 35 => 0x0B case 23 => 0x0C case 36 => 0x0D case 37 => 0x0E case 38 => 0x0F
    case 50 => 0x10 case 49 => 0x11 case 24 => 0x12 case 25 => 0x13 case 16 => 0x14 case 19 => 0x15
    case 31 => 0x16 case 20 => 0x17 case 22 => 0x18 case 47 => 0x19 case 17 => 0x1A case 45 => 0x1B
    case 21 => 0x1C case 44 => 0x1D case 2 => 0x1E case 3 => 0x1F case 4 => 0x20 case 5 => 0x21
    case 6 => 0x22 case 7 => 0x23 case 8 => 0x24 case 9 => 0x25 case 10 => 0x26 case 11 => 0x27
    case 28 => 0x28 case 1 => 0x29 case 14 => 0x2A case 15 => 0x2B case 57 => 0x2C case 12 => 0x2D
    case 13 => 0x2E case 26 => 0x2F case 27 => 0x30 case 43 => 0x31 case 39 => 0x33 case 40 => 0x34
    case 41 => 0x35 case 51 => 0x36 case 52 => 0x37 case 53 => 0x38 case 58 => 0x39 case 59 => 0x3A
    case 60 => 0x3B case 61 => 0x3C case 62 => 0x3D case 63 => 0x3E case 64 => 0x3F case 65 => 0x40
    case 66 => 0x41 case 67 => 0x42 case 68 => 0x43 case 87 => 0x44 case 88 => 0x45 case 110 => 0x49
    case 102 => 0x4A case 104 => 0x4B case 111 => 0x4C case 107 => 0x4D case 109 => 0x4E case 106 => 0x4F
    case 105 => 0x50 case 108 => 0x51 case 103 => 0x52 case 29 => 0xE0 case 42 => 0xE1 case 56 => 0xE2
    case 125 => 0xE3 case 97 => 0xE4 case 54 => 0xE5 case 100 => 0xE6 case 126 => 0xE7
    case _ => 0
  }

  /** The keycode of a usage: the table read backwards. */
  function Keycode(usage: int): int {
    match usage
    case 0x04 => 30 case 0x05 => 48 case 0x06 => 46 case 0x07 => 32 case 0x08 => 18 case 0x09 => 33
    case 0x0A => 34 case 0x0B => 35 case 0x0C => 23 case 0x0D => 36 case 0x0E => 37 case 0x0F => 38
    case 0x10 => 50 case 0x11 => 49 case 0x12 => 24 case 0x13 => 25 case 0x14 => 16 case 0x15 => 19
    case 0x16 => 31 case 0x17 => 20 case 0x18 => 22 case 0x19 => 47 case 0x1A => 17 case 0x1B => 45
    case 0x1C => 21 case 0x1D => 44 case 0x1E => 2 case 0x1F => 3 case 0x20 => 4 case 0x21 => 5
    case 0x22 => 6 case 0x23 => 7 case 0x24 => 8 case 0x25 => 9 case 0x26 => 10 case 0x27 => 11
    case 0x28 => 28 case 0x29 => 1 case 0x2A => 14 case 0x2B => 15 case 0x2C => 57 case 0x2D => 12
    case 0x2E => 13 case 0x2F => 26 case 0x30 => 27 case 0x31 => 43 case 0x33 => 39 case 0x34 => 40
    case 0x35 => 41 case 0x36 => 51 case 0x37 => 52 case 0x38 => 53 case 0x39 => 58 case 0x3A => 59
    case 0x3B => 60 case 0x3C => 61 case 0x3D => 62 case 0x3E => 63 case 0x3F => 64 case 0x40 => 65
    case 0x41 => 66 case 0x42 => 67 case 0x43 => 68 case 0x44 => 87 case 0x45 => 88 case 0x49 => 110
    case 0x4A => 102 case 0x4B => 104 case 0x4C => 111 case 0x4D => 107 case 0x4E => 109 case 0x4F => 106
    case 0x50 => 105 case 0x51 => 108 case 0x52 => 103 case 0xE0 => 29 case 0xE1 => 42 case 0xE2 => 56
    case 0xE3 => 125 case 0xE4 => 97 case 0xE5 => 54 case 0xE6 => 100 case 0xE7 => 126
    case _ => 0
  }

  /** The bit of a modifier key in the report's modifier byte, 0 for every other key. */
  function ModBit(code: int): bv8 {
    match code
    case 29 => 0x01 case 42 => 0x02 case 56 => 0x04 case 125 => 0x08
    case 97 => 0x10 case 54 => 0x20 case 100 => 0x40 case 126 => 0x80
    case _ => 0
  }

  /** The bit of a mouse button in the mouse report, 0 for every other code. */
  function MouseButtonBit(code: int): bv8 {
    match code
    case 0x110 => 0x01 case 0x111 => 0x02 case 0x112 => 0x04 case 0x113 => 0x08 case 0x114 => 0x10
    case _ => 0
  }

  /** Codes that reach the key list: mapped, and neither a button nor a modifier. */
  predicate IsKey(code: int) {
    MouseButtonBit(code) == 0 && ModBit(code) == 0 && HidUsage(code) != 0
  }

  /** No two keycodes share a usage. */
  lemma {:induction false} UsageDeterminesKeycode(code: int)
    requires HidUsage(code) != 0
    ensures Keycode(HidUsage(code)) == code
  {
  }

  /** Key usages fit a report slot and cannot be mistaken for an empty slot or for the
      rollover code 0x01; modifier usages never reach a slot. */
  lemma {:induction false} KeyUsageRange(code: int)
    requires IsKey(code)
    ensures 0x04 <= HidUsage(code) <= 0x52
  {
  }

  /** Each modifier and each button owns one bit. */
  lemma {:induction false} BitsDisjoint(a: int, b: int)
    requires a != b
    ensures ModBit(a) & ModBit(b) == 0 && MouseButtonBit(a) & MouseButtonBit(b) == 0
    ensures ModBit(a) != 0 ==> MouseButtonBit(a) == 0 && HidUsage(a) >= 0xE0
  {
  }

  // ---- What the keys are ----

  /** What is on a key. */
  datatype Label =
    | Sign(c: char) | Function(n: int)
    | Esc | Backspace | Tab | Enter | Space | CapsLock
    | Insert | Home | PageUp | Delete | End | PageDown | Right | Left | Down | Up
    | LeftCtrl | LeftShift | LeftAlt | LeftMeta | RightCtrl | RightShift | RightAlt | RightMeta
    | Unknown

  /** The names that keymap.go prints for Linux keycodes. */
  function KeyLabel(code: int): Label {
    match code
    case 1 => Esc case 2 => Sign('1') case 3 => Sign('2') case 4 => Sign('3') case 5 => Sign('4')
    case 6 => Sign('5') case 7 => Sign('6') case 8 => Sign('7') case 9 => Sign('8') case 10 => Sign('9')
    case 11 => Sign('0') case 12 => Sign('-') case 13 => Sign('=') case 14 => Backspace case 15 => Tab
    case 16 => Sign('Q') case 17 => Sign('W') case 18 => Sign('E') case 19 => Sign('R') case 20 => Sign('T')
    case 21 => Sign('Y') case 22 => Sign('U') case 23 => Sign('I') case 24 => Sign('O') case 25 => Sign('P')
    case 26 => Sign('[') case 27 => Sign(']') case 28 => Enter case 29 => LeftCtrl case 30 => Sign('A')
    case 31 => Sign('S') case 32 => Sign('D') case 33 => Sign('F') case 34 => Sign('G') case 35 => Sign('H')
    case 36 => Sign('J') case 37 => Sign('K') case 38 => Sign('L') case 39 => Sign(';') case 40 => Sign('\'')
    case 41 => Sign('`') case 42 => LeftShift case 43 => Sign('\\') case 44 => Sign('Z') case 45 => Sign('X')
    case 46 => Sign('C') case 47 => Sign('V') case 48 => Sign('B') case 49 => Sign('N') case 50 => Sign('M')
    case 51 => Sign(',') case 52 => Sign('.') case 53 => Sign('/') case 54 => RightShift case 56 => LeftAlt
    case 57 => Space case 58 => CapsLock case 59 => Function(1) case 60 => Function(2) case 61 => Function(3)
    case 62 => Function(4) case 63 => Function(5) case 64 => Function(6) case 65 => Function(7)
    case 66 => Function(8) case 67 => Function(9) case 68 => Function(10) case 87 => Function(11)
    case 88 => Function(12) case 97 => RightCtrl case 100 => RightAlt case 102 => Home case 103 => Up
    case 104 => PageUp case 105 => Left case 106 => Right case 107 => End case 108 => Down
    case 109 => PageDown case 110 => Insert case 111 => Delete case 125 => LeftMeta case 126 => RightMeta
    case _ => Unknown
  }

  /** The keyboard page of the HID Usage Tables. */
  function UsageLabel(usage: int): Label {
    match usage
    case 0x04 => Sign('A') case 0x05 => Sign('B') case 0x06 => Sign('C') case 0x07 => Sign('D')
    case 0x08 => Sign('E') case 0x09 => Sign('F') case 0x0A => Sign('G') case 0x0B => Sign('H')
    case 0x0C => Sign('I') case 0x0D => Sign('J') case 0x0E => Sign('K') case 0x0F => Sign('L')
    case 0x10 => Sign('M') case 0x11 => Sign('N') case 0x12 => Sign('O') case 0x13 => Sign('P')
    case 0x14 => Sign('Q') case 0x15 => Sign('R') case 0x16 => Sign('S') case 0x17 => Sign('T')
    case 0x18 => Sign('U') case 0x19 => Sign('V') case 0x1A => Sign('W') case 0x1B => Sign('X')
    case 0x1C => Sign('Y') case 0x1D => Sign('Z') case 0x1E => Sign('1') case 0x1F => Sign('2')
    case 0x20 => Sign('3') case 0x21 => Sign('4') case 0x22 => Sign('5') case 0x23 => Sign('6')
    case 0x24 => Sign('7') case 0x25 => Sign('8') case 0x26 => Sign('9') case 0x27 => Sign('0')
    case 0x28 => Enter case 0x29 => Esc case 0x2A => Backspace case 0x2B => Tab case 0x2C => Space
    case 0x2D => Sign('-') case 0x2E => Sign('=') case 0x2F => Sign('[') case 0x30 => Sign(']')
    case 0x31 => Sign('\\') case 0x33 => Sign(';') case 0x34 => Sign('\'') case 0x35 => Sign('`')
    case 0x36 => Sign(',') case 0x37 => Sign('.') case 0x38 => Sign('/') case 0x39 => CapsLock
    case 0x3A => Function(1) case 0x3B => Function(2) case 0x3C => Function(3) case 0x3D => Function(4)
    case 0x3E => Function(5) case 0x3F => Function(6) case 0x40 => Function(7) case 0x41 => Function(8)
    case 0x42 => Function(9) case 0x43 => Function(10) case 0x44 => Function(11) case 0x45 => Function(12)
    case 0x49 => Insert case 0x4A => Home case 0x4B => PageUp case 0x4C => Delete case 0x4D => End
    case 0x4E => PageDown case 0x4F => Right case 0x50 => Left case 0x51 => Down case 0x52 => Up
    case 0xE0 => LeftCtrl case 0xE1 => LeftShift case 0xE2 => LeftAlt case 0xE3 => LeftMeta
    case 0xE4 => RightCtrl case 0xE5 => RightShift case 0xE6 => RightAlt case 0xE7 => RightMeta
    case _ => Unknown
  }

  predicate SameLabel(code: int) {
    if KeyLabel(code) == Unknown then HidUsage(code) == 0
    else HidUsage(code) != 0 && UsageLabel(HidUsage(code)) == KeyLabel(code)
  }

  lemma {:induction false} DigitRow(code: int)
    requires 1 <= code <= 15
    ensures SameLabel(code)
  {
  }

  lemma {:induction false} TopRow(code: int)
    requires 16 <= code <= 28
    ensures SameLabel(code)
  {
  }

  lemma {:induction false} HomeRow(code: int)
    requires 29 <= code <= 42
    ensures SameLabel(code)
  {
  }

  lemma {:induction false} BottomRow(code: int)
    requires 43 <= code <= 53
    ensures SameLabel(code)
  {
  }

  lemma {:induction false} SpaceRow(code: int)
    requires 54 <= code <= 58
    ensures SameLabel(code)
  {
  }

  lemma {:induction false} FunctionRow(code: int)
    requires 59 <= code <= 88
    ensures SameLabel(code)
  {
  }

  lemma {:induction false} CursorKeys(code: int)
    requires 97 <= code <= 106
    ensures SameLabel(code)
  {
  }

  lemma {:induction false} MoreCursorKeys(code: int)
    requires 107 <= code <= 111
    ensures SameLabel(code)
  {
  }

  lemma {:induction false} FarKeys(code: int)
    requires 112 <= code <= 126
    ensures SameLabel(code)
  {
  }

  /** The target reads the key that was pressed; and every key with a name has a usage. */
  lemma {:induction false} SameKey(code: int)
    ensures if KeyLabel(code) == Unknown then HidUsage(code) == 0
            else HidUsage(code) != 0 && UsageLabel(HidUsage(code)) == KeyLabel(code)
  {
    if 1 <= code <= 15 {
      DigitRow(code);
    } else if 16 <= code <= 28 {
      TopRow(code);
    } else if 29 <= code <= 42 {
      HomeRow(code);
    } else if 43 <= code <= 53 {
      BottomRow(code);
    } else if 54 <= code <= 58 {
      SpaceRow(code);
    } else if 59 <= code <= 88 {
      FunctionRow(code);
    } else if 97 <= code <= 106 {
      CursorKeys(code);
    } else if 107 <= code <= 111 {
      MoreCursorKeys(code);
    } else if 112 <= code <= 126 {
      FarKeys(code);
    }
  }

  /** Modifier bits are in the order of the modifiers' usages, as the boot report wants them. */
  lemma {:induction false} ModifierBits(code: int)
    ensures ModBit(code) != 0 <==> 0xE0 <= HidUsage(code) <= 0xE7
    ensures ModBit(code) != 0 ==> ModBit(code) == (1 as bv8) << (HidUsage(code) - 0xE0)
  {
  }

  /** Buttons from BTN_LEFT on take the bits from the lowest up. */
  lemma {:induction false} ButtonBits(code: int)
    ensures MouseButtonBit(code) == if 0x110 <= code <= 0x114 then (1 as bv8) << (code - 0x110) else 0
  {
  }
}
