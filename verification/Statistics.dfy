/** The firmware's keystroke and click counters (account_report). */
module Statistics {
  import opened Bytes
  import opened Wire

  const SLOTS := 6

  /** `!held` for one slot of a keyboard report. */
  predicate IsNew(prev: seq<byte>, k: byte) {
    k != 0 && k !in prev
  }

  function NewKeys(prev: seq<byte>, slots: seq<byte>): nat {
    if slots == [] then 0
    else NewKeys(prev, slots[..|slots| - 1]) + if IsNew(prev, slots[|slots| - 1]) then 1 else 0
  }

  lemma {:induction false} NewKeysNext(prev: seq<byte>, slots: seq<byte>, i: nat)
    requires i < |slots|
    ensures NewKeys(prev, slots[..i + 1]) == NewKeys(prev, slots[..i]) + if IsNew(prev, slots[i]) then 1 else 0
  {
    assert slots[..i + 1][..i] == slots[..i];
  }

  // ---- Masks, bit by bit from the least significant ----

  /** `a & ~b`. */
  function AndNot(a: nat, b: nat): nat {
    if a == 0 then 0 else (if a % 2 == 1 && b % 2 == 0 then 1 else 0) + 2 * AndNot(a / 2, b / 2)
  }

  function Popcount(a: nat): nat {
    if a == 0 then 0 else a % 2 + Popcount(a / 2)
  }

  /** `newly & (1 << b)`. */
  predicate Bit(a: nat, b: nat) {
    if b == 0 then a % 2 == 1 else Bit(a / 2, b - 1)
  }

  lemma {:induction false} AndNotAtMost(a: nat, b: nat)
    ensures AndNot(a, b) <= a
  {
    if a > 0 {
      AndNotAtMost(a / 2, b / 2);
    }
  }

  function BitsBelow(a: nat, n: nat): nat {
    if n == 0 then 0 else BitsBelow(a, n - 1) + if Bit(a, n - 1) then 1 else 0
  }

  lemma {:induction false} BitsBelowShift(a: nat, n: nat)
    requires n > 0
    ensures BitsBelow(a, n) == a % 2 + BitsBelow(a / 2, n - 1)
  {
    if n > 1 {
      BitsBelowShift(a, n - 1);
    }
  }

  /** Testing the low n bits one by one counts the bits of a number below 2^n. */
  lemma {:induction false} BitsBelowIsPopcount(a: nat, n: nat)
    requires a < Pow2(n)
    ensures BitsBelow(a, n) == Popcount(a)
    decreases n
  {
    if n > 0 {
      BitsBelowShift(a, n);
      BitsBelowIsPopcount(a / 2, n - 1);
    }
  }

  type uint32 = x: int | 0 <= x < TWO32

  function Add32(a: uint32, n: nat): uint32 {
    (a + n) % TWO32
  }

  lemma {:induction false} Add32Twice(c: uint32, a: nat, b: nat)
    ensures Add32(Add32(c, a), b) == Add32(c, a + b)
  {
  }

  class Stats {
    var kbdReports: uint32
    var mouseReports: uint32
    var keystrokes: uint32
    var clicks: uint32
    const prevKeys: array<byte>
    var prevBtn: byte

    constructor ()
      ensures fresh(prevKeys) && prevKeys[..] == Zeros(SLOTS) && prevBtn == 0
      ensures kbdReports == mouseReports == keystrokes == clicks == 0
    {
      kbdReports, mouseReports, keystrokes, clicks := 0, 0, 0, 0;
      prevKeys := new byte[SLOTS](_ => 0);
      prevBtn := 0;
      new;
      assert prevKeys[..] == Zeros(SLOTS);
    }

    method Account(typ: byte, payload: seq<byte>)
      requires prevKeys.Length == SLOTS && |payload| == PayloadLen(typ)
      modifies this, prevKeys
      ensures typ == KEYBOARD ==>
                && kbdReports == Add32(old(kbdReports), 1)
                && keystrokes == Add32(old(keystrokes), NewKeys(old(prevKeys[..]), payload[2..]))
                && prevKeys[..] == payload[2..]
      ensures typ == MOUSE ==>
                && mouseReports == Add32(old(mouseReports), 1)
                && clicks == Add32(old(clicks), Popcount(AndNot(payload[0] as int, old(prevBtn) as int)))
                && prevBtn == payload[0]
      ensures typ != KEYBOARD ==> unchanged(`kbdReports) && unchanged(`keystrokes) && unchanged(prevKeys)
      ensures typ != MOUSE ==> unchanged(`mouseReports) && unchanged(`clicks) && unchanged(`prevBtn)
    {
      if typ == KEYBOARD {
        kbdReports := Add32(kbdReports, 1);
        CountKeys(payload[2..]);
      } else if typ == MOUSE {
        mouseReports := Add32(mouseReports, 1);
        CountClicks(payload[0]);
      }
    }

    /** The keyboard branch: a nested scan of the new slots against the previous ones. */
    method CountKeys(slots: seq<byte>)
      requires prevKeys.Length == SLOTS == |slots|
      modifies `keystrokes, prevKeys
      ensures keystrokes == Add32(old(keystrokes), NewKeys(old(prevKeys[..]), slots))
      ensures prevKeys[..] == slots
    {
      ghost var prev := prevKeys[..];
      for i := 0 to SLOTS
        invariant keystrokes == Add32(old(keystrokes), NewKeys(prev, slots[..i]))
        invariant prevKeys[..] == prev
      {
        var k := slots[i];
        NewKeysNext(prev, slots, i);
        Add32Twice(old(keystrokes), NewKeys(prev, slots[..i]), 1);
        if k == 0 { continue; }
        var held := false;
        for j := 0 to SLOTS
          invariant !held && k !in prevKeys[..j]
        {
          if prevKeys[j] == k { held := true; break; }
        }
        assert held <==> k in prev;
        if !held { keystrokes := Add32(keystrokes, 1); }
      }
      assert slots[..SLOTS] == slots;
      forall i | 0 <= i < SLOTS { prevKeys[i] := slots[i]; }
      assert prevKeys[..] == slots;
    }

    /** The mouse branch. */
    method CountClicks(mask: byte)
      modifies `clicks, `prevBtn
      ensures clicks == Add32(old(clicks), Popcount(AndNot(mask as int, old(prevBtn) as int)))
      ensures prevBtn == mask
    {
      var newly := AndNot(mask as int, prevBtn as int);
      for b := 0 to 8
        invariant clicks == Add32(old(clicks), BitsBelow(newly, b))
        invariant unchanged(`prevBtn)
      {
        if Bit(newly, b) { clicks := Add32(clicks, 1); }
      }
      AndNotAtMost(mask as int, prevBtn as int);
      assert Pow2(8) == 256;
      BitsBelowIsPopcount(newly, 8);
      prevBtn := mask;
    }
  }

  // ---- Keystrokes over a run ----

  function Held(slots: seq<byte>): set<byte> {
    set k | k in slots && k != 0
  }

  /** The pressed slots are pairwise different. */
  predicate Clean(slots: seq<byte>) {
    forall i, j :: 0 <= i < j < |slots| && slots[i] == slots[j] ==> slots[i] == 0
  }

  /** Slots holding a key that was not held before are pairwise different. */
  predicate NewOnce(prev: seq<byte>, slots: seq<byte>) {
    forall i, j :: 0 <= i < j < |slots| && slots[i] == slots[j] ==> !IsNew(prev, slots[i])
  }

  /** One report counts each newly held key once, exactly when no new key fills two slots
      (six rollover slots count six times). */
  lemma {:induction false} NewKeysExact(prev: seq<byte>, slots: seq<byte>)
    ensures NewKeys(prev, slots) >= |Held(slots) - Held(prev)|
    ensures NewKeys(prev, slots) == |Held(slots) - Held(prev)| <==> NewOnce(prev, slots)
  {
    if slots == [] {
      assert Held(slots) - Held(prev) == {};
    } else {
      var before, k := slots[..|slots| - 1], slots[|slots| - 1];
      NewKeysExact(prev, before);
      assert slots == before + [k];
      FreshGrows(prev, before, k);
      NewOnceGrows(prev, before, k);
      GrowsByOne(Held(before) - Held(prev), k);
    }
  }

  lemma {:induction false} GrowsByOne(s: set<byte>, k: byte)
    ensures |s + {k}| == |s| + if k in s then 0 else 1
  {
    if k in s {
      assert s + {k} == s;
    }
  }

  lemma {:induction false} FreshGrows(prev: seq<byte>, before: seq<byte>, k: byte)
    ensures var fresh_ := Held(before) - Held(prev);
            && Held(before + [k]) - Held(prev) == (if IsNew(prev, k) then fresh_ + {k} else fresh_)
            && (IsNew(prev, k) ==> (k in fresh_ <==> k in before))
  {
  }

  lemma {:induction false} NewOnceGrows(prev: seq<byte>, before: seq<byte>, k: byte)
    ensures NewOnce(prev, before + [k]) <==> NewOnce(prev, before) && (IsNew(prev, k) ==> k !in before)
  {
    var slots, n := before + [k], |before|;
    assert forall i :: 0 <= i < n ==> slots[i] == before[i];
    if NewOnce(prev, slots) {
      assert forall i, j :: 0 <= i < j < n && before[i] == before[j] ==> slots[i] == slots[j];
      if k in before {
        var i :| 0 <= i < n && before[i] == k;
        assert slots[i] == slots[n];
      }
    }
  }

  function Keystrokes(prev: seq<byte>, reports: seq<seq<byte>>): nat
    decreases |reports|
  {
    if reports == [] then 0 else NewKeys(prev, reports[0]) + Keystrokes(reports[0], reports[1..])
  }

  /** Keys released between consecutive reports. */
  function Releases(prev: seq<byte>, reports: seq<seq<byte>>): nat
    decreases |reports|
  {
    if reports == [] then 0 else |Held(prev) - Held(reports[0])| + Releases(reports[0], reports[1..])
  }

  function Last<T>(first: T, later: seq<T>): T {
    if later == [] then first else later[|later| - 1]
  }

  /** The previous report of a board just started. */
  const BOOT := Zeros(SLOTS)

  /** No report of the run fills two slots with one new key. */
  predicate AllNewOnce(prev: seq<byte>, reports: seq<seq<byte>>)
    decreases |reports|
  {
    reports == [] || (NewOnce(prev, reports[0]) && AllNewOnce(reports[0], reports[1..]))
  }

  /** Every keystroke counted is a key released again or still held, exactly when no report
      fills two slots with one new key; otherwise the count is too high. */
  lemma {:induction false} KeystrokesConserved(prev: seq<byte>, reports: seq<seq<byte>>)
    ensures var counted := Keystrokes(prev, reports) + |Held(prev)|;
            var pressed := Releases(prev, reports) + |Held(Last(prev, reports))|;
            counted >= pressed && (counted == pressed <==> AllNewOnce(prev, reports))
    decreases |reports|
  {
    if reports != [] {
      var cur := reports[0];
      NewKeysExact(prev, cur);
      SetExchange(Held(cur), Held(prev));
      KeystrokesConserved(cur, reports[1..]);
    }
  }

  lemma {:induction false} CleanIsNewOnce(prev: seq<byte>, reports: seq<seq<byte>>)
    requires forall i :: 0 <= i < |reports| ==> Clean(reports[i])
    ensures AllNewOnce(prev, reports)
    decreases |reports|
  {
    if reports != [] {
      CleanIsNewOnce(reports[0], reports[1..]);
    }
  }

  lemma {:induction false} NewOnceAppend(prev: seq<byte>, reports: seq<seq<byte>>, next: seq<byte>)
    ensures AllNewOnce(prev, reports + [next]) <==> AllNewOnce(prev, reports) && NewOnce(Last(prev, reports), next)
    ensures Last(prev, reports + [next]) == next
    decreases |reports|
  {
    var all := reports + [next];
    if reports != [] {
      assert all[1..] == reports[1..] + [next];
      NewOnceAppend(reports[0], reports[1..], next);
    } else {
      assert all[1..] == [];
    }
  }

  /** The 32-bit counter after a run of reports. */
  function KeystrokeCounter(c: uint32, prev: seq<byte>, reports: seq<seq<byte>>): uint32
    decreases |reports|
  {
    if reports == [] then c
    else KeystrokeCounter(Add32(c, NewKeys(prev, reports[0])), reports[0], reports[1..])
  }

  lemma {:induction false} CounterSums(c: uint32, prev: seq<byte>, reports: seq<seq<byte>>)
    ensures KeystrokeCounter(c, prev, reports) == Add32(c, Keystrokes(prev, reports))
    decreases |reports|
  {
    if reports != [] {
      var n := NewKeys(prev, reports[0]);
      CounterSums(Add32(c, n), reports[0], reports[1..]);
      Add32Twice(c, n, Keystrokes(reports[0], reports[1..]));
    }
  }

  /** The keys pressed since boot: each is released again or still held. */
  function Pressed(reports: seq<seq<byte>>): nat {
    Releases(BOOT, reports) + |Held(Last(BOOT, reports))|
  }

  /** Since boot, the counter is the keys pressed, modulo 2^32. */
  lemma {:induction false} KeystrokeCounterExact(reports: seq<seq<byte>>)
    requires AllNewOnce(BOOT, reports)
    ensures KeystrokeCounter(0, BOOT, reports) == Pressed(reports) % TWO32
  {
    CounterSums(0, BOOT, reports);
    CountedSinceBoot(reports);
  }

  lemma {:induction false} CountedSinceBoot(reports: seq<seq<byte>>)
    ensures Keystrokes(BOOT, reports) >= Pressed(reports)
    ensures Keystrokes(BOOT, reports) == Pressed(reports) <==> AllNewOnce(BOOT, reports)
  {
    KeystrokesConserved(BOOT, reports);
    assert Held(BOOT) == {};
  }

  lemma {:induction false} SetExchange(a: set<byte>, b: set<byte>)
    ensures |a - b| + |b| == |b - a| + |a|
  {
    assert a == (a - b) + a * b && b == (b - a) + a * b;
    assert |a| == |a - b| + |a * b| && |b| == |b - a| + |a * b|;
  }

  // ---- Clicks over a run ----

  function Clicks(prev: byte, masks: seq<byte>): nat
    decreases |masks|
  {
    if masks == [] then 0
    else Popcount(AndNot(masks[0] as int, prev as int)) + Clicks(masks[0], masks[1..])
  }

  function ButtonReleases(prev: byte, masks: seq<byte>): nat
    decreases |masks|
  {
    if masks == [] then 0
    else Popcount(AndNot(prev as int, masks[0] as int)) + ButtonReleases(masks[0], masks[1..])
  }

  lemma {:induction false} MaskExchange(a: nat, b: nat)
    ensures Popcount(AndNot(a, b)) + Popcount(b) == Popcount(AndNot(b, a)) + Popcount(a)
    decreases a + b
  {
    PopcountSplit(a, b);
    PopcountSplit(b, a);
    if a + b > 0 {
      MaskExchange(a / 2, b / 2);
    }
  }

  lemma {:induction false} PopcountSplit(a: nat, b: nat)
    ensures Popcount(AndNot(a, b)) == (if a % 2 == 1 && b % 2 == 0 then 1 else 0) + Popcount(AndNot(a / 2, b / 2))
    ensures Popcount(a) == a % 2 + Popcount(a / 2)
  {
    var low := if a % 2 == 1 && b % 2 == 0 then 1 else 0;
    var rest := AndNot(a / 2, b / 2);
    assert AndNot(a, b) == low + 2 * rest;
    assert AndNot(a, b) % 2 == low && AndNot(a, b) / 2 == rest;
  }

  /** Every click counted is a button released again or still held. */
  lemma {:induction false} ClicksConserved(prev: byte, masks: seq<byte>)
    ensures Clicks(prev, masks) + Popcount(prev as int)
         == ButtonReleases(prev, masks) + Popcount(Last(prev, masks) as int)
    decreases |masks|
  {
    if masks != [] {
      MaskExchange(masks[0] as int, prev as int);
      ClicksConserved(masks[0], masks[1..]);
    }
  }

  /** The 32-bit counter after a run of masks. */
  function ClickCounter(c: uint32, prev: byte, masks: seq<byte>): uint32
    decreases |masks|
  {
    if masks == [] then c
    else ClickCounter(Add32(c, Popcount(AndNot(masks[0] as int, prev as int))), masks[0], masks[1..])
  }

  lemma {:induction false} ClickCounterSums(c: uint32, prev: byte, masks: seq<byte>)
    ensures ClickCounter(c, prev, masks) == Add32(c, Clicks(prev, masks))
    decreases |masks|
  {
    if masks != [] {
      var n := Popcount(AndNot(masks[0] as int, prev as int));
      ClickCounterSums(Add32(c, n), masks[0], masks[1..]);
      Add32Twice(c, n, Clicks(masks[0], masks[1..]));
    }
  }

  /** Since boot, the counter is the buttons released plus those now held, modulo 2^32. */
  lemma {:induction false} ClickCounterExact(masks: seq<byte>)
    ensures ClickCounter(0, 0, masks)
         == (ButtonReleases(0, masks) + Popcount(Last(0, masks) as int)) % TWO32
  {
    ClickCounterSums(0, 0, masks);
    ClicksConserved(0, masks);
  }
}
