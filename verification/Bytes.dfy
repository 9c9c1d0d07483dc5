/** Byte arithmetic shared by the Go encoder and the C decoder: the XOR checksum
    algebra, little-endian integers and two's complement. */
module Bytes {

  newtype byte = x: int | 0 <= x < 256

  const TWO16 := 0x1_0000
  const TWO32 := 0x1_0000_0000

  function Min(a: int, b: int): int {
    if a < b then a else b
  }

  function Flatten<T>(parts: seq<seq<T>>): seq<T> {
    if parts == [] then [] else parts[0] + Flatten(parts[1..])
  }

  function Zeros(n: nat): (s: seq<byte>)
    ensures |s| == n
  {
    seq(n, _ => 0)
  }

  // ---- XOR ----

  /** Bitwise exclusive or, bit by bit from the least significant. */
  function Xor(a: nat, b: nat): nat
    decreases a + b
  {
    if a == 0 && b == 0 then 0 else (a + b) % 2 + 2 * Xor(a / 2, b / 2)
  }

  lemma {:induction false} XorBound(a: nat, b: nat, k: nat)
    requires a < Pow2(k) && b < Pow2(k)
    ensures Xor(a, b) < Pow2(k)
    decreases k
  {
    if k > 0 {
      XorBound(a / 2, b / 2, k - 1);
    }
  }

  function Pow2(k: nat): nat {
    if k == 0 then 1 else 2 * Pow2(k - 1)
  }

  lemma {:induction false} XorAssoc(a: nat, b: nat, c: nat)
    ensures Xor(Xor(a, b), c) == Xor(a, Xor(b, c))
    decreases a + b + c
  {
    if a + b + c > 0 {
      LeftHalves(a, b, c);
      RightHalves(a, b, c);
      XorAssoc(a / 2, b / 2, c / 2);
      SameHalves(Xor(Xor(a, b), c), Xor(a, Xor(b, c)));
    }
  }

  lemma {:induction false} LeftHalves(a: nat, b: nat, c: nat)
    ensures var x := Xor(Xor(a, b), c);
            x / 2 == Xor(Xor(a / 2, b / 2), c / 2) && x % 2 == (a + b + c) % 2
  {
    XorHalves(a, b);
    XorHalves(Xor(a, b), c);
    SameParity(Xor(a, b), a + b, c);
  }

  lemma {:induction false} RightHalves(a: nat, b: nat, c: nat)
    ensures var x := Xor(a, Xor(b, c));
            x / 2 == Xor(a / 2, Xor(b / 2, c / 2)) && x % 2 == (a + b + c) % 2
  {
    XorHalves(b, c);
    XorHalves(a, Xor(b, c));
    SameParity(Xor(b, c), b + c, a);
  }

  lemma {:induction false} XorHalves(a: nat, b: nat)
    ensures Xor(a, b) / 2 == Xor(a / 2, b / 2) && Xor(a, b) % 2 == (a + b) % 2
  {
  }

  lemma {:induction false} SameParity(x: nat, y: nat, z: nat)
    requires x % 2 == y % 2
    ensures (x + z) % 2 == (y + z) % 2
  {
  }

  lemma {:induction false} SameHalves(x: nat, y: nat)
    requires x / 2 == y / 2 && x % 2 == y % 2
    ensures x == y
  {
  }

  lemma {:induction false} XorComm(a: nat, b: nat)
    ensures Xor(a, b) == Xor(b, a)
    decreases a + b
  {
    if a + b > 0 {
      XorComm(a / 2, b / 2);
    }
  }

  lemma {:induction false} XorZero(a: nat)
    ensures Xor(a, 0) == a == Xor(0, a)
  {
    if a > 0 {
      XorZero(a / 2);
    }
  }

  /** Two values XOR to zero only when they are equal. */
  lemma {:induction false} XorSame(a: nat, b: nat)
    ensures Xor(a, b) == 0 <==> a == b
    decreases a + b
  {
    if a + b > 0 {
      XorSame(a / 2, b / 2);
    }
  }

  function XorByte(a: byte, b: byte): byte {
    assert Pow2(8) == 256;
    XorBound(a as int, b as int, 8);
    Xor(a as int, b as int) as byte
  }

  /** The exclusive or of a whole block. */
  function XorAll(s: seq<byte>): byte {
    if s == [] then 0 else XorByte(s[0], XorAll(s[1..]))
  }

  lemma {:induction false} XorAllConcat(a: seq<byte>, b: seq<byte>)
    ensures XorAll(a + b) == XorByte(XorAll(a), XorAll(b))
  {
    if a == [] {
      assert a + b == b;
      XorZero(XorAll(b) as int);
    } else {
      assert (a + b)[1..] == a[1..] + b;
      XorAllConcat(a[1..], b);
      XorAssoc(a[0] as int, XorAll(a[1..]) as int, XorAll(b) as int);
    }
  }

  lemma {:induction false} XorAllCons(b: byte, s: seq<byte>)
    ensures XorAll([b] + s) == XorByte(b, XorAll(s))
  {
    assert ([b] + s)[1..] == s;
  }

  lemma {:induction false} XorAllAppend(s: seq<byte>, b: byte)
    ensures XorAll(s + [b]) == XorByte(XorAll(s), b)
  {
    XorAllConcat(s, [b]);
    XorZero(b as int);
  }

  lemma {:induction false} XorSwap(a: byte, b: byte, c: byte, d: byte)
    ensures XorByte(XorByte(a, b), XorByte(c, d)) == XorByte(XorByte(a, c), XorByte(b, d))
  {
    XorAssoc(a as int, b as int, Xor(c as int, d as int));
    XorAssoc(b as int, c as int, d as int);
    XorComm(b as int, c as int);
    XorAssoc(c as int, b as int, d as int);
    XorAssoc(a as int, c as int, Xor(b as int, d as int));
  }

  /** A block hit by one error mask per byte. */
  function Masked(s: seq<byte>, masks: seq<byte>): (r: seq<byte>)
    requires |s| == |masks|
    ensures |r| == |s|
  {
    seq(|s|, i requires 0 <= i < |s| => XorByte(s[i], masks[i]))
  }

  lemma {:induction false} XorAllMasked(s: seq<byte>, masks: seq<byte>)
    requires |s| == |masks|
    ensures XorAll(Masked(s, masks)) == XorByte(XorAll(s), XorAll(masks))
  {
    if s == [] {
      XorZero(0);
    } else {
      assert Masked(s, masks)[1..] == Masked(s[1..], masks[1..]);
      XorAllMasked(s[1..], masks[1..]);
      XorSwap(s[0], masks[0], XorAll(s[1..]), XorAll(masks[1..]));
    }
  }

  // ---- Integers on the wire ----

  /** Go's conversion byte(n): the low eight bits. */
  function LowByte(n: int): byte {
    (n % 256) as byte
  }

  function Le16(n: nat): (s: seq<byte>)
    ensures |s| == 2
  {
    [LowByte(n), LowByte(n / 256)]
  }

  function FromLe16(lo: byte, hi: byte): (n: nat)
    ensures n < TWO16
  {
    lo as int + 256 * (hi as int)
  }

  lemma {:induction false} Le16Inverse(n: nat)
    requires n < TWO16
    ensures FromLe16(Le16(n)[0], Le16(n)[1]) == n
  {
  }

  function Le32(n: nat): (s: seq<byte>)
    ensures |s| == 4
  {
    [LowByte(n), LowByte(n / 0x100), LowByte(n / 0x1_0000), LowByte(n / 0x100_0000)]
  }

  function FromLe32(s: seq<byte>): (n: nat)
    requires |s| >= 4
    ensures n < TWO32
  {
    s[0] as int + 0x100 * (s[1] as int) + 0x1_0000 * (s[2] as int) + 0x100_0000 * (s[3] as int)
  }

  lemma {:induction false} Le32Inverse(n: nat)
    requires n < TWO32
    ensures FromLe32(Le32(n)) == n
  {
    assert n / 0x1_0000 == n / 0x100 / 0x100;
    assert n / 0x100_0000 == n / 0x100 / 0x100 / 0x100;
  }

  lemma {:induction false} Le32Of(s: seq<byte>)
    requires |s| == 4
    ensures Le32(FromLe32(s)) == s
  {
    var n := FromLe32(s);
    assert n / 0x100 == s[1] as int + 0x100 * (s[2] as int) + 0x1_0000 * (s[3] as int);
    assert n / 0x1_0000 == s[2] as int + 0x100 * (s[3] as int);
    assert n / 0x100_0000 == s[3] as int;
  }

  /** Only the low 32 bits travel, as after Go's conversion uint32(n). */
  lemma {:induction false} Le32Truncates(n: nat)
    ensures FromLe32(Le32(n)) == n % TWO32
  {
    var n1 := n / 0x100;
    var n2 := n1 / 0x100;
    var n3 := n2 / 0x100;
    assert n / 0x1_0000 == n2 && n / 0x100_0000 == n3 by { NestedDiv(n); }
    assert n == n % 0x100 + 0x100 * n1 && n1 == n1 % 0x100 + 0x100 * n2;
    assert n2 == n2 % 0x100 + 0x100 * n3 && n3 == n3 % 0x100 + 0x100 * (n3 / 0x100);
    ModOf(FromLe32(Le32(n)), n3 / 0x100);
  }

  lemma {:induction false} NestedDiv(n: nat)
    ensures n / 0x1_0000 == n / 0x100 / 0x100 && n / 0x100_0000 == n / 0x100 / 0x100 / 0x100
  {
  }

  lemma {:induction false} ModOf(low: nat, high: nat)
    requires low < TWO32
    ensures (low + TWO32 * high) % TWO32 == low
  {
  }

  /** The value of the low `modulus` part of `v` read as two's complement; with
      modulus 2^16 and 2^8 this is Go's int16(v) and int8(v). */
  function Signed(v: int, modulus: int): int
    requires modulus > 0
  {
    var u := v % modulus;
    if 2 * u >= modulus then u - modulus else u
  }

  predicate FitsIn(v: int, modulus: int) {
    -modulus <= 2 * v < modulus
  }

  lemma {:induction false} SignedInverse(v: int, modulus: int)
    requires modulus > 0 && FitsIn(v, modulus)
    ensures Signed(v % modulus, modulus) == v == Signed(v, modulus)
    ensures 0 <= v % modulus < modulus
  {
    Remainder(v, modulus);
    Remainder(v % modulus, modulus);
  }

  lemma {:induction false} Remainder(v: int, modulus: int)
    requires modulus > 0 && -modulus <= v < modulus
    ensures v % modulus == if v < 0 then v + modulus else v
  {
    assert v == modulus * (v / modulus) + v % modulus;
    ProductBounds(modulus, v / modulus);
  }

  lemma {:induction false} ProductBounds(m: int, q: int)
    requires m > 0
    ensures q >= 1 ==> m * q >= m
    ensures q <= -1 ==> m * q <= -m
    ensures q <= -2 ==> m * q <= -2 * m
  {
  }

  lemma {:induction false} FlattenConcat<T>(a: seq<seq<T>>, b: seq<seq<T>>)
    ensures Flatten(a + b) == Flatten(a) + Flatten(b)
  {
    if a == [] {
      assert a + b == b;
    } else {
      assert (a + b)[1..] == a[1..] + b;
      FlattenConcat(a[1..], b);
    }
  }
}
