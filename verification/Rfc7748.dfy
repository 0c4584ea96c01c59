/**
 X25519 as section 5 of RFC 7748 defines it, over integers modulo p = 2^255 - 19. This is
 the reference that the limb implementation is proved against.
 */
module Rfc7748 {
  import opened Machine
  import opened Bytes
  import opened Field25519

  type Elem = x: int | 0 <= x < P

  function FAdd(a: Elem, b: Elem): Elem {
    (a + b) % P
  }

  function FSub(a: Elem, b: Elem): Elem {
    (a - b) % P
  }

  function FMul(a: Elem, b: Elem): Elem {
    a * b % P
  }

  function FPow(a: Elem, n: nat): Elem {
    if n == 0 then 1 else FMul(a, FPow(a, n - 1))
  }

  // The projective x coordinates of two multiples of the point.
  datatype Ladder = Ladder(x2: Elem, z2: Elem, x3: Elem, z3: Elem)

  const A24: Elem := 121665

  function CSwap(swap: bool, s: Ladder): Ladder {
    if swap then Ladder(s.x3, s.z3, s.x2, s.z2) else s
  }

  function Step(x1: Elem, s: Ladder): Ladder {
    var a := FAdd(s.x2, s.z2);
    var aa := FMul(a, a);
    var b := FSub(s.x2, s.z2);
    var bb := FMul(b, b);
    var e := FSub(aa, bb);
    var c := FAdd(s.x3, s.z3);
    var d := FSub(s.x3, s.z3);
    var da := FMul(d, a);
    var cb := FMul(c, b);
    var sum := FAdd(da, cb);
    var diff := FSub(da, cb);
    Ladder(FMul(aa, bb), FMul(e, FAdd(aa, FMul(A24, e))), FMul(sum, sum), FMul(x1, FMul(diff, diff)))
  }

  // Bits 254 down to 0 of the scalar.
  function ScalarBits(k: nat): (bits: seq<bool>) {
    seq(255, i requires 0 <= i < 255 => Bit(k, 254 - i))
  }

  // The loop of section 5 with its deferred swap; `bits` are the bits still to be used.
  function Loop(x1: Elem, bits: seq<bool>, s: Ladder, swap: bool): Ladder
    decreases |bits|
  {
    if bits == [] then CSwap(swap, s)
    else Loop(x1, bits[1..], Step(x1, CSwap(swap != bits[0], s)), bits[0])
  }

  // The same ladder with every swap undone at once: the first component always belongs to the
  // multiple of the point given by the bits used so far, and the second to the multiple after it.
  function Eager(x1: Elem, bits: seq<bool>, s: Ladder): Ladder
    decreases |bits|
  {
    if bits == [] then s
    else Eager(x1, bits[1..], CSwap(bits[0], Step(x1, CSwap(bits[0], s))))
  }

  lemma {:induction false} LazySwapsAreEager(x1: Elem, bits: seq<bool>, s: Ladder, swap: bool)
    ensures Loop(x1, bits, s, swap) == Eager(x1, bits, CSwap(swap, s))
    decreases |bits|
  {
    if bits != [] {
      assert CSwap(swap != bits[0], s) == CSwap(bits[0], CSwap(swap, s));
      LazySwapsAreEager(x1, bits[1..], Step(x1, CSwap(swap != bits[0], s)), bits[0]);
    }
  }

  // decodeScalar25519: bits 0, 1, 2 and 255 cleared, bit 254 set.
  function DecodeScalar(s: seq<byte>): nat
    requires |s| == 32
  {
    var n := Le(s) % TWO254;
    n - n % 8 + TWO254
  }

  const TWO254: int := 0x40000000_00000000_00000000_00000000_00000000_00000000_00000000_00000000

  // decodeUCoordinate: the top bit is ignored, values from p on are accepted and reduced.
  function DecodeU(s: seq<byte>): Elem
    requires |s| == 32
  {
    Le(s) % (2 * TWO254) % P
  }

  function X25519(scalar: seq<byte>, point: seq<byte>): (out: seq<byte>)
    requires |scalar| == 32 && |point| == 32
  {
    var x1 := DecodeU(point);
    var s := Loop(x1, ScalarBits(DecodeScalar(scalar)), Ladder(1, 0, x1, 1), false);
    LeBytes(FMul(s.x2, FPow(s.z2, P - 2)), 32)
  }
}
