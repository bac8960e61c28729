/** 32-bit sequence numbers (RFC 1982, section 3.2) and the unbounded stream
    positions they stand for.

    A position is an unbounded integer; its wire form is the position modulo
    2^32. The kernel compares wire forms through the sign of a 32-bit
    difference. The lemmas say exactly when that sign is the order of the
    positions. */
module SequenceNumbers {

  const MODULUS := 0x1_0000_0000
  const HALF := 0x8000_0000

  type U32 = x: int | 0 <= x < 0x1_0000_0000

  /** The wire form of a position. */
  function Wire(position: int): U32 {
    position % MODULUS
  }

  /** `left - right` in uint32_t. */
  function Minus(left: U32, right: U32): U32 {
    Wire(left - right)
  }

  /** `static_cast<int32_t>`. */
  function Signed(x: U32): int {
    if x < HALF then x else x - MODULUS
  }

  predicate SeqLt(left: U32, right: U32) { Signed(Minus(left, right)) < 0 }
  predicate SeqLeq(left: U32, right: U32) { Signed(Minus(left, right)) <= 0 }
  predicate SeqGt(left: U32, right: U32) { Signed(Minus(left, right)) > 0 }
  predicate SeqGeq(left: U32, right: U32) { Signed(Minus(left, right)) >= 0 }

  /** The positions a 32-bit difference from `reference` can tell apart. */
  predicate Near(position: int, reference: int) {
    -HALF <= position - reference < HALF
  }

  /** The position a wire form stands for, to someone who is at `reference`. */
  function Unwrap(wire: U32, reference: int): int {
    reference + Signed(Minus(wire, Wire(reference)))
  }

  /** Subtracting wire forms is subtracting positions, modulo 2^32. */
  lemma MinusOfWires(a: int, b: int)
    ensures Minus(Wire(a), Wire(b)) == Wire(a - b)
  {
    var qa, qb := a / MODULUS, b / MODULUS;
    assert Wire(a) == a - qa * MODULUS && Wire(b) == b - qb * MODULUS;
    SameWire(Wire(a) - Wire(b), a - b, qb - qa);
  }

  lemma SameWire(x: int, y: int, k: int)
    requires x == y + k * MODULUS
    ensures Wire(x) == Wire(y)
  {
  }

  /** The signed difference recovers the distance of two positions exactly when
      they are near each other. */
  lemma SignedDistance(a: int, b: int)
    ensures Signed(Minus(Wire(a), Wire(b))) == a - b <==> Near(a, b)
  {
    MinusOfWires(a, b);
  }

  /** Wrapping is undone by a nearby reference, and only by one. */
  lemma UnwrapWire(position: int, reference: int)
    ensures Unwrap(Wire(position), reference) == position <==> Near(position, reference)
  {
    SignedDistance(position, reference);
  }

  /** Every wire form is the wire form of what it is taken to stand for. */
  lemma WireUnwrap(wire: U32, reference: int)
    ensures Wire(Unwrap(wire, reference)) == wire
    ensures Near(Unwrap(wire, reference), reference)
  {
    var p := Unwrap(wire, reference);
    var d := wire - Wire(reference);
    var k := d / MODULUS;
    var q := reference / MODULUS;
    assert Minus(wire, Wire(reference)) == d - k * MODULUS;
    assert Wire(reference) == reference - q * MODULUS;
    if Minus(wire, Wire(reference)) < HALF {
      assert p == wire + (q - k) * MODULUS;
      SameWire(p, wire, q - k);
    } else {
      assert p == wire + (q - k - 1) * MODULUS;
      SameWire(p, wire, q - k - 1);
    }
  }

  /** Among near positions the kernel's four comparisons are the order of the
      positions, however often the 32-bit counter has wrapped between. */
  lemma CompareWires(a: int, b: int)
    requires Near(a, b)
    ensures SeqLt(Wire(a), Wire(b)) <==> a < b
    ensures SeqLeq(Wire(a), Wire(b)) <==> a <= b
    ensures SeqGt(Wire(a), Wire(b)) <==> a > b
    ensures SeqGeq(Wire(a), Wire(b)) <==> a >= b
  {
    SignedDistance(a, b);
  }

  /** Advancing a wire form by n advances the position by n. */
  lemma WirePlus(position: int, n: int)
    ensures Wire(Wire(position) + n) == Wire(position + n)
  {
    SameWire(position + n, Wire(position) + n, position / MODULUS);
  }

  /** Two positions closer than 2^32 share a wire form only when equal. */
  lemma WireInjective(a: int, b: int)
    requires -MODULUS < a - b < MODULUS
    ensures Wire(a) == Wire(b) <==> a == b
  {
    MinusOfWires(a, b);
  }

  /** The wire arithmetic of cutting a segment to the window: exact for every sequence number, with
      the segment taken to stand at the position nearest `next`. */
  lemma ClipWires(sequence: U32, next: int, free: int)
    requires 0 <= free <= 0xffff
    ensures var s := Unwrap(sequence, next);
            var low := if s < next then next else s;
            && (SeqLt(sequence, Wire(next)) <==> s < next)
            && (s < next ==> Minus(Wire(next), sequence) == next - s)
            && Wire(low) == (if s < next then Wire(next) else sequence)
            && (SeqGeq(Wire(low), Wire(Wire(next) + free)) <==> low >= next + free)
            && (low < next + free ==> Minus(Wire(low), Wire(next)) == low - next)
  {
    var s := Unwrap(sequence, next);
    var low := if s < next then next else s;
    WireUnwrap(sequence, next);
    CompareWires(s, next);
    MinusOfWires(next, s);
    WirePlus(next, free);
    CompareWires(low, next + free);
    MinusOfWires(low, next);
  }
}
