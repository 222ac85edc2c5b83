/** Bit lists read least significant bit first, as the sketch uses them twice:
    the four slot-selector lines (update_slot) and the eight bits that
    writeByte sends to the fob. */
module Bits {

  function Pow2(n: nat): (p: nat)
    ensures p >= 1
  {
    if n == 0 then 1 else 2 * Pow2(n - 1)
  }

  /** The number a bit list denotes when bit i has weight 2^i. */
  function BitsValue(bs: seq<bool>): (v: nat)
    ensures v < Pow2(|bs|)
  {
    if bs == [] then 0 else (if bs[0] then 1 else 0) + 2 * BitsValue(bs[1..])
  }

  /** Appending a bit adds its weight: the step the selector loop takes. */
  lemma {:induction false} BitsValueAppend(bs: seq<bool>, b: bool)
    ensures BitsValue(bs + [b]) == BitsValue(bs) + (if b then Pow2(|bs|) else 0)
  {
    if bs != [] {
      assert (bs + [b])[1..] == bs[1..] + [b];
      BitsValueAppend(bs[1..], b);
    }
  }

  /** The eight bits of a byte in transmission order: element i is (d >> i) & 1. */
  function ByteBits(d: bv8): seq<bool>
  {
    [d & 1 == 1, (d >> 1) & 1 == 1, (d >> 2) & 1 == 1, (d >> 3) & 1 == 1,
     (d >> 4) & 1 == 1, (d >> 5) & 1 == 1, (d >> 6) & 1 == 1, (d >> 7) & 1 == 1]
  }

  lemma ByteBitsAt(d: bv8, i: nat)
    requires i < 8
    ensures |ByteBits(d)| == 8 && ByteBits(d)[i] == ((d >> i) & 1 == 1)
  {
  }

  lemma ShiftCompose(d: bv8, k: nat)
    requires k < 8
    ensures d >> (k + 1) == (d >> k) >> 1
  {
  }

  lemma LowBit(e: bv8)
    ensures (if e & 1 == 1 then 1 else 0) + 2 * (e >> 1) as int == e as int
  {
  }

  lemma {:induction false} ByteBitsSuffix(d: bv8, k: nat)
    requires k <= 8
    ensures BitsValue(ByteBits(d)[k..]) == (d >> k) as int
    decreases 8 - k
  {
    var bs := ByteBits(d);
    if k < 8 {
      ByteBitsSuffix(d, k + 1);
      ByteBitsAt(d, k);
      assert bs[k..][1..] == bs[k + 1..];
      ShiftCompose(d, k);
      LowBit(d >> k);
    } else {
      assert d >> 8 == 0;
    }
  }

  /** Reading the transmitted bits back LSB first gives the byte again. */
  lemma ByteBitsValue(d: bv8)
    ensures |ByteBits(d)| == 8 && BitsValue(ByteBits(d)) == d as int
  {
    ByteBitsSuffix(d, 0);
    assert ByteBits(d)[0..] == ByteBits(d);
  }

  /** OR-ing a bit at position x into a value below 2^x adds the bit's
      weight: the step of update_slot's selector loop. */
  lemma OrBit(acc: bv8, x: nat, b: bool)
    requires x < 4 && acc as int < Pow2(x)
    ensures (acc | ((if b then 1 else 0) << x)) as int == acc as int + (if b then Pow2(x) else 0)
  {
    if x == 0 {
    } else if x == 1 {
    } else if x == 2 {
      assert Pow2(2) == 4;
    } else {
      assert Pow2(3) == 8;
    }
  }

  /** One step of the selector loop: OR-ing in bit x of the selector gives
      the value of the first x + 1 selector lines. */
  lemma SelectorStep(selector: seq<bool>, x: nat, acc: bv8)
    requires x < |selector| && x < 4 && acc as int == BitsValue(selector[..x])
    ensures (acc | ((if selector[x] then 1 else 0) << x)) as int == BitsValue(selector[..x + 1])
  {
    OrBit(acc, x, selector[x]);
    BitsValueAppend(selector[..x], selector[x]);
    assert selector[..x + 1] == selector[..x] + [selector[x]];
  }
}
