/** Base-128 variable-length integers: encoding/binary's PutUvarint and Uvarint. */
module Uvarint {
  import opened Basics

  function PutUvarint(x: nat): (b: Bytes)
    ensures 1 <= |b|
  {
    if x < 0x80 then [x] else [x % 0x80 + 0x80] + PutUvarint(x / 0x80)
  }

  datatype Read = Bad | Good(value: nat, width: nat)

  /** Decoding from the i-th byte on; a tenth byte above 1, or an eleventh byte, overflows. */
  function ReadFrom(b: Bytes, i: nat): (r: Read)
    ensures r.Good? ==> 1 <= r.width <= |b| && i + r.width <= 10
  {
    if b == [] || i >= 10 then Bad
    else if b[0] < 0x80 then
      if i == 9 && b[0] > 1 then Bad else Good(b[0], 1)
    else
      match ReadFrom(b[1..], i + 1)
      case Bad => Bad
      case Good(v, w) => Good(b[0] - 0x80 + 0x80 * v, w + 1)
  }

  /** The first value that no longer fits when decoding starts at byte i. */
  ghost function Cap(i: nat): nat
    requires i <= 9
    decreases 9 - i
  {
    if i == 9 then 2 else 0x80 * Cap(i + 1)
  }

  lemma {:induction false} CapIsTwoTo64()
    ensures Cap(0) == 0x1_0000_0000_0000_0000
  {
    assert Cap(8) == 0x100;
    assert Cap(7) == 0x8000;
    assert Cap(6) == 0x40_0000;
    assert Cap(5) == 0x2000_0000;
    assert Cap(4) == 0x10_0000_0000;
    assert Cap(3) == 0x800_0000_0000;
    assert Cap(2) == 0x4_0000_0000_0000;
    assert Cap(1) == 0x200_0000_0000_0000;
  }

  lemma {:induction false} ReadFromBelowCap(b: Bytes, i: nat)
    requires i <= 9
    ensures var r := ReadFrom(b, i); r.Good? ==> r.value < Cap(i)
    decreases 10 - i
  {
    if b != [] && b[0] >= 0x80 && i < 9 {
      ReadFromBelowCap(b[1..], i + 1);
    } else if b != [] && b[0] >= 0x80 {
      assert ReadFrom(b[1..], i + 1).Bad?;
    } else if i < 9 {
      CapPositive(i + 1);
    }
  }

  lemma {:induction false} CapPositive(i: nat)
    requires i <= 9
    ensures 2 <= Cap(i)
    decreases 9 - i
  {
    if i < 9 { CapPositive(i + 1); }
  }

  /** binary.Uvarint: what it accepts is a uint64 and takes at most ten bytes. */
  function GetUvarint(b: Bytes): (r: Read)
    ensures r.Good? ==> r.value <= MAX_UINT64 && 1 <= r.width <= |b| && r.width <= 10
  {
    ReadFromBelowCap(b, 0);
    CapIsTwoTo64();
    ReadFrom(b, 0)
  }

  lemma {:induction false} ReadFromPut(x: nat, rest: Bytes, i: nat)
    requires i <= 9 && x < Cap(i)
    ensures ReadFrom(PutUvarint(x) + rest, i) == Good(x, |PutUvarint(x)|)
    decreases x
  {
    var b := PutUvarint(x) + rest;
    if x >= 0x80 {
      assert b[1..] == PutUvarint(x / 0x80) + rest;
      assert i < 9;
      ReadFromPut(x / 0x80, rest, i + 1);
    }
  }

  /** Every uint64 survives the round trip, whatever bytes follow it. */
  lemma {:induction false} UvarintRoundTrip(x: uint64, rest: Bytes)
    ensures GetUvarint(PutUvarint(x) + rest) == Good(x, |PutUvarint(x)|)
    ensures (PutUvarint(x) + rest)[|PutUvarint(x)|..] == rest
    ensures |PutUvarint(x)| <= 10
  {
    CapIsTwoTo64();
    ReadFromPut(x, rest, 0);
  }

  lemma {:induction false} PutUvarintMonotone(x: nat, y: nat)
    requires x <= y
    ensures |PutUvarint(x)| <= |PutUvarint(y)|
    decreases y
  {
    if x >= 0x80 { PutUvarintMonotone(x / 0x80, y / 0x80); }
  }

  /** uvarintSize: the shift loop computes exactly the encoded width. */
  method UvarintSize(x: uint64) returns (n: int)
    ensures n == |PutUvarint(x)|
  {
    n := 1;
    var y: nat := x;
    while y >= 0x80
      invariant 1 <= n
      invariant n - 1 + |PutUvarint(y)| == |PutUvarint(x)|
    {
      y := y / 0x80;
      n := n + 1;
    }
  }
}
