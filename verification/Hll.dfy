/** The dense HyperLogLog sketch (hllx): 16384 registers of 6 bits packed into 12288 bytes. */
module Hll {
  import opened Basics

  const REGISTERS := 16384
  const DENSE_SIZE := 12288

  type Blob = seq<bv8>
  type Hash = Bytes -> uint64

  // ---------------------------------------------------------------- six bits across a byte boundary

  /** The six bits that start at bit fb of the first byte. */
  function Unpack(b0: bv8, b1: bv8, fb: nat): bv8
    requires fb <= 8
  {
    ((((b0 as bv16) >> fb) | ((b1 as bv16) << (8 - fb))) & 0x3f) as bv8
  }

  /** The first byte after v is written at bit fb. */
  function Low(b: bv8, fb: nat, v: bv8): bv8
    requires fb <= 8
  {
    (b & !((0x3f as bv8) << fb)) | (v << fb)
  }

  /** The second byte after v is written at bit fb of the first. */
  function High(b: bv8, fb: nat, v: bv8): bv8
    requires fb <= 8
  {
    (b & !((0x3f as bv8) >> (8 - fb))) | (v >> (8 - fb))
  }

  predicate Phase(fb: nat) { fb == 0 || fb == 2 || fb == 4 || fb == 6 }

  lemma {:induction false} UnpackPacked(b0: bv8, b1: bv8, fb: nat, v: bv8)
    requires Phase(fb)
    ensures Unpack(Low(b0, fb, v & 0x3f), High(b1, fb, v & 0x3f), fb) == v & 0x3f
    ensures fb == 2 ==> Unpack(Low(b0, fb, v & 0x3f), 0, fb) == v & 0x3f
  {
    var w := v & 0x3f;
    if fb == 0 {
      assert Unpack(Low(b0, 0, w), High(b1, 0, w), 0) == w;
    } else if fb == 2 {
      assert Unpack(Low(b0, 2, w), High(b1, 2, w), 2) == w;
      assert Unpack(Low(b0, 2, w), 0, 2) == w;
    } else if fb == 4 {
      assert Unpack(Low(b0, 4, w), High(b1, 4, w), 4) == w;
    } else {
      assert Unpack(Low(b0, 6, w), High(b1, 6, w), 6) == w;
    }
  }

  /** Writing one register of a byte does not show in the other register that starts in it. */
  lemma {:induction false} SameByte(a: bv8, b: bv8, fi: nat, fj: nat, v: bv8)
    requires (fi == 0 && fj == 6) || (fi == 6 && fj == 0)
    ensures Unpack(Low(a, fi, v & 0x3f), High(b, fi, v & 0x3f), fj) == Unpack(a, b, fj)
  {
    var w := v & 0x3f;
    if fi == 0 {
      assert Unpack(Low(a, 0, w), High(b, 0, w), 6) == Unpack(a, b, 6);
    } else {
      assert Unpack(Low(a, 6, w), High(b, 6, w), 0) == Unpack(a, b, 0);
    }
  }

  /** The spill of a register into the next byte does not show in a register that starts there. */
  lemma {:induction false} NextByte(b: bv8, c: bv8, fi: nat, fj: nat, v: bv8)
    requires Phase(fi) && Phase(fj) && fi <= fj + 2
    ensures Unpack(High(b, fi, v & 0x3f), c, fj) == Unpack(b, c, fj)
  {
    var w := v & 0x3f;
    if fi == 0 {
      assert High(b, 0, w) == b;
    } else if fi == 2 {
      assert High(b, 2, w) == b;
    } else if fi == 4 {
      if fj == 2 {
        assert Unpack(High(b, 4, w), c, 2) == Unpack(b, c, 2);
      } else if fj == 4 {
        assert Unpack(High(b, 4, w), c, 4) == Unpack(b, c, 4);
      } else {
        assert Unpack(High(b, 4, w), c, 6) == Unpack(b, c, 6);
      }
    } else if fj == 4 {
      assert Unpack(High(b, 6, w), c, 4) == Unpack(b, c, 4);
    } else {
      assert Unpack(High(b, 6, w), c, 6) == Unpack(b, c, 6);
    }
  }

  /** A register that spills into a byte keeps its spill when another that starts in that byte is written. */
  lemma {:induction false} PreviousByte(a: bv8, b: bv8, fi: nat, fj: nat, v: bv8)
    requires Phase(fi) && Phase(fj) && fj <= fi + 2
    ensures Unpack(a, Low(b, fi, v & 0x3f), fj) == Unpack(a, b, fj)
  {
    var w := v & 0x3f;
    if fj == 0 {
      assert Unpack(a, Low(b, fi, w), 0) == Unpack(a, b, 0);
    } else if fj == 2 {
      assert Unpack(a, Low(b, fi, w), 2) == Unpack(a, b, 2);
    } else if fj == 4 {
      if fi == 2 {
        assert Unpack(a, Low(b, 2, w), 4) == Unpack(a, b, 4);
      } else if fi == 4 {
        assert Unpack(a, Low(b, 4, w), 4) == Unpack(a, b, 4);
      } else {
        assert Unpack(a, Low(b, 6, w), 4) == Unpack(a, b, 4);
      }
    } else if fi == 4 {
      assert Unpack(a, Low(b, 4, w), 6) == Unpack(a, b, 6);
    } else {
      assert Unpack(a, Low(b, 6, w), 6) == Unpack(a, b, 6);
    }
  }

  // ---------------------------------------------------------------- registers

  function Offset(i: nat): nat { i * 6 / 8 }

  function Bit(i: nat): nat { i * 6 % 8 }

  predicate InRange(regs: Blob, i: int) { 0 <= i < REGISTERS && |regs| == DENSE_SIZE }

  /** Four registers to three bytes; only the last register has no second byte. */
  lemma {:induction false} Layout(i: nat)
    requires i < REGISTERS
    ensures Offset(i) < DENSE_SIZE && Phase(Bit(i))
    ensures Offset(i) == i / 4 * 3 + (if i % 4 < 2 then 0 else i % 4 - 1)
    ensures Bit(i) == if i % 4 == 0 then 0 else 8 - 2 * (i % 4)
    ensures Offset(i) + 1 == DENSE_SIZE <==> i == REGISTERS - 1
  {
    var g, r := i / 4, i % 4;
    assert i * 6 == 24 * g + 6 * r;
  }

  /** GetReg. */
  function GetReg(regs: Blob, i: int): bv8
  {
    if !InRange(regs, i) then 0
    else
      Layout(i);
      var off := Offset(i);
      Unpack(regs[off], if off + 1 < |regs| then regs[off + 1] else 0, Bit(i))
  }

  /** The blob after SetReg. */
  function WithReg(regs: Blob, i: int, v: bv8): (r: Blob)
    ensures |r| == |regs|
  {
    if !InRange(regs, i) then regs
    else
      Layout(i);
      var off, fb, w := Offset(i), Bit(i), v & 0x3f;
      var first := regs[off := Low(regs[off], fb, w)];
      if off + 1 < |regs| then first[off + 1 := High(first[off + 1], fb, w)] else first
  }

  lemma {:induction false} SetOwn(regs: Blob, i: nat, v: bv8)
    requires InRange(regs, i)
    ensures GetReg(WithReg(regs, i, v), i) == v & 0x3f
  {
    Layout(i);
    var off := Offset(i);
    UnpackPacked(regs[off], if off + 1 < |regs| then regs[off + 1] else 0, Bit(i), v);
  }

  lemma {:induction false} Neighbours(i: nat, j: nat)
    requires i < REGISTERS && j < REGISTERS && i != j
    ensures Offset(i) == Offset(j) ==> (Bit(i) == 0 && Bit(j) == 6) || (Bit(i) == 6 && Bit(j) == 0)
    ensures Offset(j) == Offset(i) + 1 ==> Bit(i) <= Bit(j) + 2
  {
    Layout(i);
    Layout(j);
  }

  lemma {:induction false} SetOther(regs: Blob, i: nat, v: bv8, j: nat)
    requires InRange(regs, i) && InRange(regs, j) && i != j
    ensures GetReg(WithReg(regs, i, v), j) == GetReg(regs, j)
  {
    Layout(i);
    Layout(j);
    Neighbours(i, j);
    Neighbours(j, i);
    var oi, oj, fi, fj, w := Offset(i), Offset(j), Bit(i), Bit(j), v & 0x3f;
    var after := WithReg(regs, i, v);
    var next := if oj + 1 < |regs| then regs[oj + 1] else 0;
    if oi == oj {
      assert after[oj] == Low(regs[oj], fi, w) && (oj + 1 < |regs| ==> after[oj + 1] == High(regs[oj + 1], fi, w));
      SameByte(regs[oi], next, fi, fj, v);
    } else if oj == oi + 1 {
      assert after[oj] == High(regs[oj], fi, w) && (oj + 1 < |regs| ==> after[oj + 1] == regs[oj + 1]);
      NextByte(regs[oj], next, fi, fj, v);
    } else if oj + 1 == oi {
      assert after[oj] == regs[oj] && after[oj + 1] == Low(regs[oj + 1], fi, w);
      PreviousByte(regs[oj], regs[oi], fi, fj, v);
    } else {
      assert after[oj] == regs[oj] && (oj + 1 < |regs| ==> after[oj + 1] == regs[oj + 1]);
    }
  }

  /** SetReg changes register i to the low six bits of v and no other register; out of range it does nothing. */
  lemma {:induction false} SetRegIsAnUpdate(regs: Blob, i: int, v: bv8, j: int)
    ensures GetReg(WithReg(regs, i, v), j) == if InRange(regs, i) && j == i then v & 0x3f else GetReg(regs, j)
  {
    if InRange(regs, i) && InRange(regs, j) {
      if i == j {
        SetOwn(regs, i, v);
      } else {
        SetOther(regs, i, v, j);
      }
    }
  }

  method SetReg(regs: array<bv8>, i: int, v: bv8)
    modifies regs
    ensures regs[..] == WithReg(old(regs[..]), i, v)
  {
    if i < 0 || i >= REGISTERS || regs.Length != DENSE_SIZE {
      return;
    }
    var w := v & 0x3f;
    Layout(i);
    var off, fb := i * 6 / 8, i * 6 % 8;
    regs[off] := Low(regs[off], fb, w);
    if off + 1 < regs.Length {
      regs[off + 1] := High(regs[off + 1], fb, w);
    }
  }

  // ---------------------------------------------------------------- registers and bytes determine each other

  ghost predicate SameRegs(a: Blob, b: Blob)
  {
    forall i :: 0 <= i < REGISTERS ==> GetReg(a, i) == GetReg(b, i)
  }

  /** Three bytes, and the one after them, hold these four registers. */
  predicate Packs(a: bv8, b: bv8, c: bv8, d: bv8, r0: bv8, r1: bv8, r2: bv8, r3: bv8)
  {
    r0 == Unpack(a, b, 0) && r1 == Unpack(a, b, 6) && r2 == Unpack(b, c, 4) && r3 == Unpack(c, d, 2)
  }

  lemma {:induction false} ThreeBytes(a: bv8, b: bv8, c: bv8, d: bv8, r0: bv8, r1: bv8, r2: bv8, r3: bv8)
    requires Packs(a, b, c, d, r0, r1, r2, r3)
    ensures a == r0 | (r1 << 6) && b == (r1 >> 2) | (r2 << 4) && c == (r2 >> 4) | (r3 << 2)
  {
  }

  lemma {:induction false} GroupLayout(g: nat)
    ensures Offset(4 * g) == 3 * g && Bit(4 * g) == 0
    ensures Offset(4 * g + 1) == 3 * g && Bit(4 * g + 1) == 6
    ensures Offset(4 * g + 2) == 3 * g + 1 && Bit(4 * g + 2) == 4
    ensures Offset(4 * g + 3) == 3 * g + 2 && Bit(4 * g + 3) == 2
  {
  }

  lemma {:induction false} GroupOfRegisters(regs: Blob, g: nat)
    requires |regs| == DENSE_SIZE && g < 4096
    ensures Packs(regs[3 * g], regs[3 * g + 1], regs[3 * g + 2], if g < 4095 then regs[3 * g + 3] else 0,
                  GetReg(regs, 4 * g), GetReg(regs, 4 * g + 1), GetReg(regs, 4 * g + 2), GetReg(regs, 4 * g + 3))
  {
    GroupLayout(g);
  }

  lemma {:induction false} GroupDetermined(a: Blob, b: Blob, g: nat)
    requires |a| == |b| == DENSE_SIZE && g < 4096 && SameRegs(a, b)
    ensures a[3 * g] == b[3 * g] && a[3 * g + 1] == b[3 * g + 1] && a[3 * g + 2] == b[3 * g + 2]
  {
    assert GetReg(a, 4 * g) == GetReg(b, 4 * g) && GetReg(a, 4 * g + 1) == GetReg(b, 4 * g + 1);
    assert GetReg(a, 4 * g + 2) == GetReg(b, 4 * g + 2) && GetReg(a, 4 * g + 3) == GetReg(b, 4 * g + 3);
    GroupBytes(a, g);
    GroupBytes(b, g);
  }

  lemma {:induction false} GroupBytes(a: Blob, g: nat)
    requires |a| == DENSE_SIZE && g < 4096
    ensures a[3 * g] == GetReg(a, 4 * g) | (GetReg(a, 4 * g + 1) << 6)
    ensures a[3 * g + 1] == (GetReg(a, 4 * g + 1) >> 2) | (GetReg(a, 4 * g + 2) << 4)
    ensures a[3 * g + 2] == (GetReg(a, 4 * g + 2) >> 4) | (GetReg(a, 4 * g + 3) << 2)
  {
    GroupOfRegisters(a, g);
    ThreeBytes(a[3 * g], a[3 * g + 1], a[3 * g + 2], if g < 4095 then a[3 * g + 3] else 0,
               GetReg(a, 4 * g), GetReg(a, 4 * g + 1), GetReg(a, 4 * g + 2), GetReg(a, 4 * g + 3));
  }

  /** No bit is wasted: two blobs with the same registers are the same bytes. */
  lemma {:induction false} RegistersDetermineBytes(a: Blob, b: Blob)
    requires |a| == |b| == DENSE_SIZE && SameRegs(a, b)
    ensures a == b
  {
    forall k | 0 <= k < DENSE_SIZE
      ensures a[k] == b[k]
    {
      GroupDetermined(a, b, k / 3);
      assert k == 3 * (k / 3) || k == 3 * (k / 3) + 1 || k == 3 * (k / 3) + 2;
    }
  }

  // ---------------------------------------------------------------- rank of an item

  ghost function Pow2(n: nat): (p: nat)
    ensures p >= 1
  {
    if n == 0 then 1 else 2 * Pow2(n - 1)
  }

  /** bits.LeadingZeros64 of a word that is not zero. */
  function LeadingZeros(w: nat): (n: nat)
    requires 0 < w < 0x1_0000_0000_0000_0000
    ensures 0x8000_0000_0000_0000 <= w * Pow2(n) < 0x1_0000_0000_0000_0000
    decreases 0x1_0000_0000_0000_0000 - w
  {
    if w >= 0x8000_0000_0000_0000 then 0
    else
      assert w * Pow2(1 + LeadingZeros(2 * w)) == 2 * w * Pow2(LeadingZeros(2 * w));
      1 + LeadingZeros(2 * w)
  }

  const TWO_50: nat := 0x4_0000_0000_0000

  function Slot(x: uint64): (i: nat)
    ensures i < REGISTERS
  {
    x / TWO_50
  }

  /** The rank computed from a hash: a left shift that drops the slot bits, then the first set bit, capped at 63. */
  function Rank(x: uint64): nat
  {
    var w := x * 0x4000 % 0x1_0000_0000_0000_0000;
    var rho := if w == 0 then 51 else LeadingZeros(w) + 1;
    if rho > 63 then 63 else rho
  }

  lemma {:induction false} Pow2Add(m: nat, n: nat)
    ensures Pow2(m + n) == Pow2(m) * Pow2(n)
    decreases n
  {
    if n > 0 {
      Pow2Add(m, n - 1);
      assert Pow2(m) * Pow2(n) == 2 * (Pow2(m) * Pow2(n - 1));
    }
  }

  lemma {:induction false} Pow2Monotone(m: nat, n: nat)
    requires m < n
    ensures Pow2(m) < Pow2(n)
    decreases n
  {
    if m < n - 1 {
      Pow2Monotone(m, n - 1);
    }
  }

  lemma {:induction false} Pow2Below(n: nat, m: nat)
    requires Pow2(n) < Pow2(m)
    ensures n < m
  {
    if m < n {
      Pow2Monotone(m, n);
    }
  }

  lemma {:induction false} Pow2At50()
    ensures Pow2(50) == TWO_50
  {
    assert Pow2(10) == 1024;
    Pow2Add(10, 10);
    Pow2Add(20, 20);
    Pow2Add(40, 10);
  }

  /** The shift keeps exactly the low fifty bits. */
  lemma {:induction false} ShiftDropsSlot(x: uint64)
    ensures x * 0x4000 % 0x1_0000_0000_0000_0000 == (x % TWO_50) * 0x4000
  {
    var q, r := x / TWO_50, x % TWO_50;
    assert x * 0x4000 == q * 0x1_0000_0000_0000_0000 + r * 0x4000;
  }

  lemma {:induction false} TimesAtLeastOne(a: nat, b: nat)
    requires a >= 1
    ensures b <= a * b
  {
    assert a * b == (a - 1) * b + b;
  }

  lemma {:induction false} RankOfLow(low: nat)
    requires 0 < low < TWO_50
    ensures var n := LeadingZeros(low * 0x4000); n <= 49 && TWO_50 <= low * Pow2(n + 1) < 2 * TWO_50
  {
    var n := LeadingZeros(low * 0x4000);
    var p := low * Pow2(n);
    assert low * 0x4000 * Pow2(n) == 0x4000 * p;
    assert TWO_50 <= 2 * p < 2 * TWO_50;
    assert low * Pow2(n + 1) == 2 * p;
    TimesAtLeastOne(low, Pow2(n));
    Pow2At50();
    Pow2Below(n, 50);
  }

  /** The rank is the position of the first set bit among the low fifty, or 51 when none is set; the cap never fires. */
  lemma {:induction false} RankIsFirstSetBit(x: uint64)
    ensures 1 <= Rank(x) <= 51
    ensures x % TWO_50 == 0 <==> Rank(x) == 51
    ensures x % TWO_50 != 0 ==> TWO_50 <= (x % TWO_50) * Pow2(Rank(x)) < 2 * TWO_50
  {
    ShiftDropsSlot(x);
    if x % TWO_50 != 0 {
      RankOfLow(x % TWO_50);
    }
  }

  // ---------------------------------------------------------------- adding items

  /** A register as a number. */
  function Reg(regs: Blob, i: int): nat { GetReg(regs, i) as int }

  lemma {:induction false} ByteOrder(a: bv8, b: bv8)
    ensures a < b <==> (a as int) < (b as int)
  {
  }

  lemma {:induction false} SmallBits(b: bv8)
    requires b <= 63
    ensures b & 0x3f == b
  {
  }

  lemma {:induction false} SmallByte(n: nat)
    requires n <= 63
    ensures (n as bv8) & 0x3f == n as bv8 && (n as bv8) as int == n
  {
    var b := n as bv8;
    assert b <= 63;
    SmallBits(b);
  }

  /** A register is only ever raised. */
  function Raise(regs: Blob, i: int, v: bv8): (r: Blob)
    ensures |r| == |regs|
  {
    if v > GetReg(regs, i) then WithReg(regs, i, v) else regs
  }

  lemma {:induction false} RaiseTakesMax(regs: Blob, i: nat, v: bv8, j: nat)
    requires InRange(regs, i) && v & 0x3f == v
    ensures Reg(Raise(regs, i, v), j) == if j == i then Max(Reg(regs, i), v as int) else Reg(regs, j)
  {
    SetRegIsAnUpdate(regs, i, v, j);
    ByteOrder(GetReg(regs, i), v);
  }

  /** Add. */
  function AddItem(hash: Hash, regs: Blob, item: Bytes): (r: Blob)
    ensures |r| == |regs|
  {
    if |regs| != DENSE_SIZE || item == [] then regs
    else
      RankIsFirstSetBit(hash(item));
      Raise(regs, Slot(hash(item)), Rank(hash(item)) as bv8)
  }

  method Add(hash: Hash, regs: array<bv8>, item: Bytes)
    modifies regs
    ensures regs[..] == AddItem(hash, old(regs[..]), item)
  {
    if regs.Length != DENSE_SIZE || |item| == 0 {
      return;
    }
    var x := hash(item);
    RankIsFirstSetBit(x);
    var rho := Rank(x) as bv8;
    if rho > GetReg(regs[..], Slot(x)) {
      SetReg(regs, Slot(x), rho);
    }
  }

  /** Adding an item raises the register of its slot to its rank, and no other. */
  lemma {:induction false} AddRaises(hash: Hash, regs: Blob, item: Bytes, j: nat)
    requires |regs| == DENSE_SIZE && j < REGISTERS
    ensures Reg(AddItem(hash, regs, item), j) ==
            if item != [] && j == Slot(hash(item)) then Max(Reg(regs, j), Rank(hash(item))) else Reg(regs, j)
  {
    if item != [] {
      var x := hash(item);
      RankIsFirstSetBit(x);
      SmallByte(Rank(x));
      RaiseTakesMax(regs, Slot(x), Rank(x) as bv8, j);
    }
  }

  function AddAll(hash: Hash, regs: Blob, items: seq<Bytes>): (r: Blob)
    ensures |r| == |regs|
  {
    if items == [] then regs
    else AddItem(hash, AddAll(hash, regs, items[..|items| - 1]), items[|items| - 1])
  }

  /** The item is one the sketch counts and falls in register j. */
  predicate Lands(hash: Hash, item: Bytes, j: nat) { item != [] && Slot(hash(item)) == j }

  /** m is the greatest rank of the items that fall in register j, zero if there is none. */
  ghost predicate IsTop(hash: Hash, items: set<Bytes>, j: nat, m: nat)
  {
    && (forall x :: x in items && Lands(hash, x, j) ==> Rank(hash(x)) <= m)
    && (m > 0 ==> exists x :: x in items && Lands(hash, x, j) && Rank(hash(x)) == m)
  }

  lemma {:induction false} TopUnique(hash: Hash, items: set<Bytes>, j: nat, m: nat, n: nat)
    requires IsTop(hash, items, j, m) && IsTop(hash, items, j, n)
    ensures m == n
  {
  }

  /** The blob holds, register by register, the top rank of a set of items. */
  ghost predicate Sketches(hash: Hash, regs: Blob, items: set<Bytes>)
  {
    |regs| == DENSE_SIZE && forall j :: 0 <= j < REGISTERS ==> IsTop(hash, items, j, Reg(regs, j))
  }

  function Empty(): (r: Blob)
    ensures |r| == DENSE_SIZE
  {
    seq(DENSE_SIZE, _ => 0)
  }

  ghost function ItemsOf(items: seq<Bytes>): set<Bytes> { set x | x in items }

  lemma {:induction false} EmptySketches(hash: Hash)
    ensures Sketches(hash, Empty(), {})
  {
    forall j | 0 <= j < REGISTERS
      ensures Reg(Empty(), j) == 0
    {
      Layout(j);
      var fb := Bit(j);
      if fb == 0 {
        assert Unpack(0, 0, 0) == 0;
      } else if fb == 2 {
        assert Unpack(0, 0, 2) == 0;
      } else if fb == 4 {
        assert Unpack(0, 0, 4) == 0;
      } else {
        assert Unpack(0, 0, 6) == 0;
      }
      assert GetReg(Empty(), j) == 0;
    }
  }

  lemma {:induction false} TopWith(hash: Hash, items: set<Bytes>, item: Bytes, j: nat, m: nat)
    requires IsTop(hash, items, j, m)
    ensures IsTop(hash, items + {item}, j, if Lands(hash, item, j) then Max(m, Rank(hash(item))) else m)
  {
    var n := if Lands(hash, item, j) then Max(m, Rank(hash(item))) else m;
    if n > 0 && n == m {
      var x :| x in items && Lands(hash, x, j) && Rank(hash(x)) == m;
      assert x in items + {item};
    } else if n > 0 {
      assert item in items + {item};
    }
  }

  lemma {:induction false} AddKeepsSketch(hash: Hash, regs: Blob, items: set<Bytes>, item: Bytes)
    requires Sketches(hash, regs, items)
    ensures Sketches(hash, AddItem(hash, regs, item), items + {item})
  {
    forall j | 0 <= j < REGISTERS
      ensures IsTop(hash, items + {item}, j, Reg(AddItem(hash, regs, item), j))
    {
      AddRaises(hash, regs, item, j);
      TopWith(hash, items, item, j, Reg(regs, j));
    }
  }

  /** Whatever is added to an empty sketch, each register is the greatest rank of the items hashed to it. */
  lemma {:induction false} SketchOfItems(hash: Hash, items: seq<Bytes>)
    ensures Sketches(hash, AddAll(hash, Empty(), items), ItemsOf(items))
    decreases |items|
  {
    if items == [] {
      EmptySketches(hash);
      assert ItemsOf(items) == {};
    } else {
      var init, last := items[..|items| - 1], items[|items| - 1];
      SketchOfItems(hash, init);
      AddKeepsSketch(hash, AddAll(hash, Empty(), init), ItemsOf(init), last);
      assert items == init + [last];
      assert ItemsOf(items) == ItemsOf(init) + {last};
    }
  }

  /** A set of items has one sketch, byte for byte. */
  lemma {:induction false} SketchUnique(hash: Hash, a: Blob, b: Blob, items: set<Bytes>)
    requires Sketches(hash, a, items) && Sketches(hash, b, items)
    ensures a == b
  {
    forall j | 0 <= j < REGISTERS
      ensures GetReg(a, j) == GetReg(b, j)
    {
      TopUnique(hash, items, j, Reg(a, j), Reg(b, j));
      ByteOrder(GetReg(a, j), GetReg(b, j));
      ByteOrder(GetReg(b, j), GetReg(a, j));
    }
    RegistersDetermineBytes(a, b);
  }

  /** The order of the adds and their repeats leave no trace in the bytes. */
  lemma {:induction false} OrderAndRepeatsIrrelevant(hash: Hash, xs: seq<Bytes>, ys: seq<Bytes>)
    requires ItemsOf(xs) == ItemsOf(ys)
    ensures AddAll(hash, Empty(), xs) == AddAll(hash, Empty(), ys)
  {
    SketchOfItems(hash, xs);
    SketchOfItems(hash, ys);
    SketchUnique(hash, AddAll(hash, Empty(), xs), AddAll(hash, Empty(), ys), ItemsOf(xs));
  }

  // ---------------------------------------------------------------- merge

  /** dst after the first n registers of src have been merged in. */
  function MergeUpTo(dst: Blob, src: Blob, n: nat): (r: Blob)
    ensures |r| == |dst|
  {
    if n == 0 then dst else Raise(MergeUpTo(dst, src, n - 1), n - 1, GetReg(src, n - 1))
  }

  lemma {:induction false} MergeSelf(d: Blob, n: nat)
    ensures MergeUpTo(d, d, n) == d
    decreases n
  {
    if n > 0 {
      MergeSelf(d, n - 1);
    }
  }

  /** merge: the two slices may be the same. */
  method Merge(dst: array<bv8>, src: array<bv8>) returns (ok: bool)
    modifies dst
    ensures ok <==> dst.Length == DENSE_SIZE && src.Length == DENSE_SIZE
    ensures dst[..] == if ok then MergeUpTo(old(dst[..]), old(src[..]), REGISTERS) else old(dst[..])
  {
    if dst.Length != DENSE_SIZE || src.Length != DENSE_SIZE {
      return false;
    }
    ghost var d, s := dst[..], src[..];
    for i := 0 to REGISTERS
      invariant dst[..] == MergeUpTo(d, s, i)
      invariant src[..] == s
    {
      var a, b := GetReg(dst[..], i), GetReg(src[..], i);
      if src == dst {
        MergeSelf(s, i + 1);
      }
      if b > a {
        SetReg(dst, i, b);
      }
    }
    ok := true;
  }

  lemma {:induction false} SixBits(regs: Blob, i: int)
    ensures GetReg(regs, i) & 0x3f == GetReg(regs, i)
  {
    if InRange(regs, i) {
      Layout(i);
      var b1 := if Offset(i) + 1 < |regs| then regs[Offset(i) + 1] else 0;
      var x := ((regs[Offset(i)] as bv16) >> Bit(i)) | ((b1 as bv16) << (8 - Bit(i)));
      assert (x & 0x3f) & 0x3f == x & 0x3f;
    }
  }

  /** The blob holds these register values. */
  ghost predicate HasRegs(regs: Blob, vals: seq<nat>)
  {
    |regs| == DENSE_SIZE && |vals| == REGISTERS && forall j :: 0 <= j < REGISTERS ==> Reg(regs, j) == vals[j]
  }

  lemma {:induction false} RaiseValues(regs: Blob, vals: seq<nat>, i: nat, v: bv8)
    requires HasRegs(regs, vals) && i < REGISTERS && v & 0x3f == v
    ensures HasRegs(Raise(regs, i, v), vals[i := Max(vals[i], v as int)])
  {
    forall j | 0 <= j < REGISTERS
      ensures Reg(Raise(regs, i, v), j) == vals[i := Max(vals[i], v as int)][j]
    {
      RaiseTakesMax(regs, i, v, j);
    }
  }

  function MergedValues(d: seq<nat>, s: seq<nat>, n: nat): (m: seq<nat>)
    requires |d| == |s| && n <= |d|
    ensures |m| == |d| && forall j :: 0 <= j < |d| ==> m[j] == if j < n then Max(d[j], s[j]) else d[j]
  {
    if n == 0 then d
    else
      var m := MergedValues(d, s, n - 1);
      m[n - 1 := Max(m[n - 1], s[n - 1])]
  }

  lemma {:induction false} MergeOne(regs: Blob, vals: seq<nat>, src: Blob, s: seq<nat>, i: nat)
    requires HasRegs(regs, vals) && HasRegs(src, s) && i < REGISTERS
    ensures HasRegs(Raise(regs, i, GetReg(src, i)), vals[i := Max(vals[i], s[i])])
  {
    SixBits(src, i);
    assert Reg(src, i) == s[i];
    RaiseValues(regs, vals, i, GetReg(src, i));
  }

  lemma {:induction false} MergeValues(dst: Blob, d: seq<nat>, src: Blob, s: seq<nat>, n: nat)
    requires HasRegs(dst, d) && HasRegs(src, s) && n <= REGISTERS
    ensures HasRegs(MergeUpTo(dst, src, n), MergedValues(d, s, n))
    decreases n
  {
    if n > 0 {
      MergeValues(dst, d, src, s, n - 1);
      MergeOne(MergeUpTo(dst, src, n - 1), MergedValues(d, s, n - 1), src, s, n - 1);
    }
  }

  /** merge takes, register by register, the greater of the two. */
  lemma {:induction false} MergeTakesMax(dst: Blob, src: Blob, j: nat)
    requires |dst| == |src| == DENSE_SIZE && j < REGISTERS
    ensures Reg(MergeUpTo(dst, src, REGISTERS), j) == Max(Reg(dst, j), Reg(src, j))
  {
    var d: seq<nat> := seq(REGISTERS, i requires 0 <= i => Reg(dst, i));
    var s: seq<nat> := seq(REGISTERS, i requires 0 <= i => Reg(src, i));
    MergeValues(dst, d, src, s, REGISTERS);
    var m := MergedValues(d, s, REGISTERS);
    assert m[j] == Max(d[j], s[j]);
  }

  lemma {:induction false} TopOfUnion(hash: Hash, a: set<Bytes>, b: set<Bytes>, j: nat, m: nat, n: nat)
    requires IsTop(hash, a, j, m) && IsTop(hash, b, j, n)
    ensures IsTop(hash, a + b, j, Max(m, n))
  {
    if Max(m, n) > 0 {
      var x :| x in a + b && Lands(hash, x, j) && Rank(hash(x)) == Max(m, n);
    }
  }

  /** Merging the sketches of two streams gives, byte for byte, the sketch of both streams together. */
  lemma {:induction false} MergeIsUnion(hash: Hash, xs: seq<Bytes>, ys: seq<Bytes>)
    ensures MergeUpTo(AddAll(hash, Empty(), xs), AddAll(hash, Empty(), ys), REGISTERS) == AddAll(hash, Empty(), xs + ys)
  {
    var a, b := AddAll(hash, Empty(), xs), AddAll(hash, Empty(), ys);
    var m := MergeUpTo(a, b, REGISTERS);
    SketchOfItems(hash, xs);
    SketchOfItems(hash, ys);
    SketchOfItems(hash, xs + ys);
    assert ItemsOf(xs + ys) == ItemsOf(xs) + ItemsOf(ys);
    forall j | 0 <= j < REGISTERS
      ensures IsTop(hash, ItemsOf(xs) + ItemsOf(ys), j, Reg(m, j))
    {
      MergeTakesMax(a, b, j);
      TopOfUnion(hash, ItemsOf(xs), ItemsOf(ys), j, Reg(a, j), Reg(b, j));
    }
    SketchUnique(hash, m, AddAll(hash, Empty(), xs + ys), ItemsOf(xs + ys));
  }
}
