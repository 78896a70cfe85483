/** The dense Count-Min sketch (cmsx): four rows of 2048 little-endian 64-bit cells in 65536 bytes. */
module Cms {
  import opened Basics
  import opened Uvarint

  const DEPTH := 4
  const WIDTH := 2048
  const DENSE_SIZE := 65536

  type Blob = seq<byte>
  type Hash = Bytes -> uint64

  // ---------------------------------------------------------------- little-endian words

  function ToLE(v: nat, n: nat): (b: Bytes)
    ensures |b| == n
  {
    if n == 0 then [] else [v % 0x100] + ToLE(v / 0x100, n - 1)
  }

  function FromLE(b: Bytes): nat
  {
    if b == [] then 0 else b[0] + 0x100 * FromLE(b[1..])
  }

  ghost function Cap(n: nat): (c: nat) { if n == 0 then 1 else 0x100 * Cap(n - 1) }

  lemma {:induction false} LERoundTrip(v: nat, n: nat)
    requires v < Cap(n)
    ensures FromLE(ToLE(v, n)) == v
    decreases n
  {
    if n > 0 {
      LERoundTrip(v / 0x100, n - 1);
    }
  }

  lemma {:induction false} LEBelowCap(b: Bytes)
    ensures FromLE(b) < Cap(|b|)
    decreases |b|
  {
    if b != [] {
      LEBelowCap(b[1..]);
    }
  }

  lemma {:induction false} EightBytes()
    ensures Cap(8) == 0x1_0000_0000_0000_0000
  {
    assert Cap(4) == 0x1_0000_0000;
  }

  // ---------------------------------------------------------------- cells

  /** cellOff. */
  function CellOff(row: nat, col: nat): nat { (row * WIDTH + col) * 8 }

  predicate IsCell(row: int, col: int) { 0 <= row < DEPTH && 0 <= col < WIDTH }

  function Cell(s: Blob, row: nat, col: nat): (v: uint64)
    requires |s| == DENSE_SIZE && IsCell(row, col)
  {
    var b := s[CellOff(row, col)..CellOff(row, col) + 8];
    LEBelowCap(b);
    EightBytes();
    FromLE(b)
  }

  /** binary.LittleEndian.PutUint64 at a cell. */
  function WithCell(s: Blob, row: nat, col: nat, v: uint64): (r: Blob)
    requires |s| == DENSE_SIZE && IsCell(row, col)
    ensures |r| == DENSE_SIZE
  {
    s[..CellOff(row, col)] + ToLE(v, 8) + s[CellOff(row, col) + 8..]
  }

  /** Cells do not share bytes, in one row or across rows. */
  lemma {:induction false} WriteIsAnUpdate(s: Blob, row: nat, col: nat, v: uint64, row': nat, col': nat)
    requires |s| == DENSE_SIZE && IsCell(row, col) && IsCell(row', col')
    ensures Cell(WithCell(s, row, col, v), row', col') == if row' == row && col' == col then v else Cell(s, row', col')
  {
    var o, o' := CellOff(row, col), CellOff(row', col');
    var r := WithCell(s, row, col, v);
    if row' == row && col' == col {
      assert r[o..o + 8] == ToLE(v, 8);
      EightBytes();
      LERoundTrip(v, 8);
    } else {
      assert o + 8 <= o' || o' + 8 <= o;
      SliceBeside(s, o, ToLE(v, 8), o');
    }
  }

  lemma {:induction false} SliceBeside(s: Blob, o: nat, w: Bytes, o': nat)
    requires |w| == 8 && o + 8 <= |s| && o' + 8 <= |s| && (o + 8 <= o' || o' + 8 <= o)
    ensures (s[..o] + w + s[o + 8..])[o'..o' + 8] == s[o'..o' + 8]
  {
    var r := s[..o] + w + s[o + 8..];
    assert |r| == |s|;
    var new8, old8 := r[o'..o' + 8], s[o'..o' + 8];
    forall k | 0 <= k < |new8|
      ensures new8[k] == old8[k]
    {
      if o' + 8 <= o {
        assert r[o' + k] == s[..o][o' + k];
      } else {
        assert r[o' + k] == s[o + 8..][o' + k - o - 8];
      }
    }
    assert new8 == old8;
  }

  // ---------------------------------------------------------------- columns

  function Delta(n: uint64): (d: uint64)
    ensures d == Max(n, 1)
  {
    if n == 0 then 1 else n
  }

  /** Bitwise or with one. */
  function Odd(h: nat): nat { if h % 2 == 0 then h + 1 else h }

  /** The column of a hash in one row. */
  function Column(x: uint64, row: nat): (c: nat)
    ensures c < WIDTH
  {
    (x / 0x1_0000_0000 + row * Odd(x % 0x1_0000_0000)) % WIDTH
  }

  /** The 64-bit sum in columns cannot wrap, so its low bits are those of the sum. */
  lemma {:induction false} ColumnSumFits(x: uint64, row: nat)
    requires row < DEPTH
    ensures x / 0x1_0000_0000 + row * Odd(x % 0x1_0000_0000) <= MAX_UINT64
  {
    assert row * Odd(x % 0x1_0000_0000) <= 4 * 0x1_0000_0000;
  }

  /** An odd number, taken one to three times, is no multiple of 2048. */
  lemma {:induction false} OddStep(h: nat, d: nat, q: int)
    requires h % 2 == 1 && 1 <= d <= 3
    ensures d * h != 2048 * q
  {
    var k := h / 2;
    assert h == 2 * k + 1;
    if d == 1 {
      assert 1 * h == 2 * k + 1;
    } else if d == 2 {
      assert 2 * h == 4 * k + 2;
    } else {
      assert 3 * h == 6 * k + 3;
    }
  }

  lemma {:induction false} StepBetween(a: int, h: int, i: int, j: int, p: int, q: int, c: int)
    requires a + i * h == 2048 * p + c && a + j * h == 2048 * q + c
    ensures (j - i) * h == 2048 * (q - p)
  {
    assert (j - i) * h == j * h - i * h;
  }

  lemma {:induction false} ColumnRest(x: uint64, row: nat) returns (q: int)
    ensures x / 0x1_0000_0000 + row * Odd(x % 0x1_0000_0000) == 2048 * q + Column(x, row)
  {
    q := (x / 0x1_0000_0000 + row * Odd(x % 0x1_0000_0000)) / WIDTH;
  }

  /** The step between rows is odd, so the four columns of an item are all different. */
  lemma {:induction false} ColumnsDiffer(x: uint64, i: nat, j: nat)
    requires i < j < DEPTH
    ensures Column(x, i) != Column(x, j)
  {
    var p := ColumnRest(x, i);
    var q := ColumnRest(x, j);
    if Column(x, i) == Column(x, j) {
      StepBetween(x / 0x1_0000_0000, Odd(x % 0x1_0000_0000), i, j, p, q, Column(x, i));
      OddStep(Odd(x % 0x1_0000_0000), j - i, q - p);
    }
  }

  /** One column for each row. */
  type Cols = c: seq<nat> | |c| == 4 && forall i :: 0 <= i < 4 ==> c[i] < 2048 witness [0, 0, 0, 0]

  /** columns. */
  function ColsOf(hash: Hash, item: Bytes): Cols
  {
    var x := hash(item);
    [Column(x, 0), Column(x, 1), Column(x, 2), Column(x, 3)]
  }

  // ---------------------------------------------------------------- Incr on values

  predicate Fits(s: Blob, cols: Cols, d: uint64, k: nat)
    requires |s| == DENSE_SIZE && k <= DEPTH
  {
    forall i :: 0 <= i < k ==> Cell(s, i, cols[i]) + d <= MAX_UINT64
  }

  /** In the first k rows the cell of the item is d higher in r than in s, and nothing else differs. */
  ghost predicate RaisedBy(s: Blob, cols: Cols, d: uint64, k: nat, r: Blob)
    requires |s| == DENSE_SIZE
  {
    && |r| == DENSE_SIZE
    && forall i, c :: IsCell(i, c) ==>
         Cell(r, i, c) == Cell(s, i, c) + if i < k && c == cols[i] then d else 0
  }

  /** One cell plus d, in 64-bit arithmetic. */
  function Bumped(s: Blob, row: nat, col: nat, d: uint64): (r: Blob)
    requires |s| == DENSE_SIZE && IsCell(row, col)
    ensures |r| == DENSE_SIZE
  {
    WithCell(s, row, col, (Cell(s, row, col) + d) % 0x1_0000_0000_0000_0000)
  }

  /** The sketch after the second loop of Incr has done its first k rows. */
  function Raised(s: Blob, cols: Cols, d: uint64, k: nat): (r: Blob)
    requires |s| == DENSE_SIZE && k <= DEPTH
    ensures |r| == DENSE_SIZE
  {
    if k == 0 then s else Bumped(Raised(s, cols, d, k - 1), k - 1, cols[k - 1], d)
  }

  lemma {:induction false} BumpedCell(s: Blob, row: nat, col: nat, d: uint64, i: nat, c: nat)
    requires |s| == DENSE_SIZE && IsCell(row, col) && IsCell(i, c) && Cell(s, row, col) + d <= MAX_UINT64
    ensures Cell(Bumped(s, row, col, d), i, c) == Cell(s, i, c) + if i == row && c == col then d else 0
  {
    var sum := Cell(s, row, col) + d;
    assert sum % 0x1_0000_0000_0000_0000 == sum;
    WriteIsAnUpdate(s, row, col, sum, i, c);
  }

  lemma {:induction false} RaisedAt(s: Blob, cols: Cols, d: uint64, k: nat, r: Blob, i: nat, c: nat)
    requires |s| == DENSE_SIZE && RaisedBy(s, cols, d, k, r) && IsCell(i, c)
    ensures Cell(r, i, c) == Cell(s, i, c) + if i < k && c == cols[i] then d else 0
  {
  }

  lemma {:induction false} FitsStep(s: Blob, cols: Cols, d: uint64, k: nat)
    requires |s| == DENSE_SIZE && k < DEPTH
    ensures Fits(s, cols, d, k + 1) <==> Fits(s, cols, d, k) && Cell(s, k, cols[k]) + d <= MAX_UINT64
    ensures Fits(s, cols, d, DEPTH) ==> Cell(s, k, cols[k]) + d <= MAX_UINT64
  {
  }

  lemma {:induction false} RaiseRow(s: Blob, cols: Cols, d: uint64, k: nat, r: Blob, i: nat, c: nat)
    requires |s| == DENSE_SIZE && k < DEPTH && RaisedBy(s, cols, d, k, r) && Fits(s, cols, d, DEPTH)
    requires IsCell(i, c)
    ensures Cell(Bumped(r, k, cols[k], d), i, c) ==
            Cell(s, i, c) + if i < k + 1 && c == cols[i] then d else 0
  {
    RaisedAt(s, cols, d, k, r, k, cols[k]);
    RaisedAt(s, cols, d, k, r, i, c);
    FitsStep(s, cols, d, k);
    BumpedCell(r, k, cols[k], d, i, c);
  }

  lemma {:induction false} RaisedCells(s: Blob, cols: Cols, d: uint64, k: nat)
    requires |s| == DENSE_SIZE && k <= DEPTH && Fits(s, cols, d, DEPTH)
    ensures RaisedBy(s, cols, d, k, Raised(s, cols, d, k))
    decreases k
  {
    if k > 0 {
      RaisedCells(s, cols, d, k - 1);
      forall i, c | IsCell(i, c) {
        RaiseRow(s, cols, d, k - 1, Raised(s, cols, d, k - 1), i, c);
      }
    }
  }

  datatype Outcome = Applied | ErrSize | ErrEmpty | ErrOverflow

  function Verdict(hash: Hash, s: Blob, item: Bytes, n: uint64): Outcome
  {
    if |s| != DENSE_SIZE then ErrSize
    else if item == [] then ErrEmpty
    else if !Fits(s, ColsOf(hash, item), Delta(n), DEPTH) then ErrOverflow
    else Applied
  }

  function AfterIncr(hash: Hash, s: Blob, item: Bytes, n: uint64): (r: Blob)
    ensures |r| == |s|
  {
    if Verdict(hash, s, item, n).Applied? then Raised(s, ColsOf(hash, item), Delta(n), DEPTH) else s
  }

  // ---------------------------------------------------------------- Incr and Query in place

  method ReadCell(s: array<byte>, row: nat, col: nat) returns (v: uint64)
    requires s.Length == DENSE_SIZE && IsCell(row, col)
    ensures v == Cell(s[..], row, col)
  {
    var off := CellOff(row, col);
    assert s[off..off + 8] == s[..][off..off + 8];
    v := Cell(s[..], row, col);
  }

  method WriteCell(s: array<byte>, row: nat, col: nat, v: uint64)
    requires s.Length == DENSE_SIZE && IsCell(row, col)
    modifies s
    ensures s[..] == WithCell(old(s[..]), row, col, v)
  {
    var off := CellOff(row, col);
    var w := ToLE(v, 8);
    forall k | 0 <= k < 8 {
      s[off + k] := w[k];
    }
  }

  method BumpCell(s: array<byte>, row: nat, col: nat, d: uint64)
    requires s.Length == DENSE_SIZE && IsCell(row, col)
    modifies s
    ensures s[..] == Bumped(old(s[..]), row, col, d)
  {
    ghost var cells := s[..];
    var v := ReadCell(s, row, col);
    var sum: uint64 := (v + d) % 0x1_0000_0000_0000_0000;
    WriteCell(s, row, col, sum);
    assert v == Cell(cells, row, col);
  }

  method Columns(hash: Hash, item: Bytes) returns (cols: seq<nat>)
    ensures cols == ColsOf(hash, item)
  {
    var x := hash(item);
    var h1, h2 := x / 0x1_0000_0000, Odd(x % 0x1_0000_0000);
    cols := [];
    for i := 0 to DEPTH
      invariant |cols| == i && forall k :: 0 <= k < i ==> cols[k] == Column(x, k)
    {
      cols := cols + [(h1 + i * h2) % WIDTH];
    }
  }

  /** The first loop of Incr. */
  method CheckRows(sketch: array<byte>, cols: Cols, d: uint64) returns (ok: bool)
    requires sketch.Length == DENSE_SIZE
    ensures ok == Fits(sketch[..], cols, d, DEPTH)
  {
    ghost var s := sketch[..];
    for i := 0 to DEPTH
      invariant Fits(s, cols, d, i)
    {
      var v := ReadCell(sketch, i, cols[i]);
      FitsStep(s, cols, d, i);
      if v > MAX_UINT64 - d {
        return false;
      }
    }
    ok := true;
  }

  /** The second loop of Incr. */
  method RaiseRows(sketch: array<byte>, cols: Cols, d: uint64)
    requires sketch.Length == DENSE_SIZE
    modifies sketch
    ensures sketch[..] == Raised(old(sketch[..]), cols, d, DEPTH)
  {
    ghost var s := sketch[..];
    for i := 0 to DEPTH
      invariant sketch[..] == Raised(s, cols, d, i)
    {
      BumpCell(sketch, i, cols[i], d);
    }
  }

  /** Incr: every row is checked before any is written. */
  method Incr(hash: Hash, sketch: array<byte>, item: Bytes, n: uint64) returns (r: Outcome)
    modifies sketch
    ensures r == Verdict(hash, old(sketch[..]), item, n)
    ensures sketch[..] == AfterIncr(hash, old(sketch[..]), item, n)
  {
    if sketch.Length != DENSE_SIZE {
      return ErrSize;
    }
    if |item| == 0 {
      return ErrEmpty;
    }
    var d := Delta(n);
    var cols := Columns(hash, item);
    var fits := CheckRows(sketch, cols, d);
    if !fits {
      return ErrOverflow;
    }
    RaiseRows(sketch, cols, d);
    r := Applied;
  }

  ghost predicate IsMin(s: Blob, cols: Cols, q: uint64)
    requires |s| == DENSE_SIZE
  {
    && (forall i :: 0 <= i < DEPTH ==> q <= Cell(s, i, cols[i]))
    && (exists i :: 0 <= i < DEPTH && q == Cell(s, i, cols[i]))
  }

  method Query(hash: Hash, sketch: array<byte>, item: Bytes) returns (q: uint64)
    ensures sketch.Length != DENSE_SIZE || item == [] ==> q == 0
    ensures sketch.Length == DENSE_SIZE && item != [] ==> IsMin(sketch[..], ColsOf(hash, item), q)
  {
    if sketch.Length != DENSE_SIZE || |item| == 0 {
      return 0;
    }
    var cols: Cols := Columns(hash, item);
    q := MAX_UINT64;
    for i := 0 to DEPTH
      invariant forall k :: 0 <= k < i ==> q <= Cell(sketch[..], k, cols[k])
      invariant q == MAX_UINT64 || exists k :: 0 <= k < i && q == Cell(sketch[..], k, cols[k])
    {
      var v := ReadCell(sketch, i, cols[i]);
      if v < q {
        q := v;
      }
    }
    assert q == MAX_UINT64 ==> q == Cell(sketch[..], 0, cols[0]);
  }

  // ---------------------------------------------------------------- what a run of increments leaves

  datatype Inc = Inc(item: Bytes, n: uint64)

  function Empty(): (s: Blob)
    ensures |s| == DENSE_SIZE
  {
    seq(DENSE_SIZE, _ => 0)
  }

  /** The sketch after a list of increments, each of which may be refused. */
  function After(hash: Hash, incs: seq<Inc>): (s: Blob)
    ensures |s| == DENSE_SIZE
  {
    if incs == [] then Empty()
    else AfterIncr(hash, After(hash, incs[..|incs| - 1]), incs[|incs| - 1].item, incs[|incs| - 1].n)
  }

  predicate LastAccepted(hash: Hash, incs: seq<Inc>)
    requires incs != []
  {
    Verdict(hash, After(hash, incs[..|incs| - 1]), incs[|incs| - 1].item, incs[|incs| - 1].n).Applied?
  }

  /** The increments that were not refused. */
  function Accepted(hash: Hash, incs: seq<Inc>): seq<Inc>
  {
    if incs == [] then []
    else
      var before := Accepted(hash, incs[..|incs| - 1]);
      if LastAccepted(hash, incs) then before + [incs[|incs| - 1]] else before
  }

  /** The sum of the accepted amounts of a kind of item. */
  ghost function Sum(incs: seq<Inc>, counts: Bytes -> bool): (t: nat)
  {
    if incs == [] then 0
    else
      var last := incs[|incs| - 1];
      Sum(incs[..|incs| - 1], counts) + if counts(last.item) then Delta(last.n) else 0
  }

  ghost function InColumn(hash: Hash, row: nat, col: nat): Bytes -> bool
    requires row < DEPTH
  {
    item => ColsOf(hash, item)[row] == col
  }

  ghost function Is(item: Bytes): Bytes -> bool { other => other == item }

  ghost function Any(): Bytes -> bool { _ => true }

  lemma {:induction false} SumSnoc(incs: seq<Inc>, last: Inc, counts: Bytes -> bool)
    ensures Sum(incs + [last], counts) == Sum(incs, counts) + if counts(last.item) then Delta(last.n) else 0
  {
    assert (incs + [last])[..|incs|] == incs;
  }

  lemma {:induction false} SumMonotone(incs: seq<Inc>, few: Bytes -> bool, many: Bytes -> bool)
    requires forall inc :: inc in incs && few(inc.item) ==> many(inc.item)
    ensures Sum(incs, few) <= Sum(incs, many)
    decreases |incs|
  {
    if incs != [] {
      assert incs[|incs| - 1] in incs;
      SumMonotone(incs[..|incs| - 1], few, many);
    }
  }

  lemma {:induction false} ZerosRead(n: nat, b: Bytes)
    requires |b| == n && forall k :: 0 <= k < n ==> b[k] == 0
    ensures FromLE(b) == 0
    decreases n
  {
    if n > 0 {
      ZerosRead(n - 1, b[1..]);
    }
  }

  lemma {:induction false} EmptyCell(row: nat, col: nat)
    requires IsCell(row, col)
    ensures Cell(Empty(), row, col) == 0
  {
    ZerosRead(8, Empty()[CellOff(row, col)..CellOff(row, col) + 8]);
  }

  lemma {:induction false} RaisedCell(s: Blob, cols: Cols, d: uint64, row: nat, col: nat)
    requires |s| == DENSE_SIZE && Fits(s, cols, d, DEPTH) && IsCell(row, col)
    ensures Cell(Raised(s, cols, d, DEPTH), row, col) == Cell(s, row, col) + if cols[row] == col then d else 0
  {
    RaisedCells(s, cols, d, DEPTH);
  }

  /** Every cell is the sum of the accepted increments whose item falls in it. */
  lemma {:induction false} CellIsSum(hash: Hash, incs: seq<Inc>, row: nat, col: nat)
    requires IsCell(row, col)
    ensures Cell(After(hash, incs), row, col) == Sum(Accepted(hash, incs), InColumn(hash, row, col))
    decreases |incs|
  {
    if incs == [] {
      EmptyCell(row, col);
    } else {
      CellIsSum(hash, incs[..|incs| - 1], row, col);
      LastCell(hash, incs, row, col);
      LastSum(hash, incs, row, col);
    }
  }

  /** What the last increment adds to a cell. */
  ghost function Added(hash: Hash, incs: seq<Inc>, row: nat, col: nat): nat
    requires incs != [] && row < DEPTH
  {
    var last := incs[|incs| - 1];
    if LastAccepted(hash, incs) && ColsOf(hash, last.item)[row] == col then Delta(last.n) else 0
  }

  lemma {:induction false} LastCell(hash: Hash, incs: seq<Inc>, row: nat, col: nat)
    requires incs != [] && IsCell(row, col)
    ensures Cell(After(hash, incs), row, col) == Cell(After(hash, incs[..|incs| - 1]), row, col) + Added(hash, incs, row, col)
  {
    var last := incs[|incs| - 1];
    if LastAccepted(hash, incs) {
      RaisedCell(After(hash, incs[..|incs| - 1]), ColsOf(hash, last.item), Delta(last.n), row, col);
    }
  }

  lemma {:induction false} LastSum(hash: Hash, incs: seq<Inc>, row: nat, col: nat)
    requires incs != [] && row < DEPTH
    ensures var f := InColumn(hash, row, col);
            Sum(Accepted(hash, incs), f) == Sum(Accepted(hash, incs[..|incs| - 1]), f) + Added(hash, incs, row, col)
  {
    SumSnoc(Accepted(hash, incs[..|incs| - 1]), incs[|incs| - 1], InColumn(hash, row, col));
  }

  ghost function RowSum(s: Blob, row: nat, k: nat): (t: nat)
    requires |s| == DENSE_SIZE && row < DEPTH && k <= WIDTH
  {
    if k == 0 then 0 else RowSum(s, row, k - 1) + Cell(s, row, k - 1)
  }

  lemma {:induction false} RowSumRaised(s: Blob, cols: Cols, d: uint64, r: Blob, row: nat, k: nat)
    requires |s| == DENSE_SIZE && RaisedBy(s, cols, d, DEPTH, r) && row < DEPTH && k <= WIDTH
    ensures RowSum(r, row, k) == RowSum(s, row, k) + if cols[row] < k then d else 0
    decreases k
  {
    if k > 0 {
      RowSumRaised(s, cols, d, r, row, k - 1);
      assert IsCell(row, k - 1);
    }
  }

  lemma {:induction false} RowSumEmpty(row: nat, k: nat)
    requires row < DEPTH && k <= WIDTH
    ensures RowSum(Empty(), row, k) == 0
    decreases k
  {
    if k > 0 {
      RowSumEmpty(row, k - 1);
      ZerosRead(8, Empty()[CellOff(row, k - 1)..CellOff(row, k - 1) + 8]);
    }
  }

  /** Each of the four rows sums to the total of the accepted increments. */
  lemma {:induction false} RowsConserveTotal(hash: Hash, incs: seq<Inc>, row: nat)
    requires row < DEPTH
    ensures RowSum(After(hash, incs), row, WIDTH) == Sum(Accepted(hash, incs), Any())
    decreases |incs|
  {
    if incs == [] {
      RowSumEmpty(row, WIDTH);
    } else {
      var init, last := incs[..|incs| - 1], incs[|incs| - 1];
      RowsConserveTotal(hash, init, row);
      SumSnoc(Accepted(hash, init), last, Any());
      if LastAccepted(hash, incs) {
        RaisedCells(After(hash, init), ColsOf(hash, last.item), Delta(last.n), DEPTH);
        RowSumRaised(After(hash, init), ColsOf(hash, last.item), Delta(last.n), After(hash, incs), row, WIDTH);
      }
    }
  }

  /** Query lies between the true total of the item and the total of all items. */
  lemma {:induction false} QueryBounds(hash: Hash, incs: seq<Inc>, item: Bytes, q: uint64)
    requires IsMin(After(hash, incs), ColsOf(hash, item), q)
    ensures Sum(Accepted(hash, incs), Is(item)) <= q <= Sum(Accepted(hash, incs), Any())
  {
    var acc := Accepted(hash, incs);
    var i :| 0 <= i < DEPTH && q == Cell(After(hash, incs), i, ColsOf(hash, item)[i]);
    var col := ColsOf(hash, item)[i];
    assert IsCell(i, col);
    CellIsSum(hash, incs, i, col);
    SumMonotone(acc, Is(item), InColumn(hash, i, col));
    SumMonotone(acc, InColumn(hash, i, col), Any());
  }

  /** One row in which no other accepted item shares the cell makes Query exact. */
  lemma {:induction false} QueryExact(hash: Hash, incs: seq<Inc>, item: Bytes, q: uint64, i: nat)
    requires IsMin(After(hash, incs), ColsOf(hash, item), q) && i < DEPTH
    requires forall inc :: inc in Accepted(hash, incs) && ColsOf(hash, inc.item)[i] == ColsOf(hash, item)[i] ==>
                             inc.item == item
    ensures q == Sum(Accepted(hash, incs), Is(item))
  {
    var acc := Accepted(hash, incs);
    var col := ColsOf(hash, item)[i];
    assert IsCell(i, col);
    QueryBounds(hash, incs, item, q);
    CellIsSum(hash, incs, i, col);
    SumMonotone(acc, InColumn(hash, i, col), Is(item));
  }

  /** An increment is refused exactly when it would carry some cell of its item past the largest 64-bit number. */
  lemma {:induction false} RefusedIff(hash: Hash, incs: seq<Inc>, inc: Inc)
    requires inc.item != []
    ensures Accepted(hash, incs + [inc]) == Accepted(hash, incs) <==>
            exists i :: 0 <= i < DEPTH &&
              Sum(Accepted(hash, incs), InColumn(hash, i, ColsOf(hash, inc.item)[i])) + Delta(inc.n) > MAX_UINT64
    ensures Accepted(hash, incs + [inc]) == Accepted(hash, incs) ==> After(hash, incs + [inc]) == After(hash, incs)
  {
    var s := After(hash, incs);
    assert (incs + [inc])[..|incs|] == incs;
    forall i | 0 <= i < DEPTH
      ensures Cell(s, i, ColsOf(hash, inc.item)[i]) ==
              Sum(Accepted(hash, incs), InColumn(hash, i, ColsOf(hash, inc.item)[i]))
    {
      assert IsCell(i, ColsOf(hash, inc.item)[i]);
      CellIsSum(hash, incs, i, ColsOf(hash, inc.item)[i]);
    }
    assert LastAccepted(hash, incs + [inc]) <==> Fits(s, ColsOf(hash, inc.item), Delta(inc.n), DEPTH);
    assert LastAccepted(hash, incs + [inc]) ==> |Accepted(hash, incs + [inc])| == |Accepted(hash, incs)| + 1;
  }

  // ---------------------------------------------------------------- the inbox payload

  datatype Inbox = Item(n: uint64, item: Bytes) | BadInbox | EmptyItem

  function EncodeInbox(n: uint64, item: Bytes): Option<Bytes>
  {
    if item == [] then None else Some(PutUvarint(Delta(n)) + item)
  }

  function DecodeInbox(b: Bytes): Inbox
  {
    var r := GetUvarint(b);
    if r.Bad? then BadInbox
    else if b[r.width..] == [] then EmptyItem
    else Item(r.value, b[r.width..])
  }

  /** Decoding a payload gives the amount that Incr will add, so an encoded zero comes back as one. */
  lemma {:induction false} InboxRoundTrip(n: uint64, item: Bytes)
    ensures EncodeInbox(n, item).None? <==> item == []
    ensures EncodeInbox(n, item).Some? ==> DecodeInbox(EncodeInbox(n, item).value) == Item(Delta(n), item)
  {
    if item != [] {
      UvarintRoundTrip(Delta(n), item);
      assert (PutUvarint(Delta(n)) + item)[|PutUvarint(Delta(n))|..] == item;
    }
  }
}
