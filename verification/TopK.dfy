/**
 * pkg/topkx: the Space-Saving table as slots plus index, its chart order and wire
 * format, and the store's decode-add-encode pipeline (topkApply in pkg/store/topk.go).
 */
module TopK {
  import opened Basics
  import opened Ordering
  import opened Uvarint
  import opened SpaceSaving

  /** topkx.Entry: one chart row. */
  datatype Row = Row(item: Term, count: uint64)

  /** Count descending, then item bytes. */
  predicate RowLess(a: Row, b: Row)
  {
    a.count > b.count || (a.count == b.count && BytesLess(a.item.bytes, b.item.bytes))
  }

  lemma {:induction false} RowLessStrictOrder()
    ensures StrictOrder(RowLess)
  {
    forall a: Row, b: Row
      ensures a != b ==> RowLess(a, b) || RowLess(b, a)
      ensures !(RowLess(a, b) && RowLess(b, a))
    {
      BytesLessTotal(a.item.bytes, b.item.bytes);
    }
    forall a: Row, b: Row, c: Row | RowLess(a, b) && RowLess(b, c) ensures RowLess(a, c) {
      if a.count == b.count == c.count {
        BytesLessTrans(a.item.bytes, b.item.bytes, c.item.bytes);
      }
    }
  }

  ghost function RowSet(m: Counts): set<Row> { set x | x in m :: Row(x, m[x]) }

  /** The canonical chart of a count map. */
  ghost function Chart(m: Counts): (rows: seq<Row>)
    ensures Lists(rows, RowSet(m))
  {
    Canonical(RowLess, RowSet(m))
  }

  // ---------------------------------------------------------------- wire format

  function EncodeRow(r: Row): Bytes
  {
    PutUvarint(r.count) + PutUvarint(|r.item.bytes|) + r.item.bytes
  }

  function EncodeRows(rows: seq<Row>): Bytes
  {
    if rows == [] then [] else EncodeRow(rows[0]) + EncodeRows(rows[1..])
  }

  /** Table.Encode, on the abstract map. */
  ghost function Encode(m: Counts): Bytes { EncodeRows(Chart(m)) }

  datatype Chunk = Corrupt | Next(row: Row, rest: Bytes)

  /** One row off the front; a zero count, an empty item or a short buffer is corrupt. */
  function ConsumeRow(b: Bytes): (r: Chunk)
    ensures r.Next? ==> |r.rest| < |b| && 1 <= r.row.count && r.row.item.bytes != []
  {
    match GetUvarint(b)
    case Bad => Corrupt
    case Good(count, n) =>
      var b1 := b[n..];
      if count == 0 then Corrupt
      else
        match GetUvarint(b1)
        case Bad => Corrupt
        case Good(ln, n1) =>
          var b2 := b1[n1..];
          if ln == 0 || |b2| < ln then Corrupt else Next(Row(Term(b2[..ln]), count), b2[ln..])
  }

  predicate Stored(rows: seq<Row>, item: Term)
  {
    exists i :: 0 <= i < |rows| && rows[i].item == item
  }

  /** Decode's loop: rows accumulate until the blob is used up, duplicated or over capacity. */
  function DecodeInto(b: Bytes, k: nat, rows: seq<Row>): (r: Option<seq<Row>>)
    decreases |b|
  {
    if b == [] then Some(rows)
    else
      match ConsumeRow(b)
      case Corrupt => None
      case Next(row, rest) =>
        if Stored(rows, row.item) || |rows| >= k then None
        else DecodeInto(rest, k, rows + [row])
  }

  /** Slots a table of capacity k can have: distinct items, positive counts. */
  ghost predicate TableRows(rows: seq<Row>, k: nat)
  {
    && |rows| <= k
    && (forall i, j :: 0 <= i < j < |rows| ==> rows[i].item != rows[j].item)
    && (forall i :: 0 <= i < |rows| ==> rows[i].item.bytes != [] && 1 <= rows[i].count)
  }

  /** The count map a slot list stands for. */
  ghost function CountsOf(rows: seq<Row>): (m: Counts)
  {
    if rows == [] then map[]
    else
      var n := |rows| - 1;
      CountsOf(rows[..n])[rows[n].item := rows[n].count]
  }

  lemma {:induction false} CountsOfAt(rows: seq<Row>, k: nat, i: nat)
    requires TableRows(rows, k) && i < |rows|
    ensures rows[i].item in CountsOf(rows) && CountsOf(rows)[rows[i].item] == rows[i].count
    decreases |rows|
  {
    if i < |rows| - 1 { CountsOfAt(rows[..|rows| - 1], k, i); }
  }

  lemma {:induction false} CountsOfStored(rows: seq<Row>, x: Term)
    requires x in CountsOf(rows)
    ensures Stored(rows, x)
    decreases |rows|
  {
    var n := |rows| - 1;
    if x != rows[n].item {
      CountsOfStored(rows[..n], x);
      var i :| 0 <= i < n && rows[..n][i].item == x;
      assert rows[i].item == x;
    }
  }

  lemma {:induction false} CountsOfSize(rows: seq<Row>, k: nat)
    requires TableRows(rows, k)
    ensures |CountsOf(rows)| == |rows|
    decreases |rows|
  {
    if rows != [] {
      var n := |rows| - 1;
      CountsOfSize(rows[..n], k);
      if rows[n].item in CountsOf(rows[..n]) {
        CountsOfStored(rows[..n], rows[n].item);
        assert false;
      }
      assert CountsOf(rows).Keys == CountsOf(rows[..n]).Keys + {rows[n].item};
    }
  }

  /** The rows of a map are table slots, and stand for that map again. */
  lemma {:induction false} RowsOfMap(rows: seq<Row>, m: Counts, k: nat)
    requires Lists(rows, RowSet(m)) && |m| <= k
    requires forall x :: x in m ==> x.bytes != [] && 1 <= m[x]
    ensures TableRows(rows, k) && CountsOf(rows) == m
  {
    forall i | 0 <= i < |rows| ensures rows[i].item in m && rows[i].count == m[rows[i].item] {
      assert rows[i] in RowSet(m);
    }
    forall i, j | 0 <= i < j < |rows| ensures rows[i].item != rows[j].item {
      assert rows[i] != rows[j];
    }
    assert TableRows(rows, |rows|);
    CountsOfSize(rows, |rows|);
    forall x ensures x in CountsOf(rows) <==> x in m {
      if x in CountsOf(rows) { CountsOfStored(rows, x); }
      if x in m {
        assert Row(x, m[x]) in RowSet(m);
        var i :| 0 <= i < |rows| && rows[i] == Row(x, m[x]);
        CountsOfAt(rows, |rows|, i);
      }
    }
    forall x | x in m ensures CountsOf(rows)[x] == m[x] {
      assert Row(x, m[x]) in RowSet(m);
      var i :| 0 <= i < |rows| && rows[i] == Row(x, m[x]);
      CountsOfAt(rows, |rows|, i);
    }
    assert CountsOf(rows).Keys == m.Keys;
  }

  /** The slots of a table are the rows of the map they stand for. */
  lemma {:induction false} RowsOfTable(rows: seq<Row>, k: nat)
    requires TableRows(rows, k)
    ensures Lists(rows, RowSet(CountsOf(rows)))
    ensures |CountsOf(rows)| <= k
    ensures forall x :: x in CountsOf(rows) ==> x.bytes != [] && 1 <= CountsOf(rows)[x]
  {
    var m := CountsOf(rows);
    CountsOfSize(rows, k);
    forall i | 0 <= i < |rows| ensures rows[i] in RowSet(m) {
      CountsOfAt(rows, k, i);
      assert rows[i] == Row(rows[i].item, m[rows[i].item]);
    }
    forall x | x in m ensures Row(x, m[x]) in rows && x.bytes != [] && 1 <= m[x] {
      CountsOfStored(rows, x);
      var i :| 0 <= i < |rows| && rows[i].item == x;
      CountsOfAt(rows, k, i);
      assert rows[i] == Row(x, m[x]);
    }
    forall r | r in RowSet(m) ensures r in rows {
      assert Row(r.item, m[r.item]) in rows;
    }
  }

  // ---------------------------------------------------------------- round trip

  ghost predicate SizedRow(r: Row) { |r.item.bytes| <= MAX_UINT64 }

  lemma {:induction false} ConsumeRowInverts(r: Row, rest: Bytes)
    requires 1 <= r.count && r.item.bytes != [] && SizedRow(r)
    ensures ConsumeRow(EncodeRow(r) + rest) == Next(r, rest)
  {
    var item := r.item.bytes;
    var b1 := PutUvarint(|item|) + (item + rest);
    assert EncodeRow(r) + rest == PutUvarint(r.count) + b1;
    UvarintRoundTrip(r.count, b1);
    UvarintRoundTrip(|item|, item + rest);
    assert (item + rest)[..|item|] == item && (item + rest)[|item|..] == rest;
  }

  lemma {:induction false} DecodeRows(done: seq<Row>, rows: seq<Row>, k: nat)
    requires TableRows(done + rows, k)
    requires forall i :: 0 <= i < |rows| ==> SizedRow(rows[i])
    ensures DecodeInto(EncodeRows(rows), k, done) == Some(done + rows)
    decreases |rows|
  {
    if rows == [] {
      assert done + rows == done;
    } else {
      var all := done + rows;
      assert all[|done|] == rows[0];
      ConsumeRowInverts(rows[0], EncodeRows(rows[1..]));
      forall i | 0 <= i < |done| ensures done[i].item != rows[0].item {
        assert all[i] == done[i];
      }
      assert done + [rows[0]] + rows[1..] == all;
      DecodeRows(done + [rows[0]], rows[1..], k);
    }
  }

  /** Decode inverts Encode, up to slot order, for every table that fits. */
  lemma {:induction false} TableRoundTrip(m: Counts, k: nat)
    requires |m| <= k
    requires forall x :: x in m ==> x.bytes != [] && 1 <= m[x] && |x.bytes| <= MAX_UINT64
    ensures DecodeInto(Encode(m), k, []) == Some(Chart(m))
    ensures TableRows(Chart(m), k) && CountsOf(Chart(m)) == m
  {
    RowsOfMap(Chart(m), m, k);
    ChartSized(m);
    DecodeTable(Chart(m), k);
  }

  lemma {:induction false} ChartSized(m: Counts)
    requires forall x :: x in m ==> |x.bytes| <= MAX_UINT64
    ensures forall i :: 0 <= i < |Chart(m)| ==> SizedRow(Chart(m)[i])
  {
    var rows := Chart(m);
    forall i | 0 <= i < |rows| ensures SizedRow(rows[i]) {
      assert rows[i] in RowSet(m);
    }
  }

  lemma {:induction false} DecodeTable(rows: seq<Row>, k: nat)
    requires TableRows(rows, k) && forall i :: 0 <= i < |rows| ==> SizedRow(rows[i])
    ensures DecodeInto(EncodeRows(rows), k, []) == Some(rows)
  {
    assert [] + rows == rows;
    DecodeRows([], rows, k);
  }

  // ---------------------------------------------------------------- size bound

  /** WorstEncodedSize. */
  function WorstSize(k: int, maxItem: int): int
  {
    if k < 1 || maxItem < 0 then 0 else k * (10 + |PutUvarint(maxItem)| + maxItem)
  }

  method WorstEncodedSize(k: int, maxItem: int) returns (n: int)
    requires maxItem <= MAX_UINT64
    ensures n == WorstSize(k, maxItem)
  {
    if k < 1 || maxItem < 0 {
      return 0;
    }
    var w := UvarintSize(maxItem);
    n := k * (10 + w + maxItem);
  }

  lemma {:induction false} RowSize(r: Row, maxItem: nat)
    requires |r.item.bytes| <= maxItem <= MAX_UINT64
    ensures |EncodeRow(r)| <= 10 + |PutUvarint(maxItem)| + maxItem
  {
    UvarintRoundTrip(r.count, []);
    PutUvarintMonotone(|r.item.bytes|, maxItem);
  }

  lemma {:induction false} RowsSize(rows: seq<Row>, maxItem: nat)
    requires maxItem <= MAX_UINT64
    requires forall i :: 0 <= i < |rows| ==> |rows[i].item.bytes| <= maxItem
    ensures |EncodeRows(rows)| <= |rows| * (10 + |PutUvarint(maxItem)| + maxItem)
    decreases |rows|
  {
    if rows != [] {
      var per := 10 + |PutUvarint(maxItem)| + maxItem;
      RowSize(rows[0], maxItem);
      RowsSize(rows[1..], maxItem);
      assert |rows| * per == per + (|rows| - 1) * per;
    }
  }

  ghost predicate ItemsWithin(m: Counts, maxItem: nat)
  {
    forall x :: x in m ==> x.bytes != [] && 1 <= m[x] && |x.bytes| <= maxItem
  }

  /** A table of at most k items, none longer than maxItem, never encodes past the bound. */
  lemma {:induction false} EncodedSizeBound(m: Counts, k: nat, maxItem: nat)
    requires 1 <= k && |m| <= k && maxItem <= MAX_UINT64 && ItemsWithin(m, maxItem)
    ensures |Encode(m)| <= WorstSize(k, maxItem)
  {
    var rows := Chart(m);
    RowsOfMap(rows, m, k);
    forall i | 0 <= i < |rows| ensures |rows[i].item.bytes| <= maxItem {
      assert rows[i] in RowSet(m);
    }
    RowsSize(rows, maxItem);
    var per := 10 + |PutUvarint(maxItem)| + maxItem;
    MulMonotone(per, |rows|, k);
    assert |rows| * per == per * |rows| && k * per == per * k;
  }

  lemma {:induction false} PutKeepsItems(m: Counts, item: Term, c: uint64, maxItem: nat)
    requires ItemsWithin(m, maxItem) && item.bytes != [] && |item.bytes| <= maxItem && c >= 1
    ensures ItemsWithin(m[item := c], maxItem) && |m[item := c]| == |m| + if item in m then 0 else 1
  {
    assert m[item := c].Keys == m.Keys + {item};
  }

  lemma {:induction false} ReplaceKeepsItems(m: Counts, v: Term, item: Term, c: uint64, maxItem: nat)
    requires ItemsWithin(m, maxItem) && v in m && item !in m && item.bytes != [] && |item.bytes| <= maxItem && c >= 1
    ensures ItemsWithin((m - {v})[item := c], maxItem) && |(m - {v})[item := c]| == |m|
  {
    assert (m - {v})[item := c].Keys == m.Keys - {v} + {item};
  }

  lemma {:induction false} AddKeepsItems(m: Counts, k: nat, item: Term, maxItem: nat)
    requires 1 <= k && |m| <= k && ItemsWithin(m, maxItem) && |item.bytes| <= maxItem
    requires Add(m, k, item).Some?
    ensures ItemsWithin(Add(m, k, item).value, maxItem)
    ensures |Add(m, k, item).value| <= k
  {
    if item in m {
      PutKeepsItems(m, item, m[item] + 1, maxItem);
    } else if |m| < k {
      PutKeepsItems(m, item, 1, maxItem);
    } else {
      ReplaceKeepsItems(m, Victim(m), item, m[Victim(m)] + 1, maxItem);
    }
  }

  lemma {:induction false} ConsumedIsSized(b: Bytes)
    requires ConsumeRow(b).Next?
    ensures SizedRow(ConsumeRow(b).row)
  {
  }

  lemma {:induction false} RowFits(done: seq<Row>, row: Row, k: nat)
    requires TableRows(done, k) && |done| < k && !Stored(done, row.item) && row.item.bytes != [] && 1 <= row.count
    ensures TableRows(done + [row], k)
  {
    forall i, j | 0 <= i < j < |done + [row]|
      ensures (done + [row])[i].item != (done + [row])[j].item
    {
      assert (done + [row])[i] == done[i];
    }
  }

  lemma {:induction false} DecodedRows(b: Bytes, k: nat, done: seq<Row>)
    requires TableRows(done, k) && (forall i :: 0 <= i < |done| ==> SizedRow(done[i])) && DecodeInto(b, k, done).Some?
    ensures var rows := DecodeInto(b, k, done).value;
            TableRows(rows, k) && forall i :: 0 <= i < |rows| ==> SizedRow(rows[i])
    decreases |b|
  {
    if b != [] {
      var c := ConsumeRow(b);
      ConsumedIsSized(b);
      RowFits(done, c.row, k);
      DecodedRows(c.rest, k, done + [c.row]);
    }
  }

  /** Whatever blob decodes stands for a table within capacity. */
  lemma {:induction false} DecodedTable(b: Bytes, k: nat)
    requires DecodeInto(b, k, []).Some?
    ensures var m := CountsOf(DecodeInto(b, k, []).value);
            |m| <= k && ItemsWithin(m, MAX_UINT64)
  {
    var rows := DecodeInto(b, k, []).value;
    DecodedRows(b, k, []);
    CountsOfSize(rows, k);
    forall x | x in CountsOf(rows)
      ensures x.bytes != [] && |x.bytes| <= MAX_UINT64 && 1 <= CountsOf(rows)[x]
    {
      CountsOfStored(rows, x);
      var i :| 0 <= i < |rows| && rows[i].item == x;
      CountsOfAt(rows, k, i);
      assert SizedRow(rows[i]);
    }
  }

  // ---------------------------------------------------------------- the store's pipeline

  datatype Outcome = Rejected | TooLarge | Applied(blob: Bytes)

  /** topkApply: decode the stored blob, add one observation, encode again. */
  ghost function ApplyBlob(cur: Bytes, item: Term, k: nat, maxValue: int): (r: Outcome)
    requires 1 <= k
  {
    match DecodeInto(cur, k, [])
    case None => Rejected
    case Some(rows) =>
      match Add(CountsOf(rows), k, item)
      case None => Rejected
      case Some(m) =>
        if maxValue > 0 && |Encode(m)| > maxValue then TooLarge else Applied(Encode(m))
  }

  /** The blob after a stream, when every observation goes through the pipeline. */
  ghost function Pipeline(k: nat, obs: seq<Term>, maxValue: int): (blob: Bytes)
    requires 1 <= k
  {
    if obs == [] then []
    else
      var cur := Pipeline(k, obs[..|obs| - 1], maxValue);
      match ApplyBlob(cur, obs[|obs| - 1], k, maxValue)
      case Applied(blob) => blob
      case _ => cur
  }

  lemma {:induction false} EncodeEmpty()
    ensures Encode(map[]) == []
  {
    assert RowSet(map[]) == {};
    assert Chart(map[]) == [];
  }

  /** One trip through the pipeline is one Add on the table the blob encodes. */
  lemma {:induction false} PipelineStep(m: Counts, k: nat, item: Term, maxItem: nat, maxValue: int)
    requires 1 <= k && |m| <= k && maxItem <= MAX_UINT64
    requires ItemsWithin(m, maxItem) && |item.bytes| <= maxItem
    requires maxValue <= 0 || WorstSize(k, maxItem) <= maxValue
    ensures ApplyBlob(Encode(m), item, k, maxValue) ==
            match Add(m, k, item) case None => Rejected case Some(m') => Applied(Encode(m'))
  {
    TableRoundTrip(m, k);
    AddFits(m, k, item, maxItem, maxValue);
  }

  lemma {:induction false} AddFits(m: Counts, k: nat, item: Term, maxItem: nat, maxValue: int)
    requires 1 <= k && |m| <= k && maxItem <= MAX_UINT64
    requires ItemsWithin(m, maxItem) && |item.bytes| <= maxItem
    requires maxValue <= 0 || WorstSize(k, maxItem) <= maxValue
    ensures Add(m, k, item).Some? && maxValue > 0 ==> |Encode(Add(m, k, item).value)| <= maxValue
  {
    if Add(m, k, item).Some? {
      AddKeepsItems(m, k, item, maxItem);
      EncodedSizeBound(Add(m, k, item).value, k, maxItem);
    }
  }

  /**
   * Decoding and re-encoding around every observation gives the same bytes as
   * encoding one long-lived table at the end, provided the value limit admits
   * the worst case for the allowed item length.
   */
  lemma {:induction false} PipelineIsOneTable(k: nat, obs: seq<Term>, maxItem: nat, maxValue: int)
    requires 1 <= k && maxItem <= MAX_UINT64
    requires forall i :: 0 <= i < |obs| ==> |obs[i].bytes| <= maxItem
    requires maxValue <= 0 || WorstSize(k, maxItem) <= maxValue
    ensures Pipeline(k, obs, maxValue) == Encode(Run(k, obs).counts)
    ensures |Run(k, obs).counts| <= k && ItemsWithin(Run(k, obs).counts, maxItem)
    decreases |obs|
  {
    if obs == [] {
      EncodeEmpty();
    } else {
      var before := obs[..|obs| - 1];
      var item := obs[|obs| - 1];
      PipelineIsOneTable(k, before, maxItem, maxValue);
      var m := Run(k, before).counts;
      PipelineStep(m, k, item, maxItem, maxValue);
      if Add(m, k, item).Some? {
        AddKeepsItems(m, k, item, maxItem);
      }
    }
  }

  /** Two tables with equal maps encode to equal bytes, whatever order their slots are in. */
  lemma {:induction false} SlotOrderIrrelevant(a: seq<Row>, b: seq<Row>, k: nat)
    requires TableRows(a, k) && TableRows(b, k) && CountsOf(a) == CountsOf(b)
    ensures SortBy(RowLess, a) == SortBy(RowLess, b) == Chart(CountsOf(a))
  {
    RowLessStrictOrder();
    RowsOfTable(a, k);
    RowsOfTable(b, k);
    SortIsCanonical(RowLess, a, RowSet(CountsOf(a)));
    SortIsCanonical(RowLess, b, RowSet(CountsOf(b)));
  }

  // ---------------------------------------------------------------- slots and index

  /** `idx` is the inverse of the slot list. */
  ghost predicate Indexed(rows: seq<Row>, idx: map<Term, nat>)
  {
    && (forall i :: 0 <= i < |rows| ==> rows[i].item in idx && idx[rows[i].item] == i)
    && (forall x :: x in idx ==> idx[x] < |rows| && rows[idx[x]].item == x)
  }

  lemma {:induction false} IndexedLookup(rows: seq<Row>, idx: map<Term, nat>, k: nat, x: Term)
    requires TableRows(rows, k) && Indexed(rows, idx)
    ensures x in CountsOf(rows) <==> x in idx
    ensures x in idx ==> CountsOf(rows)[x] == rows[idx[x]].count
    ensures |CountsOf(rows)| == |rows|
  {
    if x in idx { CountsOfAt(rows, k, idx[x]); }
    if x in CountsOf(rows) { CountsOfStored(rows, x); }
    CountsOfSize(rows, k);
  }

  lemma {:induction false} LastIsNew(rows: seq<Row>, k: nat)
    requires TableRows(rows, k) && rows != []
    ensures var n := |rows| - 1; CountsOf(rows) - {rows[n].item} == CountsOf(rows[..n])
  {
    var n := |rows| - 1;
    if rows[n].item in CountsOf(rows[..n]) {
      CountsOfStored(rows[..n], rows[n].item);
      assert false;
    }
    assert CountsOf(rows) == CountsOf(rows[..n])[rows[n].item := rows[n].count];
  }

  /** Rewriting one slot swaps one item of the map for another. */
  lemma {:induction false} SlotUpdate(rows: seq<Row>, k: nat, i: nat, row: Row)
    requires TableRows(rows, k) && i < |rows|
    requires TableRows(rows[i := row], k)
    ensures CountsOf(rows[i := row]) == (CountsOf(rows) - {rows[i].item})[row.item := row.count]
    decreases |rows|
  {
    var n := |rows| - 1;
    var rows' := rows[i := row];
    if i == n {
      assert rows'[..n] == rows[..n];
      LastIsNew(rows, k);
    } else {
      assert rows'[..n] == rows[..n][i := row];
      assert TableRows(rows'[..n], k);
      SlotUpdate(rows[..n], k, i, row);
      assert rows'[n] == rows[n] && rows'[i].item != rows'[n].item;
      PutSwap(CountsOf(rows[..n]), rows[i].item, row, rows[n]);
    }
  }

  lemma {:induction false} PutSwap(m: Counts, x: Term, row: Row, last: Row)
    requires last.item != x && last.item != row.item
    ensures (m - {x})[row.item := row.count][last.item := last.count] ==
            (m[last.item := last.count] - {x})[row.item := row.count]
  {
  }

  lemma {:induction false} HitRefines(rows: seq<Row>, idx: map<Term, nat>, k: nat, i: nat)
    requires 1 <= k && TableRows(rows, k) && Indexed(rows, idx)
    requires i < |rows| && rows[i].count < MAX_UINT64
    ensures var rows' := rows[i := Row(rows[i].item, rows[i].count + 1)];
            && TableRows(rows', k) && Indexed(rows', idx)
            && Add(CountsOf(rows), k, rows[i].item) == Some(CountsOf(rows'))
  {
    var rows' := rows[i := Row(rows[i].item, rows[i].count + 1)];
    assert TableRows(rows', k);
    SlotUpdate(rows, k, i, rows'[i]);
    CountsOfAt(rows, k, i);
    assert CountsOf(rows') == CountsOf(rows)[rows[i].item := rows[i].count + 1];
  }

  lemma {:induction false} InsertRefines(rows: seq<Row>, idx: map<Term, nat>, k: nat, item: Term)
    requires 1 <= k && TableRows(rows, k) && Indexed(rows, idx)
    requires item !in idx && |rows| < k && item.bytes != []
    ensures var rows' := rows + [Row(item, 1)];
            && TableRows(rows', k) && Indexed(rows', idx[item := |rows|])
            && Add(CountsOf(rows), k, item) == Some(CountsOf(rows'))
  {
    IndexedLookup(rows, idx, k, item);
    IndexedAppend(rows, idx, k, Row(item, 1));
    assert (rows + [Row(item, 1)])[..|rows|] == rows;
  }

  lemma {:induction false} IndexedAppend(rows: seq<Row>, idx: map<Term, nat>, k: nat, row: Row)
    requires TableRows(rows, k) && Indexed(rows, idx) && row.item !in idx
    requires |rows| < k && row.item.bytes != [] && 1 <= row.count
    ensures TableRows(rows + [row], k)
    ensures Indexed(rows + [row], idx[row.item := |rows|])
  {
    var rows', idx' := rows + [row], idx[row.item := |rows|];
    forall i | 0 <= i < |rows'| ensures rows'[i].item in idx' && idx'[rows'[i].item] == i {
      if i < |rows| { assert rows'[i] == rows[i]; }
    }
    forall x | x in idx' ensures idx'[x] < |rows'| && rows'[idx'[x]].item == x {
      if x != row.item { assert rows'[idx[x]] == rows[idx[x]]; }
    }
    forall i, j | 0 <= i < j < |rows'| ensures rows'[i].item != rows'[j].item {
      assert idx'[rows'[i].item] != idx'[rows'[j].item];
    }
  }

  lemma {:induction false} IndexedReplace(rows: seq<Row>, idx: map<Term, nat>, k: nat, i: nat, row: Row)
    requires TableRows(rows, k) && Indexed(rows, idx) && row.item !in idx
    requires i < |rows| && row.item.bytes != [] && 1 <= row.count
    ensures TableRows(rows[i := row], k)
    ensures Indexed(rows[i := row], (idx - {rows[i].item})[row.item := i])
  {
    var rows', idx' := rows[i := row], (idx - {rows[i].item})[row.item := i];
    forall j | 0 <= j < |rows'| ensures rows'[j].item in idx' && idx'[rows'[j].item] == j {
      if j != i { assert rows[j].item != rows[i].item; }
    }
    forall x | x in idx' ensures idx'[x] < |rows'| && rows'[idx'[x]].item == x {
      if x != row.item { assert idx[x] != i; }
    }
    forall a, b | 0 <= a < b < |rows'| ensures rows'[a].item != rows'[b].item {
      assert idx'[rows'[a].item] != idx'[rows'[b].item];
    }
  }

  lemma {:induction false} ReplaceRefines(rows: seq<Row>, idx: map<Term, nat>, k: nat, i: nat, item: Term)
    requires 1 <= k && TableRows(rows, k) && Indexed(rows, idx)
    requires item !in idx && |rows| == k && item.bytes != []
    requires i < |rows| && IsVictim(CountsOf(rows), rows[i].item) && rows[i].count < MAX_UINT64
    ensures var rows' := rows[i := Row(item, rows[i].count + 1)];
            && TableRows(rows', k) && Indexed(rows', (idx - {rows[i].item})[item := i])
            && Add(CountsOf(rows), k, item) == Some(CountsOf(rows'))
  {
    var rows' := rows[i := Row(item, rows[i].count + 1)];
    IndexedReplace(rows, idx, k, i, rows'[i]);
    SlotUpdate(rows, k, i, rows'[i]);
    FullAdd(rows, idx, k, i, item);
  }

  /** In a full table an item that is not there takes the place of the victim. */
  lemma {:induction false} FullAdd(rows: seq<Row>, idx: map<Term, nat>, k: nat, i: nat, item: Term)
    requires 1 <= k && TableRows(rows, k) && Indexed(rows, idx)
    requires item !in idx && |rows| == k && item.bytes != []
    requires i < |rows| && IsVictim(CountsOf(rows), rows[i].item) && rows[i].count < MAX_UINT64
    ensures Add(CountsOf(rows), k, item) == Some((CountsOf(rows) - {rows[i].item})[item := rows[i].count + 1])
  {
    IndexedLookup(rows, idx, k, item);
    IndexedLookup(rows, idx, k, rows[i].item);
    VictimIsVictim(CountsOf(rows));
    VictimUnique(CountsOf(rows), rows[i].item, Victim(CountsOf(rows)));
  }

  lemma {:induction false} FullRejects(rows: seq<Row>, idx: map<Term, nat>, k: nat, i: nat, item: Term)
    requires 1 <= k && TableRows(rows, k) && Indexed(rows, idx) && item !in idx && |rows| == k
    requires i < |rows| && IsVictim(CountsOf(rows), rows[i].item) && rows[i].count == MAX_UINT64
    ensures Add(CountsOf(rows), k, item) == None
  {
    IndexedLookup(rows, idx, k, item);
    IndexedLookup(rows, idx, k, rows[i].item);
    VictimIsVictim(CountsOf(rows));
    VictimUnique(CountsOf(rows), rows[i].item, Victim(CountsOf(rows)));
  }

  predicate RowRanksBelow(a: Row, b: Row)
  {
    a.count < b.count || (a.count == b.count && BytesLess(a.item.bytes, b.item.bytes))
  }

  lemma {:induction false} RowRanksTrans(a: Row, b: Row, c: Row)
    requires RowRanksBelow(a, b) && RowRanksBelow(b, c)
    ensures RowRanksBelow(a, c)
  {
    if a.count == b.count == c.count {
      BytesLessTrans(a.item.bytes, b.item.bytes, c.item.bytes);
    }
  }

  lemma {:induction false} SlotIsVictim(rows: seq<Row>, idx: map<Term, nat>, k: nat, min: nat)
    requires TableRows(rows, k) && Indexed(rows, idx) && min < |rows|
    requires forall j :: 0 <= j < |rows| && j != min ==> RowRanksBelow(rows[min], rows[j])
    ensures IsVictim(CountsOf(rows), rows[min].item)
  {
    var m := CountsOf(rows);
    IndexedLookup(rows, idx, k, rows[min].item);
    forall y | y in m && y != rows[min].item ensures RanksBelow(m, rows[min].item, y) {
      IndexedLookup(rows, idx, k, y);
      assert RowRanksBelow(rows[min], rows[idx[y]]);
    }
  }

  // ---------------------------------------------------------------- the table in place

  datatype Error = NoError | ErrEmpty | ErrOverflow

  class Table {
    const k: nat
    var slots: seq<Row>
    var idx: map<Term, nat>

    ghost predicate Valid()
      reads this
    {
      1 <= k && TableRows(slots, k) && Indexed(slots, idx)
    }

    ghost function Counts(): Counts
      reads this
    {
      CountsOf(slots)
    }

    constructor (k: nat)
      requires 1 <= k
      ensures Valid() && this.k == k && slots == [] && Counts() == map[]
    {
      this.k := k;
      slots := [];
      idx := map[];
    }

    /** minSlot: the scan finds the victim. */
    method MinSlot() returns (min: nat)
      requires Valid() && slots != []
      ensures min < |slots| && IsVictim(Counts(), slots[min].item)
    {
      min := 0;
      var i := 1;
      while i < |slots|
        invariant 1 <= i <= |slots| && min < i
        invariant forall j :: 0 <= j < i && j != min ==> RowRanksBelow(slots[min], slots[j])
      {
        var c, mc := slots[i].count, slots[min].count;
        if c < mc || (c == mc && BytesLess(slots[i].item.bytes, slots[min].item.bytes)) {
          forall j | 0 <= j < i ensures RowRanksBelow(slots[i], slots[j]) {
            if j != min { RowRanksTrans(slots[i], slots[min], slots[j]); }
          }
          min := i;
        } else {
          BytesLessTotal(slots[i].item.bytes, slots[min].item.bytes);
        }
        i := i + 1;
      }
      SlotIsVictim(slots, idx, k, min);
    }

    /** Table.Add refines SpaceSaving.Add; a rejected observation changes nothing. */
    method AddItem(item: Term) returns (err: Error)
      requires Valid()
      modifies this
      ensures Valid()
      ensures err.NoError? ==> Add(old(Counts()), k, item) == Some(Counts())
      ensures !err.NoError? ==>
                Add(old(Counts()), k, item) == None && slots == old(slots) && idx == old(idx)
      ensures err.ErrEmpty? <==> item.bytes == []
    {
      if item.bytes == [] {
        return ErrEmpty;
      }
      if item in idx {
        err := Hit(item);
        return;
      }
      if |slots| < k {
        InsertNew(item);
        return NoError;
      }
      err := ReplaceMin(item);
    }

    /** The branch of Add for an item that has a slot. */
    method Hit(item: Term) returns (err: Error)
      requires Valid() && item in idx && item.bytes != []
      modifies this
      ensures Valid()
      ensures err.NoError? ==> Add(old(Counts()), k, item) == Some(Counts())
      ensures !err.NoError? ==>
                err.ErrOverflow? && Add(old(Counts()), k, item) == None && slots == old(slots) && idx == old(idx)
    {
      IndexedLookup(slots, idx, k, item);
      var i := idx[item];
      if slots[i].count == MAX_UINT64 {
        return ErrOverflow;
      }
      HitRefines(slots, idx, k, i);
      slots := slots[i := Row(item, slots[i].count + 1)];
      err := NoError;
    }

    /** The branch of Add for a new item in a table that is not full. */
    method InsertNew(item: Term)
      requires Valid() && |slots| < k && item !in idx && item.bytes != []
      modifies this
      ensures Valid()
      ensures Add(old(Counts()), k, item) == Some(Counts())
    {
      InsertRefines(slots, idx, k, item);
      idx := idx[item := |slots|];
      slots := slots + [Row(item, 1)];
    }

    /** The item moves into the victim's slot. */
    method TakeSlot(i: nat, item: Term)
      requires Valid() && |slots| == k && item !in idx && item.bytes != []
      requires i < |slots| && IsVictim(Counts(), slots[i].item) && slots[i].count < MAX_UINT64
      modifies this
      ensures Valid() && Add(old(Counts()), k, item) == Some(Counts())
    {
      ReplaceRefines(slots, idx, k, i, item);
      var c := slots[i].count;
      idx := (idx - {slots[i].item})[item := i];
      slots := slots[i := Row(item, c + 1)];
    }

    /** The full-table branch of Add. */
    method ReplaceMin(item: Term) returns (err: Error)
      requires Valid() && |slots| == k && item !in idx && item.bytes != []
      modifies this
      ensures Valid()
      ensures err.NoError? ==> Add(old(Counts()), k, item) == Some(Counts())
      ensures !err.NoError? ==>
                Add(old(Counts()), k, item) == None && slots == old(slots) && idx == old(idx)
      ensures !err.ErrEmpty?
    {
      var min := MinSlot();
      var c := slots[min].count;
      if c == MAX_UINT64 {
        FullRejects(slots, idx, k, min, item);
        return ErrOverflow;
      }
      TakeSlot(min, item);
      return NoError;
    }

    /** Table.List: a sorted copy of the slots. */
    method List() returns (rows: seq<Row>)
      requires Valid()
      ensures rows == Chart(Counts())
    {
      var out := CopySlots();
      rows := SortBy(RowLess, out);
      SlotOrderIrrelevant(slots, slots, k);
    }

    method CopySlots() returns (out: seq<Row>)
      ensures out == slots
    {
      out := [];
      for i := 0 to |slots|
        invariant out == slots[..i]
      {
        out := out + [slots[i]];
      }
    }

    /** Table.Encode: the rows of List, written out. */
    method EncodeTable() returns (buf: Bytes)
      requires Valid()
      ensures buf == Encode(Counts())
    {
      var rows := List();
      buf := WriteRows(rows);
    }
  }

  method WriteRows(rows: seq<Row>) returns (buf: Bytes)
    ensures buf == EncodeRows(rows)
  {
    buf := [];
    for i := 0 to |rows|
      invariant buf + EncodeRows(rows[i..]) == EncodeRows(rows)
    {
      assert rows[i..][1..] == rows[i + 1..];
      buf := buf + (PutUvarint(rows[i].count) + PutUvarint(|rows[i].item.bytes|) + rows[i].item.bytes);
    }
  }

  /** topkx.New: there is no table without a slot. */
  method New(k: int) returns (t: Table?)
    ensures t == null <==> k < 1
    ensures t != null ==> fresh(t) && t.Valid() && t.k == k && t.slots == []
  {
    if k < 1 {
      return null;
    }
    t := new Table(k);
  }

  /** topkx.Decode: the loop fills a fresh table. */
  method Decode(b: Bytes, k: int) returns (t: Table?)
    ensures t == null <==> k < 1 || DecodeInto(b, k, []) == None
    ensures t != null ==> fresh(t) && t.Valid() && t.k == k && DecodeInto(b, k, []) == Some(t.slots)
  {
    t := New(k);
    if t == null {
      return null;
    }
    var left := b;
    while left != []
      invariant t != null && fresh(t) && t.Valid() && t.k == k
      invariant DecodeInto(left, k, t.slots) == DecodeInto(b, k, [])
      decreases |left|
    {
      var c := ConsumeRow(left);
      if c.Corrupt? {
        return null;
      }
      if c.row.item in t.idx {
        return null;
      }
      if |t.slots| >= k {
        return null;
      }
      IndexedAppend(t.slots, t.idx, k, c.row);
      t.idx := t.idx[c.row.item := |t.slots|];
      t.slots := t.slots + [c.row];
      left := c.rest;
    }
  }

  /** topkApply. */
  method TopkApply(cur: Bytes, item: Term, k: int, maxValue: int) returns (r: Outcome)
    ensures r == if k < 1 then Rejected else ApplyBlob(cur, item, k, maxValue)
  {
    var t := Decode(cur, k);
    if t == null {
      return Rejected;
    }
    var err := t.AddItem(item);
    if !err.NoError? {
      return Rejected;
    }
    var blob := t.EncodeTable();
    if maxValue > 0 && |blob| > maxValue {
      return TooLarge;
    }
    r := Applied(blob);
  }
}
