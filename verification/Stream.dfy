/** The stream log (pkg/stream): millis-sequence ids, append, trim, delete, range and the snapshot codec. */
module Stream {
  import opened Basics
  import opened Uvarint
  import opened Decimal

  const HARD_CAP := 4096
  const DEFAULT_MAX := 512

  datatype Id = Id(ms: uint64, no: uint64)

  datatype Entry = Entry(id: Id, payload: Bytes)

  /** A log: the last id minted, and the entries, oldest first. */
  datatype State = State(last: Id, entries: seq<Entry>)

  /** cmpID. */
  function Compare(a: Id, b: Id): int
  {
    if a.ms < b.ms then -1
    else if a.ms > b.ms then 1
    else if a.no < b.no then -1
    else if a.no > b.no then 1
    else 0
  }

  predicate Less(a: Id, b: Id) { a.ms < b.ms || (a.ms == b.ms && a.no < b.no) }

  /** cmpID decides a strict total order on ids. */
  lemma {:induction false} CompareIsOrder(a: Id, b: Id, c: Id)
    ensures (Compare(a, b) < 0 <==> Less(a, b)) && (Compare(a, b) > 0 <==> Less(b, a)) && (Compare(a, b) == 0 <==> a == b)
    ensures Less(a, b) && Less(b, c) ==> Less(a, c)
  {
  }

  predicate Sorted(es: seq<Entry>) { forall i, j :: 0 <= i < j < |es| ==> Less(es[i].id, es[j].id) }

  predicate Ascending(ids: seq<Id>) { forall i, j :: 0 <= i < j < |ids| ==> Less(ids[i], ids[j]) }

  predicate SizedEntry(e: Entry) { |e.payload| <= MAX_UINT64 }

  predicate SizedEntries(es: seq<Entry>) { forall i :: 0 <= i < |es| ==> SizedEntry(es[i]) }

  /** Nothing in the log is newer than the last id. */
  predicate UpTo(es: seq<Entry>, last: Id) { forall i :: 0 <= i < |es| ==> !Less(last, es[i].id) }

  predicate Valid(s: State)
  {
    Sorted(s.entries) && UpTo(s.entries, s.last) && |s.entries| <= HARD_CAP && SizedEntries(s.entries)
  }

  // ---------------------------------------------------------------- minting

  /** Mint, with the sequence number's 64-bit wrap-around. */
  function Mint(last: Id, now: uint64): Id
  {
    var t := if now < last.ms then last.ms else now;
    if t == last.ms then Id(t, (last.no + 1) % 0x1_0000_0000_0000_0000) else Id(t, 0)
  }

  /** The sequence number is at its maximum and the clock has not moved past the last millisecond. */
  predicate Exhausted(last: Id, now: uint64) { now <= last.ms && last.no == MAX_UINT64 }

  /** A minted id is newer than the last one, whatever the clock says, if and only if the sequence is not exhausted. */
  lemma {:induction false} MintIncreasesIff(last: Id, now: uint64)
    ensures Less(last, Mint(last, now)) <==> !Exhausted(last, now)
    ensures Mint(last, now).ms >= now && Mint(last, now).ms >= last.ms
  {
  }

  // ---------------------------------------------------------------- the operations on values

  function Trimmed(es: seq<Entry>, maxLen: int): seq<Entry>
  {
    if maxLen < 0 then es
    else if maxLen == 0 then []
    else if |es| > maxLen then es[|es| - maxLen..]
    else es
  }

  predicate Full(s: State, autoTrim: int) { autoTrim <= 0 && |s.entries| >= HARD_CAP }

  function Appended(s: State, payload: Bytes, now: uint64, autoTrim: int): State
  {
    if Full(s, autoTrim) then s
    else
      var id := Mint(s.last, now);
      var es := s.entries + [Entry(id, payload)];
      var kept := if autoTrim > 0 then Trimmed(es, autoTrim) else es;
      State(id, if |kept| > HARD_CAP then Trimmed(kept, HARD_CAP) else kept)
  }

  /** The entries whose id is not the given one. */
  function Without(es: seq<Entry>, id: Id): (r: seq<Entry>)
  {
    if es == [] then []
    else
      var last := es[|es| - 1];
      Without(es[..|es| - 1], id) + if last.id == id then [] else [last]
  }

  // ---------------------------------------------------------------- the snapshot codec

  function EncodeEntry(e: Entry): Bytes
  {
    PutUvarint(e.id.ms) + PutUvarint(e.id.no) + PutUvarint(|e.payload|) + e.payload
  }

  function EncodeEntries(es: seq<Entry>): Bytes
  {
    if es == [] then [] else EncodeEntry(es[0]) + EncodeEntries(es[1..])
  }

  function EncodeState(s: State): Bytes
  {
    [83] + PutUvarint(s.last.ms) + PutUvarint(s.last.no) + PutUvarint(|s.entries|) + EncodeEntries(s.entries)
  }

  datatype Taken<T> = Short | Took(value: T, rest: Bytes)

  /** The package's uvarint. */
  function TakeUvarint(b: Bytes): (r: Taken<uint64>)
    ensures r.Took? ==> |r.rest| < |b|
  {
    var g := GetUvarint(b);
    if g.Bad? then Short else Took(g.value, b[g.width..])
  }

  function TakeEntry(b: Bytes): (r: Taken<Entry>)
    ensures r.Took? ==> |r.rest| < |b|
  {
    var ms := TakeUvarint(b);
    if ms.Short? then Short
    else
      var no := TakeUvarint(ms.rest);
      if no.Short? then Short
      else
        var n := TakeUvarint(no.rest);
        if n.Short? || |n.rest| < n.value then Short
        else Took(Entry(Id(ms.value, no.value), n.rest[..n.value]), n.rest[n.value..])
  }

  /** n entries, and nothing after them. */
  function TakeEntries(b: Bytes, n: nat): Option<seq<Entry>>
    decreases n
  {
    if n == 0 then if b == [] then Some([]) else None
    else
      var e := TakeEntry(b);
      if e.Short? then None
      else
        var rest := TakeEntries(e.rest, n - 1);
        if rest.None? then None else Some([e.value] + rest.value)
  }

  function Decode(blob: Bytes): Option<State>
  {
    if |blob| < 1 || blob[0] != 83 then None
    else
      var ms := TakeUvarint(blob[1..]);
      if ms.Short? then None
      else
        var no := TakeUvarint(ms.rest);
        if no.Short? then None
        else
          var n := TakeUvarint(no.rest);
          if n.Short? || n.value > HARD_CAP then None
          else
            var es := TakeEntries(n.rest, n.value);
            if es.None? then None else Some(State(Id(ms.value, no.value), es.value))
  }

  lemma {:induction false} TakePut(x: uint64, rest: Bytes)
    ensures TakeUvarint(PutUvarint(x) + rest) == Took(x, rest)
  {
    UvarintRoundTrip(x, rest);
  }

  lemma {:induction false} TakeEntryEncoded(e: Entry, rest: Bytes)
    requires SizedEntry(e)
    ensures TakeEntry(EncodeEntry(e) + rest) == Took(e, rest)
  {
    var p := e.payload + rest;
    var n := PutUvarint(|e.payload|) + p;
    var no := PutUvarint(e.id.no) + n;
    assert EncodeEntry(e) + rest == PutUvarint(e.id.ms) + no;
    TakePut(e.id.ms, no);
    TakePut(e.id.no, n);
    TakePut(|e.payload|, p);
    assert p[..|e.payload|] == e.payload && p[|e.payload|..] == rest;
  }

  lemma {:induction false} TakeOneMore(b: Bytes, n: nat, e: Entry, rest: Bytes, tail: seq<Entry>)
    requires n > 0 && TakeEntry(b) == Took(e, rest) && TakeEntries(rest, n - 1) == Some(tail)
    ensures TakeEntries(b, n) == Some([e] + tail)
  {
  }

  lemma {:induction false} TakeEntriesCons(e: Entry, tail: seq<Entry>, rest: Bytes, n: nat)
    requires SizedEntry(e) && TakeEntries(rest, n) == Some(tail)
    ensures TakeEntries(EncodeEntry(e) + rest, n + 1) == Some([e] + tail)
  {
    TakeEntryEncoded(e, rest);
    TakeOneMore(EncodeEntry(e) + rest, n + 1, e, rest, tail);
  }

  lemma {:induction false} TakeEntriesEncoded(es: seq<Entry>)
    requires SizedEntries(es)
    ensures TakeEntries(EncodeEntries(es), |es|) == Some(es)
    decreases |es|
  {
    if es != [] {
      var tail := es[1..];
      TakeEntriesEncoded(tail);
      TakeEntriesCons(es[0], tail, EncodeEntries(tail), |tail|);
      assert es == [es[0]] + tail;
    }
  }

  /** A snapshot decodes to the log it was taken from if and only if the log is within the hard cap. */
  lemma {:induction false} SnapshotRoundTripIff(s: State)
    requires SizedEntries(s.entries) && |s.entries| <= MAX_UINT64
    ensures Decode(EncodeState(s)) == if |s.entries| <= HARD_CAP then Some(s) else None
  {
    var es := EncodeEntries(s.entries);
    var n := PutUvarint(|s.entries|) + es;
    var no := PutUvarint(s.last.no) + n;
    var body := PutUvarint(s.last.ms) + no;
    assert EncodeState(s) == [83] + body;
    assert ([83] + body)[1..] == body;
    TakePut(s.last.ms, no);
    TakePut(s.last.no, n);
    TakePut(|s.entries|, es);
    if |s.entries| <= HARD_CAP {
      TakeEntriesEncoded(s.entries);
    }
  }

  // ---------------------------------------------------------------- whole lives of a log

  datatype Op =
    | Append(payload: Bytes, now: uint64, autoTrim: int)
    | Trim(maxLen: int)
    | Del(id: Id)
    | Reload

  /** One operation; Reload is a snapshot written and read back, and a snapshot that cannot be read is an empty log. */
  function Step(s: State, op: Op): State
  {
    match op
    case Append(payload, now, autoTrim) => Appended(s, payload, now, autoTrim)
    case Trim(maxLen) => s.(entries := Trimmed(s.entries, maxLen))
    case Del(id) => s.(entries := Without(s.entries, id))
    case Reload => if Decode(EncodeState(s)).Some? then Decode(EncodeState(s)).value else State(Id(0, 0), [])
  }

  predicate Sized(op: Op) { op.Append? ==> |op.payload| <= MAX_UINT64 }

  predicate Mints(s: State, op: Op) { op.Append? && !Full(s, op.autoTrim) }

  predicate Wraps(s: State, op: Op) { Mints(s, op) && Exhausted(s.last, op.now) }

  function Run(s: State, ops: seq<Op>): State
    decreases |ops|
  {
    if ops == [] then s else Run(Step(s, ops[0]), ops[1..])
  }

  /** The ids handed out during a run, in order, whether or not their entries are still there. */
  function Minted(s: State, ops: seq<Op>): seq<Id>
    decreases |ops|
  {
    if ops == [] then []
    else (if Mints(s, ops[0]) then [Mint(s.last, ops[0].now)] else []) + Minted(Step(s, ops[0]), ops[1..])
  }

  /** No append of the run finds the sequence exhausted. */
  predicate NeverWraps(s: State, ops: seq<Op>)
    decreases |ops|
  {
    ops == [] || (!Wraps(s, ops[0]) && NeverWraps(Step(s, ops[0]), ops[1..]))
  }

  lemma {:induction false} WithoutMembers(es: seq<Entry>, id: Id)
    ensures forall e :: e in Without(es, id) <==> e in es && e.id != id
    ensures |Without(es, id)| <= |es|
    decreases |es|
  {
    if es != [] {
      var init, last := es[..|es| - 1], es[|es| - 1];
      WithoutMembers(init, id);
      assert es == init + [last];
    }
  }

  lemma {:induction false} WithoutSorted(es: seq<Entry>, id: Id)
    requires Sorted(es)
    ensures Sorted(Without(es, id))
    decreases |es|
  {
    if es != [] {
      var init, last := es[..|es| - 1], es[|es| - 1];
      WithoutSorted(init, id);
      WithoutMembers(init, id);
      var w := Without(init, id);
      forall i | 0 <= i < |w|
        ensures Less(w[i].id, last.id)
      {
        assert w[i] in init;
      }
    }
  }

  /** Delete takes out the entry with that id, keeps the others in order, and keeps the log valid. */
  lemma {:induction false} DelKeepsValid(s: State, id: Id)
    requires Valid(s)
    ensures Valid(Step(s, Del(id))) && Step(s, Del(id)).last == s.last
    ensures forall e :: e in Step(s, Del(id)).entries <==> e in s.entries && e.id != id
  {
    WithoutMembers(s.entries, id);
    WithoutSorted(s.entries, id);
    var w := Without(s.entries, id);
    forall i | 0 <= i < |w|
      ensures !Less(s.last, w[i].id) && SizedEntry(w[i])
    {
      assert w[i] in s.entries;
    }
  }

  predicate Orderly(es: seq<Entry>, last: Id) { Sorted(es) && UpTo(es, last) && SizedEntries(es) }

  lemma {:induction false} TrimOrderly(es: seq<Entry>, last: Id, maxLen: int)
    requires Orderly(es, last)
    ensures Orderly(Trimmed(es, maxLen), last)
    ensures maxLen >= 0 ==> |Trimmed(es, maxLen)| == Min(|es|, maxLen)
  {
  }

  /** Trimming a sorted log keeps the newest entries: what goes is older than everything that stays. */
  lemma {:induction false} TrimKeepsNewest(es: seq<Entry>, maxLen: int, a: Entry, b: Entry)
    requires Sorted(es) && a in es && a !in Trimmed(es, maxLen) && b in Trimmed(es, maxLen)
    ensures Less(a.id, b.id)
  {
    var t := Trimmed(es, maxLen);
    var d := |es| - |t|;
    var i :| 0 <= i < |es| && es[i] == a;
    var j :| 0 <= j < |t| && t[j] == b;
    assert t[j] == es[d + j];
    forall k | d <= k < |es|
      ensures es[k] in t
    {
      assert t[k - d] == es[k];
    }
  }

  /** An accepted append ends with its own entry, whatever was trimmed to make room. */
  lemma {:induction false} AppendEndsWithEntry(s: State, payload: Bytes, now: uint64, autoTrim: int)
    requires !Full(s, autoTrim)
    ensures var es := Appended(s, payload, now, autoTrim).entries;
            && es != [] && es[|es| - 1] == Entry(Mint(s.last, now), payload)
            && |es| == Min(|s.entries| + 1, if autoTrim > 0 then Min(autoTrim, HARD_CAP) else HARD_CAP)
  {
  }

  lemma {:induction false} PushOrderly(es: seq<Entry>, last: Id, e: Entry)
    requires Orderly(es, last) && Less(last, e.id) && SizedEntry(e)
    ensures Orderly(es + [e], e.id)
  {
    var all := es + [e];
    forall i | 0 <= i < |es|
      ensures Less(es[i].id, e.id)
    {
      CompareIsOrder(es[i].id, last, e.id);
    }
  }

  lemma {:induction false} AppendKeepsValid(s: State, payload: Bytes, now: uint64, autoTrim: int)
    requires Valid(s) && |payload| <= MAX_UINT64
    requires Full(s, autoTrim) || !Exhausted(s.last, now)
    ensures Valid(Appended(s, payload, now, autoTrim))
  {
    if !Full(s, autoTrim) {
      MintIncreasesIff(s.last, now);
      var id := Mint(s.last, now);
      PushOrderly(s.entries, s.last, Entry(id, payload));
      var es := s.entries + [Entry(id, payload)];
      TrimOrderly(es, id, autoTrim);
      var kept := if autoTrim > 0 then Trimmed(es, autoTrim) else es;
      TrimOrderly(kept, id, HARD_CAP);
    }
  }

  lemma {:induction false} StepKeepsValid(s: State, op: Op)
    requires Valid(s) && Sized(op) && !Wraps(s, op)
    ensures Valid(Step(s, op))
    ensures Step(s, op).last == if Mints(s, op) then Mint(s.last, op.now) else s.last
  {
    match op {
      case Append(payload, now, autoTrim) => AppendKeepsValid(s, payload, now, autoTrim);
      case Trim(maxLen) => TrimOrderly(s.entries, s.last, maxLen);
      case Del(id) => DelKeepsValid(s, id);
      case Reload => SnapshotRoundTripIff(s);
    }
  }

  lemma {:induction false} NewerThanAll(a: Id, b: Id, ids: seq<Id>)
    requires Less(a, b) && Ascending([b] + ids)
    ensures Ascending([a] + ([b] + ids))
  {
    var all := [b] + ids;
    forall j | 0 <= j < |all|
      ensures Less(a, all[j])
    {
      assert all[0] == b;
    }
  }

  /**
   * Over a whole run of appends, trims, deletes and reloads, with a clock that may go backwards, every id is newer than
   * all ids before it, removed ones included, and the log stays sorted and within its cap, unless an append finds the
   * sequence exhausted.
   */
  lemma {:induction false} RunMintsIncreasing(s: State, ops: seq<Op>)
    requires Valid(s) && NeverWraps(s, ops) && forall k :: 0 <= k < |ops| ==> Sized(ops[k])
    ensures Valid(Run(s, ops))
    ensures Ascending([s.last] + Minted(s, ops))
    decreases |ops|
  {
    if ops != [] {
      var t := Step(s, ops[0]);
      StepKeepsValid(s, ops[0]);
      RunMintsIncreasing(t, ops[1..]);
      if Mints(s, ops[0]) {
        MintIncreasesIff(s.last, ops[0].now);
        NewerThanAll(s.last, t.last, Minted(t, ops[1..]));
        assert Minted(s, ops) == [t.last] + Minted(t, ops[1..]);
      } else {
        assert Minted(s, ops) == Minted(t, ops[1..]);
      }
    }
  }

  lemma {:induction false} TailNotAscending(ids: seq<Id>, tail: seq<Id>)
    requires ids == tail || (ids != [] && ids[1..] == tail)
    requires !Ascending(tail)
    ensures !Ascending(ids)
  {
    var i, j :| 0 <= i < j < |tail| && !Less(tail[i], tail[j]);
    if ids != tail {
      assert tail[i] == ids[i + 1] && tail[j] == ids[j + 1];
    }
  }

  lemma {:induction false} MintedUnfold(s: State, ops: seq<Op>)
    requires ops != [] && Valid(s) && Sized(ops[0]) && !Wraps(s, ops[0])
    ensures var ids := [s.last] + Minted(s, ops);
            var tail := [Step(s, ops[0]).last] + Minted(Step(s, ops[0]), ops[1..]);
            ids == tail || ids[1..] == tail
  {
    StepKeepsValid(s, ops[0]);
    var tail := [Step(s, ops[0]).last] + Minted(Step(s, ops[0]), ops[1..]);
    if Mints(s, ops[0]) {
      assert Minted(s, ops) == tail;
      assert ([s.last] + Minted(s, ops))[1..] == tail;
    } else {
      assert [] + Minted(Step(s, ops[0]), ops[1..]) == Minted(Step(s, ops[0]), ops[1..]);
    }
  }

  /** And if an append does find it exhausted, the ids are not increasing: the wrapped id is not newer than the last. */
  lemma {:induction false} WrappingBreaksOrder(s: State, ops: seq<Op>)
    requires Valid(s) && !NeverWraps(s, ops) && forall k :: 0 <= k < |ops| ==> Sized(ops[k])
    ensures !Ascending([s.last] + Minted(s, ops))
    decreases |ops|
  {
    var ids := [s.last] + Minted(s, ops);
    if Wraps(s, ops[0]) {
      MintIncreasesIff(s.last, ops[0].now);
      assert ids[0] == s.last && ids[1] == Mint(s.last, ops[0].now);
    } else {
      var t := Step(s, ops[0]);
      StepKeepsValid(s, ops[0]);
      WrappingBreaksOrder(t, ops[1..]);
      MintedUnfold(s, ops);
      TailNotAscending(ids, [t.last] + Minted(t, ops[1..]));
    }
  }

  lemma {:induction false} StepKeepsOrMints(s: State, op: Op, e: Entry)
    requires Valid(s) && e in Step(s, op).entries
    ensures e in s.entries || (Mints(s, op) && e.id == Mint(s.last, op.now))
  {
    match op {
      case Append(_, _, _) =>
      case Trim(_) =>
      case Del(id) => WithoutMembers(s.entries, id);
      case Reload => SnapshotRoundTripIff(s);
    }
  }

  /** Nothing appears in a log but what was there or was minted. */
  lemma {:induction false} RunKeepsOrMints(s: State, ops: seq<Op>, e: Entry)
    requires Valid(s) && NeverWraps(s, ops) && forall k :: 0 <= k < |ops| ==> Sized(ops[k])
    requires e in Run(s, ops).entries
    ensures e in s.entries || e.id in Minted(s, ops)
    decreases |ops|
  {
    if ops != [] {
      var t := Step(s, ops[0]);
      StepKeepsValid(s, ops[0]);
      RunKeepsOrMints(t, ops[1..], e);
      if e in t.entries {
        StepKeepsOrMints(s, ops[0], e);
      }
    }
  }

  // ---------------------------------------------------------------- ranges

  datatype Bound = Bound(id: Id, exclusive: bool, min: bool, max: bool)

  /** The id lies below a start bound. */
  predicate Below(b: Bound, id: Id)
  {
    if b.min then false
    else if b.max then true
    else if b.exclusive then Compare(id, b.id) <= 0
    else Compare(id, b.id) < 0
  }

  /** The id lies above an end bound. */
  predicate Above(b: Bound, id: Id)
  {
    if b.max then false
    else if b.min then true
    else Compare(id, b.id) > 0
  }

  predicate InBounds(start: Bound, end: Bound, id: Id) { !Below(start, id) && !Above(end, id) }

  function ClampCount(n: int): int { if n <= 0 then 0 else if n > DEFAULT_MAX then DEFAULT_MAX else n }

  /** The entries within the bounds, in order. */
  function Select(es: seq<Entry>, start: Bound, end: Bound): (r: seq<Entry>)
  {
    if es == [] then []
    else
      var last := es[|es| - 1];
      Select(es[..|es| - 1], start, end) + if InBounds(start, end, last.id) then [last] else []
  }

  /** At most count entries; zero means all. */
  function Take(es: seq<Entry>, count: nat): seq<Entry> { if count == 0 || |es| <= count then es else es[..count] }

  function Reversed(es: seq<Entry>): (r: seq<Entry>)
    ensures |r| == |es|
  {
    seq(|es|, i requires 0 <= i < |es| => es[|es| - 1 - i])
  }

  function Ranged(es: seq<Entry>, start: Bound, end: Bound, count: int, rev: bool): seq<Entry>
  {
    Take(Select(if rev then Reversed(es) else es, start, end), ClampCount(count))
  }

  lemma {:induction false} SelectConcat(a: seq<Entry>, b: seq<Entry>, start: Bound, end: Bound)
    ensures Select(a + b, start, end) == Select(a, start, end) + Select(b, start, end)
    decreases |b|
  {
    if b == [] {
      assert a + b == a;
    } else {
      var init, last := b[..|b| - 1], b[|b| - 1];
      assert (a + b)[..|a + b| - 1] == a + init;
      SelectConcat(a, init, start, end);
    }
  }

  lemma {:induction false} SelectNext(es: seq<Entry>, n: nat, start: Bound, end: Bound)
    requires n < |es|
    ensures Select(es[..n + 1], start, end) ==
            Select(es[..n], start, end) + if InBounds(start, end, es[n].id) then [es[n]] else []
  {
    assert es[..n + 1][..n] == es[..n];
  }

  /** A scan may stop once it has as many entries as it may return. */
  lemma {:induction false} SelectStops(es: seq<Entry>, n: nat, start: Bound, end: Bound)
    requires n <= |es| && |Select(es[..n], start, end)| > 0
    ensures Take(Select(es, start, end), |Select(es[..n], start, end)|) == Select(es[..n], start, end)
  {
    SelectConcat(es[..n], es[n..], start, end);
    assert es[..n] + es[n..] == es;
  }

  /** A reverse range without a count is the mirror image of the forward one. */
  lemma {:induction false} ReverseIsMirror(es: seq<Entry>, start: Bound, end: Bound)
    ensures Ranged(es, start, end, 0, true) == Reversed(Ranged(es, start, end, 0, false))
    decreases |es|
  {
    if es == [] {
      assert Reversed(es) == es;
    } else {
      var init, last := es[..|es| - 1], es[|es| - 1];
      assert Reversed(es) == [last] + Reversed(init);
      SelectConcat([last], Reversed(init), start, end);
      assert [last][..0] == [];
      ReverseIsMirror(init, start, end);
      var picked := if InBounds(start, end, last.id) then [last] else [];
      assert Reversed(Select(init, start, end) + picked) == picked + Reversed(Select(init, start, end));
    }
  }

  lemma {:induction false} BoundsConvex(start: Bound, end: Bound, a: Id, b: Id, c: Id)
    requires Less(a, b) && Less(b, c) && InBounds(start, end, a) && InBounds(start, end, c)
    ensures InBounds(start, end, b)
  {
  }

  /** From lo to hi the entries are within the bounds, and no others are. */
  ghost predicate Stretch(es: seq<Entry>, start: Bound, end: Bound, lo: nat, hi: nat)
  {
    lo <= hi <= |es| && forall k :: 0 <= k < |es| ==> (lo <= k < hi <==> InBounds(start, end, es[k].id))
  }

  lemma {:induction false} SelectStretch(es: seq<Entry>, start: Bound, end: Bound, lo: nat, hi: nat)
    requires Stretch(es, start, end, lo, hi)
    ensures Select(es, start, end) == es[lo..hi]
    decreases |es|
  {
    if es != [] {
      var n := |es| - 1;
      var init := es[..n];
      var lo', hi' := Min(lo, n), Min(hi, n);
      SelectStretch(init, start, end, lo', hi');
      if lo < hi == |es| {
        assert es[lo..hi] == init[lo..n] + [es[n]];
      }
    }
  }

  lemma {:induction false} FindStretch(es: seq<Entry>, start: Bound, end: Bound) returns (lo: nat, hi: nat)
    requires Sorted(es)
    ensures Stretch(es, start, end, lo, hi)
    decreases |es|
  {
    if es == [] {
      lo, hi := 0, 0;
    } else {
      var init, last := es[..|es| - 1], es[|es| - 1];
      lo, hi := FindStretch(init, start, end);
      if InBounds(start, end, last.id) {
        if lo == hi {
          lo, hi := |init|, |init|;
        }
        if hi < |init| {
          BoundsConvex(start, end, init[lo].id, init[hi].id, last.id);
        }
        hi := |es|;
      }
    }
  }

  /** In a sorted log a range is one contiguous stretch: every entry in it is in bounds, every other is not. */
  lemma {:induction false} RangeIsStretch(es: seq<Entry>, start: Bound, end: Bound) returns (lo: nat, hi: nat)
    requires Sorted(es)
    ensures lo <= hi <= |es| && Ranged(es, start, end, 0, false) == es[lo..hi]
    ensures forall k :: 0 <= k < |es| ==> (lo <= k < hi <==> InBounds(start, end, es[k].id))
  {
    lo, hi := FindStretch(es, start, end);
    SelectStretch(es, start, end, lo, hi);
  }

  // ---------------------------------------------------------------- ids and bounds as text

  function FormatID(id: Id): string { Itoa(id.ms) + "-" + Itoa(id.no) }

  /** strings.IndexByte of a dash, as the length when there is none. */
  function FindDash(s: string): (i: nat)
    ensures i <= |s|
    ensures i < |s| ==> s[i] == '-'
    ensures forall k :: 0 <= k < i ==> s[k] != '-'
  {
    if s == "" || s[0] == '-' then 0
    else
      var i := FindDash(s[1..]);
      assert forall k :: 0 < k < i + 1 ==> s[k] == s[1..][k - 1];
      i + 1
  }

  function ParseID(s: string): Option<Id>
  {
    var i := FindDash(s);
    if i == 0 || i >= |s| - 1 then None
    else
      var ms, no := ParseUint(s[..i]), ParseUint(s[i + 1..]);
      if ms.None? || no.None? then None else Some(Id(ms.value, no.value))
  }

  function ParseBound(s: string, isStart: bool): Option<Bound>
  {
    if s == "" || s == "-" then Some(Bound(Id(0, 0), false, true, false))
    else if s == "+" then Some(Bound(Id(0, 0), false, false, true))
    else if s[0] == '(' && !isStart then None
    else
      var t := if s[0] == '(' then s[1..] else s;
      if t == "" then None
      else if FindDash(t) == |t| then
        var ms := ParseUint(t);
        if ms.None? then None
        else Some(Bound(Id(ms.value, if isStart then 0 else MAX_UINT64), s[0] == '(', false, false))
      else
        var id := ParseID(t);
        if id.None? then None else Some(Bound(id.value, s[0] == '(', false, false))
  }

  lemma {:induction false} FormatShape(id: Id)
    ensures FindDash(FormatID(id)) == |Itoa(id.ms)|
    ensures FindDash(Itoa(id.ms)) == |Itoa(id.ms)|
    ensures Itoa(id.ms)[0] != '(' && FormatID(id)[0] != '('
  {
    ItoaValue(id.ms);
    ItoaValue(id.no);
    var s := FormatID(id);
    assert s[|Itoa(id.ms)|] == '-';
    assert forall k :: 0 <= k < |Itoa(id.ms)| ==> s[k] == Itoa(id.ms)[k];
  }

  /** An id survives being written and parsed. */
  lemma {:induction false} IdRoundTrip(id: Id)
    ensures ParseID(FormatID(id)) == Some(id)
  {
    FormatShape(id);
    var s, n := FormatID(id), |Itoa(id.ms)|;
    assert s[..n] == Itoa(id.ms) && s[n + 1..] == Itoa(id.no);
    DecimalRoundTrip(id.ms);
    DecimalRoundTrip(id.no);
  }

  /** What a written id means as a bound: inclusive as it stands, exclusive behind a parenthesis, which only a start takes. */
  lemma {:induction false} IdBound(id: Id, x: Id, isStart: bool)
    ensures var b := ParseBound(FormatID(id), isStart);
            b.Some? && (!Below(b.value, x) <==> !Less(x, id)) && (!Above(b.value, x) <==> !Less(id, x))
    ensures ParseBound("(" + FormatID(id), false).None?
    ensures var b := ParseBound("(" + FormatID(id), true); b.Some? && (!Below(b.value, x) <==> Less(id, x))
  {
    FormatShape(id);
    IdRoundTrip(id);
    assert ("(" + FormatID(id))[1..] == FormatID(id);
  }

  /** A bound of bare milliseconds takes in the whole millisecond, on either side. */
  lemma {:induction false} MillisBound(ms: uint64, x: Id)
    ensures var b := ParseBound(Itoa(ms), true); b.Some? && (!Below(b.value, x) <==> ms <= x.ms)
    ensures var b := ParseBound(Itoa(ms), false); b.Some? && (!Above(b.value, x) <==> x.ms <= ms)
  {
    FormatShape(Id(ms, 0));
    ItoaValue(ms);
    DecimalRoundTrip(ms);
    assert IsDigit(Itoa(ms)[0]);
  }

  // ---------------------------------------------------------------- the log in place

  ghost function Prepend(es: seq<Entry>, rest: Option<seq<Entry>>): Option<seq<Entry>>
  {
    if rest.None? then None else Some(es + rest.value)
  }

  lemma {:induction false} PrependNothing(rest: Option<seq<Entry>>)
    ensures Prepend([], rest) == rest
  {
    if rest.Some? {
      assert [] + rest.value == rest.value;
    }
  }

  class Log {
    var lastMs: uint64
    var lastSeq: uint64
    var entries: seq<Entry>

    ghost function Snapshot(): State
      reads this
    {
      State(Id(lastMs, lastSeq), entries)
    }

    constructor ()
      ensures Snapshot() == State(Id(0, 0), [])
    {
      lastMs, lastSeq, entries := 0, 0, [];
    }

    method Append(payload: Bytes, now: uint64, autoTrim: int) returns (id: Option<string>)
      modifies this
      ensures Snapshot() == Appended(old(Snapshot()), payload, now, autoTrim)
      ensures id == if Full(old(Snapshot()), autoTrim) then None else Some(FormatID(Snapshot().last))
    {
      if autoTrim <= 0 && |entries| >= HARD_CAP {
        return None;
      }
      var minted := Mint(Id(lastMs, lastSeq), now);
      entries := entries + [Entry(minted, payload)];
      lastMs, lastSeq := minted.ms, minted.no;
      if autoTrim > 0 {
        Trim(autoTrim);
      }
      if |entries| > HARD_CAP {
        Trim(HARD_CAP);
      }
      id := Some(FormatID(minted));
    }

    method Trim(maxLen: int)
      modifies this
      ensures Snapshot() == old(Snapshot()).(entries := Trimmed(old(entries), maxLen))
    {
      if maxLen < 0 {
        return;
      }
      if maxLen == 0 {
        entries := [];
        return;
      }
      if |entries| > maxLen {
        entries := entries[|entries| - maxLen..];
      }
    }

    method Del(id: Id)
      modifies this
      ensures Snapshot() == old(Snapshot()).(entries := Without(old(entries), id))
    {
      var out := [];
      for i := 0 to |entries|
        invariant entries == old(entries) && lastMs == old(lastMs) && lastSeq == old(lastSeq)
        invariant out == Without(entries[..i], id)
      {
        assert entries[..i + 1][..i] == entries[..i];
        if entries[i].id != id {
          out := out + [entries[i]];
        }
      }
      assert entries[..|entries|] == entries;
      entries := out;
    }

    static method ScanForward(es: seq<Entry>, start: Bound, end: Bound, c: nat) returns (out: seq<Entry>)
      ensures out == Take(Select(es, start, end), c)
    {
      out := [];
      for i := 0 to |es|
        invariant out == Select(es[..i], start, end) && (c > 0 ==> |out| < c)
      {
        SelectNext(es, i, start, end);
        if !(Below(start, es[i].id) || Above(end, es[i].id)) {
          out := out + [es[i]];
          if c > 0 && |out| >= c {
            SelectStops(es, i + 1, start, end);
            return;
          }
        }
      }
      assert es[..|es|] == es;
    }

    static method ScanBackward(es: seq<Entry>, start: Bound, end: Bound, c: nat) returns (out: seq<Entry>)
      ensures out == Take(Select(Reversed(es), start, end), c)
    {
      ghost var back := Reversed(es);
      out := [];
      for i := |es| downto 0
        invariant out == Select(back[..|es| - i], start, end) && (c > 0 ==> |out| < c)
      {
        ghost var n := |es| - 1 - i;
        SelectNext(back, n, start, end);
        assert back[n] == es[i];
        if !(Below(start, es[i].id) || Above(end, es[i].id)) {
          out := out + [es[i]];
          if c > 0 && |out| >= c {
            SelectStops(back, n + 1, start, end);
            return;
          }
        }
      }
      assert back[..|es|] == back;
    }

    method Range(start: Bound, end: Bound, count: int, rev: bool) returns (out: seq<Entry>)
      ensures out == Ranged(entries, start, end, count, rev)
    {
      var c := ClampCount(count);
      if !rev {
        out := ScanForward(entries, start, end, c);
      } else {
        out := ScanBackward(entries, start, end, c);
      }
    }

    method Encode() returns (buf: Bytes)
      ensures buf == EncodeState(Snapshot())
    {
      buf := [83] + PutUvarint(lastMs) + PutUvarint(lastSeq) + PutUvarint(|entries|);
      ghost var head := buf;
      for i := 0 to |entries|
        invariant buf + EncodeEntries(entries[i..]) == head + EncodeEntries(entries)
      {
        assert entries[i..][1..] == entries[i + 1..];
        ghost var e := EncodeEntry(entries[i]);
        assert buf + (e + EncodeEntries(entries[i + 1..])) == (buf + e) + EncodeEntries(entries[i + 1..]);
        buf := buf + EncodeEntry(entries[i]);
      }
      assert buf + [] == buf;
    }
  }

  method DecodeSnapshot(blob: Bytes) returns (l: Log?)
    ensures l == null <==> Decode(blob).None?
    ensures l != null ==> fresh(l) && l.Snapshot() == Decode(blob).value
  {
    if |blob| < 1 || blob[0] != 83 {
      return null;
    }
    var ms := TakeUvarint(blob[1..]);
    if ms.Short? {
      return null;
    }
    var no := TakeUvarint(ms.rest);
    if no.Short? {
      return null;
    }
    var n := TakeUvarint(no.rest);
    if n.Short? || n.value > HARD_CAP {
      return null;
    }
    var es, ok := ReadEntries(n.rest, n.value);
    if !ok {
      return null;
    }
    l := new Log();
    l.lastMs, l.lastSeq, l.entries := ms.value, no.value, es;
  }

  lemma {:induction false} ReadOne(es: seq<Entry>, p: Bytes, k: nat)
    requires k > 0
    ensures var e := TakeEntry(p);
            Prepend(es, TakeEntries(p, k)) ==
            if e.Short? then None else Prepend(es + [e.value], TakeEntries(e.rest, k - 1))
  {
    var e := TakeEntry(p);
    if e.Took? && TakeEntries(e.rest, k - 1).Some? {
      var rest := TakeEntries(e.rest, k - 1).value;
      assert es + ([e.value] + rest) == es + [e.value] + rest;
    }
  }

  /** The loop of DecodeSnapshot and its check that nothing is left over. */
  method ReadEntries(b: Bytes, n: nat) returns (es: seq<Entry>, ok: bool)
    ensures TakeEntries(b, n) == if ok then Some(es) else None
  {
    var p := b;
    es := [];
    PrependNothing(TakeEntries(b, n));
    for i := 0 to n
      invariant TakeEntries(b, n) == Prepend(es, TakeEntries(p, n - i))
    {
      ReadOne(es, p, n - i);
      var e := TakeEntry(p);
      if e.Short? {
        return [], false;
      }
      p := e.rest;
      es := es + [e.value];
    }
    assert es + [] == es;
    ok := p == [];
  }
}
