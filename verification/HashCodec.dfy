/** pkg/hashx: the wire format of a named field map. */
module HashCodec {
  import opened Basics
  import opened Ordering
  import opened Uvarint

  type Fields = map<Bytes, Bytes>

  /** A Go slice has a length that fits a machine word. */
  predicate Sized(b: Bytes) { |b| <= MAX_UINT64 }

  predicate WellSized(m: Fields)
  {
    forall f :: f in m ==> Sized(f) && Sized(m[f])
  }

  function EncodePair(f: Bytes, v: Bytes): Bytes
  {
    PutUvarint(|f|) + f + PutUvarint(|v|) + v
  }

  ghost predicate Listed(fs: seq<Bytes>, m: Fields)
  {
    forall i :: 0 <= i < |fs| ==> fs[i] in m
  }

  function EncodeList(fs: seq<Bytes>, m: Fields): (b: Bytes)
    requires Listed(fs, m)
  {
    if fs == [] then []
    else EncodePair(fs[0], m[fs[0]]) + EncodeList(fs[1..], m)
  }

  /** Hash.Encode: records in field-byte order. */
  ghost function Encode(m: Fields): (b: Bytes)
  {
    var fs := Canonical(BytesLess, m.Keys);
    EncodeList(fs, m)
  }

  datatype Chunk = Corrupt | Pair(field: Bytes, value: Bytes, rest: Bytes)

  /** One length-prefixed byte string off the front. */
  function ConsumeBytes(b: Bytes): (r: Option<(Bytes, Bytes)>)
    ensures r.Some? ==> |r.value.1| < |b| && Sized(r.value.0)
  {
    match GetUvarint(b)
    case Bad => None
    case Good(n, w) =>
      if |b[w..]| < n then None else Some((b[w..][..n], b[w..][n..]))
  }

  function ConsumePair(b: Bytes): (r: Chunk)
    ensures r.Pair? ==> |r.rest| < |b| && Sized(r.field) && Sized(r.value)
  {
    match ConsumeBytes(b)
    case None => Corrupt
    case Some((f, rest)) =>
      match ConsumeBytes(rest)
      case None => Corrupt
      case Some((v, rest')) => Pair(f, v, rest')
  }

  function DecodeInto(b: Bytes, acc: Fields): (r: Option<Fields>)
    ensures r.Some? && WellSized(acc) ==> WellSized(r.value)
    decreases |b|
  {
    if b == [] then Some(acc)
    else
      match ConsumePair(b)
      case Corrupt => None
      case Pair(f, v, rest) => DecodeInto(rest, acc[f := v])
  }

  /** hashx.Decode: later duplicates win, any malformed record rejects the blob. */
  function Decode(b: Bytes): (r: Option<Fields>)
    ensures r.Some? ==> WellSized(r.value)
  {
    DecodeInto(b, map[])
  }

  lemma {:induction false} ConsumeBytesInverts(f: Bytes, rest: Bytes)
    requires Sized(f)
    ensures ConsumeBytes(PutUvarint(|f|) + f + rest) == Some((f, rest))
  {
    var b := PutUvarint(|f|) + f + rest;
    assert b == PutUvarint(|f|) + (f + rest);
    UvarintRoundTrip(|f|, f + rest);
    assert (f + rest)[..|f|] == f && (f + rest)[|f|..] == rest;
  }

  lemma {:induction false} ConsumePairInverts(f: Bytes, v: Bytes, rest: Bytes)
    requires Sized(f) && Sized(v)
    ensures ConsumePair(EncodePair(f, v) + rest) == Pair(f, v, rest)
  {
    var tail := PutUvarint(|v|) + v + rest;
    assert EncodePair(f, v) + rest == PutUvarint(|f|) + f + tail;
    ConsumeBytesInverts(f, tail);
    ConsumeBytesInverts(v, rest);
  }

  /** acc already holds every field of m that fs does not list. */
  ghost predicate Remaining(acc: Fields, fs: seq<Bytes>, m: Fields)
  {
    && (forall f :: f in acc ==> f in m && acc[f] == m[f])
    && (forall f :: f in m ==> f in acc || f in fs)
  }

  lemma {:induction false} DecodeList(fs: seq<Bytes>, m: Fields, acc: Fields)
    requires WellSized(m) && Listed(fs, m) && Remaining(acc, fs, m)
    ensures DecodeInto(EncodeList(fs, m), acc) == Some(m)
    decreases |fs|
  {
    if fs == [] {
      assert acc.Keys == m.Keys;
      assert acc == m;
    } else {
      var f0 := fs[0];
      assert fs == [f0] + fs[1..];
      assert Sized(f0) && Sized(m[f0]);
      ConsumePairInverts(f0, m[f0], EncodeList(fs[1..], m));
      DecodeList(fs[1..], m, acc[f0 := m[f0]]);
    }
  }

  /** A field map survives encoding; so equal blobs mean equal maps. */
  lemma {:induction false} HashRoundTrip(m: Fields)
    requires WellSized(m)
    ensures Decode(Encode(m)) == Some(m)
  {
    DecodeList(Canonical(BytesLess, m.Keys), m, map[]);
  }

  ghost function SizesOf(fs: set<Bytes>, m: Fields): map<Bytes, int>
    requires fs <= m.Keys
  {
    map f | f in fs :: |EncodePair(f, m[f])|
  }

  lemma {:induction false} SizesOfAdd(fs: set<Bytes>, f0: Bytes, m: Fields)
    requires fs <= m.Keys && f0 in m && f0 !in fs
    ensures MapSum(SizesOf(fs + {f0}, m)) == MapSum(SizesOf(fs, m)) + |EncodePair(f0, m[f0])|
  {
    MapSumUpdate(SizesOf(fs, m), f0, |EncodePair(f0, m[f0])|);
    assert SizesOf(fs + {f0}, m) == SizesOf(fs, m)[f0 := |EncodePair(f0, m[f0])|];
  }

  lemma {:induction false} EncodeListSize(fs: seq<Bytes>, m: Fields)
    requires NoDup(fs) && Listed(fs, m)
    ensures |EncodeList(fs, m)| == MapSum(SizesOf((set f | f in fs), m))
    decreases |fs|
  {
    var s := set f | f in fs;
    if fs == [] {
      assert SizesOf(s, m) == map[];
    } else {
      var s' := set f | f in fs[1..];
      assert fs == [fs[0]] + fs[1..];
      assert s == s' + {fs[0]};
      EncodeListSize(fs[1..], m);
      SizesOfAdd(s', fs[0], m);
    }
  }

  /** The encoded length is the sum of the record sizes, whatever the order. */
  lemma {:induction false} EncodeSize(m: Fields)
    ensures |Encode(m)| == MapSum(SizesOf(m.Keys, m))
  {
    var fs := Canonical(BytesLess, m.Keys);
    assert (set f | f in fs) == m.Keys;
    EncodeListSize(fs, m);
  }

  /** Hash.All: enumerate the map in any order, then sort. */
  method All(m: Fields) returns (sorted: seq<Bytes>)
    ensures sorted == Canonical(BytesLess, m.Keys)
  {
    var keys: seq<Bytes> := [];
    var left := m.Keys;
    while left != {}
      invariant left <= m.Keys
      invariant Lists(keys, m.Keys - left)
      decreases left
    {
      var k :| k in left;
      ListsExtend(keys, m.Keys - left, k);
      assert m.Keys - (left - {k}) == (m.Keys - left) + {k};
      keys := keys + [k];
      left := left - {k};
    }
    assert m.Keys - left == m.Keys;
    sorted := SortBy(BytesLess, keys);
    BytesLessStrictOrder();
    SortIsCanonical(BytesLess, keys, m.Keys);
  }

  method WriteRecords(fs: seq<Bytes>, m: Fields) returns (buf: Bytes)
    requires Listed(fs, m)
    ensures buf == EncodeList(fs, m)
  {
    buf := [];
    for i := 0 to |fs|
      invariant buf + EncodeList(fs[i..], m) == EncodeList(fs, m)
    {
      var f, v := fs[i], m[fs[i]];
      EncodeListStep(fs, i, m);
      buf := buf + (PutUvarint(|f|) + f + PutUvarint(|v|) + v);
    }
  }

  /** Hash.Encode: the records in field-byte order. */
  method EncodeFields(m: Fields) returns (buf: Bytes)
    ensures buf == Encode(m)
  {
    var sorted := All(m);
    buf := WriteRecords(sorted, m);
  }

  lemma {:induction false} EncodeListStep(fs: seq<Bytes>, i: nat, m: Fields)
    requires i < |fs| && Listed(fs, m)
    ensures EncodeList(fs[i..], m) == EncodePair(fs[i], m[fs[i]]) + EncodeList(fs[i + 1..], m)
  {
    assert fs[i..][1..] == fs[i + 1..];
  }

  /** hashx.Decode as the source's consuming loop. */
  method DecodeFields(b: Bytes) returns (r: Option<Fields>)
    ensures r == Decode(b)
  {
    var h: Fields := map[];
    var left := b;
    while left != []
      invariant DecodeInto(left, h) == Decode(b)
      decreases |left|
    {
      var c := ConsumePair(left);
      if c.Corrupt? {
        return None;
      }
      h := h[c.field := c.value];
      left := c.rest;
    }
    r := Some(h);
  }

  method SumRecordSizes(m: Fields) returns (n: int)
    requires WellSized(m)
    ensures n == MapSum(SizesOf(m.Keys, m))
  {
    n := 0;
    var left := m.Keys;
    assert SizesOf(m.Keys - left, m) == map[];
    while left != {}
      invariant left <= m.Keys
      invariant n == MapSum(SizesOf(m.Keys - left, m))
      decreases left
    {
      var k :| k in left;
      assert MapSum(SizesOf(m.Keys - (left - {k}), m)) == n + |EncodePair(k, m[k])| by {
        SizesOfAdd(m.Keys - left, k, m);
        assert m.Keys - left + {k} == m.Keys - (left - {k});
      }
      var nk := UvarintSize(|k|);
      var nv := UvarintSize(|m[k]|);
      n := n + nk + |k| + nv + |m[k]|;
      left := left - {k};
    }
    assert m.Keys - left == m.Keys;
  }

  /** Hash.ApproxWireBytes: despite its name, exactly the encoded length. */
  method ApproxWireBytes(m: Fields) returns (n: int)
    requires WellSized(m)
    ensures n == |Encode(m)|
  {
    n := SumRecordSizes(m);
    EncodeSize(m);
  }
}
