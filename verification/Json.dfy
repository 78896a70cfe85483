/** JSON documents and their path edits (jsonx), as functions on values, with the laws that tie Get, Set and Del. */
module Json {
  import opened Basics
  import opened Uvarint

  datatype Name = Name(text: string)

  datatype Doc =
    | Null
    | Bool(b: bool)
    | Number(literal: string)
    | Text(s: string)
    | Obj(fields: map<Name, Doc>)
    | Arr(elems: seq<Doc>)

  datatype Seg = Key(key: Name) | Index(index: int)

  type Path = seq<Seg>

  datatype Error = ErrType | ErrIndex

  datatype Edit = Done(doc: Doc) | Failed(error: Error)

  // ---------------------------------------------------------------- one level of a document

  /** The node one segment below doc. */
  function Child(doc: Doc, seg: Seg): Option<Doc>
  {
    match seg
    case Key(k) => if doc.Obj? && k in doc.fields then Some(doc.fields[k]) else None
    case Index(n) => if doc.Arr? && 0 <= n < |doc.elems| then Some(doc.elems[n]) else None
  }

  /** seg names a new field of an object, or the slot one past the end of an array. */
  predicate Opens(doc: Doc, seg: Seg)
  {
    match seg
    case Key(k) => doc.Obj? && k !in doc.fields
    case Index(n) => doc.Arr? && n == |doc.elems|
  }

  predicate Writable(doc: Doc, seg: Seg) { Child(doc, seg).Some? || Opens(doc, seg) }

  /** doc with c at seg. */
  function Put(doc: Doc, seg: Seg, c: Doc): Doc
    requires Writable(doc, seg)
  {
    match seg
    case Key(k) => Obj(doc.fields[k := c])
    case Index(n) => if n == |doc.elems| then Arr(doc.elems + [c]) else Arr(doc.elems[n := c])
  }

  /** doc without the node at seg. */
  function Cut(doc: Doc, seg: Seg): Doc
    requires Child(doc, seg).Some?
  {
    match seg
    case Key(k) => Obj(doc.fields - {k})
    case Index(n) => Arr(doc.elems[..n] + doc.elems[n + 1..])
  }

  lemma {:induction false} ChildPut(doc: Doc, s: Seg, c: Doc, t: Seg)
    requires Writable(doc, s)
    ensures Child(Put(doc, s, c), t) == if t == s then Some(c) else Child(doc, t)
  {
    match s {
      case Key(_) =>
      case Index(n) =>
        if t.Index? && n == |doc.elems| && 0 <= t.index < n {
          assert (doc.elems + [c])[t.index] == doc.elems[t.index];
        }
    }
  }

  lemma {:induction false} PutAgain(doc: Doc, s: Seg, c: Doc, d: Doc)
    requires Writable(doc, s)
    ensures Child(Put(doc, s, c), s) == Some(c)
    ensures Put(Put(doc, s, c), s, d) == Put(doc, s, d)
    ensures Child(doc, s) == Some(c) ==> Put(doc, s, c) == doc
    ensures Opens(doc, s) ==> Cut(Put(doc, s, c), s) == doc
  {
    ChildPut(doc, s, c, s);
    match s {
      case Key(k) =>
        assert doc.fields[k := c][k := d] == doc.fields[k := d];
        if k in doc.fields && doc.fields[k] == c {
          assert doc.fields[k := c] == doc.fields;
        }
        if k !in doc.fields {
          assert doc.fields[k := c] - {k} == doc.fields;
        }
      case Index(n) =>
        if n == |doc.elems| {
          assert (doc.elems + [c])[n := d] == doc.elems + [d];
          assert (doc.elems + [c])[..n] + (doc.elems + [c])[n + 1..] == doc.elems;
        } else {
          assert doc.elems[n := c][n := d] == doc.elems[n := d];
          if doc.elems[n] == c {
            assert doc.elems[n := c] == doc.elems;
          }
        }
    }
  }

  lemma {:induction false} PutsCommute(doc: Doc, s: Seg, c: Doc, t: Seg, d: Doc)
    requires s != t && Writable(doc, s) && Writable(doc, t)
    ensures Writable(Put(doc, s, c), t) && Writable(Put(doc, t, d), s)
    ensures Put(Put(doc, s, c), t, d) == Put(Put(doc, t, d), s, c)
  {
    ChildPut(doc, s, c, t);
    ChildPut(doc, t, d, s);
    match s {
      case Key(k) =>
        assert doc.fields[k := c][t.key := d] == doc.fields[t.key := d][k := c];
      case Index(n) =>
        if n == |doc.elems| {
          assert (doc.elems + [c])[t.index := d] == doc.elems[t.index := d] + [c];
        } else if t.index == |doc.elems| {
          assert (doc.elems + [d])[n := c] == doc.elems[n := c] + [d];
        } else {
          assert doc.elems[n := c][t.index := d] == doc.elems[t.index := d][n := c];
        }
    }
  }

  // ---------------------------------------------------------------- Get

  function Get(doc: Doc, p: Path): (r: Option<Doc>)
    decreases |p|
  {
    if p == [] then Some(doc)
    else if Child(doc, p[0]).None? then None
    else Get(Child(doc, p[0]).value, p[1..])
  }

  lemma {:induction false} GetAppend(doc: Doc, p: Path, q: Path)
    ensures Get(doc, p + q) == if Get(doc, p).None? then None else Get(Get(doc, p).value, q)
    decreases |p|
  {
    if p == [] {
      assert p + q == q;
    } else {
      assert (p + q)[1..] == p[1..] + q;
      if Child(doc, p[0]).Some? {
        GetAppend(Child(doc, p[0]).value, p[1..], q);
      }
    }
  }

  /** The walk of Get. */
  method Walk(doc: Doc, p: Path) returns (v: Doc, ok: bool)
    ensures Get(doc, p) == if ok then Some(v) else None
  {
    v, ok := doc, true;
    for i := 0 to |p|
      invariant ok
      invariant Get(doc, p) == Get(v, p[i..])
    {
      var s := p[i];
      assert p[i..][1..] == p[i + 1..];
      if s.Index? {
        if !v.Arr? || s.index < 0 || s.index >= |v.elems| {
          return Null, false;
        }
        v := v.elems[s.index];
      } else {
        if !v.Obj? || s.key !in v.fields {
          return Null, false;
        }
        v := v.fields[s.key];
      }
    }
  }

  // ---------------------------------------------------------------- Set

  function CreatePath(p: Path, val: Doc): Edit
    decreases |p|
  {
    if p == [] then Done(val)
    else if p[0].Index? then Failed(ErrType)
    else
      var child := CreatePath(p[1..], val);
      if child.Failed? then child else Done(Obj(map[p[0].key := child.doc]))
  }

  function SetRec(cur: Doc, p: Path, val: Doc): Edit
    requires p != []
    decreases |p|
  {
    var seg, rest := p[0], p[1..];
    if seg.Index? then
      if !cur.Arr? then Failed(ErrType)
      else if seg.index < 0 then Failed(ErrIndex)
      else if seg.index < |cur.elems| then
        if rest == [] then Done(Arr(cur.elems[seg.index := val]))
        else
          var child := SetRec(cur.elems[seg.index], rest, val);
          if child.Failed? then child else Done(Arr(cur.elems[seg.index := child.doc]))
      else if seg.index == |cur.elems| then
        if rest == [] then Done(Arr(cur.elems + [val]))
        else
          var child := CreatePath(rest, val);
          if child.Failed? then child else Done(Arr(cur.elems + [child.doc]))
      else Failed(ErrIndex)
    else if !cur.Obj? then Failed(ErrType)
    else if rest == [] then Done(Obj(cur.fields[seg.key := val]))
    else if seg.key !in cur.fields then
      var next := CreatePath(rest, val);
      if next.Failed? then next else Done(Obj(cur.fields[seg.key := next.doc]))
    else
      var child := SetRec(cur.fields[seg.key], rest, val);
      if child.Failed? then child else Done(Obj(cur.fields[seg.key := child.doc]))
  }

  /** Clone: a copy built node by node is the document again. */
  function Clone(doc: Doc): (r: Doc)
    ensures r == doc
  {
    match doc
    case Obj(fields) =>
      var copy := map k | k in fields :: Clone(fields[k]);
      assert copy == fields;
      Obj(copy)
    case Arr(elems) =>
      var copy := seq(|elems|, i requires 0 <= i < |elems| => Clone(elems[i]));
      assert copy == elems;
      Arr(copy)
    case _ => doc
  }

  function Set(doc: Doc, p: Path, val: Doc): Edit
  {
    if p == [] then Done(val)
    else if doc.Null? then Failed(ErrType)
    else SetRec(Clone(doc), p, val)
  }

  /** The edit of the node at seg, hung back into doc. */
  function Rehang(doc: Doc, seg: Seg, child: Edit): Edit
    requires Writable(doc, seg)
  {
    if child.Failed? then child else Done(Put(doc, seg, child.doc))
  }

  /** An index past the end of an array, or below zero, as opposed to a segment of the wrong kind. */
  predicate OutOfRange(doc: Doc, seg: Seg)
  {
    seg.Index? && doc.Arr? && !(0 <= seg.index <= |doc.elems|)
  }

  /** One level of Set: go into the child, or build the rest, or fail; every law below follows this recursion. */
  lemma {:induction false} SetUnfold(doc: Doc, p: Path, val: Doc)
    requires p != []
    ensures Set(doc, p, val) ==
            if Child(doc, p[0]).Some? then Rehang(doc, p[0], Set(Child(doc, p[0]).value, p[1..], val))
            else if Opens(doc, p[0]) then Rehang(doc, p[0], CreatePath(p[1..], val))
            else Failed(if OutOfRange(doc, p[0]) then ErrIndex else ErrType)
  {
    if Child(doc, p[0]).Some? && p[1..] != [] && Child(doc, p[0]).value.Null? {
      assert SetRec(Child(doc, p[0]).value, p[1..], val) == Failed(ErrType);
    }
  }

  /** Building a path from nothing is setting it in an empty object. */
  lemma {:induction false} CreateIsSet(p: Path, val: Doc)
    requires p != []
    ensures CreatePath(p, val) == Set(Obj(map[]), p, val)
  {
    SetUnfold(Obj(map[]), p, val);
  }

  /** Every segment is an object key. */
  predicate AllKeys(p: Path) { forall i :: 0 <= i < |p| ==> p[i].Key? }

  lemma {:induction false} CreateIff(p: Path, val: Doc)
    ensures CreatePath(p, val).Done? <==> AllKeys(p)
    ensures CreatePath(p, val).Failed? ==> CreatePath(p, val).error == ErrType
    decreases |p|
  {
    if p != [] {
      CreateIff(p[1..], val);
      assert AllKeys(p) <==> p[0].Key? && AllKeys(p[1..]);
    }
  }

  lemma {:induction false} CreateReads(p: Path, val: Doc, q: Path)
    requires CreatePath(p, val).Done?
    ensures Get(CreatePath(p, val).doc, p + q) == Get(val, q)
    decreases |p|
  {
    if p == [] {
      assert p + q == q;
    } else {
      assert (p + q)[1..] == p[1..] + q;
      CreateReads(p[1..], val, q);
    }
  }

  /** After a successful Set, whatever is read at or below the path is read out of the new value. */
  lemma {:induction false} SetThenGet(doc: Doc, p: Path, val: Doc, q: Path)
    requires Set(doc, p, val).Done?
    ensures Get(Set(doc, p, val).doc, p + q) == Get(val, q)
    decreases |p|
  {
    if p == [] {
      assert p + q == q;
    } else {
      var rest := p[1..];
      assert (p + q)[1..] == rest + q;
      SetUnfold(doc, p, val);
      if Child(doc, p[0]).Some? {
        var c := Child(doc, p[0]).value;
        SetThenGet(c, rest, val, q);
        ChildPut(doc, p[0], Set(c, rest, val).doc, p[0]);
      } else {
        CreateReads(rest, val, q);
        ChildPut(doc, p[0], CreatePath(rest, val).doc, p[0]);
      }
    }
  }

  /** Neither path leads through the other. */
  predicate Apart(p: Path, q: Path) { !(p <= q) && !(q <= p) }

  lemma {:induction false} ApartSplit(p: Path, q: Path)
    ensures Apart(p, q) <==> p != [] && q != [] && (p[0] == q[0] ==> Apart(p[1..], q[1..]))
  {
    if p != [] && q != [] && p[0] == q[0] {
      assert p == [p[0]] + p[1..] && q == [q[0]] + q[1..];
    }
  }

  lemma {:induction false} ApartExtend(q: Path, last: Seg, t: Path)
    ensures Apart(q + [last], t) <==> Apart(q, t) || (q <= t && |q| < |t| && t[|q|] != last)
  {
    if q <= t && |q| < |t| && t[|q|] == last {
      assert q + [last] <= t;
    }
  }

  lemma {:induction false} CreateElsewhere(p: Path, val: Doc, q: Path)
    requires CreatePath(p, val).Done? && Apart(p, q)
    ensures Get(CreatePath(p, val).doc, q) == None
    decreases |p|
  {
    ApartSplit(p, q);
    if p[0] == q[0] {
      CreateElsewhere(p[1..], val, q[1..]);
    }
  }

  /** A successful Set is invisible along every path that is not comparable with the one it wrote. */
  lemma {:induction false} SetElsewhere(doc: Doc, p: Path, val: Doc, q: Path)
    requires Set(doc, p, val).Done? && Apart(p, q)
    ensures Get(Set(doc, p, val).doc, q) == Get(doc, q)
    decreases |p|
  {
    ApartSplit(p, q);
    SetUnfold(doc, p, val);
    var rest := p[1..];
    if Child(doc, p[0]).Some? {
      var c := Child(doc, p[0]).value;
      ChildPut(doc, p[0], Set(c, rest, val).doc, q[0]);
      if p[0] == q[0] {
        SetElsewhere(c, rest, val, q[1..]);
      }
    } else {
      ChildPut(doc, p[0], CreatePath(rest, val).doc, q[0]);
      if p[0] == q[0] {
        CreateElsewhere(rest, val, q[1..]);
      }
    }
  }

  /** Writing back what was read changes nothing. */
  lemma {:induction false} SetWhatWasRead(doc: Doc, p: Path, val: Doc)
    requires Get(doc, p) == Some(val)
    ensures Set(doc, p, val) == Done(doc)
    decreases |p|
  {
    if p != [] {
      SetUnfold(doc, p, val);
      SetWhatWasRead(Child(doc, p[0]).value, p[1..], val);
      PutAgain(doc, p[0], Child(doc, p[0]).value, Null);
    }
  }

  lemma {:induction false} CreateThenSet(p: Path, val: Doc, w: Doc)
    requires CreatePath(p, val).Done?
    ensures Set(CreatePath(p, val).doc, p, w) == CreatePath(p, w)
    decreases |p|
  {
    if p != [] {
      var d := CreatePath(p, val).doc;
      SetUnfold(d, p, w);
      CreateThenSet(p[1..], val, w);
      CreateIff(p, val);
      CreateIff(p[1..], w);
      assert d.fields[p[0].key := CreatePath(p[1..], w).doc] == map[p[0].key := CreatePath(p[1..], w).doc];
    }
  }

  /** Of two writes to one path only the second counts. */
  lemma {:induction false} SetTwice(doc: Doc, p: Path, val: Doc, w: Doc)
    requires Set(doc, p, val).Done?
    ensures Set(Set(doc, p, val).doc, p, w) == Set(doc, p, w)
    ensures Set(doc, p, w).Done?
    decreases |p|
  {
    if p != [] {
      var rest := p[1..];
      SetUnfold(doc, p, val);
      SetUnfold(doc, p, w);
      SetUnfold(Set(doc, p, val).doc, p, w);
      if Child(doc, p[0]).Some? {
        var c := Child(doc, p[0]).value;
        SetTwice(c, rest, val, w);
        PutAgain(doc, p[0], Set(c, rest, val).doc, Set(c, rest, w).doc);
      } else {
        CreateIff(rest, val);
        CreateIff(rest, w);
        CreateThenSet(rest, val, w);
        PutAgain(doc, p[0], CreatePath(rest, val).doc, CreatePath(rest, w).doc);
      }
    }
  }

  lemma {:induction false} SetsCommuteHere(doc: Doc, p: Path, v: Doc, q: Path, w: Doc)
    requires p != [] && q != [] && p[0] != q[0] && Set(doc, p, v).Done? && Set(doc, q, w).Done?
    ensures Set(Set(doc, p, v).doc, q, w) == Set(Set(doc, q, w).doc, p, v)
    ensures Set(Set(doc, p, v).doc, q, w).Done?
  {
    SetBelow(doc, p, v);
    SetBelow(doc, q, w);
    PutsCommute(doc, p[0], Below(doc, p, v).doc, q[0], Below(doc, q, w).doc);
    SetBeside(doc, p, v, q, w);
    SetBeside(doc, q, w, p, v);
  }

  /** What a set makes of the child on its path. */
  function Below(doc: Doc, p: Path, val: Doc): Edit
    requires p != []
  {
    if Child(doc, p[0]).Some? then Set(Child(doc, p[0]).value, p[1..], val) else CreatePath(p[1..], val)
  }

  lemma {:induction false} SetBelow(doc: Doc, p: Path, v: Doc)
    requires p != [] && Set(doc, p, v).Done?
    ensures Below(doc, p, v).Done? && Writable(doc, p[0]) && Set(doc, p, v) == Done(Put(doc, p[0], Below(doc, p, v).doc))
  {
    SetUnfold(doc, p, v);
  }

  /** A set next to another path meets the same child as without the other. */
  lemma {:induction false} SetBeside(doc: Doc, p: Path, v: Doc, q: Path, w: Doc)
    requires p != [] && q != [] && p[0] != q[0] && Set(doc, p, v).Done? && Set(doc, q, w).Done?
    ensures var r := Set(doc, p, v).doc;
            Writable(r, q[0]) && Below(doc, q, w).Done? && Set(r, q, w) == Done(Put(r, q[0], Below(doc, q, w).doc))
  {
    SetBelow(doc, p, v);
    SetBelow(doc, q, w);
    ChildPut(doc, p[0], Below(doc, p, v).doc, q[0]);
    PutsCommute(doc, p[0], Below(doc, p, v).doc, q[0], Below(doc, q, w).doc);
    SetUnfold(Put(doc, p[0], Below(doc, p, v).doc), q, w);
  }

  lemma {:induction false} SetThrough(doc: Doc, s: Seg, a: Doc, q: Path, w: Doc)
    requires Writable(doc, s) && q != [] && q[0] == s
    ensures Set(Put(doc, s, a), q, w) == Rehang(doc, s, Set(a, q[1..], w))
  {
    SetUnfold(Put(doc, s, a), q, w);
    ChildPut(doc, s, a, s);
    if Set(a, q[1..], w).Done? {
      PutAgain(doc, s, a, Set(a, q[1..], w).doc);
    }
  }

  /** Where Set goes on below the first segment: the child, or an empty object for a path it builds. */
  lemma {:induction false} SetBase(doc: Doc, p: Path, v: Doc) returns (base: Doc)
    requires |p| > 1 && Set(doc, p, v).Done?
    ensures base == if Child(doc, p[0]).Some? then Child(doc, p[0]).value else Obj(map[])
    ensures Writable(doc, p[0]) && Set(base, p[1..], v).Done?
    ensures Set(doc, p, v) == Rehang(doc, p[0], Set(base, p[1..], v))
  {
    SetUnfold(doc, p, v);
    CreateIsSet(p[1..], v);
    base := if Child(doc, p[0]).Some? then Child(doc, p[0]).value else Obj(map[]);
  }

  /** Two writes that each succeed, along paths that are not comparable, succeed and agree in either order. */
  lemma {:induction false} SetsCommute(doc: Doc, p: Path, v: Doc, q: Path, w: Doc)
    requires Apart(p, q) && Set(doc, p, v).Done? && Set(doc, q, w).Done?
    ensures Set(Set(doc, p, v).doc, q, w) == Set(Set(doc, q, w).doc, p, v)
    ensures Set(Set(doc, p, v).doc, q, w).Done?
    decreases |p|
  {
    ApartSplit(p, q);
    if p[0] != q[0] {
      SetsCommuteHere(doc, p, v, q, w);
    } else {
      var s, p', q' := p[0], p[1..], q[1..];
      ApartSplit(p', q');
      var base := SetBase(doc, p, v);
      var base' := SetBase(doc, q, w);
      SetsCommute(base, p', v, q', w);
      SetThrough(doc, s, Set(base, p', v).doc, q, w);
      SetThrough(doc, s, Set(base, q', w).doc, p, v);
    }
  }

  // ---------------------------------------------------------------- when Set succeeds

  /** The first k segments lead to a node; then the path ends, or opens a new slot and goes on by keys alone. */
  predicate SettableAt(doc: Doc, p: Path, k: nat)
    requires k <= |p|
  {
    && Get(doc, p[..k]).Some?
    && (k < |p| ==> Opens(Get(doc, p[..k]).value, p[k]) && AllKeys(p[k + 1..]))
  }

  /** The first k segments lead to an array and the next is an index outside it. */
  predicate OutOfRangeAt(doc: Doc, p: Path, k: nat)
    requires k < |p|
  {
    Get(doc, p[..k]).Some? && OutOfRange(Get(doc, p[..k]).value, p[k])
  }

  lemma {:induction false} Descend(doc: Doc, p: Path, k: nat)
    requires k < |p|
    ensures p[..k + 1][1..] == p[1..][..k]
    ensures k + 1 < |p| ==> p[k + 1..][1..] == p[1..][k + 1..] && p[k + 1] == p[1..][k]
    ensures SettableAt(doc, p, k + 1) <==> Child(doc, p[0]).Some? && SettableAt(Child(doc, p[0]).value, p[1..], k)
    ensures k + 1 < |p| ==>
              (OutOfRangeAt(doc, p, k + 1) <==> Child(doc, p[0]).Some? && OutOfRangeAt(Child(doc, p[0]).value, p[1..], k))
  {
    assert p[..k + 1][1..] == p[1..][..k];
    if k + 1 < |p| {
      assert p[k + 2..] == p[1..][k + 1..];
    }
  }

  ghost predicate Settable(doc: Doc, p: Path) { exists k: nat :: k <= |p| && SettableAt(doc, p, k) }

  ghost predicate Misindexed(doc: Doc, p: Path) { exists k: nat :: k < |p| && OutOfRangeAt(doc, p, k) }

  lemma {:induction false} SettableUnfold(doc: Doc, p: Path)
    requires p != []
    ensures Settable(doc, p) <==>
            || (Child(doc, p[0]).Some? && Settable(Child(doc, p[0]).value, p[1..]))
            || (Opens(doc, p[0]) && AllKeys(p[1..]))
  {
    assert p[..0] == [];
    assert SettableAt(doc, p, 0) <==> Opens(doc, p[0]) && AllKeys(p[1..]);
    if Settable(doc, p) && !SettableAt(doc, p, 0) {
      var k: nat :| k <= |p| && SettableAt(doc, p, k);
      Descend(doc, p, k - 1);
    }
    if Child(doc, p[0]).Some? && Settable(Child(doc, p[0]).value, p[1..]) {
      var k: nat :| k <= |p[1..]| && SettableAt(Child(doc, p[0]).value, p[1..], k);
      Descend(doc, p, k);
    }
  }

  lemma {:induction false} MisindexedUnfold(doc: Doc, p: Path)
    requires p != []
    ensures Misindexed(doc, p) <==>
            || (Child(doc, p[0]).Some? && Misindexed(Child(doc, p[0]).value, p[1..]))
            || OutOfRange(doc, p[0])
  {
    assert p[..0] == [];
    assert OutOfRangeAt(doc, p, 0) <==> OutOfRange(doc, p[0]);
    if Misindexed(doc, p) && !OutOfRangeAt(doc, p, 0) {
      var k: nat :| k < |p| && OutOfRangeAt(doc, p, k);
      Descend(doc, p, k - 1);
    }
    if Child(doc, p[0]).Some? && Misindexed(Child(doc, p[0]).value, p[1..]) {
      var k: nat :| k < |p[1..]| && OutOfRangeAt(Child(doc, p[0]).value, p[1..], k);
      Descend(doc, p, k);
    }
  }

  /** Exactly when Set succeeds, and which of its two errors it reports otherwise. */
  lemma {:induction false} SetSucceedsIff(doc: Doc, p: Path, val: Doc)
    ensures Set(doc, p, val).Done? <==> Settable(doc, p)
    ensures Set(doc, p, val) == Failed(ErrIndex) <==> Misindexed(doc, p)
    decreases |p|
  {
    if p == [] {
      assert SettableAt(doc, p, 0);
    } else {
      SetUnfold(doc, p, val);
      SettableUnfold(doc, p);
      MisindexedUnfold(doc, p);
      CreateIff(p[1..], val);
      if Child(doc, p[0]).Some? {
        SetSucceedsIff(Child(doc, p[0]).value, p[1..], val);
      }
    }
  }

  // ---------------------------------------------------------------- no new arrays

  lemma {:induction false} CreateMakesNoArray(p: Path, val: Doc, q: Path)
    requires CreatePath(p, val).Done? && !(p <= q)
    ensures Get(CreatePath(p, val).doc, q).Some? ==> !Get(CreatePath(p, val).doc, q).value.Arr?
    decreases |p|
  {
    if q != [] && q[0] == p[0] {
      assert p == [p[0]] + p[1..] && q == [q[0]] + q[1..];
      CreateMakesNoArray(p[1..], val, q[1..]);
    }
  }

  /** Set makes no array of its own: outside the value written, what is an array now was one before. */
  lemma {:induction false} SetMakesNoArray(doc: Doc, p: Path, val: Doc, q: Path)
    requires Set(doc, p, val).Done? && !(p <= q)
    requires Get(Set(doc, p, val).doc, q).Some? && Get(Set(doc, p, val).doc, q).value.Arr?
    ensures Get(doc, q).Some? && Get(doc, q).value.Arr?
    decreases |p|
  {
    SetUnfold(doc, p, val);
    if q != [] {
      assert p == [p[0]] + p[1..] && q == [q[0]] + q[1..];
      if Child(doc, p[0]).Some? {
        var c := Child(doc, p[0]).value;
        ChildPut(doc, p[0], Set(c, p[1..], val).doc, q[0]);
        if q[0] == p[0] {
          SetMakesNoArray(c, p[1..], val, q[1..]);
        }
      } else {
        ChildPut(doc, p[0], CreatePath(p[1..], val).doc, q[0]);
        if q[0] == p[0] {
          CreateMakesNoArray(p[1..], val, q[1..]);
        }
      }
    }
  }

  // ---------------------------------------------------------------- Del

  datatype Removal = Removal(doc: Doc, ok: bool)

  function DelRec(cur: Doc, p: Path): Removal
    requires p != []
    decreases |p|
  {
    var seg, rest := p[0], p[1..];
    if seg.Index? then
      if !cur.Arr? || seg.index < 0 || seg.index >= |cur.elems| then Removal(cur, false)
      else if rest == [] then Removal(Arr(cur.elems[..seg.index] + cur.elems[seg.index + 1..]), true)
      else
        var child := DelRec(cur.elems[seg.index], rest);
        if !child.ok then Removal(cur, false) else Removal(Arr(cur.elems[seg.index := child.doc]), true)
    else if !cur.Obj? || seg.key !in cur.fields then Removal(cur, false)
    else if rest == [] then Removal(Obj(cur.fields - {seg.key}), true)
    else
      var child := DelRec(cur.fields[seg.key], rest);
      if !child.ok then Removal(cur, false) else Removal(Obj(cur.fields[seg.key := child.doc]), true)
  }

  function Del(doc: Doc, p: Path): Removal
  {
    if p == [] then Removal(Obj(map[]), true)
    else if doc.Null? then Removal(Null, false)
    else
      var r := DelRec(Clone(doc), p);
      if !r.ok then Removal(doc, false) else r
  }

  lemma {:induction false} DelIsRec(doc: Doc, p: Path)
    requires p != []
    ensures Del(doc, p) == if DelRec(doc, p).ok then DelRec(doc, p) else Removal(doc, false)
  {
    assert Clone(doc) == doc;
  }

  /** Del removes something if and only if the path can be read, and otherwise returns the document as it was. */
  lemma {:induction false} DelIff(doc: Doc, p: Path)
    ensures Del(doc, p).ok <==> Get(doc, p).Some?
    ensures !Del(doc, p).ok ==> Del(doc, p).doc == doc
    decreases |p|
  {
    if p != [] {
      DelIsRec(doc, p);
      if Child(doc, p[0]).Some? && p[1..] != [] {
        DelIff(Child(doc, p[0]).value, p[1..]);
        DelIsRec(Child(doc, p[0]).value, p[1..]);
      }
    }
  }

  /** One level of a Del that finds its node: cut it here, or go on below. */
  lemma {:induction false} DelUnfold(doc: Doc, q: Path, last: Seg)
    requires Get(doc, q + [last]).Some?
    ensures q == [] ==> Child(doc, last).Some? && Del(doc, q + [last]) == Removal(Cut(doc, last), true)
    ensures q != [] ==>
              && Child(doc, q[0]).Some? && (q + [last])[1..] == q[1..] + [last]
              && Get(Child(doc, q[0]).value, q[1..] + [last]).Some?
              && Del(doc, q + [last]) == Removal(Put(doc, q[0], Del(Child(doc, q[0]).value, q[1..] + [last]).doc), true)
  {
    var p := q + [last];
    DelIff(doc, p);
    if q == [] {
      assert p == [last];
    } else {
      assert p[0] == q[0] && p[1..] == q[1..] + [last];
      DelIff(Child(doc, q[0]).value, p[1..]);
    }
  }

  /** Del takes one node out of its parent, and paths that do not lead to the parent do not notice. */
  lemma {:induction false} DelCuts(doc: Doc, q: Path, last: Seg, t: Path)
    requires Get(doc, q + [last]).Some?
    ensures Get(doc, q).Some? && Child(Get(doc, q).value, last).Some?
    ensures Get(Del(doc, q + [last]).doc, q + t) == Get(Cut(Get(doc, q).value, last), t)
    ensures Apart(q, t) ==> Get(Del(doc, q + [last]).doc, t) == Get(doc, t)
    decreases |q|
  {
    DelUnfold(doc, q, last);
    if q == [] {
      assert q + t == t;
    } else {
      var c := Child(doc, q[0]).value;
      var c' := Del(c, q[1..] + [last]).doc;
      assert (q + t)[1..] == q[1..] + t;
      DelCuts(c, q[1..], last, t);
      ChildPut(doc, q[0], c', q[0]);
      ApartSplit(q, t);
      if Apart(q, t) {
        ChildPut(doc, q[0], c', t[0]);
        if q[0] == t[0] {
          DelCuts(c, q[1..], last, t[1..]);
        }
      }
    }
  }

  lemma {:induction false} ChildCut(doc: Doc, last: Seg, s: Seg)
    requires Child(doc, last).Some?
    ensures last.Key? ==> Child(Cut(doc, last), s) == if s == last then None else Child(doc, s)
    ensures last.Index? && s.Index? ==>
              Child(Cut(doc, last), s) == Child(doc, if s.index < last.index then s else Index(s.index + 1))
    ensures last.Index? && s.Key? ==> Child(Cut(doc, last), s) == None && Child(doc, s) == None
  {
    if last.Index? && s.Index? && 0 <= s.index < |doc.elems| - 1 {
      var n := last.index;
      assert (doc.elems[..n] + doc.elems[n + 1..])[s.index] ==
             if s.index < n then doc.elems[s.index] else doc.elems[s.index + 1];
    }
  }

  /** Deleting an object key makes it absent, with all below it, and leaves every other path alone. */
  lemma {:induction false} DelKey(doc: Doc, q: Path, k: Name, t: Path)
    requires Get(doc, q + [Key(k)]).Some?
    ensures Get(Del(doc, q + [Key(k)]).doc, q + [Key(k)] + t) == None
    ensures Apart(q + [Key(k)], t) ==> Get(Del(doc, q + [Key(k)]).doc, t) == Get(doc, t)
  {
    var last := Key(k);
    assert q + [last] + t == q + ([last] + t);
    DelCuts(doc, q, last, [last] + t);
    ChildCut(Get(doc, q).value, last, last);
    if Apart(q + [last], t) {
      ApartExtend(q, last, t);
      if q <= t {
        var u := t[|q|..];
        assert t == q + u;
        DelCuts(doc, q, last, u);
        ChildCut(Get(doc, q).value, last, u[0]);
        GetAppend(doc, q, u);
      } else {
        DelCuts(doc, q, last, t);
      }
    }
  }

  /** Deleting an array index moves every later element down by one, and leaves paths off that array alone. */
  lemma {:induction false} DelIndex(doc: Doc, q: Path, n: int, m: int, t: Path)
    requires Get(doc, q + [Index(n)]).Some?
    ensures Get(Del(doc, q + [Index(n)]).doc, q + ([Index(m)] + t)) ==
            Get(doc, q + ([Index(if m < n then m else m + 1)] + t))
    ensures Apart(q, t) ==> Get(Del(doc, q + [Index(n)]).doc, t) == Get(doc, t)
    ensures Get(doc, q).Some? && Get(doc, q).value.Arr?
    ensures Get(Del(doc, q + [Index(n)]).doc, q).Some? && Get(Del(doc, q + [Index(n)]).doc, q).value.Arr?
    ensures |Get(Del(doc, q + [Index(n)]).doc, q).value.elems| == |Get(doc, q).value.elems| - 1
  {
    var last := Index(n);
    DelCuts(doc, q, last, t);
    DelCuts(doc, q, last, [Index(m)] + t);
    DelCuts(doc, q, last, []);
    assert q + [] == q;
    ChildCut(Get(doc, q).value, last, Index(m));
    var m' := if m < n then m else m + 1;
    GetAppend(doc, q, [Index(m')] + t);
    assert ([Index(m)] + t)[1..] == t && ([Index(m')] + t)[1..] == t;
  }

  lemma {:induction false} SetOpens(doc: Doc, q: Path, last: Seg, v: Doc)
    requires Get(doc, q).Some? && Writable(Get(doc, q).value, last)
    ensures q == [] ==> Set(doc, q + [last], v) == Done(Put(doc, last, v))
    ensures q != [] ==>
              && Set(Child(doc, q[0]).value, q[1..] + [last], v).Done?
              && Set(doc, q + [last], v) == Done(Put(doc, q[0], Set(Child(doc, q[0]).value, q[1..] + [last], v).doc))
    decreases |q|
  {
    var p := q + [last];
    SetUnfold(doc, p, v);
    if q == [] {
      assert p == [last];
    } else {
      assert p[1..] == q[1..] + [last];
      SetOpens(Child(doc, q[0]).value, q[1..], last, v);
    }
  }

  /** Deleting a field that was just created, or the element just appended, gives the document back. */
  lemma {:induction false} DelUndoesSet(doc: Doc, q: Path, last: Seg, v: Doc)
    requires Get(doc, q).Some? && Opens(Get(doc, q).value, last)
    ensures Set(doc, q + [last], v).Done?
    ensures Del(Set(doc, q + [last], v).doc, q + [last]) == Removal(doc, true)
    decreases |q|
  {
    SetOpens(doc, q, last, v);
    var d := Set(doc, q + [last], v).doc;
    assert q + [last] + [] == q + [last];
    SetThenGet(doc, q + [last], v, []);
    DelUnfold(d, q, last);
    if q == [] {
      PutAgain(doc, last, v, Null);
    } else {
      var c := Child(doc, q[0]).value;
      var c' := Set(c, q[1..] + [last], v).doc;
      DelUndoesSet(c, q[1..], last, v);
      PutAgain(doc, q[0], c', c);
      PutAgain(doc, q[0], c, Null);
    }
  }

  lemma {:induction false} PutUndoesCut(doc: Doc, last: Seg, v: Doc)
    requires Child(doc, last) == Some(v)
    ensures Writable(Cut(doc, last), last)
    ensures Put(Cut(doc, last), last, v) == doc <==> last.Key? || last.index == |doc.elems| - 1
  {
    match last {
      case Key(k) =>
        assert (doc.fields - {k})[k := v] == doc.fields;
      case Index(n) =>
        var rest := doc.elems[..n] + doc.elems[n + 1..];
        if n == |doc.elems| - 1 {
          assert rest + [v] == doc.elems;
        } else {
          assert |Put(Cut(doc, last), last, v).elems| == |doc.elems| - 1;
        }
    }
  }

  /** Writing the deleted value back restores the document exactly for object keys and for the last element. */
  lemma {:induction false} SetUndoesDelIff(doc: Doc, q: Path, last: Seg, v: Doc)
    requires Get(doc, q + [last]) == Some(v)
    ensures Get(doc, q).Some? && Child(Get(doc, q).value, last).Some?
    ensures Set(Del(doc, q + [last]).doc, q + [last], v).Done?
    ensures Set(Del(doc, q + [last]).doc, q + [last], v).doc == doc <==>
            last.Key? || last.index == |Get(doc, q).value.elems| - 1
    decreases |q|
  {
    DelUnfold(doc, q, last);
    DelCuts(doc, q, last, []);
    assert q + [] == q;
    var node := Get(doc, q).value;
    GetAppend(doc, q, [last]);
    PutUndoesCut(node, last, v);
    var d := Del(doc, q + [last]).doc;
    SetOpens(d, q, last, v);
    if q != [] {
      var c := Child(doc, q[0]).value;
      var c' := Del(c, q[1..] + [last]).doc;
      SetUndoesDelIff(c, q[1..], last, v);
      var c'' := Set(c', q[1..] + [last], v).doc;
      PutAgain(doc, q[0], c', c'');
      PutAgain(doc, q[0], c, Null);
      ChildPut(doc, q[0], c'', q[0]);
    }
  }

  // ---------------------------------------------------------------- the set payload

  function EncodeSet(path: Bytes, raw: Bytes): Bytes { PutUvarint(|path|) + path + raw }

  function DecodeSet(b: Bytes): Option<(Bytes, Bytes)>
  {
    var r := GetUvarint(b);
    if r.Bad? then None
    else
      var rest := b[r.width..];
      if r.value > |rest| then None else Some((rest[..r.value], rest[r.value..]))
  }

  /** A path and a raw document survive the payload, whatever bytes they hold, empty ones included. */
  lemma {:induction false} SetPayloadRoundTrip(path: Bytes, raw: Bytes)
    requires |path| <= MAX_UINT64
    ensures DecodeSet(EncodeSet(path, raw)) == Some((path, raw))
  {
    UvarintRoundTrip(|path|, path + raw);
    assert PutUvarint(|path|) + path + raw == PutUvarint(|path|) + (path + raw);
    assert EncodeSet(path, raw)[|PutUvarint(|path|)|..] == path + raw;
    assert (path + raw)[..|path|] == path && (path + raw)[|path|..] == raw;
  }
}
