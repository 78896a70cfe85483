/** Byte order, and the sort the source gets from its standard library. */
module Ordering {
  import opened Basics

  /** bytes.Compare(a, b) < 0 */
  predicate BytesLess(a: Bytes, b: Bytes)
  {
    if b == [] then false
    else if a == [] then true
    else a[0] < b[0] || (a[0] == b[0] && BytesLess(a[1..], b[1..]))
  }

  ghost predicate StrictOrder<T(!new)>(less: (T, T) -> bool)
  {
    && (forall x :: !less(x, x))
    && (forall x, y, z :: less(x, y) && less(y, z) ==> less(x, z))
    && (forall x, y :: x != y ==> less(x, y) || less(y, x))
  }

  /** No later element is less than an earlier one. */
  ghost predicate SortedBy<T(!new)>(less: (T, T) -> bool, s: seq<T>)
  {
    forall i, j :: 0 <= i < j < |s| ==> !less(s[j], s[i])
  }

  function InsertBy<T(!new)>(less: (T, T) -> bool, x: T, s: seq<T>): (r: seq<T>)
    ensures multiset(r) == multiset(s) + multiset{x}
    ensures |r| == |s| + 1
  {
    if s == [] || less(x, s[0]) then [x] + s
    else
      assert s == [s[0]] + s[1..];
      [s[0]] + InsertBy(less, x, s[1..])
  }

  /** sort.Slice: a permutation, arranged by `less`. */
  function SortBy<T(!new)>(less: (T, T) -> bool, s: seq<T>): (r: seq<T>)
    ensures multiset(r) == multiset(s)
    ensures |r| == |s|
  {
    if s == [] then []
    else
      assert s == [s[0]] + s[1..];
      InsertBy(less, s[0], SortBy(less, s[1..]))
  }

  lemma {:induction false} InsertBySorted<T(!new)>(less: (T, T) -> bool, x: T, s: seq<T>)
    requires StrictOrder(less) && SortedBy(less, s)
    ensures SortedBy(less, InsertBy(less, x, s))
  {
    if s == [] || less(x, s[0]) {
      SortedCons(less, x, s);
    } else {
      var t := InsertBy(less, x, s[1..]);
      InsertBySorted(less, x, s[1..]);
      forall j | 0 <= j < |t| ensures !less(t[j], s[0]) {
        assert t[j] in multiset(t);
        assert t[j] == x || t[j] in s[1..];
      }
      SortedCons(less, s[0], t);
    }
  }

  lemma {:induction false} SortedCons<T(!new)>(less: (T, T) -> bool, x: T, s: seq<T>)
    requires SortedBy(less, s) && forall j :: 0 <= j < |s| ==> !less(s[j], x)
    ensures SortedBy(less, [x] + s)
  {
  }

  lemma {:induction false} SortBySorted<T(!new)>(less: (T, T) -> bool, s: seq<T>)
    requires StrictOrder(less)
    ensures SortedBy(less, SortBy(less, s))
  {
    if s != [] {
      SortBySorted(less, s[1..]);
      InsertBySorted(less, s[0], SortBy(less, s[1..]));
    }
  }

  lemma {:induction false} SortedSameHead<T(!new)>(less: (T, T) -> bool, s: seq<T>, t: seq<T>)
    requires StrictOrder(less)
    requires SortedBy(less, s) && SortedBy(less, t)
    requires s != [] && t != [] && s[0] in t && t[0] in s
    ensures s[0] == t[0]
  {
    var i :| 0 <= i < |s| && s[i] == t[0];
    var j :| 0 <= j < |t| && t[j] == s[0];
  }

  lemma {:induction false} MultisetTail<T(!new)>(s: seq<T>)
    requires s != []
    ensures multiset(s[1..]) == multiset(s) - multiset{s[0]}
  {
    assert s == [s[0]] + s[1..];
  }

  lemma {:induction false} SameParts<T(!new)>(s: seq<T>, t: seq<T>)
    requires s != [] && t != [] && s[0] == t[0] && s[1..] == t[1..]
    ensures s == t
  {
    assert s == [s[0]] + s[1..] && t == [t[0]] + t[1..];
  }

  lemma {:induction false} SameSize<T(!new)>(s: seq<T>, t: seq<T>)
    requires multiset(s) == multiset(t)
    ensures |s| == |t|
  {
    assert |multiset(s)| == |multiset(t)|;
  }

  /** Two sorted arrangements of the same elements are the same sequence. */
  lemma {:induction false} SortedUnique<T(!new)>(less: (T, T) -> bool, s: seq<T>, t: seq<T>)
    requires StrictOrder(less)
    requires SortedBy(less, s) && SortedBy(less, t)
    requires multiset(s) == multiset(t)
    ensures s == t
  {
    SameSize(s, t);
    if s != [] {
      assert s[0] in multiset(t) && t[0] in multiset(s);
      SortedSameHead(less, s, t);
      MultisetTail(s);
      MultisetTail(t);
      SortedUnique(less, s[1..], t[1..]);
      SameParts(s, t);
    }
  }

  /** r lists every element of s exactly once. */
  ghost predicate Lists<T(!new)>(r: seq<T>, s: set<T>)
  {
    && NoDup(r)
    && (forall i :: 0 <= i < |r| ==> r[i] in s)
    && (forall x :: x in s ==> x in r)
  }

  /** Some listing of a finite set, in an arbitrary order (Go's map iteration). */
  ghost function ListOf<T(!new)>(s: set<T>): (r: seq<T>)
    ensures Lists(r, s)
  {
    if s == {} then []
    else
      var x :| x in s;
      ListsExtend(ListOf(s - {x}), s - {x}, x);
      ListOf(s - {x}) + [x]
  }

  lemma {:induction false} ListsExtend<T(!new)>(r: seq<T>, s: set<T>, x: T)
    requires Lists(r, s) && x !in s
    ensures Lists(r + [x], s + {x})
    ensures s == (s + {x}) - {x}
  {
  }

  /** The list without its first x. */
  function Without<T(==)>(s: seq<T>, x: T): seq<T>
  {
    if s == [] then []
    else if s[0] == x then s[1..]
    else [s[0]] + Without(s[1..], x)
  }

  lemma {:induction false} WithoutFirst<T(!new)>(s: seq<T>, i: nat, x: T)
    requires i <= |s| && x !in s[..i] && (i < |s| ==> s[i] == x)
    ensures Without(s, x) == if i < |s| then s[..i] + s[i + 1..] else s
    decreases i
  {
    if i > 0 {
      assert s[0] in s[..i];
      assert s[1..][..i - 1] == s[..i][1..];
      WithoutFirst(s[1..], i - 1, x);
      if i < |s| {
        assert s[1..][i..] == s[i + 1..] && s[..i] == [s[0]] + s[1..][..i - 1];
      }
    }
  }

  lemma {:induction false} WithoutLists<T(!new)>(s: seq<T>, keys: set<T>, x: T)
    requires Lists(s, keys)
    ensures Lists(Without(s, x), keys - {x}) && |Without(s, x)| <= |s|
    ensures x !in s ==> Without(s, x) == s
    decreases |s|
  {
    if s == [] {
      assert keys - {x} == {};
    } else {
      var h, t := s[0], s[1..];
      ListsTail(s, keys);
      if h != x {
        WithoutLists(t, keys - {h}, x);
        assert keys - {h} - {x} == keys - {x} - {h};
        ListsCons(h, Without(t, x), keys - {x});
      }
    }
  }

  lemma {:induction false} ListsTail<T(!new)>(s: seq<T>, keys: set<T>)
    requires Lists(s, keys) && s != []
    ensures Lists(s[1..], keys - {s[0]}) && s[0] in keys
  {
    forall y | y in keys - {s[0]}
      ensures y in s[1..]
    {
      assert y in s && s == [s[0]] + s[1..];
    }
  }

  lemma {:induction false} ListsCons<T(!new)>(x: T, s: seq<T>, keys: set<T>)
    requires Lists(s, keys - {x}) && x in keys
    ensures Lists([x] + s, keys)
  {
    forall y | y in keys
      ensures y in [x] + s
    {
      assert y == x || y in s;
    }
  }

  lemma {:induction false} ListsSameMultiset<T(!new)>(r: seq<T>, s: set<T>)
    requires Lists(r, s)
    ensures multiset(r) == multiset(s)
  {
    forall x ensures multiset(r)[x] == multiset(s)[x] {
      if x in s {
        var i :| 0 <= i < |r| && r[i] == x;
        assert r == r[..i] + [r[i]] + r[i + 1..];
        assert x !in r[..i] && x !in r[i + 1..];
      } else {
        assert x !in r;
      }
    }
  }

  lemma {:induction false} MultisetLists<T(!new)>(r: seq<T>, s: set<T>)
    requires multiset(r) == multiset(s)
    ensures Lists(r, s)
  {
    forall i, j | 0 <= i < j < |r| ensures r[i] != r[j] {
      assert r == r[..j] + [r[j]] + r[j + 1..];
      assert multiset(r) == multiset(r[..j]) + multiset{r[j]} + multiset(r[j + 1..]);
      assert r[i] in r[..j];
      assert multiset(s)[r[j]] <= 1;
    }
    forall i | 0 <= i < |r| ensures r[i] in s {
      assert r[i] in multiset(r);
    }
    forall x | x in s ensures x in r {
      assert x in multiset(r);
    }
  }

  /** The one sorted listing of a set. */
  ghost function Canonical<T(!new)>(less: (T, T) -> bool, s: set<T>): (r: seq<T>)
    ensures Lists(r, s)
  {
    ListsSameMultiset(ListOf(s), s);
    MultisetLists(SortBy(less, ListOf(s)), s);
    SortBy(less, ListOf(s))
  }

  /** Whatever order a set was enumerated in, sorting gives the canonical listing. */
  lemma {:induction false} SortIsCanonical<T(!new)>(less: (T, T) -> bool, t: seq<T>, s: set<T>)
    requires StrictOrder(less) && Lists(t, s)
    ensures SortBy(less, t) == Canonical(less, s)
  {
    ListsSameMultiset(t, s);
    ListsSameMultiset(ListOf(s), s);
    SortBySorted(less, t);
    SortBySorted(less, ListOf(s));
    SortedUnique(less, SortBy(less, t), Canonical(less, s));
  }

  lemma {:induction false} BytesLessTrans(a: Bytes, b: Bytes, c: Bytes)
    requires BytesLess(a, b) && BytesLess(b, c)
    ensures BytesLess(a, c)
  {
    if a != [] && a[0] == b[0] == c[0] {
      BytesLessTrans(a[1..], b[1..], c[1..]);
    }
  }

  lemma {:induction false} BytesLessTotal(a: Bytes, b: Bytes)
    ensures a != b ==> BytesLess(a, b) || BytesLess(b, a)
    ensures !(BytesLess(a, b) && BytesLess(b, a))
  {
    if a != [] && b != [] && a[0] == b[0] {
      BytesLessTotal(a[1..], b[1..]);
      assert a == [a[0]] + a[1..] && b == [b[0]] + b[1..];
    }
  }

  lemma {:induction false} BytesLessStrictOrder()
    ensures StrictOrder(BytesLess)
  {
    forall a, b ensures a != b ==> BytesLess(a, b) || BytesLess(b, a)
            ensures !(BytesLess(a, b) && BytesLess(b, a)) {
      BytesLessTotal(a, b);
    }
    forall a, b, c | BytesLess(a, b) && BytesLess(b, c) ensures BytesLess(a, c) {
      BytesLessTrans(a, b, c);
    }
  }
}
