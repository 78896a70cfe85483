/** Machine types, options, and sums over finite maps shared by the whole model. */
module Basics {

  type byte = x: int | 0 <= x < 0x100
  type uint64 = x: int | 0 <= x < 0x1_0000_0000_0000_0000
  type Bytes = seq<byte>

  const MAX_UINT64: uint64 := 0xFFFF_FFFF_FFFF_FFFF

  datatype Option<+T> = None | Some(value: T)

  function Min(a: int, b: int): int { if a < b then a else b }

  function Max(a: int, b: int): int { if a < b then b else a }

  ghost predicate NoDup<T>(s: seq<T>)
  {
    forall i, j :: 0 <= i < j < |s| ==> s[i] != s[j]
  }

  /** The sum of all values of a finite map. */
  ghost function MapSum<K(!new)>(w: map<K, int>): (total: int)
    decreases |w|
  {
    if w == map[] then 0
    else
      var k :| k in w;
      w[k] + MapSum(w - {k})
  }

  /** Any key may be taken out first: the sum does not depend on the order of enumeration. */
  lemma {:induction false} MapSumRemove<K(!new)>(w: map<K, int>, k: K)
    requires k in w
    ensures MapSum(w) == w[k] + MapSum(w - {k})
    decreases |w|
  {
    var c :| c in w && MapSum(w) == w[c] + MapSum(w - {c});
    if c != k {
      MapSumRemove(w - {c}, k);
      MapSumRemove(w - {k}, c);
      assert w - {c} - {k} == w - {k} - {c};
    }
  }

  lemma {:induction false} MapSumUpdate<K(!new)>(w: map<K, int>, k: K, v: int)
    ensures MapSum(w[k := v]) == v + MapSum(w - {k})
    ensures k in w ==> MapSum(w[k := v]) == MapSum(w) - w[k] + v
    ensures k !in w ==> MapSum(w[k := v]) == MapSum(w) + v
  {
    MapSumRemove(w[k := v], k);
    assert w[k := v] - {k} == w - {k};
    if k in w {
      MapSumRemove(w, k);
    } else {
      assert w - {k} == w;
    }
  }

  /** Keeping fewer keys of non-negative weight cannot increase the sum. */
  lemma {:induction false} MapSumSubset<K(!new)>(small: map<K, int>, big: map<K, int>)
    requires small.Keys <= big.Keys
    requires forall k :: k in small ==> small[k] <= big[k]
    requires forall k :: k in big ==> 0 <= big[k]
    ensures MapSum(small) <= MapSum(big)
    decreases |big|
  {
    if big == map[] {
      assert small == map[];
    } else {
      var k :| k in big;
      MapSumRemove(big, k);
      MapSumSubset(small - {k}, big - {k});
      if k in small {
        MapSumRemove(small, k);
      } else {
        assert small - {k} == small;
      }
    }
  }

  lemma {:induction false} OneKeyLess<K(!new)>(w: map<K, int>, k: K)
    requires k in w
    ensures |w - {k}| == |w| - 1
  {
    assert (w - {k}).Keys == w.Keys - {k};
  }

  lemma {:induction false} OneTimeMore(n: int, lo: int)
    ensures n * lo == (n - 1) * lo + lo
  {
  }

  /** A sum of n values, none below lo, is at least n * lo. */
  lemma {:induction false} MapSumLowerBound<K(!new)>(w: map<K, int>, lo: int)
    requires forall k :: k in w ==> lo <= w[k]
    ensures |w| * lo <= MapSum(w)
    decreases |w|
  {
    if w != map[] {
      var k :| k in w;
      MapSumRemove(w, k);
      OneKeyLess(w, k);
      MapSumLowerBound(w - {k}, lo);
      OneTimeMore(|w|, lo);
    }
  }
}
