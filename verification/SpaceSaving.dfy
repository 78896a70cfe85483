/**
 * pkg/topkx: the Space-Saving heavy-hitter table. A table is abstracted to the
 * map from stored items to counts; the class below refines it with slots and an
 * index, and the bounds are proved for every stream of observations.
 */
module SpaceSaving {
  import opened Basics
  import opened Ordering

  /** An observed item: a byte string. */
  datatype Term = Term(bytes: Bytes)

  type Counts = map<Term, uint64>

  /** Lowest count, ties broken by smallest item bytes. */
  predicate RanksBelow(m: Counts, x: Term, y: Term)
    requires x in m && y in m
  {
    m[x] < m[y] || (m[x] == m[y] && BytesLess(x.bytes, y.bytes))
  }

  ghost predicate IsVictim(m: Counts, v: Term)
  {
    v in m && forall y :: y in m && y != v ==> RanksBelow(m, v, y)
  }

  lemma {:induction false} VictimOfTwo(m: Counts, x: Term, w: Term)
    requires x in m && IsVictim(m - {x}, w)
    ensures IsVictim(m, if RanksBelow(m, x, w) then x else w)
  {
    BytesLessTotal(x.bytes, w.bytes);
    if RanksBelow(m, x, w) {
      forall y | y in m && y != x ensures RanksBelow(m, x, y) {
        if y != w {
          assert RanksBelow(m - {x}, w, y);
          if BytesLess(x.bytes, w.bytes) && BytesLess(w.bytes, y.bytes) { BytesLessTrans(x.bytes, w.bytes, y.bytes); }
        }
      }
    } else {
      forall y | y in m && y != w ensures RanksBelow(m, w, y) {
        if y != x { assert RanksBelow(m - {x}, w, y); }
      }
    }
  }

  lemma {:induction false} VictimUnique(m: Counts, v: Term, w: Term)
    requires IsVictim(m, v) && IsVictim(m, w)
    ensures v == w
  {
    if v != w {
      BytesLessTotal(v.bytes, w.bytes);
    }
  }

  /** The entry to replace when the table is full. */
  ghost function Victim(m: Counts): (v: Term)
    requires m != map[]
    ensures v in m
    decreases |m|
  {
    var x :| x in m;
    var rest := m - {x};
    if rest == map[] then x
    else
      var w := Victim(rest);
      if RanksBelow(m, x, w) then x else w
  }

  lemma {:induction false} VictimIsVictim(m: Counts)
    requires m != map[]
    ensures IsVictim(m, Victim(m))
    decreases |m|
  {
    var x :| x in m && Victim(m) ==
      (if m - {x} == map[] then x else if RanksBelow(m, x, Victim(m - {x})) then x else Victim(m - {x}));
    var rest := m - {x};
    if rest == map[] {
      forall y | y in m ensures y == x {
        assert y == x || y in rest.Keys;
      }
    } else {
      VictimIsVictim(rest);
      VictimOfTwo(m, x, Victim(rest));
    }
  }

  /** Table.Add on the abstract map; None is a rejected observation (empty item or overflow). */
  ghost function Add(m: Counts, k: nat, item: Term): (r: Option<Counts>)
    requires 1 <= k
  {
    if item.bytes == [] then None
    else if item in m then
      if m[item] == MAX_UINT64 then None else Some(m[item := m[item] + 1])
    else if |m| < k then Some(m[item := 1])
    else
      var v := Victim(m);
      if m[v] == MAX_UINT64 then None else Some((m - {v})[item := m[v] + 1])
  }

  // ---------------------------------------------------------------- streams

  datatype Tally = Tally(counts: Counts, accepted: seq<Term>)

  /** A table of capacity k after a stream, and the observations it accepted. */
  ghost function Run(k: nat, obs: seq<Term>): (r: Tally)
    requires 1 <= k
  {
    if obs == [] then Tally(map[], [])
    else
      var before := Run(k, obs[..|obs| - 1]);
      match Add(before.counts, k, obs[|obs| - 1])
      case None => before
      case Some(m) => Tally(m, before.accepted + [obs[|obs| - 1]])
  }

  function Freq(obs: seq<Term>, x: Term): nat { multiset(obs)[x] }

  /** The estimation error: 0 until the table is full, then its least count. */
  ghost function MinCount(m: Counts, k: nat): nat
  {
    if |m| < k || m == map[] then 0 else m[Victim(m)]
  }

  /** x's stored count is off by at most err; an unstored x occurred at most err times. */
  ghost predicate Within(m: Counts, err: nat, obs: seq<Term>, x: Term)
  {
    if x in m then Freq(obs, x) <= m[x] <= Freq(obs, x) + err else Freq(obs, x) <= err
  }

  ghost predicate Bounds(m: Counts, k: nat, obs: seq<Term>)
  {
    && |m| <= k
    && MapSum(m) == |obs|
    && (forall x :: Within(m, MinCount(m, k), obs, x))
  }

  lemma {:induction false} MinCountIsLeast(m: Counts, k: nat, x: Term)
    requires x in m
    ensures MinCount(m, k) <= m[x]
  {
    VictimIsVictim(m);
    if |m| >= k { assert x == Victim(m) || RanksBelow(m, Victim(m), x); }
  }

  /** A lower bound on every count of a full table bounds its error from below. */
  lemma {:induction false} MinCountAtLeast(m: Counts, k: nat, lo: nat)
    requires m != map[] && (|m| >= k || lo == 0)
    requires forall x :: x in m ==> lo <= m[x]
    ensures lo <= MinCount(m, k)
  {
  }

  lemma {:induction false} SumCoversMin(m: Counts, k: nat)
    requires |m| <= k
    ensures k * MinCount(m, k) <= MapSum(m)
  {
    if |m| == k && m != map[] {
      forall x | x in m ensures MinCount(m, k) <= m[x] { MinCountIsLeast(m, k, x); }
      MapSumLowerBound(m, MinCount(m, k));
    } else {
      MapSumSubset(map[], m);
    }
  }

  lemma {:induction false} FreqSnoc(obs: seq<Term>, item: Term, x: Term)
    ensures Freq(obs + [item], x) == Freq(obs, x) + if x == item then 1 else 0
  {
  }

  lemma {:induction false} BoundsHit(m: Counts, k: nat, obs: seq<Term>, item: Term)
    requires 1 <= k && Bounds(m, k, obs) && item in m && m[item] < MAX_UINT64
    ensures Bounds(m[item := m[item] + 1], k, obs + [item])
  {
    var m' := m[item := m[item] + 1];
    assert m'.Keys == m.Keys;
    assert |m'| == |m|;
    MapSumUpdate(m, item, m[item] + 1);
    forall x | x in m ensures MinCount(m, k) <= m'[x] { MinCountIsLeast(m, k, x); }
    MinCountAtLeast(m', k, MinCount(m, k));
    forall x ensures Within(m', MinCount(m', k), obs + [item], x) {
      assert Within(m, MinCount(m, k), obs, x);
      FreqSnoc(obs, item, x);
    }
  }

  lemma {:induction false} BoundsInsert(m: Counts, k: nat, obs: seq<Term>, item: Term)
    requires 1 <= k && Bounds(m, k, obs) && item !in m && |m| < k
    ensures Bounds(m[item := 1], k, obs + [item])
  {
    var m' := m[item := 1];
    assert m'.Keys == m.Keys + {item};
    assert |m'| == |m| + 1;
    MapSumUpdate(m, item, 1);
    forall x ensures Within(m', MinCount(m', k), obs + [item], x) {
      assert Within(m, MinCount(m, k), obs, x);
      FreqSnoc(obs, item, x);
    }
  }

  lemma {:induction false} ReplaceShape(m: Counts, v: Term, item: Term, n: uint64)
    requires v in m && item !in m
    ensures var m' := (m - {v})[item := n];
            && |m'| == |m|
            && MapSum(m') == MapSum(m) - m[v] + n
  {
    var m' := (m - {v})[item := n];
    assert m'.Keys == m.Keys - {v} + {item};
    assert |m'.Keys| == |m.Keys|;
    MapSumRemove(m, v);
    MapSumUpdate(m - {v}, item, n);
  }

  /** The eviction step: the newcomer inherits the victim's count, which bounds its own past. */
  lemma {:induction false} BoundsReplace(m: Counts, k: nat, obs: seq<Term>, item: Term)
    requires 1 <= k && Bounds(m, k, obs) && item !in m && |m| >= k
    requires m[Victim(m)] < MAX_UINT64
    ensures Bounds((m - {Victim(m)})[item := m[Victim(m)] + 1], k, obs + [item])
  {
    var v := Victim(m);
    var m' := (m - {v})[item := m[v] + 1];
    ReplaceShape(m, v, item, m[v] + 1);
    forall x | x in m' ensures m[v] <= m'[x] {
      if x != item { MinCountIsLeast(m, k, x); }
    }
    MinCountAtLeast(m', k, m[v]);
    forall x ensures Within(m', MinCount(m', k), obs + [item], x) {
      assert Within(m, MinCount(m, k), obs, x);
      FreqSnoc(obs, item, x);
    }
  }

  lemma {:induction false} BoundsAdd(m: Counts, k: nat, obs: seq<Term>, item: Term)
    requires 1 <= k && Bounds(m, k, obs) && Add(m, k, item).Some?
    ensures Bounds(Add(m, k, item).value, k, obs + [item])
  {
    if item in m {
      BoundsHit(m, k, obs, item);
    } else if |m| < k {
      BoundsInsert(m, k, obs, item);
    } else {
      BoundsReplace(m, k, obs, item);
    }
  }

  /**
   * After any stream: the counts sum to the number N of accepted observations,
   * every stored count is at least the item's true frequency and exceeds it by
   * at most the least count, no unstored item occurred more often than that,
   * and the least count is at most N / k.
   */
  lemma {:induction false} SpaceSavingBounds(k: nat, obs: seq<Term>)
    requires 1 <= k
    ensures var t := Run(k, obs);
            Bounds(t.counts, k, t.accepted) && k * MinCount(t.counts, k) <= |t.accepted|
    decreases |obs|
  {
    var t := Run(k, obs);
    if obs != [] {
      var item := obs[|obs| - 1];
      var before := Run(k, obs[..|obs| - 1]);
      SpaceSavingBounds(k, obs[..|obs| - 1]);
      if Add(before.counts, k, item).Some? {
        BoundsAdd(before.counts, k, before.accepted, item);
      }
    }
    SumCoversMin(t.counts, k);
  }

  /** Every item seen more than N/k times is in the table. */
  lemma {:induction false} HeavyHittersStored(k: nat, obs: seq<Term>, x: Term)
    requires 1 <= k
    requires k * Freq(Run(k, obs).accepted, x) > |Run(k, obs).accepted|
    ensures x in Run(k, obs).counts
  {
    SpaceSavingBounds(k, obs);
    var t := Run(k, obs);
    assert Within(t.counts, MinCount(t.counts, k), t.accepted, x);
    if x !in t.counts {
      MulMonotone(k, Freq(t.accepted, x), MinCount(t.counts, k));
      assert false;
    }
  }

  lemma {:induction false} MulMonotone(k: nat, a: nat, b: nat)
    requires a <= b
    ensures k * a <= k * b
  {
  }
}
