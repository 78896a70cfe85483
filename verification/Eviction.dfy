/** What eviction removes, stated without reference to how the loop finds its victims. */
module Eviction {
  import opened Basics
  import opened Ordering
  import opened Entries
  import opened Stores

  ghost predicate Evictable(s: Store, k: Key, now: int)
  {
    k in s.items && !s.items[k].entry.Protected(now)
  }

  ghost predicate Gone(s: Store, r: Store, k: Key) { k in s.items && k !in r.items }

  /** x went, and everything else that went was less recent than x. */
  ghost predicate LastToGo(s: Store, r: Store, x: Key)
  {
    && Gone(s, r, x)
    && (forall y :: Gone(s, r, y) && y != x ==> Older(s.order, y, x))
  }

  /** r is s without the shortest least-recent run of evictable entries that meets the budget. */
  ghost predicate MinimalEviction(s: Store, r: Store, now: int)
  {
    // only evictable entries go, and the rest is untouched
    && r.items.Keys <= s.items.Keys
    && (forall k :: k in r.items ==> r.items[k] == s.items[k])
    && (forall k :: Gone(s, r, k) ==> Evictable(s, k, now))
    // least recent first
    && (forall a, b :: Evictable(s, a, now) && Older(s.order, a, b) && Gone(s, r, b) ==> Gone(s, r, a))
    // the budget is met, or nothing evictable is left
    && (s.maxBytes <= 0 || r.bytes <= s.maxBytes || forall k :: k in r.items ==> !Evictable(s, k, now))
    // and the last one to go had to go
    && (forall x :: LastToGo(s, r, x) ==> 0 < s.maxBytes < r.bytes + s.items[x].cost)
    // survivors keep their relative recency
    && (forall a, b :: a in r.items && b in r.items ==> (Older(r.order, a, b) <==> Older(s.order, a, b)))
  }

  lemma {:induction false} VictimIsOldest(s: Store, now: int, a: Key)
    requires Valid(s)
    requires VictimIndex(s.items, s.order, now) >= 0
    requires Evictable(s, a, now)
    ensures var v := s.order[VictimIndex(s.items, s.order, now)];
            a == v || Older(s.order, v, a)
  {
    var i := VictimIndex(s.items, s.order, now);
    var j :| 0 <= j < |s.order| && s.order[j] == a;
    assert j <= i;
  }

  lemma {:induction false} NotOlderThanItself(s: Store, a: Key, b: Key)
    requires Valid(s) && Older(s.order, a, b)
    ensures a != b && !Older(s.order, b, a)
  {
  }

  /** v is the next victim of s, and r is what is left of s without v. */
  ghost predicate Stepped(s: Store, v: Key, r: Store, now: int)
  {
    && Valid(s) && Valid(r) && s.maxBytes > 0 && s.bytes > s.maxBytes
    && Evictable(s, v, now)
    && (forall a :: Evictable(s, a, now) ==> a == v || Older(s.order, v, a))
    && Valid(Remove(s, v))
    && MinimalEviction(Remove(s, v), r, now)
  }

  lemma {:induction false} StepKeepsOlder(s: Store, v: Key, a: Key, b: Key)
    requires v in s.items && a != v && b != v
    ensures Older(Remove(s, v).order, a, b) <==> Older(s.order, a, b)
  {
    WithoutKeepsOrder(s.order, v, a, b);
  }

  lemma {:induction false} StepOldestFirst(s: Store, v: Key, r: Store, now: int, a: Key, b: Key)
    requires Stepped(s, v, r, now)
    requires Evictable(s, a, now) && Older(s.order, a, b) && Gone(s, r, b)
    ensures Gone(s, r, a)
  {
    if a != v {
      if b == v {
        NotOlderThanItself(s, a, b);
        assert false;
      }
      StepKeepsOlder(s, v, a, b);
      assert Evictable(Remove(s, v), a, now) && Gone(Remove(s, v), r, b);
    }
  }

  lemma {:induction false} StepLastToGo(s: Store, v: Key, r: Store, now: int, x: Key)
    requires Stepped(s, v, r, now) && LastToGo(s, r, x)
    ensures s.maxBytes < r.bytes + s.items[x].cost
  {
    var s1 := Remove(s, v);
    if x == v {
      forall y ensures !Gone(s1, r, y) {
        if Gone(s1, r, y) {
          assert Gone(s, r, y) && Evictable(s, y, now);
          NotOlderThanItself(s, v, y);
          assert false;
        }
      }
      NothingGone(s1, r, now);
    } else {
      forall y | Gone(s1, r, y) && y != x ensures Older(s1.order, y, x) {
        assert Gone(s, r, y);
        StepKeepsOlder(s, v, y, x);
      }
      assert LastToGo(s1, r, x);
    }
  }

  /** An eviction that removed nothing left the store's items alone. */
  lemma {:induction false} NothingGone(s: Store, r: Store, now: int)
    requires MinimalEviction(s, r, now)
    requires forall y :: !Gone(s, r, y)
    ensures r.items == s.items
  {
    forall k | k in s.items ensures k in r.items { assert !Gone(s, r, k); }
    assert r.items.Keys == s.items.Keys;
  }

  /** Removing the oldest evictable entry and then evicting minimally is minimal. */
  lemma {:induction false} MinimalEvictionStep(s: Store, v: Key, r: Store, now: int)
    requires Stepped(s, v, r, now)
    ensures MinimalEviction(s, r, now)
  {
    var s1 := Remove(s, v);
    forall a, b | Evictable(s, a, now) && Older(s.order, a, b) && Gone(s, r, b) ensures Gone(s, r, a) {
      StepOldestFirst(s, v, r, now, a, b);
    }
    forall x | LastToGo(s, r, x) ensures s.maxBytes < r.bytes + s.items[x].cost {
      StepLastToGo(s, v, r, now, x);
    }
    forall a, b | a in r.items && b in r.items ensures Older(r.order, a, b) <==> Older(s.order, a, b) {
      StepKeepsOlder(s, v, a, b);
    }
    forall k | Gone(s, r, k) ensures Evictable(s, k, now) {
      assert k == v || Gone(s1, r, k);
    }
    if r.bytes > s.maxBytes {
      forall k | k in r.items ensures !Evictable(s, k, now) {
        assert !Evictable(s1, k, now);
      }
    }
  }

  /** evictLocked removes exactly the shortest least-recent run of evictable entries. */
  lemma {:induction false} EvictIsMinimal(s: Store, now: int)
    requires Valid(s)
    ensures MinimalEviction(s, Evict(s, now), now)
    decreases |s.items|
  {
    if s.maxBytes > 0 && s.bytes > s.maxBytes {
      var i := VictimIndex(s.items, s.order, now);
      if i >= 0 {
        var v := s.order[i];
        RemoveValid(s, v);
        EvictIsMinimal(Remove(s, v), now);
        EvictValid(Remove(s, v), now);
        forall a | Evictable(s, a, now) ensures a == v || Older(s.order, v, a) {
          VictimIsOldest(s, now, a);
        }
        MinimalEvictionStep(s, v, Evict(s, now), now);
      }
    }
  }

  // ---------------------------------------------------------------- survival of a new entry

  ghost function ProtectedCosts(s: Store, now: int): map<Key, int>
  {
    map k | k in s.items && s.items[k].entry.Protected(now) :: s.items[k].cost
  }

  /** The bytes that no eviction at this time can reclaim. */
  ghost function ProtectedBytes(s: Store, now: int): int { MapSum(ProtectedCosts(s, now)) }

  lemma {:induction false} KeptNeedsRoom(s: Store, r: Store, k: Key, now: int)
    requires Valid(s) && Valid(r) && s.maxBytes > 0
    requires Evictable(s, k, now) && MinimalEviction(s, r, now) && k in r.items
    ensures s.items[k].cost + ProtectedBytes(s, now) <= s.maxBytes
  {
    var need := ProtectedCosts(s, now)[k := s.items[k].cost];
    MapSumUpdate(ProtectedCosts(s, now), k, s.items[k].cost);
    forall x | x in need ensures x in r.items && need[x] == Costs(r.items)[x] {
      assert !Gone(s, r, x);
    }
    MapSumSubset(need, Costs(r.items));
  }

  lemma {:induction false} NewestIsYoungest(s: Store, k: Key, a: Key)
    requires Valid(s) && s.order != [] && s.order[0] == k && a in s.items && a != k
    ensures Older(s.order, a, k)
  {
    var j :| 0 <= j < |s.order| && s.order[j] == a;
    assert s.order[0] == k && s.order[j] == a;
  }

  lemma {:induction false} OnlyProtectedStays(s: Store, r: Store, k: Key, now: int, x: Key)
    requires Valid(s) && s.order != [] && s.order[0] == k
    requires MinimalEviction(s, r, now) && Gone(s, r, k)
    ensures x in r.items <==> x in s.items && s.items[x].entry.Protected(now)
    ensures x in r.items ==> r.items[x] == s.items[x]
  {
    if Evictable(s, x, now) && x != k {
      NewestIsYoungest(s, k, x);
      assert Gone(s, r, x);
    } else if x in s.items && x != k {
      assert !Gone(s, r, x);
    }
  }

  lemma {:induction false} OnlyProtectedLeft(s: Store, r: Store, now: int)
    requires forall x :: x in r.items <==> x in s.items && s.items[x].entry.Protected(now)
    requires forall x :: x in r.items ==> r.items[x] == s.items[x]
    ensures Costs(r.items) == ProtectedCosts(s, now)
  {
  }

  /** If even the newest entry went, only protected entries are left, and it did not fit with them. */
  lemma {:induction false} GoneLacksRoom(s: Store, r: Store, k: Key, now: int)
    requires Valid(s) && Valid(r) && s.maxBytes > 0
    requires s.order != [] && s.order[0] == k
    requires MinimalEviction(s, r, now) && Gone(s, r, k)
    ensures s.maxBytes < s.items[k].cost + ProtectedBytes(s, now)
  {
    assert Costs(r.items) == ProtectedCosts(s, now) by {
      forall x
        ensures x in r.items <==> x in s.items && s.items[x].entry.Protected(now)
        ensures x in r.items ==> r.items[x] == s.items[x]
      {
        OnlyProtectedStays(s, r, k, now, x);
      }
      OnlyProtectedLeft(s, r, now);
    }
    assert LastToGo(s, r, k) by {
      forall y | Gone(s, r, y) && y != k ensures Older(s.order, y, k) {
        NewestIsYoungest(s, k, y);
      }
    }
  }

  /** If the most recent entry is evictable, it outlives eviction iff it and the protected fit. */
  lemma {:induction false} NewestSurvives(s: Store, k: Key, now: int)
    requires Valid(s) && s.maxBytes > 0
    requires s.order != [] && s.order[0] == k && Evictable(s, k, now)
    ensures k in Evict(s, now).items <==> s.items[k].cost + ProtectedBytes(s, now) <= s.maxBytes
  {
    EvictIsMinimal(s, now);
    EvictValid(s, now);
    if k in Evict(s, now).items {
      KeptNeedsRoom(s, Evict(s, now), k, now);
    } else {
      GoneLacksRoom(s, Evict(s, now), k, now);
    }
  }

  lemma {:induction false} InstallProtectedBytes(s: Store, k: Key, item: Item, now: int)
    requires !item.entry.Protected(now)
    ensures ProtectedBytes(Install(s, k, item), now) == MapSum(ProtectedCosts(s, now) - {k})
  {
    assert ProtectedCosts(Install(s, k, item), now) == ProtectedCosts(s, now) - {k};
  }

  /**
   * A plain entry that AcceptIfNewer took is still there when it returns if and
   * only if its cost plus that of the other protected entries fits the budget.
   */
  lemma {:induction false} AcceptedEntrySurvives(s: Store, k: Key, e: Entry, now: int)
    requires Valid(s) && s.maxBytes > 0 && !e.Protected(now)
    requires AcceptIfNewer(s, k, e, now).1
    ensures var r := AcceptIfNewer(s, k, e, now).0;
            k in r.items <==>
            EntryCost(k, e) + MapSum(ProtectedCosts(s, now) - {k}) <= s.maxBytes
    ensures var r := AcceptIfNewer(s, k, e, now).0;
            k in r.items ==> r.items[k] == Plain(k, e)
  {
    var s1 := Install(s, k, Plain(k, e));
    InstallValid(s, k, Plain(k, e));
    InstallProtectedBytes(s, k, Plain(k, e), now);
    NewestSurvives(s1, k, now);
    EvictDrops(s1, now, k);
  }
}
