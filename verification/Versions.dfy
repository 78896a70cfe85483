/** pkg/engine/engine.go: the per-key version counters of a keyspace. */
module Versions {
  import opened Basics
  import opened Ordering
  import opened Entries
  import opened Stores
  import opened MemoryStore
  import opened Protocol

  /** What nextVersion starts from: the counter, the caller's floor, the stored version. */
  ghost function MintSeed(lastVer: map<Key, uint64>, s: Store, k: Key, atLeast: uint64, now: int): uint64
    requires Stores.Valid(s)
  {
    var cur := Max(if k in lastVer then lastVer[k] else 0, atLeast);
    if Live(s, k, now) then Max(cur, s.items[k].entry.version) else cur
  }

  /**
   * What pruning may leave: nothing changes while within the cap; otherwise
   * exactly `max` counters stay, unchanged, and a counter of a stored key is
   * dropped only when no counter of an absent key is left.
   */
  ghost predicate Pruned(before: map<Key, uint64>, after: map<Key, uint64>, s: Store, max: int, now: int)
  {
    if max <= 0 || |before| <= max then after == before
    else
      && |after| == max
      && after.Keys <= before.Keys
      && (forall k :: k in after ==> after[k] == before[k])
      && ((exists k :: k in before && k !in after && Live(s, k, now)) ==> forall k :: k in after ==> Live(s, k, now))
  }

  /** Looking at a key, even dropping it as expired, changes which keys are live not at all. */
  lemma {:induction false} PeekKeepsLive(s: Store, k: Key, now: int, other: Key)
    requires Stores.Valid(s)
    ensures Live(Stores.Peek(s, k, now).0, other, now) <==> Live(s, other, now)
    ensures Live(Stores.PeekVersion(s, k, now).0, other, now) <==> Live(s, other, now)
    ensures Stores.Peek(s, k, now).1.Some? <==> Live(s, k, now)
    ensures Live(s, k, now) ==> Stores.PeekVersion(s, k, now).0 == s
  {
  }

  lemma {:induction false} PrunedAlike(before: map<Key, uint64>, after: map<Key, uint64>, s: Store, t: Store, max: int, now: int)
    requires Pruned(before, after, s, max, now) && forall k :: Live(s, k, now) <==> Live(t, k, now)
    ensures Pruned(before, after, t, max, now)
  {
  }

  class VersionCounters {
    var lastVer: map<Key, uint64>
    const maxVersionKeys: int
    const store: Memory

    constructor (store: Memory, maxVersionKeys: int)
      ensures this.store == store && this.maxVersionKeys == maxVersionKeys && lastVer == map[]
    {
      this.store := store;
      this.maxVersionKeys := maxVersionKeys;
      lastVer := map[];
    }

    ghost predicate Alive(k: Key, now: int)
      reads store
    {
      Live(store.Snapshot(), k, now)
    }

    /** pruneLastVerLocked, first pass: counters of keys no longer in the store. */
    method PruneAbsent(now: int)
      requires store.Valid() && 0 < maxVersionKeys < |lastVer|
      modifies this, store
      ensures store.Valid()
      ensures forall k :: Alive(k, now) <==> old(Alive(k, now))
      ensures lastVer.Keys <= old(lastVer).Keys && maxVersionKeys <= |lastVer|
      ensures forall k :: k in lastVer ==> lastVer[k] == old(lastVer)[k]
      ensures forall k :: k in old(lastVer) && Alive(k, now) ==> k in lastVer
      ensures |lastVer| == maxVersionKeys || forall k :: k in lastVer ==> Alive(k, now)
    {
      var todo := lastVer.Keys;
      while todo != {}
        invariant store.Valid()
        invariant forall k :: Alive(k, now) <==> old(Alive(k, now))
        invariant todo <= lastVer.Keys <= old(lastVer).Keys && maxVersionKeys <= |lastVer|
        invariant forall k :: k in lastVer ==> lastVer[k] == old(lastVer)[k]
        invariant forall k :: k in old(lastVer) && Alive(k, now) ==> k in lastVer
        invariant forall k :: k in lastVer && k !in todo ==> Alive(k, now)
        decreases todo
      {
        if |lastVer| <= maxVersionKeys {
          return;
        }
        var k :| k in todo;
        todo := todo - {k};
        forall other { PeekKeepsLive(store.Snapshot(), k, now, other); }
        var r := store.Peek(k, now);
        if r.None? {
          assert (lastVer - {k}).Keys == lastVer.Keys - {k};
          lastVer := lastVer - {k};
        }
      }
    }

    /** pruneLastVerLocked, second pass: arbitrary counters until the cap is met. */
    method PruneAny()
      requires 0 < maxVersionKeys <= |lastVer|
      modifies this
      ensures |lastVer| == maxVersionKeys && lastVer.Keys <= old(lastVer).Keys
      ensures forall k :: k in lastVer ==> lastVer[k] == old(lastVer)[k]
      ensures |old(lastVer)| == maxVersionKeys ==> lastVer == old(lastVer)
    {
      var todo := lastVer.Keys;
      while todo != {}
        invariant todo == lastVer.Keys && lastVer.Keys <= old(lastVer).Keys && maxVersionKeys <= |lastVer|
        invariant forall k :: k in lastVer ==> lastVer[k] == old(lastVer)[k]
        invariant |old(lastVer)| == maxVersionKeys ==> lastVer == old(lastVer)
        decreases todo
      {
        if |lastVer| <= maxVersionKeys {
          return;
        }
        var k :| k in todo;
        todo := todo - {k};
        assert (lastVer - {k}).Keys == lastVer.Keys - {k};
        lastVer := lastVer - {k};
      }
    }

    /** pruneLastVerLocked. */
    method Prune(now: int)
      requires store.Valid()
      modifies this, store
      ensures store.Valid()
      ensures forall k :: Alive(k, now) <==> old(Alive(k, now))
      ensures Pruned(old(lastVer), lastVer, old(store.Snapshot()), maxVersionKeys, now)
    {
      if maxVersionKeys <= 0 || |lastVer| <= maxVersionKeys {
        return;
      }
      PruneAbsent(now);
      PruneAny();
    }

    /** The greatest of the counter, the floor and the stored version. */
    method Seed(k: Key, atLeast: uint64, now: int) returns (cur: uint64)
      requires store.Valid()
      modifies store
      ensures store.Valid()
      ensures cur == MintSeed(lastVer, old(store.Snapshot()), k, atLeast, now)
      ensures forall x :: Alive(x, now) <==> old(Alive(x, now))
    {
      cur := if k in lastVer then lastVer[k] else 0;
      if atLeast > cur {
        cur := atLeast;
      }
      forall other { PeekKeepsLive(store.Snapshot(), k, now, other); }
      var v := store.PeekVersion(k, now);
      if v.Some? && v.value > cur {
        cur := v.value;
      }
    }

    /** nextVersion: one above the seed, recorded (and then possibly pruned at once). */
    method NextVersion(k: Key, atLeast: uint64, now: int) returns (n: uint64)
      requires store.Valid()
      modifies this, store
      ensures store.Valid()
      ensures n == Successor(MintSeed(old(lastVer), old(store.Snapshot()), k, atLeast, now))
      ensures forall x :: Alive(x, now) <==> old(Alive(x, now))
      ensures Pruned(old(lastVer)[k := n], lastVer, old(store.Snapshot()), maxVersionKeys, now)
    {
      ghost var s := store.Snapshot();
      var cur := Seed(k, atLeast, now);
      n := Successor(cur);
      lastVer := lastVer[k := n];
      ghost var counters, looked := lastVer, store.Snapshot();
      forall x
        ensures Live(looked, x, now) <==> Live(s, x, now)
      {
        assert Alive(x, now) <==> old(Alive(x, now));
      }
      Prune(now);
      PrunedAlike(counters, lastVer, looked, s, maxVersionKeys, now);
    }

    /** observeVersion. */
    method ObserveVersion(k: Key, v: uint64, now: int)
      requires store.Valid()
      modifies this, store
      ensures store.Valid()
      ensures forall x :: Alive(x, now) <==> old(Alive(x, now))
      ensures Pruned(if v > (if k in old(lastVer) then old(lastVer)[k] else 0) then old(lastVer)[k := v] else old(lastVer),
                     lastVer, old(store.Snapshot()), maxVersionKeys, now)
    {
      if v > (if k in lastVer then lastVer[k] else 0) {
        lastVer := lastVer[k := v];
      }
      Prune(now);
    }
  }

  /** While the cap is not exceeded, a key's minted versions strictly increase past everything seen. */
  lemma {:induction false} MintExceedsSeen(lastVer: map<Key, uint64>, s: Store, k: Key, atLeast: uint64, now: int)
    requires Stores.Valid(s)
    requires MintSeed(lastVer, s, k, atLeast, now) < MAX_UINT64
    ensures var n := Successor(MintSeed(lastVer, s, k, atLeast, now));
            && n > atLeast
            && (k in lastVer ==> n > lastVer[k])
            && (Live(s, k, now) ==> n > s.items[k].entry.version)
  {
  }
}
