/**
 * What pkg/store/memory.go computes, as functions on the store's value: a map,
 * a recency list (front is most recent) and a byte count. Memory.dfy holds the
 * class that updates those fields in place.
 */
module Stores {
  import opened Basics
  import opened Ordering
  import opened Entries
  import HashCodec

  /** A key: a byte string compared for equality and length only. */
  datatype Key = Key(name: Bytes)

  /** lruItem; `cache`/`dirty` are hCache/hDirty, the decoded fields of a hash entry. */
  datatype Item = Item(entry: Entry, cost: int, cache: Option<HashCodec.Fields>, dirty: bool)

  datatype Store = Store(items: map<Key, Item>, order: seq<Key>, bytes: int, maxBytes: int, tombstoneTTL: int)

  function EntryCost(key: Key, e: Entry): int { |key.name| + e.Cost() }

  /** An item holding e alone: no decoded cache. */
  function Plain(key: Key, e: Entry): Item { Item(e, EntryCost(key, e), None, false) }

  ghost function Costs(items: map<Key, Item>): map<Key, int>
  {
    map k | k in items :: items[k].cost
  }

  /** The recency list holds each stored key exactly once. */
  ghost predicate Listed(s: Store) { Lists(s.order, s.items.Keys) }

  /** `bytes` is the sum of the costs. */
  ghost predicate Accounted(s: Store)
  {
    && s.bytes == MapSum(Costs(s.items))
    && (forall k :: k in s.items ==> 0 <= s.items[k].cost)
  }

  /** Map and recency list are in bijection, and `bytes` is the sum of the costs. */
  ghost predicate Valid(s: Store) { Listed(s) && Accounted(s) }

  // ---------------------------------------------------------------- recency list

  /** list.MoveToFront, or list.PushFront for a key not yet listed. */
  function Touch(order: seq<Key>, k: Key): seq<Key> { [k] + Without(order, k) }

  lemma {:induction false} TouchLists(order: seq<Key>, keys: set<Key>, k: Key)
    requires Lists(order, keys)
    ensures Lists(Touch(order, k), keys + {k})
  {
    WithoutLists(order, keys, k);
    var t := Without(order, k);
    assert Touch(order, k) == [k] + t;
    forall x | x in keys + {k} ensures x in [k] + t {
      if x != k { assert x in t; }
    }
  }

  /** Older(order, a, b): a was used less recently than b. */
  ghost predicate Older(order: seq<Key>, a: Key, b: Key)
  {
    exists i, j :: 0 <= i < j < |order| && order[i] == b && order[j] == a
  }

  lemma {:induction false} WithoutKeepsOrder(order: seq<Key>, k: Key, a: Key, b: Key)
    requires a != k && b != k
    ensures Older(Without(order, k), a, b) <==> Older(order, a, b)
    ensures a in Without(order, k) <==> a in order
    decreases order
  {
    if order != [] && order[0] != k {
      var h, t := order[0], order[1..];
      WithoutKeepsOrder(t, k, a, b);
      assert order == [h] + t && Without(order, k) == [h] + Without(t, k);
      OlderCons(h, t, a, b);
      OlderCons(h, Without(t, k), a, b);
    } else if order != [] {
      assert order == [k] + order[1..];
      OlderCons(k, order[1..], a, b);
    }
  }

  lemma {:induction false} OlderCons(h: Key, t: seq<Key>, a: Key, b: Key)
    ensures Older([h] + t, a, b) <==> (h == b && a in t) || Older(t, a, b)
  {
    var s := [h] + t;
    if h == b && a in t {
      var j :| 0 <= j < |t| && t[j] == a;
      assert s[0] == b && s[j + 1] == a;
    }
    if Older(t, a, b) {
      var i, j :| 0 <= i < j < |t| && t[i] == b && t[j] == a;
      assert s[i + 1] == b && s[j + 1] == a;
    }
    if Older(s, a, b) {
      var i, j :| 0 <= i < j < |s| && s[i] == b && s[j] == a;
      assert t[j - 1] == a;
      if i > 0 { assert t[i - 1] == b; }
    }
  }

  // ---------------------------------------------------------------- elementary updates

  /** removeElement. */
  function Remove(s: Store, k: Key): Store
    requires k in s.items
  {
    s.(items := s.items - {k}, order := Without(s.order, k), bytes := s.bytes - s.items[k].cost)
  }

  /** Put an item under k, at the front. */
  function Install(s: Store, k: Key, item: Item): Store
  {
    s.(items := s.items[k := item], order := Touch(s.order, k),
       bytes := s.bytes + item.cost - if k in s.items then s.items[k].cost else 0)
  }

  /** Rewrite k's item where it stands in the recency list. */
  function Update(s: Store, k: Key, item: Item): Store
    requires k in s.items
  {
    s.(items := s.items[k := item], bytes := s.bytes + item.cost - s.items[k].cost)
  }

  lemma {:induction false} RemoveListed(s: Store, k: Key)
    requires Listed(s) && k in s.items
    ensures Listed(Remove(s, k))
  {
    WithoutLists(s.order, s.items.Keys, k);
    assert (s.items - {k}).Keys == s.items.Keys - {k};
  }

  lemma {:induction false} RemoveAccounted(s: Store, k: Key)
    requires Accounted(s) && k in s.items
    ensures Accounted(Remove(s, k)) && 0 <= Remove(s, k).bytes
  {
    MapSumRemove(Costs(s.items), k);
    assert Costs(s.items - {k}) == Costs(s.items) - {k};
    MapSumSubset(map[], Costs(s.items - {k}));
  }

  /** Removing an element leaves the list and the sum exact, so the clamp at zero never fires. */
  lemma {:induction false} RemoveValid(s: Store, k: Key)
    requires Valid(s) && k in s.items
    ensures Valid(Remove(s, k)) && 0 <= Remove(s, k).bytes
  {
    RemoveListed(s, k);
    RemoveAccounted(s, k);
  }

  lemma {:induction false} InstallListed(s: Store, k: Key, item: Item)
    requires Listed(s)
    ensures Listed(Install(s, k, item))
  {
    TouchLists(s.order, s.items.Keys, k);
    assert s.items[k := item].Keys == s.items.Keys + {k};
  }

  lemma {:induction false} InstallAccounted(s: Store, k: Key, item: Item)
    requires Accounted(s) && 0 <= item.cost
    ensures Accounted(Install(s, k, item))
  {
    MapSumUpdate(Costs(s.items), k, item.cost);
    assert Costs(s.items[k := item]) == Costs(s.items)[k := item.cost];
  }

  lemma {:induction false} InstallValid(s: Store, k: Key, item: Item)
    requires Valid(s) && 0 <= item.cost
    ensures Valid(Install(s, k, item))
  {
    InstallListed(s, k, item);
    InstallAccounted(s, k, item);
  }

  lemma {:induction false} UpdateValid(s: Store, k: Key, item: Item)
    requires Valid(s) && k in s.items && 0 <= item.cost
    ensures Valid(Update(s, k, item))
  {
    MapSumUpdate(Costs(s.items), k, item.cost);
    assert Costs(s.items[k := item]) == Costs(s.items)[k := item.cost];
    assert s.items[k := item].Keys == s.items.Keys;
  }

  // ---------------------------------------------------------------- eviction

  ghost predicate Protected(s: Store, k: Key, now: int)
  {
    k in s.items && s.items[k].entry.Protected(now)
  }

  /** lruVictim: the position of the least recent unprotected entry, or -1. */
  function VictimIndex(items: map<Key, Item>, order: seq<Key>, now: int): (i: int)
    requires forall k :: k in order ==> k in items
    ensures -1 <= i < |order|
    ensures i >= 0 ==> !items[order[i]].entry.Protected(now)
    ensures forall j :: i < j < |order| ==> items[order[j]].entry.Protected(now)
  {
    if order == [] then -1
    else
      var last := |order| - 1;
      if !items[order[last]].entry.Protected(now) then last
      else
        assert order[..last] + [order[last]] == order;
        VictimIndex(items, order[..last], now)
  }

  /** evictLocked: drop victims until the budget is met or nothing may go. */
  function Evict(s: Store, now: int): (r: Store)
    requires Listed(s)
    ensures r.maxBytes == s.maxBytes && r.tombstoneTTL == s.tombstoneTTL
    decreases |s.items|
  {
    if s.maxBytes <= 0 || s.bytes <= s.maxBytes then s
    else
      var i := VictimIndex(s.items, s.order, now);
      if i < 0 then s
      else
        RemoveListed(s, s.order[i]);
        Evict(Remove(s, s.order[i]), now)
  }

  lemma {:induction false} EvictValid(s: Store, now: int)
    requires Valid(s)
    ensures Valid(Evict(s, now))
    decreases |s.items|
  {
    if s.maxBytes > 0 && s.bytes > s.maxBytes {
      var i := VictimIndex(s.items, s.order, now);
      if i >= 0 {
        RemoveValid(s, s.order[i]);
        EvictValid(Remove(s, s.order[i]), now);
      }
    }
  }

  lemma {:induction false} VictimDrops(s: Store, victim: Key, r: Store, now: int, k: Key)
    requires victim in s.items && !Protected(s, victim, now)
    requires k in r.items ==> k in Remove(s, victim).items && r.items[k] == Remove(s, victim).items[k]
    requires Protected(Remove(s, victim), k, now) ==> k in r.items
    ensures k in r.items ==> k in s.items && r.items[k] == s.items[k]
    ensures Protected(s, k, now) ==> k in r.items
  {
  }

  /** Eviction only ever drops unprotected entries, and changes no surviving one. */
  lemma {:induction false} EvictDrops(s: Store, now: int, k: Key)
    requires Valid(s)
    ensures var r := Evict(s, now);
            && (k in r.items ==> k in s.items && r.items[k] == s.items[k])
            && (Protected(s, k, now) ==> k in r.items)
    decreases |s.items|
  {
    if s.maxBytes > 0 && s.bytes > s.maxBytes {
      var i := VictimIndex(s.items, s.order, now);
      if i >= 0 {
        var victim := s.order[i];
        RemoveValid(s, victim);
        EvictDrops(Remove(s, victim), now, k);
        VictimDrops(s, victim, Evict(Remove(s, victim), now), now, k);
      }
    }
  }

  // ---------------------------------------------------------------- reading and writing one key

  ghost predicate Live(s: Store, k: Key, now: int)
  {
    k in s.items && !s.items[k].entry.Expired(now)
  }

  /** Memory.Set. */
  ghost function Set(s: Store, k: Key, e: Entry, now: int): (r: (Store, bool))
    requires Valid(s)
  {
    if s.maxBytes > 0 && EntryCost(k, e) > s.maxBytes then (s, false)
    else
      InstallValid(s, k, Plain(k, e));
      (Evict(Install(s, k, Plain(k, e)), now), true)
  }

  /** Memory.AcceptIfNewer: last writer wins, by version. */
  ghost function AcceptIfNewer(s: Store, k: Key, e: Entry, now: int): (r: (Store, bool))
    requires Valid(s)
  {
    if Live(s, k, now) && e.version <= s.items[k].entry.version then (s, false)
    else Set(s, k, e, now)
  }

  /** The entry under k replaced in place: decoded caches stay behind. */
  ghost function Overwrite(s: Store, k: Key, e: Entry): (it: Item)
    ensures 0 <= it.cost && it.entry == e
  {
    if k in s.items then s.items[k].(entry := e, cost := EntryCost(k, e)) else Plain(k, e)
  }

  /** Memory.AcceptNegative: fills absences only. */
  ghost function AcceptNegative(s: Store, k: Key, e: Entry, now: int): (r: (Store, bool))
    requires Valid(s)
  {
    if s.maxBytes > 0 && EntryCost(k, e) > s.maxBytes then (s, false)
    else if Live(s, k, now) && !s.items[k].entry.IsTombstone() && !s.items[k].entry.IsNegative() then (s, false)
    else if Live(s, k, now) && e.version <= s.items[k].entry.version then (s, false)
    else
      InstallValid(s, k, Overwrite(s, k, e));
      (Evict(Install(s, k, Overwrite(s, k, e)), now), true)
  }

  /** tombstoneExpireAt. */
  function TombstoneExpiry(s: Store, now: int): int
  {
    if s.tombstoneTTL <= 0 then 0 else now + s.tombstoneTTL
  }

  function TombstoneOf(s: Store, version: uint64, now: int): Entry
  {
    Entry([], version, TombstoneExpiry(s, now), {FlagTombstone})
  }

  /** Memory.DeleteIfVersion: installs a tombstone unless a newer entry is live. */
  ghost function DeleteIfVersion(s: Store, k: Key, version: uint64, now: int): (r: (Store, bool))
    requires Valid(s)
  {
    var tomb := TombstoneOf(s, version, now);
    if Live(s, k, now) && version < s.items[k].entry.version then (s, false)
    else
      InstallValid(s, k, Overwrite(s, k, tomb));
      (Evict(Install(s, k, Overwrite(s, k, tomb)), now), true)
  }

  /** Memory.Delete. */
  ghost function Delete(s: Store, k: Key): (r: (Store, bool))
    requires Valid(s)
  {
    if k in s.items then (Remove(s, k), true) else (s, false)
  }

  /** flushHashValueLocked on one item. */
  ghost function FlushItem(k: Key, it: Item): (r: Item)
    requires 0 <= it.cost
    ensures 0 <= r.cost
  {
    if it.dirty && it.cache.Some? && it.entry.IsHash() then
      var e := it.entry.(value := HashCodec.Encode(it.cache.value));
      it.(entry := e, dirty := false, cost := EntryCost(k, e))
    else it
  }

  /** Memory.Peek: drops an expired entry, flushes a stale blob, returns tombstones too. */
  ghost function Peek(s: Store, k: Key, now: int): (r: (Store, Option<Entry>))
    requires Valid(s)
  {
    if k !in s.items then (s, None)
    else if s.items[k].entry.Expired(now) then (Remove(s, k), None)
    else
      var it := FlushItem(k, s.items[k]);
      (Update(s, k, it), Some(it.entry))
  }

  /** Memory.Get: like Peek, but a tombstone is a miss and a hit becomes most recent. */
  ghost function Get(s: Store, k: Key, now: int): (r: (Store, Option<Entry>))
    requires Valid(s)
  {
    if k !in s.items then (s, None)
    else if s.items[k].entry.Expired(now) then (Remove(s, k), None)
    else if s.items[k].entry.IsTombstone() then (s, None)
    else
      var it := FlushItem(k, s.items[k]);
      (Install(s, k, it), Some(it.entry))
  }

  /** Memory.PeekVersion. */
  ghost function PeekVersion(s: Store, k: Key, now: int): (r: (Store, Option<uint64>))
    requires Valid(s)
  {
    if k !in s.items then (s, None)
    else if s.items[k].entry.Expired(now) then (Remove(s, k), None)
    else (s, Some(s.items[k].entry.version))
  }
}
