/**
 * pkg/store/memory.go, hash.go and topk.go: the LRU store whose map, recency
 * list and byte count are updated in place. Every method is proved against the
 * function of the same name on the store's value. Each call reads the clock once.
 */
module MemoryStore {
  import opened Basics
  import opened Ordering
  import opened Entries
  import opened Stores
  import opened Structures
  import HashCodec
  import SpaceSaving
  import TopK

  lemma {:induction false} DeletedIs(s: Store, k: Key, version: uint64, now: int)
    requires Stores.Valid(s) && !(Live(s, k, now) && version < s.items[k].entry.version)
    ensures var it := Overwrite(s, k, TombstoneOf(s, version, now));
            && Stores.Valid(Install(s, k, it))
            && Stores.DeleteIfVersion(s, k, version, now) == (Evict(Install(s, k, it), now), true)
  {
    InstallValid(s, k, Overwrite(s, k, TombstoneOf(s, version, now)));
  }

  class Memory {
    const maxBytes: int
    const tombstoneTTL: int
    var items: map<Key, Item>
    var order: seq<Key>
    var bytes: int

    ghost function Snapshot(): Store
      reads this
    {
      Store(items, order, bytes, maxBytes, tombstoneTTL)
    }

    ghost predicate Valid()
      reads this
    {
      Stores.Valid(Snapshot())
    }

    /** NewMemory. */
    constructor (maxBytes: int, tombstoneTTL: int)
      ensures Valid() && Snapshot() == Store(map[], [], 0, maxBytes, tombstoneTTL)
    {
      this.maxBytes := maxBytes;
      this.tombstoneTTL := tombstoneTTL;
      items := map[];
      order := [];
      bytes := 0;
      assert Costs(map[]) == map[];
    }

    /** removeElement: the clamp at zero is dead code on a valid store. */
    method RemoveElement(k: Key)
      requires Valid() && k in items
      modifies this
      ensures Valid() && Snapshot() == Remove(old(Snapshot()), k)
    {
      RemoveValid(Snapshot(), k);
      var cost := items[k].cost;
      assert bytes - cost == Remove(Snapshot(), k).bytes;
      items, order, bytes := items - {k}, Without(order, k), Max(0, bytes - cost);
    }

    /** lruVictim: scan from the back, passing over protected entries. */
    method LruVictim(now: int) returns (i: int)
      requires Valid()
      ensures i == VictimIndex(items, order, now)
    {
      i := |order| - 1;
      assert order[..|order|] == order;
      while i >= 0
        invariant -1 <= i < |order|
        invariant VictimIndex(items, order[..i + 1], now) == VictimIndex(items, order, now)
      {
        if !items[order[i]].entry.Protected(now) {
          return;
        }
        assert order[..i + 1][..i] == order[..i];
        i := i - 1;
      }
    }

    /** evictLocked. */
    method EvictLocked(now: int)
      requires Valid()
      modifies this
      ensures Valid() && Snapshot() == Evict(old(Snapshot()), now)
    {
      if maxBytes <= 0 {
        return;
      }
      while bytes > maxBytes && |order| > 0
        invariant Valid()
        invariant Evict(Snapshot(), now) == Evict(old(Snapshot()), now)
        decreases |items|
      {
        var i := LruVictim(now);
        if i < 0 {
          return;
        }
        RemoveElement(order[i]);
      }
    }

    /** Replace or link k's item at the front. */
    method LinkLocked(k: Key, it: Item)
      requires Valid() && 0 <= it.cost
      modifies this
      ensures Valid() && Snapshot() == Install(old(Snapshot()), k, it)
    {
      InstallValid(Snapshot(), k, it);
      if k in items {
        bytes := bytes - items[k].cost;
      }
      items := items[k := it];
      bytes := bytes + it.cost;
      order := Touch(order, k);
    }

    /** Link k's item, then evict. */
    method InstallLocked(k: Key, it: Item, now: int)
      requires Valid() && 0 <= it.cost
      modifies this
      ensures Stores.Valid(Install(old(Snapshot()), k, it))
      ensures Valid() && Snapshot() == Evict(Install(old(Snapshot()), k, it), now)
    {
      LinkLocked(k, it);
      EvictLocked(now);
    }

    method Set(k: Key, e: Entry, now: int) returns (ok: bool)
      requires Valid()
      modifies this
      ensures Valid() && (Snapshot(), ok) == Stores.Set(old(Snapshot()), k, e, now)
    {
      var cost := EntryCost(k, e);
      if maxBytes > 0 && cost > maxBytes {
        return false;
      }
      InstallLocked(k, Item(e, cost, None, false), now);
      return true;
    }

    method AcceptIfNewer(k: Key, e: Entry, now: int) returns (ok: bool)
      requires Valid()
      modifies this
      ensures Valid() && (Snapshot(), ok) == Stores.AcceptIfNewer(old(Snapshot()), k, e, now)
    {
      if k in items {
        if !items[k].entry.Expired(now) && e.version <= items[k].entry.version {
          return false;
        }
      }
      var cost := EntryCost(k, e);
      if maxBytes > 0 && cost > maxBytes {
        return false;
      }
      InstallLocked(k, Item(e, cost, None, false), now);
      return true;
    }

    method AcceptNegative(k: Key, e: Entry, now: int) returns (ok: bool)
      requires Valid()
      modifies this
      ensures Valid() && (Snapshot(), ok) == Stores.AcceptNegative(old(Snapshot()), k, e, now)
    {
      var cost := EntryCost(k, e);
      if maxBytes > 0 && cost > maxBytes {
        return false;
      }
      if k in items {
        var it := items[k];
        if !it.entry.Expired(now) {
          if it.entry.IsTombstone() {
            if e.version <= it.entry.version {
              return false;
            }
          } else if !it.entry.IsNegative() {
            return false;
          } else if e.version <= it.entry.version {
            return false;
          }
        }
        InstallLocked(k, it.(entry := e, cost := cost), now);
        return true;
      }
      InstallLocked(k, Item(e, cost, None, false), now);
      return true;
    }

    method Delete(k: Key) returns (ok: bool)
      requires Valid()
      modifies this
      ensures Valid() && (Snapshot(), ok) == Stores.Delete(old(Snapshot()), k)
    {
      if k !in items {
        return false;
      }
      RemoveElement(k);
      return true;
    }

    /** The entry of k rewritten, or inserted. */
    method OverwriteLocked(k: Key, e: Entry, now: int)
      requires Valid()
      modifies this
      ensures Stores.Valid(Install(old(Snapshot()), k, Overwrite(old(Snapshot()), k, e)))
      ensures Valid() && Snapshot() == Evict(Install(old(Snapshot()), k, Overwrite(old(Snapshot()), k, e)), now)
    {
      var it := if k in items then items[k].(entry := e, cost := EntryCost(k, e)) else Item(e, EntryCost(k, e), None, false);
      assert it == Overwrite(Snapshot(), k, e);
      InstallLocked(k, it, now);
    }

    method DeleteIfVersion(k: Key, version: uint64, now: int) returns (ok: bool)
      requires Valid()
      modifies this
      ensures Valid() && (Snapshot(), ok) == Stores.DeleteIfVersion(old(Snapshot()), k, version, now)
    {
      var expireAt := if tombstoneTTL <= 0 then 0 else now + tombstoneTTL;
      var tomb := Entry([], version, expireAt, {FlagTombstone});
      if k in items && !items[k].entry.Expired(now) && version < items[k].entry.version {
        return false;
      }
      assert tomb == TombstoneOf(Snapshot(), version, now);
      DeletedIs(Snapshot(), k, version, now);
      OverwriteLocked(k, tomb, now);
      return true;
    }

    /** flushHashValueLocked. */
    method FlushHash(k: Key)
      requires Valid() && k in items
      modifies this
      ensures Valid() && Snapshot() == Update(old(Snapshot()), k, FlushItem(k, old(items[k])))
    {
      var it := items[k];
      UpdateValid(Snapshot(), k, FlushItem(k, it));
      if !it.dirty || it.cache.None? || !it.entry.IsHash() {
        assert items[k := it] == items;
        return;
      }
      var blob := HashCodec.EncodeFields(it.cache.value);
      var e := it.entry.(value := blob);
      var cost := EntryCost(k, e);
      items := items[k := it.(entry := e, dirty := false, cost := cost)];
      MapSumSubset(map[], Costs(items));
      bytes := Max(0, bytes + cost - it.cost);
    }

    method Peek(k: Key, now: int) returns (r: Option<Entry>)
      requires Valid()
      modifies this
      ensures Valid() && (Snapshot(), r) == Stores.Peek(old(Snapshot()), k, now)
    {
      if k !in items {
        return None;
      }
      if items[k].entry.Expired(now) {
        RemoveElement(k);
        return None;
      }
      FlushHash(k);
      return Some(items[k].entry);
    }

    method Get(k: Key, now: int) returns (r: Option<Entry>)
      requires Valid()
      modifies this
      ensures Valid() && (Snapshot(), r) == Stores.Get(old(Snapshot()), k, now)
    {
      if k !in items {
        return None;
      }
      if items[k].entry.Expired(now) {
        RemoveElement(k);
        return None;
      }
      if items[k].entry.IsTombstone() {
        return None;
      }
      InstallValid(Snapshot(), k, FlushItem(k, items[k]));
      FlushHash(k);
      order := Touch(order, k);
      return Some(items[k].entry);
    }

    method PeekVersion(k: Key, now: int) returns (r: Option<uint64>)
      requires Valid()
      modifies this
      ensures Valid() && (Snapshot(), r) == Stores.PeekVersion(old(Snapshot()), k, now)
    {
      if k !in items {
        return None;
      }
      if items[k].entry.Expired(now) {
        RemoveElement(k);
        return None;
      }
      return Some(items[k].entry.version);
    }

    // -------------------------------------------------------------- hashes

    /** insertHashLocked. */
    method InsertHashLocked(k: Key, e: Entry, cache: HashCodec.Fields, now: int) returns (ok: bool)
      requires Valid()
      modifies this
      ensures Valid() && (Snapshot(), ok) == InsertHash(old(Snapshot()), k, e, cache, now)
    {
      InstallLocked(k, Item(e, EntryCost(k, e), Some(cache), false), now);
      return k in items;
    }

    /** The tail of hMutateLocked: a hash that did not exist yet. */
    method NewHashLocked(k: Key, version: uint64, expireAt: int, edit: Edit, now: int) returns (ok: bool)
      requires Valid()
      modifies this
      ensures Valid() && (Snapshot(), ok) == NewHash(old(Snapshot()), k, version, expireAt, edit, now)
    {
      var h := ApplyEdit(map[], edit);
      var blob := HashCodec.EncodeFields(h);
      ok := InsertHashLocked(k, Entry(blob, version, expireAt, {FlagHash}), h, now);
    }

    /** The branch of hMutateLocked that edits a live hash and leaves its blob behind. */
    method EditHashLocked(k: Key, version: uint64, expireAt: int, edit: Edit, now: int) returns (ok: bool)
      requires Valid() && SizedEdit(edit) && SizedCache(k) && k in items
      modifies this
      ensures Valid() && (Snapshot(), ok) == EditHash(old(Snapshot()), k, version, expireAt, edit, now)
    {
      var it := items[k];
      var h := it.cache;
      if h.None? {
        h := HashCodec.DecodeFields(it.entry.value);
        if h.None? {
          return false;
        }
      }
      EditKeepsSized(h.value, edit);
      var it' := Rewrite(k, it, ApplyEdit(h.value, edit), version, expireAt);
      InstallLocked(k, it', now);
      return k in items;
    }

    static method Rewrite(k: Key, it: Item, h: HashCodec.Fields, version: uint64, expireAt: int) returns (r: Item)
      requires HashCodec.WellSized(h)
      ensures r == EditedItem(k, it, h, version, expireAt)
    {
      var n := HashCodec.ApproxWireBytes(h);
      var e := it.entry.(version := version, flags := {FlagHash},
                         expireAt := if expireAt != 0 then expireAt else it.entry.expireAt);
      r := Item(e, |k.name| + 64 + n, Some(h), true);
    }

    /** hMutateLocked; the edit closure of the source is the `edit` value. */
    method HMutateLocked(k: Key, version: uint64, expireAt: int, edit: Edit, now: int) returns (ok: bool)
      requires Valid() && SizedEdit(edit) && SizedCache(k)
      modifies this
      ensures Valid() && (Snapshot(), ok) == HMutate(old(Snapshot()), k, version, expireAt, edit, now)
    {
      if k in items {
        var it := items[k];
        if !it.entry.Expired(now) {
          if it.entry.IsTombstone() {
            if version <= it.entry.version {
              return false;
            }
            RemoveElement(k);
          } else if it.entry.IsHash() {
            ok := EditHashLocked(k, version, expireAt, edit, now);
            return;
          } else {
            return false;
          }
        } else {
          RemoveElement(k);
        }
      }
      ok := NewHashLocked(k, version, expireAt, edit, now);
    }

    /** Go slices have machine-word lengths: the cached fields of k and the edit do too. */
    ghost predicate SizedCache(k: Key)
      reads this
    {
      k in items && items[k].cache.Some? ==> HashCodec.WellSized(items[k].cache.value)
    }

    method HSet(k: Key, f: Bytes, v: Bytes, version: uint64, expireAt: int, now: int) returns (ok: bool)
      requires Valid() && HashCodec.Sized(f) && HashCodec.Sized(v) && SizedCache(k)
      modifies this
      ensures Valid() && (Snapshot(), ok) == Structures.HSet(old(Snapshot()), k, f, v, version, expireAt, now)
    {
      ok := HMutateLocked(k, version, expireAt, SetField(f, v), now);
    }

    method HDel(k: Key, f: Bytes, version: uint64, expireAt: int, now: int) returns (ok: bool)
      requires Valid() && SizedCache(k)
      modifies this
      ensures Valid() && (Snapshot(), ok) == Structures.HDel(old(Snapshot()), k, f, version, expireAt, now)
    {
      if k !in items {
        return true;
      }
      var it := items[k];
      if it.entry.Expired(now) {
        RemoveElement(k);
        return true;
      }
      if it.entry.IsTombstone() {
        return version > it.entry.version;
      }
      if !it.entry.IsHash() {
        return false;
      }
      ok := HMutateLocked(k, version, expireAt, DelField(f), now);
    }

    method HInstall(k: Key, blob: Bytes, version: uint64, expireAt: int, now: int) returns (ok: bool)
      requires Valid()
      modifies this
      ensures Valid() && (Snapshot(), ok) == Structures.HInstall(old(Snapshot()), k, blob, version, expireAt, now)
    {
      if k in items {
        if !items[k].entry.Expired(now) && version <= items[k].entry.version {
          return false;
        }
        RemoveElement(k);
      }
      var h := HashCodec.DecodeFields(blob);
      if h.None? {
        return false;
      }
      ok := InsertHashLocked(k, Entry(blob, version, expireAt, {FlagHash}), h.value, now);
    }

    /** hPeekLocked. */
    method HPeekLocked(k: Key, now: int) returns (r: Option<HashCodec.Fields>)
      requires Valid()
      modifies this
      ensures Valid() && (Snapshot(), r) == HRead(old(Snapshot()), k, now)
    {
      if k !in items {
        return None;
      }
      var it := items[k];
      if it.entry.Expired(now) {
        RemoveElement(k);
        return None;
      }
      if it.entry.IsTombstone() || !it.entry.IsHash() {
        return None;
      }
      if it.cache.Some? {
        assert items[k := it.(cache := Some(it.cache.value))] == items;
        return it.cache;
      }
      var h := HashCodec.DecodeFields(it.entry.value);
      if h.None? {
        return None;
      }
      UpdateValid(Snapshot(), k, it.(cache := h));
      items := items[k := it.(cache := h)];
      return h;
    }

    method HGet(k: Key, f: Bytes, now: int) returns (v: Option<Bytes>)
      requires Valid()
      modifies this
      ensures Valid()
      ensures var r := HRead(old(Snapshot()), k, now);
              && Snapshot() == r.0
              && v == if r.1.Some? && f in r.1.value then Some(r.1.value[f]) else None
    {
      var h := HPeekLocked(k, now);
      if h.None? || f !in h.value {
        return None;
      }
      return Some(h.value[f]);
    }

    // -------------------------------------------------------------- Top-K

    method TopKAdd(k: Key, item: Bytes, version: uint64, expireAt: int, size: int, maxValue: int, now: int)
      returns (applied: bool, tooLarge: bool)
      requires Valid()
      modifies this
      ensures Valid()
      ensures Added(Snapshot(), applied, tooLarge) ==
              Structures.TopKAdd(old(Snapshot()), k, item, version, expireAt, size, maxValue, now)
    {
      if size < 1 {
        return false, true;
      }
      if item == [] {
        return false, false;
      }
      if k in items {
        var it := items[k];
        if !it.entry.Expired(now) {
          if it.entry.IsTombstone() {
            if version <= it.entry.version {
              return false, false;
            }
            applied, tooLarge := TopKReplaceLocked(k, [], item, Bump(it.entry.version), expireAt, size, maxValue, now);
            return;
          }
          if !it.entry.IsTopK() {
            return false, false;
          }
          applied, tooLarge :=
            TopKReplaceLocked(k, it.entry.value, item, Bump(it.entry.version), expireAt, size, maxValue, now);
          return;
        }
        RemoveElement(k);
      }
      applied, tooLarge := TopKInsertLocked(k, item, expireAt, size, maxValue, now);
    }

    /** topkReplaceLocked. */
    method TopKReplaceLocked(k: Key, cur: Bytes, item: Bytes, stored: uint64, expireAt: int, size: nat, maxValue: int,
                             now: int)
      returns (applied: bool, tooLarge: bool)
      requires Valid() && k in items && 1 <= size
      modifies this
      ensures Valid()
      ensures Added(Snapshot(), applied, tooLarge) ==
              TopKReplace(old(Snapshot()), k, cur, item, stored, expireAt, size, maxValue, now)
    {
      var out := TopK.TopkApply(cur, SpaceSaving.Term(item), size, maxValue);
      match out {
        case TooLarge => return false, true;
        case Rejected => return false, false;
        case Applied(blob) =>
          var it := items[k];
          var e := Entry(blob, stored, if expireAt != 0 then expireAt else it.entry.expireAt, {FlagTopK});
          InstallLocked(k, it.(entry := e, cost := EntryCost(k, e)), now);
          return k in items, false;
      }
    }

    /** topkInsertLocked. */
    method TopKInsertLocked(k: Key, item: Bytes, expireAt: int, size: nat, maxValue: int, now: int)
      returns (applied: bool, tooLarge: bool)
      requires Valid() && 1 <= size
      modifies this
      ensures Valid()
      ensures Added(Snapshot(), applied, tooLarge) ==
              TopKInsert(old(Snapshot()), k, item, expireAt, size, maxValue, now)
    {
      var out := TopK.TopkApply([], SpaceSaving.Term(item), size, maxValue);
      match out {
        case TooLarge => return false, true;
        case Rejected => return false, false;
        case Applied(blob) =>
          var e := Entry(blob, 1, expireAt, {FlagTopK});
          InstallLocked(k, Item(e, EntryCost(k, e), None, false), now);
          return k in items, false;
      }
    }

    method TopKInstall(k: Key, blob: Bytes, version: uint64, expireAt: int, size: int, now: int) returns (ok: bool)
      requires Valid()
      modifies this
      ensures Valid() && (Snapshot(), ok) == Structures.TopKInstall(old(Snapshot()), k, blob, version, expireAt, size, now)
    {
      if size < 1 {
        return false;
      }
      var t := TopK.Decode(blob, size);
      if t == null {
        return false;
      }
      if k in items {
        if !items[k].entry.Expired(now) && version <= items[k].entry.version {
          return false;
        }
        RemoveElement(k);
      }
      var e := Entry(blob, version, expireAt, {FlagTopK});
      InstallLocked(k, Item(e, EntryCost(k, e), None, false), now);
      return k in items;
    }
  }
}
