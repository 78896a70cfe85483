/**
 * Hash and Top-K operations of the store (pkg/store/hash.go, pkg/store/topk.go),
 * as functions on the store's value.
 */
module Structures {
  import opened Basics
  import opened Ordering
  import opened Entries
  import opened Stores
  import HashCodec
  import SpaceSaving
  import TopK

  // ---------------------------------------------------------------- hashes

  datatype Edit = SetField(field: Bytes, value: Bytes) | DelField(field: Bytes)

  function ApplyEdit(h: HashCodec.Fields, edit: Edit): HashCodec.Fields
  {
    match edit
    case SetField(f, v) => h[f := v]
    case DelField(f) => h - {f}
  }

  predicate SizedEdit(edit: Edit)
  {
    edit.SetField? ==> HashCodec.Sized(edit.field) && HashCodec.Sized(edit.value)
  }

  lemma {:induction false} EditKeepsSized(h: HashCodec.Fields, edit: Edit)
    requires HashCodec.WellSized(h) && SizedEdit(edit)
    ensures HashCodec.WellSized(ApplyEdit(h, edit))
  {
  }

  /** The fields a hash item stands for: its decoded cache, else its blob. */
  function ItemFields(it: Item): Option<HashCodec.Fields>
  {
    if it.cache.Some? then it.cache else HashCodec.Decode(it.entry.value)
  }

  /** insertHashLocked with a clean cache. */
  ghost function InsertHash(s: Store, k: Key, e: Entry, h: HashCodec.Fields, now: int): (r: (Store, bool))
    requires Valid(s)
  {
    var it := Item(e, EntryCost(k, e), Some(h), false);
    InstallValid(s, k, it);
    var s' := Evict(Install(s, k, it), now);
    (s', k in s'.items)
  }

  /** The live item rewritten by an edit: the blob lags until the next flush. */
  ghost function EditedItem(k: Key, it: Item, h: HashCodec.Fields, version: uint64, expireAt: int): (r: Item)
    ensures 0 <= r.cost
  {
    var e := it.entry.(version := version, flags := {FlagHash},
                       expireAt := if expireAt != 0 then expireAt else it.entry.expireAt);
    Item(e, |k.name| + 64 + |HashCodec.Encode(h)|, Some(h), true)
  }

  ghost function NewHash(s: Store, k: Key, version: uint64, expireAt: int, edit: Edit, now: int): (r: (Store, bool))
    requires Valid(s)
  {
    var h := ApplyEdit(map[], edit);
    InsertHash(s, k, Entry(HashCodec.Encode(h), version, expireAt, {FlagHash}), h, now)
  }

  /** The branch of hMutateLocked that edits a live hash. */
  ghost function EditHash(s: Store, k: Key, version: uint64, expireAt: int, edit: Edit, now: int): (r: (Store, bool))
    requires Valid(s) && k in s.items
  {
    match ItemFields(s.items[k])
    case None => (s, false)
    case Some(h) =>
      var it := EditedItem(k, s.items[k], ApplyEdit(h, edit), version, expireAt);
      InstallValid(s, k, it);
      var s' := Evict(Install(s, k, it), now);
      (s', k in s'.items)
  }

  /** hMutateLocked. */
  ghost function HMutate(s: Store, k: Key, version: uint64, expireAt: int, edit: Edit, now: int): (r: (Store, bool))
    requires Valid(s)
  {
    if k !in s.items then NewHash(s, k, version, expireAt, edit, now)
    else
      var it := s.items[k];
      RemoveValid(s, k);
      if it.entry.Expired(now) then NewHash(Remove(s, k), k, version, expireAt, edit, now)
      else if it.entry.IsTombstone() then
        if version <= it.entry.version then (s, false)
        else NewHash(Remove(s, k), k, version, expireAt, edit, now)
      else if !it.entry.IsHash() then (s, false)
      else EditHash(s, k, version, expireAt, edit, now)
  }

  /** Memory.HSet. */
  ghost function HSet(s: Store, k: Key, f: Bytes, v: Bytes, version: uint64, expireAt: int, now: int): (r: (Store, bool))
    requires Valid(s)
  {
    HMutate(s, k, version, expireAt, SetField(f, v), now)
  }

  /** Memory.HDel: nothing to do on a missing, expired or older-deleted key. */
  ghost function HDel(s: Store, k: Key, f: Bytes, version: uint64, expireAt: int, now: int): (r: (Store, bool))
    requires Valid(s)
  {
    if k !in s.items then (s, true)
    else if s.items[k].entry.Expired(now) then (Remove(s, k), true)
    else if s.items[k].entry.IsTombstone() then (s, version > s.items[k].entry.version)
    else HMutate(s, k, version, expireAt, DelField(f), now)
  }

  /** Memory.HInstall: the old entry goes before the blob is decoded. */
  ghost function HInstall(s: Store, k: Key, blob: Bytes, version: uint64, expireAt: int, now: int): (r: (Store, bool))
    requires Valid(s)
  {
    if Live(s, k, now) && version <= s.items[k].entry.version then (s, false)
    else
      if k in s.items then RemoveValid(s, k); HInstallInto(Remove(s, k), k, blob, version, expireAt, now)
      else HInstallInto(s, k, blob, version, expireAt, now)
  }

  ghost function HInstallInto(s: Store, k: Key, blob: Bytes, version: uint64, expireAt: int, now: int): (r: (Store, bool))
    requires Valid(s)
  {
    match HashCodec.Decode(blob)
    case None => (s, false)
    case Some(h) => InsertHash(s, k, Entry(blob, version, expireAt, {FlagHash}), h, now)
  }

  /** hPeekLocked: reads decode the blob once and keep the result. */
  ghost function HRead(s: Store, k: Key, now: int): (r: (Store, Option<HashCodec.Fields>))
    requires Valid(s)
  {
    if k !in s.items then (s, None)
    else if s.items[k].entry.Expired(now) then (Remove(s, k), None)
    else if s.items[k].entry.IsTombstone() || !s.items[k].entry.IsHash() then (s, None)
    else
      match ItemFields(s.items[k])
      case None => (s, None)
      case Some(h) => (Update(s, k, s.items[k].(cache := Some(h))), Some(h))
  }

  // ---------------------------------------------------------------- Top-K

  function Bump(v: uint64): uint64 { if v == MAX_UINT64 then 0 else v + 1 }

  datatype Added = Added(store: Store, applied: bool, tooLarge: bool)

  /** topkReplaceLocked: an absent expiry keeps the one already there. */
  ghost function TopKReplace(s: Store, k: Key, cur: Bytes, item: Bytes, stored: uint64, expireAt: int, size: nat,
                             maxValue: int, now: int): (r: Added)
    requires Valid(s) && k in s.items && 1 <= size
  {
    match TopK.ApplyBlob(cur, SpaceSaving.Term(item), size, maxValue)
    case Rejected => Added(s, false, false)
    case TooLarge => Added(s, false, true)
    case Applied(blob) =>
      var it := s.items[k];
      var e := Entry(blob, stored, if expireAt != 0 then expireAt else it.entry.expireAt, {FlagTopK});
      var it' := it.(entry := e, cost := EntryCost(k, e));
      InstallValid(s, k, it');
      var s' := Evict(Install(s, k, it'), now);
      Added(s', k in s'.items, false)
  }

  /** topkInsertLocked. */
  ghost function TopKInsert(s: Store, k: Key, item: Bytes, expireAt: int, size: nat, maxValue: int, now: int): (r: Added)
    requires Valid(s) && 1 <= size
  {
    match TopK.ApplyBlob([], SpaceSaving.Term(item), size, maxValue)
    case Rejected => Added(s, false, false)
    case TooLarge => Added(s, false, true)
    case Applied(blob) =>
      var e := Entry(blob, 1, expireAt, {FlagTopK});
      InstallValid(s, k, Plain(k, e));
      var s' := Evict(Install(s, k, Plain(k, e)), now);
      Added(s', k in s'.items, false)
  }

  /** Memory.TopKAdd: the stored version is the local one plus one, never the inbound one. */
  ghost function TopKAdd(s: Store, k: Key, item: Bytes, version: uint64, expireAt: int, size: int, maxValue: int,
                         now: int): (r: Added)
    requires Valid(s)
  {
    if size < 1 then Added(s, false, true)
    else if item == [] then Added(s, false, false)
    else if k !in s.items then TopKInsert(s, k, item, expireAt, size, maxValue, now)
    else
      var e := s.items[k].entry;
      RemoveValid(s, k);
      if e.Expired(now) then TopKInsert(Remove(s, k), k, item, expireAt, size, maxValue, now)
      else if e.IsTombstone() then
        if version <= e.version then Added(s, false, false)
        else TopKReplace(s, k, [], item, Bump(e.version), expireAt, size, maxValue, now)
      else if !e.IsTopK() then Added(s, false, false)
      else TopKReplace(s, k, e.value, item, Bump(e.version), expireAt, size, maxValue, now)
  }

  /** Memory.TopKInstall: last writer wins, and a bad blob is refused before anything changes. */
  ghost function TopKInstall(s: Store, k: Key, blob: Bytes, version: uint64, expireAt: int, size: int, now: int): (r: (Store, bool))
    requires Valid(s)
  {
    if size < 1 || TopK.DecodeInto(blob, size, []) == None then (s, false)
    else if Live(s, k, now) && version <= s.items[k].entry.version then (s, false)
    else
      var base := if k in s.items then Remove(s, k) else s;
      assert Valid(base) by { if k in s.items { RemoveValid(s, k); } }
      var e := Entry(blob, version, expireAt, {FlagTopK});
      InstallValid(base, k, Plain(k, e));
      var s' := Evict(Install(base, k, Plain(k, e)), now);
      (s', k in s'.items)
  }
}
