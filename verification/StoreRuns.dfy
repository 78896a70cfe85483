/** Any sequence of store operations: what every step keeps. */
module StoreRuns {
  import opened Basics
  import opened Ordering
  import opened Entries
  import opened Stores
  import opened Structures
  import HashCodec
  import SpaceSaving
  import TopK

  datatype Op =
    | SetOp(k: Key, e: Entry)
    | AcceptOp(k: Key, e: Entry)
    | NegativeOp(k: Key, e: Entry)
    | DeleteOp(k: Key)
    | DeleteVersionOp(k: Key, version: uint64)
    | GetOp(k: Key)
    | PeekOp(k: Key)
    | PeekVersionOp(k: Key)
    | HSetOp(k: Key, f: Bytes, v: Bytes, version: uint64, expireAt: int)
    | HDelOp(k: Key, f: Bytes, version: uint64, expireAt: int)
    | HInstallOp(k: Key, blob: Bytes, version: uint64, expireAt: int)
    | HReadOp(k: Key)
    | TopKAddOp(k: Key, item: Bytes, version: uint64, expireAt: int, size: int, maxValue: int)
    | TopKInstallOp(k: Key, blob: Bytes, version: uint64, expireAt: int, size: int)

  /** The store after one operation at time `now`. */
  ghost function Step(s: Store, op: Op, now: int): (r: Store)
    requires Valid(s)
  {
    match op
    case SetOp(k, e) => Set(s, k, e, now).0
    case AcceptOp(k, e) => AcceptIfNewer(s, k, e, now).0
    case NegativeOp(k, e) => AcceptNegative(s, k, e, now).0
    case DeleteOp(k) => Delete(s, k).0
    case DeleteVersionOp(k, v) => DeleteIfVersion(s, k, v, now).0
    case GetOp(k) => Get(s, k, now).0
    case PeekOp(k) => Peek(s, k, now).0
    case PeekVersionOp(k) => PeekVersion(s, k, now).0
    case HSetOp(k, f, v, version, expireAt) => HSet(s, k, f, v, version, expireAt, now).0
    case HDelOp(k, f, version, expireAt) => HDel(s, k, f, version, expireAt, now).0
    case HInstallOp(k, blob, version, expireAt) => HInstall(s, k, blob, version, expireAt, now).0
    case HReadOp(k) => HRead(s, k, now).0
    case TopKAddOp(k, item, version, expireAt, size, maxValue) =>
      TopKAdd(s, k, item, version, expireAt, size, maxValue, now).store
    case TopKInstallOp(k, blob, version, expireAt, size) =>
      TopKInstall(s, k, blob, version, expireAt, size, now).0
  }

  /** An operation on another key leaves k's item alone, or drops it if there is a budget and it was unprotected. */
  ghost predicate Undisturbed(s: Store, r: Store, k: Key, now: int)
  {
    && (k in r.items ==> k in s.items && r.items[k] == s.items[k])
    && (Protected(s, k, now) ==> k in r.items)
    && (s.maxBytes <= 0 && k in s.items ==> k in r.items)
  }

  /** What an operation on key k0 may do: r is valid, and disturbs no other key. */
  ghost predicate Local(s: Store, r: Store, k0: Key, now: int)
  {
    && Valid(r)
    && r.maxBytes == s.maxBytes && r.tombstoneTTL == s.tombstoneTTL
    && (forall k :: k != k0 ==> Undisturbed(s, r, k, now))
  }

  lemma {:induction false} RemoveLocal(s: Store, k0: Key, now: int)
    requires Valid(s) && k0 in s.items
    ensures Local(s, Remove(s, k0), k0, now)
  {
    RemoveValid(s, k0);
  }

  lemma {:induction false} UpdateLocal(s: Store, k0: Key, it: Item, now: int)
    requires Valid(s) && k0 in s.items && 0 <= it.cost
    ensures Local(s, Update(s, k0, it), k0, now)
  {
    UpdateValid(s, k0, it);
  }

  lemma {:induction false} InstallLocal(s: Store, k0: Key, it: Item, now: int)
    requires Valid(s) && 0 <= it.cost
    ensures Local(s, Install(s, k0, it), k0, now)
  {
    InstallValid(s, k0, it);
  }

  /** r is s with `it` under k0, which eviction may have taken away again only under a budget and if unprotected. */
  ghost predicate Installed(s: Store, r: Store, k0: Key, it: Item, now: int)
  {
    && Local(s, r, k0, now)
    && (k0 in r.items ==> r.items[k0] == it)
    && (it.entry.Protected(now) || s.maxBytes <= 0 ==> k0 in r.items)
  }

  lemma {:induction false} EvictUndisturbed(s: Store, r: Store, now: int)
    requires Valid(s) && r == Evict(s, now)
    ensures Valid(r)
    ensures forall k :: Undisturbed(s, r, k, now)
  {
    EvictValid(s, now);
    forall k ensures Undisturbed(s, r, k, now) {
      EvictDrops(s, now, k);
    }
  }

  lemma {:induction false} InstallThenDrop(s: Store, k0: Key, it: Item, s1: Store, r: Store, now: int)
    requires s1 == Install(s, k0, it) && Valid(r)
    requires r.maxBytes == s.maxBytes && r.tombstoneTTL == s.tombstoneTTL
    requires forall k :: Undisturbed(s1, r, k, now)
    ensures Installed(s, r, k0, it, now)
  {
    forall k | k != k0 ensures Undisturbed(s, r, k, now) {
      assert Undisturbed(s1, r, k, now);
    }
    assert Undisturbed(s1, r, k0, now);
  }

  lemma {:induction false} InstallEvictLocal(s: Store, k0: Key, it: Item, now: int)
    requires Valid(s) && 0 <= it.cost
    ensures Valid(Install(s, k0, it))
    ensures Installed(s, Evict(Install(s, k0, it), now), k0, it, now)
  {
    var s1 := Install(s, k0, it);
    InstallValid(s, k0, it);
    EvictUndisturbed(s1, Evict(s1, now), now);
    InstallThenDrop(s, k0, it, s1, Evict(s1, now), now);
  }

  /** Removing first and installing then, as several operations do. */
  lemma {:induction false} ReplaceEvictLocal(s: Store, k0: Key, it: Item, now: int)
    requires Valid(s) && k0 in s.items && 0 <= it.cost
    ensures Valid(Remove(s, k0)) && Valid(Install(Remove(s, k0), k0, it))
    ensures Installed(s, Evict(Install(Remove(s, k0), k0, it), now), k0, it, now)
  {
    RemoveValid(s, k0);
    InstallEvictLocal(Remove(s, k0), k0, it, now);
    var r := Evict(Install(Remove(s, k0), k0, it), now);
    forall k | k != k0 ensures Undisturbed(s, r, k, now) {
      assert Undisturbed(Remove(s, k0), r, k, now);
    }
  }

  // ---------------------------------------------------------------- effect of each operation on its key

  lemma {:induction false} SetEffect(s: Store, k: Key, e: Entry, now: int)
    requires Valid(s)
    ensures var r := Set(s, k, e, now);
            if r.1 then Installed(s, r.0, k, Plain(k, e), now) else r.0 == s
  {
    InstallEvictLocal(s, k, Plain(k, e), now);
  }

  lemma {:induction false} AcceptEffect(s: Store, k: Key, e: Entry, now: int)
    requires Valid(s)
    ensures var r := AcceptIfNewer(s, k, e, now);
            if r.1 then Installed(s, r.0, k, Plain(k, e), now) else r.0 == s
  {
    SetEffect(s, k, e, now);
  }

  lemma {:induction false} NegativeEffect(s: Store, k: Key, e: Entry, now: int)
    requires Valid(s)
    ensures var r := AcceptNegative(s, k, e, now);
            if r.1 then Installed(s, r.0, k, Overwrite(s, k, e), now) else r.0 == s
  {
    InstallEvictLocal(s, k, Overwrite(s, k, e), now);
  }

  lemma {:induction false} DeleteVersionEffect(s: Store, k: Key, version: uint64, now: int)
    requires Valid(s)
    ensures var r := DeleteIfVersion(s, k, version, now);
            if r.1 then Installed(s, r.0, k, Overwrite(s, k, TombstoneOf(s, version, now)), now) else r.0 == s
  {
    InstallEvictLocal(s, k, Overwrite(s, k, TombstoneOf(s, version, now)), now);
  }

  lemma {:induction false} GetEffect(s: Store, k: Key, now: int)
    requires Valid(s)
    ensures Local(s, Get(s, k, now).0, k, now)
  {
    if k in s.items {
      RemoveLocal(s, k, now);
      InstallLocal(s, k, FlushItem(k, s.items[k]), now);
    }
  }

  lemma {:induction false} PeekEffect(s: Store, k: Key, now: int)
    requires Valid(s)
    ensures Local(s, Peek(s, k, now).0, k, now)
    ensures Local(s, PeekVersion(s, k, now).0, k, now)
  {
    if k in s.items {
      RemoveLocal(s, k, now);
      UpdateLocal(s, k, FlushItem(k, s.items[k]), now);
    }
  }

  lemma {:induction false} HReadEffect(s: Store, k: Key, now: int)
    requires Valid(s)
    ensures Local(s, HRead(s, k, now).0, k, now)
  {
    if k in s.items {
      RemoveLocal(s, k, now);
      UpdateLocal(s, k, s.items[k].(cache := ItemFields(s.items[k])), now);
    }
  }

  /** The item a new hash gets. */
  ghost function FreshHash(k: Key, version: uint64, expireAt: int, edit: Edit): (it: Item)
    ensures 0 <= it.cost
  {
    var h := ApplyEdit(map[], edit);
    var e := Entry(HashCodec.Encode(h), version, expireAt, {FlagHash});
    Item(e, EntryCost(k, e), Some(h), false)
  }

  /** What hMutateLocked puts under k; None when it refuses. */
  ghost function EditTarget(s: Store, k: Key, version: uint64, expireAt: int, edit: Edit, now: int): (r: Option<Item>)
    ensures r.Some? ==> 0 <= r.value.cost
  {
    if !Live(s, k, now) then Some(FreshHash(k, version, expireAt, edit))
    else
      var it := s.items[k];
      if it.entry.IsTombstone() then
        if version <= it.entry.version then None else Some(FreshHash(k, version, expireAt, edit))
      else if !it.entry.IsHash() || ItemFields(it) == None then None
      else Some(EditedItem(k, it, ApplyEdit(ItemFields(it).value, edit), version, expireAt))
  }

  lemma {:induction false} HMutateEffect(s: Store, k: Key, version: uint64, expireAt: int, edit: Edit, now: int)
    requires Valid(s)
    ensures var r := HMutate(s, k, version, expireAt, edit, now);
            match EditTarget(s, k, version, expireAt, edit, now)
            case None => r.0 == s
            case Some(it) => Installed(s, r.0, k, it, now)
  {
    var target := EditTarget(s, k, version, expireAt, edit, now);
    if target.Some? {
      var it := target.value;
      if k !in s.items || (Live(s, k, now) && !s.items[k].entry.IsTombstone()) {
        InstallEvictLocal(s, k, it, now);
      } else {
        ReplaceEvictLocal(s, k, it, now);
      }
    }
  }

  lemma {:induction false} HDelEffect(s: Store, k: Key, f: Bytes, version: uint64, expireAt: int, now: int)
    requires Valid(s)
    ensures var r := HDel(s, k, f, version, expireAt, now);
            if !Live(s, k, now) then Local(s, r.0, k, now) && k !in r.0.items
            else if s.items[k].entry.IsTombstone() then r.0 == s
            else
              match EditTarget(s, k, version, expireAt, DelField(f), now)
              case None => r.0 == s
              case Some(it) => Installed(s, r.0, k, it, now)
  {
    if Live(s, k, now) && !s.items[k].entry.IsTombstone() {
      HMutateEffect(s, k, version, expireAt, DelField(f), now);
    } else if k in s.items {
      RemoveLocal(s, k, now);
    }
  }

  /** HInstall: refused by version, dropped by a bad blob, or installed. */
  lemma {:induction false} HInstallEffect(s: Store, k: Key, blob: Bytes, version: uint64, expireAt: int, now: int)
    requires Valid(s)
    ensures var r := HInstall(s, k, blob, version, expireAt, now);
            if Live(s, k, now) && version <= s.items[k].entry.version then r == (s, false)
            else
              match HashCodec.Decode(blob)
              case None => Local(s, r.0, k, now) && k !in r.0.items && !r.1
              case Some(h) =>
                var e := Entry(blob, version, expireAt, {FlagHash});
                Installed(s, r.0, k, Item(e, EntryCost(k, e), Some(h), false), now)
  {
    if !(Live(s, k, now) && version <= s.items[k].entry.version) {
      var e := Entry(blob, version, expireAt, {FlagHash});
      match HashCodec.Decode(blob)
      case None => if k in s.items { RemoveLocal(s, k, now); }
      case Some(h) =>
        var it := Item(e, EntryCost(k, e), Some(h), false);
        if k in s.items { ReplaceEvictLocal(s, k, it, now); } else { InstallEvictLocal(s, k, it, now); }
    }
  }

  /**
   * An install whose expiry is still ahead leaves the key without an entry if
   * and only if the version gate let a blob through that does not decode: the
   * old entry is gone by then. So a rejected install can lose the key.
   */
  lemma {:induction false} InstallLosesKey(s: Store, k: Key, blob: Bytes, version: uint64, expireAt: int, now: int)
    requires Valid(s) && Live(s, k, now) && (expireAt == 0 || now < expireAt)
    ensures var r := HInstall(s, k, blob, version, expireAt, now);
            && (k !in r.0.items <==>
                version > s.items[k].entry.version && HashCodec.Decode(blob).None?)
            && (r.1 <==> version > s.items[k].entry.version && HashCodec.Decode(blob).Some?)
  {
    HInstallEffect(s, k, blob, version, expireAt, now);
  }

  /** One cut-off byte under a newer version is enough, whatever live entry the key has. */
  lemma {:induction false} CutOffBlobLosesKey(s: Store, k: Key, version: uint64, now: int)
    requires Valid(s) && Live(s, k, now) && s.items[k].entry.version < version
    ensures var r := HInstall(s, k, [0x80], version, 0, now);
            !r.1 && k !in r.0.items
  {
    var b: Bytes := [0x80];
    assert b[1..] == [];
    assert HashCodec.Decode(b).None?;
    InstallLosesKey(s, k, b, version, 0, now);
  }

  lemma {:induction false} TopKReplaceEffect(s: Store, k: Key, cur: Bytes, item: Bytes, stored: uint64, expireAt: int, size: nat,
                          maxValue: int, now: int)
    requires Valid(s) && k in s.items && 1 <= size
    ensures var r := TopKReplace(s, k, cur, item, stored, expireAt, size, maxValue, now);
            match TopK.ApplyBlob(cur, SpaceSaving.Term(item), size, maxValue)
            case Applied(blob) =>
              var e := Entry(blob, stored, if expireAt != 0 then expireAt else s.items[k].entry.expireAt, {FlagTopK});
              Installed(s, r.store, k, s.items[k].(entry := e, cost := EntryCost(k, e)), now)
            case _ => r.store == s
  {
    match TopK.ApplyBlob(cur, SpaceSaving.Term(item), size, maxValue)
    case Applied(blob) =>
      var e := Entry(blob, stored, if expireAt != 0 then expireAt else s.items[k].entry.expireAt, {FlagTopK});
      InstallEvictLocal(s, k, s.items[k].(entry := e, cost := EntryCost(k, e)), now);
    case _ =>
  }

  lemma {:induction false} TopKInsertEffect(s: Store, k: Key, item: Bytes, expireAt: int, size: nat, maxValue: int, now: int)
    requires Valid(s) && 1 <= size
    ensures var r := TopKInsert(s, k, item, expireAt, size, maxValue, now);
            match TopK.ApplyBlob([], SpaceSaving.Term(item), size, maxValue)
            case Applied(blob) => Installed(s, r.store, k, Plain(k, Entry(blob, 1, expireAt, {FlagTopK})), now)
            case _ => r.store == s
  {
    match TopK.ApplyBlob([], SpaceSaving.Term(item), size, maxValue)
    case Applied(blob) => InstallEvictLocal(s, k, Plain(k, Entry(blob, 1, expireAt, {FlagTopK})), now);
    case _ =>
  }

  lemma {:induction false} LocalTrans(s: Store, s1: Store, r: Store, k: Key, now: int)
    requires Local(s, s1, k, now) && Local(s1, r, k, now)
    ensures Local(s, r, k, now)
  {
    forall k' | k' != k ensures Undisturbed(s, r, k', now) {
      assert Undisturbed(s, s1, k', now) && Undisturbed(s1, r, k', now);
    }
  }

  lemma {:induction false} TopKRenewLocal(s: Store, k: Key, item: Bytes, expireAt: int, size: nat, maxValue: int, now: int)
    requires Valid(s) && k in s.items && 1 <= size
    ensures Valid(Remove(s, k))
    ensures Local(s, TopKInsert(Remove(s, k), k, item, expireAt, size, maxValue, now).store, k, now)
  {
    RemoveLocal(s, k, now);
    TopKInsertEffect(Remove(s, k), k, item, expireAt, size, maxValue, now);
    LocalTrans(s, Remove(s, k), TopKInsert(Remove(s, k), k, item, expireAt, size, maxValue, now).store, k, now);
  }

  lemma {:induction false} TopKReplaceLocal(s: Store, k: Key, cur: Bytes, item: Bytes, stored: uint64, expireAt: int, size: nat,
                         maxValue: int, now: int)
    requires Valid(s) && k in s.items && 1 <= size
    ensures Local(s, TopKReplace(s, k, cur, item, stored, expireAt, size, maxValue, now).store, k, now)
  {
    TopKReplaceEffect(s, k, cur, item, stored, expireAt, size, maxValue, now);
  }

  lemma {:induction false} TopKAddLocal(s: Store, k: Key, item: Bytes, version: uint64, expireAt: int, size: int, maxValue: int, now: int)
    requires Valid(s)
    ensures Local(s, TopKAdd(s, k, item, version, expireAt, size, maxValue, now).store, k, now)
  {
    if 1 <= size && item != [] {
      if k !in s.items {
        TopKInsertEffect(s, k, item, expireAt, size, maxValue, now);
      } else if s.items[k].entry.Expired(now) {
        TopKRenewLocal(s, k, item, expireAt, size, maxValue, now);
      } else {
        var e := s.items[k].entry;
        TopKReplaceLocal(s, k, if e.IsTombstone() then [] else e.value, item, Bump(e.version), expireAt, size, maxValue, now);
      }
    }
  }

  lemma {:induction false} TopKInstallEffect(s: Store, k: Key, blob: Bytes, version: uint64, expireAt: int, size: int, now: int)
    requires Valid(s)
    ensures var r := TopKInstall(s, k, blob, version, expireAt, size, now);
            || r == (s, false)
            || (&& !(Live(s, k, now) && version <= s.items[k].entry.version)
                && Installed(s, r.0, k, Plain(k, Entry(blob, version, expireAt, {FlagTopK})), now))
  {
    var it := Plain(k, Entry(blob, version, expireAt, {FlagTopK}));
    if k in s.items {
      ReplaceEvictLocal(s, k, it, now);
    } else {
      InstallEvictLocal(s, k, it, now);
    }
  }

  // ---------------------------------------------------------------- every step, every run

  /** Every operation keeps the store valid and disturbs no other key's protected entry. */
  lemma {:induction false} EntryStepLocal(s: Store, op: Op, now: int)
    requires Valid(s) && (op.SetOp? || op.AcceptOp? || op.NegativeOp? || op.DeleteOp? || op.DeleteVersionOp?)
    ensures Local(s, Step(s, op, now), op.k, now)
  {
    match op
    case SetOp(k, e) => SetEffect(s, k, e, now);
    case AcceptOp(k, e) => AcceptEffect(s, k, e, now);
    case NegativeOp(k, e) => NegativeEffect(s, k, e, now);
    case DeleteOp(k) => if k in s.items { RemoveLocal(s, k, now); }
    case DeleteVersionOp(k, v) => DeleteVersionEffect(s, k, v, now);
  }

  lemma {:induction false} LookStepLocal(s: Store, op: Op, now: int)
    requires Valid(s) && (op.GetOp? || op.PeekOp? || op.PeekVersionOp? || op.HReadOp?)
    ensures Local(s, Step(s, op, now), op.k, now)
  {
    match op
    case GetOp(k) => GetEffect(s, k, now);
    case PeekOp(k) => PeekEffect(s, k, now);
    case PeekVersionOp(k) => PeekEffect(s, k, now);
    case HReadOp(k) => HReadEffect(s, k, now);
  }

  lemma {:induction false} StepLocal(s: Store, op: Op, now: int)
    requires Valid(s)
    ensures Local(s, Step(s, op, now), op.k, now)
  {
    match op
    case HSetOp(k, f, v, version, expireAt) => HMutateEffect(s, k, version, expireAt, SetField(f, v), now);
    case HDelOp(k, f, version, expireAt) => HDelEffect(s, k, f, version, expireAt, now);
    case HInstallOp(k, blob, version, expireAt) => HInstallEffect(s, k, blob, version, expireAt, now);
    case TopKAddOp(k, item, version, expireAt, size, maxValue) =>
      TopKAddLocal(s, k, item, version, expireAt, size, maxValue, now);
    case TopKInstallOp(k, blob, version, expireAt, size) =>
      TopKInstallEffect(s, k, blob, version, expireAt, size, now);
    case _ =>
      if op.GetOp? || op.PeekOp? || op.PeekVersionOp? || op.HReadOp? {
        LookStepLocal(s, op, now);
      } else {
        EntryStepLocal(s, op, now);
      }
  }

  datatype Event = Event(op: Op, now: int)

  ghost function Run(s: Store, evs: seq<Event>): (r: Store)
    requires Valid(s)
    ensures Valid(r)
    decreases |evs|
  {
    if evs == [] then s
    else
      StepLocal(s, evs[0].op, evs[0].now);
      Run(Step(s, evs[0].op, evs[0].now), evs[1..])
  }
}
