/**
 * When the size error of putLocalApply is wrong (pkg/engine/cluster.go): the entry is not too large, the accept was refused
 * because something as new was there, and then neither look found it. Which acts of others bring that about.
 */
module SizeErrors {
  import opened Basics
  import opened Ordering
  import opened Entries
  import opened Stores
  import opened Structures
  import opened StoreRuns
  import opened LocalApply
  import HashCodec
  import SpaceSaving
  import TopK

  ghost predicate Wrong(a: Call)
    requires Sound(a)
  {
    !TooLarge(a) && !Acks(a)
  }

  /** The acts of others between the steps of the call happen between them in time. */
  ghost predicate Orderly(a: Call)
  {
    && (forall i :: 0 <= i < |a.second| ==> a.t1 <= a.second[i].now <= a.t2)
    && (forall i :: 0 <= i < |a.third| ==> a.t2 <= a.third[i].now <= a.t3)
  }

  lemma {:induction false} RunKeepsLimit(s: Store, evs: seq<Event>)
    requires Valid(s)
    ensures Run(s, evs).maxBytes == s.maxBytes
    decreases |evs|
  {
    if evs != [] {
      StepLocal(s, evs[0].op, evs[0].now);
      RunKeepsLimit(Step(s, evs[0].op, evs[0].now), evs[1..]);
    }
  }

  /** The accept is refused by size, or because something as new is there. */
  lemma {:induction false} RefusedIff(s: Store, k: Key, e: Entry, now: int)
    requires Valid(s)
    ensures var r := AcceptIfNewer(s, k, e, now);
            && (r.1 <==> !Holds(s, k, e.version, now) && !(0 < s.maxBytes < EntryCost(k, e)))
            && (!r.1 ==> r.0 == s)
  {
  }

  /** So the error is wrong exactly if something as new stood there, and was missed by the first look and by the second. */
  lemma {:induction false} WrongIff(a: Call)
    requires Sound(a)
    ensures Wrong(a) <==>
            && !TooLarge(a) && Holds(AtAccept(a), a.key, Minted(a).version, a.t1)
            && !Finds(AtPeek(a), a.key, Minted(a).version, a.t2, false)
            && !Finds(AtPeekAgain(a), a.key, Minted(a).version, a.t3, true)
    ensures Wrong(a) ==> AfterAccept(a) == AtAccept(a)
  {
    MintKeeps(a);
    RunKeepsLimit(AtMint(a), a.first);
    RefusedIff(AtAccept(a), a.key, Minted(a), a.t1);
  }

  // ---------------------------------------------------------------- nobody at the key after the accept

  /** Work on other keys leaves k's item as it is, or evicts it; while it is protected, or without a budget, it stays. */
  lemma {:induction false} OthersLeave(s: Store, k: Key, evs: seq<Event>)
    requires Valid(s) && OnOthers(k, evs)
    ensures var r := Run(s, evs);
            && (k in r.items ==> k in s.items && r.items[k] == s.items[k])
            && (s.maxBytes <= 0 && k in s.items ==> k in r.items)
            && ((k in s.items && s.items[k].entry.IsStructure() && forall i :: 0 <= i < |evs| ==> !s.items[k].entry.Expired(evs[i].now))
                ==> k in r.items)
    decreases |evs|
  {
    if evs != [] {
      var next := Step(s, evs[0].op, evs[0].now);
      StepLocal(s, evs[0].op, evs[0].now);
      assert Undisturbed(s, next, k, evs[0].now);
      OthersLeave(next, k, evs[1..]);
    }
  }

  /** Some act of the run, on another key, pushes the key's entry out. */
  ghost predicate EvictedIn(s: Store, k: Key, evs: seq<Event>)
    requires Valid(s)
    decreases |evs|
  {
    && evs != []
    && var r := Step(s, evs[0].op, evs[0].now);
    && (StepLocal(s, evs[0].op, evs[0].now); (k in s.items && k !in r.items) || EvictedIn(r, k, evs[1..]))
  }

  lemma {:induction false} GoneIffEvicted(s: Store, k: Key, evs: seq<Event>)
    requires Valid(s) && OnOthers(k, evs) && k in s.items
    ensures k !in Run(s, evs).items <==> EvictedIn(s, k, evs)
    decreases |evs|
  {
    if evs != [] {
      var next := Step(s, evs[0].op, evs[0].now);
      StepLocal(s, evs[0].op, evs[0].now);
      if k in next.items {
        GoneIffEvicted(next, k, evs[1..]);
      } else {
        OthersLeave(next, k, evs[1..]);
      }
    }
  }

  /** A look finds the entry that is there, as long as it lasts, and leaves it there. */
  lemma {:induction false} LookFinds(s: Store, k: Key, v: uint64, now: int, tombstone: bool)
    requires Valid(s)
    ensures Finds(s, k, v, now, tombstone) <==>
            Live(s, k, now) && s.items[k].entry.version >= v && s.items[k].entry.IsTombstone() == tombstone
    ensures var r := Peek(s, k, now).0;
            && (k in r.items <==> Live(s, k, now))
            && (k in r.items ==> r.items[k].entry.version == s.items[k].entry.version &&
                                 r.items[k].entry.expireAt == s.items[k].entry.expireAt &&
                                 r.items[k].entry.flags == s.items[k].entry.flags)
  {
  }

  /**
   * Whatever happened before the accept, if nobody is at the key after it: the error is wrong if and only if something as
   * new was there, and it was a tombstone that lapsed before the second look, or a value that expired or was evicted before
   * the first.
   */
  lemma {:induction false} WrongWhenLeftAloneIff(a: Call)
    requires Sound(a) && Orderly(a) && OnOthers(a.key, a.second) && OnOthers(a.key, a.third) && !TooLarge(a)
    ensures !Acks(a) <==>
            && Holds(AtAccept(a), a.key, Minted(a).version, a.t1)
            && var x := AtAccept(a).items[a.key].entry;
            if x.IsTombstone() then x.Expired(a.t3) else x.Expired(a.t2) || EvictedIn(AtAccept(a), a.key, a.second)
  {
    var s, v := AtAccept(a), Minted(a).version;
    WrongIff(a);
    MintKeeps(a);
    RunKeepsLimit(AtMint(a), a.first);
    RefusedIff(s, a.key, Minted(a), a.t1);
    if Holds(s, a.key, v, a.t1) {
      assert AfterAccept(a) == s;
      if s.items[a.key].entry.IsTombstone() {
        TombstoneLooks(a);
      } else {
        ValueLooks(a);
      }
    }
  }

  lemma {:induction false} ValueLooks(a: Call)
    requires Sound(a) && OnOthers(a.key, a.second) && OnOthers(a.key, a.third)
    requires AfterAccept(a) == AtAccept(a) && Holds(AtAccept(a), a.key, Minted(a).version, a.t1)
    requires !AtAccept(a).items[a.key].entry.IsTombstone()
    ensures Finds(AtPeek(a), a.key, Minted(a).version, a.t2, false) <==>
            !AtAccept(a).items[a.key].entry.Expired(a.t2) && !EvictedIn(AtAccept(a), a.key, a.second)
    ensures !Finds(AtPeekAgain(a), a.key, Minted(a).version, a.t3, true)
  {
    var s, v := AtAccept(a), Minted(a).version;
    GoneIffEvicted(s, a.key, a.second);
    OthersLeave(s, a.key, a.second);
    LookFinds(AtPeek(a), a.key, v, a.t2, false);
    StepLocal(AtPeek(a), PeekOp(a.key), a.t2);
    OthersLeave(Peek(AtPeek(a), a.key, a.t2).0, a.key, a.third);
    LookFinds(AtPeekAgain(a), a.key, v, a.t3, true);
  }

  lemma {:induction false} TombstoneLooks(a: Call)
    requires Sound(a) && Orderly(a) && OnOthers(a.key, a.second) && OnOthers(a.key, a.third)
    requires AfterAccept(a) == AtAccept(a) && Holds(AtAccept(a), a.key, Minted(a).version, a.t1)
    requires AtAccept(a).items[a.key].entry.IsTombstone()
    ensures !Finds(AtPeek(a), a.key, Minted(a).version, a.t2, false)
    ensures Finds(AtPeekAgain(a), a.key, Minted(a).version, a.t3, true) <==> !AtAccept(a).items[a.key].entry.Expired(a.t3)
  {
    var s, v := AtAccept(a), Minted(a).version;
    OthersLeave(s, a.key, a.second);
    LookFinds(AtPeek(a), a.key, v, a.t2, false);
    StepLocal(AtPeek(a), PeekOp(a.key), a.t2);
    OthersLeave(Peek(AtPeek(a), a.key, a.t2).0, a.key, a.third);
    LookFinds(AtPeekAgain(a), a.key, v, a.t3, true);
  }

  // ---------------------------------------------------------------- acts at the key

  /** The store has, expired or not, an entry of the key at a version at least v. */
  ghost predicate Has(s: Store, k: Key, v: uint64) { k in s.items && s.items[k].entry.version >= v }

  /** The key holds a hash that can be edited. */
  ghost predicate Editable(s: Store, k: Key)
    requires k in s.items
  {
    s.items[k].entry.IsHash() && !s.items[k].entry.IsTombstone() && ItemFields(s.items[k]).Some?
  }

  /** The act writes an older version: a Set, an edit of a hash, or an observation that wraps the version around. */
  ghost predicate Lowers(s: Store, k: Key, v: uint64, op: Op)
    requires k in s.items
  {
    && op.k == k
    && match op
       case SetOp(_, e) => e.version < v && !(0 < s.maxBytes < EntryCost(k, e))
       case HSetOp(_, _, _, version, _) => version < v && Editable(s, k)
       case HDelOp(_, _, version, _) => version < v && Editable(s, k)
       case TopKAddOp(_, item, _, _, size, maxValue) =>
         && Bump(s.items[k].entry.version) < v && s.items[k].entry.IsTopK() && !s.items[k].entry.IsTombstone()
         && 1 <= size && item != [] && TopK.ApplyBlob(s.items[k].entry.value, SpaceSaving.Term(item), size, maxValue).Applied?
       case _ => false
  }

  lemma {:induction false} EntryActTakesIff(s: Store, k: Key, v: uint64, op: Op, now: int)
    requires Valid(s) && Live(s, k, now) && Has(s, k, v) && op.k == k
    requires op.SetOp? || op.AcceptOp? || op.NegativeOp? || op.DeleteOp? || op.DeleteVersionOp?
    ensures Has(Step(s, op, now), k, v) <==> k in Step(s, op, now).items && !Lowers(s, k, v, op)
  {
    match op
    case SetOp(_, e) => SetEffect(s, k, e, now);
    case AcceptOp(_, e) => AcceptEffect(s, k, e, now);
    case NegativeOp(_, e) => NegativeEffect(s, k, e, now);
    case DeleteOp(_) =>
    case DeleteVersionOp(_, version) => DeleteVersionEffect(s, k, version, now);
  }

  lemma {:induction false} LookTakesIff(s: Store, k: Key, v: uint64, op: Op, now: int)
    requires Valid(s) && Live(s, k, now) && Has(s, k, v) && op.k == k
    requires op.GetOp? || op.PeekOp? || op.PeekVersionOp? || op.HReadOp?
    ensures Has(Step(s, op, now), k, v)
  {
  }

  lemma {:induction false} HSetTakesIff(s: Store, k: Key, v: uint64, op: Op, now: int)
    requires Valid(s) && Live(s, k, now) && Has(s, k, v) && op.k == k && op.HSetOp?
    ensures Has(Step(s, op, now), k, v) <==> k in Step(s, op, now).items && !Lowers(s, k, v, op)
  {
    HMutateEffect(s, k, op.version, op.expireAt, SetField(op.f, op.v), now);
  }

  lemma {:induction false} HDelTakesIff(s: Store, k: Key, v: uint64, op: Op, now: int)
    requires Valid(s) && Live(s, k, now) && Has(s, k, v) && op.k == k && op.HDelOp?
    ensures Has(Step(s, op, now), k, v) <==> k in Step(s, op, now).items && !Lowers(s, k, v, op)
  {
    HDelEffect(s, k, op.f, op.version, op.expireAt, now);
  }

  lemma {:induction false} InstallTakesIff(s: Store, k: Key, v: uint64, op: Op, now: int)
    requires Valid(s) && Live(s, k, now) && Has(s, k, v) && op.k == k && (op.HInstallOp? || op.TopKInstallOp?)
    ensures Has(Step(s, op, now), k, v) <==> k in Step(s, op, now).items && !Lowers(s, k, v, op)
  {
    match op
    case HInstallOp(_, blob, version, expireAt) => HInstallEffect(s, k, blob, version, expireAt, now);
    case TopKInstallOp(_, blob, version, expireAt, size) => TopKInstallEffect(s, k, blob, version, expireAt, size, now);
  }

  lemma {:induction false} CountTakesIff(s: Store, k: Key, v: uint64, op: Op, now: int)
    requires Valid(s) && Live(s, k, now) && Has(s, k, v) && op.k == k && op.TopKAddOp?
    ensures Has(Step(s, op, now), k, v) <==> k in Step(s, op, now).items && !Lowers(s, k, v, op)
  {
    var e := s.items[k].entry;
    if 1 <= op.size && op.item != [] && (e.IsTombstone() ==> op.version > e.version) && (!e.IsTombstone() ==> e.IsTopK()) {
      TopKReplaceEffect(s, k, if e.IsTombstone() then [] else e.value, op.item, Bump(e.version), op.expireAt, op.size,
                        op.maxValue, now);
    }
  }

  /**
   * Exactly which acts take away what stood there: those after which the key has no entry (a removal, an eviction, an
   * install whose blob does not decode), and those that write an older version.
   */
  lemma {:induction false} TakesIff(s: Store, k: Key, v: uint64, op: Op, now: int)
    requires Valid(s) && Live(s, k, now) && Has(s, k, v)
    ensures Has(Step(s, op, now), k, v) <==> k in Step(s, op, now).items && !Lowers(s, k, v, op)
  {
    if op.k != k {
      StepLocal(s, op, now);
      assert Undisturbed(s, Step(s, op, now), k, now);
    } else if op.GetOp? || op.PeekOp? || op.PeekVersionOp? || op.HReadOp? {
      LookTakesIff(s, k, v, op, now);
    } else if op.HSetOp? {
      HSetTakesIff(s, k, v, op, now);
    } else if op.HDelOp? {
      HDelTakesIff(s, k, v, op, now);
    } else if op.HInstallOp? || op.TopKInstallOp? {
      InstallTakesIff(s, k, v, op, now);
    } else if op.TopKAddOp? {
      CountTakesIff(s, k, v, op, now);
    } else {
      EntryActTakesIff(s, k, v, op, now);
    }
  }

  /** The run drops the key, lowers it, or comes upon it when it has expired. */
  ghost predicate Undone(s: Store, k: Key, v: uint64, evs: seq<Event>)
    requires Valid(s)
    decreases |evs|
  {
    && evs != [] && k in s.items
    && var r := Step(s, evs[0].op, evs[0].now);
    && (StepLocal(s, evs[0].op, evs[0].now);
        || s.items[k].entry.Expired(evs[0].now) || k !in r.items || Lowers(s, k, v, evs[0].op)
        || Undone(r, k, v, evs[1..]))
  }

  /** An act of the run puts a value where the tombstone was. */
  ghost predicate Unburied(s: Store, k: Key, evs: seq<Event>)
    requires Valid(s)
    decreases |evs|
  {
    && evs != []
    && var r := Step(s, evs[0].op, evs[0].now);
    && (StepLocal(s, evs[0].op, evs[0].now);
        || (Buried(s, k) && k in r.items && !Buried(r, k)) || Unburied(r, k, evs[1..]))
  }

  ghost predicate Buried(s: Store, k: Key) { k in s.items && s.items[k].entry.IsTombstone() }

  lemma {:induction false} StandsUnlessUndone(s: Store, k: Key, v: uint64, evs: seq<Event>)
    requires Valid(s) && Has(s, k, v) && !Undone(s, k, v, evs)
    ensures Has(Run(s, evs), k, v)
    ensures Buried(s, k) && !Unburied(s, k, evs) ==> Buried(Run(s, evs), k)
    decreases |evs|
  {
    if evs != [] {
      StepLocal(s, evs[0].op, evs[0].now);
      TakesIff(s, k, v, evs[0].op, evs[0].now);
      StandsUnlessUndone(Step(s, evs[0].op, evs[0].now), k, v, evs[1..]);
    }
  }

  /**
   * Whoever else is at the key: a wrong size error takes an act, or time. What stood there at the accept was dropped,
   * lowered or found expired before the first look or the second; or it had expired by one of them; or it was a tombstone
   * that a value replaced between the looks.
   */
  lemma {:induction false} WrongTakesAnAct(a: Call)
    requires Sound(a) && Wrong(a)
    ensures var v, looked := Minted(a).version, Peek(AtPeek(a), a.key, a.t2).0;
            && Holds(AtAccept(a), a.key, v, a.t1) && Valid(looked)
            && (|| Undone(AtAccept(a), a.key, v, a.second)
                || (a.key in AtPeek(a).items && AtPeek(a).items[a.key].entry.Expired(a.t2))
                || Undone(looked, a.key, v, a.third)
                || (a.key in AtPeekAgain(a).items && AtPeekAgain(a).items[a.key].entry.Expired(a.t3))
                || (Buried(looked, a.key) && Unburied(looked, a.key, a.third)))
  {
    var v, looked := Minted(a).version, Peek(AtPeek(a), a.key, a.t2).0;
    WrongIff(a);
    StepLocal(AtPeek(a), PeekOp(a.key), a.t2);
    LookFinds(AtPeek(a), a.key, v, a.t2, false);
    LookFinds(AtPeekAgain(a), a.key, v, a.t3, true);
    if !Undone(AtAccept(a), a.key, v, a.second) {
      StandsUnlessUndone(AtAccept(a), a.key, v, a.second);
      if !AtPeek(a).items[a.key].entry.Expired(a.t2) && !Undone(looked, a.key, v, a.third) {
        StandsUnlessUndone(looked, a.key, v, a.third);
      }
    }
  }

  // ---------------------------------------------------------------- each of them does it

  /** A call of a fresh node. */
  function Simple(k: Key, value: Bytes, s: Store, now: int, first: seq<Event>, second: seq<Event>, third: seq<Event>, later: int): Call
  {
    Call(k, value, 0, map[], s, now, first, now, second, later, third, later)
  }

  lemma {:induction false} CameFirst(k: Key, value: Bytes, other: Entry, ttl: int, now: int, second: seq<Event>, third: seq<Event>, later: int)
    requires 1 <= other.version && !other.Expired(now) && now <= later
    ensures var a := Simple(k, value, Store(map[], [], 0, 0, ttl), now, [Event(AcceptOp(k, other), now)], second, third, later);
            && Sound(a) && !TooLarge(a) && Minted(a).version == 1 && AtAccept(a).maxBytes == 0
            && Holds(AtAccept(a), k, 1, now) && AtAccept(a).items[k].entry == other && AfterAccept(a) == AtAccept(a)
  {
    var s := Store(map[], [], 0, 0, ttl);
    EmptyIsValid(ttl);
    RunOne(s, Event(AcceptOp(k, other), now));
    StepLocal(s, AcceptOp(k, other), now);
    AcceptEffect(s, k, other, now);
  }

  /** Time alone: what came first, a value or a tombstone, is gone by the time of the looks. */
  lemma {:induction false} ExpiryMisleads(k: Key, value: Bytes, other: Entry, ttl: int, now: int, later: int)
    requires 1 <= other.version && !other.Expired(now) && other.Expired(later) && now <= later
    ensures var a := Simple(k, value, Store(map[], [], 0, 0, ttl), now, [Event(AcceptOp(k, other), now)], [], [], later);
            Sound(a) && Wrong(a)
  {
    CameFirst(k, value, other, ttl, now, [], [], later);
    WrongWhenLeftAloneIff(Simple(k, value, Store(map[], [], 0, 0, ttl), now, [Event(AcceptOp(k, other), now)], [], [], later));
  }

  /** A value that replaces the tombstone between the looks: the first look wants a value, and the second a tombstone. */
  lemma {:induction false} PutBetweenLooksMisleads(k: Key, value: Bytes, grave: Entry, newer: Entry, ttl: int, now: int)
    requires grave.flags == {FlagTombstone} && newer.flags == {} && grave.expireAt == newer.expireAt == 0
    requires 1 <= grave.version < newer.version
    ensures var a := Simple(k, value, Store(map[], [], 0, 0, ttl), now, [Event(AcceptOp(k, grave), now)], [],
                            [Event(AcceptOp(k, newer), now)], now);
            && Sound(a) && Wrong(a)
            && k in AtPeekAgain(a).items && AtPeekAgain(a).items[k].entry == newer
  {
    var put := Event(AcceptOp(k, newer), now);
    var a := Simple(k, value, Store(map[], [], 0, 0, ttl), now, [Event(AcceptOp(k, grave), now)], [], [put], now);
    CameFirst(k, value, grave, ttl, now, [], [put], now);
    assert AtPeek(a) == AtAccept(a);
    StepLocal(AtPeek(a), PeekOp(k), now);
    var looked := Peek(AtPeek(a), k, now).0;
    LookFinds(AtPeek(a), k, 1, now, false);
    RunOne(looked, put);
    AcceptEffect(looked, k, newer, now);
    LookFinds(AtPeekAgain(a), k, 1, now, true);
    WrongIff(a);
  }

  lemma {:induction false} EvictsOne(s: Store, i: nat, now: int)
    requires Valid(s) && 0 < s.maxBytes < s.bytes && VictimIndex(s.items, s.order, now) == i
    requires Remove(s, s.order[i]).bytes <= s.maxBytes
    ensures Evict(s, now) == Remove(s, s.order[i])
  {
    RemoveValid(s, s.order[i]);
  }

  lemma {:induction false} LastIsVictim(items: map<Key, Item>, order: seq<Key>, now: int)
    requires order != [] && (forall k :: k in order ==> k in items) && !items[order[|order| - 1]].entry.Protected(now)
    ensures VictimIndex(items, order, now) == |order| - 1
  {
  }

  lemma {:induction false} TouchTwo(k: Key, k': Key)
    requires k != k'
    ensures Touch([k], k') == [k', k]
  {
    WithoutFirst([k], 1, k');
  }

  lemma {:induction false} SecondEvictsFirst(s: Store, k: Key, x: Entry, k': Key, y: Entry, now: int)
    requires k != k' && x.flags == y.flags == {}
    requires s == Store(map[k := Plain(k, x)], [k], EntryCost(k, x), s.maxBytes, s.tombstoneTTL)
    requires EntryCost(k', y) <= s.maxBytes < EntryCost(k, x) + EntryCost(k', y)
    ensures Valid(s) && k !in Step(s, AcceptOp(k', y), now).items
  {
    OneIsValid(s, k, x);
    var s1 := Install(s, k', Plain(k', y));
    InstallValid(s, k', Plain(k', y));
    TouchTwo(k, k');
    OldestGoes(s1, k, k', now);
    AcceptIs(s, k', y, now);
  }

  lemma {:induction false} AcceptIs(s: Store, k: Key, e: Entry, now: int)
    requires Valid(s) && k !in s.items && (s.maxBytes <= 0 || EntryCost(k, e) <= s.maxBytes)
    ensures Valid(Install(s, k, Plain(k, e))) && Step(s, AcceptOp(k, e), now) == Evict(Install(s, k, Plain(k, e)), now)
  {
    InstallValid(s, k, Plain(k, e));
  }

  lemma {:induction false} OldestGoes(s: Store, k: Key, k': Key, now: int)
    requires Valid(s) && s.order == [k', k] && k in s.items && !s.items[k].entry.Protected(now)
    requires 0 < s.maxBytes < s.bytes && s.bytes - s.items[k].cost <= s.maxBytes
    ensures k !in Evict(s, now).items
  {
    LastIsVictim(s.items, s.order, now);
    EvictsOne(s, 1, now);
  }

  lemma {:induction false} OneIsValid(s: Store, k: Key, x: Entry)
    requires s == Store(map[k := Plain(k, x)], [k], EntryCost(k, x), s.maxBytes, s.tombstoneTTL)
    ensures Valid(s)
  {
    EmptyIsValid(s.tombstoneTTL);
    InstallValid(Store(map[], [], 0, 0, s.tombstoneTTL), k, Plain(k, x));
    assert Install(Store(map[], [], 0, 0, s.tombstoneTTL), k, Plain(k, x)) == s.(maxBytes := 0);
  }

  lemma {:induction false} FirstHolds(a: Call, x: Entry)
    requires a == Simple(a.key, a.value, Store(map[], [], 0, a.start.maxBytes, a.start.tombstoneTTL), a.t0,
                         [Event(AcceptOp(a.key, x), a.t0)], a.second, [], a.t0)
    requires 1 <= x.version && x.expireAt == 0
    requires EntryCost(a.key, x) <= a.start.maxBytes && EntryCost(a.key, Entry(a.value, 1, 0, {})) <= a.start.maxBytes
    ensures Sound(a) && !TooLarge(a) && Minted(a).version == 1 && Holds(AtAccept(a), a.key, 1, a.t1)
    ensures AtAccept(a) == Store(map[a.key := Plain(a.key, x)], [a.key], EntryCost(a.key, x), a.start.maxBytes, a.start.tombstoneTTL)
  {
    FirstFits(a.start, a.key, x, a.t0);
  }

  /** An entry of another key pushes out what came first. */
  lemma {:induction false} EvictionMisleads(k: Key, value: Bytes, x: Entry, k': Key, y: Entry, limit: int, ttl: int, now: int)
    requires k != k' && x.flags == y.flags == {} && x.expireAt == 0 && 1 <= x.version
    requires EntryCost(k, x) <= limit && EntryCost(k', y) <= limit < EntryCost(k, x) + EntryCost(k', y)
    requires EntryCost(k, Entry(value, 1, 0, {})) <= limit
    ensures var a := Simple(k, value, Store(map[], [], 0, limit, ttl), now, [Event(AcceptOp(k, x), now)],
                            [Event(AcceptOp(k', y), now)], [], now);
            Sound(a) && Wrong(a)
  {
    var a := Simple(k, value, Store(map[], [], 0, limit, ttl), now, [Event(AcceptOp(k, x), now)],
                    [Event(AcceptOp(k', y), now)], [], now);
    FirstHolds(a, x);
    SecondEvictsFirst(AtAccept(a), k, x, k', y, now);
    OneEvicts(AtAccept(a), k, a.second);
    WrongWhenLeftAloneIff(a);
  }

  lemma {:induction false} OneEvicts(s: Store, k: Key, evs: seq<Event>)
    requires Valid(s) && |evs| == 1 && k in s.items && k !in Step(s, evs[0].op, evs[0].now).items
    ensures EvictedIn(s, k, evs)
  {
  }

  lemma {:induction false} FirstFits(s: Store, k: Key, x: Entry, now: int)
    requires s == Store(map[], [], 0, s.maxBytes, s.tombstoneTTL) && EntryCost(k, x) <= s.maxBytes
    ensures Valid(s)
    ensures Run(s, [Event(AcceptOp(k, x), now)]) ==
            Store(map[k := Plain(k, x)], [k], EntryCost(k, x), s.maxBytes, s.tombstoneTTL)
  {
    assert Costs(map[]) == map[];
    RunOne(s, Event(AcceptOp(k, x), now));
    AcceptIs(s, k, x, now);
    assert Install(s, k, Plain(k, x)) == Store(map[k := Plain(k, x)], [k], EntryCost(k, x), s.maxBytes, s.tombstoneTTL);
  }
}
