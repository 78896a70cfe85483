/**
 * putLocalApply on one node (pkg/engine/cluster.go): mint a version, accept the entry, and if the store refuses it, look
 * twice at what is there. Other operations on the store may come in between any two of these.
 */
module LocalApply {
  import opened Basics
  import opened Entries
  import opened Stores
  import opened StoreRuns
  import opened Protocol
  import Eviction
  import Versions

  /**
   * The version is minted on `start` at t0; others work on the store before the accept at t1, and, if that refuses, before
   * each of the two peeks at t2 and t3.
   */
  datatype Call = Call(
    key: Key, value: Bytes, expireAt: int, lastVer: map<Key, uint64>, start: Store, t0: int,
    first: seq<Event>, t1: int, second: seq<Event>, t2: int, third: seq<Event>, t3: int)

  ghost predicate Sound(a: Call) { Stores.Valid(a.start) && a.t0 <= a.t1 <= a.t2 <= a.t3 }

  ghost function Minted(a: Call): Entry
    requires Sound(a)
  {
    Entry(a.value, Successor(Versions.MintSeed(a.lastVer, a.start, a.key, 0, a.t0)), a.expireAt, {})
  }

  /** The store once nextVersion has looked at the key, which drops it if it has expired. */
  ghost function AtMint(a: Call): (s: Store)
    requires Sound(a)
    ensures Stores.Valid(s)
  {
    StepLocal(a.start, PeekVersionOp(a.key), a.t0);
    PeekVersion(a.start, a.key, a.t0).0
  }

  ghost function AtAccept(a: Call): (s: Store)
    requires Sound(a)
    ensures Stores.Valid(s)
  {
    StoreRuns.Run(AtMint(a), a.first)
  }

  ghost predicate Commits(a: Call)
    requires Sound(a)
  {
    AcceptIfNewer(AtAccept(a), a.key, Minted(a), a.t1).1
  }

  /** The store the accept leaves. */
  ghost function AfterAccept(a: Call): (s: Store)
    requires Sound(a)
    ensures Stores.Valid(s)
  {
    StepLocal(AtAccept(a), AcceptOp(a.key, Minted(a)), a.t1);
    AcceptIfNewer(AtAccept(a), a.key, Minted(a), a.t1).0
  }

  ghost function AtPeek(a: Call): (s: Store)
    requires Sound(a)
    ensures Stores.Valid(s)
  {
    StoreRuns.Run(AfterAccept(a), a.second)
  }

  ghost function AtPeekAgain(a: Call): (s: Store)
    requires Sound(a)
    ensures Stores.Valid(s)
  {
    StepLocal(AtPeek(a), PeekOp(a.key), a.t2);
    StoreRuns.Run(Peek(AtPeek(a), a.key, a.t2).0, a.third)
  }

  /** A look at the key finds a live value, or a tombstone, at a version at least v. */
  ghost predicate Finds(s: Store, k: Key, v: uint64, now: int, tombstone: bool)
    requires Stores.Valid(s)
  {
    var e := Peek(s, k, now).1;
    e.Some? && e.value.IsTombstone() == tombstone && e.value.version >= v
  }

  /** Whether putLocalApply reports success, after its context check. */
  ghost predicate Acks(a: Call)
    requires Sound(a)
  {
    || Commits(a)
    || Finds(AtPeek(a), a.key, Minted(a).version, a.t2, false)
    || Finds(AtPeekAgain(a), a.key, Minted(a).version, a.t3, true)
  }

  // ---------------------------------------------------------------- what a success is worth

  /** The store has the key at a version at least v. */
  ghost predicate Holds(s: Store, k: Key, v: uint64, now: int) { Live(s, k, now) && s.items[k].entry.version >= v }

  /** The entry fits next to everything the store may not evict. */
  ghost predicate FitsBeside(s: Store, k: Key, e: Entry, now: int)
  {
    s.maxBytes <= 0 || EntryCost(k, e) + MapSum(Eviction.ProtectedCosts(s, now) - {k}) <= s.maxBytes
  }

  /** A commit leaves the entry in the store exactly when it fits beside what may not be evicted. */
  lemma {:induction false} CommitIsStored(a: Call)
    requires Sound(a) && Commits(a)
    ensures a.key in AfterAccept(a).items <==> FitsBeside(AtAccept(a), a.key, Minted(a), a.t1)
    ensures a.key in AfterAccept(a).items ==> AfterAccept(a).items[a.key] == Stores.Plain(a.key, Minted(a))
  {
    var s, e := AtAccept(a), Minted(a);
    if s.maxBytes > 0 {
      Eviction.AcceptedEntrySurvives(s, a.key, e, a.t1);
    } else {
      AcceptEffect(s, a.key, e, a.t1);
    }
  }

  /** The node took the write and has it if it fits, or it was found to have something at least as new. */
  ghost predicate Secured(a: Call)
    requires Sound(a)
  {
    || (Commits(a) && (FitsBeside(AtAccept(a), a.key, Minted(a), a.t1) ==>
                         a.key in AfterAccept(a).items && AfterAccept(a).items[a.key].entry == Minted(a)))
    || Holds(AtPeek(a), a.key, Minted(a).version, a.t2)
    || Holds(AtPeekAgain(a), a.key, Minted(a).version, a.t3)
  }

  lemma {:induction false} FoundIsHeld(s: Store, k: Key, v: uint64, now: int, tombstone: bool)
    requires Stores.Valid(s) && Finds(s, k, v, now, tombstone)
    ensures Holds(s, k, v, now)
  {
  }

  lemma {:induction false} AckIsSecured(a: Call)
    requires Sound(a) && Acks(a)
    ensures Secured(a)
  {
    if Commits(a) {
      CommitIsStored(a);
    } else if Finds(AtPeek(a), a.key, Minted(a).version, a.t2, false) {
      FoundIsHeld(AtPeek(a), a.key, Minted(a).version, a.t2, false);
    } else {
      FoundIsHeld(AtPeekAgain(a), a.key, Minted(a).version, a.t3, true);
    }
  }

  // ---------------------------------------------------------------- when it fails

  ghost predicate OnOthers(k: Key, evs: seq<Event>) { forall i :: 0 <= i < |evs| ==> evs[i].op.k != k }

  /** Nobody else touches the key between the mint and the report; other keys are free game. */
  ghost predicate Alone(a: Call) { OnOthers(a.key, a.first) && OnOthers(a.key, a.second) && OnOthers(a.key, a.third) }

  /** The entry alone is larger than the budget. */
  ghost predicate TooLarge(a: Call)
    requires Sound(a)
  {
    0 < a.start.maxBytes < EntryCost(a.key, Minted(a))
  }

  /** r may have evicted k since s, but has not changed it. */
  ghost predicate SameOrGone(s: Store, r: Store, k: Key)
  {
    r.maxBytes == s.maxBytes && (k in r.items ==> k in s.items && r.items[k].entry.version == s.items[k].entry.version &&
                                                  r.items[k].entry.expireAt == s.items[k].entry.expireAt)
  }

  lemma {:induction false} OthersKeep(s: Store, k: Key, evs: seq<Event>)
    requires Stores.Valid(s) && OnOthers(k, evs)
    ensures SameOrGone(s, StoreRuns.Run(s, evs), k)
    decreases |evs|
  {
    if evs != [] {
      StepLocal(s, evs[0].op, evs[0].now);
      assert Undisturbed(s, StoreRuns.Step(s, evs[0].op, evs[0].now), k, evs[0].now);
      OthersKeep(StoreRuns.Step(s, evs[0].op, evs[0].now), k, evs[1..]);
    }
  }

  lemma {:induction false} PeekKeeps(s: Store, k: Key, now: int)
    requires Stores.Valid(s)
    ensures SameOrGone(s, Peek(s, k, now).0, k)
  {
  }

  lemma {:induction false} MintKeeps(a: Call)
    requires Sound(a)
    ensures SameOrGone(a.start, AtMint(a), a.key)
  {
  }

  /** A version minted over a key exceeds what any later store holds for it, if only others were at work. */
  lemma {:induction false} MintStaysAhead(a: Call, r: Store, now: int)
    requires Sound(a) && SameOrGone(a.start, r, a.key) && a.t0 <= now
    requires Versions.MintSeed(a.lastVer, a.start, a.key, 0, a.t0) < MAX_UINT64
    ensures !Holds(r, a.key, Minted(a).version, now)
  {
    Versions.MintExceedsSeen(a.lastVer, a.start, a.key, 0, a.t0);
  }

  lemma {:induction false} AcceptRefuses(s: Store, k: Key, e: Entry, now: int)
    requires Stores.Valid(s) && !Holds(s, k, e.version, now)
    ensures AcceptIfNewer(s, k, e, now).1 <==> !(0 < s.maxBytes < EntryCost(k, e))
    ensures !AcceptIfNewer(s, k, e, now).1 ==> AcceptIfNewer(s, k, e, now).0 == s
  {
  }

  /**
   * With nobody else at the key, whatever happens to other keys meanwhile, a Put fails on its node if and only if the entry
   * alone exceeds the budget; and if it succeeds, it commits.
   */
  lemma {:induction false} FailsIffTooLarge(a: Call)
    requires Sound(a) && Alone(a) && Versions.MintSeed(a.lastVer, a.start, a.key, 0, a.t0) < MAX_UINT64
    ensures Acks(a) <==> !TooLarge(a)
    ensures Acks(a) <==> Commits(a)
  {
    MintKeeps(a);
    OthersKeep(AtMint(a), a.key, a.first);
    MintStaysAhead(a, AtAccept(a), a.t1);
    AcceptRefuses(AtAccept(a), a.key, Minted(a), a.t1);
    if !Commits(a) {
      RefusedFindsNothing(a);
    }
  }

  lemma {:induction false} RefusedFindsNothing(a: Call)
    requires Sound(a) && Alone(a) && Versions.MintSeed(a.lastVer, a.start, a.key, 0, a.t0) < MAX_UINT64
    requires SameOrGone(a.start, AtAccept(a), a.key) && AfterAccept(a) == AtAccept(a)
    ensures !Finds(AtPeek(a), a.key, Minted(a).version, a.t2, false)
    ensures !Finds(AtPeekAgain(a), a.key, Minted(a).version, a.t3, true)
  {
    OthersKeep(AfterAccept(a), a.key, a.second);
    MintStaysAhead(a, AtPeek(a), a.t2);
    PeekKeeps(AtPeek(a), a.key, a.t2);
    StepLocal(AtPeek(a), PeekOp(a.key), a.t2);
    OthersKeep(Peek(AtPeek(a), a.key, a.t2).0, a.key, a.third);
    MintStaysAhead(a, AtPeekAgain(a), a.t3);
    if Finds(AtPeek(a), a.key, Minted(a).version, a.t2, false) {
      FoundIsHeld(AtPeek(a), a.key, Minted(a).version, a.t2, false);
    }
    if Finds(AtPeekAgain(a), a.key, Minted(a).version, a.t3, true) {
      FoundIsHeld(AtPeekAgain(a), a.key, Minted(a).version, a.t3, true);
    }
  }

  lemma {:induction false} RunOne(s: Store, e: Event)
    requires Stores.Valid(s)
    ensures StoreRuns.Run(s, [e]) == StoreRuns.Step(s, e.op, e.now)
  {
    assert [e][1..] == [];
    StepLocal(s, e.op, e.now);
    assert StoreRuns.Run(StoreRuns.Step(s, e.op, e.now), []) == StoreRuns.Step(s, e.op, e.now);
  }

  /** A store without limit that got `other` under a key, and then lost it. */
  lemma {:induction false} CameAndWent(k: Key, other: Entry, ttl: int, now: int)
    requires other.expireAt == 0 && !other.IsHash()
    ensures var s := Store(map[], [], 0, 0, ttl);
            && Stores.Valid(s)
            && var s1 := StoreRuns.Run(s, [Event(AcceptOp(k, other), now)]);
            && Stores.Valid(s1) && Live(s1, k, now) && s1.items[k].entry == other && s1.maxBytes == 0
            && k !in StoreRuns.Run(s1, [Event(DeleteOp(k), now)]).items
  {
    EmptyIsValid(ttl);
    var s := Store(map[], [], 0, 0, ttl);
    RunOne(s, Event(AcceptOp(k, other), now));
    StepLocal(s, AcceptOp(k, other), now);
    AcceptEffect(s, k, other, now);
    RunOne(StoreRuns.Step(s, AcceptOp(k, other), now), Event(DeleteOp(k), now));
  }

  /**
   * With others at the key the size error can be reported for an entry of any size on a store without limit: a newer
   * version that came in before the accept and was removed before the peeks.
   */
  lemma {:induction false} SpuriousSizeError(k: Key, value: Bytes, other: Entry, ttl: int, now: int)
    requires other.version >= 1 && other.expireAt == 0 && !other.IsHash()
    ensures var s := Store(map[], [], 0, 0, ttl);
            var a := Call(k, value, 0, map[], s, now, [Event(AcceptOp(k, other), now)], now, [Event(DeleteOp(k), now)], now, [], now);
            Sound(a) && !TooLarge(a) && !Acks(a)
  {
    var s := Store(map[], [], 0, 0, ttl);
    var evs, del := [Event(AcceptOp(k, other), now)], [Event(DeleteOp(k), now)];
    var a := Call(k, value, 0, map[], s, now, evs, now, del, now, [], now);
    CameAndWent(k, other, ttl, now);
    assert Minted(a).version == 1;
    assert !Commits(a) && AfterAccept(a) == AtAccept(a);
    assert AtPeekAgain(a) == AtPeek(a);
  }

  lemma {:induction false} EmptyIsValid(ttl: int)
    ensures Stores.Valid(Store(map[], [], 0, 0, ttl))
  {
    assert Costs(map[]) == map[];
  }
}
