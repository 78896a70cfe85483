/**
 * Mutations of one key that arrive at times, with puts that expire and tombstones that lapse: when the newest one is what
 * remains, and when two stores that were sent the same agree.
 */
module TimedDelivery {
  import opened Basics
  import opened Entries
  import opened Stores
  import opened StoreRuns
  import opened LastWriter
  import Hints

  function Version(m: Msg): uint64 { if m.Put? then m.e.version else m.version }

  /** a is b or newer: by version, a delete beating a put of its own version. */
  predicate Over(a: Msg, b: Msg)
  {
    a == b || Version(a) > Version(b) || (Version(a) == Version(b) && a.Del? && b.Put?)
  }

  lemma {:induction false} OverTrans(a: Msg, b: Msg, c: Msg)
    requires Over(a, b) && Over(b, c)
    ensures Over(a, c)
  {
  }

  /** The mutation a stored entry stands for. */
  function Shown(slot: Slot): set<Msg>
  {
    if slot.None? then {} else {Hints.MsgOf(slot.value)}
  }

  datatype Timed = Timed(m: Msg, now: int)

  ghost function DeliverTimed(slot: Slot, ds: seq<Timed>, ttl: int): Slot
    decreases |ds|
  {
    if ds == [] then slot else DeliverTimed(DeliverAt(slot, ds[0].m, ds[0].now, ttl), ds[1..], ttl)
  }

  /** Puts are plain, with or without an expiry, and no two different ones share a version. */
  ghost predicate Clean(ds: seq<Timed>)
  {
    && (forall i :: 0 <= i < |ds| && ds[i].m.Put? ==> ds[i].m.e.flags == {})
    && (forall i, j ::
          (0 <= i < |ds| && 0 <= j < |ds| && ds[i].m.Put? && ds[j].m.Put? && ds[i].m.e.version == ds[j].m.e.version) ==>
            ds[i].m == ds[j].m)
  }

  /** The entry a delivery leaves when it is taken. */
  ghost function Stored(d: Timed, ttl: int): Entry
  {
    if d.m.Put? then d.m.e else Tombstone(d.m.version, Lapse(ttl, d.now))
  }

  /** The j-th delivery is of the newest mutation, and the last one of it. */
  ghost predicate NewestAt(ds: seq<Timed>, j: nat)
  {
    && j < |ds|
    && (forall i :: 0 <= i < |ds| ==> Over(ds[j].m, ds[i].m))
    && (forall i :: j < i < |ds| ==> ds[i].m != ds[j].m)
  }

  // ---------------------------------------------------------------- the slot

  /** One delivery is taken, or leaves a live entry that it does not beat. */
  lemma {:induction false} DeliverTakes(slot: Slot, d: Timed, ttl: int)
    requires d.m.Put? ==> d.m.e.flags == {}
    ensures var r := DeliverAt(slot, d.m, d.now, ttl);
            if LiveSlot(slot, d.now) && (if d.m.Put? then Version(d.m) <= slot.value.version else Version(d.m) < slot.value.version)
            then r == slot else r == Some(Stored(d, ttl)) && Shown(r) == {d.m}
  {
  }

  ghost predicate Among(ds: seq<Timed>, m: Msg) { exists i :: 0 <= i < |ds| && ds[i].m == m }

  lemma {:induction false} CleanTail(ds: seq<Timed>)
    requires Clean(ds) && ds != []
    ensures Clean(ds[1..])
  {
  }

  /** What is shown in the end was there or was delivered. */
  lemma {:induction false} ShownFrom(slot: Slot, ds: seq<Timed>, ttl: int)
    requires Clean(ds)
    ensures var r := DeliverTimed(slot, ds, ttl);
            (ds != [] ==> r.Some?) && (Shown(r) == Shown(slot) || (r.Some? && Among(ds, Hints.MsgOf(r.value))))
    decreases |ds|
  {
    if ds != [] {
      var next := DeliverAt(slot, ds[0].m, ds[0].now, ttl);
      var r := DeliverTimed(next, ds[1..], ttl);
      CleanTail(ds);
      ShownFrom(next, ds[1..], ttl);
      DeliverTakes(slot, ds[0], ttl);
      if Among(ds[1..], Hints.MsgOf(r.value)) {
        var i :| 0 <= i < |ds[1..]| && ds[1..][i].m == Hints.MsgOf(r.value);
        assert ds[i + 1].m == Hints.MsgOf(r.value);
      } else if Shown(next) != Shown(slot) {
        assert ds[0].m == Hints.MsgOf(r.value);
      }
    }
  }

  lemma {:induction false} DeliverSplit(slot: Slot, ds: seq<Timed>, j: nat, ttl: int)
    requires j <= |ds|
    ensures DeliverTimed(slot, ds, ttl) == DeliverTimed(DeliverTimed(slot, ds[..j], ttl), ds[j..], ttl)
    decreases j
  {
    if j == 0 {
      assert ds[0..] == ds && DeliverTimed(slot, ds[..0], ttl) == slot;
    } else {
      var next := DeliverAt(slot, ds[0].m, ds[0].now, ttl);
      assert ds[..j][1..] == ds[1..][..j - 1] && ds[1..][j - 1..] == ds[j..];
      DeliverSplit(next, ds[1..], j - 1, ttl);
    }
  }

  /** The newest mutation is in the slot after each of its deliveries. */
  lemma {:induction false} NewestTaken(slot: Slot, ds: seq<Timed>, j: nat, ttl: int)
    requires Clean(ds) && NewestAt(ds, j)
    requires slot.None? || exists i :: 0 <= i < |ds| && ds[i].m == Hints.MsgOf(slot.value)
    ensures DeliverAt(slot, ds[j].m, ds[j].now, ttl) == Some(Stored(ds[j], ttl))
  {
    DeliverTakes(slot, ds[j], ttl);
    if slot.Some? {
      var i :| 0 <= i < |ds| && ds[i].m == Hints.MsgOf(slot.value);
      assert Over(ds[j].m, ds[i].m);
    }
  }

  /** A newest mutation that is in the slot is there in the end exactly if no later delivery finds it expired. */
  lemma {:induction false} HeldIff(slot: Slot, ds: seq<Timed>, ttl: int)
    requires Clean(ds) && slot.Some?
    requires forall i :: 0 <= i < |ds| ==> Over(Hints.MsgOf(slot.value), ds[i].m) && ds[i].m != Hints.MsgOf(slot.value)
    ensures if forall i :: 0 <= i < |ds| ==> !slot.value.Expired(ds[i].now)
            then DeliverTimed(slot, ds, ttl) == slot
            else Shown(DeliverTimed(slot, ds, ttl)) != Shown(slot)
    decreases |ds|
  {
    if ds != [] {
      DeliverTakes(slot, ds[0], ttl);
      CleanTail(ds);
      if slot.value.Expired(ds[0].now) {
        var next := DeliverAt(slot, ds[0].m, ds[0].now, ttl);
        ShownFrom(next, ds[1..], ttl);
        assert Shown(next) == {ds[0].m};
      } else {
        HeldIff(slot, ds[1..], ttl);
        assert (forall i :: 0 <= i < |ds[1..]| ==> !slot.value.Expired(ds[1..][i].now)) <==>
               (forall i :: 0 <= i < |ds| ==> !slot.value.Expired(ds[i].now)) by {
          if forall i :: 0 <= i < |ds[1..]| ==> !slot.value.Expired(ds[1..][i].now) {
            forall i | 0 <= i < |ds| ensures !slot.value.Expired(ds[i].now) {
              if i > 0 { assert ds[i] == ds[1..][i - 1]; }
            }
          }
        }
      }
    }
  }

  /**
   * Whatever the order, the repeats and the expiries: the newest mutation is shown in the end, if and only if no delivery
   * after its last one comes when it has expired.
   */
  lemma {:induction false} NewestStaysIff(ds: seq<Timed>, j: nat, ttl: int)
    requires Clean(ds) && NewestAt(ds, j)
    ensures var r := DeliverTimed(None, ds, ttl);
            (Shown(r) == {ds[j].m} <==> forall i :: j < i < |ds| ==> !Stored(ds[j], ttl).Expired(ds[i].now)) &&
            (Shown(r) == {ds[j].m} ==> r == Some(Stored(ds[j], ttl)))
  {
    var before, rest, top := DeliverTimed(None, ds[..j], ttl), ds[j + 1..], Some(Stored(ds[j], ttl));
    DeliverSplit(None, ds, j, ttl);
    assert ds[j..][1..] == rest;
    PrefixShown(ds, j, ttl);
    NewestTaken(before, ds, j, ttl);
    assert DeliverTimed(None, ds, ttl) == DeliverTimed(top, rest, ttl);
    assert Shown(top) == {ds[j].m};
    HeldIff(top, rest, ttl);
    if forall i :: 0 <= i < |rest| ==> !top.value.Expired(rest[i].now) {
      forall i | j < i < |ds| ensures !top.value.Expired(ds[i].now) {
        assert rest[i - j - 1] == ds[i];
      }
    }
  }

  lemma {:induction false} PrefixShown(ds: seq<Timed>, j: nat, ttl: int)
    requires Clean(ds) && j <= |ds|
    ensures var r := DeliverTimed(None, ds[..j], ttl);
            r.None? || exists i :: 0 <= i < |ds| && ds[i].m == Hints.MsgOf(r.value)
  {
    var r := DeliverTimed(None, ds[..j], ttl);
    assert Clean(ds[..j]);
    ShownFrom(None, ds[..j], ttl);
    if r.Some? && Among(ds[..j], Hints.MsgOf(r.value)) {
      var i :| 0 <= i < |ds[..j]| && ds[..j][i].m == Hints.MsgOf(r.value);
      assert ds[i].m == Hints.MsgOf(r.value);
    }
  }

  // ---------------------------------------------------------------- stores

  /** The mutations of a key in a run, with their times. */
  ghost function TimedOf(k: Key, evs: seq<Event>): seq<Timed>
    decreases |evs|
  {
    if evs == [] then []
    else (if evs[0].op.k == k then TimedOp(evs[0].op, evs[0].now) else []) + TimedOf(k, evs[1..])
  }

  ghost function TimedOp(op: Op, now: int): seq<Timed>
  {
    match op
    case AcceptOp(_, e) => [Timed(Put(e), now)]
    case DeleteVersionOp(_, version) => [Timed(Del(version), now)]
    case _ => []
  }

  /** The events come in order, none before `from` and none after `to`. */
  ghost predicate Ordered(evs: seq<Event>, from: int, to: int)
    decreases |evs|
  {
    if evs == [] then from <= to else from <= evs[0].now && Ordered(evs[1..], evs[0].now, to)
  }

  lemma {:induction false} OrderedEnds(evs: seq<Event>, from: int, to: int)
    requires Ordered(evs, from, to)
    ensures from <= to
    decreases |evs|
  {
    if evs != [] {
      OrderedEnds(evs[1..], evs[0].now, to);
    }
  }

  lemma {:induction false} TimedWithin(k: Key, evs: seq<Event>, from: int, to: int)
    requires Ordered(evs, from, to)
    ensures forall i :: 0 <= i < |TimedOf(k, evs)| ==> TimedOf(k, evs)[i].now <= to
    decreases |evs|
  {
    if evs != [] {
      TimedWithin(k, evs[1..], evs[0].now, to);
      OrderedEnds(evs[1..], evs[0].now, to);
    }
  }

  /** The same, but for an entry that has expired and may be gone already. */
  ghost predicate Same(a: Slot, b: Slot, now: int) { a == b || (a.None? && b.Some? && b.value.Expired(now)) }

  lemma {:induction false} SameLater(a: Slot, b: Slot, now: int, later: int)
    requires Same(a, b, now) && now <= later
    ensures Same(a, b, later)
  {
  }

  lemma {:induction false} StepSame(a: Slot, b: Slot, op: Op, now: int, ttl: int, rest: seq<Timed>)
    requires Same(a, b, now) && Replicates(op)
    ensures exists c: Slot :: Same(SlotStep(a, op, now, ttl), c, now) &&
              DeliverTimed(b, TimedOp(op, now) + rest, ttl) == DeliverTimed(c, rest, ttl)
  {
    if op.AcceptOp? || op.DeleteVersionOp? {
      var d := TimedOp(op, now)[0];
      assert (TimedOp(op, now) + rest)[0] == d && (TimedOp(op, now) + rest)[1..] == rest;
      assert Same(SlotStep(a, op, now, ttl), DeliverAt(b, d.m, now, ttl), now);
    } else {
      assert TimedOp(op, now) + rest == rest;
      assert Same(SlotStep(a, op, now, ttl), b, now);
    }
  }

  /** Reads in between only drop what has expired. */
  lemma {:induction false} RunIsTimed(a: Slot, b: Slot, k: Key, evs: seq<Event>, ttl: int, from: int, to: int)
    requires Same(a, b, from) && Ordered(evs, from, to) && Served(k, evs)
    ensures Same(SlotRun(a, k, evs, ttl), DeliverTimed(b, TimedOf(k, evs), ttl), to)
    decreases |evs|
  {
    if evs == [] {
      SameLater(a, b, from, to);
    } else {
      var op, now, rest := evs[0].op, evs[0].now, TimedOf(k, evs[1..]);
      SameLater(a, b, from, now);
      if op.k == k {
        StepSame(a, b, op, now, ttl, rest);
        var c: Slot :| Same(SlotStep(a, op, now, ttl), c, now) &&
                       DeliverTimed(b, TimedOp(op, now) + rest, ttl) == DeliverTimed(c, rest, ttl);
        RunIsTimed(SlotStep(a, op, now, ttl), c, k, evs[1..], ttl, now, to);
      } else {
        assert [] + rest == rest;
        RunIsTimed(a, b, k, evs[1..], ttl, now, to);
      }
    }
  }

  ghost predicate Fresh(s: Store, k: Key) { Valid(s) && s.maxBytes <= 0 && k !in s.items }

  /** What a look at the key returns. */
  lemma {:induction false} PeekSlot(s: Store, k: Key, now: int)
    requires Valid(s) && NotHash(SlotOf(s, k))
    ensures Peek(s, k, now).1 == if LiveSlot(SlotOf(s, k), now) then SlotOf(s, k) else None
  {
  }

  lemma {:induction false} RunNotHash(s: Store, k: Key, evs: seq<Event>)
    requires Valid(s) && s.maxBytes <= 0 && NotHash(SlotOf(s, k)) && Served(k, evs)
    ensures NotHash(SlotOf(Run(s, evs), k))
    decreases |evs|
  {
    if evs != [] {
      StepSlot(s, k, evs[0].op, evs[0].now);
      RunNotHash(Step(s, evs[0].op, evs[0].now), k, evs[1..]);
    }
  }

  /**
   * In every run of a store without size limit, with any reads and any work on other keys: from the last event on, a look
   * at the key finds the newest mutation it received, if and only if that has not expired by then.
   */
  lemma {:induction false} StoreShowsNewestIff(s: Store, k: Key, evs: seq<Event>, j: nat, from: int, now: int)
    requires Fresh(s, k) && Served(k, evs) && Ordered(evs, from, now)
    requires Clean(TimedOf(k, evs)) && NewestAt(TimedOf(k, evs), j)
    ensures var e := Stored(TimedOf(k, evs)[j], s.tombstoneTTL);
            Peek(Run(s, evs), k, now).1 == Some(e) <==> !e.Expired(now)
  {
    var ds, ttl := TimedOf(k, evs), s.tombstoneTTL;
    var e := Stored(ds[j], ttl);
    StoreRunDelivers(s, k, evs);
    RunIsTimed(None, None, k, evs, ttl, from, now);
    NewestStaysIff(ds, j, ttl);
    TimedWithin(k, evs, from, now);
    RunNotHash(s, k, evs);
    PeekSlot(Run(s, evs), k, now);
  }

  /**
   * Two such stores, whose newest mutations are the same put, show the same entry as long as it has not expired: both
   * find it if and only if its time is not up. After that they may differ.
   */
  lemma {:induction false} StoresAgreeIff(s: Store, t: Store, k: Key, a: seq<Event>, b: seq<Event>, i: nat, j: nat, from: int, now: int)
    requires Fresh(s, k) && Served(k, a) && Ordered(a, from, now) && Clean(TimedOf(k, a)) && NewestAt(TimedOf(k, a), i)
    requires Fresh(t, k) && Served(k, b) && Ordered(b, from, now) && Clean(TimedOf(k, b)) && NewestAt(TimedOf(k, b), j)
    requires TimedOf(k, a)[i].m == TimedOf(k, b)[j].m && TimedOf(k, a)[i].m.Put?
    ensures var e := TimedOf(k, a)[i].m.e;
            Peek(Run(s, a), k, now).1 == Peek(Run(t, b), k, now).1 == Some(e) <==> !e.Expired(now)
  {
    StoreShowsNewestIff(s, k, a, i, from, now);
    StoreShowsNewestIff(t, k, b, j, from, now);
  }

  /** They do differ: a late older put is shut out by the newer one, or finds it expired and is taken. */
  lemma {:induction false} ExpiryDivides(s: Store, k: Key, older: Entry, newer: Entry)
    requires Fresh(s, k) && older.flags == newer.flags == {} && older.version < newer.version
    requires older.expireAt == 0 && 0 < newer.expireAt
    ensures var late := newer.expireAt;
            var a := [Event(AcceptOp(k, older), 0), Event(AcceptOp(k, newer), 0)];
            var b := [Event(AcceptOp(k, newer), 0), Event(AcceptOp(k, older), late)];
            Peek(Run(s, a), k, late).1 == None && Peek(Run(s, b), k, late).1 == Some(older)
  {
    TwoAccepts(s, k, older, 0, newer, 0);
    TwoAccepts(s, k, newer, 0, older, newer.expireAt);
    PeekSlot(Run(s, [Event(AcceptOp(k, older), 0), Event(AcceptOp(k, newer), 0)]), k, newer.expireAt);
    PeekSlot(Run(s, [Event(AcceptOp(k, newer), 0), Event(AcceptOp(k, older), newer.expireAt)]), k, newer.expireAt);
  }

  lemma {:induction false} TwoAccepts(s: Store, k: Key, x: Entry, t: int, y: Entry, u: int)
    requires Fresh(s, k) && !x.IsHash() && !y.IsHash()
    ensures SlotOf(Run(s, [Event(AcceptOp(k, x), t), Event(AcceptOp(k, y), u)]), k) == SlotAccept(Some(x), y, u)
  {
    var evs := [Event(AcceptOp(k, x), t), Event(AcceptOp(k, y), u)];
    StoreRunDelivers(s, k, evs);
    assert evs[1..] == [Event(AcceptOp(k, y), u)] && evs[1..][1..] == [];
    assert SlotRun(Some(x), k, evs[1..], s.tombstoneTTL) == SlotRun(SlotAccept(Some(x), y, u), k, [], s.tombstoneTTL);
  }
}
