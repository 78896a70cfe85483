/**
 * Last-writer-wins on one key: what a store does to the entry under a key, and
 * why the order in which replicated puts and deletes arrive does not matter.
 */
module LastWriter {
  import opened Basics
  import opened Ordering
  import opened Entries
  import opened Stores
  import opened StoreRuns

  type Slot = Option<Entry>

  ghost function SlotOf(s: Store, k: Key): Slot
  {
    if k in s.items then Some(s.items[k].entry) else None
  }

  ghost predicate LiveSlot(slot: Slot, now: int) { slot.Some? && !slot.value.Expired(now) }

  /** Whether AcceptIfNewer takes e over what the slot holds. */
  ghost predicate TakesPut(slot: Slot, e: Entry, now: int)
  {
    !(LiveSlot(slot, now) && e.version <= slot.value.version)
  }

  /** AcceptIfNewer on one slot. */
  ghost function SlotAccept(slot: Slot, e: Entry, now: int): Slot
  {
    if TakesPut(slot, e, now) then Some(e) else slot
  }

  /** Whether AcceptNegative takes e: never over a live value, never over a newer absence. */
  ghost predicate TakesNegative(slot: Slot, e: Entry, now: int)
  {
    LiveSlot(slot, now) ==>
      (slot.value.IsTombstone() || slot.value.IsNegative()) && e.version > slot.value.version
  }

  /** AcceptNegative on one slot. */
  ghost function SlotNegative(slot: Slot, e: Entry, now: int): Slot
  {
    if TakesNegative(slot, e, now) then Some(e) else slot
  }

  function Tombstone(version: uint64, expireAt: int): Entry { Entry([], version, expireAt, {FlagTombstone}) }

  /** DeleteIfVersion on one slot; `expireAt` is when the tombstone will lapse here. */
  ghost function SlotDelete(slot: Slot, version: uint64, expireAt: int, now: int): Slot
  {
    if LiveSlot(slot, now) && version < slot.value.version then slot else Some(Tombstone(version, expireAt))
  }

  /**
   * The store refines the slot: on its own key each operation either does what the
   * slot function says, or (for size) nothing, or loses an unprotected entry.
   */
  lemma {:induction false} StoreRefinesSlot(s: Store, k: Key, e: Entry, version: uint64, now: int)
    requires Valid(s)
    ensures var r := AcceptIfNewer(s, k, e, now);
            || SlotOf(r.0, k) == SlotAccept(SlotOf(s, k), e, now)
            || (!r.1 && r.0 == s && 0 < s.maxBytes < EntryCost(k, e))
            || (r.1 && SlotOf(r.0, k) == None && !e.Protected(now))
    ensures var r := AcceptNegative(s, k, e, now);
            || SlotOf(r.0, k) == SlotNegative(SlotOf(s, k), e, now)
            || (!r.1 && r.0 == s && 0 < s.maxBytes < EntryCost(k, e))
            || (r.1 && SlotOf(r.0, k) == None && !e.Protected(now))
    ensures var r := DeleteIfVersion(s, k, version, now);
            SlotOf(r.0, k) == SlotDelete(SlotOf(s, k), version, TombstoneExpiry(s, now), now)
  {
    AcceptEffect(s, k, e, now);
    NegativeEffect(s, k, e, now);
    DeleteVersionEffect(s, k, version, now);
    assert TombstoneOf(s, version, now).Protected(now);
  }

  // ---------------------------------------------------------------- convergence

  /** A replicated mutation of the key: a plain put, or a delete. */
  datatype Msg = Put(e: Entry) | Del(version: uint64)

  ghost predicate PlainPut(e: Entry) { e.flags == {} && e.expireAt == 0 }

  ghost predicate WellFormed(ms: seq<Msg>)
  {
    forall i :: 0 <= i < |ms| && ms[i].Put? ==> PlainPut(ms[i].e)
  }

  /** At most one put per version. */
  ghost predicate OnePutPerVersion(ms: seq<Msg>)
  {
    forall i, j :: 0 <= i < |ms| && 0 <= j < |ms| && ms[i].Put? && ms[j].Put? && ms[i].e.version == ms[j].e.version
      ==> ms[i].e == ms[j].e
  }

  /** The entry a mutation leaves when it wins. */
  function Outcome(m: Msg): Entry { if m.Put? then m.e else Tombstone(m.version, 0) }

  /** When a tombstone installed now will lapse; zero is never. */
  function Lapse(ttl: int, now: int): int { if ttl <= 0 then 0 else now + ttl }

  /** Delivery at a time, to a store without size limit. */
  ghost function DeliverAt(slot: Slot, m: Msg, now: int, ttl: int): Slot
  {
    if m.Put? then SlotAccept(slot, m.e, now) else SlotDelete(slot, m.version, Lapse(ttl, now), now)
  }

  /** Delivery without expiry or size limit. */
  ghost function Deliver(slot: Slot, m: Msg): Slot { DeliverAt(slot, m, 0, 0) }

  /** All at one instant. */
  ghost function DeliverAllAt(slot: Slot, ms: seq<Msg>, now: int, ttl: int): Slot
  {
    if ms == [] then slot else DeliverAt(DeliverAllAt(slot, ms[..|ms| - 1], now, ttl), ms[|ms| - 1], now, ttl)
  }

  ghost function DeliverAll(slot: Slot, ms: seq<Msg>): Slot { DeliverAllAt(slot, ms, 0, 0) }

  /** a is at least as new as b: by version, and a tombstone beats a put of its own version. */
  predicate AtLeast(a: Entry, b: Entry)
  {
    b.version < a.version || (b.version == a.version && (a.IsTombstone() || !b.IsTombstone()))
  }

  ghost predicate Newest(ms: seq<Msg>, e: Entry)
  {
    && (exists i :: 0 <= i < |ms| && Outcome(ms[i]) == e)
    && (forall i :: 0 <= i < |ms| ==> AtLeast(e, Outcome(ms[i])))
  }

  lemma {:induction false} NewestUnique(ms: seq<Msg>, ms': seq<Msg>, a: Entry, b: Entry)
    requires OnePutPerVersion(ms + ms') && WellFormed(ms + ms')
    requires Newest(ms, a) && Newest(ms', b) && AtLeast(a, b) && AtLeast(b, a)
    ensures a == b
  {
    var i :| 0 <= i < |ms| && Outcome(ms[i]) == a;
    var j :| 0 <= j < |ms'| && Outcome(ms'[j]) == b;
    var all := ms + ms';
    assert all[i] == ms[i] && all[|ms| + j] == ms'[j];
  }

  /** Whatever the order and the repeats, the newest mutation is what remains. */
  lemma {:induction false} DeliverNewest(ms: seq<Msg>)
    requires ms != [] && WellFormed(ms)
    ensures DeliverAll(None, ms).Some? && Newest(ms, DeliverAll(None, ms).value)
    decreases |ms|
  {
    var n := |ms| - 1;
    var before := ms[..n];
    var r := DeliverAll(None, ms);
    if n > 0 {
      DeliverNewest(before);
      var a := DeliverAll(None, before).value;
      var i :| 0 <= i < n && Outcome(before[i]) == a;
      assert ms[i] == before[i];
      assert !a.Expired(0);
      assert r == Some(a) || r == Some(Outcome(ms[n]));
      assert Outcome(ms[if r == Some(a) then i else n]) == r.value;
      forall j | 0 <= j < |ms| ensures AtLeast(r.value, Outcome(ms[j])) {
        if j < n { assert AtLeast(a, Outcome(before[j])); }
      }
    } else {
      assert before == [] && DeliverAll(None, before) == None;
      assert Outcome(ms[0]) == r.value;
    }
  }

  /**
   * A replica that received any part of the mutations, in any order and with any
   * repeats, ends with the same entry as one that received them all, provided the
   * part includes a newest one.
   */
  lemma {:induction false} Convergence(all: seq<Msg>, part: seq<Msg>)
    requires WellFormed(all + part) && OnePutPerVersion(all + part)
    requires part != [] && forall i :: 0 <= i < |part| ==> part[i] in all
    requires exists j :: 0 <= j < |part| && Newest(all, Outcome(part[j]))
    ensures DeliverAll(None, part) == DeliverAll(None, all)
  {
    var both := all + part;
    assert WellFormed(all) by { assert forall i :: 0 <= i < |all| ==> all[i] == both[i]; }
    assert WellFormed(part) by { assert forall i :: 0 <= i < |part| ==> part[i] == both[|all| + i]; }
    assert part[0] in all;
    DeliverNewest(all);
    DeliverNewest(part);
    var a, b := DeliverAll(None, all).value, DeliverAll(None, part).value;
    var j :| 0 <= j < |part| && Newest(all, Outcome(part[j]));
    var i :| 0 <= i < |part| && Outcome(part[i]) == b;
    assert part[i] in all;
    var x :| 0 <= x < |all| && all[x] == part[i];
    assert AtLeast(a, b);
    var y :| 0 <= y < |all| && Outcome(all[y]) == a;
    assert AtLeast(Outcome(part[j]), a) && AtLeast(b, Outcome(part[j]));
    NewestUnique(all, part, a, b);
  }

  /** Two mutations commute on every slot exactly when they are not two different puts of one version. */
  lemma {:induction false} CommuteIff(a: Msg, b: Msg)
    requires WellFormed([a, b])
    ensures (forall slot: Slot :: (slot.Some? ==> slot.value.expireAt == 0) ==>
               Deliver(Deliver(slot, a), b) == Deliver(Deliver(slot, b), a))
            <==> !(a.Put? && b.Put? && a.e.version == b.e.version && a.e != b.e)
  {
    assert [a, b][0] == a && [a, b][1] == b;
    if a.Put? && b.Put? && a.e.version == b.e.version && a.e != b.e {
      assert Deliver(Deliver(None, a), b) == Some(a.e);
      assert Deliver(Deliver(None, b), a) == Some(b.e);
    }
  }

  // ---------------------------------------------------------------- whole stores

  /** The operations on a key that replication and readers perform. */
  ghost predicate Replicates(op: Op)
  {
    match op
    case AcceptOp(_, e) => !e.IsHash()
    case DeleteVersionOp(_, _) => true
    case GetOp(_) => true
    case PeekOp(_) => true
    case PeekVersionOp(_) => true
    case _ => false
  }

  /** What such an operation does to the key's slot; a read drops an expired entry. */
  ghost function SlotStep(slot: Slot, op: Op, now: int, ttl: int): Slot
  {
    match op
    case AcceptOp(_, e) => DeliverAt(slot, Put(e), now, ttl)
    case DeleteVersionOp(_, version) => DeliverAt(slot, Del(version), now, ttl)
    case _ => if LiveSlot(slot, now) then slot else None
  }

  ghost function SlotRun(slot: Slot, k: Key, evs: seq<Event>, ttl: int): Slot
    decreases |evs|
  {
    if evs == [] then slot
    else SlotRun(if evs[0].op.k == k then SlotStep(slot, evs[0].op, evs[0].now, ttl) else slot, k, evs[1..], ttl)
  }

  /** Only such operations touch the key in the run. */
  ghost predicate Served(k: Key, evs: seq<Event>)
  {
    forall i :: 0 <= i < |evs| && evs[i].op.k == k ==> Replicates(evs[i].op)
  }

  ghost predicate NotHash(slot: Slot) { slot.Some? ==> !slot.value.IsHash() }

  lemma {:induction false} OwnRead(s: Store, k: Key, now: int)
    requires Valid(s) && NotHash(SlotOf(s, k))
    ensures var slot := if LiveSlot(SlotOf(s, k), now) then SlotOf(s, k) else None;
            SlotOf(Get(s, k, now).0, k) == slot && SlotOf(Peek(s, k, now).0, k) == slot &&
            SlotOf(PeekVersion(s, k, now).0, k) == slot
  {
  }

  lemma {:induction false} OwnAccept(s: Store, k: Key, e: Entry, now: int)
    requires Valid(s) && s.maxBytes <= 0
    ensures SlotOf(AcceptIfNewer(s, k, e, now).0, k) == SlotAccept(SlotOf(s, k), e, now)
  {
    AcceptEffect(s, k, e, now);
  }

  lemma {:induction false} OwnDelete(s: Store, k: Key, version: uint64, now: int)
    requires Valid(s)
    ensures SlotOf(DeleteIfVersion(s, k, version, now).0, k) ==
            SlotDelete(SlotOf(s, k), version, Lapse(s.tombstoneTTL, now), now)
  {
    DeleteVersionEffect(s, k, version, now);
    assert TombstoneOf(s, version, now).Protected(now);
  }

  lemma {:induction false} OwnStep(s: Store, op: Op, now: int)
    requires Valid(s) && s.maxBytes <= 0 && NotHash(SlotOf(s, op.k)) && Replicates(op)
    ensures SlotOf(Step(s, op, now), op.k) == SlotStep(SlotOf(s, op.k), op, now, s.tombstoneTTL)
    ensures NotHash(SlotOf(Step(s, op, now), op.k))
  {
    match op
    case AcceptOp(k, e) => OwnAccept(s, k, e, now);
    case DeleteVersionOp(k, v) => OwnDelete(s, k, v, now);
    case _ => OwnRead(s, op.k, now);
  }

  lemma {:induction false} StepSlot(s: Store, k: Key, op: Op, now: int)
    requires Valid(s) && s.maxBytes <= 0 && NotHash(SlotOf(s, k)) && (op.k == k ==> Replicates(op))
    ensures var r := Step(s, op, now);
            && Valid(r) && r.maxBytes == s.maxBytes && r.tombstoneTTL == s.tombstoneTTL
            && NotHash(SlotOf(r, k))
            && SlotOf(r, k) == if op.k == k then SlotStep(SlotOf(s, k), op, now, s.tombstoneTTL) else SlotOf(s, k)
  {
    StepLocal(s, op, now);
    if op.k == k {
      OwnStep(s, op, now);
    } else {
      assert Undisturbed(s, Step(s, op, now), k, now);
    }
  }

  /**
   * In every run of a store without size limit, with any expiry, any tombstone lifetime and any work on other keys, the
   * entry of a key is what delivering its mutations to the slot at their times leaves.
   */
  lemma {:induction false} StoreRunDelivers(s: Store, k: Key, evs: seq<Event>)
    requires Valid(s) && s.maxBytes <= 0 && NotHash(SlotOf(s, k))
    requires Served(k, evs)
    ensures SlotOf(Run(s, evs), k) == SlotRun(SlotOf(s, k), k, evs, s.tombstoneTTL)
    decreases |evs|
  {
    if evs != [] {
      StepSlot(s, k, evs[0].op, evs[0].now);
      StoreRunDelivers(Step(s, evs[0].op, evs[0].now), k, evs[1..]);
    }
  }

  /** The mutation an operation carries, if it carries one. */
  ghost function Carried(op: Op): seq<Msg>
  {
    match op
    case AcceptOp(_, e) => [Put(e)]
    case DeleteVersionOp(_, version) => [Del(version)]
    case _ => []
  }

  /** The mutations of a key in a run, in order. */
  ghost function Mutations(k: Key, evs: seq<Event>): seq<Msg>
    decreases |evs|
  {
    if evs == [] then [] else (if evs[0].op.k == k then Carried(evs[0].op) else []) + Mutations(k, evs[1..])
  }

  lemma {:induction false} DeliverAllFront(slot: Slot, m: Msg, ms: seq<Msg>)
    ensures DeliverAll(slot, [m] + ms) == DeliverAll(Deliver(slot, m), ms)
    decreases |ms|
  {
    var all := [m] + ms;
    if ms == [] {
      assert all[..0] == [] && DeliverAll(slot, all[..0]) == slot;
    } else {
      assert all[..|all| - 1] == [m] + ms[..|ms| - 1];
      DeliverAllFront(slot, m, ms[..|ms| - 1]);
    }
  }

  ghost predicate Lasting(slot: Slot) { slot.Some? ==> slot.value.expireAt == 0 }

  lemma {:induction false} StepDelivers(slot: Slot, op: Op, now: int, ttl: int, rest: seq<Msg>)
    requires ttl <= 0 && Lasting(slot) && Replicates(op) && WellFormed(Carried(op) + rest)
    ensures var next := SlotStep(slot, op, now, ttl);
            Lasting(next) && DeliverAll(slot, Carried(op) + rest) == DeliverAll(next, rest)
  {
    if op.AcceptOp? || op.DeleteVersionOp? {
      var m := Carried(op)[0];
      assert (Carried(op) + rest)[0] == m;
      assert Carried(op) == [m];
      DeliverAllFront(slot, m, rest);
    } else {
      assert Carried(op) + rest == rest;
    }
  }

  /** Without expiry the times do not matter. */
  lemma {:induction false} SlotRunIsDeliverAll(slot: Slot, k: Key, evs: seq<Event>, ttl: int)
    requires ttl <= 0 && Lasting(slot) && WellFormed(Mutations(k, evs)) && Served(k, evs)
    ensures SlotRun(slot, k, evs, ttl) == DeliverAll(slot, Mutations(k, evs))
    decreases |evs|
  {
    if evs != [] {
      var op, rest := evs[0].op, Mutations(k, evs[1..]);
      if op.k == k {
        WellFormedParts(Carried(op), rest);
        StepDelivers(slot, op, evs[0].now, ttl, rest);
        SlotRunIsDeliverAll(SlotStep(slot, op, evs[0].now, ttl), k, evs[1..], ttl);
      } else {
        assert [] + rest == rest;
        SlotRunIsDeliverAll(slot, k, evs[1..], ttl);
      }
    }
  }

  /** A store that any replicas of the key can be compared on: no size limit, no tombstone expiry, the key not yet there. */
  ghost predicate Blank(s: Store, k: Key) { Valid(s) && s.maxBytes <= 0 && s.tombstoneTTL <= 0 && k !in s.items }

  lemma {:induction false} BlankRun(s: Store, k: Key, evs: seq<Event>)
    requires Blank(s, k) && Served(k, evs) && WellFormed(Mutations(k, evs))
    ensures SlotOf(Run(s, evs), k) == DeliverAll(None, Mutations(k, evs))
  {
    StoreRunDelivers(s, k, evs);
    SlotRunIsDeliverAll(None, k, evs, s.tombstoneTTL);
  }

  lemma {:induction false} WellFormedParts(a: seq<Msg>, b: seq<Msg>)
    requires WellFormed(a + b)
    ensures WellFormed(a) && WellFormed(b)
  {
    assert forall i :: 0 <= i < |a| ==> a[i] == (a + b)[i];
    assert forall i :: 0 <= i < |b| ==> b[i] == (a + b)[|a| + i];
  }

  /**
   * Two stores that served different runs hold the same entry for a key, as long as one received some of the mutations
   * the other did, a newest one among them: whatever the order, the repeats, the reads and the work on other keys.
   */
  lemma {:induction false} StoresConverge(s: Store, t: Store, k: Key, all: seq<Event>, part: seq<Event>)
    requires Blank(s, k) && Blank(t, k) && Served(k, all) && Served(k, part)
    requires var a, p := Mutations(k, all), Mutations(k, part);
             && WellFormed(a + p) && OnePutPerVersion(a + p)
             && p != [] && (forall i :: 0 <= i < |p| ==> p[i] in a)
             && (exists j :: 0 <= j < |p| && Newest(a, Outcome(p[j])))
    ensures SlotOf(Run(s, all), k) == SlotOf(Run(t, part), k)
  {
    WellFormedParts(Mutations(k, all), Mutations(k, part));
    BlankRun(s, k, all);
    BlankRun(t, k, part);
    Convergence(Mutations(k, all), Mutations(k, part));
  }
}
