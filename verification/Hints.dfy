/**
 * internal/peer/hints.go and transport.go: the bounded per-peer queue of missed
 * applies, coalesced last-writer-wins, and how a failed apply becomes a hint.
 */
module Hints {
  import opened Basics
  import opened Ordering
  import opened Entries
  import LastWriter

  /** The key a hint is about. */
  datatype Target = Target(ks: Bytes, key: Bytes)

  /** hintID: one per key, except that every Bloom add keeps its own. */
  datatype HintID = KeyID(at: Target) | AddID(at: Target, item: Bytes)

  datatype Hint = Hint(at: Target, ent: Entry, ringGen: uint64)

  datatype Queue = Queue(order: seq<HintID>, items: map<HintID, Hint>)

  function IdOf(h: Hint): HintID
  {
    if h.ent.IsBloomAdd() then AddID(h.at, h.ent.value) else KeyID(h.at)
  }

  predicate HintNewer(a: Entry, b: Entry)
  {
    if a.version != b.version then a.version > b.version else a.IsTombstone() && !b.IsTombstone()
  }

  /** A Bloom add for the filter at the target. */
  predicate AddsTo(h: Hint, at: Target) { h.at == at && h.ent.IsBloomAdd() }

  function Keep(order: seq<HintID>, items: map<HintID, Hint>): (r: seq<HintID>)
  {
    if order == [] then []
    else
      var front := Keep(order[..|order| - 1], items);
      if order[|order| - 1] in items then front + [order[|order| - 1]] else front
  }

  /** A tombstone purges every pending Bloom add of its key, whatever its version. */
  function Purge(q: Queue, at: Target): Queue
  {
    var items := map id | id in q.items && !AddsTo(q.items[id], at) :: q.items[id];
    Queue(Keep(q.order, items), items)
  }

  /** The queue without its oldest hint. */
  function Behead(q: Queue): Queue
    requires q.order != []
  {
    Queue(q.order[1..], q.items - {q.order[0]})
  }

  /** The oldest hints make room when the queue is full. */
  function MakeRoom(q: Queue, max: nat): Queue
    requires 1 <= max
    decreases |q.order|
  {
    if |q.order| >= max then MakeRoom(Behead(q), max) else q
  }

  /** A pending delete already covers this Bloom add. */
  predicate Covered(q: Queue, h: Hint)
  {
    && h.ent.IsBloomAdd()
    && KeyID(h.at) in q.items
    && q.items[KeyID(h.at)].ent.IsTombstone()
    && q.items[KeyID(h.at)].ent.version >= h.ent.version
  }

  /** enqueueHint on one peer's queue. */
  function Enqueue(q0: Queue, h: Hint, max: nat): (r: Queue)
    requires 1 <= max
  {
    var q := if h.ent.IsTombstone() then Purge(q0, h.at) else q0;
    var id := IdOf(h);
    if Covered(q, h) then q
    else if id in q.items then
      if HintNewer(h.ent, q.items[id].ent) then q.(items := q.items[id := h]) else q
    else
      var q1 := MakeRoom(q, max);
      Queue(q1.order + [id], q1.items[id := h])
  }

  /** popHint. */
  function Pop(q: Queue, id: HintID): Queue { Queue(Without(q.order, id), q.items - {id}) }

  // ---------------------------------------------------------------- queue invariant

  /** While a delete is pending, every pending Bloom add of its key is newer. */
  ghost predicate Guarded(items: map<HintID, Hint>)
  {
    forall id, add ::
      (&& id in items && add in items && id.KeyID? && add.AddID? && add.at == id.at
       && items[id].ent.IsTombstone()) ==>
      items[add].ent.version > items[id].ent.version
  }

  /** `order` lists the pending ids once each, within the cap, and each hint sits under its own id. */
  ghost predicate Valid(q: Queue, max: nat)
  {
    && Lists(q.order, q.items.Keys)
    && |q.order| <= max
    && (forall id :: id in q.items ==> IdOf(q.items[id]) == id)
    && Guarded(q.items)
  }

  lemma {:induction false} FrontLists(order: seq<HintID>, keys: set<HintID>)
    requires order != [] && Lists(order, keys)
    ensures var n := |order| - 1;
            Lists(order[..n], keys - {order[n]}) && order[n] !in order[..n]
  {
    var n := |order| - 1;
    assert order == order[..n] + [order[n]];
    forall x | x in keys - {order[n]} ensures x in order[..n] { assert x in order; }
  }

  lemma {:induction false} KeepLists(order: seq<HintID>, keys: set<HintID>, items: map<HintID, Hint>)
    requires Lists(order, keys) && items.Keys <= keys
    ensures Lists(Keep(order, items), items.Keys) && |Keep(order, items)| <= |order|
    decreases |order|
  {
    if order != [] {
      var n := |order| - 1;
      var last, front := order[n], order[..n];
      var items' := map id | id in items && id != last :: items[id];
      FrontLists(order, keys);
      KeepLists(front, keys - {last}, items');
      KeepIrrelevant(front, items, items', last);
      if last in items {
        assert items.Keys == items'.Keys + {last};
        ListsExtend(Keep(front, items'), items'.Keys, last);
      } else {
        assert items' == items;
      }
    } else {
      assert items.Keys == {};
    }
  }

  lemma {:induction false} KeepIrrelevant(order: seq<HintID>, items: map<HintID, Hint>, items': map<HintID, Hint>, x: HintID)
    requires x !in order && items' == (map id | id in items && id != x :: items[id])
    ensures Keep(order, items) == Keep(order, items')
    decreases |order|
  {
    if order != [] { KeepIrrelevant(order[..|order| - 1], items, items', x); }
  }

  lemma {:induction false} PurgeValid(q: Queue, at: Target, max: nat)
    requires Valid(q, max)
    ensures Valid(Purge(q, at), max)
    ensures forall add :: add in Purge(q, at).items && add.AddID? ==> add.at != at
  {
    var items := Purge(q, at).items;
    KeepLists(q.order, q.items.Keys, items);
    forall add | add in items && add.AddID? ensures add.at != at {
      assert IdOf(q.items[add]) == add;
    }
  }

  lemma {:induction false} TailLists(q: Queue)
    requires q.order != [] && Lists(q.order, q.items.Keys)
    ensures Lists(q.order[1..], (q.items - {q.order[0]}).Keys)
  {
    var h, t := q.order[0], q.order[1..];
    assert q.order == [h] + t;
    forall x | x in (q.items - {h}).Keys ensures x in t { assert x in q.order; }
  }

  lemma {:induction false} MakeRoomValid(q: Queue, max: nat)
    requires Valid(q, max) && 1 <= max
    ensures Valid(MakeRoom(q, max), max) && |MakeRoom(q, max).order| < max
    ensures MakeRoom(q, max).items.Keys <= q.items.Keys
    ensures forall id :: id in MakeRoom(q, max).items ==> MakeRoom(q, max).items[id] == q.items[id]
    decreases |q.order|
  {
    if |q.order| >= max {
      TailLists(q);
      MakeRoomValid(Behead(q), max);
    }
  }

  /** h may go under its id: a delete only once its adds are gone, an add only if not covered. */
  ghost predicate Fits(items: map<HintID, Hint>, h: Hint)
  {
    var id := IdOf(h);
    && (id.KeyID? && h.ent.IsTombstone() ==>
          forall add :: add in items && add.AddID? ==> add.at != h.at)
    && (id.AddID? && KeyID(h.at) in items && items[KeyID(h.at)].ent.IsTombstone() ==>
          h.ent.version > items[KeyID(h.at)].ent.version)
  }

  lemma {:induction false} FitsGuarded(items: map<HintID, Hint>, h: Hint)
    requires Guarded(items) && Fits(items, h)
    ensures Guarded(items[IdOf(h) := h])
  {
  }

  lemma {:induction false} ReplaceValid(q: Queue, h: Hint, max: nat)
    requires Valid(q, max) && IdOf(h) in q.items && Fits(q.items, h)
    ensures Valid(q.(items := q.items[IdOf(h) := h]), max)
  {
    FitsGuarded(q.items, h);
    assert q.items[IdOf(h) := h].Keys == q.items.Keys;
  }

  lemma {:induction false} AppendValid(q: Queue, h: Hint, max: nat)
    requires Valid(q, max) && IdOf(h) !in q.items && Fits(q.items, h) && |q.order| < max
    ensures Valid(Queue(q.order + [IdOf(h)], q.items[IdOf(h) := h]), max)
  {
    FitsGuarded(q.items, h);
    ListsExtend(q.order, q.items.Keys, IdOf(h));
    assert q.items[IdOf(h) := h].Keys == q.items.Keys + {IdOf(h)};
  }

  /** Every enqueue keeps the queue a duplicate-free, capped listing with its deletes guarded. */
  lemma {:induction false} EnqueueValid(q0: Queue, h: Hint, max: nat)
    requires Valid(q0, max) && 1 <= max
    ensures Valid(Enqueue(q0, h, max), max)
  {
    PurgeValid(q0, h.at, max);
    var q := if h.ent.IsTombstone() then Purge(q0, h.at) else q0;
    if !Covered(q, h) {
      assert Fits(q.items, h);
      if IdOf(h) in q.items {
        ReplaceValid(q, h, max);
      } else {
        MakeRoomValid(q, max);
        AppendValid(MakeRoom(q, max), h, max);
      }
    }
  }

  lemma {:induction false} PopValid(q: Queue, id: HintID, max: nat)
    requires Valid(q, max)
    ensures Valid(Pop(q, id), max)
  {
    WithoutLists(q.order, q.items.Keys, id);
    assert (q.items - {id}).Keys == q.items.Keys - {id};
  }

  // ---------------------------------------------------------------- lossless coalescing

  /** The mutations a key's one hint may stand for: plain puts, with or without an expiry, and deletes. */
  ghost predicate Plain(e: Entry) { e.flags == {} || e.flags == {FlagTombstone} }

  function MsgOf(e: Entry): LastWriter.Msg
  {
    if e.IsTombstone() then LastWriter.Del(e.version) else LastWriter.Put(e)
  }

  function Msgs(es: seq<Entry>): (ms: seq<LastWriter.Msg>)
    ensures |ms| == |es| && forall i :: 0 <= i < |es| ==> ms[i] == MsgOf(es[i])
  {
    if es == [] then [] else Msgs(es[..|es| - 1]) + [MsgOf(es[|es| - 1])]
  }

  /** What enqueueHint keeps of a pending and a new entry under one id. */
  function Merge(held: Entry, next: Entry): Entry { if HintNewer(next, held) then next else held }

  /**
   * Replaying, at a time, the hint that coalescing keeps does what replaying both would do to every replica, if and only
   * if the hint is a delete, or has not expired, or is the one that came last.
   */
  lemma {:induction false} MergeDeliversIff(held: Entry, next: Entry, now: int, ttl: int)
    requires Plain(held) && Plain(next)
    ensures (forall slot: LastWriter.Slot ::
               LastWriter.DeliverAt(LastWriter.DeliverAt(slot, MsgOf(held), now, ttl), MsgOf(next), now, ttl) ==
               LastWriter.DeliverAt(slot, MsgOf(Merge(held, next)), now, ttl)) <==>
            held.IsTombstone() || !held.Expired(now) || HintNewer(next, held) || held == next
  {
    if !(held.IsTombstone() || !held.Expired(now) || HintNewer(next, held) || held == next) {
      var slot: LastWriter.Slot := None;
      assert LastWriter.DeliverAt(slot, MsgOf(held), now, ttl) == Some(held);
      assert LastWriter.DeliverAt(Some(held), MsgOf(next), now, ttl) != Some(held);
    }
  }

  /** What coalescing keeps of a list of entries. */
  function Kept(es: seq<Entry>): Entry
    requires es != []
  {
    if |es| == 1 then es[0] else Merge(Kept(es[..|es| - 1]), es[|es| - 1])
  }

  ghost predicate AllPlain(es: seq<Entry>) { forall i :: 0 <= i < |es| ==> Plain(es[i]) }

  lemma {:induction false} KeptIsTop(es: seq<Entry>)
    requires es != []
    ensures Kept(es) in es
    ensures forall i :: 0 <= i < |es| ==> !HintNewer(es[i], Kept(es))
    decreases |es|
  {
    if |es| > 1 {
      var init := es[..|es| - 1];
      KeptIsTop(init);
      forall i | 0 <= i < |es|
        ensures !HintNewer(es[i], Kept(es))
      {
        assert i < |init| ==> es[i] == init[i];
      }
    }
  }

  /** What a mutation leaves when it is taken now. */
  ghost function Taken(e: Entry, now: int, ttl: int): Entry
  {
    if e.IsTombstone() then LastWriter.Tombstone(e.version, LastWriter.Lapse(ttl, now)) else e
  }

  /** The slot holds something live that the mutation does not beat. */
  ghost predicate Rejects(slot: LastWriter.Slot, e: Entry, now: int)
  {
    LastWriter.LiveSlot(slot, now) && if e.IsTombstone() then e.version < slot.value.version else e.version <= slot.value.version
  }

  lemma {:induction false} DeliverCases(slot: LastWriter.Slot, e: Entry, now: int, ttl: int)
    ensures LastWriter.DeliverAt(slot, MsgOf(e), now, ttl) == if Rejects(slot, e, now) then slot else Some(Taken(e, now, ttl))
  {
  }

  lemma {:induction false} MsgsSnoc(es: seq<Entry>, slot: LastWriter.Slot, now: int, ttl: int)
    requires es != []
    ensures LastWriter.DeliverAllAt(slot, Msgs(es), now, ttl) ==
            LastWriter.DeliverAt(LastWriter.DeliverAllAt(slot, Msgs(es[..|es| - 1]), now, ttl), MsgOf(es[|es| - 1]), now, ttl)
  {
    assert Msgs(es)[..|es| - 1] == Msgs(es[..|es| - 1]);
  }

  /** Deliveries leave the slot as it was, or with one of the mutations; as it was if it rejects the newest. */
  lemma {:induction false} DeliveredIsOne(slot: LastWriter.Slot, es: seq<Entry>, now: int, ttl: int)
    requires es != []
    ensures var r := LastWriter.DeliverAllAt(slot, Msgs(es), now, ttl);
            && (r == slot || exists e :: e in es && r == Some(Taken(e, now, ttl)))
            && (Rejects(slot, Kept(es), now) ==> r == slot)
    decreases |es|
  {
    var n := |es| - 1;
    var init, last := es[..n], es[n];
    MsgsSnoc(es, slot, now, ttl);
    var before := LastWriter.DeliverAllAt(slot, Msgs(init), now, ttl);
    DeliverCases(before, last, now, ttl);
    assert last in es;
    if n > 0 {
      DeliveredIsOne(slot, init, now, ttl);
      KeptIsTop(es);
      KeptIsTop(init);
      assert forall e :: e in init ==> e in es;
    }
  }

  ghost predicate OnePut(es: seq<Entry>)
  {
    forall i, j ::
      (0 <= i < |es| && 0 <= j < |es| && !es[i].IsTombstone() && !es[j].IsTombstone() && es[i].version == es[j].version) ==>
      es[i] == es[j]
  }

  /** The kept entry is what all of them leave: always, or only because it also came last. */
  ghost predicate Settles(es: seq<Entry>, now: int)
    requires es != []
  {
    Kept(es).IsTombstone() || !Kept(es).Expired(now) || es[|es| - 1] == Kept(es)
  }

  /** a beats b, or they are the same mutation. */
  ghost predicate Tops(a: Entry, b: Entry) { HintNewer(a, b) || MsgOf(a) == MsgOf(b) }

  /** The newest entry, delivered after others of its list, is taken unless the slot rejected it from the start. */
  lemma {:induction false} TopIsTaken(slot: LastWriter.Slot, es: seq<Entry>, top: Entry, r: LastWriter.Slot, now: int, ttl: int)
    requires AllPlain(es) && Plain(top) && !Rejects(slot, top, now)
    requires forall e :: e in es ==> Tops(top, e)
    requires r == slot || exists e :: e in es && r == Some(Taken(e, now, ttl))
    ensures LastWriter.DeliverAt(r, MsgOf(top), now, ttl) == Some(Taken(top, now, ttl))
  {
    DeliverCases(r, top, now, ttl);
    if r != slot {
      var e :| e in es && r == Some(Taken(e, now, ttl));
      assert Tops(top, e);
    }
  }

  lemma {:induction false} BelowTop(es: seq<Entry>, top: Entry)
    requires OnePut(es) && top in es && forall i :: 0 <= i < |es| ==> !HintNewer(es[i], top)
    ensures forall e :: e in es ==> Tops(top, e)
  {
    var j :| 0 <= j < |es| && es[j] == top;
    forall e | e in es
      ensures Tops(top, e)
    {
      var i :| 0 <= i < |es| && es[i] == e;
      assert !HintNewer(es[i], top);
    }
  }

  /** An older entry is turned away by the kept one, as long as that lasts. */
  lemma {:induction false} OlderIsBarred(top: Entry, last: Entry, now: int, ttl: int)
    requires Plain(top) && Plain(last) && Tops(top, last) && (top.IsTombstone() || !top.Expired(now))
    ensures LastWriter.DeliverAt(Some(Taken(top, now, ttl)), MsgOf(last), now, ttl) == Some(Taken(top, now, ttl))
  {
    DeliverCases(Some(Taken(top, now, ttl)), last, now, ttl);
  }

  /** A kept put that has expired is not what is left after another entry. */
  lemma {:induction false} ExpiredIsReplaced(slot: LastWriter.Slot, top: Entry, last: Entry, now: int, ttl: int)
    requires Plain(top) && Plain(last) && top != last && !top.IsTombstone() && top.Expired(now)
    ensures LastWriter.DeliverAt(slot, MsgOf(last), now, ttl) != Some(Taken(top, now, ttl))
  {
    DeliverCases(slot, last, now, ttl);
  }

  lemma {:induction false} KeptDelivers(slot: LastWriter.Slot, es: seq<Entry>, now: int, ttl: int)
    requires es != [] && AllPlain(es) && OnePut(es) && !Rejects(slot, Kept(es), now)
    ensures LastWriter.DeliverAllAt(slot, Msgs(es), now, ttl) == Some(Taken(Kept(es), now, ttl)) <==> Settles(es, now)
    decreases |es|
  {
    var n := |es| - 1;
    var init, last, top := es[..n], es[n], Kept(es);
    MsgsSnoc(es, slot, now, ttl);
    var before := LastWriter.DeliverAllAt(slot, Msgs(init), now, ttl);
    if n == 0 {
      DeliverCases(before, last, now, ttl);
    } else if last == top {
      LastIsTaken(slot, es, before, now, ttl);
    } else {
      KeptIsTop(es);
      if top.IsTombstone() || !top.Expired(now) {
        BelowTop(es, top);
        KeptDelivers(slot, init, now, ttl);
        OlderIsBarred(top, last, now, ttl);
      } else {
        ExpiredIsReplaced(before, top, last, now, ttl);
      }
    }
  }

  lemma {:induction false} LastIsTaken(slot: LastWriter.Slot, es: seq<Entry>, before: LastWriter.Slot, now: int, ttl: int)
    requires |es| > 1 && AllPlain(es) && OnePut(es) && !Rejects(slot, Kept(es), now) && es[|es| - 1] == Kept(es)
    requires before == LastWriter.DeliverAllAt(slot, Msgs(es[..|es| - 1]), now, ttl)
    ensures LastWriter.DeliverAt(before, MsgOf(Kept(es)), now, ttl) == Some(Taken(Kept(es), now, ttl))
  {
    var init := es[..|es| - 1];
    DeliveredIsOne(slot, init, now, ttl);
    KeptIsTop(es);
    BelowTop(es, Kept(es));
    assert forall e :: e in init ==> e in es;
    TopIsTaken(slot, init, Kept(es), before, now, ttl);
  }

  /**
   * Replaying at one instant the hint that coalescing keeps does to every replica what replaying all of them in order
   * would do, if and only if it is a delete, or has not expired by then, or came last.
   */
  lemma {:induction false} KeptDeliversIff(es: seq<Entry>, now: int, ttl: int)
    requires es != [] && AllPlain(es) && OnePut(es)
    ensures (forall slot: LastWriter.Slot ::
               LastWriter.DeliverAllAt(slot, Msgs(es), now, ttl) == LastWriter.DeliverAt(slot, MsgOf(Kept(es)), now, ttl)) <==>
            Settles(es, now)
  {
    if Settles(es, now) {
      forall slot: LastWriter.Slot
        ensures LastWriter.DeliverAllAt(slot, Msgs(es), now, ttl) == LastWriter.DeliverAt(slot, MsgOf(Kept(es)), now, ttl)
      {
        DeliverCases(slot, Kept(es), now, ttl);
        if Rejects(slot, Kept(es), now) {
          DeliveredIsOne(slot, es, now, ttl);
        } else {
          KeptDelivers(slot, es, now, ttl);
        }
      }
    } else {
      KeptDelivers(None, es, now, ttl);
      DeliverCases(None, Kept(es), now, ttl);
    }
  }

  /** A run of one queue: enqueues, and pops by the flusher. */
  datatype QueueOp = Enq(h: Hint) | PopId(id: HintID)

  ghost function Do(q: Queue, op: QueueOp, max: nat): Queue
    requires 1 <= max
  {
    if op.Enq? then Enqueue(q, op.h, max) else Pop(q, op.id)
  }

  ghost function Run(q: Queue, ops: seq<QueueOp>, max: nat): Queue
    requires 1 <= max
  {
    if ops == [] then q else Do(Run(q, ops[..|ops| - 1], max), ops[|ops| - 1], max)
  }

  /** The entries absorbed, in order, by what is now pending under id. */
  ghost function Absorbed(q: Queue, ops: seq<QueueOp>, max: nat, id: HintID): seq<Entry>
    requires 1 <= max
  {
    if ops == [] then (if id in q.items then [q.items[id].ent] else [])
    else
      var n := |ops| - 1;
      var before := Run(q, ops[..n], max);
      if id !in Do(before, ops[n], max).items then []
      else if !(ops[n].Enq? && IdOf(ops[n].h) == id) then Absorbed(q, ops[..n], max, id)
      else if id !in before.items then [ops[n].h.ent]
      else Absorbed(q, ops[..n], max, id) + [ops[n].h.ent]
  }

  lemma {:induction false} RunValid(q: Queue, ops: seq<QueueOp>, max: nat)
    requires Valid(q, max) && 1 <= max
    ensures Valid(Run(q, ops, max), max)
    decreases |ops|
  {
    if ops != [] {
      var n := |ops| - 1;
      RunValid(q, ops[..n], max);
      var before := Run(q, ops[..n], max);
      if ops[n].Enq? { EnqueueValid(before, ops[n].h, max); } else { PopValid(before, ops[n].id, max); }
    }
  }

  lemma {:induction false} PurgeKeepsKeys(q: Queue, at: Target, max: nat, id: HintID)
    requires Valid(q, max) && id.KeyID?
    ensures id in Purge(q, at).items <==> id in q.items
    ensures id in q.items ==> Purge(q, at).items[id] == q.items[id]
  {
    if id in q.items { assert IdOf(q.items[id]) == id; }
  }

  /** An enqueue under another id leaves a key's pending hint alone, or drops it to make room. */
  lemma {:induction false} EnqueueOther(q: Queue, h: Hint, max: nat, id: HintID)
    requires Valid(q, max) && 1 <= max && id.KeyID? && IdOf(h) != id
    requires id in Enqueue(q, h, max).items
    ensures id in q.items && Enqueue(q, h, max).items[id] == q.items[id]
  {
    PurgeValid(q, h.at, max);
    PurgeKeepsKeys(q, h.at, max, id);
    MakeRoomValid(if h.ent.IsTombstone() then Purge(q, h.at) else q, max);
  }

  /** An enqueue under its own id leaves the newer of the pending and the new entry. */
  lemma {:induction false} EnqueueSame(q: Queue, h: Hint, max: nat, id: HintID)
    requires Valid(q, max) && 1 <= max && id.KeyID? && IdOf(h) == id
    ensures id in Enqueue(q, h, max).items
    ensures Enqueue(q, h, max).items[id].ent == if id in q.items then Merge(q.items[id].ent, h.ent) else h.ent
  {
    PurgeKeepsKeys(q, h.at, max, id);
  }

  lemma {:induction false} PendingIsKept(ops: seq<QueueOp>, max: nat, id: HintID)
    requires 1 <= max && id.KeyID?
    ensures var q, es := Run(Queue([], map[]), ops, max), Absorbed(Queue([], map[]), ops, max, id);
            (id in q.items <==> es != []) && (id in q.items ==> q.items[id].ent == Kept(es))
    decreases |ops|
  {
    var q0 := Queue([], map[]);
    assert Valid(q0, max);
    if ops != [] {
      var n := |ops| - 1;
      var before, es := Run(q0, ops[..n], max), Absorbed(q0, ops[..n], max, id);
      PendingIsKept(ops[..n], max, id);
      RunValid(q0, ops[..n], max);
      if ops[n].Enq? && IdOf(ops[n].h) == id {
        EnqueueSame(before, ops[n].h, max, id);
        assert (es + [ops[n].h.ent])[..|es|] == es;
      } else if ops[n].Enq? && id in Enqueue(before, ops[n].h, max).items {
        EnqueueOther(before, ops[n].h, max, id);
      }
    }
  }

  /**
   * In every run of a queue, what is pending for a key is the newest of the entries it absorbed, and replaying it at any
   * time does to every replica what delivering them all in order would do, if and only if it is a delete, or has not
   * expired by then, or came last.
   */
  lemma {:induction false} CoalescingIsLosslessIff(ops: seq<QueueOp>, max: nat, id: HintID, now: int, ttl: int)
    requires 1 <= max && id.KeyID? && id in Run(Queue([], map[]), ops, max).items
    requires var es := Absorbed(Queue([], map[]), ops, max, id); AllPlain(es) && OnePut(es)
    ensures var e, es := Run(Queue([], map[]), ops, max).items[id].ent, Absorbed(Queue([], map[]), ops, max, id);
            && es != [] && e in es && (forall i :: 0 <= i < |es| ==> !HintNewer(es[i], e))
            && ((forall slot: LastWriter.Slot ::
                   LastWriter.DeliverAllAt(slot, Msgs(es), now, ttl) == LastWriter.DeliverAt(slot, MsgOf(e), now, ttl)) <==>
                e.IsTombstone() || !e.Expired(now) || es[|es| - 1] == e)
  {
    var es := Absorbed(Queue([], map[]), ops, max, id);
    PendingIsKept(ops, max, id);
    KeptIsTop(es);
    KeptDeliversIff(es, now, ttl);
  }

  /** The failing case: a put that has expired by the time of the replay hides an older one that would have been taken. */
  lemma {:induction false} ExpiredHintHidesOlder(at: Target, now: int, ttl: int, max: nat)
    requires 1 <= max && now > 0
    ensures var newer, older := Entry([1], 2, now, {}), Entry([0], 1, 0, {});
            var q := Enqueue(Enqueue(Queue([], map[]), Hint(at, newer, 0), max), Hint(at, older, 0), max);
            && KeyID(at) in q.items
            && LastWriter.DeliverAt(None, MsgOf(q.items[KeyID(at)].ent), now, ttl) == Some(newer)
            && LastWriter.DeliverAllAt(None, Msgs([newer, older]), now, ttl) == Some(older)
  {
    var newer, older := Entry([1], 2, now, {}), Entry([0], 1, 0, {});
    var q1 := Enqueue(Queue([], map[]), Hint(at, newer, 0), max);
    assert q1 == Queue([KeyID(at)], map[KeyID(at) := Hint(at, newer, 0)]);
    MsgsSnoc([newer, older], None, now, ttl);
    assert [newer, older][..1] == [newer];
    MsgsSnoc([newer], None, now, ttl);
    assert [newer][..0] == [];
  }

  // ---------------------------------------------------------------- what the queue does lose

  /** Item-level hints share their key's id: of two set adds, whichever order, one is forgotten. */
  lemma {:induction false} ItemHintsAreLossy(at: Target, a: Entry, b: Entry, gen: uint64, max: nat)
    requires 1 <= max && a.flags == b.flags == {FlagSetAdd} && a.value != b.value
    ensures var q := Enqueue(Enqueue(Queue([], map[]), Hint(at, a, gen), max), Hint(at, b, gen), max);
            |q.items| == 1 && q.items[KeyID(at)].ent == Merge(a, b)
  {
    var q1 := Enqueue(Queue([], map[]), Hint(at, a, gen), max);
    assert q1 == Queue([KeyID(at)], map[KeyID(at) := Hint(at, a, gen)]);
  }

  /** A tombstone's arrival drops every pending add of its key, newer ones included. */
  lemma {:induction false} TombstoneDropsAllAdds(q: Queue, h: Hint, max: nat, item: Bytes)
    requires Valid(q, max) && 1 <= max && h.ent.flags == {FlagTombstone}
    ensures AddID(h.at, item) !in Enqueue(q, h, max).items
  {
    PurgeValid(q, h.at, max);
    MakeRoomValid(Purge(q, h.at), max);
  }

  // ---------------------------------------------------------------- the queue in place

  method WithoutAdds(was: map<HintID, Hint>, at: Target) returns (items: map<HintID, Hint>)
    ensures items == map id | id in was && !AddsTo(was[id], at) :: was[id]
  {
    items := was;
    var todo := was.Keys;
    while todo != {}
      invariant items.Keys <= was.Keys && todo <= items.Keys
      invariant forall id :: id in items ==> items[id] == was[id]
      invariant forall id :: id in was && !AddsTo(was[id], at) ==> id in items
      invariant forall id :: id in items && id !in todo ==> !AddsTo(was[id], at)
      decreases todo
    {
      var id :| id in todo;
      todo := todo - {id};
      if AddsTo(items[id], at) {
        items := items - {id};
      }
    }
  }

  method KeepListed(order: seq<HintID>, items: map<HintID, Hint>) returns (out: seq<HintID>)
    ensures out == Keep(order, items)
  {
    out := [];
    for i := 0 to |order|
      invariant out == Keep(order[..i], items)
    {
      assert order[..i + 1][..i] == order[..i];
      if order[i] in items {
        out := out + [order[i]];
      }
    }
    assert order[..|order|] == order;
  }

  /** The scan of popHint. */
  method RemoveFirst(order: seq<HintID>, id: HintID) returns (r: seq<HintID>)
    ensures r == Without(order, id)
  {
    var i := 0;
    while i < |order|
      invariant 0 <= i <= |order| && id !in order[..i]
    {
      if order[i] == id {
        WithoutFirst(order, i, id);
        return order[..i] + order[i + 1..];
      }
      i := i + 1;
    }
    WithoutFirst(order, i, id);
    r := order;
  }

  // ---------------------------------------------------------------- flushing

  function EnqueueAll(q: Queue, hs: seq<Hint>, max: nat): Queue
    requires 1 <= max
  {
    if hs == [] then q else Enqueue(EnqueueAll(q, hs[..|hs| - 1], max), hs[|hs| - 1], max)
  }

  /**
   * flushPeerHints: peek, replay, pop by id, until a replay fails or nothing is pending. The lock is free during a
   * replay; during[i] is what gets enqueued while the i-th one succeeds.
   */
  function Flushed(q: Queue, during: seq<seq<Hint>>, max: nat): Queue
    requires 1 <= max
    decreases |during|
  {
    if during == [] || q.order == [] || q.order[0] !in q.items then q
    else Flushed(Pop(EnqueueAll(q, during[0], max), IdOf(q.items[q.order[0]])), during[1..], max)
  }

  lemma {:induction false} EnqueueAllValid(q: Queue, hs: seq<Hint>, max: nat)
    requires Valid(q, max) && 1 <= max
    ensures Valid(EnqueueAll(q, hs, max), max)
    decreases |hs|
  {
    if hs != [] {
      EnqueueAllValid(q, hs[..|hs| - 1], max);
      EnqueueValid(EnqueueAll(q, hs[..|hs| - 1], max), hs[|hs| - 1], max);
    }
  }

  lemma {:induction false} HeadPending(q: Queue, max: nat)
    requires Valid(q, max) && q.order != []
    ensures q.order[0] in q.items && IdOf(q.items[q.order[0]]) == q.order[0]
    ensures Pop(q, q.order[0]) == Behead(q)
  {
  }

  /** The oldest hints of q0 went out in order, once each, and exactly the rest is pending in q. */
  ghost predicate Drained(q0: Queue, q: Queue, n: nat)
  {
    && q.order == q0.order[Min(n, |q0.order|)..]
    && (forall id :: id in q.items <==> id in q0.items && id in q.order)
    && (forall id :: id in q.items ==> q.items[id] == q0.items[id])
  }

  /** Nothing is enqueued during the replays. */
  predicate Silent(during: seq<seq<Hint>>) { during == [] || (during[0] == [] && Silent(during[1..])) }

  function Members(ids: seq<HintID>): set<HintID> { set id | id in ids }

  /** The queue without its n oldest hints. */
  function Cut(q: Queue, n: nat): Queue
    requires n <= |q.order|
  {
    Queue(q.order[n..], q.items - Members(q.order[..n]))
  }

  lemma {:induction false} CutAgain(q: Queue, n: nat)
    requires 1 <= n <= |q.order|
    ensures Cut(Behead(q), n - 1) == Cut(q, n)
  {
    assert q.order[1..][n - 1..] == q.order[n..];
    assert q.order[..n] == [q.order[0]] + q.order[1..][..n - 1];
    assert Members(q.order[..n]) == {q.order[0]} + Members(q.order[1..][..n - 1]);
    assert q.items - {q.order[0]} - Members(q.order[1..][..n - 1]) == q.items - Members(q.order[..n]);
  }

  /** Beheaded n times, or as often as there is a head. */
  function Rest(q: Queue, n: nat): Queue
    decreases n
  {
    if n == 0 || q.order == [] then q else Rest(Behead(q), n - 1)
  }

  lemma {:induction false} RestIsCut(q: Queue, n: nat)
    ensures Rest(q, n) == Cut(q, Min(n, |q.order|))
    decreases n
  {
    if n == 0 || q.order == [] {
      assert q.order[0..] == q.order && Members(q.order[..0]) == {} && q.items - {} == q.items;
    } else {
      RestIsCut(Behead(q), n - 1);
      CutAgain(q, Min(n, |q.order|));
    }
  }

  /** The first n heads each stand under their own id. */
  ghost predicate Headed(q: Queue, n: nat)
    decreases n
  {
    n == 0 || q.order == [] ||
    (q.order[0] in q.items && Pop(q, IdOf(q.items[q.order[0]])) == Behead(q) && Headed(Behead(q), n - 1))
  }

  /** Every listed hint stands under its own id. */
  ghost predicate Named(q: Queue)
  {
    NoDup(q.order) && forall i :: 0 <= i < |q.order| ==> q.order[i] in q.items && IdOf(q.items[q.order[i]]) == q.order[i]
  }

  lemma {:induction false} NamedHeaded(q: Queue, n: nat)
    requires Named(q)
    ensures Headed(q, n)
    decreases n
  {
    if n > 0 && q.order != [] {
      assert Named(Behead(q)) by {
        forall i | 0 <= i < |q.order[1..]|
          ensures q.order[1..][i] in q.items - {q.order[0]} && IdOf(q.items[q.order[1..][i]]) == q.order[1..][i]
        {
          assert q.order[1..][i] == q.order[i + 1];
        }
      }
      NamedHeaded(Behead(q), n - 1);
    }
  }

  lemma {:induction false} UndisturbedFlush(q: Queue, during: seq<seq<Hint>>, max: nat)
    requires 1 <= max && Silent(during) && Headed(q, |during|)
    ensures Flushed(q, during, max) == Rest(q, |during|)
    decreases |during|
  {
    if during != [] && q.order != [] {
      UndisturbedFlush(Behead(q), during[1..], max);
    }
  }

  lemma {:induction false} CutDrained(q: Queue, n: nat, max: nat)
    requires Valid(q, max)
    ensures Drained(q, Cut(q, Min(n, |q.order|)), n)
  {
    var m := Min(n, |q.order|);
    assert q.order == q.order[..m] + q.order[m..];
    forall id | id in q.items
      ensures id in q.order[..m] <==> id !in q.order[m..]
    {
      assert id in q.order;
    }
  }

  lemma {:induction false} RestDrained(q: Queue, n: nat, max: nat)
    requires Valid(q, max)
    ensures Drained(q, Rest(q, n), n)
  {
    CutDrained(q, n, max);
    RestIsCut(q, n);
  }

  /** A flush that nothing comes in between sends the oldest hints, in order and once each, and leaves exactly the rest. */
  lemma {:induction false} UndisturbedFlushDrains(q: Queue, during: seq<seq<Hint>>, max: nat)
    requires Valid(q, max) && 1 <= max && Silent(during)
    ensures Drained(q, Flushed(q, during, max), |during|)
  {
    NamedHeaded(q, |during|);
    UndisturbedFlush(q, during, max);
    RestDrained(q, |during|, max);
  }

  class HintQueue {
    var order: seq<HintID>
    var items: map<HintID, Hint>
    var closed: bool
    const hintMax: nat
    const disabled: bool

    ghost function Contents(): Queue
      reads this
    {
      Queue(order, items)
    }

    ghost predicate Inv()
      reads this
    {
      1 <= hintMax && Valid(Contents(), hintMax)
    }

    /** The queue of a peer in a new pool: 4096 hints unless a positive number is asked for. */
    constructor (hintMaxPerPeer: int, disabled: bool)
      ensures Inv() && Contents() == Queue([], map[]) && !closed && this.disabled == disabled
      ensures hintMax == if hintMaxPerPeer <= 0 then 4096 else hintMaxPerPeer
    {
      hintMax := if hintMaxPerPeer <= 0 then 4096 else hintMaxPerPeer;
      this.disabled := disabled;
      closed := false;
      order := [];
      items := map[];
    }

    /** The purge at the head of enqueueHint: delete from the map, then rebuild the order. */
    method PurgeAdds(at: Target)
      requires Inv()
      modifies this
      ensures Inv() && closed == old(closed) && Contents() == Purge(old(Contents()), at)
    {
      PurgeValid(Contents(), at, hintMax);
      items := WithoutAdds(items, at);
      order := KeepListed(order, items);
    }

    /** The eviction loop of enqueueHint. */
    method DropOldest()
      requires Inv()
      modifies this
      ensures Inv() && closed == old(closed) && Contents() == MakeRoom(old(Contents()), hintMax)
    {
      MakeRoomValid(Contents(), hintMax);
      while |order| >= hintMax
        invariant MakeRoom(Contents(), hintMax) == MakeRoom(old(Contents()), hintMax) && closed == old(closed)
        decreases |order|
      {
        items := items - {order[0]};
        order := order[1..];
      }
    }

    /** enqueueHint: no hint is kept when hints are off, the pool is closed or the peer has no address. */
    method EnqueueHint(h: Hint, hasAddr: bool)
      requires Inv()
      modifies this
      ensures Inv() && closed == old(closed)
      ensures Contents() == if disabled || closed || !hasAddr then old(Contents()) else Enqueue(old(Contents()), h, hintMax)
    {
      if disabled || closed || !hasAddr {
        return;
      }
      EnqueueLocked(h);
    }

    method EnqueueLocked(h: Hint)
      requires Inv()
      modifies this
      ensures Inv() && closed == old(closed) && Contents() == Enqueue(old(Contents()), h, hintMax)
    {
      EnqueueValid(Contents(), h, hintMax);
      var id := IdOf(h);
      if h.ent.IsTombstone() {
        PurgeAdds(h.at);
      }
      if h.ent.IsBloomAdd() {
        var del := KeyID(h.at);
        if del in items && items[del].ent.IsTombstone() && items[del].ent.version >= h.ent.version {
          return;
        }
      }
      if id in items {
        if !HintNewer(h.ent, items[id].ent) {
          return;
        }
        items := items[id := h];
        return;
      }
      DropOldest();
      order := order + [id];
      items := items[id := h];
    }

    /** peekHint: the oldest pending hint. */
    method PeekHint() returns (r: Option<Hint>)
      requires Inv()
      ensures r == if order == [] then None else Some(items[order[0]])
    {
      if |order| == 0 {
        return None;
      }
      return Some(items[order[0]]);
    }

    /** popHint: the head in the common case, else a scan. */
    method PopHint(id: HintID)
      requires Inv()
      modifies this
      ensures Inv() && Contents() == Pop(old(Contents()), id)
    {
      PopValid(Contents(), id, hintMax);
      items := items - {id};
      if |order| > 0 && order[0] == id {
        order := order[1..];
      } else {
        order := RemoveFirst(order, id);
      }
    }

    /**
     * applyToPeer, with the RPC's outcome as a parameter: a failed first attempt
     * leaves a hint, a failed replay leaves the queue as it was.
     */
    method ApplyToPeer(h: Hint, hasAddr: bool, delivered: bool, hintOnFail: bool) returns (ok: bool)
      requires Inv()
      modifies this
      ensures Inv() && ok == (hasAddr && delivered)
      ensures Contents() == if ok || !hintOnFail || disabled || closed || !hasAddr then old(Contents())
                            else Enqueue(old(Contents()), h, hintMax)
    {
      if !hasAddr {
        return false;
      }
      if !delivered && hintOnFail {
        EnqueueHint(h, hasAddr);
      }
      ok := delivered;
    }

    /** What other callers enqueue while a replay is on its way. */
    method Meanwhile(hs: seq<Hint>)
      requires Inv()
      modifies this
      ensures Inv() && Contents() == EnqueueAll(old(Contents()), hs, hintMax)
    {
      for i := 0 to |hs|
        invariant Inv() && Contents() == EnqueueAll(old(Contents()), hs[..i], hintMax)
      {
        assert hs[..i + 1][..i] == hs[..i];
        EnqueueLocked(hs[i]);
      }
      assert hs[..|hs|] == hs;
    }

    /** flushPeerHints: |during| replays succeed, unless nothing is pending before; then the peer fails. */
    method Flush(during: seq<seq<Hint>>) returns (flushed: nat)
      requires Inv()
      modifies this
      ensures Inv() && Contents() == Flushed(old(Contents()), during, hintMax)
      ensures flushed == |during| || (flushed < |during| && order == [])
    {
      flushed := 0;
      while flushed < |during|
        invariant Inv() && flushed <= |during|
        invariant Flushed(old(Contents()), during, hintMax) == Flushed(Contents(), during[flushed..], hintMax)
      {
        var h := PeekHint();
        if h.None? {
          return;
        }
        HeadPending(Contents(), hintMax);
        EnqueueAllValid(Contents(), during[flushed], hintMax);
        assert during[flushed..][1..] == during[flushed + 1..];
        Meanwhile(during[flushed]);
        var ok := ApplyToPeer(h.value, true, true, false);
        if !ok {
          return;
        }
        PopHint(IdOf(h.value));
        flushed := flushed + 1;
      }
    }
  }
}
