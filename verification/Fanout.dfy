/**
 * The fan-out to one peer (internal/peer/transport.go and hints.go), as atomic steps: a first attempt, the hint a failed
 * one leaves, and the flusher's peek, replay and pop, between which the queue's lock is free. The question is whether the
 * newest mutation of a key that was ever sent is still somewhere: on the peer, in the queue, or on its way into it.
 */
module Fanout {
  import opened Basics
  import opened Ordering
  import opened Entries
  import opened Hints
  import opened LastWriter
  import opened TimedDelivery

  /**
   * An apply call may not arrive, may arrive without its answer coming back, or may succeed; or the peer finds the entry
   * too large for its store and answers without an error, which the caller takes for a success.
   */
  datatype Fate = Lost | ReplyLost | Delivered | Refused

  /** The mutation gets to the peer's entry. */
  predicate Arrives(fate: Fate) { fate.ReplyLost? || fate.Delivered? }

  /** The caller hears of no failure. */
  predicate Answers(fate: Fate) { fate.Delivered? || fate.Refused? }

  /** What the flusher is at: nothing, a hint it has peeked at, or one it has replayed with success. */
  datatype InHand = Idle | Peeked(h: Hint) | Replayed(h: Hint)

  /**
   * The peer's entry for one key, the hints kept for the peer, the failed attempts that are not hinted yet, what the
   * flusher holds, and every call ever attempted.
   */
  datatype World = World(replica: Slot, q: Queue, failed: multiset<Hint>, hand: InHand, calls: set<Hint>)

  /** The key under study, the lifetime of the peer's tombstones, and the size of the queue. */
  datatype Net = Net(at: Target, ttl: int, max: nat)

  datatype Event =
    | Attempt(h: Hint, fate: Fate, now: int)  // by Apply or a worker; a full job queue counts as lost
    | Enlist(h: Hint)                         // the hint of a failed attempt enters the queue
    | Skip(h: Hint)                           // or not, when hints are off or the pool is closed
    | Peek
    | Replay(fate: Fate, now: int)
    | PopHead                                 // popHint, by the id of the replayed hint
    | Straggle(h: Hint, now: int)             // a call given up on arrives after all, or once more
    | Forget                                  // the peer evicts its entry, or drops it as expired

  predicate Enabled(w: World, e: Event)
  {
    match e
    case Enlist(h) => h in w.failed
    case Skip(h) => h in w.failed
    case Peek => w.hand.Idle? && w.q.order != [] && w.q.order[0] in w.q.items
    case Replay(_, _) => w.hand.Peeked?
    case PopHead => w.hand.Replayed?
    case Straggle(h, _) => h in w.calls
    case _ => true
  }

  /** The peer's entry after an apply call. */
  ghost function Received(net: Net, slot: Slot, h: Hint, fate: Fate, now: int): Slot
  {
    if h.at == net.at && Arrives(fate) then DeliverAt(slot, MsgOf(h.ent), now, net.ttl) else slot
  }

  /** One step; a step that is not enabled changes nothing. */
  ghost function Do(net: Net, w: World, e: Event): World
    requires 1 <= net.max
  {
    if !Enabled(w, e) then w
    else
      match e
      case Attempt(h, fate, now) =>
        w.(replica := Received(net, w.replica, h, fate, now), calls := w.calls + {h},
           failed := if Answers(fate) then w.failed else w.failed + multiset{h})
      case Enlist(h) => w.(q := Enqueue(w.q, h, net.max), failed := w.failed - multiset{h})
      case Skip(h) => w.(failed := w.failed - multiset{h})
      case Peek => w.(hand := Peeked(w.q.items[w.q.order[0]]))
      case Replay(fate, now) =>
        w.(replica := Received(net, w.replica, w.hand.h, fate, now),
           hand := if Answers(fate) then Replayed(w.hand.h) else Idle)
      case PopHead => w.(q := Pop(w.q, IdOf(w.hand.h)), hand := Idle)
      case Straggle(h, now) => w.(replica := Received(net, w.replica, h, Delivered, now))
      case Forget => w.(replica := None)
  }

  function Start(): World { World(None, Queue([], map[]), multiset{}, Idle, {}) }

  ghost function Run(net: Net, evs: seq<Event>): World
    requires 1 <= net.max
  {
    if evs == [] then Start() else Do(net, Run(net, evs[..|evs| - 1]), evs[|evs| - 1])
  }

  // ---------------------------------------------------------------- what is left of what was sent

  function Pending(net: Net, q: Queue): set<Msg>
  {
    if KeyID(net.at) in q.items then {MsgOf(q.items[KeyID(net.at)].ent)} else {}
  }

  function Missed(net: Net, failed: multiset<Hint>): set<Msg>
  {
    set h | h in failed && h.at == net.at :: MsgOf(h.ent)
  }

  /** The mutations of the key that are on the peer, pending, or about to be. */
  function Left(net: Net, w: World): set<Msg> { Shown(w.replica) + Pending(net, w.q) + Missed(net, w.failed) }

  /** Every mutation of the key ever sent. */
  function Sent(net: Net, w: World): set<Msg> { set h | h in w.calls && h.at == net.at :: MsgOf(h.ent) }

  ghost predicate Covers(left: set<Msg>, m: Msg) { exists l :: l in left && Over(l, m) }

  /** Everything that was sent is still there, or something newer is. */
  ghost predicate Complete(net: Net, w: World) { forall m :: m in Sent(net, w) ==> Covers(Left(net, w), m) }

  /** What a step sends for the first time. */
  function Sends(net: Net, e: Event): set<Msg> { if e.Attempt? && e.h.at == net.at then {MsgOf(e.h.ent)} else {} }

  /** The step loses a mutation: after it, neither that one nor anything newer is left. */
  ghost predicate Loses(net: Net, w: World, e: Event)
    requires 1 <= net.max
  {
    exists d :: d in Left(net, w) + Sends(net, e) && !Covers(Left(net, Do(net, w, e)), d)
  }

  /** Calls of the key are plain puts and deletes, and no two different puts share a version. */
  ghost predicate Fair(net: Net, calls: set<Hint>)
  {
    && (forall h :: h in calls && h.at == net.at ==> Hints.Plain(h.ent))
    && (forall g, h ::
          (g in calls && h in calls && g.at == net.at && h.at == net.at && !g.ent.IsTombstone() && !h.ent.IsTombstone() &&
           g.ent.version == h.ent.version) ==> g.ent == h.ent)
  }

  /** What every step keeps: the queue is valid, and whatever is held anywhere was called for. */
  ghost predicate Inv(net: Net, w: World)
  {
    && Hints.Valid(w.q, net.max)
    && (forall id :: id in w.q.items ==> w.q.items[id] in w.calls)
    && (forall h :: h in w.failed ==> h in w.calls)
    && (!w.hand.Idle? ==> w.hand.h in w.calls)
    && Shown(w.replica) <= Sent(net, w)
    && (w.replica.Some? ==> Hints.Plain(w.replica.value))
  }

  lemma {:induction false} LeftIsSent(net: Net, w: World)
    requires Inv(net, w)
    ensures Left(net, w) <= Sent(net, w)
  {
    if KeyID(net.at) in w.q.items {
      assert IdOf(w.q.items[KeyID(net.at)]) == KeyID(net.at);
      assert w.q.items[KeyID(net.at)] in w.calls;
    }
  }

  // ---------------------------------------------------------------- one apply call

  /** What an apply call does to what the peer shows. */
  lemma {:induction false} ReceivedShows(net: Net, slot: Slot, h: Hint, fate: Fate, now: int)
    requires h.at == net.at && Arrives(fate) && Hints.Plain(h.ent) && (slot.Some? ==> Hints.Plain(slot.value))
    ensures var r := Received(net, slot, h, fate, now);
            && r.Some? && Hints.Plain(r.value)
            && (Shown(r) == Shown(slot) || Shown(r) == {MsgOf(h.ent)})
            && (slot.None? || slot.value.Expired(now) ==> Shown(r) == {MsgOf(h.ent)})
            && (slot.Some? && !slot.value.Expired(now) && !Over(MsgOf(h.ent), MsgOf(slot.value)) ==> Shown(r) == Shown(slot))
            && (Shown(r) != {MsgOf(h.ent)} ==>
                  slot.value.version >= h.ent.version && !(h.ent.IsTombstone() && slot.value.version == h.ent.version))
  {
    DeliverCases(slot, h.ent, now, net.ttl);
  }

  lemma {:induction false} NotRivals(net: Net, calls: set<Hint>, a: Msg, h: Hint)
    requires Fair(net, calls) && h in calls && h.at == net.at
    requires exists g :: g in calls && g.at == net.at && MsgOf(g.ent) == a
    ensures a.Put? && !h.ent.IsTombstone() && a.e.version == h.ent.version ==> a == MsgOf(h.ent)
  {
    var g :| g in calls && g.at == net.at && MsgOf(g.ent) == a;
  }

  /** A call that arrives leaves the peer with its mutation or a newer one. */
  lemma {:induction false} ReceivedCovers(net: Net, w: World, h: Hint, fate: Fate, now: int)
    requires Inv(net, w) && h.at == net.at && Arrives(fate) && Fair(net, w.calls + {h})
    ensures Covers(Shown(Received(net, w.replica, h, fate, now)), MsgOf(h.ent))
  {
    var r := Received(net, w.replica, h, fate, now);
    ReceivedShows(net, w.replica, h, fate, now);
    if Shown(r) == {MsgOf(h.ent)} {
      assert MsgOf(h.ent) in Shown(r);
    } else {
      var a := MsgOf(w.replica.value);
      assert a in Shown(r) && a in Sent(net, w);
      var g :| g in w.calls && g.at == net.at && MsgOf(g.ent) == a;
      assert g in w.calls + {h};
      NotRivals(net, w.calls + {h}, a, h);
      assert Over(a, MsgOf(h.ent));
    }
  }

  lemma {:induction false} AttemptCovered(net: Net, w: World, h: Hint, fate: Fate, now: int)
    requires 1 <= net.max && Inv(net, w) && h.at == net.at && Fair(net, w.calls + {h}) && !fate.Refused?
    ensures Covers(Left(net, Do(net, w, Attempt(h, fate, now))), MsgOf(h.ent))
  {
    var v := Do(net, w, Attempt(h, fate, now));
    if fate.Delivered? {
      ReceivedCovers(net, w, h, fate, now);
      var l :| l in Shown(v.replica) && Over(l, MsgOf(h.ent));
      assert l in Left(net, v);
    } else {
      assert h in v.failed;
      assert MsgOf(h.ent) in Missed(net, v.failed);
      assert MsgOf(h.ent) in Left(net, v);
    }
  }

  // ---------------------------------------------------------------- every step

  lemma {:induction false} ReceivedInv(net: Net, w: World, h: Hint, fate: Fate, now: int)
    requires Inv(net, w) && h in w.calls && Fair(net, w.calls)
    ensures Shown(Received(net, w.replica, h, fate, now)) <= Sent(net, w)
    ensures Received(net, w.replica, h, fate, now).Some? ==> Hints.Plain(Received(net, w.replica, h, fate, now).value)
  {
    if h.at == net.at && Arrives(fate) {
      ReceivedShows(net, w.replica, h, fate, now);
    }
  }

  lemma {:induction false} AttemptInv(net: Net, w: World, h: Hint, fate: Fate, now: int)
    requires 1 <= net.max && Inv(net, w) && Fair(net, w.calls + {h})
    ensures Inv(net, Do(net, w, Attempt(h, fate, now)))
  {
    var v := w.(calls := w.calls + {h});
    assert Sent(net, w) <= Sent(net, v);
    assert Inv(net, v);
    ReceivedInv(net, v, h, fate, now);
  }

  lemma {:induction false} EnqueueFrom(q: Queue, h: Hint, max: nat, id: HintID)
    requires 1 <= max && Hints.Valid(q, max) && id in Enqueue(q, h, max).items
    ensures Enqueue(q, h, max).items[id] == h || (id in q.items && Enqueue(q, h, max).items[id] == q.items[id])
  {
    MakeRoomFrom(if h.ent.IsTombstone() then Purge(q, h.at) else q, max, id);
  }

  lemma {:induction false} MakeRoomFrom(q: Queue, max: nat, id: HintID)
    requires 1 <= max
    ensures id in MakeRoom(q, max).items ==> id in q.items && MakeRoom(q, max).items[id] == q.items[id]
    decreases |q.order|
  {
    if |q.order| >= max {
      MakeRoomFrom(Behead(q), max, id);
    }
  }

  lemma {:induction false} EnlistInv(net: Net, w: World, h: Hint)
    requires 1 <= net.max && Inv(net, w) && h in w.failed
    ensures Inv(net, Do(net, w, Enlist(h)))
  {
    EnqueueValid(w.q, h, net.max);
    var q := Enqueue(w.q, h, net.max);
    forall id | id in q.items
      ensures q.items[id] in w.calls
    {
      EnqueueFrom(w.q, h, net.max, id);
    }
  }

  lemma {:induction false} StepInv(net: Net, w: World, e: Event)
    requires 1 <= net.max && Inv(net, w) && Fair(net, Do(net, w, e).calls)
    ensures Inv(net, Do(net, w, e))
  {
    if Enabled(w, e) {
      match e
      case Attempt(h, fate, now) => AttemptInv(net, w, h, fate, now);
      case Enlist(h) => EnlistInv(net, w, h);
      case Skip(_) =>
      case Peek =>
      case Replay(fate, now) => ReplayInv(net, w, fate, now);
      case PopHead => PopInv(net, w);
      case Straggle(h, now) => StraggleInv(net, w, h, now);
      case Forget =>
    }
  }

  lemma {:induction false} ReplayInv(net: Net, w: World, fate: Fate, now: int)
    requires 1 <= net.max && Inv(net, w) && Enabled(w, Replay(fate, now)) && Fair(net, w.calls)
    ensures Inv(net, Do(net, w, Replay(fate, now)))
  {
    ReceivedInv(net, w, w.hand.h, fate, now);
  }

  lemma {:induction false} StraggleInv(net: Net, w: World, h: Hint, now: int)
    requires 1 <= net.max && Inv(net, w) && Enabled(w, Straggle(h, now)) && Fair(net, w.calls)
    ensures Inv(net, Do(net, w, Straggle(h, now)))
  {
    ReceivedInv(net, w, h, Delivered, now);
  }

  lemma {:induction false} PopInv(net: Net, w: World)
    requires 1 <= net.max && Inv(net, w) && Enabled(w, PopHead)
    ensures Inv(net, Do(net, w, PopHead))
  {
    PopValid(w.q, IdOf(w.hand.h), net.max);
  }

  lemma {:induction false} FairPart(net: Net, small: set<Hint>, big: set<Hint>)
    requires Fair(net, big) && small <= big
    ensures Fair(net, small)
  {
  }

  lemma {:induction false} RunInv(net: Net, evs: seq<Event>)
    requires 1 <= net.max && Fair(net, Run(net, evs).calls)
    ensures Inv(net, Run(net, evs))
    decreases |evs|
  {
    if evs == [] {
      assert Hints.Valid(Queue([], map[]), net.max);
    } else {
      var w, e := Run(net, evs[..|evs| - 1]), evs[|evs| - 1];
      FairPart(net, w.calls, Run(net, evs).calls);
      RunInv(net, evs[..|evs| - 1]);
      StepInv(net, w, e);
    }
  }

  // ---------------------------------------------------------------- completeness over runs

  lemma {:induction false} CoversTrans(left: set<Msg>, l: Msg, m: Msg)
    requires Covers(left, l) && Over(l, m)
    ensures Covers(left, m)
  {
    var k :| k in left && Over(k, l);
    OverTrans(k, l, m);
  }

  lemma {:induction false} StepComplete(net: Net, w: World, e: Event)
    requires 1 <= net.max && Complete(net, w) && !Loses(net, w, e)
    ensures Complete(net, Do(net, w, e))
  {
    var v := Do(net, w, e);
    forall m | m in Sent(net, v)
      ensures Covers(Left(net, v), m)
    {
      if m in Sent(net, w) {
        var l :| l in Left(net, w) && Over(l, m);
        assert l in Left(net, w) + Sends(net, e);
        CoversTrans(Left(net, v), l, m);
      } else {
        assert m in Sends(net, e);
      }
    }
  }

  lemma {:induction false} StepIncomplete(net: Net, w: World, e: Event)
    requires 1 <= net.max && Inv(net, w) && Loses(net, w, e)
    ensures !Complete(net, Do(net, w, e))
  {
    var d :| d in Left(net, w) + Sends(net, e) && !Covers(Left(net, Do(net, w, e)), d);
    LeftIsSent(net, w);
    if d in Sends(net, e) {
      assert e.h in Do(net, w, e).calls;
    }
    assert d in Sent(net, Do(net, w, e));
  }

  ghost predicate CompleteAfter(net: Net, evs: seq<Event>, k: nat)
    requires 1 <= net.max && k <= |evs|
  {
    Complete(net, Run(net, evs[..k]))
  }

  ghost predicate LosesAt(net: Net, evs: seq<Event>, k: nat)
    requires 1 <= net.max && k < |evs|
  {
    Loses(net, Run(net, evs[..k]), evs[k])
  }

  lemma {:induction false} RunStep(net: Net, evs: seq<Event>, k: nat)
    requires 1 <= net.max && k < |evs|
    ensures Run(net, evs[..k + 1]) == Do(net, Run(net, evs[..k]), evs[k])
  {
    assert evs[..k + 1][..k] == evs[..k];
  }

  lemma {:induction false} CallsGrow(net: Net, evs: seq<Event>, k: nat)
    requires 1 <= net.max && k <= |evs|
    ensures Run(net, evs[..k]).calls <= Run(net, evs).calls
    decreases |evs| - k
  {
    if k == |evs| {
      assert evs[..k] == evs;
    } else {
      RunStep(net, evs, k);
      CallsGrow(net, evs, k + 1);
    }
  }

  lemma {:induction false} PrefixInv(net: Net, evs: seq<Event>, k: nat)
    requires 1 <= net.max && k <= |evs| && Fair(net, Run(net, evs).calls)
    ensures Fair(net, Run(net, evs[..k]).calls) && Inv(net, Run(net, evs[..k]))
  {
    CallsGrow(net, evs, k);
    FairPart(net, Run(net, evs[..k]).calls, Run(net, evs).calls);
    RunInv(net, evs[..k]);
  }

  lemma {:induction false} CompleteUpTo(net: Net, evs: seq<Event>, k: nat)
    requires 1 <= net.max && k <= |evs| && Fair(net, Run(net, evs).calls)
    requires forall j :: 0 <= j < k ==> !LosesAt(net, evs, j)
    ensures CompleteAfter(net, evs, k)
    decreases k
  {
    if k == 0 {
      assert evs[..0] == [];
    } else {
      CompleteUpTo(net, evs, k - 1);
      PrefixInv(net, evs, k - 1);
      PrefixInv(net, evs, k);
      RunStep(net, evs, k - 1);
      assert !LosesAt(net, evs, k - 1);
      StepComplete(net, Run(net, evs[..k - 1]), evs[k - 1]);
    }
  }

  lemma {:induction false} CompleteUnlessLost(net: Net, evs: seq<Event>)
    requires 1 <= net.max && Fair(net, Run(net, evs).calls)
    ensures (forall k :: 0 <= k <= |evs| ==> CompleteAfter(net, evs, k)) <==>
            (forall k :: 0 <= k < |evs| ==> !LosesAt(net, evs, k))
  {
    if forall k :: 0 <= k < |evs| ==> !LosesAt(net, evs, k) {
      forall k | 0 <= k <= |evs|
        ensures CompleteAfter(net, evs, k)
      {
        CompleteUpTo(net, evs, k);
      }
    } else {
      var k :| 0 <= k < |evs| && LosesAt(net, evs, k);
      PrefixInv(net, evs, k);
      RunStep(net, evs, k);
      StepIncomplete(net, Run(net, evs[..k]), evs[k]);
      assert !CompleteAfter(net, evs, k + 1);
    }
  }

  // ---------------------------------------------------------------- how a mutation can be lost

  /** The peer's entry has expired, and the call that arrives would put something older in its place. */
  ghost predicate Overwrites(net: Net, slot: Slot, h: Hint, now: int)
  {
    h.at == net.at && slot.Some? && slot.value.Expired(now) && !Over(MsgOf(h.ent), MsgOf(slot.value))
  }

  /** A hint under another id pushes the key's hint out of a full queue. */
  ghost predicate Drops(net: Net, w: World, h: Hint)
    requires 1 <= net.max
  {
    KeyID(net.at) in w.q.items && KeyID(net.at) !in Enqueue(w.q, h, net.max).items
  }

  /** The pop after a replay removes the key's hint, and it is newer than the one that was replayed. */
  ghost predicate PopsNewer(net: Net, w: World)
  {
    && w.hand.Replayed? && IdOf(w.hand.h) == KeyID(net.at)
    && KeyID(net.at) in w.q.items && HintNewer(w.q.items[KeyID(net.at)].ent, w.hand.h.ent)
  }

  /** The peer no longer has what was replayed to it, nor anything newer. */
  ghost predicate ReplayUndone(net: Net, w: World)
  {
    w.hand.Replayed? && w.hand.h.at == net.at && !Covers(Shown(w.replica), MsgOf(w.hand.h.ent))
  }

  /** The peer's entry, if the call replaces it by something older. */
  ghost function Overwritten(net: Net, slot: Slot, h: Hint, fate: Fate, now: int): Option<Msg>
  {
    if Arrives(fate) && Overwrites(net, slot, h, now) then Some(MsgOf(slot.value)) else None
  }

  /** The copy that a step takes away, or fails to place. */
  ghost function AtStake(net: Net, w: World, e: Event): Option<Msg>
    requires 1 <= net.max
  {
    if !Enabled(w, e) then None
    else
      match e
      case Attempt(h, fate, now) =>
        if fate.Refused? && h.at == net.at then Some(MsgOf(h.ent)) else Overwritten(net, w.replica, h, fate, now)
      case Enlist(h) => if Drops(net, w, h) then Some(MsgOf(w.q.items[KeyID(net.at)].ent)) else None
      case Skip(h) => if h.at == net.at then Some(MsgOf(h.ent)) else None
      case Peek => None
      case Replay(fate, now) => Overwritten(net, w.replica, w.hand.h, fate, now)
      case PopHead =>
        if IdOf(w.hand.h) == KeyID(net.at) && KeyID(net.at) in w.q.items
        then Some(MsgOf(w.q.items[KeyID(net.at)].ent)) else None
      case Straggle(h, now) => Overwritten(net, w.replica, h, Delivered, now)
      case Forget => if w.replica.Some? then Some(MsgOf(w.replica.value)) else None
  }

  /** The copies it leaves alone, as they are before the step. */
  ghost function Others(net: Net, w: World, e: Event): set<Msg>
  {
    match e
    case Attempt(_, fate, _) => if fate.Refused? then Left(net, w) else Pending(net, w.q) + Missed(net, w.failed)
    case Enlist(_) => Shown(w.replica) + Missed(net, w.failed)
    case Skip(h) => Shown(w.replica) + Pending(net, w.q) + Missed(net, w.failed - multiset{h})
    case PopHead => Shown(w.replica) + Missed(net, w.failed)
    case Peek => Left(net, w)
    case _ => Pending(net, w.q) + Missed(net, w.failed)
  }

  /** The step takes the last copy: nothing it leaves alone is as new. */
  ghost predicate LastCopy(net: Net, w: World, e: Event)
    requires 1 <= net.max
  {
    AtStake(net, w, e).Some? && !Covers(Others(net, w, e), AtStake(net, w, e).value)
  }

  lemma {:induction false} RoomKeeps(q: Queue, h: Hint, max: nat, id: HintID)
    requires 1 <= max && Hints.Valid(q, max) && |q.order| < max && id.KeyID? && id in q.items
    ensures id in Enqueue(q, h, max).items
  {
    PurgeKeepsKeys(q, h.at, max, id);
    KeepLists(q.order, q.items.Keys, Purge(q, h.at).items);
  }

  /** Only a full queue drops. */
  lemma {:induction false} DropNeedsFull(net: Net, w: World, h: Hint)
    requires 1 <= net.max && Hints.Valid(w.q, net.max) && Drops(net, w, h)
    ensures |w.q.order| == net.max && IdOf(h) != KeyID(net.at)
  {
    if |w.q.order| < net.max {
      RoomKeeps(w.q, h, net.max, KeyID(net.at));
    }
    if IdOf(h) == KeyID(net.at) {
      EnqueueSame(w.q, h, net.max, KeyID(net.at));
    }
  }

  lemma {:induction false} CoveredByMember(left: set<Msg>, l: Msg, m: Msg)
    requires l in left && Over(l, m)
    ensures Covers(left, m)
  {
  }

  lemma {:induction false} CoversMore(few: set<Msg>, many: set<Msg>, m: Msg)
    requires Covers(few, m) && few <= many
    ensures Covers(many, m)
  {
    var l :| l in few && Over(l, m);
    assert l in many;
  }

  /** A call that arrives keeps what the peer showed covered, unless it overwrites. */
  lemma {:induction false} ReceivedKeeps(net: Net, w: World, h: Hint, fate: Fate, now: int, d: Msg)
    requires Inv(net, w) && Fair(net, w.calls + {h}) && d in Shown(w.replica)
    requires !Arrives(fate) || !Overwrites(net, w.replica, h, now)
    ensures Covers(Shown(Received(net, w.replica, h, fate, now)), d)
  {
    var r := Received(net, w.replica, h, fate, now);
    assert Over(d, d);
    if h.at == net.at && Arrives(fate) {
      ReceivedShows(net, w.replica, h, fate, now);
      if Shown(r) != Shown(w.replica) {
        assert Over(MsgOf(h.ent), d);
        CoveredByMember(Shown(r), MsgOf(h.ent), d);
      } else {
        CoveredByMember(Shown(r), d, d);
      }
    } else {
      CoveredByMember(Shown(r), d, d);
    }
  }

  lemma {:induction false} CallKeepsLeft(net: Net, w: World, v: World, h: Hint, fate: Fate, now: int, d: Msg)
    requires Inv(net, w) && Fair(net, w.calls + {h}) && d in Left(net, w)
    requires !Arrives(fate) || !Overwrites(net, w.replica, h, now)
    requires v.replica == Received(net, w.replica, h, fate, now) && v.q == w.q && w.failed <= v.failed
    ensures Covers(Left(net, v), d)
  {
    if d in Shown(w.replica) {
      ReceivedKeeps(net, w, h, fate, now, d);
      CoversMore(Shown(v.replica), Left(net, v), d);
    } else {
      assert d in Left(net, v);
      CoveredByMember(Left(net, v), d, d);
    }
  }

  lemma {:induction false} EnlistKeepsPending(net: Net, w: World, h: Hint, d: Msg)
    requires 1 <= net.max && Inv(net, w) && Fair(net, w.calls) && h in w.failed && !Drops(net, w, h)
    requires d in Pending(net, w.q) || (h.at == net.at && d == MsgOf(h.ent))
    ensures Covers(Pending(net, Enqueue(w.q, h, net.max)), d)
  {
    var id, q := KeyID(net.at), Enqueue(w.q, h, net.max);
    if h.at == net.at {
      assert IdOf(h) == id;
      EnqueueSame(w.q, h, net.max, id);
      if id in w.q.items {
        var p := w.q.items[id];
        assert IdOf(p) == id && p in w.calls && p.at == net.at;
        EnlistTop(net, w.calls, p, h, d);
      }
    } else {
      EnqueueOther(w.q, h, net.max, id);
    }
  }

  lemma {:induction false} EnlistTop(net: Net, calls: set<Hint>, p: Hint, h: Hint, d: Msg)
    requires Fair(net, calls) && p in calls && h in calls && p.at == net.at && h.at == net.at
    requires d == MsgOf(p.ent) || d == MsgOf(h.ent)
    ensures Over(MsgOf(Merge(p.ent, h.ent)), d)
  {
  }

  lemma {:induction false} EnlistKeepsLeft(net: Net, w: World, h: Hint, d: Msg)
    requires 1 <= net.max && Inv(net, w) && Fair(net, w.calls) && h in w.failed && !Drops(net, w, h) && d in Left(net, w)
    ensures Covers(Left(net, Do(net, w, Enlist(h))), d)
  {
    var v := Do(net, w, Enlist(h));
    if d in Pending(net, w.q) || (h.at == net.at && d == MsgOf(h.ent)) {
      EnlistKeepsPending(net, w, h, d);
      CoversMore(Pending(net, v.q), Left(net, v), d);
    } else {
      if d in Missed(net, w.failed) {
        var g :| g in w.failed && g.at == net.at && MsgOf(g.ent) == d;
        assert g != h;
        assert g in v.failed;
        assert d in Missed(net, v.failed);
      }
      assert d in Left(net, v);
      CoveredByMember(Left(net, v), d, d);
    }
  }

  lemma {:induction false} SkipKeepsLeft(net: Net, w: World, h: Hint, d: Msg)
    requires 1 <= net.max && h in w.failed && h.at != net.at && d in Left(net, w)
    ensures Covers(Left(net, Do(net, w, Skip(h))), d)
  {
    var v := Do(net, w, Skip(h));
    if d in Missed(net, w.failed) {
      var g :| g in w.failed && g.at == net.at && MsgOf(g.ent) == d;
      assert g in v.failed;
      assert d in Missed(net, v.failed);
    }
    assert d in Left(net, v);
    CoveredByMember(Left(net, v), d, d);
  }

  // ---------------------------------------------------------------- exactly when each step does

  /** A set that leaves d uncovered has no member over it, and no part that covers it. */
  lemma {:induction false} Uncovered(few: set<Msg>, many: set<Msg>, d: Msg)
    requires few <= many && !Covers(many, d)
    ensures !Covers(few, d) && d !in many
  {
    assert Over(d, d);
    if Covers(few, d) {
      CoversMore(few, many, d);
    }
  }

  /** What is left once a call has overwritten the peer's entry. */
  lemma {:induction false} OverwriteLeaves(net: Net, w: World, v: World, h: Hint, fate: Fate, now: int, l: Msg)
    requires Inv(net, w) && Fair(net, w.calls + {h}) && Arrives(fate) && Overwrites(net, w.replica, h, now)
    requires v.replica == Received(net, w.replica, h, fate, now) && v.q == w.q
    requires v.failed == w.failed || v.failed == w.failed + multiset{h}
    requires l in Left(net, v)
    ensures l == MsgOf(h.ent) || l in Pending(net, w.q) + Missed(net, w.failed)
  {
    ReceivedShows(net, w.replica, h, fate, now);
    if l in Missed(net, v.failed) {
      var g :| g in v.failed && g.at == net.at && MsgOf(g.ent) == l;
      assert g == h || g in w.failed;
    }
  }

  lemma {:induction false} OverwriteLoses(net: Net, w: World, v: World, h: Hint, fate: Fate, now: int)
    requires Inv(net, w) && Fair(net, w.calls + {h}) && Arrives(fate) && Overwrites(net, w.replica, h, now)
    requires v.replica == Received(net, w.replica, h, fate, now) && v.q == w.q
    requires v.failed == w.failed || v.failed == w.failed + multiset{h}
    requires !Covers(Pending(net, w.q) + Missed(net, w.failed), MsgOf(w.replica.value))
    ensures !Covers(Left(net, v), MsgOf(w.replica.value))
  {
    var d := MsgOf(w.replica.value);
    if l :| l in Left(net, v) && Over(l, d) {
      OverwriteLeaves(net, w, v, h, fate, now, l);
      CoveredByMember(Pending(net, w.q) + Missed(net, w.failed), l, d);
    }
  }

  /** A call loses nothing but what it overwrites. */
  lemma {:induction false} CallLosesOnly(net: Net, w: World, v: World, h: Hint, fate: Fate, now: int, d: Msg)
    requires Inv(net, w) && Fair(net, w.calls + {h}) && d in Left(net, w) && !Covers(Left(net, v), d)
    requires v.replica == Received(net, w.replica, h, fate, now) && v.q == w.q && w.failed <= v.failed
    ensures Overwritten(net, w.replica, h, fate, now) == Some(d)
    ensures !Covers(Pending(net, w.q) + Missed(net, w.failed), d)
  {
    if !Arrives(fate) || !Overwrites(net, w.replica, h, now) {
      CallKeepsLeft(net, w, v, h, fate, now, d);
    }
    MissedGrows(net, w.failed, v.failed);
    Uncovered(Pending(net, w.q) + Missed(net, w.failed), Left(net, v), d);
  }

  lemma {:induction false} MissedGrows(net: Net, few: multiset<Hint>, many: multiset<Hint>)
    requires few <= many
    ensures Missed(net, few) <= Missed(net, many)
  {
    forall m | m in Missed(net, few)
      ensures m in Missed(net, many)
    {
      var h :| h in few && h.at == net.at && MsgOf(h.ent) == m;
      assert h in many;
    }
  }

  lemma {:induction false} CallLosesIff(net: Net, w: World, e: Event)
    requires 1 <= net.max && Inv(net, w) && Fair(net, Do(net, w, e).calls) && Enabled(w, e)
    requires e.Replay? || e.Straggle? || (e.Attempt? && !e.fate.Refused?)
    ensures Loses(net, w, e) <==> LastCopy(net, w, e)
  {
    var v := Do(net, w, e);
    var h := if e.Replay? then w.hand.h else e.h;
    var fate := if e.Straggle? then Delivered else e.fate;
    assert v.calls == w.calls + {h};
    if LastCopy(net, w, e) {
      OverwriteLoses(net, w, v, h, fate, e.now);
      assert MsgOf(w.replica.value) in Left(net, w) + Sends(net, e);
    }
    if Loses(net, w, e) {
      var d :| d in Left(net, w) + Sends(net, e) && !Covers(Left(net, v), d);
      if d in Sends(net, e) {
        AttemptCovered(net, w, h, fate, e.now);
      }
      CallLosesOnly(net, w, v, h, fate, e.now, d);
    }
  }

  lemma {:induction false} RefusalLosesIff(net: Net, w: World, e: Event)
    requires 1 <= net.max && e.Attempt? && e.fate.Refused?
    ensures Loses(net, w, e) <==> LastCopy(net, w, e)
  {
    var v := Do(net, w, e);
    assert Left(net, v) == Left(net, w);
    if Loses(net, w, e) {
      var d :| d in Left(net, w) + Sends(net, e) && !Covers(Left(net, v), d);
      Uncovered(Left(net, w), Left(net, v), d);
      assert e.h.at == net.at && d == MsgOf(e.h.ent);
    }
    if LastCopy(net, w, e) {
      assert MsgOf(e.h.ent) in Left(net, w) + Sends(net, e);
    }
  }

  lemma {:induction false} EnlistLosesIff(net: Net, w: World, h: Hint)
    requires 1 <= net.max && Inv(net, w) && Fair(net, w.calls) && h in w.failed
    ensures Loses(net, w, Enlist(h)) <==> LastCopy(net, w, Enlist(h))
  {
    var v := Do(net, w, Enlist(h));
    if Drops(net, w, h) {
      DropLeaves(net, w, h);
      OneGone(net, w, Enlist(h), MsgOf(w.q.items[KeyID(net.at)].ent));
    } else if Loses(net, w, Enlist(h)) {
      var d :| d in Left(net, w) + Sends(net, Enlist(h)) && !Covers(Left(net, v), d);
      EnlistKeepsLeft(net, w, h, d);
    }
  }

  lemma {:induction false} DropLeaves(net: Net, w: World, h: Hint)
    requires 1 <= net.max && Inv(net, w) && Fair(net, w.calls) && h in w.failed && Drops(net, w, h)
    ensures var v := Do(net, w, Enlist(h));
            && Left(net, v) == Shown(w.replica) + Missed(net, w.failed)
            && Left(net, w) == Left(net, v) + {MsgOf(w.q.items[KeyID(net.at)].ent)}
  {
    DropIsOther(net, w, h);
    MissedWithout(net, w.failed, h);
  }

  lemma {:induction false} DropIsOther(net: Net, w: World, h: Hint)
    requires 1 <= net.max && Inv(net, w) && Fair(net, w.calls) && h in w.failed && Drops(net, w, h)
    ensures h.at != net.at
  {
    DropNeedsFull(net, w, h);
    assert h in w.calls;
  }

  lemma {:induction false} MissedWithout(net: Net, failed: multiset<Hint>, h: Hint)
    requires h.at != net.at
    ensures Missed(net, failed - multiset{h}) == Missed(net, failed)
  {
    forall m | m in Missed(net, failed)
      ensures m in Missed(net, failed - multiset{h})
    {
      var g :| g in failed && g.at == net.at && MsgOf(g.ent) == m;
      assert g in failed - multiset{h};
    }
  }

  /** A step that takes away one copy and sends nothing loses it exactly if the others do not cover it. */
  lemma {:induction false} OneGone(net: Net, w: World, e: Event, p: Msg)
    requires 1 <= net.max && !e.Attempt? && Left(net, w) == Left(net, Do(net, w, e)) + {p}
    ensures Loses(net, w, e) <==> !Covers(Left(net, Do(net, w, e)), p)
  {
    var left := Left(net, Do(net, w, e));
    if Loses(net, w, e) {
      var d :| d in Left(net, w) + Sends(net, e) && !Covers(left, d);
      Uncovered(left, left, d);
      assert d == p;
    }
    assert p in Left(net, w) + Sends(net, e);
  }

  lemma {:induction false} SkipLosesIff(net: Net, w: World, h: Hint)
    requires 1 <= net.max && h in w.failed
    ensures Loses(net, w, Skip(h)) <==> LastCopy(net, w, Skip(h))
  {
    var v := Do(net, w, Skip(h));
    if h.at == net.at {
      SkipLeft(net, w.failed, h);
      assert Left(net, w) == Left(net, v) + {MsgOf(h.ent)};
      OneGone(net, w, Skip(h), MsgOf(h.ent));
    } else if Loses(net, w, Skip(h)) {
      var d :| d in Left(net, w) + Sends(net, Skip(h)) && !Covers(Left(net, v), d);
      SkipKeepsLeft(net, w, h, d);
    }
  }

  lemma {:induction false} SkipLeft(net: Net, failed: multiset<Hint>, h: Hint)
    requires h in failed && h.at == net.at
    ensures Missed(net, failed) == Missed(net, failed - multiset{h}) + {MsgOf(h.ent)}
  {
    forall m | m in Missed(net, failed) && m != MsgOf(h.ent)
      ensures m in Missed(net, failed - multiset{h})
    {
      var g :| g in failed && g.at == net.at && MsgOf(g.ent) == m;
      assert g in failed - multiset{h};
    }
  }

  /**
   * A pop loses something if and only if it removes the key's hint, and neither the peer's entry nor a send that has failed
   * meanwhile covers that hint: because it replaced the one replayed, or because the peer no longer has what was replayed.
   */
  lemma {:induction false} PopLosesIff(net: Net, w: World)
    requires 1 <= net.max && w.hand.Replayed?
    ensures Loses(net, w, PopHead) <==>
            && IdOf(w.hand.h) == KeyID(net.at) && KeyID(net.at) in w.q.items
            && !Covers(Shown(w.replica) + Missed(net, w.failed), MsgOf(w.q.items[KeyID(net.at)].ent))
  {
    var v, id := Do(net, w, PopHead), KeyID(net.at);
    if IdOf(w.hand.h) == id && id in w.q.items {
      assert Left(net, v) == Shown(w.replica) + Missed(net, w.failed);
      assert Left(net, w) == Left(net, v) + {MsgOf(w.q.items[id].ent)};
      OneGone(net, w, PopHead, MsgOf(w.q.items[id].ent));
    } else {
      assert Left(net, v) == Left(net, w);
      NothingGone(net, w, PopHead);
    }
  }

  lemma {:induction false} NothingGone(net: Net, w: World, e: Event)
    requires 1 <= net.max && !e.Attempt? && Left(net, Do(net, w, e)) == Left(net, w)
    ensures !Loses(net, w, e)
  {
    if Loses(net, w, e) {
      var d :| d in Left(net, w) + Sends(net, e) && !Covers(Left(net, w), d);
      Uncovered(Left(net, w), Left(net, w), d);
    }
  }

  lemma {:induction false} ForgetLosesIff(net: Net, w: World)
    requires 1 <= net.max
    ensures Loses(net, w, Forget) <==> LastCopy(net, w, Forget)
  {
    var v := Do(net, w, Forget);
    assert Left(net, v) == Pending(net, w.q) + Missed(net, w.failed);
    if w.replica.Some? {
      assert Left(net, w) == Left(net, v) + {MsgOf(w.replica.value)};
      OneGone(net, w, Forget, MsgOf(w.replica.value));
    } else {
      assert Left(net, v) == Left(net, w);
      NothingGone(net, w, Forget);
    }
  }

  /**
   * Each step, exactly: it loses a mutation if and only if the copy it takes away or fails to place is the last one. That
   * is an older call over an expired entry, a size refusal, a hint pushed out of a full queue or not kept, a pop, or the
   * peer losing its entry; and the condition is on the world before the step.
   */
  lemma {:induction false} LosesIff(net: Net, w: World, e: Event)
    requires 1 <= net.max && Inv(net, w) && Fair(net, Do(net, w, e).calls)
    ensures Loses(net, w, e) <==> LastCopy(net, w, e)
  {
    if !Enabled(w, e) || e.Peek? {
      NothingGone(net, w, e);
    } else if e.Attempt? && e.fate.Refused? {
      RefusalLosesIff(net, w, e);
    } else if e.Attempt? || e.Replay? || e.Straggle? {
      CallLosesIff(net, w, e);
    } else if e.Enlist? {
      EnlistLosesIff(net, w, e.h);
    } else if e.Skip? {
      SkipLosesIff(net, w, e.h);
    } else if e.PopHead? {
      PopLosesIff(net, w);
    } else {
      ForgetLosesIff(net, w);
    }
  }

  ghost predicate LastCopyAt(net: Net, evs: seq<Event>, k: nat)
    requires 1 <= net.max && k < |evs|
  {
    LastCopy(net, Run(net, evs[..k]), evs[k])
  }

  lemma {:induction false} LosesAtIff(net: Net, evs: seq<Event>, k: nat)
    requires 1 <= net.max && k < |evs| && Fair(net, Run(net, evs).calls)
    ensures LosesAt(net, evs, k) <==> LastCopyAt(net, evs, k)
  {
    PrefixInv(net, evs, k);
    PrefixInv(net, evs, k + 1);
    RunStep(net, evs, k);
    LosesIff(net, Run(net, evs[..k]), evs[k]);
  }

  /**
   * In every run, whatever calls and answers are lost, refused, repeated or late, and however sends and the flusher
   * interleave: at each moment everything ever sent is still covered, if and only if no step so far took a last copy.
   */
  lemma {:induction false} CompleteIff(net: Net, evs: seq<Event>)
    requires 1 <= net.max && Fair(net, Run(net, evs).calls)
    ensures (forall k :: 0 <= k <= |evs| ==> CompleteAfter(net, evs, k)) <==>
            (forall k :: 0 <= k < |evs| ==> !LastCopyAt(net, evs, k))
  {
    CompleteUnlessLost(net, evs);
    forall k | 0 <= k < |evs|
      ensures LosesAt(net, evs, k) <==> LastCopyAt(net, evs, k)
    {
      LosesAtIff(net, evs, k);
    }
  }

  // ---------------------------------------------------------------- runs in which only the flusher can lose

  /** The step puts a copy at stake only by popping, and is not a replay that the peer refuses. */
  ghost predicate Quiet(net: Net, w: World, e: Event)
    requires 1 <= net.max
  {
    (AtStake(net, w, e).Some? ==> e.PopHead?) && !(Enabled(w, e) && e.Replay? && e.fate.Refused? && w.hand.h.at == net.at)
  }

  ghost predicate QuietAt(net: Net, evs: seq<Event>, k: nat)
    requires 1 <= net.max && k < |evs|
  {
    Quiet(net, Run(net, evs[..k]), evs[k])
  }

  lemma {:induction false} CallKeepsReplay(net: Net, w: World, v: World, h: Hint, fate: Fate, now: int)
    requires Inv(net, w) && Fair(net, w.calls + {h}) && !ReplayUndone(net, w) && v.hand == w.hand
    requires !Arrives(fate) || !Overwrites(net, w.replica, h, now)
    requires v.replica == Received(net, w.replica, h, fate, now)
    ensures !ReplayUndone(net, v)
  {
    if w.hand.Replayed? && w.hand.h.at == net.at {
      var m := MsgOf(w.hand.h.ent);
      var d :| d in Shown(w.replica) && Over(d, m);
      ReceivedKeeps(net, w, h, fate, now, d);
      CoversTrans(Shown(v.replica), d, m);
    }
  }

  lemma {:induction false} QuietKeepsReplay(net: Net, w: World, e: Event)
    requires 1 <= net.max && Inv(net, w) && Fair(net, Do(net, w, e).calls) && Quiet(net, w, e) && !ReplayUndone(net, w)
    ensures !ReplayUndone(net, Do(net, w, e))
  {
    var v := Do(net, w, e);
    if Enabled(w, e) {
      match e
      case Attempt(h, fate, now) => CallKeepsReplay(net, w, v, h, fate, now);
      case Straggle(h, now) =>
        assert w.calls + {h} == w.calls;
        CallKeepsReplay(net, w, v, h, Delivered, now);
      case Replay(fate, now) =>
        if Answers(fate) && w.hand.h.at == net.at {
          assert w.calls + {w.hand.h} == w.calls;
          ReceivedCovers(net, w, w.hand.h, fate, now);
        }
      case _ =>
    }
  }

  lemma {:induction false} ReplayStands(net: Net, evs: seq<Event>, k: nat)
    requires 1 <= net.max && k <= |evs| && Fair(net, Run(net, evs).calls)
    requires forall j :: 0 <= j < k ==> QuietAt(net, evs, j)
    ensures !ReplayUndone(net, Run(net, evs[..k]))
    decreases k
  {
    if k > 0 {
      ReplayStands(net, evs, k - 1);
      PrefixInv(net, evs, k - 1);
      PrefixInv(net, evs, k);
      RunStep(net, evs, k - 1);
      assert QuietAt(net, evs, k - 1);
      QuietKeepsReplay(net, Run(net, evs[..k - 1]), evs[k - 1]);
    }
  }

  /** The pop discards a hint newer than the one replayed, newer than what the peer has, and newer than any failed send. */
  ghost predicate PopsLastCopy(net: Net, w: World)
  {
    && PopsNewer(net, w)
    && !Covers(Shown(w.replica) + Missed(net, w.failed), MsgOf(w.q.items[KeyID(net.at)].ent))
  }

  /** While the peer still has what was replayed, or something newer, only a hint that replaced it can be the last copy. */
  lemma {:induction false} PopLosesNewer(net: Net, w: World)
    requires 1 <= net.max && Inv(net, w) && Fair(net, w.calls) && w.hand.Replayed? && !ReplayUndone(net, w)
    ensures Loses(net, w, PopHead) <==> PopsLastCopy(net, w)
  {
    PopLosesIff(net, w);
    if Loses(net, w, PopHead) && !PopsNewer(net, w) {
      var p := w.q.items[KeyID(net.at)];
      assert IdOf(p) == KeyID(net.at) && p in w.calls && p.at == net.at && w.hand.h.at == net.at;
      PopTop(net, w.calls, p, w.hand.h);
      CoversTrans(Shown(w.replica), MsgOf(w.hand.h.ent), MsgOf(p.ent));
      CoversMore(Shown(w.replica), Shown(w.replica) + Missed(net, w.failed), MsgOf(p.ent));
    }
  }

  lemma {:induction false} PopTop(net: Net, calls: set<Hint>, p: Hint, h: Hint)
    requires Fair(net, calls) && p in calls && h in calls && p.at == net.at && h.at == net.at && !HintNewer(p.ent, h.ent)
    ensures Over(MsgOf(h.ent), MsgOf(p.ent))
  {
  }

  ghost predicate PopsLastCopyAt(net: Net, evs: seq<Event>, k: nat)
    requires 1 <= net.max && k < |evs|
  {
    evs[k].PopHead? && PopsLastCopy(net, Run(net, evs[..k]))
  }

  lemma {:induction false} QuietLossIff(net: Net, evs: seq<Event>, k: nat)
    requires 1 <= net.max && k < |evs| && Fair(net, Run(net, evs).calls)
    requires forall j :: 0 <= j < |evs| ==> QuietAt(net, evs, j)
    ensures LosesAt(net, evs, k) <==> PopsLastCopyAt(net, evs, k)
  {
    var w := Run(net, evs[..k]);
    PrefixInv(net, evs, k);
    PrefixInv(net, evs, k + 1);
    RunStep(net, evs, k);
    ReplayStands(net, evs, k);
    assert QuietAt(net, evs, k);
    LosesIff(net, w, evs[k]);
    if evs[k].PopHead? && w.hand.Replayed? {
      PopLosesNewer(net, w);
    }
  }

  /**
   * In every run in which the peer keeps its entry and refuses none, hints are kept, none is dropped from a full queue and
   * no older call arrives over an expired entry: at each moment everything sent is covered, if and only if no pop so far discarded a
   * hint newer than the one replayed, of which there was no other copy.
   */
  lemma {:induction false} QuietCompleteIff(net: Net, evs: seq<Event>)
    requires 1 <= net.max && Fair(net, Run(net, evs).calls)
    requires forall j :: 0 <= j < |evs| ==> QuietAt(net, evs, j)
    ensures (forall k :: 0 <= k <= |evs| ==> CompleteAfter(net, evs, k)) <==>
            (forall k :: 0 <= k < |evs| ==> !PopsLastCopyAt(net, evs, k))
  {
    CompleteUnlessLost(net, evs);
    forall k | 0 <= k < |evs|
      ensures LosesAt(net, evs, k) <==> PopsLastCopyAt(net, evs, k)
    {
      QuietLossIff(net, evs, k);
    }
  }

  // ---------------------------------------------------------------- nothing expires in time

  /** The entry outlasts t. */
  ghost predicate Lasts(slot: Slot, t: int) { slot.Some? ==> slot.value.expireAt == 0 || t < slot.value.expireAt }

  function TimeOf(e: Event, none: int): int
  {
    match e
    case Attempt(_, _, now) => now
    case Replay(_, now) => now
    case Straggle(_, now) => now
    case _ => none
  }

  /** All steps happen between two instants, and neither a put of the key nor a tombstone expires by the second. */
  ghost predicate InTime(net: Net, evs: seq<Event>, t0: int, t1: int)
    requires 1 <= net.max
  {
    && t0 <= t1 && (net.ttl <= 0 || t1 < t0 + net.ttl)
    && (forall k :: 0 <= k < |evs| ==> t0 <= TimeOf(evs[k], t0) <= t1)
    && (forall h :: h in Run(net, evs).calls && h.at == net.at && !h.ent.IsTombstone() ==> Lasts(Some(h.ent), t1))
  }

  lemma {:induction false} ReceivedLasts(net: Net, slot: Slot, h: Hint, fate: Fate, now: int, t0: int, t1: int)
    requires Lasts(slot, t1) && t0 <= now <= t1 && (net.ttl <= 0 || t1 < t0 + net.ttl)
    requires h.at == net.at && !h.ent.IsTombstone() ==> Lasts(Some(h.ent), t1)
    ensures Lasts(Received(net, slot, h, fate, now), t1)
  {
    if h.at == net.at && Arrives(fate) {
      DeliverCases(slot, h.ent, now, net.ttl);
    }
  }

  lemma {:induction false} ReplicaLasts(net: Net, evs: seq<Event>, t0: int, t1: int, k: nat)
    requires 1 <= net.max && Fair(net, Run(net, evs).calls) && InTime(net, evs, t0, t1) && k <= |evs|
    ensures Lasts(Run(net, evs[..k]).replica, t1)
    decreases k
  {
    if k > 0 {
      ReplicaLasts(net, evs, t0, t1, k - 1);
      PrefixInv(net, evs, k - 1);
      CallsGrow(net, evs, k - 1);
      CallsGrow(net, evs, k);
      RunStep(net, evs, k - 1);
      assert t0 <= TimeOf(evs[k - 1], t0) <= t1;
      StepLasts(net, Run(net, evs[..k - 1]), evs[k - 1], t0, t1);
    }
  }

  lemma {:induction false} StepLasts(net: Net, w: World, e: Event, t0: int, t1: int)
    requires 1 <= net.max && Inv(net, w) && Lasts(w.replica, t1)
    requires t0 <= TimeOf(e, t0) <= t1 && (net.ttl <= 0 || t1 < t0 + net.ttl)
    requires forall h :: h in Do(net, w, e).calls && h.at == net.at && !h.ent.IsTombstone() ==> Lasts(Some(h.ent), t1)
    ensures Lasts(Do(net, w, e).replica, t1)
  {
    if Enabled(w, e) {
      match e
      case Attempt(h, fate, now) =>
        assert h in Do(net, w, e).calls;
        ReceivedLasts(net, w.replica, h, fate, now, t0, t1);
      case Replay(fate, now) => ReceivedLasts(net, w.replica, w.hand.h, fate, now, t0, t1);
      case Straggle(h, now) => ReceivedLasts(net, w.replica, h, Delivered, now, t0, t1);
      case _ =>
    }
  }

  /** The hazards that have nothing to do with time or with the flusher. */
  ghost predicate Mishap(net: Net, w: World, e: Event)
    requires 1 <= net.max
  {
    && Enabled(w, e)
    && match e
       case Attempt(h, fate, _) => fate.Refused? && h.at == net.at
       case Replay(fate, _) => fate.Refused? && w.hand.h.at == net.at
       case Enlist(h) => Drops(net, w, h)
       case Skip(h) => h.at == net.at
       case Forget => w.replica.Some?
       case _ => false
  }

  ghost predicate MishapAt(net: Net, evs: seq<Event>, k: nat)
    requires 1 <= net.max && k < |evs|
  {
    Mishap(net, Run(net, evs[..k]), evs[k])
  }

  /** While nothing expires, the mishaps and the pops are the only hazards. */
  lemma {:induction false} InTimeIsQuiet(net: Net, evs: seq<Event>, t0: int, t1: int, k: nat)
    requires 1 <= net.max && Fair(net, Run(net, evs).calls) && InTime(net, evs, t0, t1) && k < |evs|
    requires !MishapAt(net, evs, k)
    ensures QuietAt(net, evs, k)
  {
    ReplicaLasts(net, evs, t0, t1, k);
    assert t0 <= TimeOf(evs[k], t0) <= t1;
  }

  /** The two together: until something expires, and without mishaps, only such a pop loses anything. */
  lemma {:induction false} InTimeCompleteIff(net: Net, evs: seq<Event>, t0: int, t1: int)
    requires 1 <= net.max && Fair(net, Run(net, evs).calls) && InTime(net, evs, t0, t1)
    requires forall k :: 0 <= k < |evs| ==> !MishapAt(net, evs, k)
    ensures (forall k :: 0 <= k <= |evs| ==> CompleteAfter(net, evs, k)) <==>
            (forall k :: 0 <= k < |evs| ==> !PopsLastCopyAt(net, evs, k))
  {
    forall k | 0 <= k < |evs|
      ensures QuietAt(net, evs, k)
    {
      InTimeIsQuiet(net, evs, t0, t1, k);
    }
    QuietCompleteIff(net, evs);
  }

  // ---------------------------------------------------------------- a drained peer

  /** Nothing for the key is pending or about to be. */
  ghost predicate Drained(net: Net, w: World) { KeyID(net.at) !in w.q.items && Missed(net, w.failed) == {} }

  /** A peer that is complete and has nothing pending holds the newest mutation of all that was sent. */
  lemma {:induction false} DrainedHoldsNewest(net: Net, w: World)
    requires Inv(net, w) && Complete(net, w) && Drained(net, w) && Sent(net, w) != {}
    ensures w.replica.Some? && MsgOf(w.replica.value) in Sent(net, w)
    ensures forall m :: m in Sent(net, w) ==> Over(MsgOf(w.replica.value), m)
  {
    assert Left(net, w) == Shown(w.replica);
    var m :| m in Sent(net, w);
    assert Covers(Left(net, w), m);
  }

  lemma {:induction false} NewestIsOne(sent: set<Msg>, a: Msg, b: Msg)
    requires a in sent && b in sent && (forall m :: m in sent ==> Over(a, m)) && (forall m :: m in sent ==> Over(b, m))
    ensures a == b
  {
  }

  /** So two such peers, or one and an owner that holds the newest, agree on the key. */
  lemma {:induction false} DrainedPeersAgree(net: Net, w: World, v: World)
    requires Inv(net, w) && Complete(net, w) && Drained(net, w)
    requires Inv(net, v) && Complete(net, v) && Drained(net, v) && Sent(net, v) == Sent(net, w)
    ensures Shown(w.replica) == Shown(v.replica)
  {
    if Sent(net, w) != {} {
      DrainedHoldsNewest(net, w);
      DrainedHoldsNewest(net, v);
      NewestIsOne(Sent(net, w), MsgOf(w.replica.value), MsgOf(v.replica.value));
    }
  }

  /** The owner received the same mutations, in an order and at times of its own. */
  ghost predicate SameSent(net: Net, w: World, own: seq<Timed>) { forall m :: m in Sent(net, w) <==> Among(own, m) }

  lemma {:induction false} SentClean(net: Net, w: World, own: seq<Timed>)
    requires Fair(net, w.calls) && SameSent(net, w, own)
    ensures Clean(own)
  {
    forall i | 0 <= i < |own|
      ensures own[i].m in Sent(net, w)
    {
      assert Among(own, own[i].m);
    }
  }

  lemma {:induction false} LastOf(own: seq<Timed>, m: Msg) returns (j: nat)
    requires Among(own, m)
    ensures j < |own| && own[j].m == m && forall i :: j < i < |own| ==> own[i].m != m
    decreases |own|
  {
    var n := |own| - 1;
    if own[n].m == m {
      j := n;
    } else {
      var i :| 0 <= i < |own| && own[i].m == m;
      assert own[..n][i].m == m;
      j := LastOf(own[..n], m);
    }
  }

  /**
   * A peer that is complete and has nothing pending shows what an owner does that received the same mutations itself, if
   * and only if nothing reached the owner after the last delivery of the newest one when that had expired.
   */
  lemma {:induction false} DrainedPeerAgreesIff(net: Net, w: World, own: seq<Timed>, j: nat, ttl: int)
    requires Inv(net, w) && Fair(net, w.calls) && Complete(net, w) && Drained(net, w)
    requires SameSent(net, w, own) && NewestAt(own, j)
    ensures Shown(w.replica) == Shown(DeliverTimed(None, own, ttl)) <==>
            forall i :: j < i < |own| ==> !Stored(own[j], ttl).Expired(own[i].now)
  {
    SentClean(net, w, own);
    NewestStaysIff(own, j, ttl);
    assert Among(own, own[j].m);
    DrainedHoldsNewest(net, w);
    forall m | m in Sent(net, w)
      ensures Over(own[j].m, m)
    {
      var i :| 0 <= i < |own| && own[i].m == m;
    }
    NewestIsOne(Sent(net, w), MsgOf(w.replica.value), own[j].m);
  }

  /** Nothing is delivered to the owner after `until`, and nothing has expired by then. */
  ghost predicate Lasting(own: seq<Timed>, ttl: int, until: int)
  {
    forall i :: 0 <= i < |own| ==> own[i].now <= until && !Stored(own[i], ttl).Expired(until)
  }

  lemma {:induction false} DrainedPeerAgrees(net: Net, w: World, own: seq<Timed>, ttl: int, until: int)
    requires Inv(net, w) && Fair(net, w.calls) && Complete(net, w) && Drained(net, w)
    requires SameSent(net, w, own) && Lasting(own, ttl, until)
    ensures Shown(w.replica) == Shown(DeliverTimed(None, own, ttl))
  {
    if Sent(net, w) == {} {
      if own != [] {
        assert Among(own, own[0].m);
      }
    } else {
      DrainedHoldsNewest(net, w);
      var m := MsgOf(w.replica.value);
      var j := LastOf(own, m);
      forall i | 0 <= i < |own|
        ensures Over(m, own[i].m)
      {
        assert Among(own, own[i].m);
      }
      DrainedPeerAgreesIff(net, w, own, j, ttl);
    }
  }

  lemma {:induction false} InTimeComplete(net: Net, evs: seq<Event>, t0: int, t1: int)
    requires 1 <= net.max && Fair(net, Run(net, evs).calls) && InTime(net, evs, t0, t1)
    requires forall k :: 0 <= k < |evs| ==> !MishapAt(net, evs, k) && !PopsLastCopyAt(net, evs, k)
    ensures Inv(net, Run(net, evs)) && Complete(net, Run(net, evs))
  {
    InTimeCompleteIff(net, evs, t0, t1);
    assert CompleteAfter(net, evs, |evs|);
    assert evs[..|evs|] == evs;
    RunInv(net, evs);
  }

  /**
   * Over whole runs, with puts that expire and tombstones that lapse: if nothing expires on the peer meanwhile, there is no
   * mishap, no pop takes the last copy of a newer hint, and nothing is pending in the end, then the peer shows what the
   * owner does, as long as nothing has expired there either.
   */
  lemma {:induction false} DrainedRunAgrees(net: Net, evs: seq<Event>, t0: int, t1: int, own: seq<Timed>, ttl: int, until: int)
    requires 1 <= net.max && Fair(net, Run(net, evs).calls) && InTime(net, evs, t0, t1)
    requires forall k :: 0 <= k < |evs| ==> !MishapAt(net, evs, k) && !PopsLastCopyAt(net, evs, k)
    requires Drained(net, Run(net, evs)) && SameSent(net, Run(net, evs), own) && Lasting(own, ttl, until)
    ensures Shown(Run(net, evs).replica) == Shown(DeliverTimed(None, own, ttl))
  {
    InTimeComplete(net, evs, t0, t1);
    DrainedPeerAgrees(net, Run(net, evs), own, ttl, until);
  }

  // ---------------------------------------------------------------- runs that do lose

  lemma {:induction false} RunSnoc(net: Net, evs: seq<Event>, e: Event)
    requires 1 <= net.max
    ensures Run(net, evs + [e]) == Do(net, Run(net, evs), e)
  {
    assert (evs + [e])[..|evs|] == evs;
  }

  lemma {:induction false} FirstMissed(net: Net, h: Hint)
    requires 1 <= net.max && h.at == net.at && h.ent.flags == {}
    ensures Run(net, [Attempt(h, Lost, 0), Enlist(h)]) ==
            World(None, Queue([KeyID(net.at)], map[KeyID(net.at) := h]), multiset{}, Idle, {h})
  {
    var id := KeyID(net.at);
    RunSnoc(net, [], Attempt(h, Lost, 0));
    assert [] + [Attempt(h, Lost, 0)] == [Attempt(h, Lost, 0)];
    var w1 := World(None, Queue([], map[]), multiset{h}, Idle, {h});
    assert Do(net, Start(), Attempt(h, Lost, 0)) == w1;
    RunSnoc(net, [Attempt(h, Lost, 0)], Enlist(h));
    assert [Attempt(h, Lost, 0)] + [Enlist(h)] == [Attempt(h, Lost, 0), Enlist(h)];
    assert Enqueue(Queue([], map[]), h, net.max) == Queue([id], map[id := h]);
    assert multiset{h} - multiset{h} == multiset{};
  }

  lemma {:induction false} MissedThenReplayed(net: Net, a: Hint)
    requires 1 <= net.max && a.at == net.at && a.ent.flags == {}
    ensures Run(net, [Attempt(a, Lost, 0), Enlist(a), Peek, Replay(Delivered, 0)]) ==
            World(Some(a.ent), Queue([KeyID(net.at)], map[KeyID(net.at) := a]), multiset{}, Replayed(a), {a})
  {
    var id := KeyID(net.at);
    var e2 := [Attempt(a, Lost, 0), Enlist(a)];
    FirstMissed(net, a);
    var e3 := e2 + [Peek];
    RunSnoc(net, e2, Peek);
    assert Run(net, e3) == World(None, Queue([id], map[id := a]), multiset{}, Peeked(a), {a});
    RunSnoc(net, e3, Replay(Delivered, 0));
    assert e3 + [Replay(Delivered, 0)] == [Attempt(a, Lost, 0), Enlist(a), Peek, Replay(Delivered, 0)];
  }

  /**
   * A peer that loses its entry between the replay and the pop loses it for good: the hint that is popped is the one that
   * was replayed, and nothing newer came in between.
   */
  lemma {:induction false} ForgottenBeforePopIsLost(net: Net, a: Hint)
    requires 1 <= net.max && a.at == net.at && a.ent.flags == {}
    ensures var evs := [Attempt(a, Lost, 0), Enlist(a), Peek, Replay(Delivered, 0), Forget, PopHead];
            !LosesAt(net, evs, 4) && LosesAt(net, evs, 5)
  {
    var id := KeyID(net.at);
    var e4 := [Attempt(a, Lost, 0), Enlist(a), Peek, Replay(Delivered, 0)];
    var evs := e4 + [Forget, PopHead];
    MissedThenReplayed(net, a);
    RunSnoc(net, e4, Forget);
    var v := World(None, Queue([id], map[id := a]), multiset{}, Replayed(a), {a});
    assert Run(net, e4 + [Forget]) == v;
    assert evs == [Attempt(a, Lost, 0), Enlist(a), Peek, Replay(Delivered, 0), Forget, PopHead];
    assert evs[..4] == e4 && evs[..5] == e4 + [Forget];
    ForgetLosesIff(net, Run(net, e4));
    assert Over(MsgOf(a.ent), MsgOf(a.ent)) && MsgOf(a.ent) in Pending(net, v.q);
    PopLosesIff(net, v);
    assert Shown(v.replica) + Missed(net, v.failed) == {};
  }

  /** A put that the peer refuses by size leaves neither an entry nor a hint. */
  lemma {:induction false} RefusedIsLost(net: Net, a: Hint)
    requires 1 <= net.max && a.at == net.at
    ensures var evs := [Attempt(a, Refused, 0)];
            Run(net, evs) == World(None, Queue([], map[]), multiset{}, Idle, {a}) && !Complete(net, Run(net, evs))
  {
    RunSnoc(net, [], Attempt(a, Refused, 0));
    assert [] + [Attempt(a, Refused, 0)] == [Attempt(a, Refused, 0)];
    var w := Run(net, [Attempt(a, Refused, 0)]);
    assert MsgOf(a.ent) in Sent(net, w) && Left(net, w) == {};
  }

  lemma {:induction false} CoalescedThenPopped(net: Net, w: World, a: Hint, b: Hint)
    requires 1 <= net.max && a.at == b.at == net.at && a.ent.flags == b.ent.flags == {} && a.ent.version < b.ent.version
    requires w == World(Some(a.ent), Queue([KeyID(net.at)], map[KeyID(net.at) := a]), multiset{}, Replayed(a), {a})
    ensures Do(net, Do(net, Do(net, w, Attempt(b, Lost, 0)), Enlist(b)), PopHead) ==
            World(Some(a.ent), Queue([], map[]), multiset{}, Idle, {a, b})
  {
    var id := KeyID(net.at);
    assert Do(net, w, Attempt(b, Lost, 0)) == World(w.replica, w.q, multiset{b}, w.hand, {a, b});
    assert Enqueue(w.q, b, net.max) == Queue([id], map[id := b]);
    assert multiset{b} - multiset{b} == multiset{};
    assert Pop(Queue([id], map[id := b]), id) == Queue([], map[]);
  }

  /**
   * A send that fails while an older hint of its key is being replayed is coalesced into that hint and popped with it:
   * nothing is left to send, and the peer keeps the older value.
   */
  lemma {:induction false} CoalescedDuringReplayIsLost(net: Net, a: Hint, b: Hint)
    requires 1 <= net.max && a.at == b.at == net.at && a.ent.flags == b.ent.flags == {} && a.ent.version < b.ent.version
    ensures var evs := [Attempt(a, Lost, 0), Enlist(a), Peek, Replay(Delivered, 0), Attempt(b, Lost, 0), Enlist(b), PopHead];
            && Run(net, evs) == World(Some(a.ent), Queue([], map[]), multiset{}, Idle, {a, b})
            && Drained(net, Run(net, evs)) && !Complete(net, Run(net, evs))
  {
    var e4 := [Attempt(a, Lost, 0), Enlist(a), Peek, Replay(Delivered, 0)];
    MissedThenReplayed(net, a);
    var e5 := e4 + [Attempt(b, Lost, 0)];
    var e6 := e5 + [Enlist(b)];
    RunSnoc(net, e4, Attempt(b, Lost, 0));
    RunSnoc(net, e5, Enlist(b));
    RunSnoc(net, e6, PopHead);
    CoalescedThenPopped(net, Run(net, e4), a, b);
    assert e6 + [PopHead] == [Attempt(a, Lost, 0), Enlist(a), Peek, Replay(Delivered, 0), Attempt(b, Lost, 0), Enlist(b), PopHead];
    LostForGood(net, Run(net, e6 + [PopHead]), a, b);
  }

  lemma {:induction false} LostForGood(net: Net, w: World, a: Hint, b: Hint)
    requires a.at == b.at == net.at && a.ent.flags == b.ent.flags == {} && a.ent.version < b.ent.version
    requires w.replica == Some(a.ent) && w.q == Queue([], map[]) && w.failed == multiset{} && b in w.calls
    ensures Drained(net, w) && !Complete(net, w)
  {
    assert Left(net, w) == {MsgOf(a.ent)};
    assert MsgOf(b.ent) in Sent(net, w);
    assert !Over(MsgOf(a.ent), MsgOf(b.ent));
  }

  /** Once a newer put has expired on the peer, the replay of an older hint brings the older value back. */
  lemma {:induction false} ExpiryBringsBackOlder(net: Net, a: Hint, b: Hint)
    requires 1 <= net.max && a.at == b.at == net.at && a.ent.flags == b.ent.flags == {} && a.ent.version < b.ent.version
    requires 0 < b.ent.expireAt
    ensures var evs := [Attempt(a, Lost, 0), Enlist(a), Attempt(b, Delivered, 0), Peek, Replay(Delivered, b.ent.expireAt)];
            Run(net, evs).replica == Some(a.ent) && LosesAt(net, evs, 4)
  {
    var id, t := KeyID(net.at), b.ent.expireAt;
    var q := Queue([id], map[id := a]);
    var e4 := [Attempt(a, Lost, 0), Enlist(a), Attempt(b, Delivered, 0), Peek];
    MissedThenPeeked(net, a, b);
    var w := World(Some(b.ent), q, multiset{}, Peeked(a), {a, b});
    var e5 := e4 + [Replay(Delivered, t)];
    RunSnoc(net, e4, Replay(Delivered, t));
    var v := World(Some(a.ent), q, multiset{}, Replayed(a), {a, b});
    assert Do(net, w, Replay(Delivered, t)) == v;
    assert e5 == [Attempt(a, Lost, 0), Enlist(a), Attempt(b, Delivered, 0), Peek, Replay(Delivered, t)];
    assert e5[..4] == e4 && e5[4] == Replay(Delivered, t);
    assert Left(net, v) == {MsgOf(a.ent)};
    assert MsgOf(b.ent) in Left(net, w) + Sends(net, Replay(Delivered, t)) && !Over(MsgOf(a.ent), MsgOf(b.ent));
  }

  lemma {:induction false} MissedThenPeeked(net: Net, a: Hint, b: Hint)
    requires 1 <= net.max && a.at == b.at == net.at && a.ent.flags == b.ent.flags == {}
    ensures Run(net, [Attempt(a, Lost, 0), Enlist(a), Attempt(b, Delivered, 0), Peek]) ==
            World(Some(b.ent), Queue([KeyID(net.at)], map[KeyID(net.at) := a]), multiset{}, Peeked(a), {a, b})
  {
    var id := KeyID(net.at);
    var e2 := [Attempt(a, Lost, 0), Enlist(a)];
    FirstMissed(net, a);
    var e3 := e2 + [Attempt(b, Delivered, 0)];
    RunSnoc(net, e2, Attempt(b, Delivered, 0));
    assert Run(net, e3) == World(Some(b.ent), Queue([id], map[id := a]), multiset{}, Idle, {a, b});
    RunSnoc(net, e3, Peek);
    assert e3 + [Peek] == [Attempt(a, Lost, 0), Enlist(a), Attempt(b, Delivered, 0), Peek];
  }
}
