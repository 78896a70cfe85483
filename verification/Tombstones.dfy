/** A delete marker keeps late writes out until it expires. */
module Tombstones {
  import opened Basics
  import opened Ordering
  import opened Entries
  import opened Stores
  import opened Structures
  import opened StoreRuns

  /** The time from which a delete made at t0 no longer guards the key; None is never. */
  function GuardEnd(s: Store, t0: int): Option<int>
  {
    if s.tombstoneTTL <= 0 then None else Some(t0 + s.tombstoneTTL)
  }

  ghost predicate Before(now: int, end: Option<int>) { end.Some? ==> now < end.value }

  /** k holds a tombstone of version at least d that outlasts `end`. */
  ghost predicate Gated(s: Store, k: Key, d: uint64, end: Option<int>)
  {
    && k in s.items
    && s.items[k].entry.flags == {FlagTombstone}
    && d <= s.items[k].entry.version
    && if end.None? then s.items[k].entry.expireAt == 0
       else s.items[k].entry.expireAt == 0 || end.value <= s.items[k].entry.expireAt
  }

  /** Operations that a delete of version d must withstand. */
  ghost predicate Harmless(op: Op, k: Key, d: uint64)
  {
    op.k != k ||
    match op
    case AcceptOp(_, e) => e.version <= d
    case NegativeOp(_, e) => e.version <= d
    case HSetOp(_, _, _, version, _) => version <= d
    case HInstallOp(_, _, version, _) => version <= d
    case TopKAddOp(_, _, version, _, _, _) => version <= d
    case TopKInstallOp(_, _, version, _, _) => version <= d
    case SetOp(_, _) => false
    case DeleteOp(_) => false
    case _ => true
  }

  lemma {:induction false} InstalledTombstone(s: Store, k: Key, version: uint64, now: int)
    requires Valid(s) && DeleteIfVersion(s, k, version, now).1
    ensures Gated(DeleteIfVersion(s, k, version, now).0, k, version, GuardEnd(s, now))
  {
    DeleteVersionEffect(s, k, version, now);
    assert TombstoneOf(s, version, now).Protected(now);
  }

  /** No harmless operation opens the gate while it stands. */
  lemma {:induction false} StepGated(s: Store, op: Op, now: int, k: Key, d: uint64, t0: int)
    requires Valid(s) && Gated(s, k, d, GuardEnd(s, t0))
    requires t0 <= now && Before(now, GuardEnd(s, t0))
    requires Harmless(op, k, d)
    ensures Gated(Step(s, op, now), k, d, GuardEnd(s, t0))
  {
    assert Protected(s, k, now);
    if op.k != k {
      StepLocal(s, op, now);
      assert Undisturbed(s, Step(s, op, now), k, now);
    } else if op.DeleteVersionOp? {
      if DeleteIfVersion(s, k, op.version, now).1 {
        InstalledTombstone(s, k, op.version, now);
      }
    }
  }

  lemma {:induction false} RunGated(s: Store, evs: seq<Event>, k: Key, d: uint64, t0: int)
    requires Valid(s) && Gated(s, k, d, GuardEnd(s, t0))
    requires forall i :: 0 <= i < |evs| ==>
      t0 <= evs[i].now && Before(evs[i].now, GuardEnd(s, t0)) && Harmless(evs[i].op, k, d)
    ensures Gated(Run(s, evs), k, d, GuardEnd(s, t0))
    decreases |evs|
  {
    if evs != [] {
      StepLocal(s, evs[0].op, evs[0].now);
      StepGated(s, evs[0].op, evs[0].now, k, d, t0);
      RunGated(Step(s, evs[0].op, evs[0].now), evs[1..], k, d, t0);
    }
  }

  /**
   * Once a delete of version d is installed, no run of applies and negative fills
   * of version at most d, deletes of any version, reads, or work on other keys
   * (with the evictions it causes) makes Get return anything for the key before
   * the tombstone expires.
   */
  lemma {:induction false} NoResurrection(s: Store, k: Key, d: uint64, t0: int, evs: seq<Event>, t: int)
    requires Valid(s) && DeleteIfVersion(s, k, d, t0).1
    requires forall i :: 0 <= i < |evs| ==>
      t0 <= evs[i].now && Before(evs[i].now, GuardEnd(s, t0)) && Harmless(evs[i].op, k, d)
    requires t0 <= t && Before(t, GuardEnd(s, t0))
    ensures Valid(DeleteIfVersion(s, k, d, t0).0)
    ensures Get(Run(DeleteIfVersion(s, k, d, t0).0, evs), k, t).1 == None
  {
    DeleteVersionEffect(s, k, d, t0);
    InstalledTombstone(s, k, d, t0);
    RunGated(DeleteIfVersion(s, k, d, t0).0, evs, k, d, t0);
  }

  /** A negative fill leaves a tombstone standing exactly when its version does not exceed it, or its size is refused. */
  lemma {:induction false} NegativeFillOpensGate(s: Store, k: Key, e: Entry, now: int)
    requires Valid(s) && Live(s, k, now) && s.items[k].entry.IsTombstone() && !e.IsTombstone()
    ensures var r := AcceptNegative(s, k, e, now).0;
            (k in r.items && r.items[k].entry.IsTombstone()) <==>
            e.version <= s.items[k].entry.version || 0 < s.maxBytes < EntryCost(k, e)
  {
    NegativeEffect(s, k, e, now);
  }

  /**
   * Negative fills newer than the delete are therefore outside the guarantee: one
   * that expires first lets every late put back in while the delete would still
   * have kept it out.
   */
  lemma {:induction false} ResurrectionThroughNegative(s: Store, k: Key, d: uint64, t0: int, neg: Entry, t1: int, put: Entry, t2: int)
    requires Valid(s) && s.maxBytes <= 0 && s.items == map[]
    requires t0 <= t1 < t2 && Before(t2, GuardEnd(s, t0))
    requires neg.flags == {FlagNegative} && d < neg.version && neg.expireAt != 0 && t1 < neg.expireAt <= t2
    requires put.flags == {} && put.version <= d && put.expireAt == 0
    ensures DeleteIfVersion(s, k, d, t0).1 && Valid(DeleteIfVersion(s, k, d, t0).0)
    ensures Get(Run(DeleteIfVersion(s, k, d, t0).0, [Event(NegativeOp(k, neg), t1), Event(AcceptOp(k, put), t2)]), k, t2).1
            == Some(put)
  {
    var s1 := DeleteIfVersion(s, k, d, t0).0;
    DeleteVersionEffect(s, k, d, t0);
    NegativeReplaces(s1, k, neg, t1);
    var s2 := Step(s1, NegativeOp(k, neg), t1);
    PutOverExpired(s2, k, put, t2);
    var evs := [Event(NegativeOp(k, neg), t1), Event(AcceptOp(k, put), t2)];
    assert evs[1..] == [Event(AcceptOp(k, put), t2)];
    assert Run(s1, evs) == Run(s2, [Event(AcceptOp(k, put), t2)]);
  }

  lemma {:induction false} NegativeReplaces(s: Store, k: Key, neg: Entry, now: int)
    requires Valid(s) && s.maxBytes <= 0 && k in s.items && s.items[k].entry.IsTombstone()
    requires s.items[k].entry.version < neg.version
    ensures var r := Step(s, NegativeOp(k, neg), now);
            Valid(r) && r.maxBytes <= 0 && k in r.items && r.items[k].entry == neg
  {
    NegativeEffect(s, k, neg, now);
  }

  lemma {:induction false} PutOverExpired(s: Store, k: Key, put: Entry, now: int)
    requires Valid(s) && s.maxBytes <= 0 && k in s.items && s.items[k].entry.Expired(now)
    requires put.flags == {} && put.expireAt == 0
    ensures Get(Run(s, [Event(AcceptOp(k, put), now)]), k, now).1 == Some(put)
  {
    AcceptEffect(s, k, put, now);
    var r := Step(s, AcceptOp(k, put), now);
    assert [Event(AcceptOp(k, put), now)][1..] == [];
    assert Run(r, []) == r;
  }

  // ---------------------------------------------------------------- the gate over whole runs

  /** What keeps values of a key out: the version and the end (0 is never) of its tombstone, or nothing. */
  datatype Gate = Shut(version: uint64, until: int) | Open
  {
    predicate Stands(now: int) { Shut? && (until == 0 || now < until) }

    /** The gate does not let e in. */
    predicate Bars(e: Entry, now: int) { Stands(now) && e.version <= version }
  }

  /** The acts at the key that the law is about: applies, negative fills, deletes of either kind, and reads. */
  predicate AtGate(op: Op)
  {
    op.AcceptOp? || op.NegativeOp? || op.DeleteVersionOp? || op.DeleteOp? || op.GetOp? || op.PeekOp? || op.PeekVersionOp?
  }

  /** The gate after an act; what gets past it and is no tombstone leaves none. */
  function Pass(g: Gate, op: Op, now: int, ttl: int): Gate
    requires AtGate(op)
  {
    match op
    case AcceptOp(_, e) => if g.Bars(e, now) then g else if e.IsTombstone() then Shut(e.version, e.expireAt) else Open
    case NegativeOp(_, e) => if g.Bars(e, now) then g else if e.IsTombstone() then Shut(e.version, e.expireAt) else Open
    case DeleteVersionOp(_, v) =>
      if g.Stands(now) && v < g.version then g else Shut(v, if ttl <= 0 then 0 else now + ttl)
    case DeleteOp(_) => Open
    case _ => g
  }

  /** The act gets a value past the gate that can be read: it is not barred, no tombstone, and not expired on arrival. */
  predicate Opens(g: Gate, op: Op, now: int)
  {
    (op.AcceptOp? || op.NegativeOp?) && !g.Bars(op.e, now) && !op.e.IsTombstone() && !op.e.Expired(now)
  }

  /** The store holds the gate's tombstone, or nothing live. */
  ghost predicate Keeps(s: Store, k: Key, g: Gate, now: int)
  {
    if g.Stands(now) then
      k in s.items && s.items[k].entry.IsTombstone() && s.items[k].entry.version == g.version && s.items[k].entry.expireAt == g.until
    else !Live(s, k, now)
  }

  lemma {:induction false} KeepsLater(s: Store, k: Key, g: Gate, now: int, later: int)
    requires Keeps(s, k, g, now) && now <= later
    ensures Keeps(s, k, g, later)
  {
  }

  ghost predicate EmptyFrom(s: Store, k: Key, from: int)
    requires Valid(s)
  {
    forall t :: from <= t ==> Get(s, k, t).1.None?
  }

  lemma {:induction false} KeptIsEmpty(s: Store, k: Key, g: Gate, now: int)
    requires Valid(s) && Keeps(s, k, g, now)
    ensures EmptyFrom(s, k, now)
  {
    forall t | now <= t
      ensures Get(s, k, t).1.None?
    {
      KeepsLater(s, k, g, now, t);
    }
  }

  lemma {:induction false} AcceptAtGate(s: Store, k: Key, g: Gate, e: Entry, now: int)
    requires Valid(s) && s.maxBytes <= 0 && Keeps(s, k, g, now)
    ensures var r := Step(s, AcceptOp(k, e), now);
            && Valid(r)
            && if Opens(g, AcceptOp(k, e), now) then Get(r, k, now).1.Some?
               else Keeps(r, k, Pass(g, AcceptOp(k, e), now, s.tombstoneTTL), now)
  {
    AcceptEffect(s, k, e, now);
  }

  lemma {:induction false} NegativeAtGate(s: Store, k: Key, g: Gate, e: Entry, now: int)
    requires Valid(s) && s.maxBytes <= 0 && Keeps(s, k, g, now)
    ensures var r := Step(s, NegativeOp(k, e), now);
            && Valid(r)
            && if Opens(g, NegativeOp(k, e), now) then Get(r, k, now).1.Some?
               else Keeps(r, k, Pass(g, NegativeOp(k, e), now, s.tombstoneTTL), now)
  {
    NegativeEffect(s, k, e, now);
  }

  lemma {:induction false} WriteAtGate(s: Store, k: Key, g: Gate, op: Op, now: int)
    requires Valid(s) && s.maxBytes <= 0 && Keeps(s, k, g, now) && op.k == k && (op.AcceptOp? || op.NegativeOp?)
    ensures Valid(Step(s, op, now))
    ensures if Opens(g, op, now) then Get(Step(s, op, now), k, now).1.Some?
            else Keeps(Step(s, op, now), k, Pass(g, op, now, s.tombstoneTTL), now)
  {
    match op
    case AcceptOp(_, e) => AcceptAtGate(s, k, g, e, now);
    case NegativeOp(_, e) => NegativeAtGate(s, k, g, e, now);
  }

  lemma {:induction false} OtherAtGate(s: Store, k: Key, g: Gate, op: Op, now: int)
    requires Valid(s) && Keeps(s, k, g, now) && op.k == k && AtGate(op) && !op.AcceptOp? && !op.NegativeOp?
    ensures Keeps(Step(s, op, now), k, Pass(g, op, now, s.tombstoneTTL), now)
  {
    if op.DeleteVersionOp? {
      DeleteVersionEffect(s, k, op.version, now);
      assert TombstoneOf(s, op.version, now).Protected(now);
    }
  }

  /** A read after every act finds nothing, at whatever time. */
  ghost predicate AlwaysEmpty(s: Store, k: Key, evs: seq<Event>, from: int)
    requires Valid(s)
    decreases |evs|
  {
    && EmptyFrom(s, k, from)
    && (evs == [] || (StepLocal(s, evs[0].op, evs[0].now); AlwaysEmpty(Step(s, evs[0].op, evs[0].now), k, evs[1..], evs[0].now)))
  }

  /** No act at the key opens the gate as it is by then. */
  ghost predicate NeverOpens(g: Gate, k: Key, evs: seq<Event>, ttl: int)
    requires forall i :: 0 <= i < |evs| && evs[i].op.k == k ==> AtGate(evs[i].op)
    decreases |evs|
  {
    evs == [] ||
    if evs[0].op.k != k then NeverOpens(g, k, evs[1..], ttl)
    else !Opens(g, evs[0].op, evs[0].now) && NeverOpens(Pass(g, evs[0].op, evs[0].now, ttl), k, evs[1..], ttl)
  }

  ghost predicate InOrder(evs: seq<Event>, from: int)
    decreases |evs|
  {
    evs == [] || (from <= evs[0].now && InOrder(evs[1..], evs[0].now))
  }

  /**
   * Over every run of applies, negative fills, deletes and reads of the key, with any work on other keys, on a store
   * without size limit: Get stays empty throughout, if and only if no act opens the gate, judged by the version and the end
   * of the tombstone that stands there by then.
   */
  lemma {:induction false} StaysEmptyIff(s: Store, k: Key, g: Gate, evs: seq<Event>, from: int)
    requires Valid(s) && s.maxBytes <= 0 && Keeps(s, k, g, from) && InOrder(evs, from)
    requires forall i :: 0 <= i < |evs| && evs[i].op.k == k ==> AtGate(evs[i].op)
    ensures AlwaysEmpty(s, k, evs, from) <==> NeverOpens(g, k, evs, s.tombstoneTTL)
    decreases |evs|
  {
    KeptIsEmpty(s, k, g, from);
    if evs != [] {
      var op, now := evs[0].op, evs[0].now;
      var next := Step(s, op, now);
      StepLocal(s, op, now);
      KeepsLater(s, k, g, from, now);
      if op.k != k {
        assert Undisturbed(s, next, k, now);
        StaysEmptyIff(next, k, g, evs[1..], now);
      } else if Opens(g, op, now) {
        WriteAtGate(s, k, g, op, now);
        assert !EmptyFrom(next, k, now);
      } else {
        if op.AcceptOp? || op.NegativeOp? {
          WriteAtGate(s, k, g, op, now);
        } else {
          OtherAtGate(s, k, g, op, now);
        }
        StaysEmptyIff(next, k, Pass(g, op, now, s.tombstoneTTL), evs[1..], now);
      }
    }
  }

  /** In particular after a delete. */
  lemma {:induction false} DeleteShutsGate(s: Store, k: Key, d: uint64, now: int)
    requires Valid(s) && DeleteIfVersion(s, k, d, now).1
    ensures Valid(DeleteIfVersion(s, k, d, now).0)
    ensures Keeps(DeleteIfVersion(s, k, d, now).0, k, Shut(d, if s.tombstoneTTL <= 0 then 0 else now + s.tombstoneTTL), now)
  {
    DeleteVersionEffect(s, k, d, now);
    assert TombstoneOf(s, d, now).Protected(now);
  }
}
