/**
 * Routing a Put through the cluster (pkg/engine/cluster.go): every node that handles it may have a different view of the
 * ring, and every call may be lost or its answer may be.
 */
module Routing {
  import opened Basics
  import opened Entries
  import opened Stores
  import opened LocalApply
  import Versions

  const MAX_FORWARD_HOPS: nat := 1

  /** What Ring.Owner says on a node: this node, or nobody, is the owner; or another is, with or without an address. */
  datatype View = Here | Elsewhere(reachable: bool)

  datatype Rpc = RequestLost | ReplyLost | Answered

  /**
   * One node's handling of PutLocalAtHop: whether the request passes validation, whether its context lives on, and whether
   * its own apply would commit and would report success.
   */
  datatype Hop = Hop(valid: bool, view: View, rpc: Rpc, alive: bool, commits: bool, acks: bool)

  /** The nodes a write meets, in order; every view and fate is open. */
  type Route = nat -> Hop

  /** The node the client talks to. */
  datatype Front = Front(view: View, known: bool, rpc: Rpc)

  datatype Applied = Applied(at: nat, forced: bool)

  datatype Result = Result(acked: bool, forwards: nat, done: seq<Applied>)

  /** putLocalApply on the i-th node. */
  function ApplyAt(r: Route, i: nat, forced: bool): Result
  {
    if !r(i).alive then Result(false, 0, []) else Result(r(i).acks, 0, [Applied(i, forced)])
  }

  /** The caller's share of a forwarded call: what it hears, and what happened all the same. */
  function Forwarded(rpc: Rpc, remote: Result): Result
  {
    match rpc
    case RequestLost => Result(false, 1, [])
    case ReplyLost => Result(false, remote.forwards + 1, remote.done)
    case Answered => remote.(forwards := remote.forwards + 1)
  }

  /** PutLocalAtHop on the i-th node. */
  function PutAtHop(r: Route, i: nat, hop: nat): Result
    decreases Max(0, MAX_FORWARD_HOPS - hop)
  {
    if !r(i).valid then Result(false, 0, [])
    else if r(i).view.Here? then ApplyAt(r, i, false)
    else if r(i).view.reachable && hop < MAX_FORWARD_HOPS then
      var f := Forwarded(r(i).rpc, PutAtHop(r, i + 1, hop + 1));
      if f.acked then f
      else
        var own := ApplyAt(r, i, true);
        Result(own.acked, f.forwards, f.done + own.done)
    else ApplyAt(r, i, true)
  }

  /** putViaCluster. */
  function Put(front: Front, r: Route): Result
  {
    if front.view.Here? then PutAtHop(r, 0, 0)
    else if !front.view.reachable || !front.known then Result(false, 0, [])
    else Forwarded(front.rpc, PutAtHop(r, 0, 0))
  }

  /** A successful apply on some node accounts for the acknowledgement. */
  ghost predicate Backed(r: Route, res: Result)
  {
    res.acked ==> exists k :: 0 <= k < |res.done| && r(res.done[k].at).acks
  }

  /** At most maxForwardHops further forwards, and at most one apply more than that, on different nodes of the route. */
  lemma {:induction false} HopBounded(r: Route, i: nat, hop: nat)
    ensures var res := PutAtHop(r, i, hop);
            && res.forwards <= Max(0, MAX_FORWARD_HOPS - hop)
            && |res.done| <= 1 + Max(0, MAX_FORWARD_HOPS - hop)
            && (forall k :: 0 <= k < |res.done| ==> res.done[k].at >= i)
            && (forall k, l :: 0 <= k < l < |res.done| ==> res.done[k].at > res.done[l].at)
    decreases Max(0, MAX_FORWARD_HOPS - hop)
  {
    if hop < MAX_FORWARD_HOPS {
      HopBounded(r, i + 1, hop + 1);
    }
  }

  /** Fan-out is forced exactly where the ring names another owner. */
  lemma {:induction false} HopForced(r: Route, i: nat, hop: nat)
    ensures var res := PutAtHop(r, i, hop);
            forall k :: 0 <= k < |res.done| ==> (res.done[k].forced <==> r(res.done[k].at).view.Elsewhere?)
    decreases Max(0, MAX_FORWARD_HOPS - hop)
  {
    if hop < MAX_FORWARD_HOPS {
      HopForced(r, i + 1, hop + 1);
    }
  }

  /** Who acknowledges has applied. */
  lemma {:induction false} HopBacked(r: Route, i: nat, hop: nat)
    ensures Backed(r, PutAtHop(r, i, hop))
    decreases Max(0, MAX_FORWARD_HOPS - hop)
  {
    var res := PutAtHop(r, i, hop);
    if r(i).valid && r(i).view.Elsewhere? && r(i).view.reachable && hop < MAX_FORWARD_HOPS {
      var f := Forwarded(r(i).rpc, PutAtHop(r, i + 1, hop + 1));
      HopBacked(r, i + 1, hop + 1);
      if res.acked && !f.acked {
        assert res.done[|f.done|] == Applied(i, true) && r(i).acks;
      }
    } else if res.acked {
      assert res.done[0].at == i && r(i).acks;
    }
  }

  /** Whatever the views and failures, a Put makes at most two forward calls and is applied by at most two nodes. */
  lemma {:induction false} PutBounded(front: Front, r: Route)
    ensures Put(front, r).forwards <= 2 && |Put(front, r).done| <= 2
  {
    HopBounded(r, 0, 0);
  }

  // ---------------------------------------------------------------- routes over real nodes

  /** Each node of the route does what putLocalApply does there. */
  ghost predicate Runs(r: Route, calls: nat -> Call)
  {
    forall i: nat :: Sound(calls(i)) && (r(i).acks <==> Acks(calls(i))) && (r(i).commits <==> Commits(calls(i)))
  }

  lemma {:induction false} RunsAt(r: Route, calls: nat -> Call, i: nat)
    requires Runs(r, calls)
    ensures Sound(calls(i)) && (r(i).acks ==> Secured(calls(i))) && (r(i).commits ==> r(i).acks)
  {
    if Acks(calls(i)) {
      AckIsSecured(calls(i));
    }
  }

  lemma {:induction false} AckedApply(front: Front, r: Route) returns (a: Applied)
    requires Put(front, r).acked
    ensures a in Put(front, r).done && r(a.at).acks
  {
    HopBacked(r, 0, 0);
    assert Put(front, r).done == PutAtHop(r, 0, 0).done;
    var k :| 0 <= k < |Put(front, r).done| && r(Put(front, r).done[k].at).acks;
    a := Put(front, r).done[k];
  }

  /** If a Put is acknowledged, a node that applied it committed it, and has it if it fits, or held something as new. */
  lemma {:induction false} AckedPutIsHeld(front: Front, r: Route, calls: nat -> Call) returns (a: Applied)
    requires Runs(r, calls) && Put(front, r).acked
    ensures a in Put(front, r).done && Sound(calls(a.at)) && Secured(calls(a.at))
  {
    a := AckedApply(front, r);
    RunsAt(r, calls, a.at);
  }

  /** The first node is reached by the client's call. */
  predicate Reached(front: Front)
  {
    front.view.Here? || (front.view.reachable && front.known && !front.rpc.RequestLost?)
  }

  predicate PassesOn(h: Hop) { h.valid && h.view.Elsewhere? && h.view.reachable }

  /** The second node tries to apply the write. */
  predicate SecondApplies(front: Front, r: Route)
  {
    Reached(front) && PassesOn(r(0)) && !r(0).rpc.RequestLost? && r(1).valid && r(1).alive
  }

  /** The first node does: it did not pass the write on, or did not hear that the second had success. */
  predicate FirstApplies(front: Front, r: Route)
  {
    && Reached(front) && r(0).valid && r(0).alive
    && !(PassesOn(r(0)) && r(0).rpc.Answered? && r(1).valid && r(1).alive && r(1).acks)
  }

  /** Exactly which nodes apply the write, in order: never more than the first two of the route. */
  lemma {:induction false} AppliersAre(front: Front, r: Route)
    ensures var second := if SecondApplies(front, r) then [Applied(1, r(1).view.Elsewhere?)] else [];
            var first := if FirstApplies(front, r) then [Applied(0, r(0).view.Elsewhere?)] else [];
            Put(front, r).done == second + first
    ensures |Put(front, r).done| == 1 <==> (FirstApplies(front, r) <==> !SecondApplies(front, r))
  {
    var next := PutAtHop(r, 1, 1);
    assert next == if !r(1).valid then Result(false, 0, []) else ApplyAt(r, 1, r(1).view.Elsewhere?);
  }

  /** A node that is on the list of appliers commits. */
  ghost predicate CommitsAt(r: Route, res: Result, i: nat)
  {
    r(i).commits && exists k :: 0 <= k < |res.done| && res.done[k].at == i
  }

  lemma {:induction false} CommitsAtIff(front: Front, r: Route, i: nat)
    ensures CommitsAt(r, Put(front, r), i) <==>
            r(i).commits && ((i == 0 && FirstApplies(front, r)) || (i == 1 && SecondApplies(front, r)))
  {
    var res := Put(front, r);
    AppliersAre(front, r);
    if i == 0 && FirstApplies(front, r) {
      assert res.done[|res.done| - 1].at == 0;
    }
    if i == 1 && SecondApplies(front, r) {
      assert res.done[0].at == 1;
    }
  }

  /** Two nodes of the route commit the write. */
  ghost predicate CommittedTwice(front: Front, r: Route)
  {
    exists i, j :: i < j && CommitsAt(r, Put(front, r), i) && CommitsAt(r, Put(front, r), j)
  }

  /**
   * Two nodes commit one write, each under a version of its own, if and only if the answer to a passed-on call is lost
   * after the second node committed and the first then commits as well.
   */
  lemma {:induction false} TwoCommitsIff(front: Front, r: Route, calls: nat -> Call)
    requires Runs(r, calls)
    ensures CommittedTwice(front, r) <==>
            && Reached(front) && PassesOn(r(0)) && r(0).alive && r(1).valid && r(1).alive
            && r(0).rpc.ReplyLost? && r(0).commits && r(1).commits
  {
    RunsAt(r, calls, 1);
    CommitsAtIff(front, r, 0);
    CommitsAtIff(front, r, 1);
    if i, j :| i < j && CommitsAt(r, Put(front, r), i) && CommitsAt(r, Put(front, r), j) {
      CommitsAtIff(front, r, i);
      CommitsAtIff(front, r, j);
    }
  }

  /** A fresh node commits a Put that meets nobody else. */
  lemma {:induction false} FreshCommits(k: Key, value: Bytes, ttl: int, now: int)
    ensures var a := FreshCall(k, value, ttl, now);
            Sound(a) && Commits(a) && Acks(a)
  {
    EmptyIsValid(ttl);
  }

  function FreshCall(k: Key, value: Bytes, ttl: int, now: int): Call
  {
    Call(k, value, 0, map[], Store(map[], [], 0, 0, ttl), now, [], now, [], now, [], now)
  }

  /** Two fresh nodes, of which the first passes the Put on and does not hear of the second's success: both commit it. */
  lemma {:induction false} LostReplyCommitsTwice(k: Key, value: Bytes, ttl: int, now: int)
    ensures var r: Route := i => Hop(true, if i == 0 then Elsewhere(true) else Here, ReplyLost, true, true, true);
            && Runs(r, _ => FreshCall(k, value, ttl, now))
            && CommittedTwice(Front(Here, true, Answered), r) && Put(Front(Here, true, Answered), r).acked
  {
    var r: Route := i => Hop(true, if i == 0 then Elsewhere(true) else Here, ReplyLost, true, true, true);
    var calls: nat -> Call := _ => FreshCall(k, value, ttl, now);
    FreshCommits(k, value, ttl, now);
    TwoCommitsIff(Front(Here, true, Answered), r, calls);
    AppliersAre(Front(Here, true, Answered), r);
  }

  /**
   * With one settled owner, an answering network and nobody else at the key, a Put succeeds if and only if the entry alone
   * is not too large; then exactly the owner applied it, and has it if it fits beside what may not be evicted.
   */
  lemma {:induction false} SettledPut(front: Front, r: Route, calls: nat -> Call)
    requires Runs(r, calls) && r(0).valid && r(0).alive && r(0).view.Here?
    requires front.view.Here? || front == Front(Elsewhere(true), true, Answered)
    requires Sound(calls(0)) && Alone(calls(0))
    requires Versions.MintSeed(calls(0).lastVer, calls(0).start, calls(0).key, 0, calls(0).t0) < MAX_UINT64
    ensures Put(front, r).acked <==> !TooLarge(calls(0))
    ensures Put(front, r).done == [Applied(0, false)] && Put(front, r).forwards == if front.view.Here? then 0 else 1
    ensures Put(front, r).acked && FitsBeside(AtAccept(calls(0)), calls(0).key, Minted(calls(0)), calls(0).t1) ==>
              calls(0).key in AfterAccept(calls(0)).items &&
              AfterAccept(calls(0)).items[calls(0).key].entry == Minted(calls(0))
  {
    FailsIffTooLarge(calls(0));
    if Commits(calls(0)) {
      CommitIsStored(calls(0));
    }
  }
}
