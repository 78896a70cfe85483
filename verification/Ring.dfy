/**
 * internal/ring/ring.go: the consistent-hash ring. Replica lists are characterised
 * without the ring: they rank the peers by clockwise distance from the key.
 */
module Ring {
  import opened Basics
  import opened Ordering
  import opened Decimal

  datatype Id = Id(name: string)
  type Hash = string -> uint64

  datatype Peer = Peer(id: Id, addr: string)

  /** The ring's fields; `keys` is sorted. */
  datatype State = State(vnodes: nat, keys: seq<uint64>, hashToID: map<uint64, Id>, peers: map<Id, Peer>)

  function VnodeHash(hash: Hash, id: Id, i: nat): uint64 { hash(id.name + "#" + Itoa(i)) }

  // ---------------------------------------------------------------- building the ring

  function AddKeys(hash: Hash, keys: seq<uint64>, id: Id, n: nat): seq<uint64>
  {
    if n == 0 then keys else AddKeys(hash, keys, id, n - 1) + [VnodeHash(hash, id, n - 1)]
  }

  function AddOwners(hash: Hash, owners: map<uint64, Id>, id: Id, n: nat): map<uint64, Id>
  {
    if n == 0 then owners else AddOwners(hash, owners, id, n - 1)[VnodeHash(hash, id, n - 1) := id]
  }

  /** The fields after the first peers of a list: later entries overwrite earlier ones. */
  function Fill(hash: Hash, vnodes: nat, ps: seq<Peer>): State
  {
    if ps == [] then State(vnodes, [], map[], map[])
    else
      var s := Fill(hash, vnodes, ps[..|ps| - 1]);
      var p := ps[|ps| - 1];
      if p.id.name == "" then s
      else
        State(vnodes, AddKeys(hash, s.keys, p.id, vnodes), AddOwners(hash, s.hashToID, p.id, vnodes), s.peers[p.id := p])
  }

  predicate Below(a: uint64, b: uint64) { a < b }

  /** SetPeers. */
  function Build(hash: Hash, vnodes: nat, ps: seq<Peer>): State
  {
    var s := Fill(hash, vnodes, ps);
    s.(keys := SortBy(Below, s.keys))
  }

  /** Some vnode of id hashes to x. */
  ghost predicate HasVnode(hash: Hash, vnodes: nat, id: Id, x: uint64)
  {
    exists i :: 0 <= i < vnodes && VnodeHash(hash, id, i) == x
  }

  /** What the fields of a ring have in common with its membership. */
  ghost predicate Valid(hash: Hash, s: State)
  {
    && SortedBy(Below, s.keys)
    && (forall x :: x in s.keys <==> x in s.hashToID)
    && (forall x :: x in s.hashToID ==> s.hashToID[x] in s.peers && HasVnode(hash, s.vnodes, s.hashToID[x], x))
    && (forall id, x :: id in s.peers && HasVnode(hash, s.vnodes, id, x) ==> x in s.hashToID)
    && (forall id :: id in s.peers ==> id.name != "" && s.peers[id].id == id)
  }

  /** No vnode hash is shared between two peers. */
  ghost predicate Distinct(hash: Hash, vnodes: nat, ids: set<Id>)
  {
    forall a, b, x :: a in ids && b in ids && HasVnode(hash, vnodes, a, x) && HasVnode(hash, vnodes, b, x) ==> a == b
  }

  // ---------------------------------------------------------------- walking the ring

  /** sort.Search: the first index whose key is at least h. */
  function Search(keys: seq<uint64>, h: uint64): (i: nat)
    ensures i <= |keys|
    ensures forall j :: 0 <= j < i ==> keys[j] < h
    ensures i < |keys| ==> keys[i] >= h
  {
    if keys == [] || keys[0] >= h then 0 else 1 + Search(keys[1..], h)
  }

  /** The keys in the order a walk from h visits them. */
  function Clockwise(keys: seq<uint64>, h: uint64): (c: seq<uint64>)
    ensures |c| == |keys|
  {
    keys[Search(keys, h)..] + keys[..Search(keys, h)]
  }

  function Owners(c: seq<uint64>, owner: map<uint64, Id>): (ids: seq<Id>)
    requires forall i :: 0 <= i < |c| ==> c[i] in owner
    ensures |ids| == |c| && forall i :: 0 <= i < |c| ==> ids[i] == owner[c[i]]
  {
    seq(|c|, i requires 0 <= i < |c| => owner[c[i]])
  }

  /** Each element once, in order of first occurrence. */
  function Firsts(ids: seq<Id>): (r: seq<Id>)
  {
    if ids == [] then []
    else
      var front := Firsts(ids[..|ids| - 1]);
      if ids[|ids| - 1] in front then front else front + [ids[|ids| - 1]]
  }

  function Take<T>(xs: seq<T>, n: int): seq<T>
  {
    if n <= 0 then [] else if n >= |xs| then xs else xs[..n]
  }

  // ---------------------------------------------------------------- the reference: ranking by distance

  /** How far clockwise x lies from h, around 2^64. */
  function Distance(h: uint64, x: uint64): nat
  {
    if x >= h then x - h else x - h + 0x1_0000_0000_0000_0000
  }

  /** The distance to a peer is the distance to its nearest vnode. */
  function PeerDistance(hash: Hash, id: Id, n: nat, h: uint64): nat
    requires 1 <= n
  {
    var last := Distance(h, VnodeHash(hash, id, n - 1));
    if n == 1 then last else Min(last, PeerDistance(hash, id, n - 1, h))
  }

  ghost function Distances(hash: Hash, vnodes: nat, ids: set<Id>, h: uint64): (d: map<Id, nat>)
    requires 1 <= vnodes
  {
    map id | id in ids :: PeerDistance(hash, id, vnodes, h)
  }

  /** r lists every peer once, nearest first. */
  ghost predicate Ranks(r: seq<Id>, d: map<Id, nat>)
  {
    && (forall i :: 0 <= i < |r| ==> r[i] in d)
    && (forall id :: id in d ==> id in r)
    && (forall i, j :: 0 <= i < j < |r| ==> d[r[i]] < d[r[j]])
  }

  lemma {:induction false} RanksHead(a: seq<Id>, b: seq<Id>, d: map<Id, nat>)
    requires Ranks(a, d) && Ranks(b, d) && a != []
    ensures b != [] && a[0] == b[0]
  {
    assert a[0] in d && a[0] in b;
    var i :| 0 <= i < |b| && b[i] == a[0];
    assert b[0] in d && b[0] in a;
    var j :| 0 <= j < |a| && a[j] == b[0];
  }

  /** A membership has only one ranking. */
  lemma {:induction false} RanksUnique(a: seq<Id>, b: seq<Id>, d: map<Id, nat>)
    requires Ranks(a, d) && Ranks(b, d)
    ensures a == b
    decreases |a|
  {
    if a == [] {
      if b != [] {
        RanksHead(b, a, d);
        assert false;
      }
    } else {
      RanksHead(a, b, d);
      RanksTail(a, d);
      RanksTail(b, d);
      RanksUnique(a[1..], b[1..], d - {a[0]});
      SameParts(a, b);
    }
  }

  lemma {:induction false} RanksTail(a: seq<Id>, d: map<Id, nat>)
    requires Ranks(a, d) && a != []
    ensures Ranks(a[1..], d - {a[0]})
  {
    forall id | id in d - {a[0]} ensures id in a[1..] {
      assert id in a;
      var i :| 0 <= i < |a| && a[i] == id;
      assert a[1..][i - 1] == id;
    }
    forall i | 0 <= i < |a[1..]| ensures a[1..][i] in d - {a[0]} {
      assert d[a[0]] < d[a[i + 1]];
    }
  }

  // ---------------------------------------------------------------- the walk ranks the peers

  lemma {:induction false} ClockwiseNearestFirst(keys: seq<uint64>, h: uint64)
    requires SortedBy(Below, keys)
    ensures var c := Clockwise(keys, h);
            forall i, j :: 0 <= i < j < |c| ==> Distance(h, c[i]) <= Distance(h, c[j])
  {
    var k := Search(keys, h);
    assert forall j :: k <= j < |keys| ==> keys[j] >= h;
  }

  lemma {:induction false} ClockwiseSame(keys: seq<uint64>, h: uint64, x: uint64)
    ensures x in Clockwise(keys, h) <==> x in keys
  {
    var k := Search(keys, h);
    assert keys == keys[..k] + keys[k..];
  }

  /** Where x first occurs. */
  function FirstIndex(ids: seq<Id>, x: Id): (p: nat)
    requires x in ids
    ensures p < |ids| && ids[p] == x
    ensures forall j :: 0 <= j < p ==> ids[j] != x
  {
    if ids[0] == x then 0
    else
      assert ids == [ids[0]] + ids[1..];
      1 + FirstIndex(ids[1..], x)
  }

  lemma {:induction false} FirstIndexPrefix(ids: seq<Id>, n: nat, x: Id)
    requires n <= |ids| && x in ids[..n]
    ensures x in ids && FirstIndex(ids, x) == FirstIndex(ids[..n], x)
  {
    var p := FirstIndex(ids[..n], x);
    assert ids[p] == x;
    var q := FirstIndex(ids, x);
    assert forall j :: 0 <= j < p ==> ids[..n][j] == ids[j];
  }

  lemma {:induction false} FirstsMembers(ids: seq<Id>, x: Id)
    ensures x in Firsts(ids) <==> x in ids
    decreases |ids|
  {
    if ids != [] {
      FirstsMembers(ids[..|ids| - 1], x);
      assert ids == ids[..|ids| - 1] + [ids[|ids| - 1]];
    }
  }

  /** Firsts arranges its elements by where they first occur. */
  lemma {:induction false} FirstsOrdered(ids: seq<Id>, i: nat, j: nat)
    requires i < j < |Firsts(ids)|
    ensures Firsts(ids)[i] in ids && Firsts(ids)[j] in ids
    ensures FirstIndex(ids, Firsts(ids)[i]) < FirstIndex(ids, Firsts(ids)[j])
    decreases |ids|
  {
    var n := |ids| - 1;
    var front := Firsts(ids[..n]);
    var r := Firsts(ids);
    FirstsMembers(ids, r[i]);
    FirstsMembers(ids, r[j]);
    FirstsMembers(ids[..n], r[i]);
    FirstIndexPrefix(ids, n, r[i]);
    if j < |front| {
      FirstsOrdered(ids[..n], i, j);
      FirstIndexPrefix(ids, n, r[j]);
    } else {
      FirstsMembers(ids[..n], r[j]);
      var q := FirstIndex(ids, r[j]);
      if q < n { assert ids[..n][q] == r[j]; }
    }
  }

  lemma {:induction false} PeerDistanceIsLeast(hash: Hash, id: Id, n: nat, h: uint64, i: nat)
    requires i < n
    ensures PeerDistance(hash, id, n, h) <= Distance(h, VnodeHash(hash, id, i))
    decreases n
  {
    if i < n - 1 { PeerDistanceIsLeast(hash, id, n - 1, h, i); }
  }

  lemma {:induction false} PeerDistanceAttained(hash: Hash, id: Id, n: nat, h: uint64) returns (i: nat)
    requires 1 <= n
    ensures i < n && PeerDistance(hash, id, n, h) == Distance(h, VnodeHash(hash, id, i))
    decreases n
  {
    i := n - 1;
    if n > 1 && PeerDistance(hash, id, n - 1, h) < Distance(h, VnodeHash(hash, id, n - 1)) {
      i := PeerDistanceAttained(hash, id, n - 1, h);
    }
  }

  /** A ring whose membership shares no vnode hash. */
  ghost predicate Sound(hash: Hash, s: State)
  {
    Valid(hash, s) && 1 <= s.vnodes && Distinct(hash, s.vnodes, s.peers.Keys)
  }

  lemma {:induction false} VnodeOwned(hash: Hash, s: State, id: Id, i: nat)
    requires Sound(hash, s) && id in s.peers && i < s.vnodes
    ensures VnodeHash(hash, id, i) in s.keys && s.hashToID[VnodeHash(hash, id, i)] == id
  {
    var x := VnodeHash(hash, id, i);
    assert HasVnode(hash, s.vnodes, id, x);
    assert HasVnode(hash, s.vnodes, s.hashToID[x], x);
  }

  /** The sequence of owners met on the walk, before duplicates are skipped. */
  ghost function Met(s: State, h: uint64): (ids: seq<Id>)
    requires forall x :: x in s.keys ==> x in s.hashToID
    ensures |ids| == |s.keys|
  {
    var c := Clockwise(s.keys, h);
    assert forall i :: 0 <= i < |c| ==> c[i] in s.hashToID by {
      forall i | 0 <= i < |c| ensures c[i] in s.hashToID { ClockwiseSame(s.keys, h, c[i]); }
    }
    Owners(c, s.hashToID)
  }

  lemma {:induction false} MetOwns(hash: Hash, s: State, h: uint64, p: nat)
    requires Valid(hash, s) && p < |s.keys|
    ensures var x := Clockwise(s.keys, h)[p];
            x in s.hashToID && Met(s, h)[p] == s.hashToID[x] && Met(s, h)[p] in s.peers &&
            HasVnode(hash, s.vnodes, Met(s, h)[p], x)
  {
    ClockwiseSame(s.keys, h, Clockwise(s.keys, h)[p]);
  }

  /** Where id has a vnode, the walk meets id. */
  lemma {:induction false} VnodeMet(hash: Hash, s: State, h: uint64, id: Id, i: nat) returns (q: nat)
    requires Sound(hash, s) && id in s.peers && i < s.vnodes
    ensures q < |s.keys| && Clockwise(s.keys, h)[q] == VnodeHash(hash, id, i) && Met(s, h)[q] == id
  {
    var x := VnodeHash(hash, id, i);
    VnodeOwned(hash, s, id, i);
    ClockwiseSame(s.keys, h, x);
    var c := Clockwise(s.keys, h);
    q :| 0 <= q < |c| && c[q] == x;
    MetOwns(hash, s, h, q);
  }

  lemma {:induction false} MetIsVnode(hash: Hash, s: State, h: uint64, p: nat)
    requires Valid(hash, s) && 1 <= s.vnodes && p < |s.keys|
    ensures Met(s, h)[p] in s.peers
    ensures PeerDistance(hash, Met(s, h)[p], s.vnodes, h) <= Distance(h, Clockwise(s.keys, h)[p])
  {
    MetOwns(hash, s, h, p);
    var id, x := Met(s, h)[p], Clockwise(s.keys, h)[p];
    var i :| 0 <= i < s.vnodes && VnodeHash(hash, id, i) == x;
    PeerDistanceIsLeast(hash, id, s.vnodes, h, i);
  }

  lemma {:induction false} NearestIsMet(hash: Hash, s: State, h: uint64, id: Id) returns (q: nat)
    requires Sound(hash, s) && id in s.peers
    ensures q < |s.keys| && Met(s, h)[q] == id
    ensures PeerDistance(hash, id, s.vnodes, h) == Distance(h, Clockwise(s.keys, h)[q])
  {
    var j := PeerDistanceAttained(hash, id, s.vnodes, h);
    q := VnodeMet(hash, s, h, id, j);
  }

  /** The first vnode of a peer that the walk meets is its nearest. */
  lemma {:induction false} FirstMetIsNearest(hash: Hash, s: State, h: uint64, id: Id)
    requires Sound(hash, s) && id in Met(s, h)
    ensures id in s.peers
    ensures PeerDistance(hash, id, s.vnodes, h) == Distance(h, Clockwise(s.keys, h)[FirstIndex(Met(s, h), id)])
  {
    var p := FirstIndex(Met(s, h), id);
    MetIsVnode(hash, s, h, p);
    var q := NearestIsMet(hash, s, h, id);
    assert p <= q;
    ClockwiseNearestFirst(s.keys, h);
  }

  lemma {:induction false} FirstMetApart(hash: Hash, s: State, h: uint64, a: Id, b: Id)
    requires Sound(hash, s) && a in Met(s, h) && b in Met(s, h)
    requires FirstIndex(Met(s, h), a) < FirstIndex(Met(s, h), b)
    ensures PeerDistance(hash, a, s.vnodes, h) < PeerDistance(hash, b, s.vnodes, h)
  {
    var c := Clockwise(s.keys, h);
    var p, q := FirstIndex(Met(s, h), a), FirstIndex(Met(s, h), b);
    FirstMetIsNearest(hash, s, h, a);
    FirstMetIsNearest(hash, s, h, b);
    ClockwiseNearestFirst(s.keys, h);
    MetOwns(hash, s, h, p);
    MetOwns(hash, s, h, q);
    assert c[p] != c[q];
  }

  /** The walk meets every peer, nearest first: the ring computes the ranking. */
  lemma {:induction false} WalkRanks(hash: Hash, s: State, h: uint64)
    requires Sound(hash, s)
    ensures Ranks(Firsts(Met(s, h)), Distances(hash, s.vnodes, s.peers.Keys, h))
  {
    var ids := Met(s, h);
    var r := Firsts(ids);
    var d := Distances(hash, s.vnodes, s.peers.Keys, h);
    forall i | 0 <= i < |r| ensures r[i] in d {
      FirstsMembers(ids, r[i]);
      FirstMetIsNearest(hash, s, h, r[i]);
    }
    forall id | id in d ensures id in r {
      var q := VnodeMet(hash, s, h, id, 0);
      FirstsMembers(ids, id);
    }
    forall i, j | 0 <= i < j < |r| ensures d[r[i]] < d[r[j]] {
      FirstsOrdered(ids, i, j);
      FirstMetApart(hash, s, h, r[i], r[j]);
    }
  }

  // ---------------------------------------------------------------- SetPeers builds a valid ring

  lemma {:induction false} AddKeysMembers(hash: Hash, keys: seq<uint64>, id: Id, n: nat, x: uint64)
    ensures x in AddKeys(hash, keys, id, n) <==> x in keys || HasVnode(hash, n, id, x)
    decreases n
  {
    if n > 0 {
      AddKeysMembers(hash, keys, id, n - 1, x);
      HasVnodeStep(hash, n, id, x);
    }
  }

  lemma {:induction false} HasVnodeStep(hash: Hash, n: nat, id: Id, x: uint64)
    requires 1 <= n
    ensures HasVnode(hash, n, id, x) <==> HasVnode(hash, n - 1, id, x) || VnodeHash(hash, id, n - 1) == x
  {
    if HasVnode(hash, n - 1, id, x) {
      var i :| 0 <= i < n - 1 && VnodeHash(hash, id, i) == x;
      assert VnodeHash(hash, id, i) == x;
    }
    if VnodeHash(hash, id, n - 1) == x {
      assert HasVnode(hash, n, id, x);
    }
  }

  lemma {:induction false} AddOwnersLookup(hash: Hash, owners: map<uint64, Id>, id: Id, n: nat, x: uint64)
    ensures x in AddOwners(hash, owners, id, n) <==> x in owners || HasVnode(hash, n, id, x)
    ensures x in AddOwners(hash, owners, id, n) ==>
              AddOwners(hash, owners, id, n)[x] == if HasVnode(hash, n, id, x) then id else owners[x]
    decreases n
  {
    if n > 0 {
      AddOwnersLookup(hash, owners, id, n - 1, x);
      HasVnodeStep(hash, n, id, x);
    }
  }

  /** Valid, but for the sort. */
  ghost predicate Filled(hash: Hash, s: State)
  {
    && (forall x :: x in s.keys <==> x in s.hashToID)
    && (forall x :: x in s.hashToID ==> s.hashToID[x] in s.peers && HasVnode(hash, s.vnodes, s.hashToID[x], x))
    && (forall id, x :: id in s.peers && HasVnode(hash, s.vnodes, id, x) ==> x in s.hashToID)
    && (forall id :: id in s.peers ==> id.name != "" && s.peers[id].id == id)
  }

  lemma {:induction false} FillFilled(hash: Hash, vnodes: nat, ps: seq<Peer>)
    ensures Filled(hash, Fill(hash, vnodes, ps)) && Fill(hash, vnodes, ps).vnodes == vnodes
    decreases |ps|
  {
    if ps != [] {
      var p := ps[|ps| - 1];
      var s := Fill(hash, vnodes, ps[..|ps| - 1]);
      FillFilled(hash, vnodes, ps[..|ps| - 1]);
      if p.id.name != "" {
        var r := Fill(hash, vnodes, ps);
        forall x ensures x in r.keys <==> x in s.keys || HasVnode(hash, vnodes, p.id, x)
                 ensures x in r.hashToID <==> x in s.hashToID || HasVnode(hash, vnodes, p.id, x)
                 ensures x in r.hashToID ==>
                           r.hashToID[x] == if HasVnode(hash, vnodes, p.id, x) then p.id else s.hashToID[x]
        {
          AddKeysMembers(hash, s.keys, p.id, vnodes, x);
          AddOwnersLookup(hash, s.hashToID, p.id, vnodes, x);
        }
      }
    }
  }

  /** Whatever peers it is given, in whatever order and with repeats, SetPeers leaves a valid ring. */
  lemma {:induction false} BuildValid(hash: Hash, vnodes: nat, ps: seq<Peer>)
    ensures Valid(hash, Build(hash, vnodes, ps)) && Build(hash, vnodes, ps).vnodes == vnodes
  {
    FillFilled(hash, vnodes, ps);
    var s := Fill(hash, vnodes, ps);
    SortBySorted(Below, s.keys);
    forall x ensures x in SortBy(Below, s.keys) <==> x in s.keys {
      assert x in multiset(SortBy(Below, s.keys)) <==> x in multiset(s.keys);
    }
  }

  // ---------------------------------------------------------------- Owner, Replicas, IsReplica

  /** The ids of replicasLocked(key, n), where h is the key's hash. */
  ghost function ReplicaIds(s: State, h: uint64, n: int): seq<Id>
    requires forall x :: x in s.keys ==> x in s.hashToID
  {
    Take(Firsts(Met(s, h)), Min(n, |s.peers|))
  }

  /** Owner's id. */
  ghost function OwnerId(s: State, h: uint64): Option<Id>
    requires forall x :: x in s.keys ==> x in s.hashToID
  {
    if s.keys == [] then None else Some(Met(s, h)[0])
  }

  lemma {:induction false} RanksLength(r: seq<Id>, d: map<Id, nat>)
    requires Ranks(r, d)
    ensures |r| == |d| && NoDup(r)
    decreases |r|
  {
    if r == [] {
      assert d.Keys == {};
    } else {
      RanksTail(r, d);
      RanksLength(r[1..], d - {r[0]});
      assert (d - {r[0]}).Keys == d.Keys - {r[0]};
    }
  }

  /** Cutting a ranking keeps the nearest. */
  lemma {:induction false} TakeNearest(r: seq<Id>, d: map<Id, nat>, n: int, a: Id, b: Id)
    requires Ranks(r, d) && a in Take(r, n) && b in d && b !in Take(r, n)
    ensures a in d && d[a] < d[b]
  {
    var i :| 0 <= i < |Take(r, n)| && Take(r, n)[i] == a;
    assert b in r;
    var j :| 0 <= j < |r| && r[j] == b;
    assert forall x :: 0 <= x < |Take(r, n)| ==> Take(r, n)[x] == r[x];
  }

  lemma {:induction false} TakePrefix(r: seq<Id>, m: int, n: int)
    requires m <= n
    ensures Take(r, m) <= Take(r, n) && |Take(r, m)| == Max(0, Min(m, |r|))
  {
  }

  /**
   * Replica lists are the nearest peers in order: no duplicates, min(n, peers)
   * long, owner first, each a prefix of the next longer one.
   */
  lemma {:induction false} ReplicasAreNearest(hash: Hash, s: State, h: uint64, n: int)
    requires Sound(hash, s)
    ensures NoDup(ReplicaIds(s, h, n))
    ensures |ReplicaIds(s, h, n)| == Max(0, Min(n, |s.peers|))
    ensures ReplicaIds(s, h, n) <= ReplicaIds(s, h, n + 1)
    ensures n >= 1 && s.peers != map[] ==> OwnerId(s, h) == Some(ReplicaIds(s, h, n)[0])
  {
    var r := Firsts(Met(s, h));
    RingRanking(hash, s, h);
    TakePrefix(r, Min(n, |s.peers|), Min(n + 1, |s.peers|));
    if n >= 1 && s.peers != map[] {
      FirstsHead(Met(s, h));
    }
  }

  /** And every peer left out is farther away than every peer taken. */
  lemma {:induction false} ReplicasBeatOthers(hash: Hash, s: State, h: uint64, n: int, a: Id, b: Id)
    requires Sound(hash, s) && a in ReplicaIds(s, h, n) && b in s.peers && b !in ReplicaIds(s, h, n)
    ensures PeerDistance(hash, a, s.vnodes, h) < PeerDistance(hash, b, s.vnodes, h)
  {
    RingRanking(hash, s, h);
    TakeNearest(Firsts(Met(s, h)), Distances(hash, s.vnodes, s.peers.Keys, h), Min(n, |s.peers|), a, b);
  }

  lemma {:induction false} RingRanking(hash: Hash, s: State, h: uint64)
    requires Sound(hash, s)
    ensures var r := Firsts(Met(s, h));
            NoDup(r) && |r| == |s.peers| && Ranks(r, Distances(hash, s.vnodes, s.peers.Keys, h))
  {
    var d := Distances(hash, s.vnodes, s.peers.Keys, h);
    WalkRanks(hash, s, h);
    RanksLength(Firsts(Met(s, h)), d);
    assert d.Keys == s.peers.Keys;
  }

  lemma {:induction false} FirstsHead(ids: seq<Id>)
    requires Firsts(ids) != []
    ensures ids != [] && Firsts(ids)[0] == ids[0]
    decreases |ids|
  {
    if |ids| > 1 {
      FirstsMembers(ids[..|ids| - 1], ids[0]);
      FirstsHead(ids[..|ids| - 1]);
    }
  }

  /** The membership test agrees with the list, its shortcut for n >= peers included. */
  ghost predicate IsReplicaId(s: State, h: uint64, id: Id, n: int)
    requires forall x :: x in s.keys ==> x in s.hashToID
  {
    if id.name == "" || n <= 0 || s.keys == [] then false
    else if n >= |s.peers| then id in s.peers
    else id in ReplicaIds(s, h, n)
  }

  lemma {:induction false} IsReplicaAgrees(hash: Hash, s: State, h: uint64, id: Id, n: int)
    requires Sound(hash, s)
    ensures IsReplicaId(s, h, id, n) <==> id in ReplicaIds(s, h, n)
  {
    RingRanking(hash, s, h);
    if id in ReplicaIds(s, h, n) {
      assert id in Firsts(Met(s, h));
    }
  }

  /** Replica lists depend on the membership alone, not on the order in which it was given. */
  lemma {:induction false} OrderIrrelevant(hash: Hash, vnodes: nat, ps: seq<Peer>, qs: seq<Peer>, h: uint64, n: int)
    requires 1 <= vnodes && Build(hash, vnodes, ps).peers == Build(hash, vnodes, qs).peers
    requires Distinct(hash, vnodes, Build(hash, vnodes, ps).peers.Keys)
    ensures Valid(hash, Build(hash, vnodes, ps)) && Valid(hash, Build(hash, vnodes, qs))
    ensures ReplicaIds(Build(hash, vnodes, ps), h, n) == ReplicaIds(Build(hash, vnodes, qs), h, n)
  {
    BuildValid(hash, vnodes, ps);
    BuildValid(hash, vnodes, qs);
    var s, t := Build(hash, vnodes, ps), Build(hash, vnodes, qs);
    WalkRanks(hash, s, h);
    WalkRanks(hash, t, h);
    RanksUnique(Firsts(Met(s, h)), Firsts(Met(t, h)), Distances(hash, vnodes, s.peers.Keys, h));
  }

  // ---------------------------------------------------------------- minimal movement on join

  lemma {:induction false} RanksCons(x: Id, t: seq<Id>, d: map<Id, nat>)
    requires x in d && Ranks(t, d - {x})
    requires forall i :: 0 <= i < |t| ==> t[i] in d && d[x] < d[t[i]]
    ensures Ranks([x] + t, d)
  {
    forall id | id in d ensures id in [x] + t {
      if id != x { assert id in d - {x}; }
    }
  }

  lemma {:induction false} RanksFarther(r: seq<Id>, d: map<Id, nat>, x: Id)
    requires Ranks(r, d) && r != [] && x in d && x != r[0]
    ensures d[r[0]] < d[x]
  {
    assert x in r;
    var i :| 0 <= i < |r| && r[i] == x;
  }

  /** Dropping one peer from a ranking leaves the ranking of the others. */
  lemma {:induction false} RanksWithout(r: seq<Id>, d: map<Id, nat>, j: Id)
    requires Ranks(r, d)
    ensures Ranks(Without(r, j), d - {j})
    decreases |r|
  {
    if r != [] {
      RanksTail(r, d);
      if r[0] != j {
        RanksWithout(r[1..], d - {r[0]}, j);
        RanksPrepend(r, d, j, Without(r[1..], j));
      }
    }
  }

  lemma {:induction false} RanksPrepend(r: seq<Id>, d: map<Id, nat>, j: Id, t: seq<Id>)
    requires Ranks(r, d) && r != [] && r[0] != j && Ranks(t, d - {r[0]} - {j})
    ensures Ranks([r[0]] + t, d - {j})
  {
    assert d - {r[0]} - {j} == d - {j} - {r[0]};
    forall i | 0 <= i < |t| ensures t[i] in d - {j} && d[r[0]] < d[t[i]] {
      assert t[i] in d - {r[0]} - {j};
      RanksFarther(r, d, t[i]);
    }
    RanksCons(r[0], t, d - {j});
  }

  /** Cutting after n and dropping j is cutting the list without j after n or n - 1. */
  lemma {:induction false} TakeWithout(r: seq<Id>, j: Id, n: nat)
    requires n <= |r|
    ensures Without(r[..n], j) <= Without(r, j)
    ensures |Without(r[..n], j)| == if j in r[..n] then n - 1 else n
    decreases n
  {
    if n > 0 && r[0] != j {
      assert r[..n][1..] == r[1..][..n - 1];
      TakeWithout(r[1..], j, n - 1);
      assert r[..n] == [r[0]] + r[1..][..n - 1];
    } else if n > 0 {
      assert r[..n][1..] == r[1..][..n - 1];
    }
  }

  lemma {:induction false} DistancesJoin(hash: Hash, vnodes: nat, ids: set<Id>, joiner: Id, h: uint64)
    requires 1 <= vnodes && joiner !in ids
    ensures Distances(hash, vnodes, ids + {joiner}, h) - {joiner} == Distances(hash, vnodes, ids, h)
  {
  }

  lemma {:induction false} JoinRanking(r: seq<Id>, d: map<Id, nat>, r': seq<Id>, d': map<Id, nat>, j: Id)
    requires Ranks(r, d) && Ranks(r', d') && d' - {j} == d
    ensures Without(r', j) == r
  {
    RanksWithout(r', d', j);
    RanksUnique(Without(r', j), r, d);
  }

  /** The joiner slots into the ranking; nobody else changes places. */
  lemma {:induction false} JoinKeepsRanking(hash: Hash, before: State, after: State, joiner: Id, h: uint64)
    requires Sound(hash, before) && Sound(hash, after) && before.vnodes == after.vnodes
    requires joiner !in before.peers && after.peers.Keys == before.peers.Keys + {joiner}
    ensures Without(Firsts(Met(after, h)), joiner) == Firsts(Met(before, h))
  {
    RingRanking(hash, before, h);
    RingRanking(hash, after, h);
    DistancesJoin(hash, before.vnodes, before.peers.Keys, joiner, h);
    JoinRanking(Firsts(Met(before, h)), Distances(hash, before.vnodes, before.peers.Keys, h),
                Firsts(Met(after, h)), Distances(hash, after.vnodes, after.peers.Keys, h), joiner);
  }

  /**
   * A joining peer moves only what it must: for every key and n, the new replica
   * list without the joiner is a prefix of the old one; so the owner stays or is
   * the joiner.
   */
  lemma {:induction false} JoinMovesMinimally(hash: Hash, before: State, after: State, joiner: Id, h: uint64, n: nat)
    requires Sound(hash, before) && Sound(hash, after) && before.vnodes == after.vnodes
    requires joiner !in before.peers && after.peers.Keys == before.peers.Keys + {joiner}
    ensures Without(ReplicaIds(after, h, n), joiner) <= ReplicaIds(before, h, n)
    ensures before.peers != map[] ==> OwnerId(after, h) == OwnerId(before, h) || OwnerId(after, h) == Some(joiner)
  {
    JoinKeepsReplicas(hash, before, after, joiner, h, n);
    if before.peers != map[] {
      JoinKeepsRanking(hash, before, after, joiner, h);
      WalkNonempty(hash, before, h);
      WalkNonempty(hash, after, h);
    }
  }

  lemma {:induction false} JoinKeepsReplicas(hash: Hash, before: State, after: State, joiner: Id, h: uint64, n: nat)
    requires Sound(hash, before) && Sound(hash, after) && before.vnodes == after.vnodes
    requires joiner !in before.peers && after.peers.Keys == before.peers.Keys + {joiner}
    ensures Without(ReplicaIds(after, h, n), joiner) <= ReplicaIds(before, h, n)
  {
    JoinKeepsRanking(hash, before, after, joiner, h);
    JoinSizes(hash, before, after, joiner, h);
    JoinPrefix(Firsts(Met(before, h)), Firsts(Met(after, h)), joiner, n);
  }

  lemma {:induction false} JoinSizes(hash: Hash, before: State, after: State, joiner: Id, h: uint64)
    requires Sound(hash, before) && Sound(hash, after)
    requires joiner !in before.peers && after.peers.Keys == before.peers.Keys + {joiner}
    ensures |Firsts(Met(before, h))| == |before.peers| && |Firsts(Met(after, h))| == |after.peers| == |before.peers| + 1
    ensures joiner in Firsts(Met(after, h))
  {
    RingRanking(hash, before, h);
    RingRanking(hash, after, h);
    assert joiner in Distances(hash, after.vnodes, after.peers.Keys, h);
    OneMore(before.peers, after.peers, joiner);
  }

  lemma {:induction false} OneMore(before: map<Id, Peer>, after: map<Id, Peer>, joiner: Id)
    requires joiner !in before && after.Keys == before.Keys + {joiner}
    ensures |after| == |before| + 1
  {
    assert |after.Keys| == |before.Keys| + 1;
  }

  /** With peers, the walk starts at the owner. */
  lemma {:induction false} WalkNonempty(hash: Hash, s: State, h: uint64)
    requires Sound(hash, s) && s.peers != map[]
    ensures Firsts(Met(s, h)) != [] && OwnerId(s, h) == Some(Firsts(Met(s, h))[0])
  {
    RingRanking(hash, s, h);
    FirstsHead(Met(s, h));
  }

  lemma {:induction false} JoinPrefix(r: seq<Id>, r': seq<Id>, j: Id, n: nat)
    requires Without(r', j) == r && |r'| == |r| + 1 && j in r'
    ensures Without(Take(r', Min(n, |r'|)), j) <= Take(r, Min(n, |r|))
  {
    var m := Min(n, |r'|);
    TakeWithout(r', j, m);
    assert Take(r', m) == r'[..m];
    assert Take(r, Min(n, |r|)) == r[..Min(n, |r|)];
    if m == |r'| { assert r'[..m] == r'; }
  }

  // ---------------------------------------------------------------- vnode hash collisions

  /** The walk finds exactly the peers that own a vnode, collisions or not. */
  lemma {:induction false} WalkFindsOwners(hash: Hash, s: State, h: uint64, id: Id)
    requires Valid(hash, s)
    ensures id in Firsts(Met(s, h)) <==> exists x :: x in s.hashToID && s.hashToID[x] == id
  {
    FirstsMembers(Met(s, h), id);
    if id in Met(s, h) {
      var p :| 0 <= p < |Met(s, h)| && Met(s, h)[p] == id;
      MetOwns(hash, s, h, p);
    }
    if x :| x in s.hashToID && s.hashToID[x] == id {
      ClockwiseSame(s.keys, h, x);
      var c := Clockwise(s.keys, h);
      var q :| 0 <= q < |c| && c[q] == x;
      MetOwns(hash, s, h, q);
      assert Met(s, h)[q] == id;
    }
  }

  lemma {:induction false} FillSnoc(hash: Hash, vnodes: nat, ps: seq<Peer>, p: Peer)
    ensures var s, r := Fill(hash, vnodes, ps), Fill(hash, vnodes, ps + [p]);
            if p.id.name == "" then r == s
            else r.hashToID == AddOwners(hash, s.hashToID, p.id, vnodes) && r.peers == s.peers[p.id := p]
  {
    assert (ps + [p])[..|ps|] == ps;
  }

  predicate Named(p: Peer) { p.id.name != "" }

  /** The i-th peer listed has a vnode at x, and no other peer listed after it does. */
  ghost predicate Wins(hash: Hash, vnodes: nat, ps: seq<Peer>, i: nat, x: uint64)
  {
    && i < |ps| && Named(ps[i]) && HasVnode(hash, vnodes, ps[i].id, x)
    && forall j :: i < j < |ps| && Named(ps[j]) && HasVnode(hash, vnodes, ps[j].id, x) ==> ps[j].id == ps[i].id
  }

  lemma {:induction false} WinsSnoc(hash: Hash, vnodes: nat, ps: seq<Peer>, p: Peer, i: nat, x: uint64)
    requires i < |ps|
    ensures Wins(hash, vnodes, ps + [p], i, x) <==>
            Wins(hash, vnodes, ps, i, x) && (Named(p) && HasVnode(hash, vnodes, p.id, x) ==> p.id == ps[i].id)
  {
    var all := ps + [p];
    assert all[|ps|] == p && forall j :: 0 <= j < |ps| ==> all[j] == ps[j];
  }

  /** A vnode hash belongs to the last peer listed that has it. */
  lemma {:induction false} LastListedOwns(hash: Hash, vnodes: nat, ps: seq<Peer>, x: uint64, id: Id)
    ensures var owners := Fill(hash, vnodes, ps).hashToID;
            (x in owners && owners[x] == id) <==> exists i :: 0 <= i < |ps| && ps[i].id == id && Wins(hash, vnodes, ps, i, x)
    decreases |ps|
  {
    if ps != [] {
      var n := |ps| - 1;
      var init, p := ps[..n], ps[n];
      assert ps == init + [p];
      LastListedOwns(hash, vnodes, init, x, id);
      FillSnoc(hash, vnodes, init, p);
      AddOwnersLookup(hash, Fill(hash, vnodes, init).hashToID, p.id, vnodes, x);
      forall i | 0 <= i < n {
        WinsSnoc(hash, vnodes, init, p, i, x);
      }
      if Named(p) && HasVnode(hash, vnodes, p.id, x) {
        assert Wins(hash, vnodes, ps, n, x);
      }
    }
  }

  lemma {:induction false} ListedPeers(hash: Hash, vnodes: nat, ps: seq<Peer>, id: Id)
    ensures id in Fill(hash, vnodes, ps).peers <==> exists i :: 0 <= i < |ps| && Named(ps[i]) && ps[i].id == id
    decreases |ps|
  {
    if ps != [] {
      var n := |ps| - 1;
      assert ps == ps[..n] + [ps[n]];
      ListedPeers(hash, vnodes, ps[..n], id);
      FillSnoc(hash, vnodes, ps[..n], ps[n]);
    }
  }

  /** Some listing of the peer has a vnode hash that no other peer listed later has. */
  ghost predicate Reachable(hash: Hash, vnodes: nat, ps: seq<Peer>, id: Id)
  {
    exists i, x :: 0 <= i < |ps| && ps[i].id == id && Wins(hash, vnodes, ps, i, x)
  }

  /** So a peer is on the full replica list of some key, and then of every key, if and only if it is reachable. */
  lemma {:induction false} PeerReachedIff(hash: Hash, vnodes: nat, ps: seq<Peer>, h: uint64, id: Id)
    ensures Valid(hash, Build(hash, vnodes, ps))
    ensures id in Firsts(Met(Build(hash, vnodes, ps), h)) <==> Reachable(hash, vnodes, ps, id)
  {
    BuildValid(hash, vnodes, ps);
    WalkFindsOwners(hash, Build(hash, vnodes, ps), h, id);
    OwnsIff(hash, vnodes, ps, id);
  }

  lemma {:induction false} OwnsIff(hash: Hash, vnodes: nat, ps: seq<Peer>, id: Id)
    ensures var s := Build(hash, vnodes, ps);
            (exists x :: x in s.hashToID && s.hashToID[x] == id) <==> Reachable(hash, vnodes, ps, id)
  {
    var s := Build(hash, vnodes, ps);
    if x :| x in s.hashToID && s.hashToID[x] == id {
      LastListedOwns(hash, vnodes, ps, x, id);
      var i :| 0 <= i < |ps| && ps[i].id == id && Wins(hash, vnodes, ps, i, x);
    }
    if i, x :| 0 <= i < |ps| && ps[i].id == id && Wins(hash, vnodes, ps, i, x) {
      LastListedOwns(hash, vnodes, ps, x, id);
      assert x in s.hashToID && s.hashToID[x] == id;
    }
  }

  /** The full replica list has every peer, if and only if each has a vnode hash that no other peer listed later has. */
  lemma {:induction false} EveryPeerReachedIff(hash: Hash, vnodes: nat, ps: seq<Peer>, h: uint64)
    ensures Valid(hash, Build(hash, vnodes, ps))
    ensures var s := Build(hash, vnodes, ps);
            (forall id :: id in s.peers ==> id in Firsts(Met(s, h))) <==>
            (forall i :: 0 <= i < |ps| && Named(ps[i]) ==> Reachable(hash, vnodes, ps, ps[i].id))
  {
    var s := Build(hash, vnodes, ps);
    BuildValid(hash, vnodes, ps);
    forall id
      ensures id in s.peers <==> exists i :: 0 <= i < |ps| && Named(ps[i]) && ps[i].id == id
      ensures id in Firsts(Met(s, h)) <==> Reachable(hash, vnodes, ps, id)
    {
      ListedPeers(hash, vnodes, ps, id);
      PeerReachedIff(hash, vnodes, ps, h, id);
    }
  }

  // ---------------------------------------------------------------- the order of SetPeers

  /** The owner of a hash in the ring of a list of peers. */
  ghost function OwnerOf(hash: Hash, vnodes: nat, ps: seq<Peer>, h: uint64): Option<Id>
  {
    BuildValid(hash, vnodes, ps);
    OwnerId(Build(hash, vnodes, ps), h)
  }

  /** A vnode owns its own position. */
  lemma {:induction false} OwnerAtVnode(hash: Hash, s: State, x: uint64)
    requires Valid(hash, s) && x in s.hashToID
    ensures OwnerId(s, x) == Some(s.hashToID[x])
  {
    var i := Search(s.keys, x);
    assert x in s.keys;
    var j :| 0 <= j < |s.keys| && s.keys[j] == x;
    assert i <= j;
    assert s.keys[i] == x;
    assert Clockwise(s.keys, x)[0] == x;
  }

  /** Every peer has a name, and no two share it. */
  ghost predicate Distinguished(ps: seq<Peer>)
  {
    && (forall i :: 0 <= i < |ps| ==> Named(ps[i]))
    && (forall i, j :: 0 <= i < j < |ps| ==> ps[i].id != ps[j].id)
  }

  lemma {:induction false} PeersOfList(hash: Hash, vnodes: nat, ps: seq<Peer>, id: Id)
    requires id in Fill(hash, vnodes, ps).peers
    ensures Fill(hash, vnodes, ps).peers[id] in ps && Fill(hash, vnodes, ps).peers[id].id == id
    decreases |ps|
  {
    var n := |ps| - 1;
    assert ps == ps[..n] + [ps[n]];
    FillSnoc(hash, vnodes, ps[..n], ps[n]);
    if !(Named(ps[n]) && ps[n].id == id) {
      PeersOfList(hash, vnodes, ps[..n], id);
    }
  }

  lemma {:induction false} SamePeers(hash: Hash, vnodes: nat, ps: seq<Peer>, qs: seq<Peer>)
    requires Distinguished(ps) && forall p :: p in ps <==> p in qs
    ensures Fill(hash, vnodes, ps).peers == Fill(hash, vnodes, qs).peers
  {
    var a, b := Fill(hash, vnodes, ps).peers, Fill(hash, vnodes, qs).peers;
    forall id
      ensures id in a <==> id in b
      ensures id in a && id in b ==> a[id] == b[id]
    {
      ListedPeers(hash, vnodes, ps, id);
      ListedPeers(hash, vnodes, qs, id);
      assert forall i :: 0 <= i < |ps| ==> ps[i] in qs;
      assert forall i :: 0 <= i < |qs| ==> qs[i] in ps;
      if id in a && id in b {
        PeersOfList(hash, vnodes, ps, id);
        PeersOfList(hash, vnodes, qs, id);
      }
    }
    assert a == b;
  }

  lemma {:induction false} SameMembers(ps: seq<Peer>, qs: seq<Peer>)
    requires multiset(ps) == multiset(qs)
    ensures forall p :: p in ps <==> p in qs
  {
    forall p
      ensures p in ps <==> p in qs
    {
      assert p in multiset(ps) <==> p in multiset(qs);
    }
  }

  lemma {:induction false} DistinctOwners(hash: Hash, vnodes: nat, ps: seq<Peer>, qs: seq<Peer>, h: uint64)
    requires Distinguished(ps) && multiset(ps) == multiset(qs)
    requires Distinct(hash, vnodes, Build(hash, vnodes, ps).peers.Keys)
    ensures OwnerOf(hash, vnodes, ps, h) == OwnerOf(hash, vnodes, qs, h)
  {
    var s, t := Build(hash, vnodes, ps), Build(hash, vnodes, qs);
    SameMembers(ps, qs);
    SamePeers(hash, vnodes, ps, qs);
    BuildValid(hash, vnodes, ps);
    BuildValid(hash, vnodes, qs);
    if vnodes > 0 && s.peers != map[] {
      OrderIrrelevant(hash, vnodes, ps, qs, h, 1);
      ReplicasAreNearest(hash, s, h, 1);
      ReplicasAreNearest(hash, t, h, 1);
    } else {
      if s.keys != [] {
        KeysNeedPeers(hash, s);
      }
      if t.keys != [] {
        KeysNeedPeers(hash, t);
      }
    }
  }

  lemma {:induction false} KeysNeedPeers(hash: Hash, s: State)
    requires Valid(hash, s) && s.keys != []
    ensures s.vnodes > 0 && s.peers != map[]
  {
    var x := s.keys[0];
    assert x in s.hashToID;
    assert HasVnode(hash, s.vnodes, s.hashToID[x], x);
  }

  /** Of two peers listed last that share a vnode hash, the very last owns it. */
  lemma {:induction false} LastOwns(hash: Hash, vnodes: nat, rest: seq<Peer>, a: Peer, b: Peer, x: uint64)
    requires Named(b) && HasVnode(hash, vnodes, b.id, x)
    ensures OwnerOf(hash, vnodes, rest + [a, b], x) == Some(b.id)
  {
    var ps := rest + [a, b];
    BuildValid(hash, vnodes, ps);
    assert ps[|rest| + 1] == b;
    assert Wins(hash, vnodes, ps, |rest| + 1, x);
    LastListedOwns(hash, vnodes, ps, x, b.id);
    OwnerAtVnode(hash, Build(hash, vnodes, ps), x);
  }

  lemma {:induction false} MoveToEnd(ps: seq<Peer>, i: nat, j: nat) returns (rest: seq<Peer>)
    requires i < j < |ps|
    ensures multiset(rest + [ps[i], ps[j]]) == multiset(ps) == multiset(rest + [ps[j], ps[i]])
  {
    rest := ps[..i] + ps[i + 1..j] + ps[j + 1..];
    assert ps == ps[..i] + [ps[i]] + ps[i + 1..j] + [ps[j]] + ps[j + 1..];
  }

  /** Two peers of the list that share a vnode hash can be arranged so that either owns it. */
  lemma {:induction false} SharedVnodeShows(hash: Hash, vnodes: nat, ps: seq<Peer>, i: nat, j: nat, x: uint64)
    returns (qs: seq<Peer>)
    requires Distinguished(ps) && i < j < |ps|
    requires HasVnode(hash, vnodes, ps[i].id, x) && HasVnode(hash, vnodes, ps[j].id, x)
    ensures multiset(ps) == multiset(qs) && OwnerOf(hash, vnodes, qs, x) != OwnerOf(hash, vnodes, ps, x)
  {
    var rest := MoveToEnd(ps, i, j);
    LastOwns(hash, vnodes, rest, ps[i], ps[j], x);
    LastOwns(hash, vnodes, rest, ps[j], ps[i], x);
    qs := if OwnerOf(hash, vnodes, ps, x) == Some(ps[j].id) then rest + [ps[j], ps[i]] else rest + [ps[i], ps[j]];
  }

  /**
   * The order in which the peers are given leaves no trace in who owns what, if and only if no two of them share a vnode
   * hash.
   */
  lemma {:induction false} OrderIrrelevantIff(hash: Hash, vnodes: nat, ps: seq<Peer>)
    requires Distinguished(ps)
    ensures (forall qs, h: uint64 :: multiset(ps) == multiset(qs) ==>
               OwnerOf(hash, vnodes, qs, h) == OwnerOf(hash, vnodes, ps, h)) <==>
            Distinct(hash, vnodes, Build(hash, vnodes, ps).peers.Keys)
  {
    if Distinct(hash, vnodes, Build(hash, vnodes, ps).peers.Keys) {
      forall qs, h: uint64 | multiset(ps) == multiset(qs)
        ensures OwnerOf(hash, vnodes, qs, h) == OwnerOf(hash, vnodes, ps, h)
      {
        DistinctOwners(hash, vnodes, ps, qs, h);
      }
    } else {
      var ids := Build(hash, vnodes, ps).peers.Keys;
      var a, b, x :| a in ids && b in ids && HasVnode(hash, vnodes, a, x) && HasVnode(hash, vnodes, b, x) && a != b;
      ListedPeers(hash, vnodes, ps, a);
      ListedPeers(hash, vnodes, ps, b);
      var i :| 0 <= i < |ps| && Named(ps[i]) && ps[i].id == a;
      var j :| 0 <= j < |ps| && Named(ps[j]) && ps[j].id == b;
      var qs := SharedVnodeShows(hash, vnodes, ps, if i < j then i else j, if i < j then j else i, x);
    }
  }

  /** With a hash that collides everywhere, the last peer listed hides the first. */
  lemma {:induction false} CollisionHidesPeer(a: Peer, b: Peer, h: uint64)
    requires a.id.name != "" && b.id.name != "" && a.id != b.id
    ensures var hash: Hash := (_: string) => 0;
            var s := Build(hash, 1, [a, b]);
            Valid(hash, s) && a.id in s.peers && b.id in s.peers && a.id !in Firsts(Met(s, h))
  {
    var hash: Hash := (_: string) => 0;
    var s := Build(hash, 1, [a, b]);
    BuildValid(hash, 1, [a, b]);
    assert [a, b][..1] == [a] && [a][..0] == [];
    assert Fill(hash, 1, [a]).peers == map[a.id := a];
    assert s.peers == map[a.id := a, b.id := b];
    forall x | x in s.hashToID ensures s.hashToID[x] == b.id {
      AddOwnersLookup(hash, Fill(hash, 1, [a]).hashToID, b.id, 1, x);
      assert VnodeHash(hash, b.id, 0) == 0;
      assert HasVnode(hash, s.vnodes, s.hashToID[x], x);
      assert x == 0;
    }
    WalkFindsOwners(hash, s, h, a.id);
  }

  // ---------------------------------------------------------------- the ring in place

  class HashRing {
    const hash: Hash
    const vnodes: nat
    var keys: seq<uint64>
    var hashToID: map<uint64, Id>
    var peers: map<Id, Peer>
    var gen: nat

    ghost function Fields(): State
      reads this
    {
      State(vnodes, keys, hashToID, peers)
    }

    ghost predicate Inv()
      reads this
    {
      1 <= vnodes && Valid(hash, Fields())
    }

    /** New: 64 vnodes unless a positive number is asked for. */
    constructor (hash: Hash, vnodes: int)
      ensures Inv() && Fields() == State(if vnodes <= 0 then 64 else vnodes, [], map[], map[]) && this.hash == hash
    {
      this.hash := hash;
      this.vnodes := if vnodes <= 0 then 64 else vnodes;
      keys := [];
      hashToID := map[];
      peers := map[];
      gen := 0;
    }

    method SetPeers(ps: seq<Peer>)
      requires Inv()
      modifies this
      ensures Inv() && Fields() == Build(hash, vnodes, ps) && gen == old(gen) + 1
    {
      BuildValid(hash, vnodes, ps);
      peers := map[];
      hashToID := map[];
      keys := [];
      for n := 0 to |ps|
        invariant Fields() == Fill(hash, vnodes, ps[..n]) && gen == old(gen)
      {
        assert ps[..n + 1][..n] == ps[..n];
        var p := ps[n];
        if p.id.name != "" {
          AddPeer(p);
        }
      }
      assert ps[..|ps|] == ps;
      keys := SortBy(Below, keys);
      gen := gen + 1;
    }

    /** The body of SetPeers' loop: one peer and its vnodes. */
    method AddPeer(p: Peer)
      modifies this
      ensures keys == AddKeys(hash, old(keys), p.id, vnodes) && hashToID == AddOwners(hash, old(hashToID), p.id, vnodes)
      ensures peers == old(peers)[p.id := p] && gen == old(gen)
    {
      peers := peers[p.id := p];
      for i := 0 to vnodes
        invariant keys == AddKeys(hash, old(keys), p.id, i) && hashToID == AddOwners(hash, old(hashToID), p.id, i)
        invariant peers == old(peers)[p.id := p] && gen == old(gen)
      {
        var h := VnodeHash(hash, p.id, i);
        hashToID := hashToID[h := p.id];
        keys := keys + [h];
      }
    }

    method Owner(key: string) returns (r: Option<Peer>)
      requires Inv()
      ensures r == match OwnerId(Fields(), hash(key)) case None => None case Some(id) => Some(peers[id])
    {
      if keys == [] {
        return None;
      }
      var h := hash(key);
      var i := Search(keys, h);
      if i == |keys| {
        i := 0;
      }
      MetOwns(hash, Fields(), h, 0);
      assert Clockwise(keys, h)[0] == keys[i];
      return Some(peers[hashToID[keys[i]]]);
    }

    /** replicasLocked: walk clockwise from the key, wrapping, until n distinct peers are met. */
    method ReplicasLocked(key: string, n: int) returns (out: seq<Peer>)
      requires Inv()
      ensures out == Lookup(peers, ReplicaIds(Fields(), hash(key), n))
    {
      var h := hash(key);
      if n <= 0 || keys == [] || |peers| == 0 {
        EmptyReplicas(Fields(), h, n);
        return [];
      }
      var start := Search(keys, h);
      if start == |keys| {
        start := 0;
      }
      forall w | 0 <= w < |keys|
        ensures keys[Wrapped(start, w, |keys|)] in hashToID
        ensures hashToID[keys[Wrapped(start, w, |keys|)]] == Met(Fields(), h)[w]
      {
        WalkedIsMet(hash, Fields(), h, start, w);
      }
      var ids := WalkKeys(keys, hashToID, start, if n > |peers| then |peers| else n, Met(Fields(), h));
      out := LookupAll(peers, ids);
    }

    /** The replica list without one id; an empty id drops nothing. */
    method ReplicasExcept(key: string, id: Id, n: int) returns (out: seq<Peer>)
      requires Inv()
      ensures var ids := ReplicaIds(Fields(), hash(key), n);
              out == Lookup(peers, if id.name == "" then ids else Without(ids, id))
    {
      var reps := ReplicasLocked(key, n);
      if id.name == "" {
        return reps;
      }
      ReplicasWithout(hash, Fields(), hash(key), n, id);
      if |reps| == 0 {
        return reps;
      }
      out := DropId(reps, id);
    }

    method IsReplica(key: string, id: Id, n: int) returns (r: bool)
      requires Inv()
      ensures r <==> IsReplicaId(Fields(), hash(key), id, n)
    {
      if id.name == "" || n <= 0 || keys == [] {
        return false;
      }
      if n >= |peers| {
        return id in peers;
      }
      var reps := ReplicasLocked(key, n);
      r := MentionsId(reps, id);
      LookupMentions(hash, Fields(), hash(key), n, id);
    }
  }

  method MentionsId(reps: seq<Peer>, id: Id) returns (r: bool)
    ensures r <==> exists j :: 0 <= j < |reps| && reps[j].id == id
  {
    for i := 0 to |reps|
      invariant forall j :: 0 <= j < i ==> reps[j].id != id
    {
      if reps[i].id == id {
        return true;
      }
    }
    return false;
  }

  function Lookup(peers: map<Id, Peer>, ids: seq<Id>): seq<Peer>
  {
    if ids == [] then []
    else
      var front := Lookup(peers, ids[..|ids| - 1]);
      if ids[|ids| - 1] in peers then front + [peers[ids[|ids| - 1]]] else front
  }

  method LookupAll(peers: map<Id, Peer>, ids: seq<Id>) returns (out: seq<Peer>)
    ensures out == Lookup(peers, ids)
  {
    out := [];
    for i := 0 to |ids|
      invariant out == Lookup(peers, ids[..i])
    {
      assert ids[..i + 1][..i] == ids[..i];
      if ids[i] in peers {
        out := out + [peers[ids[i]]];
      }
    }
    assert ids[..|ids|] == ids;
  }

  function Except(reps: seq<Peer>, id: Id): seq<Peer>
  {
    if id.name == "" || reps == [] then reps
    else
      var front := Except(reps[..|reps| - 1], id);
      if reps[|reps| - 1].id != id then front + [reps[|reps| - 1]] else front
  }

  method DropId(reps: seq<Peer>, id: Id) returns (out: seq<Peer>)
    requires id.name != ""
    ensures out == Except(reps, id)
  {
    out := [];
    for i := 0 to |reps|
      invariant out == Except(reps[..i], id)
    {
      assert reps[..i + 1][..i] == reps[..i];
      if reps[i].id != id {
        out := out + [reps[i]];
      }
    }
    assert reps[..|reps|] == reps;
  }

  lemma {:induction false} ExceptSnoc(reps: seq<Peer>, p: Peer, id: Id)
    requires id.name != ""
    ensures Except(reps + [p], id) == Except(reps, id) + if p.id != id then [p] else []
  {
    assert (reps + [p])[..|reps|] == reps;
  }

  lemma {:induction false} LookupSnoc(peers: map<Id, Peer>, ids: seq<Id>, x: Id)
    requires x in peers
    ensures Lookup(peers, ids + [x]) == Lookup(peers, ids) + [peers[x]]
  {
    assert (ids + [x])[..|ids|] == ids;
  }

  /** Dropping an id from a list without duplicates drops one element at most, and keeps the order. */
  lemma {:induction false} ExceptIsWithout(peers: map<Id, Peer>, ids: seq<Id>, id: Id)
    requires NoDup(ids) && id.name != "" && forall i :: 0 <= i < |ids| ==> ids[i] in peers && peers[ids[i]].id == ids[i]
    ensures Except(Lookup(peers, ids), id) == Lookup(peers, Without(ids, id))
    decreases |ids|
  {
    if ids != [] {
      var front, x := ids[..|ids| - 1], ids[|ids| - 1];
      assert ids == front + [x] && x !in front;
      ExceptIsWithout(peers, front, id);
      WithoutSnoc(front, x, id);
      LookupSnoc(peers, front, x);
      ExceptSnoc(Lookup(peers, front), peers[x], id);
      if x == id {
        WithoutAbsent(front, id);
      } else {
        if id !in front { WithoutAbsent(front, id); }
        LookupSnoc(peers, Without(front, id), x);
      }
    }
  }

  lemma {:induction false} FirstsNoDup(ids: seq<Id>)
    ensures NoDup(Firsts(ids))
    decreases |ids|
  {
    if ids != [] {
      FirstsNoDup(ids[..|ids| - 1]);
    }
  }

  /** Filtering the looked-up replicas by id is looking up the replica ids without it. */
  lemma {:induction false} ReplicasWithout(hash: Hash, s: State, h: uint64, n: int, id: Id)
    requires Valid(hash, s) && id.name != ""
    ensures Except(Lookup(s.peers, ReplicaIds(s, h, n)), id) == Lookup(s.peers, Without(ReplicaIds(s, h, n), id))
  {
    var ids := ReplicaIds(s, h, n);
    FirstsNoDup(Met(s, h));
    assert NoDup(ids);
    forall i | 0 <= i < |ids|
      ensures ids[i] in s.peers && s.peers[ids[i]].id == ids[i]
    {
      IdsArePeers(hash, s, h, n, ids[i]);
    }
    ExceptIsWithout(s.peers, ids, id);
  }

  lemma {:induction false} WithoutAbsent(ids: seq<Id>, id: Id)
    requires id !in ids
    ensures Without(ids, id) == ids
    decreases |ids|
  {
    if ids != [] { WithoutAbsent(ids[1..], id); }
  }

  lemma {:induction false} WithoutSnoc(ids: seq<Id>, last: Id, id: Id)
    ensures Without(ids + [last], id) ==
            if id in ids then Without(ids, id) + [last] else if last == id then ids else ids + [last]
    decreases |ids|
  {
    if ids != [] {
      assert (ids + [last])[1..] == ids[1..] + [last];
      if ids[0] != id { WithoutSnoc(ids[1..], last, id); }
    }
  }

  function Wrapped(start: nat, walked: nat, len: nat): nat
    requires start < len && walked <= len
  {
    if start + walked < len then start + walked else start + walked - len
  }

  /** The walking loop, from an index, with wrap-around and the ids seen so far. */
  method WalkKeys(keys: seq<uint64>, owner: map<uint64, Id>, start: nat, limit: nat, ghost met: seq<Id>) returns (ids: seq<Id>)
    requires start < |keys| == |met|
    requires forall w :: 0 <= w < |keys| ==>
      keys[Wrapped(start, w, |keys|)] in owner && owner[keys[Wrapped(start, w, |keys|)]] == met[w]
    ensures ids == Take(Firsts(met), limit)
  {
    var i := start;
    ids := [];
    var walked := 0;
    while walked < |keys| && |ids| < limit
      invariant 0 <= walked <= |keys| && i == Wrapped(start, walked, |keys|)
      invariant ids == Firsts(met[..walked]) && |ids| <= limit
    {
      FirstsStep(met, walked);
      var id := owner[keys[i]];
      i := i + 1;
      if i == |keys| {
        i := 0;
      }
      if id !in ids {
        ids := ids + [id];
      }
      walked := walked + 1;
    }
    TakeFirsts(met, walked, limit);
  }

  lemma {:induction false} TakeFirsts(met: seq<Id>, walked: nat, limit: nat)
    requires walked <= |met| && |Firsts(met[..walked])| <= limit
    requires walked == |met| || |Firsts(met[..walked])| == limit
    ensures Firsts(met[..walked]) == Take(Firsts(met), limit)
  {
    FirstsPrefix(met, walked);
    if walked == |met| { assert met[..walked] == met; }
  }

  lemma {:induction false} WalkedIsMet(hash: Hash, s: State, h: uint64, start: nat, w: nat)
    requires Valid(hash, s) && w < |s.keys| && start == if Search(s.keys, h) == |s.keys| then 0 else Search(s.keys, h)
    ensures var x := s.keys[Wrapped(start, w, |s.keys|)]; x in s.hashToID && s.hashToID[x] == Met(s, h)[w]
  {
    assert Clockwise(s.keys, h)[w] == s.keys[Wrapped(start, w, |s.keys|)];
    MetOwns(hash, s, h, w);
  }

  lemma {:induction false} FirstsStep(ids: seq<Id>, n: nat)
    requires n < |ids|
    ensures Firsts(ids[..n + 1]) == if ids[n] in Firsts(ids[..n]) then Firsts(ids[..n]) else Firsts(ids[..n]) + [ids[n]]
  {
    assert ids[..n + 1][..n] == ids[..n];
  }

  lemma {:induction false} LookupElements(peers: map<Id, Peer>, ids: seq<Id>)
    requires forall i :: 0 <= i < |ids| ==> ids[i] in peers
    ensures |Lookup(peers, ids)| == |ids| && forall i :: 0 <= i < |ids| ==> Lookup(peers, ids)[i] == peers[ids[i]]
    decreases |ids|
  {
    if ids != [] { LookupElements(peers, ids[..|ids| - 1]); }
  }

  lemma {:induction false} LookupMentions(hash: Hash, s: State, h: uint64, n: int, id: Id)
    requires Valid(hash, s)
    ensures var reps := Lookup(s.peers, ReplicaIds(s, h, n));
            (exists j :: 0 <= j < |reps| && reps[j].id == id) <==> id in ReplicaIds(s, h, n)
  {
    var ids := ReplicaIds(s, h, n);
    forall i | 0 <= i < |ids| ensures ids[i] in s.peers && s.peers[ids[i]].id == ids[i] {
      IdsArePeers(hash, s, h, n, ids[i]);
    }
    LookupElements(s.peers, ids);
    if id in ids {
      var i :| 0 <= i < |ids| && ids[i] == id;
      assert Lookup(s.peers, ids)[i].id == id;
    }
  }

  lemma {:induction false} IdsArePeers(hash: Hash, s: State, h: uint64, n: int, id: Id)
    requires Valid(hash, s) && id in ReplicaIds(s, h, n)
    ensures id in s.peers && s.peers[id].id == id
  {
    assert id in Firsts(Met(s, h));
    FirstsMembers(Met(s, h), id);
    var p :| 0 <= p < |Met(s, h)| && Met(s, h)[p] == id;
    MetOwns(hash, s, h, p);
  }

  lemma {:induction false} EmptyReplicas(s: State, h: uint64, n: int)
    requires forall x :: x in s.keys ==> x in s.hashToID
    requires n <= 0 || s.keys == [] || |s.peers| == 0
    ensures ReplicaIds(s, h, n) == []
  {
    if s.keys == [] { assert Met(s, h) == []; }
  }

  lemma {:induction false} FirstsPrefix(ids: seq<Id>, n: nat)
    requires n <= |ids|
    ensures Firsts(ids[..n]) <= Firsts(ids)
    decreases |ids| - n
  {
    if n < |ids| {
      FirstsPrefix(ids, n + 1);
      assert ids[..n + 1][..n] == ids[..n];
    } else {
      assert ids[..n] == ids;
    }
  }
}
