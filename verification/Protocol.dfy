/**
 * The replication protocol for one plain key, as atomic steps: a node mints a
 * version, applies the mutation later, fans it out; messages are delayed,
 * reordered, repeated or lost; replicas repair from a peer; entries expire and
 * are evicted; version counters may be pruned. Safety is stated over every run.
 */
module Protocol {
  import opened Basics
  import opened Entries
  import opened LastWriter

  type Node = nat

  datatype Mutation = PutMut(value: Bytes, expireAt: int) | DelMut | NegMut(expireAt: int)

  /** A minted version waiting to be applied by the node that minted it. */
  datatype Pending = Pending(node: Node, version: uint64, mut: Mutation)

  /**
   * In flight: a fanned-out entry or delete (possibly sitting in a hint queue), or
   * the entry a replica fetched to repair itself. Sent messages stay deliverable
   * for ever, any number of times; never delivering one models its loss.
   */
  datatype Wire = Apply(e: Entry) | ApplyDelete(version: uint64) | Repair(e: Entry)

  datatype State = State(
    slots: map<Node, Entry>,        // the entry each node stores for the key
    counters: map<Node, uint64>,    // lastVer[key] on each node; absent reads as 0
    pending: set<Pending>,
    wire: set<Wire>,
    minted: set<(uint64, Mutation)>,  // history of every version ever minted
    now: int,
    ttl: int
  )

  ghost function SlotAt(s: State, n: Node): Slot { if n in s.slots then Some(s.slots[n]) else None }

  ghost function Put(s: State, n: Node, slot: Slot): State
  {
    if slot.Some? then s.(slots := s.slots[n := slot.value]) else s.(slots := s.slots - {n})
  }

  ghost function Counter(s: State, n: Node): uint64 { if n in s.counters then s.counters[n] else 0 }

  /** What nextVersion starts from: the counter, or a live stored version above it. */
  ghost function Seed(s: State, n: Node): uint64
  {
    if LiveSlot(SlotAt(s, n), s.now) && s.slots[n].version > Counter(s, n) then s.slots[n].version else Counter(s, n)
  }

  /** uint64 increment. */
  function Successor(v: uint64): uint64 { if v == MAX_UINT64 then 0 else v + 1 }

  function EntryOf(version: uint64, mut: Mutation): Entry
  {
    match mut
    case PutMut(value, expireAt) => Entry(value, version, expireAt, {})
    case DelMut => Entry([], version, 0, {FlagTombstone})
    case NegMut(expireAt) => Entry([], version, expireAt, {FlagNegative})
  }

  datatype Step =
    | Mint(node: Node, mut: Mutation)
    | Commit(p: Pending, fits: bool)   // fits: the entry passes the size limit
    | Receive(to: Node, msg: Wire, fits: bool)
    | Fetch(from: Node)                // answer a repair request from the local copy
    | Drop(node: Node)                 // eviction, expiry or restart of the store
    | Prune(node: Node)                // the version counter is discarded
    | Tick(time: int)

  ghost function Lapse(s: State): int { if s.ttl <= 0 then 0 else s.now + s.ttl }

  /** putLocalApply, DeleteAsOwner and storeNegative after the version is minted. */
  ghost function CommitState(s: State, p: Pending, fits: bool): State
  {
    var slot := SlotAt(s, p.node);
    var s1 := s.(pending := s.pending - {p});
    var e := EntryOf(p.version, p.mut);
    match p.mut
    case PutMut(_, _) =>
      if !fits || !TakesPut(slot, e, s.now) then s1
      else Put(s1, p.node, Some(e)).(wire := s.wire + {Apply(e)})
    case DelMut =>
      Put(s1, p.node, SlotDelete(slot, p.version, Lapse(s), s.now)).(wire := s.wire + {ApplyDelete(p.version)})
    case NegMut(_) =>
      if !fits || !TakesNegative(slot, e, s.now) then s1
      else Put(s1, p.node, Some(e)).(wire := s.wire + {Apply(e)})
  }

  ghost function Observe(s: State, n: Node, v: uint64): State
  {
    if v > Counter(s, n) then s.(counters := s.counters[n := v]) else s
  }

  /** ApplyPutWithRingGen, ApplyDeleteWithRingGen, and the install after a repair fetch. */
  ghost function ReceiveState(s: State, n: Node, msg: Wire, fits: bool): State
  {
    var slot := SlotAt(s, n);
    match msg
    case Apply(e) =>
      var s1 := Observe(s, n, e.version);
      if !fits then s1
      else if e.IsNegative() then Put(s1, n, SlotNegative(slot, e, s.now))
      else Put(s1, n, SlotAccept(slot, e, s.now))
    case ApplyDelete(v) => Put(Observe(s, n, v), n, SlotDelete(slot, v, Lapse(s), s.now))
    case Repair(e) =>
      if !fits then s
      else if e.IsNegative() then Put(s, n, SlotNegative(slot, e, s.now))
      else Put(s, n, SlotAccept(slot, e, s.now))
  }

  ghost predicate Enabled(s: State, step: Step)
  {
    match step
    case Commit(p, _) => p in s.pending
    case Receive(_, msg, _) => msg in s.wire
    case Fetch(n) => LiveSlot(SlotAt(s, n), s.now) && !s.slots[n].IsTombstone()
    case Tick(t) => s.now <= t
    case _ => true
  }

  ghost function Do(s: State, step: Step): State
    requires Enabled(s, step)
  {
    match step
    case Mint(n, mut) =>
      var v := Successor(Seed(s, n));
      s.(counters := s.counters[n := v],
         pending := s.pending + {Pending(n, v, mut)},
         minted := s.minted + {(v, mut)})
    case Commit(p, fits) => CommitState(s, p, fits)
    case Receive(n, msg, fits) => ReceiveState(s, n, msg, fits)
    case Fetch(n) => s.(wire := s.wire + {Repair(s.slots[n])})
    case Drop(n) => s.(slots := s.slots - {n})
    case Prune(n) => s.(counters := s.counters - {n})
    case Tick(t) => s.(now := t)
  }

  ghost function Init(now: int, ttl: int): State { State(map[], map[], {}, {}, {}, now, ttl) }

  /** A run: every step enabled in the state before it. */
  ghost predicate IsRun(s: State, steps: seq<Step>)
    decreases |steps|
  {
    steps != [] ==> Enabled(s, steps[0]) && IsRun(Do(s, steps[0]), steps[1..])
  }

  ghost function After(s: State, steps: seq<Step>): State
    requires IsRun(s, steps)
    decreases |steps|
  {
    if steps == [] then s else After(Do(s, steps[0]), steps[1..])
  }

  // ---------------------------------------------------------------- every copy stems from a minted mutation

  /** e is a copy of mutation mut minted at e's version; tombstones lapse at a time of their own. */
  ghost predicate CopyOf(e: Entry, mut: Mutation)
  {
    match mut
    case DelMut => e == Tombstone(e.version, e.expireAt)
    case _ => e == EntryOf(e.version, mut)
  }

  ghost predicate Minted(s: State, e: Entry)
  {
    exists mut :: (e.version, mut) in s.minted && CopyOf(e, mut)
  }

  ghost predicate WireMinted(s: State, msg: Wire)
  {
    match msg
    case Apply(e) => Minted(s, e) && !e.IsTombstone()
    case Repair(e) => Minted(s, e) && !e.IsTombstone()
    case ApplyDelete(v) => (v, DelMut) in s.minted
  }

  ghost predicate Inv(s: State)
  {
    && (forall n :: n in s.slots ==> Minted(s, s.slots[n]))
    && (forall msg :: msg in s.wire ==> WireMinted(s, msg))
    && (forall p :: p in s.pending ==> (p.version, p.mut) in s.minted)
  }

  lemma {:induction false} EntryOfMinted(s: State, v: uint64, mut: Mutation)
    requires (v, mut) in s.minted
    ensures Minted(s, EntryOf(v, mut))
  {
    assert CopyOf(EntryOf(v, mut), mut);
  }

  lemma {:induction false} TombstoneMinted(s: State, v: uint64, expireAt: int)
    requires (v, DelMut) in s.minted
    ensures Minted(s, Tombstone(v, expireAt))
  {
    assert CopyOf(Tombstone(v, expireAt), DelMut);
  }

  /** Adding to the history, or leaving it alone, keeps old copies accounted for. */
  lemma {:induction false} MintedGrows(s: State, s': State, e: Entry)
    requires Minted(s, e) && s.minted <= s'.minted
    ensures Minted(s', e)
  {
  }

  lemma {:induction false} InvFrame(s: State, s': State)
    requires Inv(s) && s.minted <= s'.minted
    requires forall n :: n in s'.slots ==> Minted(s', s'.slots[n])
    requires forall msg :: msg in s'.wire ==> msg in s.wire || WireMinted(s', msg)
    requires s'.pending <= s.pending || forall p :: p in s'.pending ==> (p.version, p.mut) in s'.minted
    ensures Inv(s')
  {
    forall msg | msg in s'.wire ensures WireMinted(s', msg) {
      if msg in s.wire {
        assert WireMinted(s, msg);
        if msg.Apply? || msg.Repair? { MintedGrows(s, s', msg.e); }
      }
    }
  }

  lemma {:induction false} CommitInv(s: State, p: Pending, fits: bool)
    requires Inv(s) && p in s.pending
    ensures Inv(CommitState(s, p, fits))
  {
    var s' := CommitState(s, p, fits);
    EntryOfMinted(s, p.version, p.mut);
    if p.mut.DelMut? { TombstoneMinted(s, p.version, Lapse(s)); }
    forall n | n in s'.slots ensures Minted(s', s'.slots[n]) {
      if n in s.slots { MintedGrows(s, s', s.slots[n]); }
    }
    InvFrame(s, s');
  }

  lemma {:induction false} ReceiveInv(s: State, n: Node, msg: Wire, fits: bool)
    requires Inv(s) && msg in s.wire
    ensures Inv(ReceiveState(s, n, msg, fits))
  {
    var s' := ReceiveState(s, n, msg, fits);
    forall m | m in s'.slots
      ensures Minted(s', s'.slots[m])
    {
      ReceiveMinted(s, n, msg, fits, m);
    }
    InvFrame(s, s');
  }

  lemma {:induction false} ReceiveMinted(s: State, n: Node, msg: Wire, fits: bool, m: Node)
    requires Inv(s) && msg in s.wire && m in ReceiveState(s, n, msg, fits).slots
    ensures Minted(ReceiveState(s, n, msg, fits), ReceiveState(s, n, msg, fits).slots[m])
  {
    assert WireMinted(s, msg);
    if msg.ApplyDelete? {
      TombstoneMinted(s, msg.version, Lapse(s));
    }
    if m in s.slots {
      MintedGrows(s, ReceiveState(s, n, msg, fits), s.slots[m]);
    }
  }

  lemma {:induction false} StepInv(s: State, step: Step)
    requires Inv(s) && Enabled(s, step)
    ensures Inv(Do(s, step))
  {
    var s' := Do(s, step);
    match step
    case Commit(p, fits) => CommitInv(s, p, fits);
    case Receive(n, msg, fits) => ReceiveInv(s, n, msg, fits);
    case _ =>
      forall n | n in s'.slots ensures Minted(s', s'.slots[n]) {
        MintedGrows(s, s', s.slots[n]);
      }
      InvFrame(s, s');
  }

  // ---------------------------------------------------------------- fresh versions

  ghost predicate Used(minted: set<(uint64, Mutation)>, v: uint64) { exists mut :: (v, mut) in minted }

  /** The versions in the history are exactly 1..h, with one mutation each. */
  ghost predicate History(minted: set<(uint64, Mutation)>, h: uint64)
  {
    && (forall v: uint64 :: Used(minted, v) <==> 1 <= v <= h)
    && (forall v: uint64, m1, m2 :: (v, m1) in minted && (v, m2) in minted ==> m1 == m2)
  }

  ghost predicate CountersUpTo(counters: map<Node, uint64>, h: uint64)
  {
    forall n :: n in counters ==> counters[n] <= h
  }

  ghost predicate Numbered(s: State, h: uint64) { History(s.minted, h) && CountersUpTo(s.counters, h) }

  /** Minting at n now would use a version no mutation has had. */
  ghost predicate MintsFresh(s: State, n: Node)
  {
    !Used(s.minted, Successor(Seed(s, n)))
  }

  lemma {:induction false} MintedUpTo(s: State, h: uint64, e: Entry)
    requires Numbered(s, h) && Minted(s, e)
    ensures e.version <= h
  {
    assert Used(s.minted, e.version);
  }

  lemma {:induction false} SeedBounded(s: State, h: uint64, n: Node)
    requires Inv(s) && Numbered(s, h)
    ensures Seed(s, n) <= h
  {
    if n in s.slots {
      MintedUpTo(s, h, s.slots[n]);
    }
  }

  /**
   * Exactly when a mint is safe: the node's seed (its counter or its live copy)
   * has kept up with the highest version minted anywhere. A pruned counter, or a
   * second minting node that has not heard of the latest version, re-mints one.
   */
  lemma {:induction false} FreshIff(s: State, h: uint64, n: Node)
    requires Inv(s) && Numbered(s, h) && h < MAX_UINT64
    ensures MintsFresh(s, n) <==> Seed(s, n) == h
  {
    SeedBounded(s, h, n);
  }

  lemma {:induction false} MintHistory(minted: set<(uint64, Mutation)>, h: uint64, mut: Mutation)
    requires History(minted, h) && h < MAX_UINT64
    ensures History(minted + {(h + 1, mut)}, h + 1)
  {
    var minted' := minted + {(h + 1, mut)};
    forall v: uint64 ensures Used(minted', v) <==> 1 <= v <= h + 1 {
      if Used(minted', v) {
        var m :| (v, m) in minted';
        if (v, m) in minted { assert Used(minted, v); }
      }
      if 1 <= v <= h + 1 {
        if v == h + 1 {
          assert (v, mut) in minted';
        } else {
          assert Used(minted, v);
          var m :| (v, m) in minted;
          assert (v, m) in minted';
        }
      }
    }
    forall v: uint64, m1, m2 | (v, m1) in minted' && (v, m2) in minted' ensures m1 == m2 {
      if v == h + 1 {
        assert !Used(minted, v);
      }
    }
  }

  /** Commits leave counters and history alone. */
  lemma {:induction false} CommitFrame(s: State, p: Pending, fits: bool)
    ensures var s' := CommitState(s, p, fits);
            s'.counters == s.counters && s'.minted == s.minted && s'.now == s.now
  {
  }

  ghost function WireVersion(msg: Wire): uint64 { if msg.ApplyDelete? then msg.version else msg.e.version }

  /** A delivery can only raise the receiver's counter, to the delivered version. */
  lemma {:induction false} ReceiveFrame(s: State, n: Node, msg: Wire, fits: bool)
    ensures var s' := ReceiveState(s, n, msg, fits);
            && s'.minted == s.minted && s'.now == s.now
            && (s'.counters == s.counters ||
                s'.counters == s.counters[n := Max(Counter(s, n), WireVersion(msg))])
  {
  }

  lemma {:induction false} WireUpTo(s: State, h: uint64, msg: Wire)
    requires Inv(s) && Numbered(s, h) && msg in s.wire
    ensures WireVersion(msg) <= h
  {
    assert WireMinted(s, msg);
    if msg.ApplyDelete? {
      assert Used(s.minted, msg.version);
    } else {
      MintedUpTo(s, h, msg.e);
    }
  }

  /** The numbering after a step: minting uses the next number, nothing else touches it. */
  function Next(h: uint64, step: Step): uint64 { if step.Mint? then Successor(h) else h }

  lemma {:induction false} StepNumbered(s: State, h: uint64, step: Step)
    requires Inv(s) && Numbered(s, h) && Enabled(s, step)
    requires step.Mint? ==> Seed(s, step.node) == h && h < MAX_UINT64
    ensures Numbered(Do(s, step), Next(h, step))
  {
    match step
    case Mint(n, mut) => MintHistory(s.minted, h, mut);
    case Commit(p, fits) => CommitFrame(s, p, fits);
    case Receive(n, msg, fits) =>
      ReceiveFrame(s, n, msg, fits);
      WireUpTo(s, h, msg);
    case _ =>
  }

  // ---------------------------------------------------------------- agreement over runs

  /** Same value, or both tombstones: the copies may differ only in when a tombstone lapses. */
  ghost predicate SameContent(a: Entry, b: Entry)
  {
    a.value == b.value && a.flags == b.flags && (a.IsTombstone() || a.expireAt == b.expireAt)
  }

  ghost predicate Agreement(s: State)
  {
    forall n, m :: n in s.slots && m in s.slots && s.slots[n].version == s.slots[m].version ==>
      SameContent(s.slots[n], s.slots[m])
  }

  lemma {:induction false} NumberedAgrees(s: State, h: uint64)
    requires Inv(s) && Numbered(s, h)
    ensures Agreement(s)
  {
    forall n, m | n in s.slots && m in s.slots && s.slots[n].version == s.slots[m].version
      ensures SameContent(s.slots[n], s.slots[m])
    {
      assert Minted(s, s.slots[n]) && Minted(s, s.slots[m]);
    }
  }

  /** Every mint of the run starts from a seed that has kept up. */
  ghost predicate WellSeeded(s: State, h: uint64, steps: seq<Step>)
    requires IsRun(s, steps)
    decreases |steps|
  {
    steps != [] ==>
      && (steps[0].Mint? ==> Seed(s, steps[0].node) == h && h < MAX_UINT64)
      && WellSeeded(Do(s, steps[0]), Next(h, steps[0]), steps[1..])
  }

  /**
   * Agreement in every run, with any number of minting nodes and with pruning, as
   * long as each mint is well seeded.
   */
  lemma {:induction false} SeededRunAgrees(s: State, h: uint64, steps: seq<Step>)
    requires Inv(s) && Numbered(s, h) && IsRun(s, steps) && WellSeeded(s, h, steps)
    ensures Inv(After(s, steps)) && Agreement(After(s, steps))
    decreases |steps|
  {
    if steps == [] {
      NumberedAgrees(s, h);
    } else {
      StepInv(s, steps[0]);
      StepNumbered(s, h, steps[0]);
      SeededRunAgrees(Do(s, steps[0]), Next(h, steps[0]), steps[1..]);
    }
  }

  /** One stable owner whose counter is never pruned. */
  ghost predicate OwnerOnly(steps: seq<Step>, owner: Node)
  {
    forall i :: 0 <= i < |steps| ==>
      && (steps[i].Mint? ==> steps[i].node == owner)
      && steps[i] != Prune(owner)
  }

  lemma {:induction false} OwnerKeepsUp(s: State, h: uint64, step: Step, owner: Node)
    requires Inv(s) && Numbered(s, h) && Enabled(s, step) && Counter(s, owner) == h
    requires (step.Mint? ==> step.node == owner && h < MAX_UINT64) && step != Prune(owner)
    ensures Counter(Do(s, step), owner) == Next(h, step)
  {
    SeedBounded(s, h, owner);
    match step
    case Commit(p, fits) => CommitFrame(s, p, fits);
    case Receive(n, msg, fits) =>
      ReceiveFrame(s, n, msg, fits);
      WireUpTo(s, h, msg);
    case _ =>
  }

  lemma {:induction false} OwnerRunSeeded(s: State, h: uint64, steps: seq<Step>, owner: Node)
    requires Inv(s) && Numbered(s, h) && IsRun(s, steps) && Counter(s, owner) == h
    requires OwnerOnly(steps, owner) && h + |steps| <= MAX_UINT64
    ensures WellSeeded(s, h, steps)
    decreases |steps|
  {
    if steps != [] {
      SeedBounded(s, h, owner);
      OwnerKeepsUp(s, h, steps[0], owner);
      StepInv(s, steps[0]);
      StepNumbered(s, h, steps[0]);
      OwnerRunSeeded(Do(s, steps[0]), Next(h, steps[0]), steps[1..], owner);
    }
  }

  /**
   * The protocol's safety: with one stable owner that keeps its counter, in every
   * interleaving of mints, commits, fan-out, repeated or late delivery, hint
   * replay, read repair, expiry and eviction, any two nodes that hold the key at
   * the same version hold the same value or are both tombstones.
   */
  lemma {:induction false} OwnerRunAgrees(now: int, ttl: int, steps: seq<Step>, owner: Node)
    requires IsRun(Init(now, ttl), steps) && OwnerOnly(steps, owner) && |steps| <= MAX_UINT64
    ensures Agreement(After(Init(now, ttl), steps))
  {
    var s := Init(now, ttl);
    assert Numbered(s, 0);
    OwnerRunSeeded(s, 0, steps, owner);
    SeededRunAgrees(s, 0, steps);
  }

  lemma {:induction false} CommitKeepsVersion(s: State, p: Pending, fits: bool, n: Node)
    requires LiveSlot(SlotAt(s, n), s.now)
    ensures var s' := CommitState(s, p, fits); n in s'.slots && s.slots[n].version <= s'.slots[n].version
  {
  }

  lemma {:induction false} ReceiveKeepsVersion(s: State, to: Node, msg: Wire, fits: bool, n: Node)
    requires LiveSlot(SlotAt(s, n), s.now)
    ensures var s' := ReceiveState(s, to, msg, fits); n in s'.slots && s.slots[n].version <= s'.slots[n].version
  {
  }

  /** While a copy is live, no step but a drop makes its node hold an older version. */
  lemma {:induction false} LiveVersionNeverDecreases(s: State, step: Step, n: Node)
    requires Enabled(s, step) && LiveSlot(SlotAt(s, n), s.now) && step != Drop(n)
    ensures n in Do(s, step).slots && s.slots[n].version <= Do(s, step).slots[n].version
  {
    match step
    case Commit(p, fits) => CommitKeepsVersion(s, p, fits, n);
    case Receive(to, msg, fits) => ReceiveKeepsVersion(s, to, msg, fits, n);
    case _ =>
  }

  // ---------------------------------------------------------------- the two ways it fails

  lemma {:induction false} Prepend(s: State, step: Step, rest: seq<Step>)
    requires Enabled(s, step) && IsRun(Do(s, step), rest)
    ensures IsRun(s, [step] + rest) && After(s, [step] + rest) == After(Do(s, step), rest)
  {
    assert ([step] + rest)[1..] == rest;
  }

  /** A node without entry or counter mints version 1 and applies the put. */
  lemma {:induction false} FirstPut(s: State, n: Node, value: Bytes, rest: seq<Step>) returns (s': State, steps: seq<Step>)
    requires n !in s.slots && n !in s.counters
    requires IsRun(FirstPutState(s, n, value), rest)
    ensures s' == FirstPutState(s, n, value)
    ensures |steps| == 2 + |rest| && steps[2..] == rest && steps[0] == Mint(n, PutMut(value, 0)) && steps[1].Commit?
    ensures IsRun(s, steps) && After(s, steps) == After(s', rest)
  {
    var mint, commit := Mint(n, PutMut(value, 0)), Commit(Pending(n, 1, PutMut(value, 0)), true);
    s' := FirstPutState(s, n, value);
    assert Do(Do(s, mint), commit) == s';
    Prepend(Do(s, mint), commit, rest);
    Prepend(s, mint, [commit] + rest);
    steps := [mint] + ([commit] + rest);
  }

  ghost function FirstPutState(s: State, n: Node, value: Bytes): State
  {
    var p := Pending(n, 1, PutMut(value, 0));
    s.(slots := s.slots[n := Entry(value, 1, 0, {})], counters := s.counters[n := 1],
       pending := s.pending + {p} - {p},
       wire := s.wire + {Apply(Entry(value, 1, 0, {}))}, minted := s.minted + {(1, PutMut(value, 0))})
  }

  ghost predicate MintsAt(steps: seq<Step>, n: Node)
  {
    forall i :: 0 <= i < |steps| && steps[i].Mint? ==> steps[i].node == n
  }

  lemma {:induction false} PrunedRemint(s: State, a: Bytes, b: Bytes) returns (steps: seq<Step>)
    requires a != b && s.counters.Keys <= {0, 1} && s.slots == map[0 := Entry(a, 1, 0, {}), 1 := Entry(a, 1, 0, {})]
    ensures IsRun(s, steps) && MintsAt(steps, 0) && !Agreement(After(s, steps))
  {
    var s1 := Do(s, Drop(0));
    var s2 := Do(s1, Prune(0));
    var s3, again := FirstPut(s2, 0, b, []);
    assert s3.slots[0] == Entry(b, 1, 0, {}) && s3.slots[1] == Entry(a, 1, 0, {});
    assert !Agreement(s3);
    Prepend(s1, Prune(0), again);
    Prepend(s, Drop(0), [Prune(0)] + again);
    steps := [Drop(0)] + ([Prune(0)] + again);
  }

  /** With the counter pruned after the entry is gone, version 1 is minted twice. */
  lemma {:induction false} PruningBreaksAgreement(now: int, ttl: int, a: Bytes, b: Bytes) returns (steps: seq<Step>)
    requires a != b
    ensures IsRun(Init(now, ttl), steps) && MintsAt(steps, 0)
    ensures !Agreement(After(Init(now, ttl), steps))
  {
    var s0 := Init(now, ttl);
    var deliver := Receive(1, Apply(Entry(a, 1, 0, {})), true);
    var s2 := FirstPutState(s0, 0, a);
    var rest := PrunedRemint(Do(s2, deliver), a, b);
    Prepend(s2, deliver, rest);
    var _, all := FirstPut(s0, 0, a, [deliver] + rest);
    steps := all;
    forall i | 0 <= i < |steps| && steps[i].Mint? ensures steps[i].node == 0 {
      if i >= 2 { assert steps[i] == ([deliver] + rest)[i - 2]; }
    }
  }

  /** When a second node mints because it could not reach the owner, both use version 1. */
  lemma {:induction false} SecondMinterBreaksAgreement(now: int, ttl: int, a: Bytes, b: Bytes) returns (steps: seq<Step>)
    requires a != b
    ensures IsRun(Init(now, ttl), steps)
    ensures forall i :: 0 <= i < |steps| ==> !steps[i].Prune?
    ensures !Agreement(After(Init(now, ttl), steps))
  {
    var pa, pb := Pending(0, 1, PutMut(a, 0)), Pending(1, 1, PutMut(b, 0));
    var s0 := Init(now, ttl);
    var s1 := Do(s0, Mint(0, PutMut(a, 0)));
    var s2 := Do(s1, Mint(1, PutMut(b, 0)));
    var s3 := Do(s2, Commit(pa, true));
    var s4 := Do(s3, Commit(pb, true));
    Prepend(s3, Commit(pb, true), []);
    steps := [Commit(pb, true)];
    Prepend(s2, Commit(pa, true), steps);
    steps := [Commit(pa, true)] + steps;
    Prepend(s1, Mint(1, PutMut(b, 0)), steps);
    steps := [Mint(1, PutMut(b, 0))] + steps;
    Prepend(s0, Mint(0, PutMut(a, 0)), steps);
    steps := [Mint(0, PutMut(a, 0))] + steps;
    assert s4.slots[0] == Entry(a, 1, 0, {}) && s4.slots[1] == Entry(b, 1, 0, {});
  }
}
