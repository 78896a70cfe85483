/** Top-K tables kept in the store: one long-lived table, seen through its snapshots. */
module TopKRuns {
  import opened Basics
  import opened Ordering
  import opened Entries
  import opened Stores
  import opened Structures
  import opened StoreRuns
  import SpaceSaving
  import TopK

  /**
   * A step of a run on key k: an observation, an install of a whole table, a delete at a version, or a removal; or anything
   * at all on another key.
   */
  datatype Act =
    | Observe(item: Bytes, version: uint64, expireAt: int, now: int)
    | Install(blob: Bytes, version: uint64, expireAt: int, now: int)
    | Bury(version: uint64, now: int)
    | Drop(now: int)
    | Other(ev: Event)
  {
    function Now(): int { if Other? then ev.now else now }
  }

  ghost predicate Legal(act: Act, k: Key)
  {
    match act
    case Observe(item, _, _, _) => |item| <= MAX_UINT64
    case Other(ev) => ev.op.k != k
    case _ => true
  }

  /** The acts are legal and come in order, the first not before t. */
  ghost predicate Orderly(acts: seq<Act>, k: Key, t: int)
    decreases |acts|
  {
    acts == [] || (Legal(acts[0], k) && t <= acts[0].Now() && Orderly(acts[1..], k, acts[0].Now()))
  }

  function EndOf(acts: seq<Act>, t: int): int { if acts == [] then t else acts[|acts| - 1].Now() }

  ghost function DoAct(s: Store, k: Key, size: nat, maxValue: int, act: Act): (r: Store)
    requires Valid(s)
    ensures Valid(r) && r.tombstoneTTL == s.tombstoneTTL
  {
    match act
    case Observe(item, version, expireAt, now) =>
      TopKAddLocal(s, k, item, version, expireAt, size, maxValue, now);
      TopKAdd(s, k, item, version, expireAt, size, maxValue, now).store
    case Install(blob, version, expireAt, now) =>
      TopKInstallEffect(s, k, blob, version, expireAt, size, now);
      TopKInstall(s, k, blob, version, expireAt, size, now).0
    case Bury(version, now) =>
      DeleteVersionEffect(s, k, version, now);
      DeleteIfVersion(s, k, version, now).0
    case Drop(now) =>
      StepLocal(s, DeleteOp(k), now);
      Delete(s, k).0
    case Other(ev) =>
      StepLocal(s, ev.op, ev.now);
      Step(s, ev.op, ev.now)
  }

  ghost function RunActs(s: Store, k: Key, size: nat, maxValue: int, acts: seq<Act>): (r: Store)
    requires Valid(s)
    ensures Valid(r)
    decreases |acts|
  {
    if acts == [] then s else RunActs(DoAct(s, k, size, maxValue, acts[0]), k, size, maxValue, acts[1..])
  }

  // ---------------------------------------------------------------- one table

  /** What the key stands for: nothing, a delete marker, or a table with its version; and when its time is up, 0 for never. */
  datatype Life = Nothing | Marker(version: uint64, until: int) | Table(counts: SpaceSaving.Counts, version: uint64, until: int)
  {
    predicate Over(now: int) { Nothing? || (until != 0 && now >= until) }
  }

  /** One more observation, unless the table rejects it or its encoding would pass the value limit. */
  ghost function Counted(size: nat, maxValue: int, m: SpaceSaving.Counts, item: Bytes): Option<SpaceSaving.Counts>
    requires 1 <= size
  {
    match SpaceSaving.Add(m, size, SpaceSaving.Term(item))
    case None => None
    case Some(m') => if maxValue > 0 && |TopK.Encode(m')| > maxValue then None else Some(m')
  }

  /**
   * An observation is taken by the table that lives, or starts a new one; a marker lets it in only at a higher version, and
   * only a given expiry moves the one that is there. A table is installed over what is older, and buried by what is not.
   */
  ghost function Next(size: nat, maxValue: int, ttl: int, l: Life, act: Act): Life
    requires 1 <= size
  {
    match act
    case Observe(item, version, expireAt, now) =>
      if l.Marker? && !l.Over(now) && version <= l.version then l
      else
        var base := if l.Table? && !l.Over(now) then l.counts else map[];
        (match Counted(size, maxValue, base, item)
         case None => l
         case Some(m) =>
           if l.Over(now) then Table(m, 1, expireAt)
           else Table(m, Bump(l.version), if expireAt != 0 then expireAt else l.until))
    case Install(blob, version, expireAt, now) =>
      (match TopK.DecodeInto(blob, size, [])
       case None => l
       case Some(rows) =>
         if !l.Over(now) && version <= l.version then l else Table(TopK.CountsOf(rows), version, expireAt))
    case Bury(version, now) =>
      if !l.Over(now) && version < l.version then l else Marker(version, if ttl <= 0 then 0 else now + ttl)
    case Drop(_) => Nothing
    case Other(_) => l
  }

  ghost function Lived(size: nat, maxValue: int, ttl: int, l: Life, acts: seq<Act>): Life
    requires 1 <= size
    decreases |acts|
  {
    if acts == [] then l else Lived(size, maxValue, ttl, Next(size, maxValue, ttl, l, acts[0]), acts[1..])
  }

  /** The entry stands for l: a tombstone, or a blob that decodes to the table's counts. */
  ghost predicate Snapshot(e: Entry, size: nat, l: Life)
  {
    match l
    case Nothing => false
    case Marker(version, until) => e.flags == {FlagTombstone} && e.version == version && e.expireAt == until
    case Table(counts, version, until) =>
      && e.flags == {FlagTopK} && e.version == version && e.expireAt == until
      && TopK.DecodeInto(e.value, size, []).Some? && TopK.CountsOf(TopK.DecodeInto(e.value, size, []).value) == counts
  }

  ghost predicate Charted(s: Store, k: Key, size: nat, l: Life, now: int)
  {
    if l.Over(now) then !Live(s, k, now) else k in s.items && Snapshot(s.items[k].entry, size, l)
  }

  lemma {:induction false} ChartedLater(s: Store, k: Key, size: nat, l: Life, now: int, later: int)
    requires Charted(s, k, size, l, now) && now <= later
    ensures Charted(s, k, size, l, later)
  {
  }

  lemma {:induction false} InstalledCharts(s: Store, r: Store, k: Key, it: Item, size: nat, l: Life, now: int)
    requires Installed(s, r, k, it, now) && Snapshot(it.entry, size, l)
    ensures Charted(r, k, size, l, now)
  {
  }

  /** Through the blob, one observation is one Add. */
  lemma {:induction false} BlobCounts(cur: Bytes, size: nat, maxValue: int, item: Bytes)
    requires 1 <= size && |item| <= MAX_UINT64 && TopK.DecodeInto(cur, size, []).Some?
    ensures var m := TopK.CountsOf(TopK.DecodeInto(cur, size, []).value);
            var r := TopK.ApplyBlob(cur, SpaceSaving.Term(item), size, maxValue);
            match Counted(size, maxValue, m, item)
            case None => !r.Applied?
            case Some(m') => r == TopK.Applied(TopK.Encode(m')) && Encodes(TopK.Encode(m'), size, m')
  {
    var m := TopK.CountsOf(TopK.DecodeInto(cur, size, []).value);
    TopK.DecodedTable(cur, size);
    if SpaceSaving.Add(m, size, SpaceSaving.Term(item)).Some? {
      TopK.AddKeepsItems(m, size, SpaceSaving.Term(item), MAX_UINT64);
      EncodedDecodes(SpaceSaving.Add(m, size, SpaceSaving.Term(item)).value, size);
    }
  }

  ghost predicate Encodes(blob: Bytes, size: nat, m: SpaceSaving.Counts)
  {
    TopK.DecodeInto(blob, size, []).Some? && TopK.CountsOf(TopK.DecodeInto(blob, size, []).value) == m
  }

  lemma {:induction false} EncodedDecodes(m: SpaceSaving.Counts, size: nat)
    requires |m| <= size && TopK.ItemsWithin(m, MAX_UINT64)
    ensures Encodes(TopK.Encode(m), size, m)
  {
    TopK.TableRoundTrip(m, size);
  }

  lemma {:induction false} EmptyDecodes(size: nat)
    ensures Encodes([], size, map[])
  {
  }

  /** Nothing there, or nothing any more: the observation starts a table. */
  lemma {:induction false} FirstCharts(s: Store, k: Key, l: Life, size: nat, maxValue: int, act: Act)
    requires Valid(s) && 1 <= size && act.Observe? && Legal(act, k) && Charted(s, k, size, l, act.now) && l.Over(act.now)
    requires act.item != []
    ensures Charted(DoAct(s, k, size, maxValue, act), k, size, Next(size, maxValue, s.tombstoneTTL, l, act), act.now)
  {
    EmptyDecodes(size);
    BlobCounts([], size, maxValue, act.item);
    var base := if k in s.items then Remove(s, k) else s;
    if k in s.items {
      RemoveValid(s, k);
    }
    TopKInsertEffect(base, k, act.item, act.expireAt, size, maxValue, act.now);
    FreshAdd(s, k, act.item, act.version, act.expireAt, size, maxValue, act.now);
    var l' := Next(size, maxValue, s.tombstoneTTL, l, act);
    if l' != l {
      InstalledCharts(base, DoAct(s, k, size, maxValue, act), k,
                      Plain(k, Entry(TopK.Encode(l'.counts), 1, act.expireAt, {FlagTopK})), size, l', act.now);
    }
  }

  /** Something there: the observation goes through its blob, or starts afresh over a marker. */
  lemma {:induction false} LaterCharts(s: Store, k: Key, l: Life, size: nat, maxValue: int, act: Act)
    requires Valid(s) && 1 <= size && act.Observe? && Legal(act, k) && Charted(s, k, size, l, act.now) && !l.Over(act.now)
    requires act.item != [] && !(l.Marker? && act.version <= l.version)
    ensures Charted(DoAct(s, k, size, maxValue, act), k, size, Next(size, maxValue, s.tombstoneTTL, l, act), act.now)
  {
    var e := s.items[k].entry;
    var cur := if l.Marker? then [] else e.value;
    EmptyDecodes(size);
    BlobCounts(cur, size, maxValue, act.item);
    TopKReplaceEffect(s, k, cur, act.item, Bump(e.version), act.expireAt, size, maxValue, act.now);
    if l.Marker? {
      BuriedAdd(s, k, act.item, act.version, act.expireAt, size, maxValue, act.now);
    } else {
      LiveAdd(s, k, act.item, act.version, act.expireAt, size, maxValue, act.now);
    }
    var l' := Next(size, maxValue, s.tombstoneTTL, l, act);
    if l' != l {
      var e' := Entry(TopK.Encode(l'.counts), l'.version, l'.until, {FlagTopK});
      InstalledCharts(s, DoAct(s, k, size, maxValue, act), k, s.items[k].(entry := e', cost := EntryCost(k, e')), size, l',
                      act.now);
    }
  }

  lemma {:induction false} FreshAdd(s: Store, k: Key, item: Bytes, version: uint64, expireAt: int, size: nat, maxValue: int, now: int)
    requires Valid(s) && 1 <= size && item != [] && !Live(s, k, now)
    ensures var base := if k in s.items then Remove(s, k) else s;
            Valid(base) && TopKAdd(s, k, item, version, expireAt, size, maxValue, now) ==
                           TopKInsert(base, k, item, expireAt, size, maxValue, now)
  {
    if k in s.items {
      RemoveValid(s, k);
    }
  }

  lemma {:induction false} LiveAdd(s: Store, k: Key, item: Bytes, version: uint64, expireAt: int, size: nat, maxValue: int, now: int)
    requires Valid(s) && 1 <= size && item != [] && Live(s, k, now) && s.items[k].entry.flags == {FlagTopK}
    ensures TopKAdd(s, k, item, version, expireAt, size, maxValue, now) ==
            TopKReplace(s, k, s.items[k].entry.value, item, Bump(s.items[k].entry.version), expireAt, size, maxValue, now)
  {
  }

  lemma {:induction false} BuriedAdd(s: Store, k: Key, item: Bytes, version: uint64, expireAt: int, size: nat, maxValue: int, now: int)
    requires Valid(s) && 1 <= size && item != [] && Live(s, k, now) && s.items[k].entry.flags == {FlagTombstone}
    requires version > s.items[k].entry.version
    ensures TopKAdd(s, k, item, version, expireAt, size, maxValue, now) ==
            TopKReplace(s, k, [], item, Bump(s.items[k].entry.version), expireAt, size, maxValue, now)
  {
  }

  lemma {:induction false} ObserveCharts(s: Store, k: Key, l: Life, size: nat, maxValue: int, act: Act)
    requires Valid(s) && 1 <= size && act.Observe? && Legal(act, k) && Charted(s, k, size, l, act.now)
    ensures Charted(DoAct(s, k, size, maxValue, act), k, size, Next(size, maxValue, s.tombstoneTTL, l, act), act.now)
  {
    if act.item != [] {
      if l.Over(act.now) {
        FirstCharts(s, k, l, size, maxValue, act);
      } else if !(l.Marker? && act.version <= l.version) {
        LaterCharts(s, k, l, size, maxValue, act);
      }
    }
  }

  lemma {:induction false} InstallCharts(s: Store, k: Key, l: Life, size: nat, maxValue: int, act: Act)
    requires Valid(s) && 1 <= size && act.Install? && Charted(s, k, size, l, act.now)
    ensures Charted(DoAct(s, k, size, maxValue, act), k, size, Next(size, maxValue, s.tombstoneTTL, l, act), act.now)
  {
    var r, l' := DoAct(s, k, size, maxValue, act), Next(size, maxValue, s.tombstoneTTL, l, act);
    TopKInstallIs(s, k, act.blob, act.version, act.expireAt, size, act.now);
    if TopK.DecodeInto(act.blob, size, []).Some? && !(Live(s, k, act.now) && act.version <= s.items[k].entry.version) {
      InstalledCharts(s, r, k, Plain(k, Entry(act.blob, act.version, act.expireAt, {FlagTopK})), size, l', act.now);
    }
  }

  lemma {:induction false} TopKInstallIs(s: Store, k: Key, blob: Bytes, version: uint64, expireAt: int, size: nat, now: int)
    requires Valid(s) && 1 <= size
    ensures var r := TopKInstall(s, k, blob, version, expireAt, size, now).0;
            if TopK.DecodeInto(blob, size, []).None? || (Live(s, k, now) && version <= s.items[k].entry.version) then r == s
            else Installed(s, r, k, Plain(k, Entry(blob, version, expireAt, {FlagTopK})), now)
  {
    if k in s.items {
      ReplaceEvictLocal(s, k, Plain(k, Entry(blob, version, expireAt, {FlagTopK})), now);
    } else {
      InstallEvictLocal(s, k, Plain(k, Entry(blob, version, expireAt, {FlagTopK})), now);
    }
  }

  lemma {:induction false} BuryCharts(s: Store, k: Key, l: Life, size: nat, maxValue: int, act: Act)
    requires Valid(s) && 1 <= size && act.Bury? && Charted(s, k, size, l, act.now)
    ensures Charted(DoAct(s, k, size, maxValue, act), k, size, Next(size, maxValue, s.tombstoneTTL, l, act), act.now)
  {
    var r, l' := DoAct(s, k, size, maxValue, act), Next(size, maxValue, s.tombstoneTTL, l, act);
    DeleteVersionEffect(s, k, act.version, act.now);
    if DeleteIfVersion(s, k, act.version, act.now).1 {
      InstalledCharts(s, r, k, Overwrite(s, k, TombstoneOf(s, act.version, act.now)), size, l', act.now);
    }
  }

  lemma {:induction false} OtherCharts(s: Store, k: Key, l: Life, size: nat, ev: Event)
    requires Valid(s) && ev.op.k != k && Charted(s, k, size, l, ev.now)
    ensures Charted(Step(s, ev.op, ev.now), k, size, l, ev.now)
  {
    StepLocal(s, ev.op, ev.now);
    assert Undisturbed(s, Step(s, ev.op, ev.now), k, ev.now);
  }

  lemma {:induction false} ActCharts(s: Store, k: Key, l: Life, size: nat, maxValue: int, act: Act)
    requires Valid(s) && 1 <= size && Legal(act, k) && Charted(s, k, size, l, act.Now())
    ensures Charted(DoAct(s, k, size, maxValue, act), k, size, Next(size, maxValue, s.tombstoneTTL, l, act), act.Now())
  {
    match act
    case Observe(_, _, _, _) => ObserveCharts(s, k, l, size, maxValue, act);
    case Install(_, _, _, _) => InstallCharts(s, k, l, size, maxValue, act);
    case Bury(_, _) => BuryCharts(s, k, l, size, maxValue, act);
    case Drop(_) =>
    case Other(ev) => OtherCharts(s, k, l, size, ev);
  }

  /**
   * However the observations, installs, deletes and removals of a key, with or without expiries, are interleaved with work
   * on other keys: while its time lasts the key holds a blob that decodes to one table that took them all in order, at its
   * version, or the delete marker that ended it. Nothing is lost, evicted or counted twice.
   */
  lemma {:induction false} StoreRunIsOneTable(s: Store, k: Key, l: Life, size: nat, maxValue: int, acts: seq<Act>, t: int)
    requires Valid(s) && 1 <= size && Orderly(acts, k, t) && Charted(s, k, size, l, t)
    ensures Charted(RunActs(s, k, size, maxValue, acts), k, size, Lived(size, maxValue, s.tombstoneTTL, l, acts), EndOf(acts, t))
    decreases |acts|
  {
    if acts != [] {
      var act, rest := acts[0], acts[1..];
      var s', l' := DoAct(s, k, size, maxValue, act), Next(size, maxValue, s.tombstoneTTL, l, act);
      assert Charted(s', k, size, l', act.Now()) by {
        ChartedLater(s, k, size, l, t, act.Now());
        ActCharts(s, k, l, size, maxValue, act);
      }
      StoreRunIsOneTable(s', k, l', size, maxValue, rest, act.Now());
      RunUnrolled(s, k, size, maxValue, acts);
      LifeUnrolled(size, maxValue, s.tombstoneTTL, l, acts, t);
    }
  }

  lemma {:induction false} RunUnrolled(s: Store, k: Key, size: nat, maxValue: int, acts: seq<Act>)
    requires Valid(s) && 1 <= size && acts != []
    ensures RunActs(s, k, size, maxValue, acts) == RunActs(DoAct(s, k, size, maxValue, acts[0]), k, size, maxValue, acts[1..])
  {
  }

  lemma {:induction false} LifeUnrolled(size: nat, maxValue: int, ttl: int, l: Life, acts: seq<Act>, t: int)
    requires 1 <= size && acts != []
    ensures Lived(size, maxValue, ttl, l, acts) == Lived(size, maxValue, ttl, Next(size, maxValue, ttl, l, acts[0]), acts[1..])
    ensures EndOf(acts, t) == EndOf(acts[1..], acts[0].Now())
  {
  }

  lemma {:induction false} ReadCharted(s: Store, k: Key, size: nat, l: Life, now: int)
    requires Valid(s) && Charted(s, k, size, l, now)
    ensures if l.Over(now) || l.Marker? then Get(s, k, now).1.None?
            else Get(s, k, now).1.Some? && Snapshot(Get(s, k, now).1.value, size, l)
  {
  }

  /** So a read of the key, at any time from then on, finds the table, or that it was deleted or that its time is up. */
  lemma {:induction false} ReadFindsTable(s: Store, k: Key, size: nat, maxValue: int, acts: seq<Act>, t: int, later: int)
    requires Valid(s) && k !in s.items && 1 <= size && Orderly(acts, k, t) && EndOf(acts, t) <= later
    ensures var l := Lived(size, maxValue, s.tombstoneTTL, Nothing, acts);
            var e := Get(RunActs(s, k, size, maxValue, acts), k, later).1;
            if l.Over(later) || l.Marker? then e.None? else e.Some? && Snapshot(e.value, size, l)
  {
    var l, r := Lived(size, maxValue, s.tombstoneTTL, Nothing, acts), RunActs(s, k, size, maxValue, acts);
    StoreRunIsOneTable(s, k, Nothing, size, maxValue, acts, t);
    ChartedLater(r, k, size, l, EndOf(acts, t), later);
    ReadCharted(r, k, size, l, later);
  }

  // ---------------------------------------------------------------- observations only

  /** The limits under which the keyspace admits a Top-K mode: the worst case fits a value. */
  ghost predicate Admitted(size: nat, maxItem: nat, maxValue: int)
  {
    && 1 <= size && maxItem <= MAX_UINT64
    && (maxValue <= 0 || TopK.WorstSize(size, maxItem) <= maxValue)
  }

  /** The run only observes, without expiries, items of the admitted length. */
  predicate Permanent(acts: seq<Act>, maxItem: nat)
    decreases |acts|
  {
    acts == [] ||
    (&& (acts[0].Other? || (acts[0].Observe? && |acts[0].item| <= maxItem && acts[0].expireAt == 0))
     && Permanent(acts[1..], maxItem))
  }

  function Observations(acts: seq<Act>): seq<SpaceSaving.Term>
  {
    if acts == [] then []
    else (if acts[0].Observe? then [SpaceSaving.Term(acts[0].item)] else []) + Observations(acts[1..])
  }

  /** A table that saw a stream, at the version that counts what it accepted. */
  ghost function OfStream(size: nat, obs: seq<SpaceSaving.Term>): Life
    requires 1 <= size
  {
    var t := SpaceSaving.Run(size, obs);
    if t.accepted == [] then Nothing else Table(t.counts, |t.accepted| % 0x1_0000_0000_0000_0000, 0)
  }

  ghost predicate Within(obs: seq<SpaceSaving.Term>, maxItem: nat)
  {
    forall i :: 0 <= i < |obs| ==> |obs[i].bytes| <= maxItem
  }

  /** An admitted mode never meets the value limit. */
  lemma {:induction false} NeverTooLarge(size: nat, maxItem: nat, maxValue: int, obs: seq<SpaceSaving.Term>, item: Bytes)
    requires Admitted(size, maxItem, maxValue) && Within(obs, maxItem) && |item| <= maxItem
    ensures var m := SpaceSaving.Run(size, obs).counts;
            Counted(size, maxValue, m, item) == SpaceSaving.Add(m, size, SpaceSaving.Term(item))
  {
    TopK.PipelineIsOneTable(size, obs, maxItem, maxValue);
    TopK.AddFits(SpaceSaving.Run(size, obs).counts, size, SpaceSaving.Term(item), maxItem, maxValue);
  }

  lemma {:induction false} StreamGrows(size: nat, obs: seq<SpaceSaving.Term>, item: SpaceSaving.Term)
    requires 1 <= size
    ensures var t, u := SpaceSaving.Run(size, obs), SpaceSaving.Run(size, obs + [item]);
            match SpaceSaving.Add(t.counts, size, item)
            case None => u == t
            case Some(m) => u.counts == m && |u.accepted| == |t.accepted| + 1
  {
    assert (obs + [item])[..|obs|] == obs;
  }

  lemma {:induction false} NoneAccepted(size: nat, obs: seq<SpaceSaving.Term>)
    requires 1 <= size && SpaceSaving.Run(size, obs).accepted == []
    ensures SpaceSaving.Run(size, obs).counts == map[]
    decreases |obs|
  {
    if obs != [] {
      NoneAccepted(size, obs[..|obs| - 1]);
    }
  }

  lemma {:induction false} SeenOfStream(size: nat, maxItem: nat, maxValue: int, ttl: int, obs: seq<SpaceSaving.Term>, act: Act)
    requires Admitted(size, maxItem, maxValue) && Within(obs, maxItem)
    requires act.Observe? && |act.item| <= maxItem && act.expireAt == 0
    ensures Next(size, maxValue, ttl, OfStream(size, obs), act) == OfStream(size, obs + [SpaceSaving.Term(act.item)])
  {
    NeverTooLarge(size, maxItem, maxValue, obs, act.item);
    StreamGrows(size, obs, SpaceSaving.Term(act.item));
    var t := SpaceSaving.Run(size, obs);
    if t.accepted == [] {
      NoneAccepted(size, obs);
    } else {
      BumpCounts(|t.accepted|);
    }
  }

  lemma {:induction false} BumpCounts(n: nat)
    ensures Bump(n % 0x1_0000_0000_0000_0000) == (n + 1) % 0x1_0000_0000_0000_0000
  {
  }

  /** Without expiries it is the table of all observations ever, at the version that is their number (modulo 2^64). */
  lemma {:induction false} PermanentTable(size: nat, maxItem: nat, maxValue: int, ttl: int, obs: seq<SpaceSaving.Term>, acts: seq<Act>)
    requires Admitted(size, maxItem, maxValue) && Within(obs, maxItem) && Permanent(acts, maxItem)
    ensures Lived(size, maxValue, ttl, OfStream(size, obs), acts) == OfStream(size, obs + Observations(acts))
    decreases |acts|
  {
    if acts == [] {
      assert obs + Observations(acts) == obs;
    } else {
      var obs' := obs + Observations(acts[..1]);
      assert acts[..1][1..] == [];
      assert Observations(acts) == Observations(acts[..1]) + Observations(acts[1..]);
      assert obs + Observations(acts) == obs' + Observations(acts[1..]);
      NextOfStream(size, maxItem, maxValue, ttl, obs, acts[0]);
      PermanentTable(size, maxItem, maxValue, ttl, obs', acts[1..]);
    }
  }

  lemma {:induction false} NextOfStream(size: nat, maxItem: nat, maxValue: int, ttl: int, obs: seq<SpaceSaving.Term>, act: Act)
    requires Admitted(size, maxItem, maxValue) && Within(obs, maxItem) && Permanent([act], maxItem)
    ensures Next(size, maxValue, ttl, OfStream(size, obs), act) == OfStream(size, obs + Observations([act]))
    ensures Within(obs + Observations([act]), maxItem)
  {
    assert [act][1..] == [];
    if act.Observe? {
      SeenOfStream(size, maxItem, maxValue, ttl, obs, act);
      assert Observations([act]) == [SpaceSaving.Term(act.item)];
    } else {
      assert obs + Observations([act]) == obs;
    }
  }

  /**
   * A table started over a delete marker without an expiry of its own takes over
   * the marker's: it is permanent if and only if the marker was.
   */
  lemma {:induction false} TableInheritsTombstoneExpiry(s: Store, k: Key, item: Bytes, version: uint64, size: nat,
                                                        maxValue: int, now: int)
    requires Valid(s) && Live(s, k, now) && s.items[k].entry.flags == {FlagTombstone} && 1 <= size && item != []
    requires TopKAdd(s, k, item, version, 0, size, maxValue, now).applied
    ensures var r := TopKAdd(s, k, item, version, 0, size, maxValue, now).store;
            && k in r.items && r.items[k].entry.IsTopK()
            && r.items[k].entry.expireAt == s.items[k].entry.expireAt
            && version > s.items[k].entry.version
  {
    TopKReplaceEffect(s, k, [], item, Bump(s.items[k].entry.version), 0, size, maxValue, now);
  }

  /**
   * So an observation that asks for no expiry, and is reported as taken, is lost: deleted at 0, counted at 1, gone when
   * the marker's time is up.
   */
  lemma {:induction false} TableDiesWithTombstone(k: Key, item: Bytes, ttl: int)
    requires ttl > 1 && item != [] && |item| <= MAX_UINT64
    ensures var s := Store(map[], [], 0, 0, ttl);
            && Valid(s)
            && var d := DeleteIfVersion(s, k, 1, 0).0;
            && Valid(d)
            && var r := TopKAdd(d, k, item, 2, 0, 1, 0, 1);
            && r.applied && Valid(r.store)
            && Get(r.store, k, ttl - 1).1.Some? && Get(r.store, k, ttl).1.None?
  {
    Deleted(k, ttl);
    CountedOver(DeleteIfVersion(Store(map[], [], 0, 0, ttl), k, 1, 0).0, k, item, ttl);
  }

  lemma {:induction false} Deleted(k: Key, ttl: int)
    requires ttl > 1
    ensures var s := Store(map[], [], 0, 0, ttl);
            && Valid(s)
            && var d := DeleteIfVersion(s, k, 1, 0).0;
            && Valid(d) && k in d.items && d.items[k].entry == Entry([], 1, ttl, {FlagTombstone})
  {
    var s := Store(map[], [], 0, 0, ttl);
    assert Costs(map[]) == map[];
    DeleteVersionEffect(s, k, 1, 0);
  }

  lemma {:induction false} CountedOver(d: Store, k: Key, item: Bytes, ttl: int)
    requires Valid(d) && k in d.items && d.items[k].entry == Entry([], 1, ttl, {FlagTombstone})
    requires ttl > 1 && item != [] && |item| <= MAX_UINT64
    ensures var r := TopKAdd(d, k, item, 2, 0, 1, 0, 1);
            && r.applied && Valid(r.store)
            && Get(r.store, k, ttl - 1).1.Some? && Get(r.store, k, ttl).1.None?
  {
    TopK.EncodeEmpty();
    TopK.PipelineStep(map[], 1, SpaceSaving.Term(item), |item|, 0);
    TopKReplaceEffect(d, k, [], item, Bump(1), 0, 1, 0, 1);
  }
}
