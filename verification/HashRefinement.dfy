/**
 * The lazily encoded hash cache behaves as a plain versioned field map: over any
 * run of hash operations, writes, deletes and flushes on a key, mixed with any
 * work on other keys, reads and peeked blobs show exactly that map.
 */
module HashRefinement {
  import opened Basics
  import opened Ordering
  import opened Entries
  import opened Stores
  import opened Structures
  import opened StoreRuns
  import HashCodec

  // ---------------------------------------------------------------- coherence of cache and blob

  /** The bytes an item would have if it were flushed now. */
  ghost function Blob(it: Item): Bytes
  {
    if it.entry.IsHash() && it.dirty && it.cache.Some? then HashCodec.Encode(it.cache.value) else it.entry.value
  }

  /**
   * A hash item's cache is what its blob decodes to, unless marked dirty; and the
   * cost charged for any item is that of its flushed form.
   */
  ghost predicate Coherent(k: Key, it: Item)
  {
    && (it.entry.IsHash() ==>
          && (it.dirty ==> it.cache.Some?)
          && (it.cache.Some? ==> HashCodec.WellSized(it.cache.value))
          && (it.cache.Some? && !it.dirty ==> HashCodec.Decode(it.entry.value) == it.cache))
    && it.cost == |k.name| + 64 + |Blob(it)|
  }

  /** A flush changes no byte count: the approximate wire size was exact all along. */
  lemma {:induction false} FlushKeepsBytes(s: Store, k: Key)
    requires Valid(s) && k in s.items && Coherent(k, s.items[k])
    ensures Update(s, k, FlushItem(k, s.items[k])).bytes == s.bytes
    ensures Coherent(k, FlushItem(k, s.items[k]))
    ensures s.items[k].entry.IsHash() ==> ItemFields(FlushItem(k, s.items[k])) == ItemFields(s.items[k])
  {
    var it := s.items[k];
    if it.dirty && it.cache.Some? && it.entry.IsHash() {
      HashCodec.HashRoundTrip(it.cache.value);
    }
  }

  // ---------------------------------------------------------------- the abstract machine

  /** Raw is a value that is no hash, or does not decode as one. */
  datatype Body = Deleted | Fields(m: HashCodec.Fields) | Raw(value: Bytes)
  datatype Cell = Cell(version: uint64, expireAt: int, body: Body)

  predicate Past(c: Cell, now: int) { c.expireAt != 0 && now >= c.expireAt }

  /** What is left of a cell at a time: nothing once it has expired. */
  function At(c: Option<Cell>, now: int): Option<Cell>
  {
    if c.Some? && Past(c.value, now) then None else c
  }

  /** Operations on the one key under study. */
  datatype HashOp =
    | SetF(f: Bytes, v: Bytes, version: uint64, expireAt: int)
    | DelF(f: Bytes, version: uint64, expireAt: int)
    | InstallH(blob: Bytes, version: uint64, expireAt: int)
    | DeleteH(version: uint64)
    | SetE(e: Entry)
    | AcceptE(e: Entry)
    | DropE
    | ReadH
    | PeekH
    | GetH

  function Concrete(k: Key, op: HashOp): Op
  {
    match op
    case SetF(f, v, version, expireAt) => HSetOp(k, f, v, version, expireAt)
    case DelF(f, version, expireAt) => HDelOp(k, f, version, expireAt)
    case InstallH(blob, version, expireAt) => HInstallOp(k, blob, version, expireAt)
    case DeleteH(version) => DeleteVersionOp(k, version)
    case SetE(e) => SetOp(k, e)
    case AcceptE(e) => AcceptOp(k, e)
    case DropE => DeleteOp(k)
    case ReadH => HReadOp(k)
    case PeekH => PeekOp(k)
    case GetH => GetOp(k)
  }

  function Renew(c: Cell, version: uint64, expireAt: int, m: HashCodec.Fields): Cell
  {
    Cell(version, if expireAt != 0 then expireAt else c.expireAt, Fields(m))
  }

  /** What a written entry amounts to. */
  function CellOf(e: Entry): Cell
  {
    Cell(e.version, e.expireAt,
         if e.IsTombstone() then Deleted
         else if e.IsHash() && HashCodec.Decode(e.value).Some? then Fields(HashCodec.Decode(e.value).value)
         else Raw(e.value))
  }

  /** The key, the byte limit of the store and the lifetime of its tombstones. */
  datatype Setting = Setting(k: Key, limit: int, ttl: int)

  ghost function In(s: Store, k: Key): Setting { Setting(k, s.maxBytes, s.tombstoneTTL) }

  /** The entry alone is larger than the limit. */
  predicate TooLarge(e: Entry, c: Setting) { 0 < c.limit < EntryCost(c.k, e) }

  /** One operation on a plain field map with a version, an expiry and a delete marker. */
  function Abstract(c0: Option<Cell>, op: HashOp, conf: Setting, now: int): (r: Option<Cell>)
  {
    var c := At(c0, now);
    match op
    case SetF(f, v, version, expireAt) =>
      if c.None? then Some(Cell(version, expireAt, Fields(map[f := v])))
      else if c.value.body.Deleted? then
        if version <= c.value.version then c else Some(Cell(version, expireAt, Fields(map[f := v])))
      else if c.value.body.Raw? then c
      else Some(Renew(c.value, version, expireAt, c.value.body.m[f := v]))
    case DelF(f, version, expireAt) =>
      if c.None? || !c.value.body.Fields? then c
      else Some(Renew(c.value, version, expireAt, c.value.body.m - {f}))
    case InstallH(blob, version, expireAt) =>
      if c.Some? && version <= c.value.version then c
      else
        var decoded := HashCodec.Decode(blob);
        if decoded.None? then None else Some(Cell(version, expireAt, Fields(decoded.value)))
    case DeleteH(version) =>
      if c.Some? && version < c.value.version then c
      else Some(Cell(version, if conf.ttl <= 0 then 0 else now + conf.ttl, Deleted))
    case SetE(e) => if TooLarge(e, conf) then c else Some(CellOf(e))
    case AcceptE(e) => if TooLarge(e, conf) || (c.Some? && e.version <= c.value.version) then c else Some(CellOf(e))
    case DropE => None
    case ReadH => c
    case PeekH => c
    case GetH => c
  }

  // ---------------------------------------------------------------- refinement

  /** The item under k stands for cell c: a tombstone, a coherent hash with c's fields, or a value that is none. */
  ghost predicate Stands(k: Key, it: Item, c: Cell)
  {
    && it.entry.version == c.version && it.entry.expireAt == c.expireAt
    && (it.entry.IsTombstone() <==> c.body.Deleted?)
    && match c.body
       case Deleted => it.entry.IsHash() ==> !it.dirty
       case Fields(m) => it.entry.IsHash() && Coherent(k, it) && ItemFields(it) == Some(m)
       case Raw(value) => it.entry.value == value && (it.entry.IsHash() ==> ItemFields(it).None?)
  }

  /** At time `now` the store shows c under k. Expired leftovers on either side do not count. */
  ghost predicate Shows(s: Store, k: Key, c: Option<Cell>, now: int)
  {
    if Live(s, k, now) then c.Some? && Stands(k, s.items[k], c.value)
    else At(c, now).None?
  }

  lemma {:induction false} ShowsLater(s: Store, k: Key, c: Option<Cell>, now: int, later: int)
    requires Shows(s, k, c, now) && now <= later
    ensures Shows(s, k, c, later) && Shows(s, k, At(c, later), later)
  {
  }

  /** If `it` was installed under k and stands for c, the store now shows c. */
  lemma {:induction false} InstalledShows(s: Store, r: Store, k: Key, it: Item, c: Cell, now: int)
    requires Installed(s, r, k, it, now) && Stands(k, it, c) && (c.body.Raw? ==> k in r.items)
    ensures Shows(r, k, Some(c), now)
  {
    if !it.entry.Expired(now) && !c.body.Raw? {
      assert it.entry.Protected(now);
    }
  }

  lemma {:induction false} EditedStands(k: Key, it: Item, c: Cell, edit: Edit, version: uint64, expireAt: int)
    requires Stands(k, it, c) && c.body.Fields? && SizedEdit(edit)
    ensures Stands(k, EditedItem(k, it, ApplyEdit(c.body.m, edit), version, expireAt),
                   Renew(c, version, expireAt, ApplyEdit(c.body.m, edit)))
  {
    assert HashCodec.WellSized(c.body.m);
    EditKeepsSized(c.body.m, edit);
  }

  lemma {:induction false} FreshStands(k: Key, edit: Edit, version: uint64, expireAt: int)
    requires SizedEdit(edit)
    ensures Stands(k, FreshHash(k, version, expireAt, edit), Cell(version, expireAt, Fields(ApplyEdit(map[], edit))))
  {
    EditKeepsSized(map[], edit);
    HashCodec.HashRoundTrip(ApplyEdit(map[], edit));
  }

  /** Field writes are of a size that can be encoded. */
  ghost predicate Sound(op: HashOp) { op.SetF? ==> HashCodec.Sized(op.f) && HashCodec.Sized(op.v) }

  /** Eviction may take a raw value, if there is a limit. */
  predicate MayDrop(c: Option<Cell>, limit: int) { limit > 0 && c.Some? && c.value.body.Raw? }

  /** The store shows c, or has evicted it where it may. */
  ghost predicate ShowsOrDrops(s: Store, k: Key, c: Option<Cell>, now: int)
  {
    Shows(s, k, c, now) || (MayDrop(c, s.maxBytes) && k !in s.items)
  }

  /** A hash edit that installs its target shows the edited fields. */
  lemma {:induction false} EditShows(s: Store, r: Store, k: Key, c: Option<Cell>, edit: Edit, version: uint64,
                                     expireAt: int, now: int)
    requires Shows(s, k, c, now) && SizedEdit(edit) && Live(s, k, now) && c.value.body.Fields?
    requires var target := EditTarget(s, k, version, expireAt, edit, now);
             target.Some? && Installed(s, r, k, target.value, now)
    ensures Shows(r, k, Some(Renew(c.value, version, expireAt, ApplyEdit(c.value.body.m, edit))), now)
  {
    EditedStands(k, s.items[k], c.value, edit, version, expireAt);
    InstalledShows(s, r, k, EditTarget(s, k, version, expireAt, edit, now).value,
                   Renew(c.value, version, expireAt, ApplyEdit(c.value.body.m, edit)), now);
  }

  lemma {:induction false} FreshShows(s: Store, r: Store, k: Key, edit: Edit, version: uint64, expireAt: int, now: int)
    requires SizedEdit(edit) && Installed(s, r, k, FreshHash(k, version, expireAt, edit), now)
    ensures Shows(r, k, Some(Cell(version, expireAt, Fields(ApplyEdit(map[], edit)))), now)
  {
    FreshStands(k, edit, version, expireAt);
    InstalledShows(s, r, k, FreshHash(k, version, expireAt, edit),
                   Cell(version, expireAt, Fields(ApplyEdit(map[], edit))), now);
  }

  lemma {:induction false} SetRefines(s: Store, k: Key, c: Option<Cell>, op: HashOp, now: int)
    requires Valid(s) && Shows(s, k, c, now) && op.SetF? && Sound(op)
    ensures Shows(HSet(s, k, op.f, op.v, op.version, op.expireAt, now).0, k, Abstract(c, op, In(s, k), now), now)
  {
    var edit := SetField(op.f, op.v);
    var r := HSet(s, k, op.f, op.v, op.version, op.expireAt, now).0;
    HMutateEffect(s, k, op.version, op.expireAt, edit, now);
    if Live(s, k, now) && c.value.body.Fields? {
      EditShows(s, r, k, c, edit, op.version, op.expireAt, now);
    } else if EditTarget(s, k, op.version, op.expireAt, edit, now).Some? {
      FreshShows(s, r, k, edit, op.version, op.expireAt, now);
    }
  }

  lemma {:induction false} DelRefines(s: Store, k: Key, c: Option<Cell>, op: HashOp, now: int)
    requires Valid(s) && Shows(s, k, c, now) && op.DelF?
    ensures Shows(HDel(s, k, op.f, op.version, op.expireAt, now).0, k, Abstract(c, op, In(s, k), now), now)
  {
    HDelEffect(s, k, op.f, op.version, op.expireAt, now);
    if Live(s, k, now) && c.value.body.Fields? {
      EditShows(s, HDel(s, k, op.f, op.version, op.expireAt, now).0, k, c, DelField(op.f), op.version, op.expireAt, now);
    }
  }

  lemma {:induction false} InstallRefines(s: Store, k: Key, c: Option<Cell>, op: HashOp, now: int)
    requires Valid(s) && Shows(s, k, c, now) && op.InstallH?
    ensures Shows(HInstall(s, k, op.blob, op.version, op.expireAt, now).0, k, Abstract(c, op, In(s, k), now), now)
  {
    HInstallEffect(s, k, op.blob, op.version, op.expireAt, now);
    var decoded := HashCodec.Decode(op.blob);
    if decoded.Some? && !(Live(s, k, now) && op.version <= s.items[k].entry.version) {
      var e := Entry(op.blob, op.version, op.expireAt, {FlagHash});
      var it := Item(e, EntryCost(k, e), decoded, false);
      InstalledShows(s, HInstall(s, k, op.blob, op.version, op.expireAt, now).0, k, it,
                     Cell(op.version, op.expireAt, Fields(decoded.value)), now);
    }
  }

  lemma {:induction false} DeleteRefines(s: Store, k: Key, c: Option<Cell>, op: HashOp, now: int)
    requires Valid(s) && Shows(s, k, c, now) && op.DeleteH?
    ensures Shows(DeleteIfVersion(s, k, op.version, now).0, k, Abstract(c, op, In(s, k), now), now)
  {
    DeleteVersionEffect(s, k, op.version, now);
    var tomb := TombstoneOf(s, op.version, now);
    if DeleteIfVersion(s, k, op.version, now).1 {
      InstalledShows(s, DeleteIfVersion(s, k, op.version, now).0, k, Overwrite(s, k, tomb),
                     Cell(op.version, tomb.expireAt, Deleted), now);
    }
  }

  lemma {:induction false} EntryStands(k: Key, e: Entry)
    ensures Stands(k, Plain(k, e), CellOf(e))
  {
  }

  lemma {:induction false} SetShows(s: Store, k: Key, e: Entry, now: int)
    requires Valid(s)
    ensures var r := Set(s, k, e, now);
            if TooLarge(e, In(s, k)) then r == (s, false) else ShowsOrDrops(r.0, k, Some(CellOf(e)), now)
  {
    var r := Set(s, k, e, now);
    EntryStands(k, e);
    SetEffect(s, k, e, now);
    if r.1 && (CellOf(e).body.Raw? ==> k in r.0.items) {
      InstalledShows(s, r.0, k, Plain(k, e), CellOf(e), now);
    }
  }

  /** Set and AcceptIfNewer of a whole entry: refused by size or version, or the entry takes the place of what was there. */
  lemma {:induction false} WriteRefines(s: Store, k: Key, c: Option<Cell>, op: HashOp, now: int)
    requires Valid(s) && Shows(s, k, c, now) && (op.SetE? || op.AcceptE?)
    ensures ShowsOrDrops(Step(s, Concrete(k, op), now), k, Abstract(c, op, In(s, k), now), now)
  {
    SetShows(s, k, op.e, now);
    ShowsLater(s, k, c, now, now);
  }

  lemma {:induction false} DropRefines(s: Store, k: Key, now: int)
    requires Valid(s)
    ensures Shows(Delete(s, k).0, k, None, now)
  {
  }

  /** Reads return the field map; a peek's or get's blob decodes to it. */
  ghost predicate Answers(s: Store, k: Key, c: Option<Cell>, now: int)
    requires Valid(s)
  {
    var live := At(c, now);
    && HRead(s, k, now).1 == (if live.Some? && live.value.body.Fields? then Some(live.value.body.m) else None)
    && (if live.None? then Peek(s, k, now).1.None? && Get(s, k, now).1.None?
        else if live.value.body.Deleted? then
          Peek(s, k, now).1.Some? && Peek(s, k, now).1.value.IsTombstone() && Get(s, k, now).1.None?
        else if live.value.body.Raw? then
          Peek(s, k, now).1.Some? && Get(s, k, now).1 == Peek(s, k, now).1 &&
          Peek(s, k, now).1.value.value == live.value.body.value && Peek(s, k, now).1.value.version == live.value.version
        else
          && Peek(s, k, now).1.Some? && Get(s, k, now).1 == Peek(s, k, now).1
          && HashCodec.Decode(Peek(s, k, now).1.value.value) == Some(live.value.body.m)
          && Peek(s, k, now).1.value.version == live.value.version)
  }

  lemma {:induction false} ShownIsAnswered(s: Store, k: Key, c: Option<Cell>, now: int)
    requires Valid(s) && Shows(s, k, c, now)
    ensures Answers(s, k, c, now)
  {
    if Live(s, k, now) && c.value.body.Fields? {
      FlushKeepsBytes(s, k);
    }
  }

  lemma {:induction false} FlushStands(k: Key, it: Item, c: Cell)
    requires Stands(k, it, c) && 0 <= it.cost
    ensures Stands(k, FlushItem(k, it), c)
  {
    if c.body.Fields? && it.dirty {
      HashCodec.HashRoundTrip(it.cache.value);
    }
  }

  lemma {:induction false} PeekRefines(s: Store, k: Key, c: Option<Cell>, now: int)
    requires Valid(s) && Shows(s, k, c, now)
    ensures Shows(Peek(s, k, now).0, k, At(c, now), now)
    ensures Shows(Get(s, k, now).0, k, At(c, now), now)
  {
    if Live(s, k, now) {
      FlushStands(k, s.items[k], c.value);
    }
  }

  lemma {:induction false} ReadRefines(s: Store, k: Key, c: Option<Cell>, now: int)
    requires Valid(s) && Shows(s, k, c, now)
    ensures Shows(HRead(s, k, now).0, k, At(c, now), now)
  {
  }

  lemma {:induction false} LookRefines(s: Store, k: Key, c: Option<Cell>, op: HashOp, now: int)
    requires Valid(s) && Shows(s, k, c, now) && (op.DropE? || op.ReadH? || op.PeekH? || op.GetH?)
    ensures Shows(Step(s, Concrete(k, op), now), k, Abstract(c, op, In(s, k), now), now)
  {
    match op
    case DropE => DropRefines(s, k, now);
    case ReadH => ReadRefines(s, k, c, now);
    case _ => PeekRefines(s, k, c, now);
  }

  lemma {:induction false} ShowsSame(s: Store, r: Store, k: Key, c: Option<Cell>, now: int)
    requires Shows(s, k, c, now) && r == s
    ensures Shows(r, k, c, now)
  {
  }

  lemma {:induction false} StepIsHSet(s: Store, k: Key, op: HashOp, now: int)
    requires Valid(s) && op.SetF?
    ensures Step(s, Concrete(k, op), now) == HSet(s, k, op.f, op.v, op.version, op.expireAt, now).0
  {
    assert Concrete(k, op) == HSetOp(k, op.f, op.v, op.version, op.expireAt);
  }

  lemma {:induction false} StepIsHDel(s: Store, k: Key, op: HashOp, now: int)
    requires Valid(s) && op.DelF?
    ensures Step(s, Concrete(k, op), now) == HDel(s, k, op.f, op.version, op.expireAt, now).0
  {
    assert Concrete(k, op) == HDelOp(k, op.f, op.version, op.expireAt);
  }

  lemma {:induction false} SetStep(s: Store, k: Key, c: Option<Cell>, op: HashOp, now: int)
    requires Valid(s) && Shows(s, k, c, now) && Sound(op) && op.SetF?
    ensures Shows(Step(s, Concrete(k, op), now), k, Abstract(c, op, In(s, k), now), now)
  {
    var r, a := HSet(s, k, op.f, op.v, op.version, op.expireAt, now).0, Abstract(c, op, In(s, k), now);
    assert Shows(r, k, a, now) by { SetRefines(s, k, c, op, now); }
    assert Step(s, Concrete(k, op), now) == r by { StepIsHSet(s, k, op, now); }
    ShowsSame(r, Step(s, Concrete(k, op), now), k, a, now);
  }

  lemma {:induction false} DelStep(s: Store, k: Key, c: Option<Cell>, op: HashOp, now: int)
    requires Valid(s) && Shows(s, k, c, now) && op.DelF?
    ensures Shows(Step(s, Concrete(k, op), now), k, Abstract(c, op, In(s, k), now), now)
  {
    var r, a := HDel(s, k, op.f, op.version, op.expireAt, now).0, Abstract(c, op, In(s, k), now);
    assert Shows(r, k, a, now) by { DelRefines(s, k, c, op, now); }
    assert Step(s, Concrete(k, op), now) == r by { StepIsHDel(s, k, op, now); }
    ShowsSame(r, Step(s, Concrete(k, op), now), k, a, now);
  }

  lemma {:induction false} ReplaceRefines(s: Store, k: Key, c: Option<Cell>, op: HashOp, now: int)
    requires Valid(s) && Shows(s, k, c, now) && (op.InstallH? || op.DeleteH?)
    ensures Shows(Step(s, Concrete(k, op), now), k, Abstract(c, op, In(s, k), now), now)
  {
    match op
    case InstallH(_, _, _) => InstallRefines(s, k, c, op, now);
    case DeleteH(_) => DeleteRefines(s, k, c, op, now);
  }

  lemma {:induction false} OpRefines(s: Store, k: Key, c: Option<Cell>, op: HashOp, now: int)
    requires Valid(s) && Shows(s, k, c, now) && Sound(op)
    ensures ShowsOrDrops(Step(s, Concrete(k, op), now), k, Abstract(c, op, In(s, k), now), now)
  {
    if op.SetF? {
      SetStep(s, k, c, op, now);
    } else if op.DelF? {
      DelStep(s, k, c, op, now);
    } else if op.InstallH? || op.DeleteH? {
      ReplaceRefines(s, k, c, op, now);
    } else if op.SetE? || op.AcceptE? {
      WriteRefines(s, k, c, op, now);
    } else {
      LookRefines(s, k, c, op, now);
    }
  }

  // ---------------------------------------------------------------- whole runs

  /** A step of a run: an operation on the key, or anything at all on another key. */
  datatype Act = Own(op: HashOp, now: int) | Other(ev: Event)

  function When(a: Act): int { if a.Own? then a.now else a.ev.now }

  function ActEvent(k: Key, a: Act): Event
  {
    if a.Own? then Event(Concrete(k, a.op), a.now) else a.ev
  }

  ghost predicate Legal(acts: seq<Act>, k: Key, start: int)
  {
    && (forall i :: 0 <= i < |acts| ==> start <= When(acts[i]))
    && (forall i, j :: 0 <= i < j < |acts| ==> When(acts[i]) <= When(acts[j]))
    && (forall i :: 0 <= i < |acts| ==> if acts[i].Own? then Sound(acts[i].op) else acts[i].ev.op.k != k)
  }

  ghost function RunActs(s: Store, k: Key, acts: seq<Act>): (r: Store)
    requires Valid(s)
    ensures Valid(r)
    decreases |acts|
  {
    if acts == [] then s
    else
      var ev := ActEvent(k, acts[0]);
      StepLocal(s, ev.op, ev.now);
      RunActs(Step(s, ev.op, ev.now), k, acts[1..])
  }

  /** The cell after one act, before any eviction. */
  function Acted(c: Option<Cell>, a: Act, conf: Setting): Option<Cell>
  {
    if a.Own? then Abstract(c, a.op, conf, a.now) else c
  }

  /** The acts one after the other; drops[i] says that the i-th one evicts the key. */
  function RunAbstract(c: Option<Cell>, acts: seq<Act>, drops: seq<bool>, conf: Setting): Option<Cell>
    requires |drops| == |acts|
    decreases |acts|
  {
    if acts == [] then c else RunAbstract(if drops[0] then None else Acted(c, acts[0], conf), acts[1..], drops[1..], conf)
  }

  /** Only raw values are dropped, and none without a limit. */
  predicate Allowed(c: Option<Cell>, acts: seq<Act>, drops: seq<bool>, conf: Setting)
    requires |drops| == |acts|
    decreases |acts|
  {
    acts == [] ||
    (&& (drops[0] ==> MayDrop(Acted(c, acts[0], conf), conf.limit))
     && Allowed(if drops[0] then None else Acted(c, acts[0], conf), acts[1..], drops[1..], conf))
  }

  lemma {:induction false} ActRefines(s: Store, k: Key, c: Option<Cell>, a: Act, start: int)
    requires Valid(s) && Shows(s, k, c, start) && start <= When(a)
    requires if a.Own? then Sound(a.op) else a.ev.op.k != k
    ensures var ev := ActEvent(k, a);
            var r := Step(s, ev.op, ev.now);
            Valid(r) && In(r, k) == In(s, k) && ShowsOrDrops(r, k, Acted(c, a, In(s, k)), When(a))
  {
    var ev := ActEvent(k, a);
    StepLocal(s, ev.op, ev.now);
    ShowsLater(s, k, c, start, When(a));
    if a.Own? {
      OpRefines(s, k, c, a.op, a.now);
    } else {
      OtherRefines(s, k, c, ev);
    }
  }

  lemma {:induction false} OtherRefines(s: Store, k: Key, c: Option<Cell>, ev: Event)
    requires Valid(s) && Shows(s, k, c, ev.now) && ev.op.k != k
    ensures ShowsOrDrops(Step(s, ev.op, ev.now), k, c, ev.now)
  {
    StepLocal(s, ev.op, ev.now);
    assert Undisturbed(s, Step(s, ev.op, ev.now), k, ev.now);
  }

  /**
   * Refinement over every run: from a store that shows c, after any mix of hash
   * operations, writes, deletes and flushes on k and of arbitrary operations on
   * other keys, the store shows exactly what the plain field map holds, and
   * answers reads and peeks from it. Where there is a byte limit, a raw value
   * written to the key may be evicted, and nothing else.
   */
  lemma {:induction false} HashRefinesFieldMap(s: Store, k: Key, c: Option<Cell>, acts: seq<Act>, start: int, end: int)
    returns (drops: seq<bool>)
    requires Valid(s) && Shows(s, k, c, start) && Legal(acts, k, start)
    requires start <= end && forall i :: 0 <= i < |acts| ==> When(acts[i]) <= end
    ensures |drops| == |acts| && Allowed(c, acts, drops, In(s, k))
    ensures Shows(RunActs(s, k, acts), k, RunAbstract(c, acts, drops, In(s, k)), end)
    ensures Answers(RunActs(s, k, acts), k, RunAbstract(c, acts, drops, In(s, k)), end)
    decreases |acts|
  {
    if acts == [] {
      drops := [];
      ShowsLater(s, k, c, start, end);
      ShownIsAnswered(s, k, c, end);
    } else {
      var ev, a := ActEvent(k, acts[0]), acts[0];
      ActRefines(s, k, c, a, start);
      var r := Step(s, ev.op, ev.now);
      var dropped := !Shows(r, k, Acted(c, a, In(s, k)), When(a));
      var rest := HashRefinesFieldMap(r, k, if dropped then None else Acted(c, a, In(s, k)), acts[1..], When(a), end);
      drops := [dropped] + rest;
      assert drops[1..] == rest;
    }
  }
}
