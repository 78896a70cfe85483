/**
 * loadThrough asks two guards (pkg/engine/engine.go): the one of the process, then the one of the keyspace. A refusal by
 * the second is not reported to the first.
 */
module GuardPairs {
  import opened Basics
  import opened LoadGuard

  type Keyspace = string

  /** The configuration of the process-wide guard (no guard is one that limits nothing) and of each keyspace's. */
  datatype Setting = Setting(global: Config, own: Keyspace -> Config)

  /** Both kinds of guard, the callers past the first one but not the second, and the loads under way. */
  datatype World = World(global: State, own: map<Keyspace, State>, between: multiset<Keyspace>, flying: multiset<Keyspace>)

  datatype Event =
    | Enter(ks: Keyspace, now: real, cancelled: bool)
    | Decide(ks: Keyspace, now: real, cancelled: bool)
    | Report(ks: Keyspace, now: real, ok: bool)

  predicate Enabled(w: World, e: Event)
  {
    match e
    case Enter(ks, _, _) => ks in w.own
    case Decide(ks, _, _) => ks in w.own && ks in w.between
    case Report(ks, _, _) => ks in w.own && ks in w.flying
  }

  function Told(cfg: Config, s: State, ok: bool, now: real): State
  {
    if ok then OnSuccess(cfg, s) else OnFailure(cfg, s, now)
  }

  predicate Enters(c: Setting, w: World, e: Event)
  {
    e.Enter? && !e.cancelled && Allow(c.global, w.global, e.now).1 == Allowed
  }

  /** The keyspace's guard, or the end of the caller's context, turns the load away. */
  predicate Refused(c: Setting, w: World, e: Event)
    requires Enabled(w, e) && e.Decide?
  {
    e.cancelled || Allow(c.own(e.ks), w.own[e.ks], e.now).1 != Allowed
  }

  function Do(c: Setting, w: World, e: Event): World
    requires Enabled(w, e)
  {
    match e
    case Enter(ks, now, cancelled) =>
      if cancelled then w
      else
        w.(global := Allow(c.global, w.global, now).0,
           between := if Enters(c, w, e) then w.between + multiset{ks} else w.between)
    case Decide(ks, now, cancelled) =>
      w.(own := if cancelled then w.own else w.own[ks := Allow(c.own(ks), w.own[ks], now).0],
         between := w.between - multiset{ks},
         flying := if Refused(c, w, e) then w.flying else w.flying + multiset{ks})
    case Report(ks, now, ok) =>
      w.(global := Told(c.global, w.global, ok, now),
         own := w.own[ks := Told(c.own(ks), w.own[ks], ok, now)],
         flying := w.flying - multiset{ks})
  }

  predicate IsRun(c: Setting, w: World, evs: seq<Event>)
    decreases |evs|
  {
    evs == [] || (Enabled(w, evs[0]) && IsRun(c, Do(c, w, evs[0]), evs[1..]))
  }

  function After(c: Setting, w: World, evs: seq<Event>): World
    requires IsRun(c, w, evs)
    decreases |evs|
  {
    if evs == [] then w else After(c, Do(c, w, evs[0]), evs[1..])
  }

  /** The global guard waits for a report that nobody is left to make. */
  predicate Stuck(c: Setting, w: World)
  {
    && c.global.threshold > 0 && w.global.mode == HalfOpen && w.global.probing
    && w.between == multiset{} && w.flying == multiset{}
  }

  /** The last caller between the guards is refused by the second while the probe slot of the first is taken. */
  predicate Strands(c: Setting, w: World, e: Event)
  {
    && Enabled(w, e) && e.Decide? && Refused(c, w, e)
    && c.global.threshold > 0 && w.global.mode == HalfOpen && w.global.probing
    && w.between == multiset{e.ks} && w.flying == multiset{}
  }

  predicate SomeStrand(c: Setting, w: World, evs: seq<Event>)
    requires IsRun(c, w, evs)
    decreases |evs|
  {
    evs != [] && (Strands(c, w, evs[0]) || SomeStrand(c, Do(c, w, evs[0]), evs[1..]))
  }

  /** A stuck world lets nobody in, and stays stuck. */
  lemma {:induction false} StuckStays(c: Setting, w: World, e: Event)
    requires Stuck(c, w) && Enabled(w, e)
    ensures Stuck(c, Do(c, w, e)) && !Enters(c, w, e)
  {
  }

  lemma {:induction false} StickIsStrand(c: Setting, w: World, e: Event)
    requires Enabled(w, e) && !Stuck(c, w)
    ensures Stuck(c, Do(c, w, e)) <==> Strands(c, w, e)
  {
    var v := Do(c, w, e);
    match e
    case Enter(ks, now, cancelled) =>
      if Enters(c, w, e) {
        assert ks in v.between;
      }
    case Decide(ks, now, cancelled) =>
      assert w.between == w.between - multiset{ks} + multiset{ks};
      if !Refused(c, w, e) {
        assert ks in v.flying;
      }
    case Report(ks, now, ok) =>
  }

  /** No load of any keyspace passes the global guard in the run. */
  predicate NobodyEnters(c: Setting, w: World, evs: seq<Event>)
    requires IsRun(c, w, evs)
    decreases |evs|
  {
    evs == [] || (!Enters(c, w, evs[0]) && NobodyEnters(c, Do(c, w, evs[0]), evs[1..]))
  }

  /** A stuck global guard blocks every load of every keyspace for good: no event of any further run frees it. */
  lemma {:induction false} StuckForever(c: Setting, w: World, evs: seq<Event>)
    requires Stuck(c, w) && IsRun(c, w, evs)
    ensures NobodyEnters(c, w, evs) && Stuck(c, After(c, w, evs))
    decreases |evs|
  {
    if evs != [] {
      StuckStays(c, w, evs[0]);
      StuckForever(c, Do(c, w, evs[0]), evs[1..]);
    }
  }

  lemma {:induction false} StrandSticks(c: Setting, w: World, evs: seq<Event>)
    requires IsRun(c, w, evs) && SomeStrand(c, w, evs)
    ensures Stuck(c, After(c, w, evs))
    decreases |evs|
  {
    var v := Do(c, w, evs[0]);
    if Stuck(c, w) {
      StuckForever(c, w, evs);
    } else if Strands(c, w, evs[0]) {
      StickIsStrand(c, w, evs[0]);
      StuckForever(c, v, evs[1..]);
    } else {
      StrandSticks(c, v, evs[1..]);
    }
  }

  /** In every run, the global guard ends up waiting for nobody if and only if some step strands its probe. */
  lemma {:induction false} StuckIff(c: Setting, w: World, evs: seq<Event>)
    requires IsRun(c, w, evs) && !Stuck(c, w)
    ensures Stuck(c, After(c, w, evs)) <==> SomeStrand(c, w, evs)
    decreases |evs|
  {
    if SomeStrand(c, w, evs) {
      StrandSticks(c, w, evs);
    } else if evs != [] {
      StickIsStrand(c, w, evs[0]);
      StuckIff(c, Do(c, w, evs[0]), evs[1..]);
    }
  }

  /** New guards, with one keyspace. */
  function Fresh(c: Setting, ks: Keyspace): World
  {
    World(NewState(c.global, 0.0), map[ks := NewState(c.own(ks), 0.0)], multiset{}, multiset{})
  }

  /** A failed load that opens both breakers. */
  lemma {:induction false} FailedLoad(c: Setting, ks: Keyspace)
    requires c.global.threshold == 1 && c.global.rate <= 0.0 && c.own(ks).threshold == 1 && c.own(ks).rate <= 0.0
    ensures var evs := [Enter(ks, 0.0, false), Decide(ks, 0.0, false), Report(ks, 0.0, false)];
            var broken := State(0.0, 0.0, 1, Open, 0.0, false);
            IsRun(c, Fresh(c, ks), evs) && After(c, Fresh(c, ks), evs) == World(broken, map[ks := broken], multiset{}, multiset{})
  {
    var evs := [Enter(ks, 0.0, false), Decide(ks, 0.0, false), Report(ks, 0.0, false)];
    var new0, broken := State(0.0, 0.0, 0, Closed, 0.0, false), State(0.0, 0.0, 1, Open, 0.0, false);
    var w1 := World(new0, map[ks := new0], multiset{ks}, multiset{});
    var w2 := World(new0, map[ks := new0], multiset{}, multiset{ks});
    var w3 := World(broken, map[ks := broken], multiset{}, multiset{});
    assert Do(c, Fresh(c, ks), evs[0]) == w1;
    assert Do(c, w1, evs[1]) == w2;
    assert Do(c, w2, evs[2]) == w3;
    assert evs[1..][0] == evs[1] && evs[1..][1..][0] == evs[2] && evs[1..][1..][1..] == [];
    assert IsRun(c, w3, []) && After(c, w3, []) == w3;
    assert IsRun(c, w2, evs[1..][1..]) && After(c, w2, evs[1..][1..]) == w3;
    assert IsRun(c, w1, evs[1..]) && After(c, w1, evs[1..]) == w3;
  }

  /**
   * It happens with one keyspace and no rate limit, after a single failed load: the global breaker half-opens first, and
   * the keyspace's turns its probe away.
   */
  lemma {:induction false} LongerTimeoutStrands(c: Setting, ks: Keyspace, now: real)
    requires c.global.threshold == 1 && c.global.rate <= 0.0 && c.own(ks).threshold == 1 && c.own(ks).rate <= 0.0
    requires 0.0 < c.global.openTimeout <= now < c.own(ks).openTimeout
    ensures var evs := [Enter(ks, 0.0, false), Decide(ks, 0.0, false), Report(ks, 0.0, false)];
            && IsRun(c, Fresh(c, ks), evs)
            && var w := After(c, Fresh(c, ks), evs);
            && var last := [Enter(ks, now, false), Decide(ks, now, false)];
            && IsRun(c, w, last) && Stuck(c, After(c, w, last))
  {
    FailedLoad(c, ks);
    var broken := State(0.0, 0.0, 1, Open, 0.0, false);
    var w := World(broken, map[ks := broken], multiset{}, multiset{});
    var last := [Enter(ks, now, false), Decide(ks, now, false)];
    var probe := broken.(mode := HalfOpen, probing := true);
    var w1 := World(probe, map[ks := broken], multiset{ks}, multiset{});
    var w2 := World(probe, map[ks := broken], multiset{}, multiset{});
    assert Do(c, w, last[0]) == w1;
    assert Do(c, w1, last[1]) == w2;
    assert last[1..][0] == last[1] && last[1..][1..] == [];
    assert IsRun(c, w2, []) && After(c, w2, []) == w2;
    assert IsRun(c, w1, last[1..]) && After(c, w1, last[1..]) == w2;
  }
}
