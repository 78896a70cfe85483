/**
 * Allow is not one critical section but up to three: the breaker check, the token, and the release of the probe slot.
 * Here other callers and reports may come in between, and the single-probe promise holds only without a rate limit.
 */
module GuardRaces {
  import opened Basics
  import opened LoadGuard

  /** The guard, and the callers inside Allow: past a closed breaker, past an open one, and owing a release. */
  datatype World = World(g: State, waved: nat, probes: nat, owed: nat)

  datatype Move =
    | Check(now: real)
    | TakeWaved(now: real)
    | TakeProbe(now: real)
    | Release
    | Good
    | Bad(now: real)

  predicate Enabled(w: World, m: Move)
  {
    match m
    case TakeWaved(_) => w.waved > 0
    case TakeProbe(_) => w.probes > 0
    case Release => w.owed > 0
    case _ => true
  }

  function Do(cfg: Config, w: World, m: Move): World
    requires Enabled(w, m)
  {
    match m
    case Check(now) =>
      var a := CheckBreaker(cfg, w.g, now);
      if !a.ok then w.(g := a.state)
      else if w.g.mode == Closed then w.(g := a.state, waved := w.waved + 1)
      else w.(g := a.state, probes := w.probes + 1)
    case TakeWaved(now) =>
      var a := TakeToken(cfg, w.g, now);
      w.(g := a.state, waved := w.waved - 1, owed := if a.ok then w.owed else w.owed + 1)
    case TakeProbe(now) =>
      var a := TakeToken(cfg, w.g, now);
      w.(g := a.state, probes := w.probes - 1, owed := if a.ok then w.owed else w.owed + 1)
    case Release => w.(g := ReleaseProbeSlot(cfg, w.g), owed := w.owed - 1)
    case Good => w.(g := OnSuccess(cfg, w.g))
    case Bad(now) => w.(g := OnFailure(cfg, w.g, now))
  }

  predicate IsRun(cfg: Config, w: World, ms: seq<Move>)
    decreases |ms|
  {
    ms == [] || (Enabled(w, ms[0]) && IsRun(cfg, Do(cfg, w, ms[0]), ms[1..]))
  }

  function After(cfg: Config, w: World, ms: seq<Move>): World
    requires IsRun(cfg, w, ms)
    decreases |ms|
  {
    if ms == [] then w else After(cfg, Do(cfg, w, ms[0]), ms[1..])
  }

  /** Loads let through past a breaker that was not closed when they checked it. */
  function Probed(cfg: Config, w: World, ms: seq<Move>): nat
    requires IsRun(cfg, w, ms)
    decreases |ms|
  {
    if ms == [] then 0
    else
      (if ms[0].TakeProbe? && TakeToken(cfg, w.g, ms[0].now).ok then 1 else 0) + Probed(cfg, Do(cfg, w, ms[0]), ms[1..])
  }

  predicate NoReports(ms: seq<Move>) { forall k :: 0 <= k < |ms| ==> !ms[k].Good? && !ms[k].Bad? }

  /** The last time a move reads, given the time before it. */
  function TimeOf(m: Move, t: real): real
  {
    match m
    case Check(now) => now
    case TakeWaved(now) => now
    case TakeProbe(now) => now
    case Bad(now) => now
    case _ => t
  }

  predicate Timely(ms: seq<Move>, t: real)
    decreases |ms|
  {
    ms == [] || (t <= TimeOf(ms[0], t) && Timely(ms[1..], TimeOf(ms[0], t)))
  }

  function Start(cfg: Config): World { World(NewState(cfg, 0.0), 0, 0, 0) }

  /** The first moves lead to a breaker that is not closed with no probe under way; the others, without a report, to two. */
  ghost predicate TwoProbes(cfg: Config, setup: seq<Move>, rest: seq<Move>)
  {
    && Timely(setup + rest, 0.0)
    && IsRun(cfg, Start(cfg), setup)
    && After(cfg, Start(cfg), setup).g.mode != Closed
    && After(cfg, Start(cfg), setup).probes == 0
    && IsRun(cfg, After(cfg, Start(cfg), setup), rest)
    && NoReports(rest)
    && Probed(cfg, After(cfg, Start(cfg), setup), rest) >= 2
  }

  // ---------------------------------------------------------------- without a rate limit

  lemma {:induction false} NothingOwed(cfg: Config, w: World, ms: seq<Move>)
    requires cfg.rate <= 0.0 && w.owed == 0 && IsRun(cfg, w, ms)
    ensures After(cfg, w, ms).owed == 0
    decreases |ms|
  {
    if ms != [] {
      NothingOwed(cfg, Do(cfg, w, ms[0]), ms[1..]);
    }
  }

  /** The probes under way, and the one that may still start. */
  function Budget(w: World): nat { w.probes + if w.g.mode == HalfOpen && w.g.probing then 0 else 1 }

  lemma {:induction false} BudgetSpent(cfg: Config, w: World, ms: seq<Move>)
    requires cfg.threshold > 0 && cfg.rate <= 0.0 && w.owed == 0 && w.g.mode != Closed
    requires IsRun(cfg, w, ms) && NoReports(ms)
    ensures Probed(cfg, w, ms) <= Budget(w)
    decreases |ms|
  {
    if ms != [] {
      var v := Do(cfg, w, ms[0]);
      assert !ms[0].Good? && !ms[0].Bad?;
      BudgetSpent(cfg, v, ms[1..]);
    }
  }

  /** All loads let through, also of callers that found the breaker closed and took their token later. */
  function LetIn(cfg: Config, w: World, ms: seq<Move>): nat
    requires IsRun(cfg, w, ms)
    decreases |ms|
  {
    if ms == [] then 0
    else
      (if (ms[0].TakeProbe? || ms[0].TakeWaved?) && TakeToken(cfg, w.g, ms[0].now).ok then 1 else 0) +
      LetIn(cfg, Do(cfg, w, ms[0]), ms[1..])
  }

  lemma {:induction false} LetInBounded(cfg: Config, w: World, ms: seq<Move>)
    requires cfg.threshold > 0 && cfg.rate <= 0.0 && w.owed == 0 && w.g.mode != Closed
    requires IsRun(cfg, w, ms) && NoReports(ms)
    ensures LetIn(cfg, w, ms) <= w.waved + Budget(w)
    decreases |ms|
  {
    if ms != [] {
      var v := Do(cfg, w, ms[0]);
      assert !ms[0].Good? && !ms[0].Bad?;
      LetInBounded(cfg, v, ms[1..]);
    }
  }

  /** A run, all at one instant, that lets in all of them. */
  lemma {:induction false} LetInReached(cfg: Config, w: World, now: real) returns (ms: seq<Move>)
    requires cfg.threshold > 0 && cfg.rate <= 0.0 && w.g.mode != Closed && now - w.g.openedAt >= cfg.openTimeout
    ensures IsRun(cfg, w, ms) && NoReports(ms) && Timely(ms, now) && LetIn(cfg, w, ms) == w.waved + Budget(w)
    decreases w.waved + Budget(w), if w.g.mode == HalfOpen && w.g.probing then 0 else 1
  {
    if w.waved + Budget(w) == 0 {
      ms := [];
    } else {
      var m := if w.waved > 0 then TakeWaved(now) else if w.probes > 0 then TakeProbe(now) else Check(now);
      var rest := LetInReached(cfg, Do(cfg, w, m), now);
      ms := [m] + rest;
      assert ms[1..] == rest;
    }
  }

  /**
   * Of an open or half-open breaker without a rate limit: up to n loads are let through before the next report, whatever
   * the interleaving, if and only if n callers are past the check or may still pass it.
   */
  lemma {:induction false} LetInIff(cfg: Config, w: World, n: nat)
    requires cfg.threshold > 0 && cfg.rate <= 0.0 && w.owed == 0 && w.g.mode != Closed
    ensures (forall ms :: IsRun(cfg, w, ms) && NoReports(ms) ==> LetIn(cfg, w, ms) <= n) <==> w.waved + Budget(w) <= n
  {
    forall ms | IsRun(cfg, w, ms) && NoReports(ms)
      ensures LetIn(cfg, w, ms) <= w.waved + Budget(w)
    {
      LetInBounded(cfg, w, ms);
    }
    var top := LetInReached(cfg, w, w.g.openedAt + cfg.openTimeout);
  }

  // ---------------------------------------------------------------- with one

  function Times<T>(x: T, n: nat): seq<T> { if n == 0 then [] else [x] + Times(x, n - 1) }

  lemma {:induction false} Waves(cfg: Config, w: World, n: nat)
    requires w.g.mode == Closed
    ensures IsRun(cfg, w, Times(Check(0.0), n))
    ensures After(cfg, w, Times(Check(0.0), n)) == w.(waved := w.waved + n)
    decreases n
  {
    if n > 0 {
      var ms := Times(Check(0.0), n);
      assert ms[1..] == Times(Check(0.0), n - 1);
      Waves(cfg, Do(cfg, w, ms[0]), n - 1);
    }
  }

  lemma {:induction false} Failures(cfg: Config, w: World, n: nat)
    requires cfg.threshold > 0 && w.g.mode == Closed && w.g.fails + n == cfg.threshold && n > 0
    ensures IsRun(cfg, w, Times(Bad(0.0), n))
    ensures After(cfg, w, Times(Bad(0.0), n)) ==
            w.(g := w.g.(fails := cfg.threshold, probing := false, mode := Open, openedAt := 0.0))
    decreases n
  {
    var ms := Times(Bad(0.0), n);
    assert ms[1..] == Times(Bad(0.0), n - 1);
    if n > 1 {
      Failures(cfg, Do(cfg, w, ms[0]), n - 1);
    }
  }

  lemma {:induction false} Chain(cfg: Config, w: World, a: seq<Move>, b: seq<Move>)
    requires IsRun(cfg, w, a) && IsRun(cfg, After(cfg, w, a), b)
    ensures IsRun(cfg, w, a + b)
    ensures After(cfg, w, a + b) == After(cfg, After(cfg, w, a), b)
    ensures Probed(cfg, w, a + b) == Probed(cfg, w, a) + Probed(cfg, After(cfg, w, a), b)
    decreases |a|
  {
    if a == [] {
      assert a + b == b;
    } else {
      assert (a + b)[1..] == a[1..] + b;
      Chain(cfg, Do(cfg, w, a[0]), a[1..], b);
    }
  }

  /** At one instant, every whole token can be drained by callers that were waved through. */
  lemma {:induction false} Drain(cfg: Config, w: World, now: real, n: nat)
    requires cfg.rate > 0.0 && w.g.lastRefill == now && n as real <= w.g.tokens <= Cap(cfg) && n <= w.waved
    ensures IsRun(cfg, w, Times(TakeWaved(now), n))
    ensures After(cfg, w, Times(TakeWaved(now), n)) == w.(g := w.g.(tokens := w.g.tokens - n as real), waved := w.waved - n)
    decreases n
  {
    if n > 0 {
      var ms := Times(TakeWaved(now), n);
      assert ms[1..] == Times(TakeWaved(now), n - 1);
      RefillAgain(cfg, w.g, w.g, now);
      Drain(cfg, Do(cfg, w, ms[0]), now, n - 1);
    }
  }

  /** The setup: callers are waved through, then the breaker opens. */
  function Setup(cfg: Config, n: nat): seq<Move> { Times(Check(0.0), n) + Times(Bad(0.0), Max(cfg.threshold, 0)) }

  function Opened(cfg: Config, n: nat): World
  {
    World(State(InitialTokens(cfg), 0.0, cfg.threshold, Open, 0.0, false), n, 0, 0)
  }

  lemma {:induction false} SetupRuns(cfg: Config, n: nat)
    requires cfg.threshold > 0
    ensures IsRun(cfg, Start(cfg), Setup(cfg, n)) && After(cfg, Start(cfg), Setup(cfg, n)) == Opened(cfg, n)
  {
    Waves(cfg, Start(cfg), n);
    var w := After(cfg, Start(cfg), Times(Check(0.0), n));
    Failures(cfg, w, cfg.threshold);
    Chain(cfg, Start(cfg), Times(Check(0.0), n), Times(Bad(0.0), cfg.threshold));
  }

  /** A time by which the breaker admits a probe and the bucket is full. */
  function Late(cfg: Config): real
    requires cfg.rate > 0.0
  {
    cfg.openTimeout + Cap(cfg) / cfg.rate
  }

  lemma {:induction false} DivideBack(x: real, r: real)
    requires r > 0.0
    ensures x / r * r == x
    ensures x > 0.0 ==> x / r > 0.0
  {
  }

  lemma {:induction false} LateIsFull(cfg: Config, w: World)
    requires cfg.rate > 0.0 && cfg.openTimeout > 0.0 && w.g.lastRefill == 0.0 && w.g.tokens >= 0.0
    ensures Late(cfg) >= cfg.openTimeout
    ensures Refilled(cfg, w.g, Late(cfg)) == Cap(cfg)
  {
    var d := Cap(cfg) / cfg.rate;
    DivideBack(Cap(cfg), cfg.rate);
    EarnedSplit(cfg, 0.0, d, Late(cfg));
    EarnedGrows(cfg, d, Late(cfg));
    assert Earned(cfg, 0.0, d) == d * cfg.rate;
  }

  function Probing(cfg: Config, tokens: real, now: real): State
  {
    State(tokens, now, cfg.threshold, HalfOpen, 0.0, true)
  }

  /** The first probe of the open breaker is let through. */
  lemma {:induction false} FirstProbe(cfg: Config, n: nat, t: real)
    requires cfg.rate > 0.0 && cfg.threshold > 0 && t >= cfg.openTimeout
    requires Refilled(cfg, Opened(cfg, n).g, t) == Cap(cfg)
    ensures var w, ms := Opened(cfg, n), [Check(t), TakeProbe(t)];
            && IsRun(cfg, w, ms) && Probed(cfg, w, ms) == 1
            && After(cfg, w, ms) == World(Probing(cfg, Cap(cfg) - 1.0, t), n, 0, 0)
  {
    var w := Opened(cfg, n);
    var w1 := World(w.g.(mode := HalfOpen, probing := true), n, 1, 0);
    var w2 := World(Probing(cfg, Cap(cfg) - 1.0, t), n, 0, 0);
    assert Do(cfg, w, Check(t)) == w1;
    assert Refilled(cfg, w1.g, t) == Cap(cfg);
    assert Do(cfg, w1, TakeProbe(t)) == w2 && TakeToken(cfg, w1.g, t).ok;
    var m1 := [TakeProbe(t)];
    assert m1[0] == TakeProbe(t) && m1[1..] == [];
    assert IsRun(cfg, w2, []) && Probed(cfg, w2, []) == 0 && After(cfg, w2, []) == w2;
    assert IsRun(cfg, w1, m1);
    assert Probed(cfg, w1, m1) == 1;
    assert After(cfg, w1, m1) == w2;
    assert [Check(t), TakeProbe(t)][1..] == m1;
  }

  /** A waved caller that finds the bucket empty frees a slot that is not its own, and a second probe goes through. */
  lemma {:induction false} SecondProbe(cfg: Config, x: real, now: real, later: real)
    requires cfg.rate > 0.0 && cfg.threshold > 0 && 0.0 <= x < 1.0 && Earned(cfg, now, later) >= 1.0
    ensures var w := World(Probing(cfg, x, now), 1, 0, 0);
            var ms := [TakeWaved(now), Release, Check(now), TakeProbe(later)];
            IsRun(cfg, w, ms) && Probed(cfg, w, ms) == 1
  {
    var w := World(Probing(cfg, x, now), 1, 0, 0);
    RefillAgain(cfg, w.g, w.g, now);
    assert Do(cfg, w, TakeWaved(now)) == World(w.g, 0, 0, 1);
    var free := World(w.g.(probing := false), 0, 0, 0);
    assert Do(cfg, World(w.g, 0, 0, 1), Release) == free;
    assert Do(cfg, free, Check(now)) == World(w.g, 0, 1, 0);
    assert TakeToken(cfg, w.g, later).ok;
    var ms := [TakeWaved(now), Release, Check(now), TakeProbe(later)];
    var m1, m2, m3 := ms[1..], ms[1..][1..], ms[1..][1..][1..];
    assert m1[0] == Release && m2[0] == Check(now) && m3[0] == TakeProbe(later) && m3[1..] == [];
    assert m3 == [TakeProbe(later)];
    assert IsRun(cfg, Do(cfg, World(w.g, 0, 1, 0), m3[0]), []);
    assert Probed(cfg, Do(cfg, World(w.g, 0, 1, 0), m3[0]), []) == 0;
    assert IsRun(cfg, World(w.g, 0, 1, 0), m3) && Probed(cfg, World(w.g, 0, 1, 0), m3) == 1;
    assert IsRun(cfg, free, m2) && Probed(cfg, free, m2) == 1;
    assert IsRun(cfg, World(w.g, 0, 0, 1), m1) && Probed(cfg, World(w.g, 0, 0, 1), m1) == 1;
  }

  lemma {:induction false} TimelyEarlier(ms: seq<Move>, t: real, u: real)
    requires t <= u && Timely(ms, u)
    ensures Timely(ms, t)
    decreases |ms|
  {
    if ms != [] && TimeOf(ms[0], t) != TimeOf(ms[0], u) {
      TimelyEarlier(ms[1..], t, u);
    }
  }

  lemma {:induction false} TimelyCons(m: Move, ms: seq<Move>, t: real)
    requires t <= TimeOf(m, t) && Timely(ms, TimeOf(m, t))
    ensures Timely([m] + ms, t)
  {
    assert ([m] + ms)[0] == m && ([m] + ms)[1..] == ms;
  }

  lemma {:induction false} TimelyTimes(m: Move, n: nat, rest: seq<Move>, t: real)
    requires t <= TimeOf(m, t) && Timely(rest, TimeOf(m, t)) && !m.Release? && !m.Good?
    ensures Timely(Times(m, n) + rest, t)
    decreases n
  {
    if n == 0 {
      assert Times(m, n) + rest == rest;
      TimelyEarlier(rest, t, TimeOf(m, t));
    } else {
      TimelyTimes(m, n - 1, rest, TimeOf(m, t));
      TimelyCons(m, Times(m, n - 1) + rest, t);
      assert Times(m, n) + rest == [m] + (Times(m, n - 1) + rest);
    }
  }

  lemma {:induction false} NoReportTimes(now: real, n: nat)
    ensures NoReports(Times(TakeWaved(now), n))
    decreases n
  {
    if n > 0 {
      NoReportTimes(now, n - 1);
    }
  }

  /** The probe is let through, the bucket is drained, and a waved caller makes room for a second probe. */
  function Rest(t: real, u: real, k: nat): seq<Move>
  {
    [Check(t), TakeProbe(t)] + (Times(TakeWaved(t), k) + [TakeWaved(t), Release, Check(t), TakeProbe(u)])
  }

  lemma {:induction false} RestTimely(t: real, u: real, k: nat)
    requires 0.0 <= t <= u
    ensures Timely(Rest(t, u, k), 0.0)
  {
    var tail := [TakeWaved(t), Release, Check(t), TakeProbe(u)];
    assert tail[1..] == [Release, Check(t), TakeProbe(u)] && tail[1..][1..] == [Check(t), TakeProbe(u)];
    assert tail[1..][1..][1..] == [TakeProbe(u)] && [TakeProbe(u)][1..] == [];
    assert Timely([TakeProbe(u)], t);
    assert Timely([Check(t), TakeProbe(u)], t);
    assert Timely([Release, Check(t), TakeProbe(u)], t);
    assert Timely(tail, t);
    var drained := Times(TakeWaved(t), k) + tail;
    TimelyTimes(TakeWaved(t), k, tail, t);
    var rest := Rest(t, u, k);
    assert rest[1..] == [TakeProbe(t)] + drained && rest[1..][1..] == drained;
  }

  lemma {:induction false} SetupTimely(cfg: Config, n: nat, rest: seq<Move>)
    requires Timely(rest, 0.0)
    ensures Timely(Setup(cfg, n) + rest, 0.0)
  {
    var bads := Times(Bad(0.0), Max(cfg.threshold, 0));
    TimelyTimes(Bad(0.0), Max(cfg.threshold, 0), rest, 0.0);
    TimelyTimes(Check(0.0), n, bads + rest, 0.0);
    assert Setup(cfg, n) + rest == Times(Check(0.0), n) + (bads + rest);
  }

  lemma {:induction false} RestRuns(cfg: Config, t: real, u: real, k: nat)
    requires cfg.rate > 0.0 && cfg.threshold > 0 && t >= cfg.openTimeout && k == (Cap(cfg) - 1.0).Floor
    requires Refilled(cfg, Opened(cfg, k + 1).g, t) == Cap(cfg) && Earned(cfg, t, u) >= 1.0
    ensures var w := Opened(cfg, k + 1); IsRun(cfg, w, Rest(t, u, k)) && Probed(cfg, w, Rest(t, u, k)) >= 2
    ensures NoReports(Rest(t, u, k))
  {
    FirstProbe(cfg, k + 1, t);
    var w1 := World(Probing(cfg, Cap(cfg) - 1.0, t), k + 1, 0, 0);
    Drain(cfg, w1, t, k);
    SecondProbe(cfg, Cap(cfg) - 1.0 - k as real, t, u);
    var tail := [TakeWaved(t), Release, Check(t), TakeProbe(u)];
    Chain(cfg, w1, Times(TakeWaved(t), k), tail);
    Chain(cfg, Opened(cfg, k + 1), [Check(t), TakeProbe(t)], Times(TakeWaved(t), k) + tail);
    NoReportTimes(t, k);
  }

  /** With a rate limit, whatever its rate and burst, two probes can be under way without a report between them. */
  lemma {:induction false} LimiterBreaksProbe(cfg: Config) returns (setup: seq<Move>, rest: seq<Move>)
    requires cfg.rate > 0.0 && cfg.threshold > 0 && cfg.openTimeout > 0.0
    ensures TwoProbes(cfg, setup, rest)
  {
    var t, u, k := Late(cfg), Late(cfg) + 1.0 / cfg.rate, (Cap(cfg) - 1.0).Floor;
    LateIsFull(cfg, Opened(cfg, k + 1));
    LaterEarns(cfg, t);
    setup, rest := Setup(cfg, k + 1), Rest(t, u, k);
    SetupRuns(cfg, k + 1);
    RestTimely(t, u, k);
    SetupTimely(cfg, k + 1, rest);
    RestRuns(cfg, t, u, k);
  }

  lemma {:induction false} LaterEarns(cfg: Config, t: real)
    requires cfg.rate > 0.0
    ensures Earned(cfg, t, t + 1.0 / cfg.rate) == 1.0 && 1.0 / cfg.rate > 0.0
  {
    DivideBack(1.0, cfg.rate);
    var d := 1.0 / cfg.rate;
    assert (t + d) - t == d;
  }

  /** Interleaved callers keep to one probe between reports if and only if there is no rate limit. */
  lemma {:induction false} OneProbeIff(cfg: Config)
    requires cfg.threshold > 0 && cfg.openTimeout > 0.0
    ensures cfg.rate <= 0.0 <==> !exists setup, rest :: TwoProbes(cfg, setup, rest)
  {
    if cfg.rate <= 0.0 {
      forall setup, rest | TwoProbes(cfg, setup, rest)
        ensures false
      {
        var w := After(cfg, Start(cfg), setup);
        NothingOwed(cfg, Start(cfg), setup);
        BudgetSpent(cfg, w, rest);
      }
    } else {
      var setup, rest := LimiterBreaksProbe(cfg);
    }
  }

  // ---------------------------------------------------------------- the rate limit, interleaved

  /** The last time a move of the run reads. */
  function EndOf(ms: seq<Move>, t: real): real
    decreases |ms|
  {
    if ms == [] then t else EndOf(ms[1..], TimeOf(ms[0], t))
  }

  lemma {:induction false} EndLater(ms: seq<Move>, t: real)
    requires Timely(ms, t)
    ensures t <= EndOf(ms, t)
    decreases |ms|
  {
    if ms != [] {
      EndLater(ms[1..], TimeOf(ms[0], t));
    }
  }

  /** The move lets a load through. */
  predicate LetsIn(cfg: Config, w: World, m: Move)
  {
    (m.TakeProbe? || m.TakeWaved?) && TakeToken(cfg, w.g, m.now).ok
  }

  /** A load pays for its permit out of the bucket; every other move leaves the bucket alone. */
  lemma {:induction false} MovePays(cfg: Config, w: World, m: Move, t: real)
    requires cfg.rate > 0.0 && Enabled(w, m)
    ensures var u := TimeOf(m, t);
            && Refilled(cfg, Do(cfg, w, m).g, u) == Refilled(cfg, w.g, u) - (if LetsIn(cfg, w, m) then 1.0 else 0.0)
            && (Refilled(cfg, w.g, u) >= 0.0 ==> Refilled(cfg, Do(cfg, w, m).g, u) >= 0.0)
  {
    if m.TakeProbe? || m.TakeWaved? {
      RefillAgain(cfg, w.g, TakeToken(cfg, w.g, m.now).state, m.now);
    }
  }

  lemma {:induction false} LoadsPaidFor(cfg: Config, w: World, ms: seq<Move>, t1: real, t2: real)
    requires cfg.rate > 0.0 && IsRun(cfg, w, ms) && Timely(ms, t1) && EndOf(ms, t1) <= t2 && Refilled(cfg, w.g, t1) >= 0.0
    ensures LetIn(cfg, w, ms) as real <= Refilled(cfg, w.g, t1) + Earned(cfg, t1, t2)
    decreases |ms|
  {
    EndLater(ms, t1);
    if ms == [] {
      EarnedGrows(cfg, t1, t2);
    } else {
      var u := TimeOf(ms[0], t1);
      RefillGrows(cfg, w.g, t1, u);
      MovePays(cfg, w, ms[0], t1);
      LoadsPaidFor(cfg, Do(cfg, w, ms[0]), ms[1..], u, t2);
      EarnedSplit(cfg, t1, u, t2);
    }
  }

  lemma {:induction false} MoveSolvent(cfg: Config, w: World, m: Move, t: real)
    requires Enabled(w, m) && Solvent(w.g, t) && t <= TimeOf(m, t)
    ensures Solvent(Do(cfg, w, m).g, TimeOf(m, t))
  {
    if (m.TakeProbe? || m.TakeWaved?) && cfg.rate > 0.0 {
      EarnedGrows(cfg, w.g.lastRefill, m.now);
    }
  }

  lemma {:induction false} RunStaysSolvent(cfg: Config, w: World, ms: seq<Move>, t: real)
    requires IsRun(cfg, w, ms) && Timely(ms, t) && Solvent(w.g, t)
    ensures Solvent(After(cfg, w, ms).g, EndOf(ms, t))
    decreases |ms|
  {
    if ms != [] {
      MoveSolvent(cfg, w, ms[0], t);
      RunStaysSolvent(cfg, Do(cfg, w, ms[0]), ms[1..], TimeOf(ms[0], t));
    }
  }

  /**
   * However the critical sections of concurrent callers and the reports interleave, and whatever came before: between two
   * instants a new guard lets through at most the burst plus rate times the time between them.
   */
  lemma {:induction false} LoadsBounded(cfg: Config, before: seq<Move>, ms: seq<Move>, t1: real, t2: real)
    requires cfg.rate > 0.0 && IsRun(cfg, Start(cfg), before) && Timely(before, 0.0) && EndOf(before, 0.0) <= t1
    requires IsRun(cfg, After(cfg, Start(cfg), before), ms) && Timely(ms, t1) && EndOf(ms, t1) <= t2
    ensures LetIn(cfg, After(cfg, Start(cfg), before), ms) as real <= Cap(cfg) + Earned(cfg, t1, t2)
  {
    var w := After(cfg, Start(cfg), before);
    RunStaysSolvent(cfg, Start(cfg), before, 0.0);
    FullBucket(cfg, w.g, t1);
    LoadsPaidFor(cfg, w, ms, t1, t2);
  }
}
