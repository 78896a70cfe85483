/** The load guard (pkg/protect): a token bucket and a three-state breaker, over real time. */
module LoadGuard {
  import opened Basics

  datatype Config = Config(rate: real, burst: int, threshold: int, openTimeout: real)

  datatype Mode = Closed | Open | HalfOpen

  datatype State = State(tokens: real, lastRefill: real, fails: int, mode: Mode, openedAt: real, probing: bool)

  datatype Verdict = Allowed | RateLimited | CircuitOpen

  /** The configuration as New stores it. */
  function Normal(cfg: Config): Config
  {
    if cfg.openTimeout <= 0.0 then cfg.(openTimeout := 30.0) else cfg
  }

  function InitialTokens(cfg: Config): real
  {
    if cfg.rate <= 0.0 then 0.0
    else if cfg.burst > 0 then cfg.burst as real
    else Max(cfg.rate.Floor, 1) as real
  }

  function NewState(cfg: Config, now: real): State { State(InitialTokens(cfg), now, 0, Closed, 0.0, false) }

  /** The most tokens the bucket holds. */
  function Cap(cfg: Config): (c: real)
    ensures c >= 1.0
  {
    if cfg.burst > 0 then cfg.burst as real else if cfg.rate < 1.0 then 1.0 else cfg.rate
  }

  // ---------------------------------------------------------------- the critical sections

  datatype Answer = Answer(state: State, ok: bool)

  function CheckBreaker(cfg: Config, s: State, now: real): Answer
  {
    if cfg.threshold <= 0 || s.mode == Closed then Answer(s, true)
    else if s.mode == Open then
      if now - s.openedAt < cfg.openTimeout then Answer(s, false)
      else Answer(s.(mode := HalfOpen, probing := true), true)
    else if s.probing then Answer(s, false)
    else Answer(s.(probing := true), true)
  }

  /** What the limiter earns between two instants. */
  function Earned(cfg: Config, t1: real, t2: real): real { (t2 - t1) * cfg.rate }

  /** The tokens in the bucket once it has been refilled up to now. */
  function Refilled(cfg: Config, s: State, now: real): real
  {
    var t := s.tokens + Earned(cfg, s.lastRefill, now);
    if t > Cap(cfg) then Cap(cfg) else t
  }

  function TakeToken(cfg: Config, s: State, now: real): Answer
  {
    if cfg.rate <= 0.0 then Answer(s, true)
    else
      var t := Refilled(cfg, s, now);
      if t < 1.0 then Answer(s.(tokens := t, lastRefill := now), false)
      else Answer(s.(tokens := t - 1.0, lastRefill := now), true)
  }

  function ReleaseProbeSlot(cfg: Config, s: State): State
  {
    if cfg.threshold > 0 && s.mode == HalfOpen then s.(probing := false) else s
  }

  function OnSuccess(cfg: Config, s: State): State
  {
    if cfg.threshold <= 0 then s else s.(fails := 0, probing := false, mode := Closed)
  }

  function OnFailure(cfg: Config, s: State, now: real): State
  {
    if cfg.threshold <= 0 then s
    else
      var t := s.(fails := s.fails + 1, probing := false);
      if s.mode == HalfOpen || t.fails >= cfg.threshold then t.(mode := Open, openedAt := now) else t
  }

  /** Allow, as one step. */
  function Allow(cfg: Config, s: State, now: real): (State, Verdict)
  {
    var c := CheckBreaker(cfg, s, now);
    if !c.ok then (c.state, CircuitOpen)
    else
      var t := TakeToken(cfg, c.state, now);
      if !t.ok then (ReleaseProbeSlot(cfg, t.state), RateLimited) else (t.state, Allowed)
  }

  class Guard {
    const cfg: Config
    var tokens: real
    var lastRefill: real
    var fails: int
    var mode: Mode
    var openedAt: real
    var probing: bool

    function Snapshot(): State
      reads this
    {
      State(tokens, lastRefill, fails, mode, openedAt, probing)
    }

    constructor (config: Config, now: real)
      ensures cfg == Normal(config) && Snapshot() == NewState(config, now)
    {
      cfg := if config.openTimeout <= 0.0 then config.(openTimeout := 30.0) else config;
      lastRefill := now;
      fails, mode, openedAt, probing := 0, Closed, 0.0, false;
      tokens := 0.0;
      if config.rate > 0.0 {
        var burst := config.burst;
        if burst <= 0 {
          burst := config.rate.Floor;
          if burst < 1 {
            burst := 1;
          }
        }
        tokens := burst as real;
      }
    }

    method Check(now: real) returns (ok: bool)
      modifies this
      ensures CheckBreaker(cfg, old(Snapshot()), now) == Answer(Snapshot(), ok)
    {
      if cfg.threshold <= 0 {
        return true;
      }
      match mode {
        case Closed => ok := true;
        case Open =>
          if now - openedAt < cfg.openTimeout {
            return false;
          }
          mode, probing := HalfOpen, true;
          ok := true;
        case HalfOpen =>
          if probing {
            return false;
          }
          probing := true;
          ok := true;
      }
    }

    method Take(now: real) returns (ok: bool)
      modifies this
      ensures TakeToken(cfg, old(Snapshot()), now) == Answer(Snapshot(), ok)
    {
      if cfg.rate <= 0.0 {
        return true;
      }
      var elapsed := now - lastRefill;
      lastRefill := now;
      tokens := tokens + elapsed * cfg.rate;
      var burst := cfg.burst as real;
      if cfg.burst <= 0 {
        burst := cfg.rate;
        if burst < 1.0 {
          burst := 1.0;
        }
      }
      if tokens > burst {
        tokens := burst;
      }
      if tokens < 1.0 {
        return false;
      }
      tokens := tokens - 1.0;
      ok := true;
    }

    method Release()
      modifies this
      ensures Snapshot() == ReleaseProbeSlot(cfg, old(Snapshot()))
    {
      if cfg.threshold <= 0 {
        return;
      }
      if mode == HalfOpen {
        probing := false;
      }
    }

    method Admit(now: real) returns (v: Verdict)
      modifies this
      ensures Allow(cfg, old(Snapshot()), now) == (Snapshot(), v)
    {
      var ok := Check(now);
      if !ok {
        return CircuitOpen;
      }
      ok := Take(now);
      if !ok {
        Release();
        return RateLimited;
      }
      v := Allowed;
    }

    method Succeeded()
      modifies this
      ensures Snapshot() == OnSuccess(cfg, old(Snapshot()))
    {
      if cfg.threshold <= 0 {
        return;
      }
      fails, probing, mode := 0, false, Closed;
    }

    method Failed(now: real)
      modifies this
      ensures Snapshot() == OnFailure(cfg, old(Snapshot()), now)
    {
      if cfg.threshold <= 0 {
        return;
      }
      var wasHalfOpen := mode == HalfOpen;
      fails, probing := fails + 1, false;
      if wasHalfOpen || fails >= cfg.threshold {
        mode, openedAt := Open, now;
      }
    }
  }

  // ---------------------------------------------------------------- serialised runs

  datatype Event = Request(now: real) | Success(now: real) | Failure(now: real)

  function Step(cfg: Config, s: State, e: Event): State
  {
    match e
    case Request(now) => Allow(cfg, s, now).0
    case Success(_) => OnSuccess(cfg, s)
    case Failure(now) => OnFailure(cfg, s, now)
  }

  predicate Granted(cfg: Config, s: State, e: Event) { e.Request? && Allow(cfg, s, e.now).1 == Allowed }

  function Run(cfg: Config, s: State, evs: seq<Event>): State
    decreases |evs|
  {
    if evs == [] then s else Run(cfg, Step(cfg, s, evs[0]), evs[1..])
  }

  /** How many requests of the run are let through. */
  function Grants(cfg: Config, s: State, evs: seq<Event>): nat
    decreases |evs|
  {
    if evs == [] then 0
    else (if Granted(cfg, s, evs[0]) then 1 else 0) + Grants(cfg, Step(cfg, s, evs[0]), evs[1..])
  }

  /** All events happen between two instants, in order. */
  predicate Within(evs: seq<Event>, t1: real, t2: real)
    decreases |evs|
  {
    if evs == [] then t1 <= t2 else t1 <= evs[0].now && Within(evs[1..], evs[0].now, t2)
  }

  // ---------------------------------------------------------------- the rate limit

  lemma {:induction false} EarnedSplit(cfg: Config, t1: real, t2: real, t3: real)
    ensures Earned(cfg, t1, t3) == Earned(cfg, t1, t2) + Earned(cfg, t2, t3)
    ensures Earned(cfg, t1, t1) == 0.0
  {
  }

  lemma {:induction false} EarnedGrows(cfg: Config, t1: real, t2: real)
    requires cfg.rate > 0.0 && t1 <= t2
    ensures Earned(cfg, t1, t2) >= 0.0
  {
  }

  /** Letting time pass adds at most what is earned, and takes nothing away. */
  lemma {:induction false} RefillGrows(cfg: Config, s: State, t1: real, t2: real)
    requires cfg.rate > 0.0 && t1 <= t2
    ensures Refilled(cfg, s, t1) <= Refilled(cfg, s, t2) <= Refilled(cfg, s, t1) + Earned(cfg, t1, t2)
  {
    EarnedSplit(cfg, s.lastRefill, t1, t2);
    EarnedGrows(cfg, t1, t2);
  }

  lemma {:induction false} RefillAgain(cfg: Config, s: State, t: State, now: real)
    requires t.lastRefill == now && t.tokens <= Cap(cfg)
    ensures Refilled(cfg, t, now) == t.tokens
  {
    EarnedSplit(cfg, now, now, now);
  }

  /** A request pays for its permit out of the bucket; a report leaves the bucket alone. */
  lemma {:induction false} StepPays(cfg: Config, s: State, e: Event)
    requires cfg.rate > 0.0
    ensures Refilled(cfg, Step(cfg, s, e), e.now) == Refilled(cfg, s, e.now) - if Granted(cfg, s, e) then 1.0 else 0.0
    ensures Refilled(cfg, s, e.now) >= 0.0 ==> Refilled(cfg, Step(cfg, s, e), e.now) >= 0.0
  {
    if e.Request? {
      var c := CheckBreaker(cfg, s, e.now).state;
      assert Refilled(cfg, c, e.now) == Refilled(cfg, s, e.now);
      if CheckBreaker(cfg, s, e.now).ok {
        RefillAgain(cfg, c, TakeToken(cfg, c, e.now).state, e.now);
      }
    }
  }

  lemma {:induction false} WithinOrdered(evs: seq<Event>, t1: real, t2: real)
    requires Within(evs, t1, t2)
    ensures t1 <= t2
    decreases |evs|
  {
    if evs != [] {
      WithinOrdered(evs[1..], evs[0].now, t2);
    }
  }

  lemma {:induction false} PermitsPaidFor(cfg: Config, s: State, evs: seq<Event>, t1: real, t2: real)
    requires cfg.rate > 0.0 && Within(evs, t1, t2) && Refilled(cfg, s, t1) >= 0.0
    ensures Grants(cfg, s, evs) as real <= Refilled(cfg, s, t1) + Earned(cfg, t1, t2)
    decreases |evs|
  {
    WithinOrdered(evs, t1, t2);
    if evs == [] {
      EarnedGrows(cfg, t1, t2);
    } else {
      var t := evs[0].now;
      RefillGrows(cfg, s, t1, t);
      StepPays(cfg, s, evs[0]);
      PermitsPaidFor(cfg, Step(cfg, s, evs[0]), evs[1..], t, t2);
      EarnedSplit(cfg, t1, t, t2);
    }
  }

  /** The bucket is not overdrawn, and was last filled by t. */
  predicate Solvent(s: State, t: real) { s.tokens >= 0.0 && s.lastRefill <= t }

  lemma {:induction false} StepSolvent(cfg: Config, s: State, e: Event, t: real)
    requires Solvent(s, t) && t <= e.now
    ensures Solvent(Step(cfg, s, e), e.now)
  {
    if cfg.rate > 0.0 {
      EarnedGrows(cfg, s.lastRefill, e.now);
    }
  }

  lemma {:induction false} RunSolvent(cfg: Config, s: State, evs: seq<Event>, t1: real, t2: real)
    requires Solvent(s, t1) && Within(evs, t1, t2)
    ensures Solvent(Run(cfg, s, evs), t2)
    decreases |evs|
  {
    if evs != [] {
      StepSolvent(cfg, s, evs[0], t1);
      RunSolvent(cfg, Step(cfg, s, evs[0]), evs[1..], evs[0].now, t2);
    }
  }

  lemma {:induction false} FullBucket(cfg: Config, s: State, t: real)
    requires cfg.rate > 0.0 && Solvent(s, t)
    ensures 0.0 <= Refilled(cfg, s, t) <= Cap(cfg)
  {
    EarnedGrows(cfg, s.lastRefill, t);
  }

  /**
   * In any run of a new guard, whatever came before, between two instants it lets through at most the burst plus rate
   * times the time between them.
   */
  lemma {:induction false} PermitsBounded(cfg: Config, before: seq<Event>, evs: seq<Event>, t0: real, t1: real, t2: real)
    requires cfg.rate > 0.0 && Within(before, t0, t1) && Within(evs, t1, t2)
    ensures Grants(cfg, Run(cfg, NewState(cfg, t0), before), evs) as real <= Cap(cfg) + Earned(cfg, t1, t2)
  {
    var s := Run(cfg, NewState(cfg, t0), before);
    RunSolvent(cfg, NewState(cfg, t0), before, t0, t1);
    FullBucket(cfg, s, t1);
    PermitsPaidFor(cfg, s, evs, t1, t2);
  }

  /** With the breaker closed, a request that comes once a whole permit has been earned is let through. */
  lemma {:induction false} EarnedPermitGranted(cfg: Config, s: State, now: real)
    requires cfg.rate > 0.0 && s.tokens >= 0.0 && s.mode == Closed && Earned(cfg, s.lastRefill, now) >= 1.0
    ensures Granted(cfg, s, Request(now))
  {
  }

  // ---------------------------------------------------------------- the breaker

  predicate OnlyRequests(evs: seq<Event>) { forall k :: 0 <= k < |evs| ==> evs[k].Request? }

  lemma {:induction false} ProbeHolds(cfg: Config, s: State, evs: seq<Event>)
    requires cfg.threshold > 0 && s.mode == HalfOpen && s.probing && OnlyRequests(evs)
    ensures Grants(cfg, s, evs) == 0
    decreases |evs|
  {
    if evs != [] {
      ProbeHolds(cfg, Step(cfg, s, evs[0]), evs[1..]);
    }
  }

  /** Once the breaker is not closed, at most one request is let through before the next report. */
  lemma {:induction false} OneProbe(cfg: Config, s: State, evs: seq<Event>)
    requires cfg.threshold > 0 && s.mode != Closed && OnlyRequests(evs)
    ensures Grants(cfg, s, evs) <= 1
    ensures Run(cfg, s, evs).mode != Closed
    decreases |evs|
  {
    if evs != [] {
      var t := Step(cfg, s, evs[0]);
      OneProbe(cfg, t, evs[1..]);
      if Granted(cfg, s, evs[0]) {
        ProbeHolds(cfg, t, evs[1..]);
      }
    }
  }

  /** Until the open timeout has run out, none is. */
  lemma {:induction false} OpenRejects(cfg: Config, s: State, evs: seq<Event>)
    requires cfg.threshold > 0 && s.mode == Open
    requires forall k :: 0 <= k < |evs| ==> evs[k].Request? && evs[k].now - s.openedAt < cfg.openTimeout
    ensures Grants(cfg, s, evs) == 0 && Run(cfg, s, evs) == s
    decreases |evs|
  {
    if evs != [] {
      assert evs[0].Request? && evs[0].now - s.openedAt < cfg.openTimeout;
      OpenRejects(cfg, s, evs[1..]);
    }
  }

  /** A failure that leaves the breaker open starts the wait anew, and only then is a request checked through again. */
  lemma {:induction false} FailureStartsWait(cfg: Config, s: State, t: real, now: real, evs: seq<Event>)
    requires cfg.threshold > 0 && OnFailure(cfg, s, t).mode == Open && (s.mode == Open ==> s.fails + 1 >= cfg.threshold)
    requires forall k :: 0 <= k < |evs| ==> evs[k].Request? && evs[k].now < t + cfg.openTimeout
    ensures var o := OnFailure(cfg, s, t);
            Grants(cfg, o, evs) == 0 && (Allow(cfg, Run(cfg, o, evs), now).1 == CircuitOpen <==> now < t + cfg.openTimeout)
  {
    var o := OnFailure(cfg, s, t);
    forall k | 0 <= k < |evs|
      ensures evs[k].Request? && evs[k].now - o.openedAt < cfg.openTimeout
    {
      assert evs[k].now < t + cfg.openTimeout;
    }
    OpenRejects(cfg, o, evs);
  }

  /** A probe that the rate limit turns away does not hold the slot: the next request is checked through. */
  lemma {:induction false} LimitedProbeFreesSlot(cfg: Config, s: State, now: real, later: real)
    requires Allow(cfg, s, now).1 == RateLimited
    ensures CheckBreaker(cfg, Allow(cfg, s, now).0, later).ok
  {
  }

  /** The failures reported since the last success. */
  function Streak(evs: seq<Event>): nat
  {
    if evs == [] then 0
    else
      var init, last := evs[..|evs| - 1], evs[|evs| - 1];
      if last.Success? then 0 else if last.Failure? then Streak(init) + 1 else Streak(init)
  }

  lemma {:induction false} RunSnoc(cfg: Config, s: State, evs: seq<Event>, e: Event)
    ensures Run(cfg, s, evs + [e]) == Step(cfg, Run(cfg, s, evs), e)
    decreases |evs|
  {
    if evs == [] {
      assert evs + [e] == [e];
    } else {
      assert (evs + [e])[1..] == evs[1..] + [e];
      RunSnoc(cfg, Step(cfg, s, evs[0]), evs[1..], e);
    }
  }

  /** In every run of a new guard the breaker is closed exactly while fewer than threshold failures follow the last success. */
  lemma {:induction false} ClosedIff(cfg: Config, now: real, evs: seq<Event>)
    requires cfg.threshold > 0
    ensures Run(cfg, NewState(cfg, now), evs).fails == Streak(evs)
    ensures Run(cfg, NewState(cfg, now), evs).mode == Closed <==> Streak(evs) < cfg.threshold
    decreases |evs|
  {
    if evs != [] {
      var init, last := evs[..|evs| - 1], evs[|evs| - 1];
      ClosedIff(cfg, now, init);
      RunSnoc(cfg, NewState(cfg, now), init, last);
      assert evs == init + [last];
    }
  }
}
