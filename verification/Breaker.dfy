/** The circuit breaker (resilience/breaker.go) as the atomic steps between its mutex
    acquisitions. A state change drops the lock in the middle of a call while the callback runs, so
    any other step may come between the two halves of that call. */
module CircuitBreaker {
  import opened Prelude

  datatype State = Closed | Open | HalfOpen

  datatype Counts = Counts(requests: nat, successes: nat, failures: nat, successRun: nat, failureRun: nat)

  const NO_COUNTS := Counts(0, 0, 0, 0, 0)

  type Time = int

  datatype Config = Config(maxRequests: nat, openTimeout: Time, minRequests: nat, failureRatio: real, consecutiveFailures: nat, notifies: bool)

  /** The defaults of an unset field. */
  function WithDefaults(cfg: Config): Config {
    cfg.(maxRequests := if cfg.maxRequests == 0 then 1 else cfg.maxRequests,
         openTimeout := if cfg.openTimeout <= 0 then 60_000_000_000 else cfg.openTimeout,
         consecutiveFailures := if cfg.failureRatio == 0.0 && cfg.consecutiveFailures == 0 then 5 else cfg.consecutiveFailures)
  }

  /** What the mutex guards; no expiry is Go's zero time. */
  datatype Core = Core(state: State, generation: nat, counts: Counts, expiry: Option<Time>)

  // ---- What one critical section does to the core ----

  function NewGeneration(cfg: Config, c: Core, now: Time): Core {
    Core(c.state, c.generation + 1, NO_COUNTS, if c.state == Open then Some(now + cfg.openTimeout) else None)
  }

  function Transition(cfg: Config, c: Core, to: State, now: Time): Core {
    if c.state == to then c else NewGeneration(cfg, c.(state := to), now)
  }

  /** An open circuit whose time has come becomes half-open. */
  function Promote(cfg: Config, c: Core, now: Time): Core {
    if c.state == Open && c.expiry.Some? && now >= c.expiry.value then Transition(cfg, c, HalfOpen, now) else c
  }

  predicate Admits(cfg: Config, c: Core) {
    c.state != Open && (c.state == HalfOpen ==> c.counts.requests < cfg.maxRequests)
  }

  function FailureRatio(counts: Counts): real {
    if counts.requests == 0 then 0.0 else counts.failures as real / counts.requests as real
  }

  predicate Tripped(cfg: Config, counts: Counts) {
    || (cfg.consecutiveFailures > 0 && counts.failureRun >= cfg.consecutiveFailures)
    || (cfg.failureRatio > 0.0 && counts.requests >= cfg.minRequests && FailureRatio(counts) >= cfg.failureRatio)
  }

  function CountSuccess(n: Counts): Counts {
    n.(successes := n.successes + 1, successRun := n.successRun + 1, failureRun := 0)
  }

  function CountFailure(n: Counts): Counts {
    n.(failures := n.failures + 1, failureRun := n.failureRun + 1, successRun := 0)
  }

  function Record(cfg: Config, c: Core, success: bool, now: Time): Core {
    if success then
      var c' := c.(counts := CountSuccess(c.counts));
      if c.state == HalfOpen && c'.counts.successRun >= cfg.maxRequests then Transition(cfg, c', Closed, now) else c'
    else
      var c' := c.(counts := CountFailure(c.counts));
      match c.state
      case Closed => if Tripped(cfg, c'.counts) then Transition(cfg, c', Open, now) else c'
      case HalfOpen => Transition(cfg, c', Open, now)
      case Open => c'
  }

  // ---- The code ----

  class Breaker {
    const cfg: Config
    var state: State
    var generation: nat
    var counts: Counts
    var expiry: Option<Time>

    ghost function Guarded(): Core
      reads this
    {
      Core(state, generation, counts, expiry)
    }

    constructor (cfg: Config, now: Time)
      ensures this.cfg == WithDefaults(cfg) && Guarded() == Core(Closed, 1, NO_COUNTS, None)
      ensures this.cfg.maxRequests >= 1 && this.cfg.openTimeout > 0
    {
      this.cfg := WithDefaults(cfg);
      state, generation, counts, expiry := Closed, 0, NO_COUNTS, None;
      new;
      ToNewGeneration(now);
    }

    method ToNewGeneration(now: Time)
      modifies this
      ensures Guarded() == NewGeneration(cfg, old(Guarded()), now)
    {
      generation := generation + 1;
      counts := NO_COUNTS;
      if state == Open {
        expiry := Some(now + cfg.openTimeout);
      } else {
        expiry := None;
      }
    }

    /** Tells whether the lock is dropped for the callback at the end. */
    method SetState(to: State, now: Time) returns (unlocks: bool)
      modifies this
      ensures Guarded() == Transition(cfg, old(Guarded()), to, now)
      ensures unlocks <==> cfg.notifies && old(state) != to
    {
      if state == to {
        return false;
      }
      state := to;
      ToNewGeneration(now);
      return cfg.notifies;
    }

    method CurrentState(now: Time) returns (unlocks: bool)
      modifies this
      ensures Guarded() == Promote(cfg, old(Guarded()), now)
      ensures unlocks <==> cfg.notifies && Guarded() != old(Guarded())
    {
      unlocks := false;
      if state == Open && expiry.Some? && now >= expiry.value {
        unlocks := SetState(HalfOpen, now);
      }
    }

    /** beforeRequest once the state is current: the generation of an admitted call. */
    method Admit() returns (admitted: Option<nat>)
      modifies this`counts
      ensures admitted == if Admits(cfg, old(Guarded())) then Some(generation) else None
      ensures Guarded() == if admitted.Some? then old(Guarded()).(counts := old(counts).(requests := old(counts).requests + 1)) else old(Guarded())
    {
      if state == Open {
        return None;
      }
      if state == HalfOpen && counts.requests >= cfg.maxRequests {
        return None;
      }
      counts := counts.(requests := counts.requests + 1);
      return Some(generation);
    }

    /** afterRequest once the state is current: an outcome of an earlier generation is dropped. */
    method Settle(before: nat, success: bool, now: Time) returns (unlocks: bool)
      modifies this
      ensures Guarded() == if old(generation) != before then old(Guarded()) else Record(cfg, old(Guarded()), success, now)
      ensures unlocks <==> cfg.notifies && generation != old(generation)
    {
      if generation != before {
        return false;
      }
      if success {
        unlocks := OnSuccess(now);
      } else {
        unlocks := OnFailure(now);
      }
    }

    method OnSuccess(now: Time) returns (unlocks: bool)
      modifies this
      ensures Guarded() == Record(cfg, old(Guarded()), true, now)
      ensures unlocks <==> cfg.notifies && generation != old(generation)
    {
      unlocks := false;
      counts := CountSuccess(counts);
      if state == HalfOpen && counts.successRun >= cfg.maxRequests {
        unlocks := SetState(Closed, now);
      }
    }

    method OnFailure(now: Time) returns (unlocks: bool)
      modifies this
      ensures Guarded() == Record(cfg, old(Guarded()), false, now)
      ensures unlocks <==> cfg.notifies && generation != old(generation)
    {
      unlocks := false;
      counts := CountFailure(counts);
      match state {
        case Closed =>
          if Tripped(cfg, counts) {
            unlocks := SetState(Open, now);
          }
        case HalfOpen => unlocks := SetState(Open, now);
        case Open =>
      }
    }

    // ---- The critical sections, each proved to be the step of the same name ----

    /** beforeRequest up to its first unlock. Without a phase the call is rejected. */
    method BeforeRequest(now: Time, ghost s: System, ghost call: nat) returns (phase: Option<Phase>)
      requires s.core == Guarded() && call !in s.calls
      modifies this
      ensures Step(cfg, s, Enter(call, now)) == Some(System(Guarded(), Put(s.calls, call, phase)))
    {
      var unlocks := CurrentState(now);
      if unlocks {
        return Some(EntryGap);
      }
      phase := AdmitCall(s, call);
    }

    /** The rest of beforeRequest, right away or after the callback. */
    method AdmitCall(ghost s: System, ghost call: nat) returns (phase: Option<Phase>)
      modifies this`counts
      ensures Admission(cfg, old(Guarded()), s, call) == System(Guarded(), Put(s.calls, call, phase))
    {
      var admitted := Admit();
      match admitted {
        case Some(g) => return Some(Running(g));
        case None => return None;
      }
    }

    /** afterRequest up to its first unlock. */
    method AfterRequest(before: nat, success: bool, now: Time, ghost s: System, ghost call: nat) returns (phase: Option<Phase>)
      requires s.core == Guarded() && call in s.calls && s.calls[call] == Running(before)
      modifies this
      ensures Step(cfg, s, Finish(call, success, now)) == Some(System(Guarded(), Put(s.calls, call, phase)))
    {
      var unlocks := CurrentState(now);
      if unlocks {
        return Some(OutcomeGap(before, success, now));
      }
      phase := SettleCall(before, success, now, s, call);
    }

    /** The rest of afterRequest, with the time it read before the callback. */
    method SettleCall(before: nat, success: bool, at: Time, ghost s: System, ghost call: nat) returns (phase: Option<Phase>)
      modifies this
      ensures Settlement(cfg, old(Guarded()), s, call, before, success, at) == System(Guarded(), Put(s.calls, call, phase))
    {
      var unlocks := Settle(before, success, at);
      return if unlocks then Some(ExitGap) else None;
    }
  }

  ghost function Put(calls: map<nat, Phase>, call: nat, phase: Option<Phase>): map<nat, Phase> {
    match phase
    case Some(p) => calls[call := p]
    case None => calls - {call}
  }

  // ---- Interleavings ----

  /** Where a call stands whenever the mutex is free. */
  datatype Phase =
    | EntryGap                                        // its beforeRequest is inside the callback
    | Running(generation: nat)                        // admitted, its function is running
    | OutcomeGap(before: nat, success: bool, at: Time)  // its afterRequest is inside the callback of currentState
    | ExitGap                                         // nothing is left to do but return

  datatype System = System(core: Core, calls: map<nat, Phase>)

  datatype Event =
    | Enter(call: nat, now: Time)
    | Resume(call: nat)
    | Finish(call: nat, success: bool, now: Time)
    | Query(call: nat, now: Time)

  const START := System(Core(Closed, 1, NO_COUNTS, None), map[])

  /** Whether setState drops the lock. */
  predicate Unlocks(cfg: Config, before: Core, after: Core) {
    cfg.notifies && after.generation != before.generation
  }

  function Admission(cfg: Config, c: Core, s: System, call: nat): System {
    if Admits(cfg, c) then
      System(c.(counts := c.counts.(requests := c.counts.requests + 1)), s.calls[call := Running(c.generation)])
    else System(c, s.calls - {call})
  }

  function Settlement(cfg: Config, c: Core, s: System, call: nat, before: nat, success: bool, at: Time): System {
    if c.generation != before then System(c, s.calls - {call})
    else
      var c' := Record(cfg, c, success, at);
      System(c', if Unlocks(cfg, c, c') then s.calls[call := ExitGap] else s.calls - {call})
  }

  /** One critical section; none if the event cannot happen in s. */
  function Step(cfg: Config, s: System, e: Event): Option<System> {
    match e
    case Enter(call, now) =>
      if call in s.calls then None
      else
        var c := Promote(cfg, s.core, now);
        Some(if Unlocks(cfg, s.core, c) then System(c, s.calls[call := EntryGap]) else Admission(cfg, c, s, call))
    case Finish(call, success, now) =>
      if call !in s.calls || !s.calls[call].Running? then None
      else
        var before, c := s.calls[call].generation, Promote(cfg, s.core, now);
        Some(if Unlocks(cfg, s.core, c) then System(c, s.calls[call := OutcomeGap(before, success, now)])
             else Settlement(cfg, c, s, call, before, success, now))
    case Query(call, now) =>
      if call in s.calls then None
      else
        var c := Promote(cfg, s.core, now);
        Some(System(c, if Unlocks(cfg, s.core, c) then s.calls[call := ExitGap] else s.calls))
    case Resume(call) =>
      if call !in s.calls then None
      else
        match s.calls[call]
        case EntryGap => Some(Admission(cfg, s.core, s, call))
        case OutcomeGap(before, success, at) => Some(Settlement(cfg, s.core, s, call, before, success, at))
        case ExitGap => Some(System(s.core, s.calls - {call}))
        case Running(_) => None
  }

  // ---- The invariant ----

  ghost function InFlight(s: System): set<nat> {
    set call | call in s.calls && s.calls[call] == Running(s.core.generation)
  }

  ghost predicate CoreInv(cfg: Config, c: Core, inFlight: nat) {
    && c.generation >= 1
    && (c.state == Open <==> c.expiry.Some?)
    && c.counts.requests == inFlight + c.counts.successes + c.counts.failures
    && (c.state == Open ==> c.counts == NO_COUNTS)
    && (c.state == Closed && cfg.consecutiveFailures > 0 ==> c.counts.failureRun < cfg.consecutiveFailures)
    && (c.state == HalfOpen ==>
          && c.counts.failures == c.counts.failureRun == 0
          && c.counts.successRun == c.counts.successes < cfg.maxRequests
          && c.counts.requests <= cfg.maxRequests)
  }

  ghost predicate CallsInv(s: System) {
    forall call | call in s.calls ::
      && (s.calls[call].Running? ==> s.calls[call].generation <= s.core.generation)
      && (s.calls[call].Running? && s.calls[call].generation == s.core.generation ==> s.core.state != Open)
      && (s.calls[call].OutcomeGap? ==> s.calls[call].before < s.core.generation)
  }

  ghost predicate Inv(cfg: Config, s: System) {
    CoreInv(cfg, s.core, |InFlight(s)|) && CallsInv(s)
  }

  /** Nothing runs in a generation that has only just begun. */
  lemma FreshGeneration(s: System, s': System)
    requires CallsInv(s) && s'.core.generation > s.core.generation
    requires forall call | call in s'.calls && s'.calls[call].Running? :: call in s.calls && s'.calls[call] == s.calls[call]
    ensures InFlight(s') == {}
  {
  }

  lemma AdmissionKeepsInv(cfg: Config, c: Core, s: System, call: nat)
    requires Inv(cfg, System(c, s.calls))
    requires call !in s.calls || s.calls[call] == EntryGap
    ensures Inv(cfg, Admission(cfg, c, s, call))
  {
    var s0, s' := System(c, s.calls), Admission(cfg, c, s, call);
    if Admits(cfg, c) {
      assert InFlight(s') == InFlight(s0) + {call};
    } else {
      assert InFlight(s') == InFlight(s0);
    }
  }

  lemma SettlementKeepsInv(cfg: Config, c: Core, s: System, call: nat, before: nat, success: bool, at: Time)
    requires cfg.maxRequests >= 1 && Inv(cfg, System(c, s.calls))
    requires call in s.calls && (s.calls[call] == Running(before) || (s.calls[call] == OutcomeGap(before, success, at) && before != c.generation))
    ensures Inv(cfg, Settlement(cfg, c, s, call, before, success, at))
  {
    var s0, s' := System(c, s.calls), Settlement(cfg, c, s, call, before, success, at);
    if c.generation != before {
      assert InFlight(s') == InFlight(s0);
    } else if s'.core.generation == c.generation {
      assert InFlight(s') == InFlight(s0) - {call};
    } else {
      FreshGeneration(s0, s');
    }
  }

  lemma PromotionKeepsInv(cfg: Config, s: System, now: Time)
    requires cfg.maxRequests >= 1 && Inv(cfg, s)
    ensures Inv(cfg, System(Promote(cfg, s.core, now), s.calls))
  {
    var s' := System(Promote(cfg, s.core, now), s.calls);
    if s'.core.generation > s.core.generation {
      FreshGeneration(s, s');
    }
  }

  /** Only a change of phase: a call enters or leaves a gap. */
  lemma GapKeepsInv(cfg: Config, c: Core, s: System, calls: map<nat, Phase>, call: nat)
    requires Inv(cfg, System(c, s.calls))
    requires calls == s.calls - {call} || (call in calls && calls - {call} == s.calls - {call} && !calls[call].Running?)
    requires call in calls && calls[call].OutcomeGap? ==> calls[call].before < c.generation
    requires call in s.calls ==> s.calls[call] != Running(c.generation)
    ensures Inv(cfg, System(c, calls))
  {
    forall k | k in calls && k != call ensures k in s.calls && calls[k] == s.calls[k] {
      assert k in calls - {call} && (calls - {call})[k] == calls[k];
    }
    forall k | k in s.calls && k != call ensures k in calls && calls[k] == s.calls[k] {
      assert k in s.calls - {call} && (s.calls - {call})[k] == s.calls[k];
    }
    assert InFlight(System(c, calls)) == InFlight(System(c, s.calls));
  }

  /** In every interleaving, from the start on: requests are accounted for, an open circuit counts
      nothing, a half-open one has let in no more probes than allowed and seen none fail. */
  lemma StepKeepsInv(cfg: Config, s: System, e: Event)
    requires cfg.maxRequests >= 1 && Inv(cfg, s) && Step(cfg, s, e).Some?
    ensures Inv(cfg, Step(cfg, s, e).value)
  {
    match e
    case Enter(call, now) =>
      var c := Promote(cfg, s.core, now);
      PromotionKeepsInv(cfg, s, now);
      if Unlocks(cfg, s.core, c) {
        GapKeepsInv(cfg, c, s, s.calls[call := EntryGap], call);
      } else {
        AdmissionKeepsInv(cfg, c, s, call);
      }
    case Finish(call, success, now) =>
      var before, c := s.calls[call].generation, Promote(cfg, s.core, now);
      PromotionKeepsInv(cfg, s, now);
      if Unlocks(cfg, s.core, c) {
        GapKeepsInv(cfg, c, s, s.calls[call := OutcomeGap(before, success, now)], call);
      } else {
        SettlementKeepsInv(cfg, c, s, call, before, success, now);
      }
    case Query(call, now) =>
      var c := Promote(cfg, s.core, now);
      PromotionKeepsInv(cfg, s, now);
      if Unlocks(cfg, s.core, c) {
        GapKeepsInv(cfg, c, s, s.calls[call := ExitGap], call);
      }
    case Resume(call) =>
      match s.calls[call] {
        case EntryGap => AdmissionKeepsInv(cfg, s.core, s, call);
        case OutcomeGap(before, success, at) => SettlementKeepsInv(cfg, s.core, s, call, before, success, at);
        case ExitGap => GapKeepsInv(cfg, s.core, s, s.calls - {call}, call);
        case Running(_) =>
      }
  }

  lemma StartHasInv(cfg: Config)
    ensures Inv(WithDefaults(cfg), START)
  {
    assert InFlight(START) == {};
  }

  // ---- What a step may change ----

  /** Generations never go back, and within one neither the state nor the expiry changes. */
  predicate Advances(a: Core, b: Core) {
    a.generation <= b.generation && (a.generation == b.generation ==> a.state == b.state && a.expiry == b.expiry)
  }

  lemma SameGenerationSameState(cfg: Config, s: System, e: Event)
    requires Step(cfg, s, e).Some?
    ensures Advances(s.core, Step(cfg, s, e).value.core)
  {
  }

  /** A call that started in an earlier generation leaves the counts, and everything else the
      mutex guards, as they are apart from a promotion that is due. */
  lemma StaleOutcomeChangesNothing(cfg: Config, s: System, e: Event)
    requires Inv(cfg, s) && Step(cfg, s, e).Some?
    requires (e.Finish? && s.calls[e.call].generation != s.core.generation) || (e.Resume? && s.calls[e.call].OutcomeGap?)
    ensures var s' := Step(cfg, s, e).value;
            s'.core == if e.Finish? then Promote(cfg, s.core, e.now) else s.core
  {
  }

  /** The circuit stays open until the clock has been read at or past the expiry. */
  lemma OpenIsLeftOnTime(cfg: Config, s: System, e: Event)
    requires Inv(cfg, s) && Step(cfg, s, e).Some?
    requires s.core.state == Open && Step(cfg, s, e).value.core.state != Open
    ensures !e.Resume? && e.now >= s.core.expiry.value
    ensures Step(cfg, s, e).value.core.state == HalfOpen
  {
  }

  /** Half-open closes only on the last of exactly maxRequests successes, with none failed and none
      still running; it re-opens only on a failure. */
  lemma HalfOpenIsDecided(cfg: Config, s: System, e: Event)
    requires cfg.maxRequests >= 1 && Inv(cfg, s) && Step(cfg, s, e).Some?
    requires s.core.state == HalfOpen && Step(cfg, s, e).value.core.state != HalfOpen
    ensures e.Finish? && s.calls[e.call] == Running(s.core.generation)
    ensures var s' := Step(cfg, s, e).value;
            if e.success then
              s'.core.state == Closed && s.core.counts.successes + 1 == cfg.maxRequests && s.core.counts.failures == 0 && InFlight(s) == {e.call}
            else s'.core.state == Open && s'.core.expiry == Some(e.now + cfg.openTimeout)
  {
    assert e.call in InFlight(s);
    if e.success {
      assert |InFlight(s)| == 1;
      assert |InFlight(s) - {e.call}| == 0;
    }
  }

  /** Closed is left only for open, on a failure that meets a threshold. */
  lemma ClosedTrips(cfg: Config, s: System, e: Event)
    requires Inv(cfg, s) && Step(cfg, s, e).Some?
    requires s.core.state == Closed && Step(cfg, s, e).value.core.state != Closed
    ensures e.Finish? && !e.success && s.calls[e.call] == Running(s.core.generation)
    ensures Step(cfg, s, e).value.core.state == Open && Tripped(cfg, CountFailure(s.core.counts))
  {
  }

  /** With no probe in flight the half-open circuit lets the next call in, so it cannot wedge. */
  lemma NextProbeIsAdmitted(cfg: Config, s: System, call: nat, now: Time)
    requires Inv(cfg, s) && s.core.state == HalfOpen && InFlight(s) == {} && call !in s.calls
    ensures Step(cfg, s, Enter(call, now)).Some?
    ensures var s' := Step(cfg, s, Enter(call, now)).value;
            call in s'.calls && s'.calls[call] == Running(s.core.generation) && s'.core.counts.requests == s.core.counts.requests + 1
  {
  }

  // ---- Whole runs ----

  ghost predicate Run(cfg: Config, states: seq<System>, events: seq<Event>) {
    && |states| == |events| + 1
    && states[0] == START
    && forall i | 0 <= i < |events| :: Step(cfg, states[i], events[i]) == Some(states[i + 1])
  }

  lemma RunStepKeepsInv(cfg: Config, states: seq<System>, events: seq<Event>, i: nat)
    requires cfg.maxRequests >= 1 && Run(cfg, states, events) && i < |events| && Inv(cfg, states[i])
    ensures Inv(cfg, states[i + 1])
  {
    assert Step(cfg, states[i], events[i]) == Some(states[i + 1]);
    StepKeepsInv(cfg, states[i], events[i]);
  }

  lemma {:induction false} EveryStateHasInv(cfg: Config, states: seq<System>, events: seq<Event>, i: nat)
    requires Run(WithDefaults(cfg), states, events) && i < |states|
    ensures Inv(WithDefaults(cfg), states[i])
  {
    if i == 0 {
      StartHasInv(cfg);
    } else {
      EveryStateHasInv(cfg, states, events, i - 1);
      RunStepKeepsInv(WithDefaults(cfg), states, events, i - 1);
    }
  }

  lemma RunAdvances(cfg: Config, states: seq<System>, events: seq<Event>, k: nat)
    requires Run(cfg, states, events) && k < |events|
    ensures Advances(states[k].core, states[k + 1].core)
  {
    assert Step(cfg, states[k], events[k]) == Some(states[k + 1]);
    SameGenerationSameState(cfg, states[k], events[k]);
  }

  /** Over any run, generations never go back and each has one state. */
  lemma {:induction false} GenerationDeterminesState(cfg: Config, states: seq<System>, events: seq<Event>, i: nat, j: nat)
    requires Run(cfg, states, events) && i <= j < |states|
    ensures Advances(states[i].core, states[j].core)
    decreases j - i
  {
    if i < j {
      GenerationDeterminesState(cfg, states, events, i, j - 1);
      RunAdvances(cfg, states, events, j - 1);
    }
  }

  /** Over any run, while half-open: the requests let in are the probes in flight and those that
      succeeded, never more than allowed, and while open nothing is counted. */
  lemma RunsAccountForProbes(cfg: Config, states: seq<System>, events: seq<Event>, i: nat)
    requires Run(WithDefaults(cfg), states, events) && i < |states|
    ensures var c := states[i].core;
            && (c.state == HalfOpen ==>
                  && c.counts.requests == |InFlight(states[i])| + c.counts.successes <= WithDefaults(cfg).maxRequests
                  && c.counts.failures == 0)
            && (c.state == Open ==> c.counts == NO_COUNTS && InFlight(states[i]) == {})
  {
    EveryStateHasInv(cfg, states, events, i);
  }

  /** Over any run, a circuit that opened admits no call before some clock reading has reached its
      expiry, however the calls interleave. */
  lemma {:induction false} OpenHoldsUntilExpiry(cfg: Config, states: seq<System>, events: seq<Event>, i: nat, j: nat, expiry: Time)
    requires Run(WithDefaults(cfg), states, events) && i <= j < |states|
    requires states[i].core.state == Open && states[i].core.expiry == Some(expiry)
    requires forall k | i <= k < j :: events[k].Resume? || events[k].now < expiry
    ensures states[j].core == states[i].core
    ensures forall call | call in states[j].calls && states[j].calls[call].Running? :: call in states[i].calls && states[i].calls[call] == states[j].calls[call]
  {
    if i < j {
      OpenHoldsUntilExpiry(cfg, states, events, i, j - 1, expiry);
      EveryStateHasInv(cfg, states, events, j - 1);
      assert Step(WithDefaults(cfg), states[j - 1], events[j - 1]) == Some(states[j - 1 + 1]);
    }
  }
}
