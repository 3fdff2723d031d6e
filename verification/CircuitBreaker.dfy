/** The circuit breaker of the Soroban client: what each of its methods does to its fields. */
module BreakerCore {
  import opened Prelude

  datatype BreakerState = CLOSED | OPEN | HALF_OPEN

  datatype Config = Config(
    failureThreshold: int, openWindowMs: Option<int>, halfOpenAfterMs: Option<int>, cooldownPeriodMs: Option<int>)

  const OPEN_WINDOW_MS := 10000
  const HALF_OPEN_AFTER_MS := 30000

  /** The two settings the transitions read. */
  datatype Limits = Limits(failureThreshold: int, halfOpenAfterMs: int)

  datatype Breaker = Breaker(state: BreakerState, failureCount: nat, openedAt: int, activeProbes: nat)

  function Entered(b: Breaker, newState: BreakerState, now: int): Breaker {
    match newState
    case OPEN => b.(state := OPEN, openedAt := now, activeProbes := 0)
    case CLOSED => b.(state := CLOSED, failureCount := 0, activeProbes := 0)
    case HALF_OPEN => b.(state := HALF_OPEN, activeProbes := 0)
  }

  function Timed(l: Limits, b: Breaker, now: int): Breaker {
    if b.state.OPEN? && now - b.openedAt >= l.halfOpenAfterMs then Entered(b, HALF_OPEN, now) else b
  }

  predicate Admits(l: Limits, b: Breaker, now: int) {
    var c := Timed(l, b, now);
    !c.state.OPEN? && !(c.state.HALF_OPEN? && c.activeProbes >= 1)
  }

  /** The part of an execution before the call is made. */
  function Begun(l: Limits, b: Breaker, now: int): Breaker {
    var c := Timed(l, b, now);
    if c.state.HALF_OPEN? && c.activeProbes < 1 then c.(activeProbes := c.activeProbes + 1) else c
  }

  /** The part after it, when the call has succeeded. */
  function SuccessRecorded(b: Breaker, now: int): Breaker {
    match b.state
    case HALF_OPEN => Entered(b, CLOSED, now)
    case CLOSED => b.(failureCount := 0)
    case OPEN => b
  }

  /** The part after it, when the call has failed. */
  function FailureRecorded(l: Limits, b: Breaker, now: int): Breaker {
    match b.state
    case CLOSED =>
      var c := b.(failureCount := b.failureCount + 1);
      if c.failureCount >= l.failureThreshold then Entered(c, OPEN, now) else c
    case HALF_OPEN => Entered(b, OPEN, now)
    case OPEN => b
  }

  class CircuitBreaker {
    const limits: Limits
    const openWindowMs: int
    var state: BreakerState
    var failureCount: nat
    var openedAt: int
    var activeProbes: nat

    function View(): Breaker
      reads this
    {
      Breaker(state, failureCount, openedAt, activeProbes)
    }

    /** The probe delay is never shorter than the open window. */
    constructor (config: Config)
      ensures limits.failureThreshold == config.failureThreshold
      ensures openWindowMs == if config.openWindowMs.Some? then config.openWindowMs.value else OPEN_WINDOW_MS
      ensures limits.halfOpenAfterMs >= openWindowMs
      ensures config.halfOpenAfterMs.Some? && config.halfOpenAfterMs.value >= openWindowMs
        ==> limits.halfOpenAfterMs == config.halfOpenAfterMs.value
      ensures config.halfOpenAfterMs.None? && config.cooldownPeriodMs.Some? && config.cooldownPeriodMs.value >= openWindowMs
        ==> limits.halfOpenAfterMs == config.cooldownPeriodMs.value
      ensures config.halfOpenAfterMs.None? && config.cooldownPeriodMs.None? && HALF_OPEN_AFTER_MS >= openWindowMs
        ==> limits.halfOpenAfterMs == HALF_OPEN_AFTER_MS
      ensures limits.halfOpenAfterMs > openWindowMs
        ==> Some(limits.halfOpenAfterMs) in {config.halfOpenAfterMs, config.cooldownPeriodMs, Some(HALF_OPEN_AFTER_MS)}
      ensures View() == Breaker(CLOSED, 0, 0, 0)
    {
      var resolved :=
        if config.halfOpenAfterMs.Some? then config.halfOpenAfterMs.value
        else if config.cooldownPeriodMs.Some? then config.cooldownPeriodMs.value
        else HALF_OPEN_AFTER_MS;
      var window := if config.openWindowMs.Some? then config.openWindowMs.value else OPEN_WINDOW_MS;
      openWindowMs := window;
      limits := Limits(config.failureThreshold, if resolved >= window then resolved else window);
      state, failureCount, openedAt, activeProbes := CLOSED, 0, 0, 0;
    }

    method TransitionTo(newState: BreakerState, now: int)
      modifies this
      ensures View() == Entered(old(View()), newState, now)
    {
      state := newState;
      if newState.OPEN? {
        openedAt := now;
        activeProbes := 0;
      } else if newState.CLOSED? {
        failureCount := 0;
        activeProbes := 0;
      } else {
        activeProbes := 0;
      }
    }

    method CheckTimers(now: int)
      modifies this
      ensures View() == Timed(limits, old(View()), now)
    {
      if state.OPEN? {
        var elapsed := now - openedAt;
        if elapsed >= limits.halfOpenAfterMs {
          TransitionTo(HALF_OPEN, now);
        }
      }
    }

    /** `false` stands for the error thrown while the breaker rejects calls. */
    method ExecuteBegin(now: int) returns (admitted: bool)
      modifies this
      ensures admitted == Admits(limits, old(View()), now)
      ensures View() == Begun(limits, old(View()), now)
    {
      CheckTimers(now);
      if state.OPEN? { return false; }
      if state.HALF_OPEN? {
        if activeProbes >= 1 { return false; }
        activeProbes := activeProbes + 1;
      }
      return true;
    }

    /** The call has returned or thrown. */
    method ExecuteEnd(ok: bool, now: int)
      modifies this
      ensures View() == if ok then SuccessRecorded(old(View()), now) else FailureRecorded(limits, old(View()), now)
    {
      if ok {
        if state.HALF_OPEN? {
          TransitionTo(CLOSED, now);
        } else if state.CLOSED? {
          failureCount := 0;
        }
      } else {
        RecordFailure(now);
      }
    }

    method RecordFailure(now: int)
      modifies this
      ensures View() == FailureRecorded(limits, old(View()), now)
    {
      if state.CLOSED? {
        failureCount := failureCount + 1;
        if failureCount >= limits.failureThreshold {
          TransitionTo(OPEN, now);
        }
      } else if state.HALF_OPEN? {
        TransitionTo(OPEN, now);
      }
    }
  }
}

/** Runs of the breaker: calls begin, and settle whenever the network answers them. */
module CircuitBreaker {
  import opened BreakerCore

  /** A call in flight: when it was admitted, and whether as a probe. */
  datatype Call = Call(at: int, probe: bool)

  datatype State = State(b: Breaker, now: int, calls: map<nat, Call>, nextId: nat)

  /** A new call, the answer to a call in flight, or a look at the state. */
  datatype Step = Begins(now: int) | Settles(id: nat, ok: bool, now: int) | Looks(now: int)

  ghost predicate Initial(s: State) {
    s.b == Breaker(CLOSED, 0, 0, 0) && s.calls == map[]
  }

  /** The clock does not step back, and only a call in flight settles. */
  predicate Enabled(s: State, step: Step) {
    step.now >= s.now && (step.Settles? ==> step.id in s.calls)
  }

  function Apply(l: Limits, s: State, step: Step): State {
    if !Enabled(s, step) then s
    else
      match step
      case Begins(now) =>
        var b := Begun(l, s.b, now);
        if Admits(l, s.b, now)
        then State(b, now, s.calls[s.nextId := Call(now, b.state.HALF_OPEN?)], s.nextId + 1)
        else s.(b := b, now := now)
      case Settles(id, ok, now) =>
        State(if ok then SuccessRecorded(s.b, now) else FailureRecorded(l, s.b, now), now, s.calls - {id}, s.nextId)
      case Looks(now) => s.(b := Timed(l, s.b, now), now := now)
  }

  ghost function Run(l: Limits, s: State, steps: seq<Step>): State
    decreases |steps|
  {
    if steps == [] then s else Run(l, Apply(l, s, steps[0]), steps[1..])
  }

  predicate Admitted(l: Limits, s: State, step: Step) {
    Enabled(s, step) && step.Begins? && Admits(l, s.b, step.now)
  }

  /** The number of calls let through in a run. */
  ghost function Admissions(l: Limits, s: State, steps: seq<Step>): nat
    decreases |steps|
  {
    if steps == [] then 0
    else (if Admitted(l, s, steps[0]) then 1 else 0) + Admissions(l, Apply(l, s, steps[0]), steps[1..])
  }

  predicate Trips(l: Limits, s: State, step: Step) {
    !s.b.state.OPEN? && Apply(l, s, step).b.state.OPEN?
  }

  /** The instants at which the breaker opens in a run. */
  ghost function TripTimes(l: Limits, s: State, steps: seq<Step>): seq<int>
    decreases |steps|
  {
    if steps == [] then []
    else (if Trips(l, s, steps[0]) then [steps[0].now] else []) + TripTimes(l, Apply(l, s, steps[0]), steps[1..])
  }

  // ---------------------------------------------------------------- admission rate

  ghost predicate NoSuccess(steps: seq<Step>) {
    forall i :: 0 <= i < |steps| ==> !(steps[i].Settles? && steps[i].ok)
  }

  /** With `n` admissions since a trip at `since`: how far the clock must have come. */
  ghost predicate Paced(l: Limits, s: State, since: int, n: nat) {
    && s.now >= s.b.openedAt
    && match s.b.state
       case OPEN => n * l.halfOpenAfterMs <= s.b.openedAt - since
       case HALF_OPEN =>
         && s.now >= s.b.openedAt + l.halfOpenAfterMs
         && s.b.activeProbes <= 1
         && (n - s.b.activeProbes) * l.halfOpenAfterMs <= s.b.openedAt - since
       case CLOSED => false
  }

  lemma PacedBound(l: Limits, s: State, since: int, n: nat)
    requires Paced(l, s, since, n) && l.halfOpenAfterMs >= 0
    ensures n * l.halfOpenAfterMs <= s.now - since
  {
    if s.b.state.HALF_OPEN? && s.b.activeProbes == 1 {
      assert (n - 1) * l.halfOpenAfterMs + l.halfOpenAfterMs == n * l.halfOpenAfterMs;
    }
  }

  lemma PacedStep(l: Limits, s: State, step: Step, since: int, n: nat)
    requires Paced(l, s, since, n) && l.halfOpenAfterMs >= 0 && !(step.Settles? && step.ok)
    ensures Paced(l, Apply(l, s, step), since, n + (if Admitted(l, s, step) then 1 else 0))
  {
    PacedBound(l, s, since, n);
  }

  lemma {:induction false} PacedRun(l: Limits, s: State, steps: seq<Step>, since: int, n: nat)
    requires Paced(l, s, since, n) && l.halfOpenAfterMs >= 0 && NoSuccess(steps)
    ensures Paced(l, Run(l, s, steps), since, n + Admissions(l, s, steps))
    decreases |steps|
  {
    if steps != [] {
      PacedStep(l, s, steps[0], since, n);
      var more := if Admitted(l, s, steps[0]) then 1 else 0;
      PacedRun(l, Apply(l, s, steps[0]), steps[1..], since, n + more);
    }
  }

  /**
    In any stretch after a trip in which no call succeeds, one call is admitted per `halfOpenAfterMs` at most,
    whatever calls admitted earlier answer, and whenever they do.
    */
  lemma RateBound(l: Limits, s: State, step: Step, steps: seq<Step>)
    requires Trips(l, s, step) && l.halfOpenAfterMs >= 0 && NoSuccess(steps)
    ensures
      var tripped := Apply(l, s, step);
      Admissions(l, tripped, steps) * l.halfOpenAfterMs <= Run(l, tripped, steps).now - step.now
  {
    var tripped := Apply(l, s, step);
    PacedRun(l, tripped, steps, step.now, 0);
    PacedBound(l, Run(l, tripped, steps), step.now, Admissions(l, tripped, steps));
  }

  // ---------------------------------------------------------------- episodes and trips

  ghost predicate StaysHalfOpen(l: Limits, s: State, steps: seq<Step>)
    decreases |steps|
  {
    s.b.state.HALF_OPEN? && (steps != [] ==> StaysHalfOpen(l, Apply(l, s, steps[0]), steps[1..]))
  }

  /** One HALF_OPEN episode admits one call at most, over and above those it has admitted. */
  lemma {:induction false} OneCallPerEpisode(l: Limits, s: State, steps: seq<Step>)
    requires StaysHalfOpen(l, s, steps)
    ensures Admissions(l, s, steps) <= if s.b.activeProbes == 0 then 1 else 0
    decreases |steps|
  {
    if steps != [] {
      OneCallPerEpisode(l, Apply(l, s, steps[0]), steps[1..]);
    }
  }

  /** Between a trip and the end of the delay nothing is admitted. */
  lemma {:induction false} OpenRejects(l: Limits, s: State, steps: seq<Step>)
    requires s.b.state.OPEN? && forall i :: 0 <= i < |steps| ==> steps[i].now < s.b.openedAt + l.halfOpenAfterMs
    ensures Admissions(l, s, steps) == 0 && Run(l, s, steps).b == s.b
    decreases |steps|
  {
    if steps != [] {
      OpenRejects(l, Apply(l, s, steps[0]), steps[1..]);
    }
  }

  /** Once the breaker has tripped and left OPEN, the delay has passed. */
  ghost predicate Rested(l: Limits, s: State, last: int) {
    s.b.openedAt == last && s.now >= last && (!s.b.state.OPEN? ==> s.now >= last + l.halfOpenAfterMs)
  }

  lemma RestedStep(l: Limits, s: State, step: Step, last: int)
    requires Rested(l, s, last)
    ensures Rested(l, Apply(l, s, step), if Trips(l, s, step) then step.now else last)
    ensures Trips(l, s, step) ==> step.now >= last + l.halfOpenAfterMs
  {
  }

  lemma {:induction false} TripsFollow(l: Limits, s: State, steps: seq<Step>, last: int, k: nat)
    requires Rested(l, s, last) && k < |TripTimes(l, s, steps)|
    ensures TripTimes(l, s, steps)[k] - last >= (k + 1) * l.halfOpenAfterMs
    decreases |steps|
  {
    var t := Apply(l, s, steps[0]);
    RestedStep(l, s, steps[0], last);
    if !Trips(l, s, steps[0]) {
      TripsFollow(l, t, steps[1..], last, k);
    } else if k > 0 {
      TripsFollow(l, t, steps[1..], steps[0].now, k - 1);
      assert (k + 1) * l.halfOpenAfterMs == k * l.halfOpenAfterMs + l.halfOpenAfterMs;
    }
  }

  /** Over any run the breaker opens at most once per `halfOpenAfterMs`. */
  lemma {:induction false} TripsApart(l: Limits, s: State, steps: seq<Step>, i: nat, j: nat)
    requires i < j < |TripTimes(l, s, steps)|
    ensures TripTimes(l, s, steps)[j] - TripTimes(l, s, steps)[i] >= (j - i) * l.halfOpenAfterMs
    decreases |steps|
  {
    var t := Apply(l, s, steps[0]);
    if !Trips(l, s, steps[0]) {
      TripsApart(l, t, steps[1..], i, j);
    } else if i > 0 {
      TripsApart(l, t, steps[1..], i - 1, j - 1);
    } else {
      TripsFollow(l, t, steps[1..], steps[0].now, j - 1);
    }
  }

  /** The breaker after a call fails at each of the given instants in turn. */
  ghost function AfterFailures(l: Limits, b: Breaker, times: seq<int>): Breaker
    decreases |times|
  {
    if times == [] then b else AfterFailures(l, FailureRecorded(l, b, times[0]), times[1..])
  }

  lemma {:induction false} StaysOpen(l: Limits, b: Breaker, times: seq<int>)
    requires b.state.OPEN?
    ensures AfterFailures(l, b, times) == b
    decreases |times|
  {
    if times != [] { StaysOpen(l, b, times[1..]); }
  }

  /** A closed breaker opens exactly when its failures since the last success reach the threshold. */
  lemma {:induction false} OpensAtThreshold(l: Limits, b: Breaker, times: seq<int>)
    requires b.state.CLOSED? && times != []
    ensures AfterFailures(l, b, times).state.OPEN? <==> b.failureCount + |times| >= l.failureThreshold
    decreases |times|
  {
    var c := FailureRecorded(l, b, times[0]);
    if c.state.OPEN? {
      StaysOpen(l, c, times[1..]);
    } else if |times| > 1 {
      OpensAtThreshold(l, c, times[1..]);
    }
  }

  // ---------------------------------------------------------------- probes

  /** Every call answers in less than `bound`. */
  ghost predicate Answered(l: Limits, s: State, steps: seq<Step>, bound: int)
    decreases |steps|
  {
    steps != [] ==> Young(s, steps[0].now, bound) && Answered(l, Apply(l, s, steps[0]), steps[1..], bound)
  }

  ghost predicate Young(s: State, now: int, bound: int) {
    forall id :: id in s.calls ==> now < s.calls[id].at + bound
  }

  /** A probe is in flight only in HALF_OPEN, and is then the only call in flight. */
  ghost predicate ProbesAlone(s: State) {
    if s.b.state.HALF_OPEN?
    then
      && s.b.activeProbes <= 1
      && (s.b.activeProbes == 0 ==> s.calls == map[])
      && (forall id :: id in s.calls ==> s.calls[id].probe)
      && (forall i, j :: i in s.calls && j in s.calls ==> i == j)
    else forall id :: id in s.calls ==> !s.calls[id].probe
  }

  ghost predicate CallsInPast(s: State) {
    && (forall id :: id in s.calls ==> s.calls[id].at <= s.now)
    && (s.b.state.OPEN? ==> forall id :: id in s.calls ==> s.calls[id].at <= s.b.openedAt)
  }

  lemma CallsInPastStep(l: Limits, s: State, step: Step)
    requires CallsInPast(s)
    ensures CallsInPast(Apply(l, s, step))
  {
  }

  lemma NoneOutlivesDelay(l: Limits, s: State, now: int)
    requires CallsInPast(s) && s.b.state.OPEN? && now >= s.b.openedAt + l.halfOpenAfterMs
    requires forall id :: id in s.calls ==> now < s.calls[id].at + l.halfOpenAfterMs
    ensures s.calls == map[]
  {
    assert s.calls.Keys == {};
  }

  lemma ProbesAloneStep(l: Limits, s: State, step: Step)
    requires ProbesAlone(s) && CallsInPast(s)
    requires forall id :: id in s.calls ==> step.now < s.calls[id].at + l.halfOpenAfterMs
    ensures ProbesAlone(Apply(l, s, step))
  {
    if Enabled(s, step) && step.Settles? && s.b.state.HALF_OPEN? {
      assert forall id :: id in s.calls ==> id == step.id;
    } else if Enabled(s, step) && !step.Settles? && s.b.state.OPEN? && Timed(l, s.b, step.now).state.HALF_OPEN? {
      NoneOutlivesDelay(l, s, step.now);
    }
  }

  lemma {:induction false} ProbesAloneRun(l: Limits, s: State, steps: seq<Step>, bound: int)
    requires ProbesAlone(s) && CallsInPast(s) && Answered(l, s, steps, bound) && bound <= l.halfOpenAfterMs
    ensures ProbesAlone(Run(l, s, steps))
    decreases |steps|
  {
    if steps != [] {
      ProbesAloneStep(l, s, steps[0]);
      CallsInPastStep(l, s, steps[0]);
      ProbesAloneRun(l, Apply(l, s, steps[0]), steps[1..], bound);
    }
  }

  ghost predicate OneProbe(s: State) {
    forall i, j :: i in s.calls && j in s.calls && s.calls[i].probe && s.calls[j].probe ==> i == j
  }

  /**
    When calls answer within the delay, one probe is in flight at most, and what settles in HALF_OPEN is that probe:
    no call from before decides whether the breaker closes.
    */
  lemma OneProbeAtATime(l: Limits, s: State, steps: seq<Step>, bound: int)
    requires Initial(s) && Answered(l, s, steps, bound) && bound <= l.halfOpenAfterMs
    ensures
      var t := Run(l, s, steps);
      OneProbe(t) && (t.b.state.HALF_OPEN? ==> forall id :: id in t.calls ==> t.calls[id].probe)
  {
    ProbesAloneRun(l, s, steps, bound);
  }

  // ---------------------------------------------------------------- slow calls

  lemma Unroll(l: Limits, s: State, step: Step, rest: seq<Step>, bound: int)
    requires Young(s, step.now, bound) && Answered(l, Apply(l, s, step), rest, bound)
    ensures Answered(l, s, [step] + rest, bound) && Run(l, s, [step] + rest) == Run(l, Apply(l, s, step), rest)
  {
    assert ([step] + rest)[1..] == rest;
  }

  const START := State(Breaker(CLOSED, 0, 0, 0), 0, map[], 0)

  /** A slow call is out, and `j` others have failed. */
  function Failing(j: nat): State { State(Breaker(CLOSED, j, 0, 0), 0, map[0 := Call(0, false)], j + 1) }

  function Tripped(j: nat): State { State(Breaker(OPEN, j, 0, 0), 0, map[0 := Call(0, false)], j + 1) }

  /** How many failures open the breaker. */
  function Needed(l: Limits): nat { if l.failureThreshold > 1 then l.failureThreshold else 1 }

  lemma OneMoreFailure(l: Limits, j: nat)
    requires j < Needed(l)
    ensures Apply(l, Apply(l, Failing(j), Begins(0)), Settles(j + 1, false, 0))
         == if j + 1 == Needed(l) then Tripped(j + 1) else Failing(j + 1)
  {
    var s := Apply(l, Failing(j), Begins(0));
    assert s.calls == map[0 := Call(0, false), j + 1 := Call(0, false)];
    assert s.calls - {j + 1} == map[0 := Call(0, false)];
  }

  /** The breaker can be made to open while the slow call is out. */
  lemma {:induction false} TripThem(l: Limits, j: nat, rest: seq<Step>, bound: int) returns (steps: seq<Step>)
    requires j < Needed(l) && bound > 0 && Answered(l, Tripped(Needed(l)), rest, bound)
    ensures Answered(l, Failing(j), steps, bound) && Run(l, Failing(j), steps) == Run(l, Tripped(Needed(l)), rest)
    decreases Needed(l) - j
  {
    var s := Apply(l, Failing(j), Begins(0));
    OneMoreFailure(l, j);
    var tail := rest;
    if j + 1 < Needed(l) { tail := TripThem(l, j + 1, rest, bound); }
    Unroll(l, s, Settles(j + 1, false, 0), tail, bound);
    Unroll(l, Failing(j), Begins(0), [Settles(j + 1, false, 0)] + tail, bound);
    steps := [Begins(0)] + ([Settles(j + 1, false, 0)] + tail);
  }

  /** From there the slow call's failure ends the first probe's episode, and a second probe joins the first. */
  lemma ProbeBesideProbe(l: Limits, m: nat, bound: int) returns (rest: seq<Step>)
    requires l.halfOpenAfterMs > 0 && bound > l.halfOpenAfterMs
    ensures Answered(l, Tripped(m), rest, bound) && !OneProbe(Run(l, Tripped(m), rest))
  {
    var h := l.halfOpenAfterMs;
    var a, b, c := Begins(h), Settles(0, false, h), Begins(2 * h);
    var s1 := Apply(l, Tripped(m), a);
    assert s1 == State(Breaker(HALF_OPEN, m, 0, 1), h, map[0 := Call(0, false), m + 1 := Call(h, true)], m + 2);
    var s2 := Apply(l, s1, b);
    assert s2.calls == map[m + 1 := Call(h, true)];
    assert s2 == State(Breaker(OPEN, m, h, 0), h, map[m + 1 := Call(h, true)], m + 2);
    var s3 := Apply(l, s2, c);
    assert s3.calls == map[m + 1 := Call(h, true), m + 2 := Call(2 * h, true)];
    Unroll(l, s2, c, [], bound);
    Unroll(l, s1, b, [c] + [], bound);
    Unroll(l, Tripped(m), a, [b] + ([c] + []), bound);
    rest := [a] + ([b] + ([c] + []));
    assert s3.calls[m + 1].probe && s3.calls[m + 2].probe;
  }

  /** Calls that may take longer than the delay let a second probe out beside the first, whatever the threshold. */
  lemma SlowCallAllowsTwoProbes(l: Limits, bound: int) returns (steps: seq<Step>)
    requires l.halfOpenAfterMs > 0 && bound > l.halfOpenAfterMs
    ensures Answered(l, START, steps, bound) && !OneProbe(Run(l, START, steps))
  {
    var rest := ProbeBesideProbe(l, Needed(l), bound);
    var tail := TripThem(l, 0, rest, bound);
    assert Apply(l, START, Begins(0)) == Failing(0);
    Unroll(l, START, Begins(0), tail, bound);
    steps := [Begins(0)] + tail;
  }

  /** Calls that answer in less than `bound` leave one probe in flight at most exactly when `bound` is within the delay. */
  lemma OneProbeIff(l: Limits, bound: int)
    requires l.halfOpenAfterMs > 0
    ensures (forall s, steps :: Initial(s) && Answered(l, s, steps, bound) ==> OneProbe(Run(l, s, steps)))
      <==> bound <= l.halfOpenAfterMs
  {
    if bound <= l.halfOpenAfterMs {
      forall s, steps | Initial(s) && Answered(l, s, steps, bound) ensures OneProbe(Run(l, s, steps)) {
        OneProbeAtATime(l, s, steps, bound);
      }
    } else {
      var steps := SlowCallAllowsTwoProbes(l, bound);
      assert Initial(START);
    }
  }
}

/** What a sequence of answers does to the breaker. */
module BreakerOutcomes {
  import opened BreakerCore
  import opened CircuitBreaker

  datatype Outcome = Outcome(ok: bool, now: int)

  /** The breaker after calls have settled in turn. */
  ghost function AfterOutcomes(l: Limits, b: Breaker, outs: seq<Outcome>): Breaker
    decreases |outs|
  {
    if outs == [] then b
    else
      var settled := if outs[0].ok then SuccessRecorded(b, outs[0].now) else FailureRecorded(l, b, outs[0].now);
      AfterOutcomes(l, settled, outs[1..])
  }

  /** The answers from `i` up to `j` are all failures. */
  ghost predicate FailingStretch(outs: seq<Outcome>, i: nat, j: nat) {
    i < j <= |outs| && forall k :: i <= k < j ==> !outs[k].ok
  }

  /** A stretch of failures reaches the threshold, a first one counting on from the failures before it. */
  ghost predicate Reaches(l: Limits, outs: seq<Outcome>, before: nat, i: nat, j: nat) {
    FailingStretch(outs, i, j) && (j - i) + (if i == 0 then before else 0) >= l.failureThreshold
  }

  lemma {:induction false} OpenIgnoresAnswers(l: Limits, b: Breaker, outs: seq<Outcome>)
    requires b.state.OPEN?
    ensures AfterOutcomes(l, b, outs) == b
    decreases |outs|
  {
    if outs != [] { OpenIgnoresAnswers(l, b, outs[1..]); }
  }

  lemma LaterStretch(outs: seq<Outcome>, i: nat, j: nat)
    requires outs != [] && i < j
    ensures FailingStretch(outs[1..], i, j) <==> FailingStretch(outs, i + 1, j + 1)
  {
    if FailingStretch(outs[1..], i, j) {
      forall k | i + 1 <= k < j + 1 ensures !outs[k].ok { assert outs[1..][k - 1] == outs[k]; }
    }
  }

  /** After a success the count starts anew; after a failure that does not open the breaker it goes on. */
  lemma ReachesTail(l: Limits, outs: seq<Outcome>, before: nat, after: nat)
    requires outs != [] && (outs[0].ok || before + 1 < l.failureThreshold)
    requires after == if outs[0].ok then 0 else before + 1
    ensures (exists i, j :: Reaches(l, outs, before, i, j)) <==> (exists i, j :: Reaches(l, outs[1..], after, i, j))
  {
    if i: nat, j: nat :| Reaches(l, outs, before, i, j) {
      if i == 0 {
        LaterStretch(outs, 0, j - 1);
        assert Reaches(l, outs[1..], after, 0, j - 1);
      } else {
        LaterStretch(outs, i - 1, j - 1);
        assert Reaches(l, outs[1..], after, i - 1, j - 1);
      }
    }
    if i: nat, j: nat :| Reaches(l, outs[1..], after, i, j) {
      LaterStretch(outs, i, j);
      if i == 0 && !outs[0].ok {
        assert FailingStretch(outs, 0, j + 1);
        assert Reaches(l, outs, before, 0, j + 1);
      } else {
        assert Reaches(l, outs, before, i + 1, j + 1);
      }
    }
  }

  /** A closed breaker is open after a sequence of answers exactly when some stretch of failures reached the threshold. */
  lemma {:induction false} OpensIffStretch(l: Limits, b: Breaker, outs: seq<Outcome>)
    requires b.state.CLOSED?
    ensures AfterOutcomes(l, b, outs).state.OPEN? <==> exists i, j :: Reaches(l, outs, b.failureCount, i, j)
    ensures !AfterOutcomes(l, b, outs).state.OPEN? ==> AfterOutcomes(l, b, outs).state.CLOSED?
    decreases |outs|
  {
    if outs != [] {
      if !outs[0].ok && b.failureCount + 1 >= l.failureThreshold {
        OpenIgnoresAnswers(l, FailureRecorded(l, b, outs[0].now), outs[1..]);
        assert FailingStretch(outs, 0, 1);
        assert Reaches(l, outs, b.failureCount, 0, 1);
      } else {
        var c := if outs[0].ok then SuccessRecorded(b, outs[0].now) else FailureRecorded(l, b, outs[0].now);
        ReachesTail(l, outs, b.failureCount, c.failureCount);
        OpensIffStretch(l, c, outs[1..]);
      }
    }
  }

  ghost predicate BeginsOnly(s: State, steps: seq<Step>) {
    && (forall i :: 0 <= i < |steps| ==> steps[i].Begins? && steps[i].now >= s.now)
    && (forall i, j :: 0 <= i < j < |steps| ==> steps[i].now <= steps[j].now)
  }

  /** A closed breaker lets every call through. */
  lemma {:induction false} ClosedAdmitsAll(l: Limits, s: State, steps: seq<Step>)
    requires s.b.state.CLOSED? && BeginsOnly(s, steps)
    ensures Admissions(l, s, steps) == |steps| && Run(l, s, steps).b == s.b
    decreases |steps|
  {
    if steps != [] {
      var t := Apply(l, s, steps[0]);
      assert t.b == s.b && t.now == steps[0].now;
      assert BeginsOnly(t, steps[1..]);
      ClosedAdmitsAll(l, t, steps[1..]);
    }
  }

  /**
    A call that succeeds while the breaker is half open ends the outage: every call that follows is let through, and it
    takes a whole stretch of `failureThreshold` failures to open the breaker again.
    */
  lemma SuccessEndsOutage(l: Limits, s: State, id: nat, now: int, begins: seq<Step>, outs: seq<Outcome>)
    requires s.b.state.HALF_OPEN? && Enabled(s, Settles(id, true, now))
    requires BeginsOnly(Apply(l, s, Settles(id, true, now)), begins)
    ensures
      var t := Apply(l, s, Settles(id, true, now));
      && Admissions(l, t, begins) == |begins|
      && (AfterOutcomes(l, Run(l, t, begins).b, outs).state.OPEN? <==>
            exists i: nat, j: nat :: FailingStretch(outs, i, j) && j - i >= l.failureThreshold)
  {
    var t := Apply(l, s, Settles(id, true, now));
    ClosedAdmitsAll(l, t, begins);
    OpensIffStretch(l, t.b, outs);
    if i: nat, j: nat :| Reaches(l, outs, 0, i, j) { assert FailingStretch(outs, i, j); }
    if i: nat, j: nat :| FailingStretch(outs, i, j) && j - i >= l.failureThreshold { assert Reaches(l, outs, 0, i, j); }
  }

  /** One that fails then begins a new outage, of a full delay: until it ends nothing is admitted, and then one probe is. */
  lemma FailureRenewsOutage(l: Limits, s: State, id: nat, now: int, steps: seq<Step>, later: int)
    requires s.b.state.HALF_OPEN? && Enabled(s, Settles(id, false, now)) && later >= now
    requires forall i :: 0 <= i < |steps| ==> steps[i].now < now + l.halfOpenAfterMs
    ensures
      var t := Apply(l, s, Settles(id, false, now));
      && Admissions(l, t, steps) == 0
      && (Admitted(l, t, Begins(later)) <==> later >= now + l.halfOpenAfterMs)
      && (Admitted(l, t, Begins(later)) ==> !Admitted(l, Apply(l, t, Begins(later)), Begins(later)))
  {
    OpenRejects(l, Apply(l, s, Settles(id, false, now)), steps);
  }
}
