/** The health-probe cache: a cached answer, a probe in flight, and a generation that `clear` moves on. */
module ProbeCache {
  import opened Prelude

  /** Promises are named by the probe, in order of starting, whose result they carry. */
  datatype Cache = Cache(cached: Option<nat>, cachedAt: int, inFlight: Option<nat>, generation: nat)

  const EMPTY := Cache(None, 0, None, 0)

  /** What a call returns, and whether it has started the probe it returns or another one. */
  datatype Reply = Reply(answer: nat, started: bool)

  predicate Fresh(c: Cache, ttl: int, now: int) {
    c.cached.Some? && now - c.cachedAt < ttl && now >= c.cachedAt
  }

  /** `next` is the name the next probe gets. */
  function ReplyTo(c: Cache, ttl: int, next: nat, now: int): Reply {
    if ttl <= 0 then Reply(next, true)
    else if Fresh(c, ttl, now) then Reply(c.cached.value, false)
    else
      var starts := c.inFlight.None?;
      if c.cached.Some? then Reply(c.cached.value, starts)
      else Reply(if starts then next else c.inFlight.value, starts)
  }

  function Called(c: Cache, ttl: int, next: nat, now: int): Cache {
    if ttl > 0 && ReplyTo(c, ttl, next, now).started then c.(inFlight := Some(next)) else c
  }

  /** A probe started in generation `gen` is fulfilled or rejected. */
  function Settled(c: Cache, probe: nat, gen: nat, ok: bool, now: int): Cache {
    if gen != c.generation then c
    else if ok then c.(cached := Some(probe), cachedAt := now, inFlight := None)
    else c.(cached := None, cachedAt := 0, inFlight := None)
  }

  function Cleared(c: Cache): Cache { Cache(None, 0, None, c.generation + 1) }

  class HealthProbeCache {
    const ttlMs: int
    var cachedPromise: Option<nat>
    var cachedAt: int
    var inFlightPromise: Option<nat>
    var generation: nat

    function View(): Cache
      reads this
    {
      Cache(cachedPromise, cachedAt, inFlightPromise, generation)
    }

    constructor (ttlMs: int)
      ensures this.ttlMs == ttlMs && View() == EMPTY
    {
      this.ttlMs := ttlMs;
      cachedPromise, cachedAt, inFlightPromise, generation := None, 0, None, 0;
    }

    method Call(next: nat, now: int) returns (reply: Reply)
      modifies this
      ensures reply == ReplyTo(old(View()), ttlMs, next, now) && View() == Called(old(View()), ttlMs, next, now)
    {
      if ttlMs <= 0 { return Reply(next, true); }
      if cachedPromise.Some? && now - cachedAt < ttlMs && now >= cachedAt { return Reply(cachedPromise.value, false); }
      if cachedPromise.None? {
        if inFlightPromise.Some? { return Reply(inFlightPromise.value, false); }
        inFlightPromise := Some(next);
        return Reply(next, true);
      }
      var stale := cachedPromise.value;
      if inFlightPromise.None? {
        inFlightPromise := Some(next);
        return Reply(stale, true);
      }
      return Reply(stale, false);
    }

    method Settle(probe: nat, currentGen: nat, ok: bool, now: int)
      modifies this
      ensures View() == Settled(old(View()), probe, currentGen, ok, now)
    {
      if currentGen == generation {
        if ok {
          cachedPromise, cachedAt := Some(probe), now;
        } else {
          cachedPromise, cachedAt := None, 0;
        }
        inFlightPromise := None;
      }
    }

    method Clear()
      modifies this
      ensures View() == Cleared(old(View()))
    {
      cachedPromise, cachedAt, inFlightPromise := None, 0, None;
      generation := generation + 1;
    }
  }

  // ---------------------------------------------------------------- runs

  datatype Fate = Outstanding | Fulfilled | Rejected

  /** A probe that has been started: in which generation, and what has become of it. */
  datatype Probe = Probe(generation: nat, fate: Fate)

  /** A call that has been answered: the generation it was made in, and the probe it was answered by. */
  datatype Answer = Answer(generation: nat, probe: nat)

  datatype State = State(c: Cache, probes: seq<Probe>, answers: seq<Answer>)

  datatype Step = Call(now: int) | Settle(probe: nat, ok: bool, now: int) | Clear

  const INITIAL := State(EMPTY, [], [])

  /** With a positive time to live; calls under any other start a probe each and leave the cache alone. */
  function Apply(ttl: int, s: State, step: Step): State {
    match step
    case Call(now) =>
      var reply := ReplyTo(s.c, ttl, |s.probes|, now);
      State(Called(s.c, ttl, |s.probes|, now),
            if reply.started then s.probes + [Probe(s.c.generation, Outstanding)] else s.probes,
            s.answers + [Answer(s.c.generation, reply.answer)])
    case Settle(p, ok, now) =>
      if p >= |s.probes| || !s.probes[p].fate.Outstanding? then s
      else
        s.(c := if ttl > 0 then Settled(s.c, p, s.probes[p].generation, ok, now) else s.c,
           probes := s.probes[p := s.probes[p].(fate := if ok then Fulfilled else Rejected)])
    case Clear => s.(c := Cleared(s.c))
  }

  ghost function Run(ttl: int, s: State, steps: seq<Step>): State
    decreases |steps|
  {
    if steps == [] then s else Run(ttl, Apply(ttl, s, steps[0]), steps[1..])
  }

  /** The probes that are out belong to past generations, or to the one in flight. */
  ghost predicate InFlightInv(s: State) {
    && (forall p :: 0 <= p < |s.probes| ==> s.probes[p].generation <= s.c.generation)
    && (forall p :: 0 <= p < |s.probes| && s.probes[p].fate.Outstanding? && s.probes[p].generation == s.c.generation ==>
          s.c.inFlight == Some(p))
    && (s.c.inFlight.Some? ==>
          && s.c.inFlight.value < |s.probes|
          && s.probes[s.c.inFlight.value] == Probe(s.c.generation, Outstanding))
  }

  ghost predicate Out(s: State, p: int) { 0 <= p < |s.probes| && s.probes[p].fate.Outstanding? }

  ghost predicate OneOutstanding(s: State) {
    forall p, q :: Out(s, p) && Out(s, q) && s.probes[p].generation == s.probes[q].generation ==> p == q
  }

  ghost predicate CachedInv(s: State) {
    s.c.cached.Some? ==> s.c.cached.value < |s.probes| && s.probes[s.c.cached.value] == Probe(s.c.generation, Fulfilled)
  }

  /** A call is answered by a probe of the generation it was made in. */
  ghost predicate AnswersInv(s: State) {
    forall i :: 0 <= i < |s.answers| ==>
      s.answers[i].probe < |s.probes| && s.probes[s.answers[i].probe].generation == s.answers[i].generation
  }

  ghost predicate Inv(s: State) { InFlightInv(s) && OneOutstanding(s) && CachedInv(s) && AnswersInv(s) }

  lemma InFlightStep(ttl: int, s: State, step: Step)
    requires ttl > 0 && InFlightInv(s) && CachedInv(s)
    ensures InFlightInv(Apply(ttl, s, step)) && CachedInv(Apply(ttl, s, step))
  {
  }

  lemma OutstandingStep(ttl: int, s: State, step: Step)
    requires ttl > 0 && InFlightInv(s) && OneOutstanding(s)
    ensures OneOutstanding(Apply(ttl, s, step))
  {
    var t := Apply(ttl, s, step);
    forall p, q | Out(t, p) && Out(t, q) && t.probes[p].generation == t.probes[q].generation ensures p == q {
      if p < |s.probes| { assert Out(s, p); }
      if q < |s.probes| { assert Out(s, q); }
    }
  }

  lemma AnswersStep(ttl: int, s: State, step: Step)
    requires ttl > 0 && InFlightInv(s) && CachedInv(s) && AnswersInv(s)
    ensures AnswersInv(Apply(ttl, s, step))
  {
  }

  lemma {:induction false} InvRun(ttl: int, s: State, steps: seq<Step>)
    requires ttl > 0 && Inv(s)
    ensures Inv(Run(ttl, s, steps))
    decreases |steps|
  {
    if steps != [] {
      InFlightStep(ttl, s, steps[0]);
      OutstandingStep(ttl, s, steps[0]);
      AnswersStep(ttl, s, steps[0]);
      InvRun(ttl, Apply(ttl, s, steps[0]), steps[1..]);
    }
  }

  /** In every run each generation has one probe outstanding at most, and only fulfilled probes of the present one are cached. */
  lemma GenerationIsolation(ttl: int, steps: seq<Step>)
    requires ttl > 0
    ensures var s := Run(ttl, INITIAL, steps); OneOutstanding(s) && CachedInv(s) && AnswersInv(s)
  {
    InvRun(ttl, INITIAL, steps);
  }

  // ---------------------------------------------------------------- after a clear

  ghost predicate AnsweredFrom(s: State, calls: nat, probes: nat) {
    forall i :: calls <= i < |s.answers| ==> s.answers[i].probe >= probes
  }

  /** The probes before `probes` are of generations now past, and the calls since `calls` were answered by others. */
  ghost predicate Beyond(s: State, calls: nat, probes: nat) {
    && calls <= |s.answers| && probes <= |s.probes|
    && (forall p :: 0 <= p < probes ==> s.probes[p].generation < s.c.generation)
    && AnsweredFrom(s, calls, probes)
  }

  lemma BeyondStep(ttl: int, s: State, step: Step, calls: nat, probes: nat)
    requires ttl > 0 && Inv(s) && Beyond(s, calls, probes)
    ensures Beyond(Apply(ttl, s, step), calls, probes)
  {
  }

  lemma {:induction false} BeyondRun(ttl: int, s: State, steps: seq<Step>, calls: nat, probes: nat)
    requires ttl > 0 && Inv(s) && Beyond(s, calls, probes)
    ensures AnsweredFrom(Run(ttl, s, steps), calls, probes)
    decreases |steps|
  {
    if steps != [] {
      BeyondStep(ttl, s, steps[0], calls, probes);
      InFlightStep(ttl, s, steps[0]);
      OutstandingStep(ttl, s, steps[0]);
      AnswersStep(ttl, s, steps[0]);
      BeyondRun(ttl, Apply(ttl, s, steps[0]), steps[1..], calls, probes);
    }
  }

  /** No call made after `clear` is answered by a probe started before it, however late that probe settles. */
  lemma ClearForgets(ttl: int, before: seq<Step>, after: seq<Step>)
    requires ttl > 0
    ensures
      var s := Run(ttl, INITIAL, before);
      AnsweredFrom(Run(ttl, Apply(ttl, s, Clear), after), |s.answers|, |s.probes|)
  {
    var s := Run(ttl, INITIAL, before);
    InvRun(ttl, INITIAL, before);
    InFlightStep(ttl, s, Clear);
    OutstandingStep(ttl, s, Clear);
    AnswersStep(ttl, s, Clear);
    BeyondRun(ttl, Apply(ttl, s, Clear), after, |s.answers|, |s.probes|);
  }

  // ---------------------------------------------------------------- coalescing

  /** The steps that can end the wait for a probe. */
  ghost function Endings(steps: seq<Step>): nat {
    if steps == [] then 0 else (if steps[0].Call? then 0 else 1) + Endings(steps[1..])
  }

  /** However many calls come in, no more probes start than waits have ended, and one more. */
  lemma {:induction false} CallsCoalesce(ttl: int, s: State, steps: seq<Step>)
    requires ttl > 0 && Inv(s)
    ensures |Run(ttl, s, steps).probes| + (if s.c.inFlight.Some? then 1 else 0) <= |s.probes| + Endings(steps) + 1
    decreases |steps|
  {
    if steps != [] {
      InFlightStep(ttl, s, steps[0]);
      OutstandingStep(ttl, s, steps[0]);
      AnswersStep(ttl, s, steps[0]);
      CallsCoalesce(ttl, Apply(ttl, s, steps[0]), steps[1..]);
    }
  }

  /** A rejected probe leaves nothing behind, so the next call starts another. */
  lemma RejectionIsRetried(ttl: int, steps: seq<Step>, p: nat, now: int, later: int)
    requires
      var s := Run(ttl, INITIAL, steps);
      ttl > 0 && s.c.inFlight == Some(p)
    ensures
      var s := Apply(ttl, Run(ttl, INITIAL, steps), Settle(p, false, now));
      var t := Apply(ttl, s, Call(later));
      |t.probes| == |s.probes| + 1 && t.answers == s.answers + [Answer(s.c.generation, |s.probes|)]
  {
    InvRun(ttl, INITIAL, steps);
  }

  /** Call `i` was answered by probe `i`. */
  ghost predicate EachItsOwn(s: State) {
    |s.probes| == |s.answers| && forall i :: 0 <= i < |s.answers| ==> s.answers[i].probe == i
  }

  /** Without a positive time to live every call is answered by a probe of its own. */
  lemma {:induction false} BypassRun(ttl: int, s: State, steps: seq<Step>)
    requires ttl <= 0 && EachItsOwn(s)
    ensures EachItsOwn(Run(ttl, s, steps))
    decreases |steps|
  {
    if steps != [] { BypassRun(ttl, Apply(ttl, s, steps[0]), steps[1..]); }
  }
}

/** Which probe answers a call, and when a call starts one. */
module ProbeAnswers {
  import opened Prelude
  import opened ProbeCache

  /** A probe that was fulfilled, and when. */
  datatype Sighting = Sighting(probe: nat, at: int)

  /** What the last probe of the present generation to settle has left: its answer, or nothing after a rejection. */
  ghost function Latest(ttl: int, s: State, steps: seq<Step>, first: Option<Sighting>): Option<Sighting>
    decreases |steps|
  {
    if steps == [] then first
    else
      var step := steps[0];
      var next :=
        if step.Clear? then None
        else if step.Settle? && Out(s, step.probe) && s.probes[step.probe].generation == s.c.generation
        then (if step.ok then Some(Sighting(step.probe, step.now)) else None)
        else first;
      Latest(ttl, Apply(ttl, s, step), steps[1..], next)
  }

  ghost predicate Caches(c: Cache, seen: Option<Sighting>) {
    c.cached.Some? == seen.Some? && (seen.Some? ==> c.cached == Some(seen.value.probe) && c.cachedAt == seen.value.at)
  }

  lemma {:induction false} CachedIsLatest(ttl: int, s: State, steps: seq<Step>, first: Option<Sighting>)
    requires ttl > 0 && Caches(s.c, first)
    ensures Caches(Run(ttl, s, steps).c, Latest(ttl, s, steps, first))
    decreases |steps|
  {
    if steps != [] {
      var step := steps[0];
      var next :=
        if step.Clear? then None
        else if step.Settle? && Out(s, step.probe) && s.probes[step.probe].generation == s.c.generation
        then (if step.ok then Some(Sighting(step.probe, step.now)) else None)
        else first;
      CachedIsLatest(ttl, Apply(ttl, s, step), steps[1..], next);
    }
  }

  /** The answer is younger than the time to live, on a clock that has not stepped back. */
  ghost predicate Young(seen: Option<Sighting>, ttl: int, now: int) {
    seen.Some? && seen.value.at <= now < seen.value.at + ttl
  }

  ghost predicate OutNow(s: State, p: int) { Out(s, p) && s.probes[p].generation == s.c.generation }

  /**
    In every run a call starts a probe exactly when the latest answer is not young any more and no probe of the present
    generation is out.  It is answered with the latest answer, if there is one, else by the probe that is out, else by the
    one it starts.
    */
  lemma CallLaw(ttl: int, steps: seq<Step>, now: int)
    requires ttl > 0
    ensures
      var s := Run(ttl, INITIAL, steps);
      var seen := Latest(ttl, INITIAL, steps, None);
      var t := Apply(ttl, s, Call(now));
      var answer := t.answers[|s.answers|].probe;
      && |t.answers| == |s.answers| + 1
      && |t.probes| == |s.probes| + (if !Young(seen, ttl, now) && !(exists p :: OutNow(s, p)) then 1 else 0)
      && (seen.Some? ==> answer == seen.value.probe)
      && (seen.None? && (exists p :: OutNow(s, p)) ==> OutNow(s, answer))
      && (seen.None? && !(exists p :: OutNow(s, p)) ==> answer == |s.probes|)
  {
    var s := Run(ttl, INITIAL, steps);
    InvRun(ttl, INITIAL, steps);
    CachedIsLatest(ttl, INITIAL, steps, None);
    if s.c.inFlight.Some? { assert OutNow(s, s.c.inFlight.value); }
  }
}
