/** The claim row of one notification job, as four atomic SQL statements. */
module JobAttempts {
  import opened Prelude

  datatype Status = Pending | Completed | Failed

  datatype Row = Row(id: nat, jobType: string, status: Status, result: Option<string>,
                     attemptedAt: int, completedAt: Option<int>, expiresAt: int)

  /** What a claim call passes to the database, in seconds. */
  datatype ClaimInput = ClaimInput(jobType: string, expiresIn: int, claimTimeout: int)

  predicate Reclaimable(r: Row, now: int, claimTimeout: int) {
    || r.status == Failed
    || r.expiresAt <= now
    || (r.status == Pending && r.attemptedAt <= now - claimTimeout)
  }

  function NewClaim(id: nat, now: int, i: ClaimInput): Row {
    Row(id, i.jobType, Pending, None, now, None, now + i.expiresIn)
  }

  predicate Claimable(row: Option<Row>, now: int, i: ClaimInput) {
    row.None? || Reclaimable(row.value, now, i.claimTimeout)
  }

  /** Insert, or update when reclaimable: the row afterwards. */
  function Claim(row: Option<Row>, id: nat, now: int, i: ClaimInput): Option<Row> {
    if Claimable(row, now, i) then Some(NewClaim(id, now, i)) else row
  }

  /** Select the row unless it has expired. */
  function Find(row: Option<Row>, now: int): Option<Row> {
    if row.Some? && row.value.expiresAt > now then row else None
  }

  /** Update by attempt id: a row claimed under another id is left alone. */
  function Mark(row: Option<Row>, id: nat, status: Status, result: Option<string>, now: int): Option<Row> {
    if row.Some? && row.value.id == id
    then Some(row.value.(status := status, result := result, completedAt := Some(now)))
    else row
  }

  /** The table, one row per job key. */
  class Repository {
    var rows: map<string, Row>

    constructor ()
      ensures rows == map[]
    {
      rows := map[];
    }

    function RowOf(jobKey: string): Option<Row>
      reads this
    {
      if jobKey in rows then Some(rows[jobKey]) else None
    }

    method ClaimAttempt(jobKey: string, input: ClaimInput, id: nat, now: int) returns (attempt: Option<Row>)
      modifies this
      ensures RowOf(jobKey) == Claim(old(RowOf(jobKey)), id, now, input)
      ensures forall k :: k != jobKey ==> RowOf(k) == old(RowOf(k))
      ensures attempt == if Claimable(old(RowOf(jobKey)), now, input) then RowOf(jobKey) else None
    {
      var claimed := NewClaim(id, now, input);
      if jobKey in rows && !Reclaimable(rows[jobKey], now, input.claimTimeout) {
        return None;
      }
      rows := rows[jobKey := claimed];
      return Some(claimed);
    }

    method FindAttempt(jobKey: string, now: int) returns (attempt: Option<Row>)
      ensures attempt == Find(RowOf(jobKey), now)
    {
      if jobKey in rows && rows[jobKey].expiresAt > now {
        return Some(rows[jobKey]);
      }
      return None;
    }

    method MarkCompleted(attemptId: nat, result: Option<string>, now: int)
      modifies this
      ensures forall k :: RowOf(k) == Mark(old(RowOf(k)), attemptId, Completed, result, now)
    {
      UpdateById(attemptId, Completed, result, now);
    }

    method MarkFailed(attemptId: nat, error: string, now: int)
      modifies this
      ensures forall k :: RowOf(k) == Mark(old(RowOf(k)), attemptId, Failed, Some(error), now)
    {
      UpdateById(attemptId, Failed, Some(error), now);
    }

    method UpdateById(attemptId: nat, status: Status, result: Option<string>, now: int)
      modifies this
      ensures forall k :: RowOf(k) == Mark(old(RowOf(k)), attemptId, status, result, now)
    {
      rows := map k | k in rows ::
        if rows[k].id == attemptId
        then rows[k].(status := status, result := result, completedAt := Some(now))
        else rows[k];
    }
  }
}

/** Any number of workers executing the same notification job, one step per database statement. */
module NotificationClaims {
  import opened Prelude
  import opened JobAttempts

  /** Where a worker stands in execute(). */
  datatype Worker =
    | AtClaim(retry: bool)
    | AtFind(retry: bool)
    | Running(attempt: nat, since: int)
    | MarkingCompleted(attempt: nat, since: int, result: Option<string>)
    | MarkingFailed(attempt: nat, since: int, error: string)
    | Returned(attempt: nat)
    | AlreadyProcessed(seen: Row, at: int)
    | Threw

  /** `produced` records what each attempt's run returned; no step reads it. */
  datatype State = State(row: Option<Row>, now: int, nextId: nat, workers: map<nat, Worker>, produced: map<nat, Option<string>>)

  /** How a mark statement ends: done, refused without effect, or done with the answer lost. */
  datatype MarkReply = Applied | Refused | AnswerLost

  datatype Step =
    | Begin(w: nat)
    | ClaimRow(w: nat, input: ClaimInput, answerLost: bool)
    | FindRow(w: nat)
    | RunReturns(w: nat, result: Option<string>)
    | RunThrows(w: nat, error: string)
    | MarkRow(w: nat, reply: MarkReply)
    | Crash(w: nat)
    | Tick(seconds: nat)

  function AfterFind(row: Option<Row>, now: int, retry: bool): Worker {
    var current := Find(row, now);
    if current.Some? && current.value.status == Completed then AlreadyProcessed(current.value, now)
    else if retry || (current.Some? && current.value.status == Pending) then Threw
    else AtClaim(true)
  }

  function Apply(s: State, step: Step): State {
    match step
    case Tick(d) => s.(now := s.now + d)
    case Begin(w) => if w in s.workers then s else s.(workers := s.workers[w := AtClaim(false)])
    case _ =>
      if step.w !in s.workers then s else ApplyWorker(s, step, s.workers[step.w])
  }

  function ApplyWorker(s: State, step: Step, worker: Worker): State
    requires !step.Tick? && !step.Begin?
  {
    match step
    case ClaimRow(w, input, answerLost) =>
      if !worker.AtClaim? then s
      else
        var won := Claimable(s.row, s.now, input);
        var next := if !won then AtFind(worker.retry) else if answerLost then Threw else Running(s.nextId, s.now);
        s.(row := Claim(s.row, s.nextId, s.now, input), nextId := s.nextId + 1, workers := s.workers[w := next])
    case FindRow(w) =>
      if !worker.AtFind? then s else s.(workers := s.workers[w := AfterFind(s.row, s.now, worker.retry)])
    case RunReturns(w, result) =>
      if !worker.Running? then s
      else s.(workers := s.workers[w := MarkingCompleted(worker.attempt, worker.since, result)],
              produced := s.produced[worker.attempt := result])
    case RunThrows(w, error) =>
      if !worker.Running? then s
      else s.(workers := s.workers[w := MarkingFailed(worker.attempt, worker.since, error)])
    case MarkRow(w, reply) =>
      if worker.MarkingCompleted? then
        var next := if reply.Applied? then Returned(worker.attempt)
                    else MarkingFailed(worker.attempt, worker.since, "mark failed");
        var row := if reply.Refused? then s.row else Mark(s.row, worker.attempt, Completed, worker.result, s.now);
        s.(row := row, workers := s.workers[w := next])
      else if worker.MarkingFailed? then
        var row := if reply.Refused? then s.row else Mark(s.row, worker.attempt, Failed, Some(worker.error), s.now);
        s.(row := row, workers := s.workers[w := Threw])
      else s
    case Crash(w) => s.(workers := s.workers[w := Threw])
    case _ => s
  }

  function Run(s: State, steps: seq<Step>): State
    decreases |steps|
  {
    if steps == [] then s else Run(Apply(s, steps[0]), steps[1..])
  }

  function Initial(now: int): State { State(None, now, 0, map[], map[]) }

  /** Inside job.run(), or past it with the mark still to come. */
  predicate Active(worker: Worker) {
    worker.Running? || worker.MarkingCompleted? || worker.MarkingFailed?
  }

  // ---------------------------------------------------------------- identities

  /** Attempt ids are fresh: each is below the next one, and no two active workers share one. */
  ghost predicate IdInv(s: State) {
    && (s.row.Some? ==> s.row.value.id < s.nextId)
    && (forall w :: w in s.workers ==> UsesId(s, s.workers[w]))
    && (forall v, w :: v in s.workers && w in s.workers ==> v == w || Apart(s.workers[v], s.workers[w]))
  }

  ghost predicate UsesId(s: State, worker: Worker) { Active(worker) ==> worker.attempt < s.nextId }

  ghost predicate Apart(a: Worker, b: Worker) { Active(a) && Active(b) ==> a.attempt != b.attempt }

  /** A worker's own step keeps its attempt id, drops it, or takes the next fresh one. */
  lemma OwnId(s: State, step: Step)
    requires !step.Tick? && step.w in Apply(s, step).workers
    ensures var t := Apply(s, step);
      var worker := t.workers[step.w];
      Active(worker) ==>
        || (worker.attempt == s.nextId && t.nextId == s.nextId + 1)
        || (step.w in s.workers && Active(s.workers[step.w]) && worker.attempt == s.workers[step.w].attempt)
  {
  }

  lemma OtherWorkers(s: State, step: Step)
    ensures var t := Apply(s, step);
      && s.nextId <= t.nextId
      && (t.row != s.row ==> t.row.Some? && (t.row.value.id == s.nextId < t.nextId || (s.row.Some? && t.row.value.id == s.row.value.id)))
      && forall v :: v in t.workers && (step.Tick? || v != step.w) ==> v in s.workers && t.workers[v] == s.workers[v]
  {
  }

  lemma IdInvStep(s: State, step: Step)
    requires IdInv(s)
    ensures IdInv(Apply(s, step))
  {
    var t := Apply(s, step);
    OtherWorkers(s, step);
    if !step.Tick? && step.w in t.workers { OwnId(s, step); }
    forall v | v in t.workers ensures UsesId(t, t.workers[v]) {
      assert v in s.workers ==> UsesId(s, s.workers[v]);
    }
    forall v, w | v in t.workers && w in t.workers ensures v == w || Apart(t.workers[v], t.workers[w]) {
      assert v in s.workers ==> UsesId(s, s.workers[v]);
      assert w in s.workers ==> UsesId(s, s.workers[w]);
      assert v in s.workers && w in s.workers ==> v == w || Apart(s.workers[v], s.workers[w]);
    }
  }

  // ---------------------------------------------------------------- mutual exclusion

  /** Every run, with its mark, ends sooner than `lease` after its claim. */
  ghost predicate Timely(s: State, lease: int) {
    forall w :: w in s.workers && Active(s.workers[w]) ==> s.now < s.workers[w].since + lease
  }

  ghost predicate TimelyRun(s: State, steps: seq<Step>, lease: int)
    decreases |steps|
  {
    Timely(s, lease) && (steps == [] || TimelyRun(Apply(s, steps[0]), steps[1..], lease))
  }

  /** The claim configuration grants at least `lease`. */
  ghost predicate Grants(step: Step, lease: int) {
    step.ClaimRow? ==> lease <= step.input.claimTimeout && lease <= step.input.expiresIn
  }

  /** An active worker's claim is the row, pending and as old as the worker's run. */
  ghost predicate HoldsRow(s: State, worker: Worker, lease: int) {
    Active(worker) ==>
      && s.row.Some? && s.row.value.id == worker.attempt && s.row.value.attemptedAt == worker.since
      && s.row.value.expiresAt >= worker.since + lease
      && (s.row.value.status == Pending || (s.row.value.status == Completed && worker.MarkingFailed?))
  }

  ghost predicate LeaseInv(s: State, lease: int) {
    forall w :: w in s.workers ==> HoldsRow(s, s.workers[w], lease)
  }

  lemma LeaseInvStep(s: State, step: Step, lease: int)
    requires IdInv(s) && LeaseInv(s, lease) && Timely(s, lease) && Grants(step, lease)
    ensures LeaseInv(Apply(s, step), lease)
  {
    var t := Apply(s, step);
    forall v | v in t.workers ensures HoldsRow(t, t.workers[v], lease) {
      assert v in s.workers ==> HoldsRow(s, s.workers[v], lease);
      if !step.Tick? && step.w in s.workers && v in s.workers {
        assert HoldsRow(s, s.workers[step.w], lease);
        assert v == step.w || Apart(s.workers[v], s.workers[step.w]);
      }
    }
  }

  lemma {:induction false} LeaseInvRun(s: State, steps: seq<Step>, lease: int)
    requires IdInv(s) && LeaseInv(s, lease) && TimelyRun(s, steps, lease)
    requires forall i :: 0 <= i < |steps| ==> Grants(steps[i], lease)
    ensures IdInv(Run(s, steps)) && LeaseInv(Run(s, steps), lease)
    decreases |steps|
  {
    if steps != [] {
      IdInvStep(s, steps[0]);
      LeaseInvStep(s, steps[0], lease);
      LeaseInvRun(Apply(s, steps[0]), steps[1..], lease);
    }
  }

  /** No two workers are between claim and mark at once, for any number of workers and any interleaving. */
  lemma MutualExclusion(now: int, steps: seq<Step>, lease: int, v: nat, w: nat)
    requires TimelyRun(Initial(now), steps, lease)
    requires forall i :: 0 <= i < |steps| ==> Grants(steps[i], lease)
    requires v in Run(Initial(now), steps).workers && Active(Run(Initial(now), steps).workers[v])
    requires w in Run(Initial(now), steps).workers && Active(Run(Initial(now), steps).workers[w])
    ensures v == w
  {
    var s := Run(Initial(now), steps);
    LeaseInvRun(Initial(now), steps, lease);
    assert HoldsRow(s, s.workers[v], lease) && HoldsRow(s, s.workers[w], lease);
  }

  lemma RunFrom(s: State, steps: seq<Step>, i: nat)
    requires i < |steps|
    ensures Run(s, steps[i..]) == Run(Apply(s, steps[i]), steps[i + 1..])
  {
    assert steps[i..][1..] == steps[i + 1..];
  }

  /** The shorter of the two lifetimes of a claim, and no less than nothing. */
  function Lease(input: ClaimInput): nat {
    var lease := if input.claimTimeout < input.expiresIn then input.claimTimeout else input.expiresIn;
    if lease > 0 then lease else 0
  }

  /** Two workers claim, the second when the first one's lease is over. */
  function Overlap(input: ClaimInput): seq<Step> {
    [Begin(0), Begin(1), ClaimRow(0, input, false), Tick(Lease(input)), ClaimRow(1, input, false)]
  }

  /** The bound is exact: a run that lasts the whole lease can be joined by a second one. */
  lemma LeaseIsTight(now: int, input: ClaimInput, bound: int)
    requires bound > Lease(input)
    ensures TimelyRun(Initial(now), Overlap(input), bound)
    ensures var s := Run(Initial(now), Overlap(input));
      0 in s.workers && 1 in s.workers && s.workers[0].Running? && s.workers[1].Running?
  {
    var steps := Overlap(input);
    var s0 := Initial(now);
    var s1 := Apply(s0, steps[0]);
    var s2 := Apply(s1, steps[1]);
    var s3 := Apply(s2, steps[2]);
    var s4 := Apply(s3, steps[3]);
    var s5 := Apply(s4, steps[4]);
    assert s5.workers == map[0 := Running(0, now), 1 := Running(1, now + Lease(input))];
    assert steps[0..] == steps && steps[5..] == [];
    RunFrom(s4, steps, 4);
    TimelyFrom(s4, steps, 4, bound);
    RunFrom(s3, steps, 3);
    TimelyFrom(s3, steps, 3, bound);
    RunFrom(s2, steps, 2);
    TimelyFrom(s2, steps, 2, bound);
    RunFrom(s1, steps, 1);
    TimelyFrom(s1, steps, 1, bound);
    RunFrom(s0, steps, 0);
    TimelyFrom(s0, steps, 0, bound);
  }

  lemma TimelyFrom(s: State, steps: seq<Step>, i: nat, bound: int)
    requires i < |steps| && Timely(s, bound) && TimelyRun(Apply(s, steps[i]), steps[i + 1..], bound)
    ensures TimelyRun(s, steps[i..], bound)
  {
    assert steps[i..][1..] == steps[i + 1..];
  }

  ghost predicate Exclusive(s: State) {
    forall v, w :: v in s.workers && w in s.workers && Active(s.workers[v]) && Active(s.workers[w]) ==> v == w
  }

  /** Every claim in the run is made with the same configuration. */
  ghost predicate ClaimsWith(steps: seq<Step>, input: ClaimInput) {
    forall i :: 0 <= i < |steps| && steps[i].ClaimRow? ==> steps[i].input == input
  }

  ghost predicate SinceInPast(s: State) {
    forall w :: w in s.workers && Active(s.workers[w]) ==> s.workers[w].since <= s.now
  }

  lemma {:induction false} SinceInPastRun(s: State, steps: seq<Step>)
    requires SinceInPast(s)
    ensures SinceInPast(Run(s, steps))
    decreases |steps|
  {
    if steps != [] { SinceInPastRun(Apply(s, steps[0]), steps[1..]); }
  }

  lemma {:induction false} TimelyAtEnd(s: State, steps: seq<Step>, bound: int)
    requires TimelyRun(s, steps, bound)
    ensures Timely(Run(s, steps), bound)
    decreases |steps|
  {
    if steps != [] { TimelyAtEnd(Apply(s, steps[0]), steps[1..], bound); }
  }

  lemma ShortRunsExclude(now: int, input: ClaimInput, bound: int, steps: seq<Step>)
    requires bound <= Lease(input) && ClaimsWith(steps, input) && TimelyRun(Initial(now), steps, bound)
    ensures Exclusive(Run(Initial(now), steps))
  {
    var s := Run(Initial(now), steps);
    if bound <= 0 {
      SinceInPastRun(Initial(now), steps);
      TimelyAtEnd(Initial(now), steps, bound);
    } else {
      forall v, w | v in s.workers && w in s.workers && Active(s.workers[v]) && Active(s.workers[w]) ensures v == w {
        MutualExclusion(now, steps, bound, v, w);
      }
    }
  }

  /** With runs shorter than `bound`, workers exclude each other in every run exactly when `bound` is within the lease. */
  lemma ExclusionIff(now: int, input: ClaimInput, bound: int)
    ensures (forall steps :: ClaimsWith(steps, input) && TimelyRun(Initial(now), steps, bound) ==> Exclusive(Run(Initial(now), steps)))
      <==> bound <= Lease(input)
  {
    if bound <= Lease(input) {
      forall steps | ClaimsWith(steps, input) && TimelyRun(Initial(now), steps, bound) ensures Exclusive(Run(Initial(now), steps)) {
        ShortRunsExclude(now, input, bound, steps);
      }
    } else {
      LeaseIsTight(now, input, bound);
      assert ClaimsWith(Overlap(input), input);
    }
  }

  // ---------------------------------------------------------------- fencing

  /** After the row was claimed under another id, an old attempt's marks change nothing, for ever. */
  lemma {:induction false} ZombieFenced(s: State, steps: seq<Step>, stale: nat)
    requires stale < s.nextId && s.row.Some? && s.row.value.id != stale
    ensures var t := Run(s, steps);
      && t.row.Some? && t.row.value.id != stale
      && forall status, result :: Mark(t.row, stale, status, result, t.now) == t.row
    decreases |steps|
  {
    if steps != [] {
      ZombieFenced(Apply(s, steps[0]), steps[1..], stale);
    }
  }

  // ---------------------------------------------------------------- finality

  /** The step is not a completing mark that is applied with its answer lost. */
  ghost predicate CompletionAnswered(s: State, step: Step) {
    step.MarkRow? && step.w in s.workers && s.workers[step.w].MarkingCompleted? ==> !step.reply.AnswerLost?
  }

  ghost predicate CompletionsAnswered(s: State, steps: seq<Step>)
    decreases |steps|
  {
    steps == [] || (CompletionAnswered(s, steps[0]) && CompletionsAnswered(Apply(s, steps[0]), steps[1..]))
  }

  /** The attempt's run returned this result. */
  ghost predicate Produced(s: State, attempt: nat, result: Option<string>) {
    attempt in s.produced && s.produced[attempt] == result
  }

  ghost predicate WorkerHistory(s: State, worker: Worker) {
    && (worker.Running? ==> worker.attempt !in s.produced)
    && (worker.MarkingCompleted? ==> Produced(s, worker.attempt, worker.result))
    && (worker.AlreadyProcessed? ==>
          && worker.seen.status == Completed && worker.at < worker.seen.expiresAt
          && Produced(s, worker.seen.id, worker.seen.result))
  }

  ghost predicate HistoryInv(s: State) {
    && (forall a :: a in s.produced ==> a < s.nextId)
    && (forall w :: w in s.workers ==> WorkerHistory(s, s.workers[w]))
    && (s.row.Some? && s.row.value.status == Completed ==> Produced(s, s.row.value.id, s.row.value.result))
  }

  lemma HistoryInvStep(s: State, step: Step)
    requires IdInv(s) && HistoryInv(s)
    ensures HistoryInv(Apply(s, step))
  {
    var t := Apply(s, step);
    if !step.Tick? && step.w in s.workers {
      assert WorkerHistory(s, s.workers[step.w]) && UsesId(s, s.workers[step.w]);
    }
    forall v | v in t.workers ensures WorkerHistory(t, t.workers[v]) {
      assert v in s.workers ==> WorkerHistory(s, s.workers[v]) && UsesId(s, s.workers[v]);
      if !step.Tick? && v != step.w && step.w in s.workers { assert Apart(s.workers[v], s.workers[step.w]); }
    }
  }

  /** Whoever completed the row is no longer active. */
  ghost predicate CompletedInv(s: State) {
    s.row.Some? && s.row.value.status == Completed ==>
      forall w :: w in s.workers && Active(s.workers[w]) ==> s.workers[w].attempt != s.row.value.id
  }

  lemma CompletedInvStep(s: State, step: Step)
    requires IdInv(s) && CompletedInv(s) && CompletionAnswered(s, step)
    ensures CompletedInv(Apply(s, step))
  {
    var t := Apply(s, step);
    if t.row.Some? && t.row.value.status == Completed {
      forall v | v in t.workers && Active(t.workers[v]) ensures t.workers[v].attempt != t.row.value.id {
        assert v in s.workers ==> UsesId(s, s.workers[v]);
        if !step.Tick? && v != step.w && step.w in s.workers { assert Apart(s.workers[v], s.workers[step.w]); }
      }
    }
  }

  lemma {:induction false} Reachable(s: State, steps: seq<Step>)
    requires IdInv(s) && HistoryInv(s)
    ensures IdInv(Run(s, steps)) && HistoryInv(Run(s, steps))
    ensures CompletedInv(s) && CompletionsAnswered(s, steps) ==> CompletedInv(Run(s, steps))
    decreases |steps|
  {
    if steps != [] {
      IdInvStep(s, steps[0]);
      HistoryInvStep(s, steps[0]);
      if CompletedInv(s) && CompletionAnswered(s, steps[0]) { CompletedInvStep(s, steps[0]); }
      Reachable(Apply(s, steps[0]), steps[1..]);
    }
  }

  /** Every alreadyProcessed answer carries what some run returned, read from a completed and unexpired row. */
  lemma AnswersAreResults(now: int, steps: seq<Step>, w: nat)
    requires w in Run(Initial(now), steps).workers && Run(Initial(now), steps).workers[w].AlreadyProcessed?
    ensures var s := Run(Initial(now), steps);
      var answer := s.workers[w];
      && answer.seen.status == Completed && answer.at < answer.seen.expiresAt
      && Produced(s, answer.seen.id, answer.seen.result)
  {
    Reachable(Initial(now), steps);
    var s := Run(Initial(now), steps);
    assert WorkerHistory(s, s.workers[w]);
  }

  /** A completed row stands, and starts no run, until it expires. */
  ghost predicate Final(s: State, t: State) {
    && t.row == s.row
    && forall w :: w in t.workers && t.workers[w].Running? ==> w in s.workers && s.workers[w] == t.workers[w]
  }

  lemma FinalStep(s: State, step: Step)
    requires CompletedInv(s) && s.row.Some? && s.row.value.status == Completed && s.now < s.row.value.expiresAt
    ensures Final(s, Apply(s, step))
  {
  }

  lemma {:induction false} ClockMonotone(s: State, steps: seq<Step>)
    ensures s.now <= Run(s, steps).now
    decreases |steps|
  {
    if steps != [] { ClockMonotone(Apply(s, steps[0]), steps[1..]); }
  }

  /** Nobody gets hold of a completed row. */
  lemma CompletedStays(s: State, step: Step)
    requires IdInv(s) && CompletedInv(s) && s.row.Some? && s.row.value.status == Completed && s.now < s.row.value.expiresAt
    ensures CompletedInv(Apply(s, step))
  {
    var t := Apply(s, step);
    FinalStep(s, step);
    OtherWorkers(s, step);
    forall v | v in t.workers && Active(t.workers[v]) ensures t.workers[v].attempt != s.row.value.id {
      if !step.Tick? && v == step.w { OwnId(s, step); }
    }
  }

  lemma {:induction false} FinalRun(s: State, steps: seq<Step>)
    requires IdInv(s) && CompletedInv(s) && s.row.Some? && s.row.value.status == Completed
    requires Run(s, steps).now < s.row.value.expiresAt
    ensures Final(s, Run(s, steps))
    decreases |steps|
  {
    if steps != [] {
      ClockMonotone(s, steps);
      FinalStep(s, steps[0]);
      IdInvStep(s, steps[0]);
      CompletedStays(s, steps[0]);
      FinalRun(Apply(s, steps[0]), steps[1..]);
    }
  }

  /** Whoever still holds the attempt of a completed row is about to mark it failed. */
  lemma HolderReopens(s: State, w: nat) returns (after: seq<Step>)
    requires HistoryInv(s) && s.row.Some? && s.row.value.status == Completed
    requires w in s.workers && Active(s.workers[w]) && s.workers[w].attempt == s.row.value.id
    ensures Run(s, after).now == s.now && !Final(s, Run(s, after))
  {
    assert WorkerHistory(s, s.workers[w]);
    var last := MarkRow(w, Applied);
    if s.workers[w].MarkingFailed? {
      after := [last];
      assert after[1..] == [];
    } else {
      after := [MarkRow(w, AnswerLost), last];
      assert after[1..] == [last] && [last][1..] == [];
      var t := Apply(s, after[0]);
      assert Run(s, after) == Run(t, [last]) == Apply(t, last);
    }
  }

  /** The row and the runs of `s` stand in every continuation until the row expires. */
  ghost predicate FinalForever(s: State)
    requires s.row.Some?
  {
    forall after :: Run(s, after).now < s.row.value.expiresAt ==> Final(s, Run(s, after))
  }

  /** A completed row is final until it expires exactly when no worker is still at work on its attempt. */
  lemma FinalIff(now: int, before: seq<Step>)
    requires var s := Run(Initial(now), before);
      s.row.Some? && s.row.value.status == Completed && s.now < s.row.value.expiresAt
    ensures FinalForever(Run(Initial(now), before)) <==> CompletedInv(Run(Initial(now), before))
  {
    var s := Run(Initial(now), before);
    Reachable(Initial(now), before);
    if CompletedInv(s) {
      forall after | Run(s, after).now < s.row.value.expiresAt ensures Final(s, Run(s, after)) { FinalRun(s, after); }
    } else {
      var w :| w in s.workers && Active(s.workers[w]) && s.workers[w].attempt == s.row.value.id;
      var after := HolderReopens(s, w);
    }
  }

  /** So it is after every run in which no completing mark was applied with its answer lost. */
  lemma CompletedIsFinal(now: int, before: seq<Step>)
    requires CompletionsAnswered(Initial(now), before)
    requires var s := Run(Initial(now), before);
      s.row.Some? && s.row.value.status == Completed && s.now < s.row.value.expiresAt
    ensures FinalForever(Run(Initial(now), before))
  {
    Reachable(Initial(now), before);
    FinalIff(now, before);
  }

  /** Without that assumption it is not final: a completion whose answer is lost is marked failed and run again. */
  lemma LostAnswerReopens(now: int, input: ClaimInput, result: Option<string>) returns (before: seq<Step>, after: seq<Step>)
    requires input.expiresIn > 0
    ensures var s := Run(Initial(now), before);
      var t := Run(s, after);
      && s.row.Some? && s.row.value.status == Completed && t.now < s.row.value.expiresAt
      && 1 in t.workers && t.workers[1].Running? && !Final(s, t)
  {
    before, after := CompletionLost(input, result), [MarkRow(0, Applied), ClaimRow(1, input, false)];
    var s := Run(Initial(now), before);
    RunCompletionLost(now, input, result);
    assert after[0..] == after && after[2..] == [];
    RunFrom(s, after, 0);
    RunFrom(Apply(s, after[0]), after, 1);
  }

  function CompletionLost(input: ClaimInput, result: Option<string>): seq<Step> {
    [Begin(0), Begin(1), ClaimRow(0, input, false), RunReturns(0, result), MarkRow(0, AnswerLost)]
  }

  lemma RunCompletionLost(now: int, input: ClaimInput, result: Option<string>)
    ensures var s := Run(Initial(now), CompletionLost(input, result));
      && s.row == Some(Row(0, input.jobType, Completed, result, now, Some(now), now + input.expiresIn))
      && s.now == now
      && s.workers == map[0 := MarkingFailed(0, now, "mark failed"), 1 := AtClaim(false)]
  {
    var steps := CompletionLost(input, result);
    var s0 := Initial(now);
    var s1 := Apply(s0, steps[0]);
    var s2 := Apply(s1, steps[1]);
    var s3 := Apply(s2, steps[2]);
    var s4 := Apply(s3, steps[3]);
    assert steps[0..] == steps && steps[5..] == [];
    RunFrom(s0, steps, 0);
    RunFrom(s1, steps, 1);
    RunFrom(s2, steps, 2);
    RunFrom(s3, steps, 3);
    RunFrom(s4, steps, 4);
  }
}

/** What a worker that lost its claim does next, and what a failed run leaves behind. */
module ClaimRetries {
  import opened Prelude
  import opened JobAttempts
  import opened NotificationClaims

  /** A row that has not expired, with the given status. */
  ghost predicate Blocks(s: State, status: Status) {
    s.row.Some? && s.row.value.expiresAt > s.now && s.row.value.status == status
  }

  /**
    A worker that finds a completed row reports it; one that finds a pending row throws.  One that finds neither claims once
    more, and throws if it had done so already.
    */
  lemma LosersNextStep(s: State, w: nat)
    requires w in s.workers && s.workers[w].AtFind?
    ensures
      var next := Apply(s, FindRow(w)).workers[w];
      && (Blocks(s, Completed) <==> next.AlreadyProcessed?)
      && (next.AlreadyProcessed? ==> Some(next.seen) == s.row && next.at == s.now)
      && (next == AtClaim(true) <==> !s.workers[w].retry && !Blocks(s, Completed) && !Blocks(s, Pending))
      && (next.AlreadyProcessed? || next == AtClaim(true) || next == Threw)
  {
  }

  /** The others' steps leave a worker where it is. */
  lemma {:induction false} OthersLeaveWorker(s: State, steps: seq<Step>, w: nat)
    requires w in s.workers && forall i :: 0 <= i < |steps| ==> steps[i].Tick? || steps[i].w != w
    ensures w in Run(s, steps).workers && Run(s, steps).workers[w] == s.workers[w]
    decreases |steps|
  {
    if steps != [] {
      assert steps[0].Tick? || steps[0].w != w;
      OthersLeaveWorker(Apply(s, steps[0]), steps[1..], w);
    }
  }

  /**
    Whatever the others do meanwhile, the second claim of such a worker wins and runs, if its answer arrives, exactly when
    by then there is no row, or one that has failed, has expired, or has been pending for the claim timeout.
    */
  lemma SecondClaimRuns(s: State, w: nat, meanwhile: seq<Step>, input: ClaimInput)
    requires w in s.workers && s.workers[w] == AtFind(false) && !Blocks(s, Completed) && !Blocks(s, Pending)
    requires forall i :: 0 <= i < |meanwhile| ==> meanwhile[i].Tick? || meanwhile[i].w != w
    ensures
      var t := Run(Apply(s, FindRow(w)), meanwhile);
      var u := Apply(t, ClaimRow(w, input, false));
      var r := t.row;
      var free := r.None? || r.value.status == Failed || r.value.expiresAt <= t.now
                  || (r.value.status == Pending && t.now - r.value.attemptedAt >= input.claimTimeout);
      && w in u.workers
      && (free ==> u.workers[w] == Running(t.nextId, t.now) && u.row == Some(NewClaim(t.nextId, t.now, input)))
      && (!free ==> u.workers[w] == AtFind(true) && u.row == t.row)
  {
    OthersLeaveWorker(Apply(s, FindRow(w)), meanwhile, w);
  }

  /** With nothing in between it does win: what did not block the find does not block the claim. */
  lemma SecondClaimWinsAtOnce(s: State, w: nat, input: ClaimInput)
    requires w in s.workers && s.workers[w] == AtFind(false) && !Blocks(s, Completed) && !Blocks(s, Pending)
    ensures Apply(Apply(s, FindRow(w)), ClaimRow(w, input, false)).workers[w] == Running(s.nextId, s.now)
  {
  }

  /** A failed run that is written down keeps its error, and every claim from then on wins until one has. */
  lemma FailureFreesRow(s: State, w: nat, reply: MarkReply, input: ClaimInput, later: int)
    requires w in s.workers && s.workers[w].MarkingFailed? && !reply.Refused?
    requires s.row.Some? && s.row.value.id == s.workers[w].attempt
    ensures
      var t := Apply(s, MarkRow(w, reply));
      && t.workers[w] == Threw && t.row.Some?
      && t.row.value.status == Failed && t.row.value.result == Some(s.workers[w].error) && t.row.value.completedAt == Some(s.now)
      && Claimable(t.row, later, input)
  {
  }
}
