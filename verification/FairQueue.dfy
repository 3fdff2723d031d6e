/** Array.prototype.sort with a comparator, given by the positions it puts the elements in.

  The sort is stable: among elements the comparator does not separate, input order decides.
*/
module StableSort {

  /** `less` is the strict part of the comparator; what it does not separate is tied. */
  ghost predicate WeakOrder<T(!new)>(less: (T, T) -> bool) {
    && (forall a, b :: less(a, b) ==> !less(b, a))
    && (forall a, b, c :: !less(b, a) && !less(c, b) ==> !less(c, a))
  }

  ghost predicate InRange(ps: seq<nat>, n: nat) {
    forall k :: 0 <= k < |ps| ==> ps[k] < n
  }

  /** Position `i` of `s` belongs before position `j`: by the comparator, or by input order on a tie. */
  ghost predicate Precedes<T>(s: seq<T>, less: (T, T) -> bool, i: nat, j: nat)
    requires i < |s| && j < |s|
  {
    less(s[i], s[j]) || (!less(s[j], s[i]) && i < j)
  }

  ghost predicate Ordered<T>(s: seq<T>, less: (T, T) -> bool, ps: seq<nat>) {
    && InRange(ps, |s|)
    && forall q, p :: 0 <= q < p < |ps| ==> Precedes(s, less, ps[q], ps[p])
  }

  function InsertPosition<T>(s: seq<T>, less: (T, T) -> bool, ps: seq<nat>, x: nat): (r: seq<nat>)
    requires x < |s| && forall k :: 0 <= k < |ps| ==> ps[k] < |s|
    ensures |r| == |ps| + 1 && forall i :: i in r <==> i in ps || i == x
    ensures forall k :: 0 <= k < |r| ==> r[k] < |s|
  {
    if ps == [] then [x]
    else
      var last := |ps| - 1;
      assert ps == ps[..last] + [ps[last]];
      if less(s[x], s[ps[last]])
      then InsertPosition(s, less, ps[..last], x) + [ps[last]]
      else ps + [x]
  }

  /** The positions of the first `n` elements, in sorted order. */
  function SortPositions<T>(s: seq<T>, less: (T, T) -> bool, n: nat): (ps: seq<nat>)
    requires n <= |s|
    ensures forall k :: 0 <= k < |ps| ==> ps[k] < |s|
  {
    if n == 0 then [] else InsertPosition(s, less, SortPositions(s, less, n - 1), n - 1)
  }

  /** The sorted sequence. */
  function Sort<T>(s: seq<T>, less: (T, T) -> bool): (r: seq<T>) {
    Permute(s, SortPositions(s, less, |s|))
  }

  function Permute<T>(s: seq<T>, ps: seq<nat>): (r: seq<T>)
    requires forall k :: 0 <= k < |ps| ==> ps[k] < |s|
    ensures |r| == |ps| && forall k :: 0 <= k < |ps| ==> r[k] == s[ps[k]]
  {
    seq(|ps|, k requires 0 <= k < |ps| => s[ps[k]])
  }

  lemma {:induction false} InsertOrdered<T(!new)>(s: seq<T>, less: (T, T) -> bool, ps: seq<nat>, x: nat)
    requires WeakOrder(less) && x < |s| && Ordered(s, less, ps)
    requires forall k :: 0 <= k < |ps| ==> ps[k] < x
    ensures Ordered(s, less, InsertPosition(s, less, ps, x))
  {
    if ps != [] {
      var last := |ps| - 1;
      if less(s[x], s[ps[last]]) {
        var front := InsertPosition(s, less, ps[..last], x);
        InsertOrdered(s, less, ps[..last], x);
        forall q | 0 <= q < |front| ensures Precedes(s, less, front[q], ps[last]) {
          assert front[q] in front;
        }
      } else {
        forall q | 0 <= q < |ps| ensures Precedes(s, less, ps[q], x) {
          assert q < last ==> Precedes(s, less, ps[q], ps[last]);
        }
      }
    }
  }

  lemma {:induction false} SortPositionsAll<T>(s: seq<T>, less: (T, T) -> bool, n: nat)
    requires n <= |s|
    ensures var ps := SortPositions(s, less, n); |ps| == n && forall i: nat :: i in ps <==> i < n
  {
    if n > 0 { SortPositionsAll(s, less, n - 1); }
  }

  lemma {:induction false} SortPositionsOrdered<T(!new)>(s: seq<T>, less: (T, T) -> bool, n: nat)
    requires WeakOrder(less) && n <= |s|
    ensures Ordered(s, less, SortPositions(s, less, n))
  {
    if n > 0 {
      var before := SortPositions(s, less, n - 1);
      SortPositionsOrdered(s, less, n - 1);
      SortPositionsAll(s, less, n - 1);
      forall k | 0 <= k < |before| ensures before[k] < n - 1 { assert before[k] in before; }
      InsertOrdered(s, less, before, n - 1);
    }
  }

  /** Every input position appears exactly once, and the order is the stable one. */
  lemma SortPositionsSorted<T(!new)>(s: seq<T>, less: (T, T) -> bool, n: nat)
    requires WeakOrder(less) && n <= |s|
    ensures var ps := SortPositions(s, less, n);
      && Ordered(s, less, ps)
      && |ps| == n
      && (forall i: nat :: i in ps <==> i < n)
  {
    SortPositionsAll(s, less, n);
    SortPositionsOrdered(s, less, n);
  }

  /** Taking any sequence of that length in sorted order only reorders it. */
  lemma {:induction false} PermuteMultiset<T, U>(s: seq<T>, less: (T, T) -> bool, n: nat, t: seq<U>)
    requires n <= |s| == |t|
    ensures multiset(Permute(t, SortPositions(s, less, n))) == multiset(t[..n])
  {
    if n > 0 {
      PermuteMultiset(s, less, n - 1, t);
      InsertMultiset(s, less, SortPositions(s, less, n - 1), n - 1, t);
      assert t[..n] == t[..n - 1] + [t[n - 1]];
    }
  }

  lemma {:induction false} InsertMultiset<T, U>(s: seq<T>, less: (T, T) -> bool, ps: seq<nat>, x: nat, t: seq<U>)
    requires x < |s| == |t| && forall k :: 0 <= k < |ps| ==> ps[k] < |s|
    ensures multiset(Permute(t, InsertPosition(s, less, ps, x))) == multiset(Permute(t, ps)) + multiset{t[x]}
  {
    if ps == [] {
      PermuteSnoc(t, ps, x);
    } else {
      var last := |ps| - 1;
      assert ps == ps[..last] + [ps[last]];
      PermuteSnoc(t, ps[..last], ps[last]);
      if less(s[x], s[ps[last]]) {
        InsertMultiset(s, less, ps[..last], x, t);
        PermuteSnoc(t, InsertPosition(s, less, ps[..last], x), ps[last]);
      } else {
        PermuteSnoc(t, ps, x);
      }
    }
  }

  lemma PermuteSnoc<U>(t: seq<U>, ps: seq<nat>, x: nat)
    requires x < |t| && forall k :: 0 <= k < |ps| ==> ps[k] < |t|
    ensures multiset(Permute(t, ps + [x])) == multiset(Permute(t, ps)) + multiset{t[x]}
  {
    assert Permute(t, ps + [x]) == Permute(t, ps) + [t[x]];
  }

  /** What is in order already stays as it is. */
  lemma {:induction false} SortedPositions<T>(s: seq<T>, less: (T, T) -> bool, n: nat)
    requires n <= |s| && forall i, j :: 0 <= i < j < |s| ==> !less(s[j], s[i])
    ensures var ps := SortPositions(s, less, n); |ps| == n && forall k :: 0 <= k < n ==> ps[k] == k
  {
    if n > 0 { SortedPositions(s, less, n - 1); }
  }

  lemma SortedStays<T>(s: seq<T>, less: (T, T) -> bool)
    requires forall i, j :: 0 <= i < j < |s| ==> !less(s[j], s[i])
    ensures Sort(s, less) == s
  {
    SortedPositions(s, less, |s|);
  }

  ghost predicate PlacedBefore(ps: seq<nat>, i: nat, j: nat) {
    exists q, p :: 0 <= q < p < |ps| && ps[q] == i && ps[p] == j
  }

  lemma SmallerIsFirst<T(!new)>(s: seq<T>, less: (T, T) -> bool, i: nat, j: nat)
    requires WeakOrder(less) && i < |s| && j < |s| && less(s[i], s[j])
    ensures PlacedBefore(SortPositions(s, less, |s|), i, j)
  {
    var ps := SortPositions(s, less, |s|);
    SortPositionsSorted(s, less, |s|);
    assert i in ps && j in ps;
    var q :| 0 <= q < |ps| && ps[q] == i;
    var p :| 0 <= p < |ps| && ps[p] == j;
    assert !Precedes(s, less, j, i) && ps[q] != ps[p];
    assert q <= p;
  }

  /** Sorting is a permutation of its input. */
  lemma SortIsPermutation<T>(s: seq<T>, less: (T, T) -> bool)
    ensures multiset(Sort(s, less)) == multiset(s)
  {
    PermuteMultiset(s, less, |s|, s);
    assert s[..|s|] == s;
  }
}

/** Weighted fair queueing of bulk verification jobs, over exact reals. */
module FairQueue {
  import opened StableSort

  /** A JavaScript number as the code sees it: finite, or one of NaN and the infinities. */
  datatype Num = Finite(value: real) | NotFinite

  datatype BulkJob = BulkJob(id: string, orgId: string, size: Num, createdAt: int)
  datatype OrgUsage = OrgUsage(orgId: string, usage: Num)

  /** A job with its virtual service interval. */
  datatype Scored = Scored(job: BulkJob, start: real, finish: real)

  function PositiveOr(n: Num, default: real): (r: real)
    requires default >= 0.0
    ensures r >= default || r > 0.0
  {
    if n.Finite? && n.value > 0.0 then n.value else default
  }

  function ComputeOrgWeight(usage: Num): (w: real)
    ensures 0.0 < w <= 1.0
  {
    1.0 / (1.0 + PositiveOr(usage, 0.0))
  }

  /** More recent usage, strictly less weight; usage that is not a positive number counts as none. */
  lemma WeightDecreasesWithUsage(a: Num, b: Num)
    ensures PositiveOr(a, 0.0) < PositiveOr(b, 0.0) <==> ComputeOrgWeight(b) < ComputeOrgWeight(a)
  {
    var u, v := 1.0 + PositiveOr(a, 0.0), 1.0 + PositiveOr(b, 0.0);
    if u < v { ReciprocalDecreases(u, v); }
    if v < u { ReciprocalDecreases(v, u); }
  }

  lemma ReciprocalDecreases(u: real, v: real)
    requires 0.0 < u < v
    ensures 1.0 / v < 1.0 / u
  {
    var x, y := 1.0 / u, 1.0 / v;
    assert x * u == 1.0 && y * v == 1.0;
    assert y * u < y * v;
  }

  /** The weight table: the last usage record of an organisation counts. */
  function Weights(usages: seq<OrgUsage>): (m: map<string, real>)
    ensures forall org :: org in m ==> 0.0 < m[org] <= 1.0
  {
    if usages == [] then map[]
    else
      var n := |usages| - 1;
      Weights(usages[..n])[usages[n].orgId := ComputeOrgWeight(usages[n].usage)]
  }

  /** Virtual cost: size over weight, an absent weight being 1 and a bad size counting as 1. */
  function Cost(job: BulkJob, weights: map<string, real>): (c: real)
    requires forall org :: org in weights ==> 0.0 < weights[org] <= 1.0
    ensures c > 0.0
  {
    var w := if job.orgId in weights then weights[job.orgId] else 1.0;
    var size := PositiveOr(job.size, 1.0);
    DivisionPositive(size, w);
    size / w
  }

  lemma DivisionPositive(x: real, y: real)
    requires x > 0.0 && y > 0.0
    ensures x / y > 0.0
  {
  }

  function Max(a: real, b: real): real { if a < b then b else a }

  /** Finish time of the last job of `org`, 0 when it has none. */
  function LastFinish(scored: seq<Scored>, org: string): real {
    if scored == [] then 0.0
    else if scored[|scored| - 1].job.orgId == org then scored[|scored| - 1].finish
    else LastFinish(scored[..|scored| - 1], org)
  }

  /** Global virtual time: the start of the latest arrival. */
  function VirtualTime(scored: seq<Scored>): real {
    if scored == [] then 0.0 else scored[|scored| - 1].start
  }

  /** The table of last finish times agrees with the jobs scored so far. */
  ghost predicate Tracks(lastFinish: map<string, real>, scored: seq<Scored>) {
    forall org :: LastFinish(scored, org) == if org in lastFinish then lastFinish[org] else 0.0
  }

  lemma TracksSnoc(lastFinish: map<string, real>, scored: seq<Scored>, e: Scored)
    requires Tracks(lastFinish, scored)
    ensures Tracks(lastFinish[e.job.orgId := e.finish], scored + [e])
  {
    assert (scored + [e])[..|scored|] == scored;
  }

  function Score(arrivals: seq<BulkJob>, weights: map<string, real>): (s: seq<Scored>)
    requires forall org :: org in weights ==> 0.0 < weights[org] <= 1.0
    ensures |s| == |arrivals|
    ensures forall i :: 0 <= i < |s| ==> s[i].job == arrivals[i] && s[i].finish == s[i].start + Cost(arrivals[i], weights)
  {
    if arrivals == [] then []
    else
      var n := |arrivals| - 1;
      var before := Score(arrivals[..n], weights);
      var job := arrivals[n];
      var start := Max(LastFinish(before, job.orgId), VirtualTime(before));
      before + [Scored(job, start, start + Cost(job, weights))]
  }

  lemma ScoreStep(arrivals: seq<BulkJob>, weights: map<string, real>, i: nat)
    requires i < |arrivals| && forall org :: org in weights ==> 0.0 < weights[org] <= 1.0
    ensures var before := Score(arrivals[..i], weights);
      var start := Max(LastFinish(before, arrivals[i].orgId), VirtualTime(before));
      Score(arrivals[..i + 1], weights) == before + [Scored(arrivals[i], start, start + Cost(arrivals[i], weights))]
  {
    assert arrivals[..i + 1][..i] == arrivals[..i];
  }

  function EarlierJob(): ((BulkJob, BulkJob) -> bool) {
    (a: BulkJob, b: BulkJob) => a.createdAt < b.createdAt
  }

  function EarlierFinish(): ((Scored, Scored) -> bool) {
    (a: Scored, b: Scored) => a.finish < b.finish || (a.finish == b.finish && a.job.createdAt < b.job.createdAt)
  }

  function Arrivals(jobs: seq<BulkJob>): seq<BulkJob> {
    Sort(jobs, EarlierJob())
  }

  /** The placement: arrival indices in service order. */
  function Placement(jobs: seq<BulkJob>, usages: seq<OrgUsage>): (ps: seq<nat>)
    ensures forall k :: 0 <= k < |ps| ==> ps[k] < |Arrivals(jobs)|
  {
    var scored := Score(Arrivals(jobs), Weights(usages));
    SortPositions(scored, EarlierFinish(), |scored|)
  }

  method BuildWeights(orgUsages: seq<OrgUsage>) returns (weightMap: map<string, real>)
    ensures weightMap == Weights(orgUsages)
  {
    weightMap := map[];
    for k := 0 to |orgUsages|
      invariant weightMap == Weights(orgUsages[..k])
    {
      assert orgUsages[..k + 1][..k] == orgUsages[..k];
      weightMap := weightMap[orgUsages[k].orgId := ComputeOrgWeight(orgUsages[k].usage)];
    }
    assert orgUsages[..|orgUsages|] == orgUsages;
  }

  method ScoreArrivals(arrivals: seq<BulkJob>, weightMap: map<string, real>) returns (scored: seq<Scored>)
    requires forall org :: org in weightMap ==> 0.0 < weightMap[org] <= 1.0
    ensures scored == Score(arrivals, weightMap)
  {
    var lastFinish: map<string, real> := map[];
    var globalVTime := 0.0;
    scored := [];
    for i := 0 to |arrivals|
      invariant scored == Score(arrivals[..i], weightMap)
      invariant globalVTime == VirtualTime(scored)
      invariant Tracks(lastFinish, scored)
    {
      var job := arrivals[i];
      var last := if job.orgId in lastFinish then lastFinish[job.orgId] else 0.0;
      assert last == LastFinish(scored, job.orgId);
      var start := Max(last, globalVTime);
      var finish := start + Cost(job, weightMap);
      ScoreStep(arrivals, weightMap, i);
      TracksSnoc(lastFinish, scored, Scored(job, start, finish));
      lastFinish := lastFinish[job.orgId := finish];
      globalVTime := start;
      scored := scored + [Scored(job, start, finish)];
    }
    assert arrivals[..|arrivals|] == arrivals;
  }

  method OrderJobsByWfq(jobs: seq<BulkJob>, orgUsages: seq<OrgUsage>) returns (order: seq<BulkJob>)
    ensures order == Permute(Arrivals(jobs), Placement(jobs, orgUsages))
    ensures multiset(order) == multiset(jobs)
  {
    var weightMap := BuildWeights(orgUsages);
    var arrivals := Sort(jobs, EarlierJob());
    var scored := ScoreArrivals(arrivals, weightMap);
    order := Permute(arrivals, SortPositions(scored, EarlierFinish(), |scored|));
    OrderIsPermutation(jobs, orgUsages);
  }

  // ---------------------------------------------------------------- the schedule

  lemma WeakOrders()
    ensures WeakOrder(EarlierJob()) && WeakOrder(EarlierFinish())
  {
  }

  /** The service order is a permutation of the submitted jobs. */
  lemma OrderIsPermutation(jobs: seq<BulkJob>, usages: seq<OrgUsage>)
    ensures multiset(Permute(Arrivals(jobs), Placement(jobs, usages))) == multiset(jobs)
  {
    var arrivals := Arrivals(jobs);
    var scored := Score(arrivals, Weights(usages));
    PermuteMultiset(scored, EarlierFinish(), |scored|, arrivals);
    assert arrivals[..|scored|] == arrivals;
    SortIsPermutation(jobs, EarlierJob());
  }

  /** Starts never go back in arrival order, and one organisation's intervals do not overlap. */
  ghost predicate Scheduled(s: seq<Scored>) {
    && (forall i :: 0 <= i < |s| ==> 0.0 <= s[i].start < s[i].finish)
    && (forall i, j :: 0 <= i < j < |s| ==> s[i].start <= s[j].start)
    && (forall i, j :: 0 <= i < j < |s| && s[i].job.orgId == s[j].job.orgId ==> s[i].finish <= s[j].start)
  }

  lemma {:induction false} LastFinishBounds(s: seq<Scored>, org: string)
    requires Scheduled(s)
    ensures 0.0 <= LastFinish(s, org)
    ensures forall i :: 0 <= i < |s| && s[i].job.orgId == org ==> s[i].finish <= LastFinish(s, org)
  {
    if s != [] && s[|s| - 1].job.orgId != org {
      LastFinishBounds(s[..|s| - 1], org);
    }
  }

  lemma {:induction false} ScoreScheduled(arrivals: seq<BulkJob>, usages: seq<OrgUsage>)
    ensures Scheduled(Score(arrivals, Weights(usages)))
  {
    if arrivals != [] {
      var n := |arrivals| - 1;
      var before := Score(arrivals[..n], Weights(usages));
      ScoreScheduled(arrivals[..n], usages);
      ScheduledSnoc(before, Score(arrivals, Weights(usages))[n]);
    }
  }

  lemma ScheduledSnoc(s: seq<Scored>, e: Scored)
    requires Scheduled(s)
    requires e.start == Max(LastFinish(s, e.job.orgId), VirtualTime(s)) && e.start < e.finish
    ensures Scheduled(s + [e])
  {
    LastFinishBounds(s, e.job.orgId);
    assert forall i :: 0 <= i < |s| ==> s[i].start <= VirtualTime(s);
  }

  // ---------------------------------------------------------------- fairness

  /** Total virtual cost of the jobs at the given arrival indices. */
  ghost function TotalCost(s: seq<Scored>, indices: set<nat>): real
    requires forall i :: i in indices ==> i < |s|
  {
    if indices == {} then 0.0
    else
      var m := Largest(indices);
      TotalCost(s, indices - {m}) + (s[m].finish - s[m].start)
  }

  ghost function Largest(indices: set<nat>): (m: nat)
    requires indices != {}
    ensures m in indices && forall i :: i in indices ==> i <= m
  {
    var x :| x in indices;
    var rest := indices - {x};
    assert forall i :: i in indices ==> i == x || i in rest;
    if rest == {} then x
    else
      var m := Largest(rest);
      if m < x then x else m
  }

  /** Jobs of one organisation that arrive after `i` and finish by `end` fit between the two times. */
  lemma {:induction false} IntervalsFit(s: seq<Scored>, indices: set<nat>, i: nat, org: string, end: real)
    requires Scheduled(s) && i < |s| && s[i].start <= end
    requires forall j :: j in indices ==> i < j < |s| && s[j].job.orgId == org && s[j].finish <= end
    ensures TotalCost(s, indices) <= end - s[i].start
    decreases indices
  {
    if indices != {} {
      var m := Largest(indices);
      IntervalsFit(s, indices - {m}, i, org, s[m].start);
    }
  }

  /** Arrival indices of the jobs of `org` that arrive after the job at position `p` but are placed before it. */
  ghost function Overtakers(jobs: seq<BulkJob>, ps: seq<nat>, p: nat, org: string): set<nat>
    requires p < |ps| && forall k :: 0 <= k < |ps| ==> ps[k] < |jobs|
  {
    set q | 0 <= q < p && ps[q] > ps[p] && jobs[ps[q]].orgId == org :: ps[q]
  }

  /** WFQ fairness: what one organisation gets ahead of an earlier job costs at most that job's own cost. */
  lemma WfqFairness(jobs: seq<BulkJob>, usages: seq<OrgUsage>, p: nat, org: string)
    requires p < |Placement(jobs, usages)|
    ensures var arrivals := Arrivals(jobs);
      var ps := Placement(jobs, usages);
      TotalCost(Score(arrivals, Weights(usages)), Overtakers(arrivals, ps, p, org)) <= Cost(arrivals[ps[p]], Weights(usages))
  {
    var arrivals := Arrivals(jobs);
    var s := Score(arrivals, Weights(usages));
    var ps := Placement(jobs, usages);
    var late := Overtakers(arrivals, ps, p, org);
    ScoreScheduled(arrivals, usages);
    forall j | j in late ensures ps[p] < j < |s| && s[j].job.orgId == org && s[j].finish <= s[ps[p]].finish {
      var q :| 0 <= q < p && ps[q] == j;
      OvertakingNeedsEarlierFinish(jobs, usages, q, p);
    }
    IntervalsFit(s, late, ps[p], org, s[ps[p]].finish);
  }

  /** A later arrival is placed first only when its finish time is strictly smaller. */
  lemma OvertakingNeedsEarlierFinish(jobs: seq<BulkJob>, usages: seq<OrgUsage>, q: nat, p: nat)
    requires q < p < |Placement(jobs, usages)| && Placement(jobs, usages)[q] > Placement(jobs, usages)[p]
    ensures var s := Score(Arrivals(jobs), Weights(usages));
      s[Placement(jobs, usages)[q]].finish < s[Placement(jobs, usages)[p]].finish
  {
    var s := Score(Arrivals(jobs), Weights(usages));
    var ps := Placement(jobs, usages);
    WeakOrders();
    SortPositionsSorted(s, EarlierFinish(), |s|);
    ArrivalsInOrder(jobs, ps[p], ps[q]);
    assert Precedes(s, EarlierFinish(), ps[q], ps[p]);
  }

  lemma ArrivalsInOrder(jobs: seq<BulkJob>, i: nat, j: nat)
    requires i < j < |Arrivals(jobs)|
    ensures Arrivals(jobs)[i].createdAt <= Arrivals(jobs)[j].createdAt
  {
    WeakOrders();
    SortPositionsSorted(jobs, EarlierJob(), |jobs|);
    var ps := SortPositions(jobs, EarlierJob(), |jobs|);
    assert Precedes(jobs, EarlierJob(), ps[i], ps[j]);
  }

  /** The placement serves every arrival exactly once and keeps each organisation's arrival order. */
  lemma PlacementKeepsOrgOrder(jobs: seq<BulkJob>, usages: seq<OrgUsage>, q: nat, p: nat)
    requires q < p < |Placement(jobs, usages)|
    requires Arrivals(jobs)[Placement(jobs, usages)[q]].orgId == Arrivals(jobs)[Placement(jobs, usages)[p]].orgId
    ensures Placement(jobs, usages)[q] < Placement(jobs, usages)[p]
    ensures |Placement(jobs, usages)| == |Arrivals(jobs)|
    ensures forall i: nat :: i in Placement(jobs, usages) <==> i < |Arrivals(jobs)|
  {
    var s := Score(Arrivals(jobs), Weights(usages));
    var ps := Placement(jobs, usages);
    WeakOrders();
    ScoreScheduled(Arrivals(jobs), usages);
    SortPositionsSorted(s, EarlierFinish(), |s|);
    assert Precedes(s, EarlierFinish(), ps[q], ps[p]);
    if ps[p] < ps[q] {
      OvertakingNeedsEarlierFinish(jobs, usages, q, p);
    }
  }

  ghost function CostUpTo(arrivals: seq<BulkJob>, weights: map<string, real>, n: nat): real
    requires n <= |arrivals| && forall org :: org in weights ==> 0.0 < weights[org] <= 1.0
  {
    if n == 0 then 0.0 else CostUpTo(arrivals, weights, n - 1) + Cost(arrivals[n - 1], weights)
  }

  /** No starvation by later arrivals: a finish time is at most the cost of everything up to that arrival. */
  lemma {:induction false} FinishBound(arrivals: seq<BulkJob>, usages: seq<OrgUsage>, i: nat)
    requires i < |arrivals|
    ensures Score(arrivals, Weights(usages))[i].finish <= CostUpTo(arrivals, Weights(usages), i + 1)
    decreases |arrivals|, 0
  {
    var n := |arrivals| - 1;
    var before := Score(arrivals[..n], Weights(usages));
    PrefixCost(arrivals, Weights(usages), if i < n then i + 1 else n);
    if i < n {
      FinishBound(arrivals[..n], usages, i);
    } else {
      TimesBounded(arrivals[..n], usages, arrivals[n].orgId);
    }
  }

  lemma {:induction false} TimesBounded(arrivals: seq<BulkJob>, usages: seq<OrgUsage>, org: string)
    ensures var s := Score(arrivals, Weights(usages));
      && LastFinish(s, org) <= CostUpTo(arrivals, Weights(usages), |arrivals|)
      && VirtualTime(s) <= CostUpTo(arrivals, Weights(usages), |arrivals|)
    decreases |arrivals|, 1
  {
    if arrivals != [] {
      var n := |arrivals| - 1;
      var s := Score(arrivals, Weights(usages));
      FinishBound(arrivals, usages, n);
      TimesBounded(arrivals[..n], usages, org);
      PrefixCost(arrivals, Weights(usages), n);
      assert s[..n] == Score(arrivals[..n], Weights(usages));
    }
  }

  lemma {:induction false} PrefixCost(arrivals: seq<BulkJob>, weights: map<string, real>, n: nat)
    requires n < |arrivals| && forall org :: org in weights ==> 0.0 < weights[org] <= 1.0
    ensures CostUpTo(arrivals[..|arrivals| - 1], weights, n) == CostUpTo(arrivals, weights, n)
  {
    if n > 0 { PrefixCost(arrivals, weights, n - 1); }
  }
}

/** What a job's service time is made of, when it starts, and who goes first. */
module FairShares {
  import opened StableSort
  import opened FairQueue

  /** The usage that counts for an organisation: its last record, when that is a positive number. */
  ghost function LastUsage(usages: seq<OrgUsage>, org: string): (u: real)
    ensures u >= 0.0
  {
    if usages == [] then 0.0
    else
      var last := usages[|usages| - 1];
      if last.orgId != org then LastUsage(usages[..|usages| - 1], org)
      else if last.usage.Finite? && last.usage.value > 0.0 then last.usage.value
      else 0.0
  }

  /** A job counts as one item unless it says otherwise. */
  ghost function SizeOf(job: BulkJob): (size: real)
    ensures size > 0.0
  {
    if job.size.Finite? && job.size.value > 0.0 then job.size.value else 1.0
  }

  /** How much longer than its size a job of the organisation takes. */
  ghost function Stretch(usages: seq<OrgUsage>, org: string): (r: real)
    ensures r >= 1.0
  {
    1.0 + LastUsage(usages, org)
  }

  ghost function StretchedSize(usages: seq<OrgUsage>, job: BulkJob): (r: real) {
    SizeOf(job) * Stretch(usages, job.orgId)
  }

  lemma {:induction false} WeightOfUsage(usages: seq<OrgUsage>, org: string)
    ensures (if org in Weights(usages) then Weights(usages)[org] else 1.0) == 1.0 / Stretch(usages, org)
  {
    if usages != [] {
      WeightOfUsage(usages[..|usages| - 1], org);
    }
  }

  lemma QuotientIsProduct(x: real, w: real, d: real)
    requires d > 0.0 && w > 0.0 && w == 1.0 / d
    ensures x / w == x * d
  {
    var quotient := x / w;
    assert quotient * w == x;
    assert w * d == 1.0;
    assert (quotient * w) * d == quotient * (w * d);
  }

  lemma CostAtWeight(job: BulkJob, weights: map<string, real>, d: real)
    requires forall org :: org in weights ==> 0.0 < weights[org] <= 1.0
    requires d > 0.0 && (if job.orgId in weights then weights[job.orgId] else 1.0) == 1.0 / d
    ensures Cost(job, weights) == SizeOf(job) * d
  {
    QuotientIsProduct(SizeOf(job), 1.0 / d, d);
  }

  lemma CostOfJob(job: BulkJob, usages: seq<OrgUsage>)
    ensures Cost(job, Weights(usages)) == StretchedSize(usages, job)
  {
    WeightOfUsage(usages, job.orgId);
    CostAtWeight(job, Weights(usages), Stretch(usages, job.orgId));
  }

  /** A job is served for its size, stretched by what its organisation has used already. */
  lemma ServiceTime(arrivals: seq<BulkJob>, usages: seq<OrgUsage>, i: nat)
    requires i < |arrivals|
    ensures
      var e := Score(arrivals, Weights(usages))[i];
      e.finish - e.start == StretchedSize(usages, arrivals[i])
  {
    ScoredCost(arrivals, usages, i);
    CostOfJob(arrivals[i], usages);
  }

  lemma ScoredCost(arrivals: seq<BulkJob>, usages: seq<OrgUsage>, i: nat)
    requires i < |arrivals|
    ensures
      var e := Score(arrivals, Weights(usages))[i];
      e.job == arrivals[i] && e.finish - e.start == Cost(arrivals[i], Weights(usages))
  {
  }

  /** A job starts at zero, with an earlier arrival, or when an earlier job of its organisation finishes. */
  ghost predicate Tight(s: seq<Scored>, i: nat)
    requires i < |s|
  {
    || s[i].start == 0.0
    || exists j :: 0 <= j < i &&
         (s[j].start == s[i].start || (s[j].job.orgId == s[i].job.orgId && s[j].finish == s[i].start))
  }

  lemma {:induction false} LastFinishIsReached(s: seq<Scored>, org: string)
    ensures LastFinish(s, org) == 0.0 || exists j :: 0 <= j < |s| && s[j].job.orgId == org && s[j].finish == LastFinish(s, org)
  {
    if s != [] && s[|s| - 1].job.orgId != org {
      LastFinishIsReached(s[..|s| - 1], org);
    }
  }

  /** No start is later than it must be: with the schedule's lower bounds this fixes every start. */
  lemma {:induction false} StartsAreTight(arrivals: seq<BulkJob>, usages: seq<OrgUsage>, i: nat)
    requires i < |arrivals|
    ensures Tight(Score(arrivals, Weights(usages)), i)
  {
    var n := |arrivals| - 1;
    var before := Score(arrivals[..n], Weights(usages));
    if i < n {
      StartsAreTight(arrivals[..n], usages, i);
      assert Tight(before, i);
    } else {
      LastFinishIsReached(before, arrivals[n].orgId);
    }
  }

  /** The first `n` arrivals are all of different organisations. */
  ghost predicate OnePerOrg(arrivals: seq<BulkJob>, n: nat)
    requires n <= |arrivals|
  {
    forall i, j :: 0 <= i < j < n ==> arrivals[i].orgId != arrivals[j].orgId
  }

  lemma {:induction false} FirstRoundStartsAtZero(arrivals: seq<BulkJob>, usages: seq<OrgUsage>, n: nat, i: nat)
    requires i < n <= |arrivals| && OnePerOrg(arrivals, n)
    ensures Score(arrivals, Weights(usages))[i].start == 0.0
    decreases i
  {
    StartsAreTight(arrivals, usages, i);
    var s := Score(arrivals, Weights(usages));
    if s[i].start != 0.0 {
      var j :| 0 <= j < i && (s[j].start == s[i].start || (s[j].job.orgId == s[i].job.orgId && s[j].finish == s[i].start));
      FirstRoundStartsAtZero(arrivals, usages, n, j);
    }
  }

  lemma EarlierFinishIsPlacedFirst(jobs: seq<BulkJob>, usages: seq<OrgUsage>, i: nat, j: nat)
    requires i < |Arrivals(jobs)| && j < |Arrivals(jobs)|
    requires var s := Score(Arrivals(jobs), Weights(usages)); s[i].finish < s[j].finish
    ensures PlacedBefore(Placement(jobs, usages), i, j)
  {
    WeakOrders();
    SmallerIsFirst(Score(Arrivals(jobs), Weights(usages)), EarlierFinish(), i, j);
  }

  /** While no organisation has had a turn, the smaller stretched size goes first; of equal jobs, that of the lighter user. */
  lemma LighterUserGoesFirst(jobs: seq<BulkJob>, usages: seq<OrgUsage>, n: nat, i: nat, j: nat)
    requires n <= |Arrivals(jobs)| && OnePerOrg(Arrivals(jobs), n) && i < n && j < n
    ensures
      var a, b := Arrivals(jobs)[i], Arrivals(jobs)[j];
      && (StretchedSize(usages, a) < StretchedSize(usages, b) ==> PlacedBefore(Placement(jobs, usages), i, j))
      && (SizeOf(a) == SizeOf(b) && LastUsage(usages, a.orgId) < LastUsage(usages, b.orgId) ==>
            PlacedBefore(Placement(jobs, usages), i, j))
  {
    var a, b := Arrivals(jobs)[i], Arrivals(jobs)[j];
    FinishOfFirstRound(Arrivals(jobs), usages, n, i);
    FinishOfFirstRound(Arrivals(jobs), usages, n, j);
    if SizeOf(a) == SizeOf(b) && LastUsage(usages, a.orgId) < LastUsage(usages, b.orgId) { LighterIsShorter(usages, a, b); }
    if StretchedSize(usages, a) < StretchedSize(usages, b) { EarlierFinishIsPlacedFirst(jobs, usages, i, j); }
  }

  lemma FinishOfFirstRound(arrivals: seq<BulkJob>, usages: seq<OrgUsage>, n: nat, i: nat)
    requires i < n <= |arrivals| && OnePerOrg(arrivals, n)
    ensures Score(arrivals, Weights(usages))[i].finish
         == StretchedSize(usages, arrivals[i])
  {
    FirstRoundStartsAtZero(arrivals, usages, n, i);
    ServiceTime(arrivals, usages, i);
  }

  lemma LighterIsShorter(usages: seq<OrgUsage>, a: BulkJob, b: BulkJob)
    requires SizeOf(a) == SizeOf(b) && LastUsage(usages, a.orgId) < LastUsage(usages, b.orgId)
    ensures StretchedSize(usages, a) < StretchedSize(usages, b)
  {
    ScaledLess(SizeOf(a), SizeOf(b), Stretch(usages, a.orgId), Stretch(usages, b.orgId));
  }

  lemma ScaledLess(x: real, y: real, a: real, b: real)
    requires x == y > 0.0 && a < b
    ensures x * a < y * b
  {
  }
}
