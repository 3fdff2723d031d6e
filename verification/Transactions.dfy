/** Transactions with hooks and lock-timeout retries, and the cache invalidation that rides on them. */
module Transactions {
  import opened Prelude

  const PG_LOCK_TIMEOUT_CODE := "55P03"

  /** A registered callback; the last two are those of a deferred cache invalidation. */
  datatype Hook = Custom(id: nat) | DeleteKey(key: string) | LogRollback(key: string)

  datatype Context = Context(postCommit: seq<Hook>, rollback: seq<Hook>)

  /** What a transaction callback does that matters here; a nested transaction shares the outer one. */
  datatype Action =
    | RegisterPostCommit(hook: Hook)
    | RegisterRollback(hook: Hook)
    | Invalidate(key: string)
    | Nested(body: seq<Action>)

  /** The code of a lost connection; a lock timeout is an answer of the server, not this. */
  type WireCode = code: string | code != PG_LOCK_TIMEOUT_CODE witness ""

  /** What becomes of the connection around COMMIT: it lasts, or drops before or after the server has acted. */
  datatype Wire = Kept | DroppedBefore(code: WireCode) | DroppedAfter(code: WireCode)

  /**
    What decides a COMMIT: whether the callback has left the transaction aborted, having swallowed the error of a
    statement; whether the server refuses it; and the connection.
    */
  datatype Commit = Commit(aborted: bool, refusal: Option<string>, wire: Wire)

  /** The server makes the transaction durable. */
  predicate Commits(c: Commit) { !c.aborted && c.refusal.None? && !c.wire.DroppedBefore? }

  /** The error that comes back: an aborted transaction is rolled back by COMMIT without one. */
  function AnswerOf(c: Commit): Option<string> {
    match c.wire
    case Kept => if c.aborted then None else c.refusal
    case DroppedBefore(code) => Some(code)
    case DroppedAfter(code) => Some(code)
  }

  /** One attempt as the outside world plays it; an error is given by its code. */
  datatype Attempt = Attempt(
    connectError: Option<string>, beginError: Option<string>, body: seq<Action>, bodyError: Option<string>,
    commit: Commit)

  datatype Options = Options(retryOnLockTimeout: bool, maxRetries: int, retryDelayMs: int)

  datatype Result = Value | LockTimeoutError | Rethrown(code: string)

  /** What can be seen from outside, with the number of the attempt it belongs to. */
  datatype Event =
    | Connect(k: nat) | ConnectError(k: nat) | CommitOk(k: nat) | CommitError(k: nat) | Rollback(k: nat)
    | PostHook(k: nat, hook: Hook) | RollbackHook(k: nat, hook: Hook) | Sleep(ms: int) | Release(k: nat)
    | Immediate(hook: Hook)

  // ---------------------------------------------------------------- specification

  function Registered(c: Context, action: Action): Context
    decreases action
  {
    match action
    case RegisterPostCommit(h) => c.(postCommit := c.postCommit + [h])
    case RegisterRollback(h) => c.(rollback := c.rollback + [h])
    case Invalidate(key) => Context(c.postCommit + [DeleteKey(key)], c.rollback + [LogRollback(key)])
    case Nested(inner) => AllRegistered(c, inner)
  }

  function AllRegistered(c: Context, body: seq<Action>): Context
    decreases body
  {
    if body == [] then c else AllRegistered(Registered(c, body[0]), body[1..])
  }

  /** The hooks an attempt has registered when it ends. */
  function HooksOf(a: Attempt): Context {
    if a.beginError.Some? then Context([], []) else AllRegistered(Context([], []), a.body)
  }

  predicate ReachesCommit(a: Attempt) {
    a.connectError.None? && a.beginError.None? && a.bodyError.None?
  }

  /** The error that ends a connected attempt, if any. */
  function Failure(a: Attempt): Option<string> {
    if a.beginError.Some? then a.beginError else if a.bodyError.Some? then a.bodyError else AnswerOf(a.commit)
  }

  predicate Retried(a: Attempt, o: Options, k: nat) {
    a.connectError.None? && Failure(a) == Some(PG_LOCK_TIMEOUT_CODE) && o.retryOnLockTimeout && k < o.maxRetries
  }

  function Pow2(n: nat): nat { if n == 0 then 1 else 2 * Pow2(n - 1) }

  /** A delay doubled `n` times. */
  function Doubled(d: int, n: nat): int { if n == 0 then d else 2 * Doubled(d, n - 1) }

  lemma {:induction false} DoubledIs(d: int, n: nat)
    ensures Doubled(d, n) == d * Pow2(n)
  {
    if n > 0 { DoubledIs(d, n - 1); }
  }

  function PostEvents(k: nat, hooks: seq<Hook>): seq<Event> {
    if hooks == [] then [] else PostEvents(k, hooks[..|hooks| - 1]) + [PostHook(k, hooks[|hooks| - 1])]
  }

  function RollbackEvents(k: nat, hooks: seq<Hook>): seq<Event> {
    if hooks == [] then [] else RollbackEvents(k, hooks[..|hooks| - 1]) + [RollbackHook(k, hooks[|hooks| - 1])]
  }

  function CommitTrace(k: nat, a: Attempt): seq<Event> {
    [CommitOk(k)] + PostEvents(k, HooksOf(a).postCommit)
  }

  function RollbackTrace(k: nat, a: Attempt): seq<Event> {
    (if ReachesCommit(a) then [CommitError(k)] else []) + [Rollback(k)] + RollbackEvents(k, HooksOf(a).rollback)
  }

  /** The backoff is slept through with the connection still held. */
  function BackoffTrace(k: nat, a: Attempt, o: Options): seq<Event> {
    if Retried(a, o, k) then [Sleep(Doubled(o.retryDelayMs, k))] else []
  }

  function AttemptTrace(k: nat, a: Attempt, o: Options): seq<Event> {
    if a.connectError.Some? then [ConnectError(k)]
    else
      [Connect(k)] + (if Failure(a).None? then CommitTrace(k, a) else RollbackTrace(k, a)) + BackoffTrace(k, a, o)
      + [Release(k)]
  }

  /** The number of the last attempt, counting from `k`. */
  function Last(env: nat -> Attempt, o: Options, k: nat): (last: nat)
    ensures k <= last
    decreases o.maxRetries - k
  {
    if Retried(env(k), o, k) then Last(env, o, k + 1) else k
  }

  function AttemptTraces(env: nat -> Attempt, o: Options): nat -> seq<Event> {
    (i: nat) => AttemptTrace(i, env(i), o)
  }

  /** The first `n` pieces, one after the other. */
  function Joined(pieces: nat -> seq<Event>, n: nat): seq<Event> {
    if n == 0 then [] else Joined(pieces, n - 1) + pieces(n - 1)
  }

  /** Everything a call does. */
  function Trace(env: nat -> Attempt, o: Options): seq<Event> {
    Joined(AttemptTraces(env, o), Last(env, o, 0) + 1)
  }

  lemma JoinedNext(
    pieces: nat -> seq<Event>, k: nat, piece: seq<Event>, before: seq<Event>, mid: seq<Event>, after: seq<Event>)
    requires mid == before + Joined(pieces, k) && after == mid + piece && piece == pieces(k)
    ensures after == before + Joined(pieces, k + 1)
  {
  }

  /** How the call ends, given its last attempt. */
  function Ending(a: Attempt): Result {
    if a.connectError.Some? then Rethrown(a.connectError.value)
    else
      match Failure(a)
      case None => Value
      case Some(code) => if code == PG_LOCK_TIMEOUT_CODE then LockTimeoutError else Rethrown(code)
  }

  // ---------------------------------------------------------------- the manager

  class TransactionManager {
    var context: Option<Context>
    var trace: seq<Event>

    constructor ()
      ensures context == None && trace == []
    {
      context, trace := None, [];
    }

    /** Outside a transaction the hook runs at once. */
    method RunPostCommit(hook: Hook)
      modifies this
      ensures old(context).None? ==> context == None && trace == old(trace) + [Immediate(hook)]
      ensures old(context).Some? ==>
        trace == old(trace) && context == Some(Registered(old(context).value, RegisterPostCommit(hook)))
    {
      if context.None? {
        trace := trace + [Immediate(hook)];
        return;
      }
      context := Some(context.value.(postCommit := context.value.postCommit + [hook]));
    }

    /** Outside a transaction there is nothing to compensate. */
    method RunRollback(hook: Hook)
      modifies this
      ensures trace == old(trace)
      ensures old(context).None? ==> context == None
      ensures old(context).Some? ==> context == Some(Registered(old(context).value, RegisterRollback(hook)))
    {
      if context.None? { return; }
      context := Some(context.value.(rollback := context.value.rollback + [hook]));
    }

    /** The cache entry goes at once outside a transaction, and with the commit inside one. */
    method InvalidateCache(key: string)
      modifies this
      ensures old(context).None? ==> context == None && trace == old(trace) + [Immediate(DeleteKey(key))]
      ensures old(context).Some? ==>
        trace == old(trace) && context == Some(Registered(old(context).value, Invalidate(key)))
    {
      if context.Some? {
        RunPostCommit(DeleteKey(key));
        RunRollback(LogRollback(key));
        return;
      }
      trace := trace + [Immediate(DeleteKey(key))];
    }

    method RunBody(body: seq<Action>)
      requires context.Some?
      modifies this
      ensures trace == old(trace) && context == Some(AllRegistered(old(context).value, body))
      decreases body
    {
      var i := 0;
      assert body[0..] == body;
      while i < |body|
        invariant 0 <= i <= |body| && context.Some? && trace == old(trace)
        invariant AllRegistered(context.value, body[i..]) == AllRegistered(old(context).value, body)
      {
        assert body[i..][1..] == body[i + 1..];
        match body[i] {
          case RegisterPostCommit(h) => RunPostCommit(h);
          case RegisterRollback(h) => RunRollback(h);
          case Invalidate(key) => InvalidateCache(key);
          case Nested(inner) => RunBody(inner);
        }
        i := i + 1;
      }
    }

    /** Hooks run in order, and what one of them throws stops neither the others nor the caller. */
    method RunHooks(k: nat, hooks: seq<Hook>, committed: bool)
      modifies this
      ensures context == old(context)
      ensures trace == old(trace) + if committed then PostEvents(k, hooks) else RollbackEvents(k, hooks)
    {
      var i := 0;
      while i < |hooks|
        invariant 0 <= i <= |hooks| && context == old(context)
        invariant trace == old(trace) + if committed then PostEvents(k, hooks[..i]) else RollbackEvents(k, hooks[..i])
      {
        assert hooks[..i + 1][..i] == hooks[..i];
        trace := trace + [if committed then PostHook(k, hooks[i]) else RollbackHook(k, hooks[i])];
        i := i + 1;
      }
      assert hooks[..i] == hooks;
    }

    /** BEGIN and the callback, in a fresh context. */
    method RunCallback(a: Attempt) returns (error: Option<string>, registered: Context)
      requires context.None?
      modifies this
      ensures context == None && trace == old(trace) && registered == HooksOf(a)
      ensures error == if a.beginError.Some? then a.beginError else a.bodyError
    {
      registered := Context([], []);
      if a.beginError.Some? { return a.beginError, registered; }
      context := Some(registered);
      RunBody(a.body);
      registered := context.value;
      context := None;
      error := a.bodyError;
    }

    /** BEGIN, the callback and COMMIT, with the hooks that follow. */
    method RunCommitted(k: nat, a: Attempt) returns (error: Option<string>)
      requires context.None? && a.connectError.None?
      modifies this
      ensures context == None && error == Failure(a)
      ensures trace == old(trace) + if error.None? then CommitTrace(k, a) else RollbackTrace(k, a)
    {
      var registered;
      error, registered := RunCallback(a);
      if error.None? {
        error := AnswerOf(a.commit);
        Conclude(k, true, error, registered);
      } else {
        Conclude(k, false, error, registered);
      }
    }

    /** The outcome of an attempt, with or without a COMMIT, and the hooks that go with it. */
    method Conclude(k: nat, reached: bool, error: Option<string>, registered: Context)
      requires !reached ==> error.Some?
      modifies this
      ensures context == old(context)
      ensures error.None? ==> trace == old(trace) + ([CommitOk(k)] + PostEvents(k, registered.postCommit))
      ensures error.Some? ==>
        trace == old(trace) + ((if reached then [CommitError(k)] else []) + [Rollback(k)] + RollbackEvents(k, registered.rollback))
    {
      if error.None? {
        trace := trace + [CommitOk(k)];
        RunHooks(k, registered.postCommit, true);
      } else {
        if reached { trace := trace + [CommitError(k)]; }
        trace := trace + [Rollback(k)];
        RunHooks(k, registered.rollback, false);
      }
    }

    /** One attempt, from connect to release; a failure to connect is not retried. */
    method RunAttempt(k: nat, a: Attempt, o: Options) returns (result: Result, retry: bool)
      requires context.None?
      modifies this
      ensures context == None && retry == Retried(a, o, k) && (!retry ==> result == Ending(a))
      ensures trace == old(trace) + AttemptTrace(k, a, o)
    {
      if a.connectError.Some? {
        trace := trace + [ConnectError(k)];
        return Rethrown(a.connectError.value), false;
      }
      trace := trace + [Connect(k)];
      ghost var begun := trace;
      var error := RunCommitted(k, a);
      ghost var middle := trace[|begun|..];
      assert AttemptTrace(k, a, o) == [Connect(k)] + middle + BackoffTrace(k, a, o) + [Release(k)];
      result := Value;
      retry := false;
      if error == Some(PG_LOCK_TIMEOUT_CODE) {
        if o.retryOnLockTimeout && k < o.maxRetries {
          var delay := o.retryDelayMs * Pow2(k);
          DoubledIs(o.retryDelayMs, k);
          retry := true;
          trace := trace + [Sleep(delay)];
        } else {
          result := LockTimeoutError;
        }
      } else if error.Some? {
        result := Rethrown(error.value);
      }
      trace := trace + [Release(k)];
    }

    /** The attempts before the `k`-th have been made, and all of them are retried. */
    ghost predicate Made(env: nat -> Attempt, o: Options, k: nat, before: seq<Event>)
      reads this
    {
      context == None && trace == before + Joined(AttemptTraces(env, o), k) && Last(env, o, k) == Last(env, o, 0)
    }

    /** One pass of the retry loop. */
    method RunPass(k: nat, env: nat -> Attempt, o: Options, ghost before: seq<Event>) returns (result: Result, retry: bool)
      requires Made(env, o, k, before)
      modifies this
      ensures retry ==> k < o.maxRetries && Made(env, o, k + 1, before)
      ensures !retry ==>
        context == None && trace == before + Trace(env, o) && result == Ending(env(Last(env, o, 0)))
    {
      ghost var mid := trace;
      result, retry := RunAttempt(k, env(k), o);
      JoinedNext(AttemptTraces(env, o), k, AttemptTrace(k, env(k), o), before, mid, trace);
    }

    /** Attempts are made until one is not retried. */
    method RunAttempts(env: nat -> Attempt, o: Options) returns (result: Result)
      requires context.None?
      modifies this
      ensures context == None && trace == old(trace) + Trace(env, o) && result == Ending(env(Last(env, o, 0)))
    {
      var attempts := 0;
      while true
        invariant attempts >= 0 && Made(env, o, attempts, old(trace)) == true
        decreases o.maxRetries - attempts
      {
        var retry;
        result, retry := RunPass(attempts, env, o, old(trace));
        if !retry { return; }
        attempts := attempts + 1;
      }
    }

    /** Inside a transaction the callback joins it, with no connection of its own. */
    method WithTransaction(env: nat -> Attempt, o: Options) returns (result: Result)
      modifies this
      ensures old(context).Some? ==>
        && trace == old(trace)
        && context == Some(AllRegistered(old(context).value, env(0).body))
        && result == if env(0).bodyError.Some? then Rethrown(env(0).bodyError.value) else Value
      ensures old(context).None? ==>
        context == None && trace == old(trace) + Trace(env, o) && result == Ending(env(Last(env, o, 0)))
    {
      if context.Some? {
        RunBody(env(0).body);
        return if env(0).bodyError.Some? then Rethrown(env(0).bodyError.value) else Value;
      }
      result := RunAttempts(env, o);
    }
  }

  // ---------------------------------------------------------------- accounting

  /** What happens between connect and release. */
  ghost function Middle(k: nat, a: Attempt, o: Options): seq<Event> {
    (if Failure(a).None? then CommitTrace(k, a) else RollbackTrace(k, a)) + BackoffTrace(k, a, o)
  }

  lemma AttemptSplits(k: nat, a: Attempt, o: Options)
    requires a.connectError.None?
    ensures AttemptTrace(k, a, o) == [Connect(k)] + Middle(k, a, o) + [Release(k)]
  {
  }

  ghost function Connects(t: seq<Event>): nat {
    if t == [] then 0 else (if t[|t| - 1].Connect? then 1 else 0) + Connects(t[..|t| - 1])
  }

  ghost function Releases(t: seq<Event>): nat {
    if t == [] then 0 else (if t[|t| - 1].Release? then 1 else 0) + Releases(t[..|t| - 1])
  }

  ghost function Slept(t: seq<Event>): int {
    if t == [] then 0 else (if t[|t| - 1].Sleep? then t[|t| - 1].ms else 0) + Slept(t[..|t| - 1])
  }

  lemma {:induction false} CountsConcat(t: seq<Event>, u: seq<Event>)
    ensures Connects(t + u) == Connects(t) + Connects(u)
    ensures Releases(t + u) == Releases(t) + Releases(u)
    ensures Slept(t + u) == Slept(t) + Slept(u)
    decreases |u|
  {
    if u == [] {
      assert t + u == t;
    } else {
      var n := |u| - 1;
      assert (t + u)[..|t + u| - 1] == t + u[..n];
      CountsConcat(t, u[..n]);
    }
  }

  /** Events of hooks and transaction ends, which neither hold nor free a connection. */
  ghost predicate Quiet(t: seq<Event>) {
    forall i :: 0 <= i < |t| ==> !t[i].Connect? && !t[i].Release? && !t[i].Sleep?
  }

  lemma {:induction false} PostEventsAre(k: nat, hooks: seq<Hook>)
    ensures forall i :: 0 <= i < |PostEvents(k, hooks)| ==> PostEvents(k, hooks)[i].PostHook? && PostEvents(k, hooks)[i].k == k
    decreases |hooks|
  {
    if hooks != [] { PostEventsAre(k, hooks[..|hooks| - 1]); }
  }

  lemma {:induction false} RollbackEventsAre(k: nat, hooks: seq<Hook>)
    ensures forall i :: 0 <= i < |RollbackEvents(k, hooks)| ==>
      RollbackEvents(k, hooks)[i].RollbackHook? && RollbackEvents(k, hooks)[i].k == k
    decreases |hooks|
  {
    if hooks != [] { RollbackEventsAre(k, hooks[..|hooks| - 1]); }
  }

  lemma {:induction false} QuietCounts(t: seq<Event>)
    requires Quiet(t)
    ensures Connects(t) == 0 && Releases(t) == 0 && Slept(t) == 0
    decreases |t|
  {
    if t != [] { QuietCounts(t[..|t| - 1]); }
  }

  lemma OneCounts(e: Event)
    ensures Connects([e]) == if e.Connect? then 1 else 0
    ensures Releases([e]) == if e.Release? then 1 else 0
    ensures Slept([e]) == if e.Sleep? then e.ms else 0
  {
  }

  lemma MiddleCounts(k: nat, a: Attempt, o: Options)
    ensures Connects(Middle(k, a, o)) == 0 && Releases(Middle(k, a, o)) == 0
    ensures a.connectError.None? ==> Slept(Middle(k, a, o)) == if Retried(a, o, k) then Doubled(o.retryDelayMs, k) else 0
  {
    var quiet := if Failure(a).None? then CommitTrace(k, a) else RollbackTrace(k, a);
    var sleep := Sleep(Doubled(o.retryDelayMs, k));
    PostEventsAre(k, HooksOf(a).postCommit);
    RollbackEventsAre(k, HooksOf(a).rollback);
    QuietCounts(quiet);
    OneCounts(sleep);
    CountsConcat(quiet, BackoffTrace(k, a, o));
  }

  lemma AttemptCounts(k: nat, a: Attempt, o: Options)
    ensures var t := AttemptTrace(k, a, o);
      && Connects(t) == Releases(t) == (if a.connectError.None? then 1 else 0)
      && Slept(t) == if Retried(a, o, k) then Doubled(o.retryDelayMs, k) else 0
  {
    if a.connectError.Some? {
      OneCounts(ConnectError(k));
    } else {
      OneCounts(Connect(k));
      OneCounts(Release(k));
      MiddleCounts(k, a, o);
      AttemptSplits(k, a, o);
      CountsConcat([Connect(k)], Middle(k, a, o));
      CountsConcat([Connect(k)] + Middle(k, a, o), [Release(k)]);
    }
  }

  /** What a retried attempt leaves in the trace. */
  ghost predicate Retry(t: seq<Event>, d: int, i: nat) {
    Connects(t) == Releases(t) == 1 && Slept(t) == Doubled(d, i)
  }

  lemma {:induction false} JoinedCounts(pieces: nat -> seq<Event>, n: nat, d: int)
    requires forall i :: 0 <= i < n ==> Retry(pieces(i), d, i)
    ensures Connects(Joined(pieces, n)) == Releases(Joined(pieces, n)) == n
    ensures Slept(Joined(pieces, n)) == Doubled(d, n) - d
  {
    if n > 0 {
      JoinedCounts(pieces, n - 1, d);
      assert Retry(pieces(n - 1), d, n - 1);
      CountsConcat(Joined(pieces, n - 1), pieces(n - 1));
    }
  }

  lemma {:induction false} LastBound(env: nat -> Attempt, o: Options, k: nat)
    ensures Last(env, o, k) <= if o.retryOnLockTimeout && o.maxRetries > k then o.maxRetries else k
    ensures forall i :: k <= i < Last(env, o, k) ==> Retried(env(i), o, i)
    ensures !Retried(env(Last(env, o, k)), o, Last(env, o, k))
    decreases o.maxRetries - k
  {
    if Retried(env(k), o, k) { LastBound(env, o, k + 1); }
  }

  lemma RetriesCount(env: nat -> Attempt, o: Options)
    ensures forall i :: 0 <= i < Last(env, o, 0) ==> Retry(AttemptTraces(env, o)(i), o.retryDelayMs, i)
  {
    LastBound(env, o, 0);
    forall i | 0 <= i < Last(env, o, 0) ensures Retry(AttemptTraces(env, o)(i), o.retryDelayMs, i) {
      AttemptCounts(i, env(i), o);
    }
  }

  lemma LastCounts(env: nat -> Attempt, o: Options)
    ensures
      var last := Last(env, o, 0);
      var t := AttemptTraces(env, o)(last);
      Connects(t) == Releases(t) == (if env(last).connectError.None? then 1 else 0) && Slept(t) == 0
  {
    var last := Last(env, o, 0);
    LastBound(env, o, 0);
    AttemptCounts(last, env(last), o);
  }

  lemma TraceCounts(env: nat -> Attempt, o: Options)
    ensures
      var t, retries := Trace(env, o), Last(env, o, 0);
      && Connects(t) == Releases(t) == retries + (if env(retries).connectError.None? then 1 else 0)
      && Slept(t) == Doubled(o.retryDelayMs, retries) - o.retryDelayMs
  {
    var pieces, last := AttemptTraces(env, o), Last(env, o, 0);
    RetriesCount(env, o);
    JoinedCounts(pieces, last, o.retryDelayMs);
    LastCounts(env, o);
    CountsConcat(Joined(pieces, last), pieces(last));
  }

  /**
    Every connection taken is given back, at most `maxRetries` attempts follow the first,
    and the backoff adds up to `retryDelayMs` times one less than two to the number of retries.
    */
  lemma Accounting(env: nat -> Attempt, o: Options)
    ensures
      var t, retries := Trace(env, o), Last(env, o, 0);
      && Connects(t) == Releases(t) == retries + (if env(retries).connectError.None? then 1 else 0)
      && retries <= (if o.retryOnLockTimeout && o.maxRetries > 0 then o.maxRetries else 0)
      && Slept(t) == o.retryDelayMs * (Pow2(retries) - 1)
  {
    TraceCounts(env, o);
    LastBound(env, o, 0);
    DoubledIs(o.retryDelayMs, Last(env, o, 0));
  }

  /** At every moment at most one connection is held. */
  ghost predicate OneHeld(t: seq<Event>) {
    forall i :: 0 <= i <= |t| ==> Releases(t[..i]) <= Connects(t[..i]) <= Releases(t[..i]) + 1
  }

  lemma OneHeldConcat(t: seq<Event>, u: seq<Event>)
    requires OneHeld(t) && OneHeld(u) && Connects(t) == Releases(t)
    ensures OneHeld(t + u)
  {
    forall i | 0 <= i <= |t + u|
      ensures Releases((t + u)[..i]) <= Connects((t + u)[..i]) <= Releases((t + u)[..i]) + 1
    {
      if i <= |t| {
        assert (t + u)[..i] == t[..i];
      } else {
        assert (t + u)[..i] == t + u[..i - |t|];
        CountsConcat(t, u[..i - |t|]);
      }
    }
  }

  lemma {:induction false} HeldOpen(e: Event, t: seq<Event>, i: nat)
    requires e.Connect? && i <= |t| && forall j :: 0 <= j < |t| ==> !t[j].Connect? && !t[j].Release?
    ensures Connects([e] + t[..i]) == 1 && Releases([e] + t[..i]) == 0
    decreases i
  {
    if i == 0 {
      assert [e] + t[..0] == [e];
      OneCounts(e);
    } else {
      HeldOpen(e, t, i - 1);
      assert ([e] + t[..i])[..|[e] + t[..i]| - 1] == [e] + t[..i - 1];
    }
  }

  lemma MiddleIsQuiet(k: nat, a: Attempt, o: Options)
    ensures forall i :: 0 <= i < |Middle(k, a, o)| ==> !Middle(k, a, o)[i].Connect? && !Middle(k, a, o)[i].Release?
  {
    PostEventsAre(k, HooksOf(a).postCommit);
    RollbackEventsAre(k, HooksOf(a).rollback);
  }

  lemma WrappedHeld(first: Event, t: seq<Event>, last: Event)
    requires first.Connect? && last.Release? && forall j :: 0 <= j < |t| ==> !t[j].Connect? && !t[j].Release?
    ensures OneHeld([first] + t + [last])
  {
    var u := [first] + t + [last];
    forall i | 0 <= i <= |u| ensures Releases(u[..i]) <= Connects(u[..i]) <= Releases(u[..i]) + 1 {
      if i == |u| {
        assert u[..i] == ([first] + t[..|t|]) + [last];
        HeldOpen(first, t, |t|);
        CountsConcat([first] + t[..|t|], [last]);
        OneCounts(last);
      } else if i > 0 {
        assert u[..i] == [first] + t[..i - 1];
        HeldOpen(first, t, i - 1);
      }
    }
  }

  lemma AttemptHeld(k: nat, a: Attempt, o: Options)
    ensures OneHeld(AttemptTrace(k, a, o))
  {
    if a.connectError.None? {
      AttemptSplits(k, a, o);
      MiddleIsQuiet(k, a, o);
      WrappedHeld(Connect(k), Middle(k, a, o), Release(k));
    } else {
      OneCounts(ConnectError(k));
      assert [ConnectError(k)][..0] == [] && [ConnectError(k)][..1] == [ConnectError(k)];
    }
  }

  lemma {:induction false} JoinedHeld(pieces: nat -> seq<Event>, n: nat)
    requires forall i :: 0 <= i < n ==> OneHeld(pieces(i)) && Connects(pieces(i)) == Releases(pieces(i))
    ensures OneHeld(Joined(pieces, n)) && Connects(Joined(pieces, n)) == Releases(Joined(pieces, n))
  {
    if n > 0 {
      JoinedHeld(pieces, n - 1);
      CountsConcat(Joined(pieces, n - 1), pieces(n - 1));
      OneHeldConcat(Joined(pieces, n - 1), pieces(n - 1));
    }
  }

  lemma OneConnectionAtATime(env: nat -> Attempt, o: Options)
    ensures OneHeld(Trace(env, o))
  {
    var pieces := AttemptTraces(env, o);
    forall i: nat ensures OneHeld(pieces(i)) && Connects(pieces(i)) == Releases(pieces(i)) {
      AttemptHeld(i, env(i), o);
      AttemptCounts(i, env(i), o);
    }
    JoinedHeld(pieces, Last(env, o, 0) + 1);
  }

  // ---------------------------------------------------------------- hooks

  /** The post-commit hooks of attempt `k` that ran, in order. */
  ghost function PostRan(t: seq<Event>, k: nat): seq<Hook> {
    if t == [] then []
    else
      var e := t[|t| - 1];
      PostRan(t[..|t| - 1], k) + (if e.PostHook? && e.k == k then [e.hook] else [])
  }

  ghost function RollbackRan(t: seq<Event>, k: nat): seq<Hook> {
    if t == [] then []
    else
      var e := t[|t| - 1];
      RollbackRan(t[..|t| - 1], k) + (if e.RollbackHook? && e.k == k then [e.hook] else [])
  }

  lemma {:induction false} RanConcat(t: seq<Event>, u: seq<Event>, k: nat)
    ensures PostRan(t + u, k) == PostRan(t, k) + PostRan(u, k)
    ensures RollbackRan(t + u, k) == RollbackRan(t, k) + RollbackRan(u, k)
    decreases |u|
  {
    if u == [] {
      assert t + u == t;
    } else {
      var n := |u| - 1;
      assert (t + u)[..|t + u| - 1] == t + u[..n];
      RanConcat(t, u[..n], k);
    }
  }

  lemma {:induction false} NoneRan(t: seq<Event>, k: nat)
    requires forall i :: 0 <= i < |t| ==> !(t[i].PostHook? && t[i].k == k) && !(t[i].RollbackHook? && t[i].k == k)
    ensures PostRan(t, k) == [] && RollbackRan(t, k) == []
    decreases |t|
  {
    if t != [] { NoneRan(t[..|t| - 1], k); }
  }

  lemma OneRan(e: Event, k: nat)
    ensures PostRan([e], k) == if e.PostHook? && e.k == k then [e.hook] else []
    ensures RollbackRan([e], k) == if e.RollbackHook? && e.k == k then [e.hook] else []
  {
    assert [e][..0] == [];
  }

  lemma {:induction false} PostEventsRan(k: nat, hooks: seq<Hook>)
    ensures PostRan(PostEvents(k, hooks), k) == hooks && RollbackRan(PostEvents(k, hooks), k) == []
    decreases |hooks|
  {
    if hooks != [] {
      assert hooks == hooks[..|hooks| - 1] + [hooks[|hooks| - 1]];
      var front := PostEvents(k, hooks[..|hooks| - 1]);
      PostEventsRan(k, hooks[..|hooks| - 1]);
      var event := PostHook(k, hooks[|hooks| - 1]);
      RanConcat(front, [event], k);
      OneRan(event, k);
    }
  }

  lemma {:induction false} RollbackEventsRan(k: nat, hooks: seq<Hook>)
    ensures RollbackRan(RollbackEvents(k, hooks), k) == hooks && PostRan(RollbackEvents(k, hooks), k) == []
    decreases |hooks|
  {
    if hooks != [] {
      assert hooks == hooks[..|hooks| - 1] + [hooks[|hooks| - 1]];
      var front := RollbackEvents(k, hooks[..|hooks| - 1]);
      RollbackEventsRan(k, hooks[..|hooks| - 1]);
      var event := RollbackHook(k, hooks[|hooks| - 1]);
      RanConcat(front, [event], k);
      OneRan(event, k);
    }
  }

  ghost predicate Succeeds(a: Attempt) { a.connectError.None? && Failure(a).None? }

  ghost predicate Fails(a: Attempt) { a.connectError.None? && Failure(a).Some? }

  lemma CommitRan(k: nat, a: Attempt)
    ensures PostRan(CommitTrace(k, a), k) == HooksOf(a).postCommit && RollbackRan(CommitTrace(k, a), k) == []
  {
    var hooks := HooksOf(a).postCommit;
    PostEventsRan(k, hooks);
    NoneRan([CommitOk(k)], k);
    RanConcat([CommitOk(k)], PostEvents(k, hooks), k);
  }

  lemma RollbackTraceRan(k: nat, a: Attempt)
    ensures PostRan(RollbackTrace(k, a), k) == [] && RollbackRan(RollbackTrace(k, a), k) == HooksOf(a).rollback
  {
    var head := (if ReachesCommit(a) then [CommitError(k)] else []) + [Rollback(k)];
    var hooks := HooksOf(a).rollback;
    RollbackEventsRan(k, hooks);
    NoneRan(head, k);
    RanConcat(head, RollbackEvents(k, hooks), k);
    assert RollbackTrace(k, a) == head + RollbackEvents(k, hooks);
  }

  lemma MiddleRan(k: nat, a: Attempt, o: Options)
    ensures PostRan(Middle(k, a, o), k) == if Failure(a).None? then HooksOf(a).postCommit else []
    ensures RollbackRan(Middle(k, a, o), k) == if Failure(a).Some? then HooksOf(a).rollback else []
  {
    NoneRan(BackoffTrace(k, a, o), k);
    if Failure(a).None? {
      CommitRan(k, a);
      RanConcat(CommitTrace(k, a), BackoffTrace(k, a, o), k);
    } else {
      RollbackTraceRan(k, a);
      RanConcat(RollbackTrace(k, a), BackoffTrace(k, a, o), k);
    }
  }

  lemma WrappedRan(first: Event, t: seq<Event>, last: Event, k: nat)
    requires !first.PostHook? && !first.RollbackHook? && !last.PostHook? && !last.RollbackHook?
    ensures PostRan([first] + t + [last], k) == PostRan(t, k) && RollbackRan([first] + t + [last], k) == RollbackRan(t, k)
  {
    NoneRan([first], k);
    NoneRan([last], k);
    RanConcat([first], t, k);
    RanConcat([first] + t, [last], k);
  }

  lemma AttemptRan(k: nat, a: Attempt, o: Options)
    ensures PostRan(AttemptTrace(k, a, o), k) == if Succeeds(a) then HooksOf(a).postCommit else []
    ensures RollbackRan(AttemptTrace(k, a, o), k) == if Fails(a) then HooksOf(a).rollback else []
  {
    if a.connectError.Some? {
      NoneRan([ConnectError(k)], k);
    } else {
      AttemptSplits(k, a, o);
      MiddleRan(k, a, o);
      WrappedRan(Connect(k), Middle(k, a, o), Release(k), k);
    }
  }

  lemma AttemptHooksAre(k: nat, a: Attempt, o: Options)
    ensures forall i :: 0 <= i < |AttemptTrace(k, a, o)| ==>
      (AttemptTrace(k, a, o)[i].PostHook? || AttemptTrace(k, a, o)[i].RollbackHook? ==> AttemptTrace(k, a, o)[i].k == k)
  {
    PostEventsAre(k, HooksOf(a).postCommit);
    RollbackEventsAre(k, HooksOf(a).rollback);
  }

  lemma OthersDoNotRun(k: nat, a: Attempt, o: Options, i: nat)
    requires i != k
    ensures PostRan(AttemptTrace(k, a, o), i) == [] && RollbackRan(AttemptTrace(k, a, o), i) == []
  {
    AttemptHooksAre(k, a, o);
    NoneRan(AttemptTrace(k, a, o), i);
  }

  lemma {:induction false} JoinedRan(pieces: nat -> seq<Event>, n: nat, i: nat)
    requires forall j: nat :: j != i ==> PostRan(pieces(j), i) == [] && RollbackRan(pieces(j), i) == []
    ensures PostRan(Joined(pieces, n), i) == if i < n then PostRan(pieces(i), i) else []
    ensures RollbackRan(Joined(pieces, n), i) == if i < n then RollbackRan(pieces(i), i) else []
  {
    if n > 0 {
      JoinedRan(pieces, n - 1, i);
      RanConcat(Joined(pieces, n - 1), pieces(n - 1), i);
    }
  }

  /** Over a whole call, attempt `i` runs its post-commit hooks if it was made and got through, and else its rollback hooks. */
  lemma HooksRan(env: nat -> Attempt, o: Options, i: nat)
    ensures PostRan(Trace(env, o), i)
         == if i <= Last(env, o, 0) && Succeeds(env(i)) then HooksOf(env(i)).postCommit else []
    ensures RollbackRan(Trace(env, o), i)
         == if i <= Last(env, o, 0) && Fails(env(i)) then HooksOf(env(i)).rollback else []
  {
    var pieces := AttemptTraces(env, o);
    forall j: nat | j != i ensures PostRan(pieces(j), i) == [] && RollbackRan(pieces(j), i) == [] {
      OthersDoNotRun(j, env(j), o, i);
    }
    JoinedRan(pieces, Last(env, o, 0) + 1, i);
    AttemptRan(i, env(i), o);
  }

  // ---------------------------------------------------------------- what was really committed

  /** The server has made the attempt durable. */
  ghost predicate Durable(a: Attempt) { ReachesCommit(a) && Commits(a.commit) }

  /** COMMIT is answered while the callback has left the transaction aborted, or takes effect and its answer is lost. */
  ghost predicate Misled(a: Attempt) {
    ReachesCommit(a) && ((a.commit.aborted && a.commit.wire.Kept?) || (Commits(a.commit) && a.commit.wire.DroppedAfter?))
  }

  /** Attempt `i` ran the hooks its real outcome calls for, once each and in order. */
  ghost predicate HooksMatch(t: seq<Event>, a: Attempt, i: nat) {
    && PostRan(t, i) == (if Durable(a) then HooksOf(a).postCommit else [])
    && RollbackRan(t, i) == (if a.connectError.None? && !Durable(a) then HooksOf(a).rollback else [])
  }

  lemma MisledEnding(a: Attempt)
    ensures !Misled(a) <==> (Durable(a) <==> Succeeds(a))
    ensures !Misled(a) <==> (a.connectError.None? && !Durable(a) <==> Fails(a))
  {
  }

  /** However attempts fail and are retried, one of them commits at most, and it is the last. */
  lemma OneCommitAtMost(env: nat -> Attempt, o: Options, i: nat)
    requires i <= Last(env, o, 0) && Durable(env(i))
    ensures i == Last(env, o, 0)
  {
    LastBound(env, o, 0);
  }

  /** Where no attempt is misled, hooks follow what was committed, and a value is returned exactly when the last one was. */
  lemma HooksFollowCommit(env: nat -> Attempt, o: Options, i: nat)
    requires i <= Last(env, o, 0) && !Misled(env(i))
    ensures HooksMatch(Trace(env, o), env(i), i)
    ensures i == Last(env, o, 0) ==> (Ending(env(i)) == Value <==> Durable(env(i)))
  {
    HooksRan(env, o, i);
    MisledEnding(env(i));
  }

  /** And only there: for an attempt with hooks of both kinds they match exactly when it is not misled. */
  lemma HooksMatchIff(env: nat -> Attempt, o: Options, i: nat)
    requires i <= Last(env, o, 0) && HooksOf(env(i)).postCommit != [] && HooksOf(env(i)).rollback != []
    ensures HooksMatch(Trace(env, o), env(i), i) <==> !Misled(env(i))
  {
    HooksRan(env, o, i);
    MisledEnding(env(i));
  }

  /** A callback that swallows a failed statement: nothing is committed, a value is returned and post-commit hooks run. */
  lemma SwallowedErrorRunsHooks(o: Options, body: seq<Action>) returns (env: nat -> Attempt)
    ensures Last(env, o, 0) == 0 && env(0).body == body && env(0).bodyError.None?
    ensures !Durable(env(0)) && Ending(env(0)) == Value
    ensures PostRan(Trace(env, o), 0) == HooksOf(env(0)).postCommit
  {
    var a := Attempt(None, None, body, None, Commit(true, None, Kept));
    env := (k: nat) => a;
    HooksRan(env, o, 0);
  }

  /** A connection lost after the server has committed: the error is rethrown and rollback hooks run. */
  lemma LostAnswerRunsRollback(o: Options, body: seq<Action>, code: WireCode) returns (env: nat -> Attempt)
    ensures Last(env, o, 0) == 0 && env(0).body == body
    ensures Durable(env(0)) && Ending(env(0)) == Rethrown(code)
    ensures PostRan(Trace(env, o), 0) == [] && RollbackRan(Trace(env, o), 0) == HooksOf(env(0)).rollback
  {
    var a := Attempt(None, None, body, None, Commit(false, None, DroppedAfter(code)));
    env := (k: nat) => a;
    HooksRan(env, o, 0);
  }

  // ---------------------------------------------------------------- deferred invalidation

  ghost predicate CommittedBefore(t: seq<Event>, i: nat, k: nat)
    requires i <= |t|
  {
    exists j :: 0 <= j < i && t[j] == CommitOk(k)
  }

  /** A post-commit hook never runs before its COMMIT has been answered without an error. */
  ghost predicate HooksAfterCommit(t: seq<Event>) {
    forall i :: 0 <= i < |t| && t[i].PostHook? ==> CommittedBefore(t, i, t[i].k)
  }

  lemma HooksAfterCommitConcat(t: seq<Event>, u: seq<Event>)
    requires HooksAfterCommit(t) && HooksAfterCommit(u)
    ensures HooksAfterCommit(t + u)
  {
    var tu := t + u;
    forall i | 0 <= i < |tu| && tu[i].PostHook? ensures CommittedBefore(tu, i, tu[i].k) {
      if i < |t| {
        var j :| 0 <= j < i && t[j] == CommitOk(t[i].k);
        assert tu[j] == t[j];
      } else {
        var h := i - |t|;
        var j :| 0 <= j < h && u[j] == CommitOk(u[h].k);
        assert tu[|t| + j] == u[j];
      }
    }
  }

  lemma {:induction false} JoinedAfterCommit(pieces: nat -> seq<Event>, n: nat)
    requires forall i: nat :: HooksAfterCommit(pieces(i))
    ensures HooksAfterCommit(Joined(pieces, n))
  {
    if n > 0 {
      JoinedAfterCommit(pieces, n - 1);
      HooksAfterCommitConcat(Joined(pieces, n - 1), pieces(n - 1));
    }
  }

  lemma AttemptAfterCommit(k: nat, a: Attempt, o: Options)
    ensures HooksAfterCommit(AttemptTrace(k, a, o))
  {
    var t := AttemptTrace(k, a, o);
    PostEventsAre(k, HooksOf(a).postCommit);
    RollbackEventsAre(k, HooksOf(a).rollback);
    forall i | 0 <= i < |t| && t[i].PostHook? ensures CommittedBefore(t, i, t[i].k) {
      assert t[1] == CommitOk(k);
    }
  }

  lemma PostHookAfterCommit(env: nat -> Attempt, o: Options)
    ensures HooksAfterCommit(Trace(env, o))
  {
    var pieces := AttemptTraces(env, o);
    forall i: nat ensures HooksAfterCommit(pieces(i)) { AttemptAfterCommit(i, env(i), o); }
    JoinedAfterCommit(pieces, Last(env, o, 0) + 1);
  }

  lemma {:induction false} HookInTraceRan(t: seq<Event>, i: nat)
    requires i < |t| && t[i].PostHook?
    ensures t[i].hook in PostRan(t, t[i].k)
    decreases |t|
  {
    var n := |t| - 1;
    if i < n {
      HookInTraceRan(t[..n], i);
      assert t[..n][i] == t[i];
    }
  }

  /** When a post-commit hook runs, its attempt is durable exactly if the callback has not left the transaction aborted. */
  lemma PostHookDurableIff(env: nat -> Attempt, o: Options, i: nat)
    requires i < |Trace(env, o)| && Trace(env, o)[i].PostHook?
    ensures var k := Trace(env, o)[i].k; Durable(env(k)) <==> !env(k).commit.aborted
  {
    var t := Trace(env, o);
    HookInTraceRan(t, i);
    HooksRan(env, o, t[i].k);
  }

  lemma {:induction false} KeepsHooks(c: Context, body: seq<Action>, h: Hook)
    requires h in c.postCommit
    ensures h in AllRegistered(c, body).postCommit
    decreases body
  {
    if body != [] {
      if body[0].Nested? { KeepsHooks(c, body[0].body, h); }
      KeepsHooks(Registered(c, body[0]), body[1..], h);
    }
  }

  /** The body invalidates `key`, itself or in a nested transaction. */
  ghost predicate Invalidates(body: seq<Action>, key: string)
    decreases body
  {
    && body != []
    && ((match body[0]
         case Invalidate(k) => k == key
         case Nested(inner) => Invalidates(inner, key)
         case _ => false)
        || Invalidates(body[1..], key))
  }

  lemma {:induction false} InvalidationRegistered(c: Context, body: seq<Action>, key: string)
    requires Invalidates(body, key)
    ensures DeleteKey(key) in AllRegistered(c, body).postCommit
    decreases body
  {
    if Invalidates(body[1..], key) {
      InvalidationRegistered(Registered(c, body[0]), body[1..], key);
    } else {
      if body[0].Nested? { InvalidationRegistered(c, body[0].body, key); }
      KeepsHooks(Registered(c, body[0]), body[1..], DeleteKey(key));
    }
  }

  /** The cache entry is deleted in the transaction's trace at this point. */
  ghost predicate DeletesAt(t: seq<Event>, i: nat, k: nat, key: string) {
    i < |t| && t[i] == PostHook(k, DeleteKey(key))
  }

  lemma {:induction false} RanIsInTrace(t: seq<Event>, k: nat, key: string)
    requires DeleteKey(key) in PostRan(t, k)
    ensures exists i :: DeletesAt(t, i, k, key)
    decreases |t|
  {
    var n := |t| - 1;
    if DeleteKey(key) in PostRan(t[..n], k) {
      RanIsInTrace(t[..n], k, key);
      var i :| DeletesAt(t[..n], i, k, key);
      assert DeletesAt(t, i, k, key);
    } else {
      assert DeletesAt(t, n, k, key);
    }
  }

  /**
    A cache entry invalidated inside a transaction is deleted when the call returns a value, and only after COMMIT has been
    answered without an error; the server has then committed, unless the callback left the transaction aborted.
    */
  lemma InvalidationFollowsCommit(env: nat -> Attempt, o: Options, key: string)
    requires var a := env(Last(env, o, 0)); Invalidates(a.body, key)
    ensures
      var t, last := Trace(env, o), Last(env, o, 0);
      && (Ending(env(last)) == Value ==> exists i :: DeletesAt(t, i, last, key))
      && (forall i, k :: DeletesAt(t, i, k, key) ==>
            CommittedBefore(t, i, k) && (Durable(env(k)) <==> !env(k).commit.aborted))
  {
    var t, last := Trace(env, o), Last(env, o, 0);
    HooksRan(env, o, last);
    if Ending(env(last)) == Value {
      InvalidationRegistered(Context([], []), env(last).body, key);
      RanIsInTrace(t, last, key);
    }
    PostHookAfterCommit(env, o);
    forall i, k | DeletesAt(t, i, k, key) ensures Durable(env(k)) <==> !env(k).commit.aborted {
      PostHookDurableIff(env, o, i);
    }
  }
}

/** Hooks in the order of the callback, rollbacks before their hooks, and how many attempts are made. */
module TransactionHooks {
  import opened Prelude
  import opened Transactions

  /** The actions of a callback, those of nested transactions in their places. */
  ghost function Flattened(body: seq<Action>): seq<Action>
    decreases body
  {
    if body == [] then [] else Leaves(body[0]) + Flattened(body[1..])
  }

  ghost function Leaves(action: Action): seq<Action>
    decreases action
  {
    match action
    case Nested(inner) => Flattened(inner)
    case _ => [action]
  }

  ghost function PostOf(a: Action): seq<Hook> {
    if a.RegisterPostCommit? then [a.hook] else if a.Invalidate? then [DeleteKey(a.key)] else []
  }

  ghost function RollbackOf(a: Action): seq<Hook> {
    if a.RegisterRollback? then [a.hook] else if a.Invalidate? then [LogRollback(a.key)] else []
  }

  /** The post-commit hooks among them, in order. */
  ghost function PostHooks(actions: seq<Action>): seq<Hook> {
    if actions == [] then [] else PostHooks(actions[..|actions| - 1]) + PostOf(actions[|actions| - 1])
  }

  ghost function RollbackHooks(actions: seq<Action>): seq<Hook> {
    if actions == [] then [] else RollbackHooks(actions[..|actions| - 1]) + RollbackOf(actions[|actions| - 1])
  }

  lemma {:induction false} PostHooksConcat(x: seq<Action>, y: seq<Action>)
    ensures PostHooks(x + y) == PostHooks(x) + PostHooks(y)
    decreases |y|
  {
    if y == [] {
      assert x + y == x;
    } else {
      assert (x + y)[..|x + y| - 1] == x + y[..|y| - 1];
      PostHooksConcat(x, y[..|y| - 1]);
    }
  }

  lemma {:induction false} RollbackHooksConcat(x: seq<Action>, y: seq<Action>)
    ensures RollbackHooks(x + y) == RollbackHooks(x) + RollbackHooks(y)
    decreases |y|
  {
    if y == [] {
      assert x + y == x;
    } else {
      assert (x + y)[..|x + y| - 1] == x + y[..|y| - 1];
      RollbackHooksConcat(x, y[..|y| - 1]);
    }
  }

  /** A context with the hooks of some actions added. */
  ghost function With(c: Context, actions: seq<Action>): Context {
    Context(c.postCommit + PostHooks(actions), c.rollback + RollbackHooks(actions))
  }

  lemma WithConcat(c: Context, x: seq<Action>, y: seq<Action>)
    ensures With(With(c, x), y) == With(c, x + y)
  {
    PostHooksConcat(x, y);
    RollbackHooksConcat(x, y);
    Associates(c.postCommit, PostHooks(x), PostHooks(y));
    Associates(c.rollback, RollbackHooks(x), RollbackHooks(y));
  }

  lemma Associates(a: seq<Hook>, b: seq<Hook>, c: seq<Hook>)
    ensures (a + b) + c == a + (b + c)
  {
  }

  lemma WithOne(c: Context, a: Action)
    ensures With(c, [a]) == Context(c.postCommit + PostOf(a), c.rollback + RollbackOf(a))
  {
    assert [a][..0] == [];
    assert PostHooks([a]) == [] + PostOf(a) == PostOf(a);
    assert RollbackHooks([a]) == [] + RollbackOf(a) == RollbackOf(a);
  }

  lemma {:induction false} RegistersLeaves(c: Context, action: Action)
    ensures Registered(c, action) == With(c, Leaves(action))
    decreases action
  {
    match action {
      case Nested(inner) => RegistersInOrder(c, inner);
      case _ => WithOne(c, action);
    }
  }

  /** What a callback registers, after what is there already, in the order it does so. */
  lemma {:induction false} RegistersInOrder(c: Context, body: seq<Action>)
    ensures AllRegistered(c, body) == With(c, Flattened(body))
    decreases body
  {
    if body != [] {
      RegistersLeaves(c, body[0]);
      RegistersInOrder(Registered(c, body[0]), body[1..]);
      WithConcat(c, Leaves(body[0]), Flattened(body[1..]));
    }
  }

  /** The hooks that run over a call are those of the callback, nested ones included, in the callback's order. */
  lemma HooksRunInOrder(env: nat -> Attempt, o: Options, i: nat)
    ensures PostRan(Trace(env, o), i)
         == if i <= Last(env, o, 0) && Succeeds(env(i)) then PostHooks(Flattened(env(i).body)) else []
    ensures RollbackRan(Trace(env, o), i)
         == if i <= Last(env, o, 0) && Fails(env(i)) && env(i).beginError.None?
            then RollbackHooks(Flattened(env(i).body)) else []
  {
    HooksRan(env, o, i);
    RegistersInOrder(Context([], []), env(i).body);
  }

  // ---------------------------------------------------------------- attempts

  /** BEGIN, the callback or COMMIT came back with the lock-timeout error. */
  ghost predicate LockedOut(a: Attempt) {
    && a.connectError.None?
    && if a.beginError.Some? then a.beginError.value == "55P03"
       else if a.bodyError.Some? then a.bodyError.value == "55P03"
       else AnswerOf(a.commit) == Some("55P03")
  }

  /**
    Attempts follow each other while they are locked out, retrying is on and retries are left, and no longer.  The call
    ends in a LockTimeoutError exactly when the last of them was locked out too.
    */
  lemma RetriesWhileLockedOut(env: nat -> Attempt, o: Options)
    ensures
      var last := Last(env, o, 0);
      && (forall i :: 0 <= i < last ==> LockedOut(env(i)) && o.retryOnLockTimeout && i < o.maxRetries)
      && (LockedOut(env(last)) ==> !o.retryOnLockTimeout || last >= o.maxRetries)
      && (Ending(env(last)) == LockTimeoutError <==> LockedOut(env(last)))
      && (Ending(env(last)) == Value <==> ReachesCommit(env(last)) && AnswerOf(env(last).commit).None?)
  {
    LastBound(env, o, 0);
  }

  // ---------------------------------------------------------------- rollback

  lemma {:induction false} InJoined(pieces: nat -> seq<Event>, n: nat, e: Event)
    ensures e in Joined(pieces, n) <==> exists i :: 0 <= i < n && e in pieces(i)
  {
    if n > 0 { InJoined(pieces, n - 1, e); }
  }

  lemma RollbackInAttempt(k: nat, a: Attempt, o: Options, i: nat)
    ensures Rollback(i) in AttemptTrace(k, a, o) <==> i == k && Fails(a)
  {
    PostEventsAre(k, HooksOf(a).postCommit);
    RollbackEventsAre(k, HooksOf(a).rollback);
    if Fails(a) {
      var t := AttemptTrace(k, a, o);
      assert t[if ReachesCommit(a) then 2 else 1] == Rollback(k);
    }
  }

  /** Every failed attempt is rolled back, and no other. */
  lemma FailedAttemptsRollBack(env: nat -> Attempt, o: Options, i: nat)
    ensures Rollback(i) in Trace(env, o) <==> i <= Last(env, o, 0) && Fails(env(i))
  {
    var pieces, n := AttemptTraces(env, o), Last(env, o, 0) + 1;
    InJoined(pieces, n, Rollback(i));
    forall k: nat ensures Rollback(i) in pieces(k) <==> i == k && Fails(env(k)) { RollbackInAttempt(k, env(k), o, i); }
  }

  ghost predicate RolledBackBefore(t: seq<Event>, i: nat, k: nat)
    requires i <= |t|
  {
    exists j :: 0 <= j < i && t[j] == Rollback(k)
  }

  ghost predicate HooksAfterRollback(t: seq<Event>) {
    forall i :: 0 <= i < |t| && t[i].RollbackHook? ==> RolledBackBefore(t, i, t[i].k)
  }

  lemma HooksAfterRollbackConcat(t: seq<Event>, u: seq<Event>)
    requires HooksAfterRollback(t) && HooksAfterRollback(u)
    ensures HooksAfterRollback(t + u)
  {
    var tu := t + u;
    forall i | 0 <= i < |tu| && tu[i].RollbackHook? ensures RolledBackBefore(tu, i, tu[i].k) {
      if i < |t| {
        var j :| 0 <= j < i && t[j] == Rollback(t[i].k);
        assert tu[j] == t[j];
      } else {
        var h := i - |t|;
        var j :| 0 <= j < h && u[j] == Rollback(u[h].k);
        assert tu[|t| + j] == u[j];
      }
    }
  }

  lemma {:induction false} JoinedAfterRollback(pieces: nat -> seq<Event>, n: nat)
    requires forall i: nat :: HooksAfterRollback(pieces(i))
    ensures HooksAfterRollback(Joined(pieces, n))
  {
    if n > 0 {
      JoinedAfterRollback(pieces, n - 1);
      HooksAfterRollbackConcat(Joined(pieces, n - 1), pieces(n - 1));
    }
  }

  lemma AttemptAfterRollback(k: nat, a: Attempt, o: Options)
    ensures HooksAfterRollback(AttemptTrace(k, a, o))
  {
    var t := AttemptTrace(k, a, o);
    PostEventsAre(k, HooksOf(a).postCommit);
    RollbackEventsAre(k, HooksOf(a).rollback);
    forall i | 0 <= i < |t| && t[i].RollbackHook? ensures RolledBackBefore(t, i, t[i].k) {
      assert t[if ReachesCommit(a) then 2 else 1] == Rollback(k);
    }
  }

  /** A rollback hook runs after the ROLLBACK of its own attempt. */
  lemma RollbackHookAfterRollback(env: nat -> Attempt, o: Options)
    ensures HooksAfterRollback(Trace(env, o))
  {
    var pieces := AttemptTraces(env, o);
    forall i: nat ensures HooksAfterRollback(pieces(i)) { AttemptAfterRollback(i, env(i), o); }
    JoinedAfterRollback(pieces, Last(env, o, 0) + 1);
  }
}
