/** The listener lease store: one row per stream, guarded by an owner, an expiry and a fencing token. */
module LeaseStore {

  /** A row of listener_leases; its key in the table is the stream name. */
  datatype Lease = Lease(
    owner: string, pagingToken: string, expiresAt: int, heartbeatAt: int, fencingToken: nat,
    createdAt: int, updatedAt: int)

  type Rows = map<string, Lease>

  /** The statements the store understands, with the instant each of them carries. */
  datatype Op =
    | Acquire(stream: string, owner: string, expires: int, now: int)
    | Heartbeat(stream: string, owner: string, expires: int, now: int, token: int)
    | Cursor(stream: string, owner: string, paging: string, now: int, token: int)
    | Release(stream: string, owner: string, now: int)
    | ExpireLease(stream: string, now: int)
    | Clear(now: int)

  /** A returned row with its acquired flag, a row count, nothing, or a thrown TypeError. */
  datatype Reply = Row(lease: Lease, acquired: bool) | Count(count: nat) | Done | TypeError

  datatype Outcome = Outcome(rows: Rows, reply: Reply)

  // ---------------------------------------------------------------- what one statement does

  predicate Holds(rows: Rows, stream: string, owner: string, token: int, now: int) {
    && stream in rows
    && rows[stream].owner == owner
    && rows[stream].fencingToken == token
    && rows[stream].expiresAt > now
  }

  function AcquireStep(rows: Rows, stream: string, owner: string, expires: int, now: int): Outcome {
    if stream == "" || owner == "" then Outcome(rows, TypeError)
    else if stream !in rows then
      var row := Lease(owner, "0", expires, now, 1, now, now);
      Outcome(rows[stream := row], Row(row, true))
    else if rows[stream].owner == owner || rows[stream].expiresAt <= now then
      var row := rows[stream].(owner := owner, expiresAt := expires, heartbeatAt := now,
                               fencingToken := rows[stream].fencingToken + 1, updatedAt := now);
      Outcome(rows[stream := row], Row(row, true))
    else Outcome(rows, Row(rows[stream], false))
  }

  function HeartbeatStep(rows: Rows, stream: string, owner: string, expires: int, now: int, token: int): Outcome {
    if stream == "" || owner == "" || token < 1 then Outcome(rows, TypeError)
    else if Holds(rows, stream, owner, token, now) then
      Outcome(rows[stream := rows[stream].(expiresAt := expires, heartbeatAt := now, updatedAt := now)], Count(1))
    else Outcome(rows, Count(0))
  }

  function CursorStep(rows: Rows, stream: string, owner: string, paging: string, now: int, token: int): Outcome {
    if stream == "" || owner == "" || paging == "" || token < 1 then Outcome(rows, TypeError)
    else if Holds(rows, stream, owner, token, now) then
      Outcome(rows[stream := rows[stream].(pagingToken := paging, updatedAt := now)], Count(1))
    else Outcome(rows, Count(0))
  }

  function ReleaseStep(rows: Rows, stream: string, owner: string, now: int): Outcome {
    if stream == "" || owner == "" then Outcome(rows, TypeError)
    else if stream in rows && rows[stream].owner == owner then
      Outcome(rows[stream := rows[stream].(expiresAt := rows[stream].heartbeatAt, updatedAt := now)], Count(1))
    else Outcome(rows, Count(0))
  }

  function ExpireStep(rows: Rows, stream: string, now: int): Outcome {
    if stream in rows
    then Outcome(rows[stream := rows[stream].(expiresAt := now - 1, heartbeatAt := now - 1)], Done)
    else Outcome(rows, Done)
  }

  function Step(rows: Rows, op: Op): Outcome {
    match op
    case Acquire(stream, owner, expires, now) => AcquireStep(rows, stream, owner, expires, now)
    case Heartbeat(stream, owner, expires, now, token) => HeartbeatStep(rows, stream, owner, expires, now, token)
    case Cursor(stream, owner, paging, now, token) => CursorStep(rows, stream, owner, paging, now, token)
    case Release(stream, owner, now) => ReleaseStep(rows, stream, owner, now)
    case ExpireLease(stream, now) => ExpireStep(rows, stream, now)
    case Clear(_) => Outcome(map[], Done)
  }

  /** The store itself; its statements run one at a time. */
  class InMemoryLeaseStore {
    var rows: Rows

    constructor ()
      ensures rows == map[]
    {
      rows := map[];
    }

    method Acquire(stream: string, owner: string, expires: int, heartbeat: int) returns (reply: Reply)
      modifies this
      ensures Outcome(rows, reply) == Step(old(rows), Op.Acquire(stream, owner, expires, heartbeat))
    {
      if stream == "" || owner == "" { return TypeError; }
      var acquired := false;
      var row: Lease;
      if stream !in rows {
        row := Lease(owner, "0", expires, heartbeat, 1, heartbeat, heartbeat);
        rows := rows[stream := row];
        acquired := true;
      } else {
        row := rows[stream];
        if row.owner == owner || row.expiresAt <= heartbeat {
          row := row.(owner := owner, expiresAt := expires, heartbeatAt := heartbeat,
                      fencingToken := row.fencingToken + 1, updatedAt := heartbeat);
          rows := rows[stream := row];
          acquired := true;
        }
      }
      return Row(row, acquired);
    }

    method Heartbeat(stream: string, owner: string, expires: int, now: int, token: int) returns (reply: Reply)
      modifies this
      ensures Outcome(rows, reply) == Step(old(rows), Op.Heartbeat(stream, owner, expires, now, token))
    {
      if stream == "" || owner == "" || token < 1 { return TypeError; }
      if stream in rows && rows[stream].owner == owner && rows[stream].fencingToken == token && rows[stream].expiresAt > now {
        rows := rows[stream := rows[stream].(expiresAt := expires, heartbeatAt := now, updatedAt := now)];
        return Count(1);
      }
      return Count(0);
    }

    method Cursor(stream: string, owner: string, paging: string, now: int, token: int) returns (reply: Reply)
      modifies this
      ensures Outcome(rows, reply) == Step(old(rows), Op.Cursor(stream, owner, paging, now, token))
    {
      if stream == "" || owner == "" || paging == "" || token < 1 { return TypeError; }
      if stream in rows && rows[stream].owner == owner && rows[stream].fencingToken == token && rows[stream].expiresAt > now {
        rows := rows[stream := rows[stream].(pagingToken := paging, updatedAt := now)];
        return Count(1);
      }
      return Count(0);
    }

    method Release(stream: string, owner: string, now: int) returns (reply: Reply)
      modifies this
      ensures Outcome(rows, reply) == Step(old(rows), Op.Release(stream, owner, now))
    {
      if stream == "" || owner == "" { return TypeError; }
      if stream in rows && rows[stream].owner == owner {
        rows := rows[stream := rows[stream].(expiresAt := rows[stream].heartbeatAt, updatedAt := now)];
        return Count(1);
      }
      return Count(0);
    }

    method ExpireLease(stream: string, now: int)
      modifies this
      ensures Outcome(rows, Done) == Step(old(rows), Op.ExpireLease(stream, now))
    {
      if stream in rows {
        var past := now - 1;
        rows := rows[stream := rows[stream].(expiresAt := past, heartbeatAt := past)];
      }
    }

    method Clear(ghost now: int)
      modifies this
      ensures Outcome(rows, Done) == Step(old(rows), Op.Clear(now))
    {
      rows := map[];
    }
  }

  // ---------------------------------------------------------------- runs

  /** The table after a run from the empty store. */
  ghost function After(ops: seq<Op>): Rows {
    if ops == [] then map[] else Step(After(ops[..|ops| - 1]), ops[|ops| - 1]).rows
  }

  /** The reply to the `i`-th statement of a run. */
  ghost function ReplyAt(ops: seq<Op>, i: nat): Reply
    requires i < |ops|
  {
    Step(After(ops[..i]), ops[i]).reply
  }

  ghost predicate Wins(ops: seq<Op>, i: nat, stream: string)
    requires i < |ops|
  {
    ops[i].Acquire? && ops[i].stream == stream && ReplyAt(ops, i).Row? && ReplyAt(ops, i).acquired
  }

  /** An accepted heartbeat or cursor write. */
  ghost predicate Writes(ops: seq<Op>, i: nat, stream: string)
    requires i < |ops|
  {
    (ops[i].Heartbeat? || ops[i].Cursor?) && ops[i].stream == stream && ReplyAt(ops, i) == Count(1)
  }

  /** The number of acquires won on a stream since the store was last cleared. */
  ghost function Won(ops: seq<Op>, stream: string): nat {
    if ops == [] then 0
    else
      var n := |ops| - 1;
      if ops[n].Clear? then 0
      else Won(ops[..n], stream) + (if Wins(ops, n, stream) then 1 else 0)
  }

  /** The owner that last won a stream. */
  ghost function Holder(ops: seq<Op>, stream: string): string {
    if ops == [] then ""
    else
      var n := |ops| - 1;
      if Wins(ops, n, stream) then ops[n].owner else Holder(ops[..n], stream)
  }

  lemma AfterStep(ops: seq<Op>, i: nat)
    requires i < |ops|
    ensures After(ops[..i + 1]) == Step(After(ops[..i]), ops[i]).rows
  {
    assert ops[..i + 1][..i] == ops[..i];
  }

  /** A stream has a row when it has been won, and the row shows how often and by whom last. */
  ghost predicate Counted(rows: Rows, stream: string, won: nat, holder: string) {
    && (stream in rows <==> won > 0)
    && (stream in rows ==> rows[stream].fencingToken == won && rows[stream].owner == holder)
  }

  lemma CountedStep(rows: Rows, op: Op, stream: string, won: nat, holder: string)
    requires Counted(rows, stream, won, holder)
    ensures
      var out := Step(rows, op);
      var wins := op.Acquire? && op.stream == stream && out.reply.Row? && out.reply.acquired;
      Counted(out.rows, stream, if op.Clear? then 0 else won + (if wins then 1 else 0), if wins then op.owner else holder)
  {
  }

  lemma {:induction false} TokensCountWins(ops: seq<Op>, stream: string)
    ensures Counted(After(ops), stream, Won(ops, stream), Holder(ops, stream))
  {
    if ops != [] {
      var n := |ops| - 1;
      TokensCountWins(ops[..n], stream);
      CountedStep(After(ops[..n]), ops[n], stream, Won(ops[..n], stream), Holder(ops[..n], stream));
    }
  }

  lemma WonStep(ops: seq<Op>, i: nat, stream: string)
    requires i < |ops|
    ensures Won(ops[..i + 1], stream)
         == if ops[i].Clear? then 0 else Won(ops[..i], stream) + (if Wins(ops, i, stream) then 1 else 0)
    ensures Holder(ops[..i + 1], stream) == if Wins(ops, i, stream) then ops[i].owner else Holder(ops[..i], stream)
  {
    assert ops[..i + 1][..i] == ops[..i];
  }

  /** The token in a winning reply is the number of wins so far. */
  lemma WinCarriesCount(ops: seq<Op>, i: nat, stream: string)
    requires i < |ops| && Wins(ops, i, stream)
    ensures ReplyAt(ops, i).lease.fencingToken == Won(ops[..i + 1], stream) == Won(ops[..i], stream) + 1
  {
    WonStep(ops, i, stream);
    TokensCountWins(ops[..i], stream);
  }

  /** An accepted heartbeat or cursor write comes from the last winner, with the last winner's token. */
  lemma WriteCarriesCount(ops: seq<Op>, i: nat, stream: string)
    requires i < |ops| && Writes(ops, i, stream)
    ensures ops[i].token == Won(ops[..i], stream) == Won(ops[..i + 1], stream)
    ensures ops[i].owner == Holder(ops[..i], stream)
  {
    WonStep(ops, i, stream);
    TokensCountWins(ops[..i], stream);
  }

  ghost predicate NoClear(ops: seq<Op>, i: nat, j: nat)
    requires i <= j <= |ops|
  {
    forall k :: i <= k < j ==> !ops[k].Clear?
  }

  lemma {:induction false} WonGrows(ops: seq<Op>, i: nat, j: nat, stream: string)
    requires i <= j <= |ops| && NoClear(ops, i, j)
    ensures Won(ops[..i], stream) <= Won(ops[..j], stream)
    decreases j
  {
    if i < j {
      WonGrows(ops, i, j - 1, stream);
      WonStep(ops, j - 1, stream);
    }
  }

  /** Each acquire that succeeds on a stream returns a larger fencing token than every one before it. */
  lemma TokensStrictlyIncrease(ops: seq<Op>, i: nat, j: nat, stream: string)
    requires i < j < |ops| && NoClear(ops, i, j)
    requires Wins(ops, i, stream) && Wins(ops, j, stream)
    ensures ReplyAt(ops, i).lease.fencingToken < ReplyAt(ops, j).lease.fencingToken
  {
    WinCarriesCount(ops, i, stream);
    WonGrows(ops, i + 1, j, stream);
    WinCarriesCount(ops, j, stream);
  }

  /** Accepted heartbeats and cursor writes carry nondecreasing tokens. */
  lemma WriteTokensNondecreasing(ops: seq<Op>, i: nat, j: nat, stream: string)
    requires i < j < |ops| && NoClear(ops, i, j)
    requires Writes(ops, i, stream) && Writes(ops, j, stream)
    ensures ops[i].token <= ops[j].token
  {
    WriteCarriesCount(ops, i, stream);
    WonGrows(ops, i + 1, j, stream);
    WriteCarriesCount(ops, j, stream);
  }

  /** After a takeover a heartbeat or cursor write with an older token changes nothing. */
  lemma StaleWriteIsFenced(ops: seq<Op>, i: nat, j: nat, stream: string)
    requires i < j < |ops| && NoClear(ops, i, j) && Wins(ops, i, stream)
    requires (ops[j].Heartbeat? || ops[j].Cursor?) && ops[j].stream == stream
    requires ops[j].token < ReplyAt(ops, i).lease.fencingToken
    ensures After(ops[..j + 1]) == After(ops[..j]) && ReplyAt(ops, j) in {Count(0), TypeError}
  {
    WinCarriesCount(ops, i, stream);
    WonGrows(ops, i + 1, j, stream);
    TokensCountWins(ops[..j], stream);
    AfterStep(ops, j);
  }

  /** A cleared store starts its tokens again. */
  lemma ClearRestartsTokens(stream: string, owner: string) returns (ops: seq<Op>)
    requires stream != "" && owner != ""
    ensures |ops| == 3 && Wins(ops, 0, stream) && Wins(ops, 2, stream)
    ensures ReplyAt(ops, 0).lease.fencingToken == ReplyAt(ops, 2).lease.fencingToken
  {
    ops := [Acquire(stream, owner, 10, 0), Clear(1), Acquire(stream, owner, 12, 2)];
    assert ops[..0] == [];
    AfterStep(ops, 0);
    AfterStep(ops, 1);
  }

  // ---------------------------------------------------------------- lease exclusion

  ghost predicate MonotoneClock(ops: seq<Op>) {
    forall i, j :: 0 <= i < j < |ops| ==> ops[i].now <= ops[j].now
  }

  /** The `i`-th statement gave `owner` the lease until `expires`. */
  ghost predicate Grants(ops: seq<Op>, i: nat, stream: string, owner: string, expires: int)
    requires i < |ops|
  {
    || (Wins(ops, i, stream) && ops[i].owner == owner && ops[i].expires == expires)
    || (Writes(ops, i, stream) && ops[i].Heartbeat? && ops[i].owner == owner && ops[i].expires == expires)
  }

  /** What ends or moves the lease of `owner`: its release, its own next grant, or a drill helper. */
  ghost predicate Disturbs(rows: Rows, op: Op, stream: string, owner: string) {
    match op
    case Release(s, o, _) => s == stream && o == owner
    case Acquire(s, o, _, _) => s == stream && o == owner
    case Heartbeat(s, o, _, _, _) => s == stream && o == owner && Step(rows, op).reply == Count(1)
    case ExpireLease(s, _) => s == stream
    case Clear(_) => true
    case Cursor(_, _, _, _, _) => false
  }

  ghost predicate Undisturbed(ops: seq<Op>, i: nat, j: nat, stream: string, owner: string)
    requires i <= j <= |ops|
  {
    forall k :: i <= k < j ==> !Disturbs(After(ops[..k]), ops[k], stream, owner)
  }

  ghost predicate LeasedTo(rows: Rows, stream: string, owner: string, expires: int) {
    stream in rows && rows[stream].owner == owner && rows[stream].expiresAt == expires
  }

  lemma LeasedStep(rows: Rows, op: Op, stream: string, owner: string, expires: int)
    requires LeasedTo(rows, stream, owner, expires) && !Disturbs(rows, op, stream, owner) && op.now < expires
    ensures LeasedTo(Step(rows, op).rows, stream, owner, expires)
  {
  }

  lemma {:induction false} LeaseLasts(ops: seq<Op>, i: nat, j: nat, stream: string, owner: string, expires: int)
    requires i < j <= |ops| && Grants(ops, i, stream, owner, expires)
    requires Undisturbed(ops, i + 1, j, stream, owner)
    requires forall k :: i < k < j ==> ops[k].now < expires
    ensures LeasedTo(After(ops[..j]), stream, owner, expires)
    decreases j
  {
    AfterStep(ops, j - 1);
    if i + 1 < j {
      LeaseLasts(ops, i, j - 1, stream, owner, expires);
      LeasedStep(After(ops[..j - 1]), ops[j - 1], stream, owner, expires);
    }
  }

  /** Before a lease expires no one else acquires the stream, unless its owner lets go of it. */
  lemma LeaseExcludes(ops: seq<Op>, i: nat, j: nat, stream: string, owner: string, expires: int)
    requires MonotoneClock(ops) && i < j < |ops| && Grants(ops, i, stream, owner, expires)
    requires Undisturbed(ops, i + 1, j, stream, owner)
    requires ops[j].Acquire? && ops[j].stream == stream && ops[j].owner != owner && ops[j].now < expires
    ensures !Wins(ops, j, stream) && After(ops[..j + 1]) == After(ops[..j])
  {
    LeaseLasts(ops, i, j, stream, owner, expires);
    AfterStep(ops, j);
  }

  /** The bound is exact: from the expiry on, the next acquire takes the stream over. */
  lemma ExpiredLeaseIsTaken(ops: seq<Op>, i: nat, stream: string, owner: string, expires: int)
    requires i + 1 < |ops| && Grants(ops, i, stream, owner, expires)
    requires var op := ops[i + 1]; op.Acquire? && op.stream == stream && op.owner != owner && op.owner != ""
    ensures Wins(ops, i + 1, stream) <==> ops[i + 1].now >= expires
  {
    LeaseLasts(ops, i, i + 1, stream, owner, expires);
  }

  /** A statement for one stream leaves the rows of all others alone. */
  lemma OtherStreamsUntouched(rows: Rows, op: Op, stream: string)
    requires !op.Clear? && op.stream != stream
    ensures stream in Step(rows, op).rows <==> stream in rows
    ensures stream in rows ==> Step(rows, op).rows[stream] == rows[stream]
  {
  }

  ghost predicate Named(rows: Rows) {
    forall s :: s in rows ==> s != "" && rows[s].owner != ""
  }

  lemma {:induction false} RowsAreNamed(ops: seq<Op>)
    ensures Named(After(ops))
  {
    if ops != [] { RowsAreNamed(ops[..|ops| - 1]); }
  }

  /**
    A release takes effect exactly when its owner is the last to have won the stream since the store was cleared: neither
    the token won nor the expiry matters.
    */
  lemma ReleaseChecksOwnerOnly(ops: seq<Op>, j: nat, stream: string)
    requires j < |ops| && ops[j].Release? && ops[j].stream == stream
    ensures ReplyAt(ops, j) == Count(1) <==> Won(ops[..j], stream) > 0 && ops[j].owner == Holder(ops[..j], stream)
  {
    TokensCountWins(ops[..j], stream);
    RowsAreNamed(ops[..j]);
  }

  ghost predicate HeardBy(rows: Rows, now: int) {
    forall s :: s in rows ==> rows[s].heartbeatAt <= now
  }

  lemma HeardStep(rows: Rows, op: Op, before: int)
    requires HeardBy(rows, before) && before <= op.now
    ensures HeardBy(Step(rows, op).rows, op.now)
  {
  }

  lemma {:induction false} HeartbeatsInPast(ops: seq<Op>, k: nat)
    requires MonotoneClock(ops) && 0 < k <= |ops|
    ensures HeardBy(After(ops[..k]), ops[k - 1].now)
  {
    AfterStep(ops, k - 1);
    if k > 1 {
      HeartbeatsInPast(ops, k - 1);
      assert ops[k - 2].now <= ops[k - 1].now;
      HeardStep(After(ops[..k - 1]), ops[k - 1], ops[k - 2].now);
    } else {
      assert ops[..0] == [];
      HeardStep(map[], ops[0], ops[0].now);
    }
  }

  /** With a monotone clock the stream is then free at once. */
  lemma ReleasedIsTaken(ops: seq<Op>, j: nat, stream: string)
    requires MonotoneClock(ops) && j + 1 < |ops| && ops[j].Release? && ops[j].stream == stream && ReplyAt(ops, j) == Count(1)
    requires ops[j + 1].Acquire? && ops[j + 1].stream == stream && ops[j + 1].owner != ""
    ensures Wins(ops, j + 1, stream)
  {
    HeartbeatsInPast(ops, j + 1);
    AfterStep(ops, j);
    assert ops[j].now <= ops[j + 1].now;
  }

  /** So a release left over from an owner's earlier session ends the lease of its present one. */
  lemma OldSessionReleaseDropsLease(stream: string, owner: string, other: string) returns (ops: seq<Op>)
    requires stream != "" && owner != "" && other != "" && owner != other
    ensures |ops| == 4 && MonotoneClock(ops)
    ensures Wins(ops, 0, stream) && Wins(ops, 1, stream) && ops[0].owner == ops[1].owner == owner
    ensures ops[2] == Release(stream, owner, ops[2].now)
    ensures Wins(ops, 3, stream) && ops[3].owner == other && ops[3].now < ops[1].expires
  {
    ops := [Acquire(stream, owner, 100, 0), Acquire(stream, owner, 110, 10), Release(stream, owner, 11),
            Acquire(stream, other, 112, 12)];
    assert ops[..0] == [];
    AfterStep(ops, 0);
    AfterStep(ops, 1);
    AfterStep(ops, 2);
  }

  /** The clock steps back by `skew` at most. */
  ghost predicate SkewAtMost(ops: seq<Op>, skew: nat) {
    forall i, j :: 0 <= i < j < |ops| ==> ops[i].now <= ops[j].now + skew
  }

  /** Another owner wins the stream before the lease granted at `i` is over. */
  ghost predicate Intrudes(ops: seq<Op>, i: nat, j: nat, stream: string, owner: string, expires: int) {
    && i < j < |ops| && Grants(ops, i, stream, owner, expires) && Undisturbed(ops, i + 1, j, stream, owner)
    && Wins(ops, j, stream) && ops[j].owner != owner && ops[j].now < expires
  }

  /** With a clock that steps back, a stream can be won while an earlier lease on it still has time left. */
  lemma SkewedClockBreaksExclusion(skew: nat) returns (ops: seq<Op>)
    requires skew > 0
    ensures SkewAtMost(ops, skew) && Intrudes(ops, 0, 2, "s", "a", 1)
  {
    ops := [Acquire("s", "a", 1, 0), Acquire("s", "b", 2, 1), Acquire("s", "b", 2, 1 - skew)];
    assert ops[..0] == [];
    AfterStep(ops, 0);
    AfterStep(ops, 1);
  }

  /** Leases exclude other owners in every run exactly when the clock does not step back. */
  lemma ExclusionIffMonotone(skew: nat)
    ensures (exists ops, i, j, stream, owner, expires :: SkewAtMost(ops, skew) && Intrudes(ops, i, j, stream, owner, expires))
      <==> skew > 0
  {
    if skew > 0 {
      var ops := SkewedClockBreaksExclusion(skew);
    } else {
      forall ops, i: nat, j: nat, stream, owner, expires | SkewAtMost(ops, skew)
        ensures !Intrudes(ops, i, j, stream, owner, expires)
      {
        if Intrudes(ops, i, j, stream, owner, expires) {
          LeaseExcludes(ops, i, j, stream, owner, expires);
          assert false;
        }
      }
    }
  }
}

/** The rows of the store as a record of the statements that were accepted. */
module LeaseHistory {
  import opened LeaseStore

  /** The paging token of the last accepted cursor write on a stream since the store was cleared. */
  ghost function LastCursor(ops: seq<Op>, stream: string): string {
    if ops == [] || ops[|ops| - 1].Clear? then "0"
    else
      var n := |ops| - 1;
      if Writes(ops, n, stream) && ops[n].Cursor? then ops[n].paging else LastCursor(ops[..n], stream)
  }

  /** The instant of the first win on a stream since the store was cleared. */
  ghost function FirstWin(ops: seq<Op>, stream: string): int {
    if ops == [] then 0
    else
      var n := |ops| - 1;
      if Wins(ops, n, stream) && Won(ops[..n], stream) == 0 then ops[n].now else FirstWin(ops[..n], stream)
  }

  /** The statement gave the lease on the stream a new expiry. */
  ghost predicate Extends(ops: seq<Op>, i: nat, stream: string)
    requires i < |ops|
  {
    Wins(ops, i, stream) || (Writes(ops, i, stream) && ops[i].Heartbeat?)
  }

  ghost predicate Releases(ops: seq<Op>, i: nat, stream: string)
    requires i < |ops|
  {
    ops[i].Release? && ops[i].stream == stream && ReplyAt(ops, i) == Count(1)
  }

  /** The last win or accepted heartbeat, or the instant before a forced expiry. */
  ghost function LastBeat(ops: seq<Op>, stream: string): int {
    if ops == [] then 0
    else
      var n := |ops| - 1;
      if Extends(ops, n, stream) then ops[n].now
      else if ops[n].ExpireLease? && ops[n].stream == stream then ops[n].now - 1
      else LastBeat(ops[..n], stream)
  }

  /** What the last win or heartbeat asked for, cut back to the last beat by a release or a forced expiry. */
  ghost function Expiry(ops: seq<Op>, stream: string): int {
    if ops == [] then 0
    else
      var n := |ops| - 1;
      if Extends(ops, n, stream) then ops[n].expires
      else if Releases(ops, n, stream) || (ops[n].ExpireLease? && ops[n].stream == stream) then LastBeat(ops, stream)
      else Expiry(ops[..n], stream)
  }

  /** The last statement a client had accepted on the stream. */
  ghost function LastAccepted(ops: seq<Op>, stream: string): int {
    if ops == [] then 0
    else
      var n := |ops| - 1;
      if Wins(ops, n, stream) || Writes(ops, n, stream) || Releases(ops, n, stream) then ops[n].now
      else LastAccepted(ops[..n], stream)
  }

  /** Where the stream is to be resumed, and since when it has had a row. */
  ghost predicate CursorRecorded(rows: Rows, ops: seq<Op>, stream: string) {
    if stream in rows
    then rows[stream].pagingToken == LastCursor(ops, stream) && rows[stream].createdAt == FirstWin(ops, stream)
    else LastCursor(ops, stream) == "0"
  }

  ghost predicate TimesRecorded(rows: Rows, ops: seq<Op>, stream: string) {
    stream in rows ==>
      && rows[stream].heartbeatAt == LastBeat(ops, stream)
      && rows[stream].expiresAt == Expiry(ops, stream)
      && rows[stream].updatedAt == LastAccepted(ops, stream)
  }

  lemma {:induction false} CursorIsHistory(ops: seq<Op>, stream: string)
    ensures CursorRecorded(After(ops), ops, stream)
  {
    if ops != [] {
      CursorIsHistory(ops[..|ops| - 1], stream);
      TokensCountWins(ops[..|ops| - 1], stream);
    }
  }

  lemma {:induction false} TimesAreHistory(ops: seq<Op>, stream: string)
    ensures TimesRecorded(After(ops), ops, stream)
  {
    if ops != [] {
      TimesAreHistory(ops[..|ops| - 1], stream);
    }
  }

  /** Every field of a row is told by the statements that led to it. */
  lemma RowIsHistory(ops: seq<Op>, stream: string)
    requires stream in After(ops)
    ensures After(ops)[stream] == Lease(
      Holder(ops, stream), LastCursor(ops, stream), Expiry(ops, stream), LastBeat(ops, stream), Won(ops, stream),
      FirstWin(ops, stream), LastAccepted(ops, stream))
  {
    TokensCountWins(ops, stream);
    CursorIsHistory(ops, stream);
    TimesAreHistory(ops, stream);
  }

  /** A reply to an acquire shows the row as it then stands, whoever holds it. */
  lemma ReplyShowsRow(ops: seq<Op>, i: nat)
    requires i < |ops| && ReplyAt(ops, i).Row?
    ensures ops[i].Acquire? && ops[i].stream in After(ops[..i + 1])
    ensures ReplyAt(ops, i).lease == After(ops[..i + 1])[ops[i].stream]
  {
    AfterStep(ops, i);
  }

  /** Whoever takes a stream over resumes where the last accepted cursor write left it. */
  lemma WinnerResumesAtCursor(ops: seq<Op>, i: nat, stream: string)
    requires i < |ops| && Wins(ops, i, stream)
    ensures ReplyAt(ops, i).lease.pagingToken == LastCursor(ops[..i], stream)
  {
    CursorIsHistory(ops[..i], stream);
  }
}
