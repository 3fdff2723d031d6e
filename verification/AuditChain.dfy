/** Fields joined with a bar, unescaped, and what the joined text still determines. */
module BarJoin {

  function Join(fields: seq<string>): string
    requires fields != []
  {
    if |fields| == 1 then fields[0] else fields[0] + "|" + Join(fields[1..])
  }

  predicate BarFree(fields: seq<string>) {
    forall i :: 0 <= i < |fields| ==> '|' !in fields[i]
  }

  function Bars(s: string): nat {
    if s == "" then 0 else (if s[0] == '|' then 1 else 0) + Bars(s[1..])
  }

  function TotalBars(fields: seq<string>): nat {
    if fields == [] then 0 else Bars(fields[0]) + TotalBars(fields[1..])
  }

  lemma {:induction false} BarsConcat(a: string, b: string)
    ensures Bars(a + b) == Bars(a) + Bars(b)
  {
    if a == "" {
      assert a + b == b;
    } else {
      assert (a + b)[1..] == a[1..] + b;
      BarsConcat(a[1..], b);
    }
  }

  lemma {:induction false} NoBars(s: string)
    ensures Bars(s) == 0 <==> '|' !in s
  {
    if s != "" {
      NoBars(s[1..]);
      assert s == [s[0]] + s[1..];
    }
  }

  lemma {:induction false} BarsOfJoin(fields: seq<string>)
    requires fields != []
    ensures Bars(Join(fields)) == |fields| - 1 + TotalBars(fields)
  {
    if |fields| > 1 {
      BarsOfJoin(fields[1..]);
      BarsConcat(fields[0] + "|", Join(fields[1..]));
      BarsConcat(fields[0], "|");
      assert Bars("|") == 1;
    } else {
      assert TotalBars(fields[1..]) == 0;
    }
  }

  lemma {:induction false} BarFreeIsZero(fields: seq<string>)
    ensures BarFree(fields) <==> TotalBars(fields) == 0
  {
    if fields != [] {
      NoBars(fields[0]);
      BarFreeIsZero(fields[1..]);
      assert forall i :: 1 <= i < |fields| ==> fields[i] == fields[1..][i - 1];
      assert BarFree(fields) <==> '|' !in fields[0] && BarFree(fields[1..]);
    }
  }

  /** Text before the first bar, and text after it, are determined. */
  lemma SplitAtBar(a: string, b: string, x: string, y: string)
    requires '|' !in a && '|' !in b && a + "|" + x == b + "|" + y
    ensures a == b && x == y
  {
    SplitLength(a, b, x, y);
    SplitLength(b, a, y, x);
    assert a == (a + "|" + x)[..|a|] && b == (b + "|" + y)[..|b|];
    assert x == (a + "|" + x)[|a| + 1..] && y == (b + "|" + y)[|b| + 1..];
  }

  lemma SplitLength(a: string, b: string, x: string, y: string)
    requires '|' !in b && a + "|" + x == b + "|" + y
    ensures |b| <= |a|
  {
    var t := a + "|" + x;
    assert t[|a|] == '|';
    assert forall i :: 0 <= i < |b| ==> t[i] == b[i];
  }

  lemma {:induction false} BarFreeInjective(a: seq<string>, b: seq<string>)
    requires |a| == |b| > 0 && BarFree(a) && BarFree(b) && Join(a) == Join(b)
    ensures a == b
  {
    if |a| > 1 {
      SplitAtBar(a[0], b[0], Join(a[1..]), Join(b[1..]));
      BarFreeInjective(a[1..], b[1..]);
      assert a == [a[0]] + a[1..] && b == [b[0]] + b[1..];
    }
  }

  /** Bar-free fields are the only fields, in that number, with their joined text. */
  lemma BarFreeDetermined(a: seq<string>, b: seq<string>)
    requires |a| == |b| > 0 && BarFree(a) && Join(a) == Join(b)
    ensures a == b
  {
    BarsOfJoin(a);
    BarsOfJoin(b);
    BarFreeIsZero(a);
    BarFreeIsZero(b);
    BarFreeInjective(a, b);
  }

  lemma {:induction false} FirstBar(s: string) returns (x: string, y: string)
    requires '|' in s
    ensures s == x + "|" + y
  {
    if s[0] == '|' {
      x, y := "", s[1..];
    } else {
      x, y := FirstBar(s[1..]);
      x := [s[0]] + x;
    }
  }

  lemma {:induction false} ShiftBar(a: seq<string>, i: nat, x: string, y: string, z: string)
    requires i + 1 < |a|
    ensures Join(a[i := x + "|" + y][i + 1 := z]) == Join(a[i := x][i + 1 := y + "|" + z])
  {
    var p, q := a[i := x + "|" + y][i + 1 := z], a[i := x][i + 1 := y + "|" + z];
    if i == 0 {
      assert p[1..] == [z] + a[2..] && q[1..] == [y + "|" + z] + a[2..];
      JoinHead(z, a[2..]);
      JoinHead(y + "|" + z, a[2..]);
    } else {
      ShiftBar(a[1..], i - 1, x, y, z);
      assert p[1..] == a[1..][i - 1 := x + "|" + y][i := z] && q[1..] == a[1..][i - 1 := x][i := y + "|" + z];
    }
  }

  function Tail(rest: seq<string>): string { if rest == [] then "" else "|" + Join(rest) }

  lemma JoinHead(h: string, rest: seq<string>)
    ensures Join([h] + rest) == h + Tail(rest)
  {
    assert ([h] + rest)[1..] == rest;
  }

  /** A bar inside a field can be taken for the one next to it: other fields, same text. */
  lemma BarIsAmbiguous(a: seq<string>) returns (b: seq<string>)
    requires |a| >= 2 && !BarFree(a)
    ensures |b| == |a| && b != a && Join(b) == Join(a)
  {
    var i :| 0 <= i < |a| && '|' in a[i];
    var x, y := FirstBar(a[i]);
    if i + 1 < |a| {
      b := a[i := x][i + 1 := y + "|" + a[i + 1]];
      ShiftBar(a, i, x, y, a[i + 1]);
      assert a[i := x + "|" + y][i + 1 := a[i + 1]] == a;
      assert |b[i]| < |a[i]|;
    } else {
      b := a[i - 1 := a[i - 1] + "|" + x][i := y];
      ShiftBar(a, i - 1, a[i - 1], x, y);
      assert a[i - 1 := a[i - 1]][i := x + "|" + y] == a;
      assert |b[i]| < |a[i]|;
    }
  }

  lemma {:induction false} JoinSnoc(fields: seq<string>, x: string)
    requires fields != []
    ensures Join(fields + [x]) == Join(fields) + "|" + x
  {
    if |fields| == 1 {
      assert (fields + [x])[1..] == [x];
    } else {
      assert (fields + [x])[1..] == fields[1..] + [x];
      JoinSnoc(fields[1..], x);
    }
  }

  ghost predicate Determined(a: seq<string>)
    requires a != []
  {
    forall b :: |b| == |a| && Join(b) == Join(a) ==> b == a
  }

  /** The joined text determines its fields exactly when no field contains a bar. */
  lemma DeterminedIffBarFree(a: seq<string>)
    requires |a| >= 2
    ensures Determined(a) <==> BarFree(a)
  {
    if BarFree(a) {
      forall b | |b| == |a| && Join(b) == Join(a) ensures b == a { BarFreeDetermined(a, b); }
    } else {
      var b := BarIsAmbiguous(a);
    }
  }
}

/** Verification of the hash chain over the audit log. */
module AuditChain {
  import opened Prelude
  import opened BarJoin

  /** A row of audit_logs; `details` is its JSON text, null counting as an empty object. The verifier reads no request id. */
  datatype Row = Row(
    seqNo: int, id: string, occurredAt: string, actorId: string, action: string, resourceType: string,
    resourceId: string, details: Option<string>, status: string, tenantId: string,
    prevHash: Option<string>, rowHash: Option<string>, requestId: Option<string>)

  datatype Kind = DeletedRow | PrevHashMismatch | RowHashMismatch

  datatype Violation = Violation(
    seqNo: int, id: string, expectedPrevHash: Option<string>, actualPrevHash: Option<string>,
    expectedRowHash: string, actualRowHash: Option<string>, kind: Kind)

  datatype Result = Result(valid: bool, rowsChecked: nat, lastCheckedSeq: int, violations: seq<Violation>)

  function Field(r: Row, i: nat): string
    requires i < 9
  {
    match i
    case 0 => r.id
    case 1 => r.occurredAt
    case 2 => r.actorId
    case 3 => r.action
    case 4 => r.resourceType
    case 5 => r.resourceId
    case 6 => if r.details.Some? then r.details.value else "{}"
    case 7 => r.status
    case _ => r.tenantId
  }

  /** The hashed fields after the link. */
  function Fields(r: Row): (f: seq<string>)
    ensures |f| == 9
  {
    seq(9, i requires 0 <= i < 9 => Field(r, i))
  }

  lemma FieldsList(r: Row)
    ensures Fields(r) == [r.id, r.occurredAt, r.actorId, r.action, r.resourceType, r.resourceId,
                          if r.details.Some? then r.details.value else "{}", r.status, r.tenantId]
  {
  }

  /** The link to the row before, or the marker of the first row. */
  function Link(r: Row): string { if r.prevHash.Some? then r.prevHash.value else "GENESIS" }

  /** The text that is hashed: the link, the fields, and a request id the verifier leaves empty. */
  function HashText(r: Row): string { HashInput(Link(r), r, "") }

  function HashInput(link: string, r: Row, requestId: string): string {
    Join([link] + (Fields(r) + [requestId]))
  }

  // ---------------------------------------------------------------- one-pass specification

  function GapCheck(prevSeq: Option<int>, prevRowHash: Option<string>, r: Row): seq<Violation> {
    if prevSeq.Some? && r.seqNo != prevSeq.value + 1
    then [Violation(r.seqNo, r.id, prevRowHash, r.prevHash, "", r.rowHash, DeletedRow)] else []
  }

  function LinkCheck(prevRowHash: Option<string>, r: Row): seq<Violation> {
    if r.prevHash != prevRowHash
    then [Violation(r.seqNo, r.id, prevRowHash, r.prevHash, "", r.rowHash, PrevHashMismatch)] else []
  }

  function HashCheck(hash: string -> string, prevRowHash: Option<string>, r: Row): seq<Violation> {
    var expected := hash(HashText(r));
    if r.rowHash != Some(expected)
    then [Violation(r.seqNo, r.id, prevRowHash, r.prevHash, expected, r.rowHash, RowHashMismatch)] else []
  }

  function RowViolations(hash: string -> string, prevSeq: Option<int>, prevRowHash: Option<string>, r: Row): seq<Violation> {
    GapCheck(prevSeq, prevRowHash, r) + LinkCheck(prevRowHash, r) + HashCheck(hash, prevRowHash, r)
  }

  function PrevSeq(rows: seq<Row>): Option<int> { if rows == [] then None else Some(rows[|rows| - 1].seqNo) }
  function PrevRowHash(rows: seq<Row>): Option<string> { if rows == [] then None else rows[|rows| - 1].rowHash }
  function LastSeq(rows: seq<Row>): int { if rows == [] then 0 else rows[|rows| - 1].seqNo }

  /** All violations, in one pass and without a limit. */
  function Violations(hash: string -> string, rows: seq<Row>): seq<Violation> {
    if rows == [] then []
    else
      var before := rows[..|rows| - 1];
      Violations(hash, before) + RowViolations(hash, PrevSeq(before), PrevRowHash(before), rows[|rows| - 1])
  }

  function Take<T>(s: seq<T>, n: nat): seq<T> { if |s| <= n then s else s[..n] }

  lemma TakeExact<T>(a: seq<T>, b: seq<T>, c: seq<T>, n: nat)
    requires |a| == n
    ensures Take(a + b + c, n) == a
  {
  }

  /** The table in seq order, as the query returns it. */
  ghost predicate Table(rows: seq<Row>) {
    && (forall i :: 0 <= i < |rows| ==> rows[i].seqNo > 0)
    && (forall i, j :: 0 <= i < j < |rows| ==> rows[i].seqNo < rows[j].seqNo)
  }

  lemma {:induction false} ViolationsPrefix(hash: string -> string, rows: seq<Row>, n: nat)
    requires n <= |rows|
    ensures Violations(hash, rows[..n]) <= Violations(hash, rows)
  {
    if n < |rows| {
      var before := rows[..|rows| - 1];
      ViolationsPrefix(hash, before, n);
      assert before[..n] == rows[..n];
    } else {
      assert rows[..n] == rows;
    }
  }

  lemma ViolationsStep(hash: string -> string, rows: seq<Row>, n: nat)
    requires n < |rows|
    ensures Violations(hash, rows[..n + 1])
         == Violations(hash, rows[..n]) + RowViolations(hash, PrevSeq(rows[..n]), PrevRowHash(rows[..n]), rows[n])
  {
    assert rows[..n + 1][..n] == rows[..n];
  }

  /** The rows after the last seq of a prefix are the rows after the prefix. */
  lemma ResumesAt(table: seq<Row>, m: nat, n: nat)
    requires Table(table) && m <= |table| && n <= |table|
    requires forall i :: 0 <= i < |table| ==> (table[i].seqNo > LastSeq(table[..m]) <==> i >= n)
    ensures n == m
  {
    if m > 0 { assert table[m - 1].seqNo == LastSeq(table[..m]); }
    if m < |table| { assert table[m].seqNo > LastSeq(table[..m]); }
  }

  // ---------------------------------------------------------------- the verifier

  class AuditChainVerifier {
    const batchSize: nat
    const maxViolations: int
    const hash: string -> string

    constructor (batchSize: nat, maxViolations: int, hash: string -> string)
      ensures this.batchSize == batchSize && this.maxViolations == maxViolations && this.hash == hash
    {
      this.batchSize := batchSize;
      this.maxViolations := maxViolations;
      this.hash := hash;
    }

    /** Rows after `afterSeq`, in seq order, at most a batch. */
    method FetchBatch(table: seq<Row>, afterSeq: int) returns (rows: seq<Row>, ghost n: nat)
      requires Table(table)
      ensures n <= |table| && (forall i :: 0 <= i < |table| ==> (table[i].seqNo > afterSeq <==> i >= n))
      ensures rows == Take(table[n..], batchSize)
    {
      var i := 0;
      while i < |table| && table[i].seqNo <= afterSeq
        invariant 0 <= i <= |table| && forall j :: 0 <= j < i ==> table[j].seqNo <= afterSeq
      {
        i := i + 1;
      }
      rows, n := Take(table[i..], batchSize), i;
    }

    /** The checks on one row, stopping as soon as the limit is reached. */
    method CheckRow(row: Row, prevSeq: Option<int>, prevRowHash: Option<string>, found: seq<Violation>)
      returns (violations: seq<Violation>, stopped: bool)
      requires |found| < maxViolations
      ensures violations == Take(found + RowViolations(hash, prevSeq, prevRowHash, row), maxViolations)
      ensures stopped <==> |violations| >= maxViolations
    {
      ghost var gap := GapCheck(prevSeq, prevRowHash, row);
      ghost var link := LinkCheck(prevRowHash, row);
      ghost var bad := HashCheck(hash, prevRowHash, row);
      assert found + RowViolations(hash, prevSeq, prevRowHash, row) == found + gap + link + bad;
      violations := found;
      if prevSeq.Some? && row.seqNo != prevSeq.value + 1 {
        violations := violations + [Violation(row.seqNo, row.id, prevRowHash, row.prevHash, "", row.rowHash, DeletedRow)];
        if |violations| >= maxViolations {
          TakeExact(found + gap, link, bad, maxViolations);
          return violations, true;
        }
      }
      assert violations == found + gap;
      if row.prevHash != prevRowHash {
        var prevMismatch := (prevRowHash.None? && row.prevHash.Some?) || (prevRowHash.Some? && row.prevHash != prevRowHash);
        if prevMismatch {
          violations := violations + [Violation(row.seqNo, row.id, prevRowHash, row.prevHash, "", row.rowHash, PrevHashMismatch)];
          if |violations| >= maxViolations {
            TakeExact(found + gap + link, bad, [], maxViolations);
            return violations, true;
          }
        }
      }
      assert violations == found + gap + link;
      var expectedHash := hash(HashText(row));
      if row.rowHash != Some(expectedHash) {
        violations := violations
          + [Violation(row.seqNo, row.id, prevRowHash, row.prevHash, expectedHash, row.rowHash, RowHashMismatch)];
        stopped := |violations| >= maxViolations;
      } else {
        stopped := false;
      }
      assert violations == found + gap + link + bad;
    }

    /** The walk goes on: every row so far is checked, below the limit. */
    ghost predicate Going(table: seq<Row>, w: Walk) {
      && !w.stopped && w.rowsChecked <= |table|
      && |w.violations| < maxViolations
      && w.violations == Violations(hash, table[..w.rowsChecked])
      && w.lastSeq == LastSeq(table[..w.rowsChecked])
      && w.prevSeq == PrevSeq(table[..w.rowsChecked])
      && w.prevRowHash == PrevRowHash(table[..w.rowsChecked])
    }

    /** The walk is over: its last row reached the limit. */
    ghost predicate Halted(table: seq<Row>, w: Walk) {
      && w.stopped && 0 < w.rowsChecked <= |table|
      && |Violations(hash, table[..w.rowsChecked - 1])| < maxViolations <= |Violations(hash, table[..w.rowsChecked])|
      && w.violations == Take(Violations(hash, table[..w.rowsChecked]), maxViolations)
      && w.lastSeq == LastSeq(table[..w.rowsChecked - 1])
    }

    ghost predicate At(table: seq<Row>, w: Walk) { if w.stopped then Halted(table, w) else Going(table, w) }

    /** One row of the walk. */
    method Advance(ghost table: seq<Row>, w: Walk, row: Row) returns (next: Walk)
      requires Going(table, w) && w.rowsChecked < |table| && row == table[w.rowsChecked]
      ensures At(table, next) && next.rowsChecked == w.rowsChecked + 1
    {
      ViolationsStep(hash, table, w.rowsChecked);
      var violations, stopped := CheckRow(row, w.prevSeq, w.prevRowHash, w.violations);
      if stopped {
        return w.(violations := violations, rowsChecked := w.rowsChecked + 1, stopped := true);
      }
      return Walk(violations, w.rowsChecked + 1, row.rowHash, Some(row.seqNo), row.seqNo, false);
    }

    /** The rows of one batch, until the limit. */
    method CheckBatch(ghost table: seq<Row>, w: Walk, rows: seq<Row>) returns (next: Walk)
      requires Going(table, w) && w.rowsChecked + |rows| <= |table|
      requires forall k :: 0 <= k < |rows| ==> rows[k] == table[w.rowsChecked + k]
      ensures At(table, next) == true
      ensures next.stopped || next.rowsChecked == w.rowsChecked + |rows|
      ensures rows != [] ==> next.rowsChecked > w.rowsChecked
    {
      next := w;
      for j := 0 to |rows|
        invariant Going(table, next) == true && next.rowsChecked == w.rowsChecked + j
      {
        next := Advance(table, next, rows[j]);
        if next.stopped { return; }
      }
    }

    /** The batch where the walk stands. */
    method NextBatch(table: seq<Row>, w: Walk) returns (rows: seq<Row>)
      requires Table(table) && Going(table, w)
      ensures rows == Take(table[w.rowsChecked..], batchSize)
    {
      ghost var n;
      rows, n := FetchBatch(table, w.lastSeq);
      ResumesAt(table, w.rowsChecked, n);
    }

    /** Batching does not show: the result is the first `maxViolations` entries of the one-pass list. */
    method Verify(table: seq<Row>) returns (result: Result)
      requires Table(table)
      ensures batchSize >= 1 && maxViolations >= 1 ==> Exact(table, result)
      ensures batchSize == 0 || maxViolations <= 0 ==> result == Result(true, 0, 0, [])
    {
      var w := Walk([], 0, None, None, 0, false);
      var hasMore := true;
      assert table[..0] == [];
      while hasMore && |w.violations| < maxViolations
        invariant maxViolations <= 0 || batchSize == 0 ==> w == Walk([], 0, None, None, 0, false)
        invariant maxViolations > 0 ==> At(table, w)
        invariant !hasMore && !w.stopped && batchSize > 0 ==> w.rowsChecked == |table|
        decreases hasMore, |table| - w.rowsChecked
      {
        var rows := NextBatch(table, w);
        if |rows| == 0 {
          hasMore := false;
          break;
        }
        w := CheckBatch(table, w, rows);
        if |rows| < batchSize {
          hasMore := false;
        }
      }
      result := Result(|w.violations| == 0, w.rowsChecked, w.lastSeq, w.violations);
      if maxViolations > 0 && batchSize > 0 {
        WalkIsExact(table, w);
      }
    }

    /** The first violations of the one-pass list, and how far the walk went to find them. */
    ghost predicate Exact(table: seq<Row>, result: Result)
      requires maxViolations >= 1
    {
      var all := Violations(hash, table);
      && result.violations == Take(all, maxViolations)
      && (result.valid <==> all == [])
      && if |all| < maxViolations then
           result.rowsChecked == |table| && result.lastCheckedSeq == LastSeq(table)
         else
           && 0 < result.rowsChecked <= |table|
           && result.lastCheckedSeq == LastSeq(table[..result.rowsChecked - 1])
           && |Violations(hash, table[..result.rowsChecked - 1])| < maxViolations
           && |Violations(hash, table[..result.rowsChecked])| >= maxViolations
    }

    lemma WalkIsExact(table: seq<Row>, w: Walk)
      requires maxViolations >= 1 && At(table, w) && (w.stopped || w.rowsChecked == |table|)
      ensures Exact(table, Result(|w.violations| == 0, w.rowsChecked, w.lastSeq, w.violations))
    {
      if w.stopped {
        HaltedIsExact(table, w);
      } else {
        assert table[..|table|] == table;
      }
    }

    lemma HaltedIsExact(table: seq<Row>, w: Walk)
      requires maxViolations >= 1 && Halted(table, w)
      ensures Exact(table, Result(|w.violations| == 0, w.rowsChecked, w.lastSeq, w.violations))
    {
      ViolationsPrefix(hash, table, w.rowsChecked);
      TakePrefix(Violations(hash, table[..w.rowsChecked]), Violations(hash, table), maxViolations);
    }
  }

  lemma TakePrefix<T>(s: seq<T>, t: seq<T>, n: nat)
    requires s <= t && n <= |s|
    ensures Take(s, n) == Take(t, n) && |t| >= n
  {
  }

  /** The verifier's local variables while it walks the table. */
  datatype Walk = Walk(violations: seq<Violation>, rowsChecked: nat, prevRowHash: Option<string>,
                       prevSeq: Option<int>, lastSeq: int, stopped: bool)

  // ---------------------------------------------------------------- what a clean run means

  /** Contiguous sequence numbers, every link the hash before it, every hash recomputed. */
  ghost predicate Intact(hash: string -> string, rows: seq<Row>) {
    && (forall i :: 0 < i < |rows| ==> rows[i].seqNo == rows[i - 1].seqNo + 1)
    && (rows != [] ==> rows[0].prevHash == None)
    && (forall i :: 0 < i < |rows| ==> rows[i].prevHash == rows[i - 1].rowHash)
    && (forall i :: 0 <= i < |rows| ==> rows[i].rowHash == Some(hash(HashText(rows[i]))))
  }

  lemma {:induction false} CleanIffIntact(hash: string -> string, rows: seq<Row>)
    ensures Violations(hash, rows) == [] <==> Intact(hash, rows)
  {
    if rows != [] {
      var n := |rows| - 1;
      var before := rows[..n];
      CleanIffIntact(hash, before);
      CleanRow(hash, before, rows[n]);
      assert rows == before + [rows[n]];
      IntactSnoc(hash, before, rows[n]);
    }
  }

  ghost predicate Follows(hash: string -> string, before: seq<Row>, r: Row) {
    && (before != [] ==> r.seqNo == before[|before| - 1].seqNo + 1)
    && r.prevHash == PrevRowHash(before)
    && r.rowHash == Some(hash(HashText(r)))
  }

  lemma CleanRow(hash: string -> string, before: seq<Row>, r: Row)
    ensures RowViolations(hash, PrevSeq(before), PrevRowHash(before), r) == [] <==> Follows(hash, before, r)
  {
  }

  lemma IntactSnoc(hash: string -> string, before: seq<Row>, r: Row)
    ensures Intact(hash, before + [r]) <==> Intact(hash, before) && Follows(hash, before, r)
  {
    var rows := before + [r];
    assert forall i :: 0 <= i < |before| ==> rows[i] == before[i];
    assert rows[|before|] == r;
    if Intact(hash, rows) {
      assert Intact(hash, before);
    }
  }

  // ---------------------------------------------------------------- tamper evidence

  /** A collision-free digest whose output is a non-empty, bar-free word other than the genesis marker. */
  ghost predicate Digest(hash: string -> string) {
    && (forall x, y :: hash(x) == hash(y) ==> x == y)
    && (forall x :: '|' !in hash(x) && hash(x) != "GENESIS" && hash(x) != "")
  }

  lemma TextSplits(r: Row)
    ensures HashText(r) == Link(r) + "|" + (Join(Fields(r)) + "|")
  {
    assert ([Link(r)] + (Fields(r) + [""]))[1..] == Fields(r) + [""];
    JoinSnoc(Fields(r), "");
  }

  /** Equal hashed text, from two links without a bar, means equal links and equal joined fields. */
  lemma TextDetermines(r: Row, q: Row)
    requires '|' !in Link(r) && '|' !in Link(q) && HashText(r) == HashText(q)
    ensures Link(r) == Link(q) && Join(Fields(r)) == Join(Fields(q))
  {
    TextSplits(r);
    TextSplits(q);
    SplitAtBar(Link(r), Link(q), Join(Fields(r)) + "|", Join(Fields(q)) + "|");
    var x, y := Join(Fields(r)) + "|", Join(Fields(q)) + "|";
    assert x[..|x| - 1] == Join(Fields(r)) && y[..|y| - 1] == Join(Fields(q));
  }

  /** In an intact table a link is the genesis marker on the first row, and a digest on the others. */
  lemma LinkShape(hash: string -> string, rows: seq<Row>, i: nat)
    requires Digest(hash) && Intact(hash, rows) && i < |rows|
    ensures '|' !in Link(rows[i])
    ensures Link(rows[i]) == "GENESIS" <==> i == 0
    ensures if i > 0 then rows[i].prevHash == rows[i - 1].rowHash == Some(Link(rows[i])) else rows[i].prevHash == None
  {
    if i > 0 {
      var text := HashText(rows[i - 1]);
      assert rows[i - 1].rowHash == Some(hash(text));
    }
  }

  lemma IntactFront(hash: string -> string, rows: seq<Row>)
    requires Intact(hash, rows) && rows != []
    ensures Intact(hash, rows[..|rows| - 1])
  {
    var n := |rows| - 1;
    assert rows == rows[..n] + [rows[n]];
    IntactSnoc(hash, rows[..n], rows[n]);
  }

  lemma LastRowsAgree(hash: string -> string, a: seq<Row>, b: seq<Row>)
    requires Digest(hash) && Intact(hash, a) && Intact(hash, b) && PrevRowHash(a) == PrevRowHash(b)
    ensures a == [] <==> b == []
    ensures a != [] && b != [] ==>
      && HashText(a[|a| - 1]) == HashText(b[|b| - 1])
      && a[|a| - 1].prevHash == b[|b| - 1].prevHash
      && PrevRowHash(a[..|a| - 1]) == PrevRowHash(b[..|b| - 1])
  {
    assert a != [] ==> a[|a| - 1].rowHash == Some(hash(HashText(a[|a| - 1])));
    assert b != [] ==> b[|b| - 1].rowHash == Some(hash(HashText(b[|b| - 1])));
    if a != [] && b != [] {
      LinkShape(hash, a, |a| - 1);
      LinkShape(hash, b, |b| - 1);
      TextDetermines(a[|a| - 1], b[|b| - 1]);
    }
  }

  ghost predicate SameRow(r: Row, q: Row) {
    HashText(r) == HashText(q) && r.rowHash == q.rowHash && r.prevHash == q.prevHash
  }

  /** Row for row, the two tables hash the same text. */
  ghost predicate SameHashes(a: seq<Row>, b: seq<Row>) {
    |a| == |b| && forall i :: 0 <= i < |a| ==> SameRow(a[i], b[i])
  }

  lemma SameHashesSnoc(a: seq<Row>, b: seq<Row>)
    requires a != [] && b != [] && SameRow(a[|a| - 1], b[|b| - 1])
    requires SameHashes(a[..|a| - 1], b[..|b| - 1])
    ensures SameHashes(a, b)
  {
    forall i | 0 <= i < |a| - 1 ensures SameRow(a[i], b[i]) {
      assert a[i] == a[..|a| - 1][i] && b[i] == b[..|b| - 1][i];
    }
  }

  /** Tamper evidence: intact tables that end in the same hash have the same length and the same hashed text throughout. */
  lemma {:induction false} TamperEvidence(hash: string -> string, a: seq<Row>, b: seq<Row>)
    requires Digest(hash) && Intact(hash, a) && Intact(hash, b) && PrevRowHash(a) == PrevRowHash(b)
    ensures SameHashes(a, b)
    decreases |a|
  {
    LastRowsAgree(hash, a, b);
    if a != [] {
      IntactFront(hash, a);
      IntactFront(hash, b);
      TamperEvidence(hash, a[..|a| - 1], b[..|b| - 1]);
      SameHashesSnoc(a, b);
    }
  }

  /** Two tables found valid, with the same last hash: where a row has no bar in its fields, every field agrees. */
  lemma AcceptedTablesAgree(hash: string -> string, a: seq<Row>, b: seq<Row>, i: nat)
    requires Digest(hash) && Violations(hash, a) == [] && Violations(hash, b) == [] && PrevRowHash(a) == PrevRowHash(b)
    requires i < |a| && BarFree(Fields(a[i]))
    ensures |a| == |b| && Fields(a[i]) == Fields(b[i])
  {
    CleanIffIntact(hash, a);
    CleanIffIntact(hash, b);
    TamperEvidence(hash, a, b);
    LinkShape(hash, a, i);
    LinkShape(hash, b, i);
    TextDetermines(a[i], b[i]);
    BarFreeDetermined(Fields(a[i]), Fields(b[i]));
  }

  lemma ReplacedIntact(hash: string -> string, a: seq<Row>, i: nat, q: Row)
    requires Intact(hash, a) && i < |a| && HashText(q) == HashText(a[i])
    requires q.seqNo == a[i].seqNo && q.prevHash == a[i].prevHash && q.rowHash == a[i].rowHash
    ensures Intact(hash, a[i := q])
  {
  }

  lemma ReplacedClean(hash: string -> string, a: seq<Row>, i: nat, q: Row)
    requires Violations(hash, a) == [] && i < |a| && HashText(q) == HashText(a[i])
    requires q.seqNo == a[i].seqNo && q.prevHash == a[i].prevHash && q.rowHash == a[i].rowHash
    ensures Violations(hash, a[i := q]) == []
  {
    CleanIffIntact(hash, a);
    ReplacedIntact(hash, a, i, q);
    CleanIffIntact(hash, a[i := q]);
  }
}

/** What each entry of the verifier's list means. */
module AuditFindings {
  import opened Prelude
  import opened AuditChain

  ghost function HashBefore(rows: seq<Row>, i: nat): Option<string>
    requires i < |rows|
  {
    if i == 0 then None else rows[i - 1].rowHash
  }

  /** Row `i` is out of sequence, does not link to the row before it, or does not recompute. */
  ghost predicate Wrong(hash: string -> string, rows: seq<Row>, i: nat, kind: Kind)
    requires i < |rows|
  {
    match kind
    case DeletedRow => i > 0 && rows[i].seqNo != rows[i - 1].seqNo + 1
    case PrevHashMismatch => rows[i].prevHash != HashBefore(rows, i)
    case RowHashMismatch => rows[i].rowHash != Some(hash(HashText(rows[i])))
  }

  /** The entry that says so: what the row holds beside what it should. */
  ghost function EntryFor(hash: string -> string, rows: seq<Row>, i: nat, kind: Kind): Violation
    requires i < |rows|
  {
    var r := rows[i];
    Violation(r.seqNo, r.id, HashBefore(rows, i), r.prevHash,
              if kind.RowHashMismatch? then hash(HashText(r)) else "", r.rowHash, kind)
  }

  ghost predicate Explains(hash: string -> string, rows: seq<Row>, i: nat, kind: Kind, v: Violation) {
    i < |rows| && Wrong(hash, rows, i, kind) && v == EntryFor(hash, rows, i, kind)
  }

  lemma LastRowIff(hash: string -> string, rows: seq<Row>, v: Violation)
    requires rows != []
    ensures
      var n := |rows| - 1;
      v in RowViolations(hash, PrevSeq(rows[..n]), PrevRowHash(rows[..n]), rows[n]) <==> Explains(hash, rows, n, v.kind, v)
  {
    var n := |rows| - 1;
    var prevSeq, prevHash := PrevSeq(rows[..n]), PrevRowHash(rows[..n]);
    assert prevHash == HashBefore(rows, n);
    var gap, link, bad := GapCheck(prevSeq, prevHash, rows[n]), LinkCheck(prevHash, rows[n]), HashCheck(hash, prevHash, rows[n]);
    assert v in gap + link + bad <==> v in gap || v in link || v in bad;
    match v.kind {
      case DeletedRow => assert v in gap <==> Explains(hash, rows, n, v.kind, v);
      case PrevHashMismatch => assert v in link <==> Explains(hash, rows, n, v.kind, v);
      case RowHashMismatch => assert v in bad <==> Explains(hash, rows, n, v.kind, v);
    }
  }

  lemma ExplainsPrefix(hash: string -> string, rows: seq<Row>, n: nat, i: nat, v: Violation)
    requires i < n <= |rows|
    ensures Explains(hash, rows[..n], i, v.kind, v) <==> Explains(hash, rows, i, v.kind, v)
  {
    assert rows[..n][i] == rows[i] && (i > 0 ==> rows[..n][i - 1] == rows[i - 1]);
  }

  ghost predicate Explained(hash: string -> string, rows: seq<Row>, v: Violation) {
    exists i :: Explains(hash, rows, i, v.kind, v)
  }

  lemma ExplainedStep(hash: string -> string, rows: seq<Row>, v: Violation)
    requires rows != []
    ensures Explained(hash, rows, v) <==>
      Explained(hash, rows[..|rows| - 1], v) || Explains(hash, rows, |rows| - 1, v.kind, v)
  {
    var n := |rows| - 1;
    if i: nat :| Explains(hash, rows[..n], i, v.kind, v) { ExplainsPrefix(hash, rows, n, i, v); }
    if i: nat :| Explains(hash, rows, i, v.kind, v) && i < n { ExplainsPrefix(hash, rows, n, i, v); }
  }

  /** The list has an entry for each thing that is wrong with a row, and no others. */
  lemma {:induction false} EntryIff(hash: string -> string, rows: seq<Row>, v: Violation)
    ensures v in Violations(hash, rows) <==> Explained(hash, rows, v)
    decreases |rows|
  {
    if rows != [] {
      EntryIff(hash, rows[..|rows| - 1], v);
      LastRowIff(hash, rows, v);
      ExplainedStep(hash, rows, v);
    }
  }

  ghost predicate Reported(found: seq<Violation>, seqNo: int, kind: Kind) {
    exists v :: v in found && v.seqNo == seqNo && v.kind == kind
  }

  /** In a table a row is named in an entry of a kind exactly when that is wrong with it. */
  lemma ReportedIff(hash: string -> string, rows: seq<Row>, i: nat, kind: Kind)
    requires Table(rows) && i < |rows|
    ensures Reported(Violations(hash, rows), rows[i].seqNo, kind) <==> Wrong(hash, rows, i, kind)
  {
    if Wrong(hash, rows, i, kind) { WrongIsReported(hash, rows, i, kind); }
    if v :| v in Violations(hash, rows) && v.seqNo == rows[i].seqNo && v.kind == kind {
      EntryIff(hash, rows, v);
      EntryNamesRow(hash, rows, i, v);
    }
  }

  lemma EntryNamesRow(hash: string -> string, rows: seq<Row>, i: nat, v: Violation)
    requires Table(rows) && i < |rows| && Explained(hash, rows, v) && v.seqNo == rows[i].seqNo
    ensures Wrong(hash, rows, i, v.kind)
  {
    var j: nat :| Explains(hash, rows, j, v.kind, v);
    assert rows[j].seqNo == rows[i].seqNo;
  }

  lemma WrongIsReported(hash: string -> string, rows: seq<Row>, i: nat, kind: Kind)
    requires i < |rows| && Wrong(hash, rows, i, kind)
    ensures EntryFor(hash, rows, i, kind) in Violations(hash, rows)
    ensures Reported(Violations(hash, rows), rows[i].seqNo, kind)
  {
    var v := EntryFor(hash, rows, i, kind);
    assert Explains(hash, rows, i, v.kind, v);
    EntryIff(hash, rows, v);
  }
}
