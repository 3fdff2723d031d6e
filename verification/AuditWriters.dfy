/** The two writers of the audit log, each with the check that is run over its rows. */
module AuditWriters {
  import opened Prelude
  import opened BarJoin
  import opened StableSort
  import opened AuditChain
  import opened AuditFindings

  /** What a caller records. */
  datatype Entry = Entry(
    id: string, occurredAt: string, actorId: string, action: string, resourceType: string,
    resourceId: string, details: string, status: string, tenantId: string, requestId: Option<string>)

  function OrEmpty(requestId: Option<string>): string { if requestId.Some? then requestId.value else "" }

  function LinkTo(prevHash: Option<string>): string { if prevHash.Some? then prevHash.value else "GENESIS" }

  // ---------------------------------------------------------------- in memory

  /** The row an entry becomes, chained to the rows before it; the hash covers the request id. */
  function NewRow(hash: string -> string, before: seq<Row>, e: Entry): Row {
    var r := Row(|before| + 1, e.id, e.occurredAt, e.actorId, e.action, e.resourceType, e.resourceId,
                 Some(e.details), e.status, e.tenantId, PrevRowHash(before), None, e.requestId);
    r.(rowHash := Some(hash(HashInput(Link(r), r, OrEmpty(e.requestId)))))
  }

  /** The table after the entries have been appended, one by one. */
  function Written(hash: string -> string, entries: seq<Entry>): (rows: seq<Row>)
    ensures |rows| == |entries|
  {
    if entries == [] then []
    else
      var before := Written(hash, entries[..|entries| - 1]);
      before + [NewRow(hash, before, entries[|entries| - 1])]
  }

  class InMemoryAuditLogsRepository {
    const hash: string -> string
    var logs: seq<Row>
    var seqCounter: nat

    ghost predicate Valid()
      reads this
    {
      seqCounter == |logs|
    }

    constructor (hash: string -> string)
      ensures this.hash == hash && logs == [] && Valid()
    {
      this.hash, logs, seqCounter := hash, [], 0;
    }

    /** An entry without a tenant is refused. */
    method Append(e: Entry) returns (ok: bool)
      requires Valid()
      modifies this
      ensures Valid() && ok == (e.tenantId != "")
      ensures logs == if ok then old(logs) + [NewRow(hash, old(logs), e)] else old(logs)
    {
      if e.tenantId == "" { return false; }
      seqCounter := seqCounter + 1;
      var prevHash := if |logs| > 0 then logs[|logs| - 1].rowHash else None;
      var rowHash := hash(Join([LinkTo(prevHash), e.id, e.occurredAt, e.actorId, e.action, e.resourceType, e.resourceId,
                                e.details, e.status, e.tenantId, OrEmpty(e.requestId)]));
      var entry := Row(seqCounter, e.id, e.occurredAt, e.actorId, e.action, e.resourceType, e.resourceId,
                       Some(e.details), e.status, e.tenantId, prevHash, Some(rowHash), e.requestId);
      SameInput(entry, OrEmpty(e.requestId));
      assert Fields(entry) == Fields(entry.(rowHash := None));
      logs := logs + [entry];
      return true;
    }
  }

  lemma SameInput(r: Row, last: string)
    requires r.details.Some?
    ensures [Link(r), r.id, r.occurredAt, r.actorId, r.action, r.resourceType, r.resourceId, r.details.value, r.status,
             r.tenantId, last] == [Link(r)] + (Fields(r) + [last])
  {
    FieldsList(r);
  }

  // ---------------------------------------------------------------- the service's own check

  /** By seq, then by id. */
  function Earlier(idLess: (string, string) -> bool): (Row, Row) -> bool {
    (a: Row, b: Row) => a.seqNo < b.seqNo || (a.seqNo == b.seqNo && idLess(a.id, b.id))
  }

  /** What the service expects of the entry at position `i`; its hash takes the link from the entry before. */
  ghost predicate EntryHolds(hash: string -> string, rows: seq<Row>, i: nat)
    requires i < |rows|
  {
    && rows[i].seqNo == (if i == 0 then 1 else rows[i - 1].seqNo + 1)
    && rows[i].prevHash == PrevRowHash(rows[..i])
    && rows[i].rowHash == Some(hash(HashInput(LinkTo(PrevRowHash(rows[..i])), rows[i], OrEmpty(rows[i].requestId))))
    && rows[i].rowHash != Some("")
  }

  ghost predicate ChainHolds(hash: string -> string, rows: seq<Row>) {
    forall i :: 0 <= i < |rows| ==> EntryHolds(hash, rows, i)
  }

  datatype Finding = MissingRow(at: int) | BrokenLink(at: int) | WrongHash(at: int)

  /** What each finding says of an entry. */
  ghost predicate Finds(hash: string -> string, entry: Row, expectedSeq: int, previousHash: Option<string>, f: Finding) {
    match f
    case MissingRow(at) => at == expectedSeq && entry.seqNo != expectedSeq
    case BrokenLink(at) => at == entry.seqNo && entry.prevHash != previousHash
    case WrongHash(at) =>
      && at == entry.seqNo
      && (entry.rowHash == Some("")
          || entry.rowHash != Some(hash(HashInput(LinkTo(previousHash), entry, OrEmpty(entry.requestId)))))
  }

  ghost predicate FindsAt(hash: string -> string, rows: seq<Row>, i: nat, f: Finding)
    requires i < |rows|
  {
    Finds(hash, rows[i], if i == 0 then 1 else rows[i - 1].seqNo + 1, PrevRowHash(rows[..i]), f)
  }

  class AuditLogService {
    const hash: string -> string
    const idLess: (string, string) -> bool

    constructor (hash: string -> string, idLess: (string, string) -> bool)
      ensures this.hash == hash && this.idLess == idLess
    {
      this.hash, this.idLess := hash, idLess;
    }

    method CheckEntry(entry: Row, expectedSeq: int, previousHash: Option<string>) returns (findings: seq<Finding>)
      ensures forall f :: f in findings <==> Finds(hash, entry, expectedSeq, previousHash, f)
      ensures findings == [] <==>
        && entry.seqNo == expectedSeq
        && entry.prevHash == previousHash
        && entry.rowHash == Some(hash(HashInput(LinkTo(previousHash), entry, OrEmpty(entry.requestId))))
        && entry.rowHash != Some("")
    {
      findings := [];
      var expectedHash := hash(HashInput(LinkTo(previousHash), entry, OrEmpty(entry.requestId)));
      if entry.seqNo != expectedSeq { findings := findings + [MissingRow(expectedSeq)]; }
      if entry.prevHash != previousHash { findings := findings + [BrokenLink(entry.seqNo)]; }
      if entry.rowHash.None? || entry.rowHash == Some("") || entry.rowHash != Some(expectedHash) {
        findings := findings + [WrongHash(entry.seqNo)];
      }
    }

    /** The chain is valid exactly when every entry, in order, is the next one, links to the one before and recomputes. */
    method VerifyChain(logs: seq<Row>) returns (valid: bool, rowsChecked: nat, findings: seq<Finding>)
      ensures valid <==> ChainHolds(hash, Sort(logs, Earlier(idLess)))
      ensures valid <==> findings == []
      ensures var rows := Sort(logs, Earlier(idLess));
        forall f :: f in findings <==> exists i :: 0 <= i < |rows| && FindsAt(hash, rows, i, f)
      ensures rowsChecked == |Sort(logs, Earlier(idLess))|
    {
      var ordered := Sort(logs, Earlier(idLess));
      var previousHash: Option<string> := None;
      var expectedSeq := 1;
      findings := [];
      var i := 0;
      while i < |ordered|
        invariant 0 <= i <= |ordered| && previousHash == PrevRowHash(ordered[..i])
        invariant expectedSeq == if i == 0 then 1 else ordered[i - 1].seqNo + 1
        invariant findings == [] <==> forall j :: 0 <= j < i ==> EntryHolds(hash, ordered, j)
        invariant forall f :: f in findings <==> exists j :: 0 <= j < i && FindsAt(hash, ordered, j, f)
      {
        var entry := ordered[i];
        var found := CheckEntry(entry, expectedSeq, previousHash);
        assert found == [] <==> EntryHolds(hash, ordered, i);
        assert forall f :: f in found <==> FindsAt(hash, ordered, i, f);
        findings := findings + found;
        assert ordered[..i + 1][i] == entry;
        previousHash := entry.rowHash;
        expectedSeq := entry.seqNo + 1;
        i := i + 1;
      }
      valid, rowsChecked := findings == [], |ordered|;
    }
  }

  lemma {:induction false} WrittenHolds(hash: string -> string, entries: seq<Entry>)
    requires Digest(hash)
    ensures ChainHolds(hash, Written(hash, entries))
    ensures forall i :: 0 <= i < |entries| ==> Written(hash, entries)[i].seqNo == i + 1
    decreases |entries|
  {
    if entries != [] {
      var n := |entries| - 1;
      var before, rows := Written(hash, entries[..n]), Written(hash, entries);
      WrittenHolds(hash, entries[..n]);
      forall i | 0 <= i < |rows| ensures EntryHolds(hash, rows, i) {
        if i < n {
          assert EntryHolds(hash, before, i);
          assert rows[..i] == before[..i];
        } else {
          assert rows[..n] == before;
          assert Link(rows[n]) == LinkTo(rows[n].prevHash);
          SameFields(hash, before, entries[n]);
        }
      }
    }
  }

  lemma SameFields(hash: string -> string, before: seq<Row>, e: Entry)
    ensures var r := NewRow(hash, before, e);
      r.rowHash == Some(hash(HashInput(LinkTo(PrevRowHash(before)), r, OrEmpty(r.requestId))))
  {
    var r := NewRow(hash, before, e);
    assert Fields(r) == Fields(r.(rowHash := None));
  }

  /** What the in-memory writer writes, with request ids or without, the service finds valid. */
  lemma WrittenIsValid(hash: string -> string, idLess: (string, string) -> bool, entries: seq<Entry>)
    requires Digest(hash)
    ensures
      var rows := Written(hash, entries);
      Sort(rows, Earlier(idLess)) == rows && ChainHolds(hash, Sort(rows, Earlier(idLess)))
  {
    WrittenHolds(hash, entries);
    SortedStays(Written(hash, entries), Earlier(idLess));
  }

  // ---------------------------------------------------------------- in SQL

  /** An entry as SQL writes it: the statement's time as text, the same time and the details as they are read back. */
  datatype Statement = Statement(
    entry: Entry, seqNo: int, nowText: string, isoText: string, storedDetails: string, batched: bool)

  /** The hash is taken over the time as SQL prints it; a batch writes the genesis marker into the link itself. */
  function SqlRow(hash: string -> string, before: seq<Row>, w: Statement): Row {
    var e, prev := w.entry, PrevRowHash(before);
    var prevHash := if prev.None? && w.batched then Some("GENESIS") else prev;
    var text := Join([LinkTo(prevHash), e.id, w.nowText, e.actorId, e.action, e.resourceType, e.resourceId, e.details,
                      e.status, e.tenantId, OrEmpty(e.requestId)]);
    Row(w.seqNo, e.id, w.isoText, e.actorId, e.action, e.resourceType, e.resourceId, Some(w.storedDetails), e.status,
        e.tenantId, prevHash, Some(hash(text)), e.requestId)
  }

  function SqlWritten(hash: string -> string, ws: seq<Statement>): (rows: seq<Row>)
    ensures |rows| == |ws|
  {
    if ws == [] then []
    else
      var before := SqlWritten(hash, ws[..|ws| - 1]);
      before + [SqlRow(hash, before, ws[|ws| - 1])]
  }

  /** The two texts of a time, `2026-01-01 10:00:00+00` and `2026-01-01T10:00:00.000Z` say, have no bar and differ. */
  ghost predicate TimesDiffer(w: Statement) {
    '|' !in w.nowText && '|' !in w.isoText && w.nowText != w.isoText
  }

  lemma JoinThree(x: string, y: string, z: string, rest: seq<string>)
    requires rest != []
    ensures Join([x, y, z] + rest) == x + "|" + (y + "|" + (z + "|" + Join(rest)))
  {
    assert ([x, y, z] + rest)[1..] == [y, z] + rest;
    assert ([y, z] + rest)[1..] == [z] + rest;
    assert ([z] + rest)[1..] == rest;
    assert Join([z] + rest) == z + "|" + Join(rest);
    assert Join([y, z] + rest) == y + "|" + (z + "|" + Join(rest));
    assert Join([x, y, z] + rest) == x + "|" + Join([y, z] + rest);
  }

  lemma CancelTwo(x: string, y: string, u: string, v: string)
    requires x + "|" + (y + "|" + u) == x + "|" + (y + "|" + v)
    ensures u == v
  {
    var s, t := x + "|" + (y + "|" + u), x + "|" + (y + "|" + v);
    assert s[|x| + 1 + |y| + 1..] == u && t[|x| + 1 + |y| + 1..] == v;
  }

  /** So the text that is hashed is never the text that is recomputed, whatever request id is taken. */
  lemma SqlTextDiffers(hash: string -> string, before: seq<Row>, w: Statement, last: string)
    requires Digest(hash) && TimesDiffer(w)
    ensures var r := SqlRow(hash, before, w); r.rowHash != Some(hash(HashInput(Link(r), r, last)))
  {
    var r, e := SqlRow(hash, before, w), w.entry;
    var written := [e.actorId, e.action, e.resourceType, e.resourceId, e.details, e.status, e.tenantId, OrEmpty(e.requestId)];
    var read := [e.actorId, e.action, e.resourceType, e.resourceId, w.storedDetails, e.status, e.tenantId, last];
    FieldsList(r);
    assert [Link(r)] + (Fields(r) + [last]) == [Link(r), e.id, w.isoText] + read;
    JoinThree(Link(r), e.id, w.isoText, read);
    JoinThree(Link(r), e.id, w.nowText, written);
    assert [Link(r), e.id, w.nowText] + written == [Link(r), e.id, w.nowText, e.actorId, e.action, e.resourceType,
                                                     e.resourceId, e.details, e.status, e.tenantId, OrEmpty(e.requestId)];
    if w.nowText + "|" + Join(written) == w.isoText + "|" + Join(read) {
      SplitAtBar(w.nowText, w.isoText, Join(written), Join(read));
      assert false;
    }
    if Join([Link(r), e.id, w.nowText] + written) == HashInput(Link(r), r, last) {
      CancelTwo(Link(r), e.id, w.nowText + "|" + Join(written), w.isoText + "|" + Join(read));
      assert false;
    }
  }

  lemma {:induction false} SqlRowsMismatch(hash: string -> string, ws: seq<Statement>, i: nat)
    requires Digest(hash) && i < |ws| && TimesDiffer(ws[i])
    ensures var r := SqlWritten(hash, ws)[i]; r.rowHash != Some(hash(HashText(r)))
    decreases |ws|
  {
    var n := |ws| - 1;
    if i < n {
      SqlRowsMismatch(hash, ws[..n], i);
    } else {
      SqlMismatch(hash, SqlWritten(hash, ws[..n]), ws[n]);
    }
  }

  /** The batched verifier reports every row that SQL has written. */
  lemma SqlRowsAreRejected(hash: string -> string, ws: seq<Statement>)
    requires Digest(hash) && forall i :: 0 <= i < |ws| ==> TimesDiffer(ws[i])
    ensures var rows := SqlWritten(hash, ws);
      |Violations(hash, rows)| >= |ws| && forall i :: 0 <= i < |rows| ==> Reported(Violations(hash, rows), rows[i].seqNo, RowHashMismatch)
  {
    var rows := SqlWritten(hash, ws);
    SqlRowsCounted(hash, ws);
    forall i | 0 <= i < |rows| ensures Reported(Violations(hash, rows), rows[i].seqNo, RowHashMismatch) {
      SqlRowsMismatch(hash, ws, i);
      WrongIsReported(hash, rows, i, RowHashMismatch);
    }
  }

  lemma {:induction false} SqlRowsCounted(hash: string -> string, ws: seq<Statement>)
    requires Digest(hash) && forall i :: 0 <= i < |ws| ==> TimesDiffer(ws[i])
    ensures |Violations(hash, SqlWritten(hash, ws))| >= |ws|
    decreases |ws|
  {
    if ws != [] {
      var n := |ws| - 1;
      var before := SqlWritten(hash, ws[..n]);
      SqlRowsCounted(hash, ws[..n]);
      SqlMismatch(hash, before, ws[n]);
      HashIsChecked(hash, before, SqlRow(hash, before, ws[n]));
    }
  }

  lemma SqlMismatch(hash: string -> string, before: seq<Row>, w: Statement)
    requires Digest(hash) && TimesDiffer(w)
    ensures var r := SqlRow(hash, before, w); r.rowHash != Some(hash(HashText(r)))
  {
    SqlTextDiffers(hash, before, w, "");
  }

  lemma HashIsChecked(hash: string -> string, before: seq<Row>, r: Row)
    requires r.rowHash != Some(hash(HashText(r)))
    ensures |Violations(hash, before + [r])| >= |Violations(hash, before)| + 1
  {
    assert (before + [r])[..|before|] == before;
  }

  /** The service's check, over rows in any order, fails at each of them too. */
  lemma SqlRowFailsService(hash: string -> string, before: seq<Row>, w: Statement, rows: seq<Row>, i: nat)
    requires Digest(hash) && TimesDiffer(w) && i < |rows| && rows[i] == SqlRow(hash, before, w)
    ensures !EntryHolds(hash, rows, i)
  {
    SqlTextDiffers(hash, before, w, OrEmpty(rows[i].requestId));
    assert Link(rows[i]) == LinkTo(rows[i].prevHash);
  }
}
