/** Batch payouts: every item is recorded, executed and marked on its own. */
module BatchPayout {
  import opened Prelude

  datatype Status = Pending | Settled | Failed

  type Rows = map<string, Status>

  /** When the store calls a hash a duplicate, from the row it has for it. */
  type Policy = Option<Status> -> bool

  /** A store write: done, thrown without effect, or thrown although it was done. */
  datatype Write = Written | Refused | AnswerLost

  /** `dated` says that a settlement time, if there is one, is a valid date. */
  datatype Item = Item(bondId: string, amount: string, hash: string, dated: bool)

  // ---------------------------------------------------------------- the fields of an item

  /** What String.prototype.trim removes. */
  predicate IsSpace(c: char) {
    || '\t' <= c <= '\r' || c == ' ' || c == '\U{A0}' || c == '\U{1680}' || '\U{2000}' <= c <= '\U{200A}'
    || c == '\U{2028}' || c == '\U{2029}' || c == '\U{202F}' || c == '\U{205F}' || c == '\U{3000}' || c == '\U{FEFF}'
  }

  predicate IsBlank(s: string) { forall i :: 0 <= i < |s| ==> IsSpace(s[i]) }

  predicate Digits(s: string) { forall i :: 0 <= i < |s| ==> '0' <= s[i] <= '9' }

  /** The number of leading digits. */
  function DigitRun(s: string): (n: nat)
    ensures n <= |s|
  {
    if s != "" && '0' <= s[0] <= '9' then 1 + DigitRun(s[1..]) else 0
  }

  /** Digits, then at most one point with one to eighteen digits after it. */
  predicate IsDecimal(s: string) {
    var n := DigitRun(s);
    n > 0 && (n == |s| || (s[n] == '.' && 1 <= |s| - n - 1 <= 18 && Digits(s[n + 1..])))
  }

  function Whole(s: string): nat
    requires Digits(s)
  {
    if s == "" then 0 else 10 * Whole(s[..|s| - 1]) + (s[|s| - 1] - '0') as nat
  }

  lemma {:induction false} DigitRunDigits(s: string)
    ensures Digits(s[..DigitRun(s)])
  {
    if s != "" && '0' <= s[0] <= '9' { DigitRunDigits(s[1..]); }
  }

  /**
    The parsed number is over 1e18.  Doubles are 128 apart there, and a value midway between 1e18 and the next one is rounded
    to 1e18, so the number is over exactly when the value is more than 64 above: by whole units, or by 64 and a fraction.
    */
  predicate TooLarge(s: string)
    requires IsDecimal(s)
  {
    DigitRunDigits(s);
    var whole := Whole(s[..DigitRun(s)]);
    whole > 1_000_000_000_000_000_064
    || (whole == 1_000_000_000_000_000_064 && exists i :: DigitRun(s) < i < |s| && s[i] != '0')
  }

  predicate FieldsOk(item: Item) {
    && !IsBlank(item.bondId)
    && IsDecimal(item.amount) && !TooLarge(item.amount)
    && !IsBlank(item.hash) && |item.hash| <= 128
  }

  datatype ItemResult = ItemResult(bondId: string, hash: string, status: Status, retryEligible: bool)

  /** What befalls one item: its first write, whether execution throws, and its last write. */
  datatype Fate = Fate(first: Write, throws: bool, last: Write)

  function RowOf(rows: Rows, hash: string): Option<Status> {
    if hash in rows then Some(rows[hash]) else None
  }

  function Upserted(row: Option<Status>, status: Status, w: Write): Option<Status> {
    if w.Refused? then row else Some(status)
  }

  /** The row of an item's hash after the item, from the row before. */
  function RowAfter(dup: Policy, row: Option<Status>, f: Fate): Option<Status> {
    var recorded := Upserted(row, Pending, f.first);
    if !f.first.Written? || dup(row) then recorded
    else Upserted(recorded, if f.throws then Failed else Settled, f.last)
  }

  /** A duplicate is reported as pending and not retried; whatever threw is reported as failed, to be retried. */
  function StatusAfter(dup: Policy, row: Option<Status>, f: Fate): Status {
    if !f.first.Written? then Failed
    else if dup(row) then Pending
    else if f.throws || !f.last.Written? then Failed
    else Settled
  }

  function ResultAfter(dup: Policy, row: Option<Status>, f: Fate, item: Item): ItemResult {
    var status := StatusAfter(dup, row, f);
    ItemResult(item.bondId, item.hash, status, status.Failed?)
  }

  predicate Succeeds(dup: Policy, row: Option<Status>, f: Fate) {
    f.first.Written? && !dup(row) && !f.throws
  }

  ghost predicate DistinctHashes(items: seq<Item>) {
    forall i, j :: 0 <= i < j < |items| ==> items[i].hash != items[j].hash
  }

  ghost predicate HashBefore(items: seq<Item>, i: nat)
    requires i < |items|
  {
    exists j :: 0 <= j < i && items[j].hash == items[i].hash
  }

  /** The first `n` items are good: their fields, their dates, and no hash twice. */
  ghost predicate Good(items: seq<Item>, n: nat)
    requires n <= |items|
  {
    forall i :: 0 <= i < n ==> FieldsOk(items[i]) && items[i].dated && !HashBefore(items, i)
  }

  datatype Validation = Valid | TooManyItems | InvalidItem(index: nat) | DuplicateHash(index: nat) | InvalidDate(index: nat)

  datatype BatchResult = BatchResult(total: nat, settled: nat, failed: nat, skipped: nat, items: seq<ItemResult>)

  function CountStatus(rs: seq<ItemResult>, status: Status): nat {
    if rs == [] then 0 else CountStatus(rs[..|rs| - 1], status) + (if rs[|rs| - 1].status == status then 1 else 0)
  }

  lemma GoodIsDistinct(items: seq<Item>)
    requires Good(items, |items|)
    ensures DistinctHashes(items)
  {
    forall i, j | 0 <= i < j < |items| ensures items[i].hash != items[j].hash { assert !HashBefore(items, j); }
  }

  lemma {:induction false} CountsAddUp(rs: seq<ItemResult>)
    ensures CountStatus(rs, Settled) + CountStatus(rs, Failed) + CountStatus(rs, Pending) == |rs|
    decreases |rs|
  {
    if rs != [] { CountsAddUp(rs[..|rs| - 1]); }
  }

  /** What one item of a batch adds to the log of executions. */
  ghost function ExecutedAt(dup: Policy, items: seq<Item>, fates: nat -> Fate, before: Rows, i: nat): seq<string>
    requires i < |items|
  {
    if Succeeds(dup, RowOf(before, items[i].hash), fates(i)) then [items[i].hash] else []
  }

  /** What the first `n` items add to it, in order. */
  ghost function ExecutedIn(dup: Policy, items: seq<Item>, fates: nat -> Fate, before: Rows, n: nat): seq<string>
    requires n <= |items|
  {
    if n == 0 then [] else ExecutedIn(dup, items, fates, before, n - 1) + ExecutedAt(dup, items, fates, before, n - 1)
  }

  /** The item was executed, and its last write was answered. */
  ghost predicate PaidAndMarked(dup: Policy, row: Option<Status>, f: Fate) {
    Succeeds(dup, row, f) && f.last.Written?
  }

  /** The item was recorded, and found to be a duplicate. */
  ghost predicate Skipped(dup: Policy, row: Option<Status>, f: Fate) {
    f.first.Written? && dup(row)
  }

  /** How many of the first `n` numbers have the property. */
  ghost function Number(n: nat, has: int -> bool): nat {
    if n == 0 then 0 else Number(n - 1, has) + (if has(n - 1) then 1 else 0)
  }

  lemma {:induction false} CountIsNumber(rs: seq<ItemResult>, status: Status, has: int -> bool)
    requires forall i :: 0 <= i < |rs| ==> (rs[i].status == status <==> has(i))
    ensures CountStatus(rs, status) == Number(|rs|, has)
    decreases |rs|
  {
    if rs != [] { CountIsNumber(rs[..|rs| - 1], status, has); }
  }

  lemma CountsMean(dup: Policy, items: seq<Item>, fates: nat -> Fate, before: Rows, rs: seq<ItemResult>)
    requires |rs| == |items|
    requires forall i :: 0 <= i < |items| ==> rs[i] == ResultAfter(dup, RowOf(before, items[i].hash), fates(i), items[i])
    ensures CountStatus(rs, Settled)
         == Number(|items|, i => 0 <= i < |items| && PaidAndMarked(dup, RowOf(before, items[i].hash), fates(i)))
    ensures CountStatus(rs, Pending)
         == Number(|items|, i => 0 <= i < |items| && Skipped(dup, RowOf(before, items[i].hash), fates(i)))
  {
    CountIsNumber(rs, Settled, i => 0 <= i < |items| && PaidAndMarked(dup, RowOf(before, items[i].hash), fates(i)));
    CountIsNumber(rs, Pending, i => 0 <= i < |items| && Skipped(dup, RowOf(before, items[i].hash), fates(i)));
  }

  // ---------------------------------------------------------------- the processor

  class BatchPayoutProcessor {
    const dup: Policy
    const maxBatchSize: nat
    var rows: Rows
    var executed: seq<string>

    constructor (dup: Policy, maxBatchSize: Option<int>)
      ensures this.dup == dup && rows == map[] && executed == []
      ensures this.maxBatchSize == if maxBatchSize.Some? && maxBatchSize.value > 0 then maxBatchSize.value else 1000
    {
      this.dup := dup;
      this.maxBatchSize := if maxBatchSize.Some? && maxBatchSize.value > 0 then maxBatchSize.value else 1000;
      rows, executed := map[], [];
    }

    /** Accepts exactly the batches of allowed size with good items and no hash twice, and names the first bad item and why. */
    method ValidatePayload(items: seq<Item>) returns (v: Validation)
      ensures v.TooManyItems? <==> |items| > maxBatchSize
      ensures v.Valid? <==> |items| <= maxBatchSize && Good(items, |items|)
      ensures v.InvalidItem? ==> v.index < |items| && Good(items, v.index) && !FieldsOk(items[v.index])
      ensures v.DuplicateHash? ==>
        v.index < |items| && Good(items, v.index) && FieldsOk(items[v.index]) && HashBefore(items, v.index)
      ensures v.InvalidDate? ==>
        && v.index < |items| && Good(items, v.index) && FieldsOk(items[v.index]) && !HashBefore(items, v.index)
        && !items[v.index].dated
    {
      if |items| > maxBatchSize { return TooManyItems; }
      var seen: set<string> := {};
      var i := 0;
      while i < |items|
        invariant 0 <= i <= |items| && Good(items, i)
        invariant forall h :: h in seen <==> exists j :: 0 <= j < i && items[j].hash == h
      {
        if !FieldsOk(items[i]) { return InvalidItem(i); }
        if items[i].hash in seen { return DuplicateHash(i); }
        seen := seen + {items[i].hash};
        if !items[i].dated { return InvalidDate(i); }
        i := i + 1;
      }
      return Valid;
    }

    /** An atomic upsert; the answer tells whether the hash was a duplicate. */
    method Upsert(hash: string, status: Status, w: Write) returns (isDuplicate: bool)
      modifies this`rows
      ensures RowOf(rows, hash) == Upserted(RowOf(old(rows), hash), status, w)
      ensures forall h :: h != hash ==> RowOf(rows, h) == RowOf(old(rows), h)
      ensures isDuplicate == dup(RowOf(old(rows), hash))
    {
      isDuplicate := dup(RowOf(rows, hash));
      if !w.Refused? { rows := rows[hash := status]; }
    }

    /**
      An item is reported as settled when it was executed and its last write was answered, and as pending when its hash
      was a duplicate.
      */
    method ProcessItem(item: Item, f: Fate) returns (r: ItemResult)
      modifies this
      ensures r.status.Settled? <==> executed == old(executed) + [item.hash] && f.last.Written?
      ensures r.status.Settled? ==> RowOf(rows, item.hash) == Some(Settled)
      ensures r.status.Pending? <==> f.first.Written? && dup(RowOf(old(rows), item.hash))
      ensures r.status.Pending? ==> executed == old(executed) && RowOf(rows, item.hash) == Some(Pending)
      ensures r == ResultAfter(dup, RowOf(old(rows), item.hash), f, item)
      ensures RowOf(rows, item.hash) == RowAfter(dup, RowOf(old(rows), item.hash), f)
      ensures forall h :: h != item.hash ==> RowOf(rows, h) == RowOf(old(rows), h)
      ensures executed == old(executed) + if Succeeds(dup, RowOf(old(rows), item.hash), f) then [item.hash] else []
    {
      var isDuplicate := Upsert(item.hash, Pending, f.first);
      if !f.first.Written? { return ItemResult(item.bondId, item.hash, Failed, true); }
      if isDuplicate { return ItemResult(item.bondId, item.hash, Pending, false); }
      if f.throws {
        var _ := Upsert(item.hash, Failed, f.last);
        return ItemResult(item.bondId, item.hash, Failed, true);
      }
      executed := executed + [item.hash];
      var _ := Upsert(item.hash, Settled, f.last);
      if !f.last.Written? { return ItemResult(item.bondId, item.hash, Failed, true); }
      return ItemResult(item.bondId, item.hash, Settled, false);
    }

    /** The first `n` items are done, each as if it were alone, and the rest are as they were. */
    ghost predicate Done(items: seq<Item>, fates: nat -> Fate, before: Rows, n: nat, rs: seq<ItemResult>)
      reads this`rows
    {
      && n == |rs| <= |items|
      && (forall i :: 0 <= i < n ==> rs[i] == ResultAfter(dup, RowOf(before, items[i].hash), fates(i), items[i]))
      && (forall i :: 0 <= i < n ==> RowOf(rows, items[i].hash) == RowAfter(dup, RowOf(before, items[i].hash), fates(i)))
      && (forall h :: (forall i :: 0 <= i < n ==> items[i].hash != h) ==> RowOf(rows, h) == RowOf(before, h))
    }

    /** One more item, whose hash none of those before it has. */
    method ProcessNext(items: seq<Item>, fates: nat -> Fate, ghost before: Rows, rs: seq<ItemResult>)
      returns (after: seq<ItemResult>)
      requires DistinctHashes(items) && |rs| < |items| && Done(items, fates, before, |rs|, rs)
      modifies this
      ensures Done(items, fates, before, |rs| + 1, after) && after[..|rs|] == rs
      ensures executed == old(executed) + ExecutedAt(dup, items, fates, before, |rs|)
    {
      var n := |rs|;
      assert forall i :: 0 <= i < n ==> items[i].hash != items[n].hash;
      var r := ProcessItem(items[n], fates(n));
      after := rs + [r];
    }

    /**
      The whole payload is validated before anything is written; each item then fares as it would alone.  Settled counts
      what this call executed and wrote down, skipped what it found to be duplicates.
      */
    method Process(items: seq<Item>, fates: nat -> Fate) returns (v: Validation, result: BatchResult)
      modifies this
      ensures !v.Valid? ==> rows == old(rows) && executed == old(executed)
      ensures v.Valid? ==>
        && DistinctHashes(items)
        && Done(items, fates, old(rows), |items|, result.items)
        && Answers(items, result.items)
        && result.total == |items| == result.settled + result.failed + result.skipped
        && result.settled == CountStatus(result.items, Settled)
        && result.failed == CountStatus(result.items, Failed)
        && result.skipped == CountStatus(result.items, Pending)
        && executed == old(executed) + ExecutedIn(dup, items, fates, old(rows), |items|)
        && result.settled == Number(|items|, i => 0 <= i < |items| && PaidAndMarked(dup, RowOf(old(rows), items[i].hash), fates(i)))
        && result.skipped == Number(|items|, i => 0 <= i < |items| && Skipped(dup, RowOf(old(rows), items[i].hash), fates(i)))
    {
      result := BatchResult(0, 0, 0, 0, []);
      v := ValidatePayload(items);
      if !v.Valid? { return; }
      GoodIsDistinct(items);
      ghost var before := rows;
      var results: seq<ItemResult> := [];
      var settled, failed, skipped := 0, 0, 0;
      while |results| < |items|
        invariant Done(items, fates, before, |results|, results) == true && |results| <= |items|
        invariant executed == old(executed) + ExecutedIn(dup, items, fates, before, |results|)
        invariant settled == CountStatus(results, Settled)
        invariant failed == CountStatus(results, Failed)
        invariant skipped == CountStatus(results, Pending)
        decreases |items| - |results|
      {
        ghost var shorter := results;
        ghost var log := executed;
        results := ProcessNext(items, fates, before, results);
        assert results[..|results| - 1] == shorter;
        assert executed == log + ExecutedAt(dup, items, fates, before, |shorter|);
        match results[|results| - 1].status {
          case Settled => settled := settled + 1;
          case Failed => failed := failed + 1;
          case Pending => skipped := skipped + 1;
        }
      }
      CountsAddUp(results);
      CountsMean(dup, items, fates, before, results);
      result := BatchResult(|items|, settled, failed, skipped, results);
    }
  }

  function Filter(items: seq<Item>, keep: Item -> bool): seq<Item> {
    if items == [] then []
    else if keep(items[|items| - 1]) then Filter(items[..|items| - 1], keep) + [items[|items| - 1]]
    else Filter(items[..|items| - 1], keep)
  }

  function RetryHashes(rs: seq<ItemResult>): set<string> {
    set r | r in rs && r.retryEligible :: r.hash
  }

  function GetRetryableItems(original: seq<Item>, result: BatchResult): seq<Item> {
    var retryHashes := RetryHashes(result.items);
    Filter(original, (item: Item) => item.hash in retryHashes)
  }

  /** The items at the positions whose result is a failure, in order. */
  ghost function FailedItems(items: seq<Item>, rs: seq<ItemResult>, n: nat): seq<Item>
    requires n <= |items| == |rs|
  {
    if n == 0 then []
    else FailedItems(items, rs, n - 1) + (if rs[n - 1].status.Failed? then [items[n - 1]] else [])
  }

  lemma {:induction false} FilterByPosition(items: seq<Item>, rs: seq<ItemResult>, n: nat, keep: Item -> bool)
    requires n <= |items| == |rs|
    requires forall i :: 0 <= i < n ==> (keep(items[i]) <==> rs[i].status.Failed?)
    ensures Filter(items[..n], keep) == FailedItems(items, rs, n)
  {
    if n > 0 {
      FilterByPosition(items, rs, n - 1, keep);
      assert items[..n][..n - 1] == items[..n - 1];
    }
  }

  /** The results belong to the items, and are retried when they failed. */
  ghost predicate Answers(items: seq<Item>, rs: seq<ItemResult>) {
    && |rs| == |items|
    && forall i :: 0 <= i < |items| ==> rs[i].hash == items[i].hash && rs[i].retryEligible == rs[i].status.Failed?
  }

  lemma RetryHashIffFailed(items: seq<Item>, rs: seq<ItemResult>, i: nat)
    requires DistinctHashes(items) && Answers(items, rs) && i < |items|
    ensures items[i].hash in RetryHashes(rs) <==> rs[i].status.Failed?
  {
    assert rs[i] in rs;
    if items[i].hash in RetryHashes(rs) {
      var r :| r in rs && r.retryEligible && r.hash == items[i].hash;
      var j :| 0 <= j < |rs| && rs[j] == r;
      assert items[j].hash == items[i].hash;
    }
  }

  /** What is retried after a batch is exactly what failed in it. */
  lemma RetriesAreFailures(items: seq<Item>, result: BatchResult)
    requires DistinctHashes(items) && Answers(items, result.items)
    ensures GetRetryableItems(items, result) == FailedItems(items, result.items, |items|)
  {
    var retryHashes := RetryHashes(result.items);
    var keep := (item: Item) => item.hash in retryHashes;
    forall i | 0 <= i < |items| ensures keep(items[i]) <==> result.items[i].status.Failed? {
      RetryHashIffFailed(items, result.items, i);
    }
    FilterByPosition(items, result.items, |items|, keep);
    assert items[..|items|] == items;
  }
}

/** What an accepted amount is, and how large it may be. */
module PayoutAmounts {
  import opened BatchPayout

  lemma {:induction false} DigitRunIs(s: string, n: nat)
    requires n <= |s| && Digits(s[..n]) && (n < |s| ==> !('0' <= s[n] <= '9'))
    ensures DigitRun(s) == n
    decreases n
  {
    if n > 0 {
      assert s[..n][0] == s[0];
      assert s[1..][..n - 1] == s[..n][1..];
      DigitRunIs(s[1..], n - 1);
    }
  }

  lemma {:induction false} DigitRunEnds(s: string)
    ensures DigitRun(s) < |s| ==> !('0' <= s[DigitRun(s)] <= '9')
  {
    if s != "" && '0' <= s[0] <= '9' { DigitRunEnds(s[1..]); }
  }

  /** Digits before a point at `i`, and one to eighteen after it. */
  ghost predicate PointAt(s: string, i: nat) {
    i < |s| && s[i] == '.' && i > 0 && Digits(s[..i]) && 1 <= |s| - i - 1 <= 18 && Digits(s[i + 1..])
  }

  lemma DecimalIff(s: string)
    ensures IsDecimal(s) <==> (s != "" && Digits(s)) || exists i :: PointAt(s, i)
  {
    DigitRunDigits(s);
    var n := DigitRun(s);
    if s != "" && Digits(s) { DigitRunIs(s, |s|); }
    if i: nat :| PointAt(s, i) { DigitRunIs(s, i); }
    if IsDecimal(s) {
      if n == |s| { assert s[..n] == s; } else { assert PointAt(s, n); }
    }
  }

  function Zeros(n: nat): string { if n == 0 then "" else Zeros(n - 1) + "0" }

  lemma {:induction false} ZerosAre(n: nat)
    ensures |Zeros(n)| == n && forall i :: 0 <= i < n ==> Zeros(n)[i] == '0'
  {
    if n > 0 { ZerosAre(n - 1); }
  }

  /** Digits with zeros after them, eighteen in all. */
  function Padded(a: string): (p: string)
    requires |a| <= 18 && Digits(a)
    ensures |p| == 18 && Digits(p)
  {
    ZerosAre(18 - |a|);
    a + Zeros(18 - |a|)
  }

  /** The digits after the point. */
  function Fraction(s: string): (f: string)
    requires IsDecimal(s)
    ensures |f| <= 18 && Digits(f)
  {
    if DigitRun(s) == |s| then "" else s[DigitRun(s) + 1..]
  }

  /** The amount in units of ten to the minus eighteen. */
  function Units(s: string): nat
    requires IsDecimal(s)
  {
    DigitRunDigits(s);
    Whole(s[..DigitRun(s)] + Padded(Fraction(s)))
  }

  /** The number with `n` zeros written after it. */
  function Shifted(v: nat, n: nat): nat { if n == 0 then v else 10 * Shifted(v, n - 1) }

  lemma {:induction false} WholeConcat(x: string, y: string)
    requires Digits(x) && Digits(y)
    ensures Whole(x + y) == Shifted(Whole(x), |y|) + Whole(y)
    decreases |y|
  {
    if y == "" {
      assert x + y == x;
    } else {
      assert (x + y)[..|x + y| - 1] == x + y[..|y| - 1];
      WholeConcat(x, y[..|y| - 1]);
    }
  }

  lemma {:induction false} WholeBounds(y: string)
    requires Digits(y)
    ensures Whole(y) < Shifted(1, |y|) && (Whole(y) > 0 <==> HasNonzero(y))
    decreases |y|
  {
    if y != "" {
      var n := |y| - 1;
      WholeBounds(y[..n]);
      if i :| 0 <= i < n && y[..n][i] != '0' { assert y[i] != '0'; }
      if i :| 0 <= i < |y| && y[i] != '0' && i < n { assert y[..n][i] != '0'; }
    }
  }

  lemma ShiftedThree(v: nat, n: nat)
    requires n >= 3
    ensures Shifted(v, n) == 1_000 * Shifted(v, n - 3)
  {
    assert Shifted(v, n - 1) == 10 * Shifted(v, n - 2);
  }

  lemma ShiftedEighteen(v: nat, n: nat)
    requires n == 18
    ensures Shifted(v, n) == 1_000_000_000_000_000_000 * v
  {
    ShiftedThree(v, n);
    ShiftedThree(v, n - 3);
    ShiftedThree(v, n - 6);
    ShiftedThree(v, n - 9);
    ShiftedThree(v, n - 12);
    ShiftedThree(v, n - 15);
  }

  ghost predicate HasNonzero(s: string) { exists i :: 0 <= i < |s| && s[i] != '0' }

  lemma PaddingIsZero(a: string)
    requires |a| <= 18 && Digits(a)
    ensures HasNonzero(Padded(a)) <==> HasNonzero(a)
  {
    ZerosAre(18 - |a|);
    if i :| 0 <= i < |a| && a[i] != '0' { assert Padded(a)[i] == a[i]; }
  }

  lemma FractionIff(s: string)
    requires IsDecimal(s)
    ensures HasNonzero(Fraction(s)) <==> exists i :: DigitRun(s) < i < |s| && s[i] != '0'
  {
    var n := DigitRun(s);
    if i :| 0 <= i < |Fraction(s)| && Fraction(s)[i] != '0' { assert s[n + 1 + i] != '0'; }
    if i :| n < i < |s| && s[i] != '0' { assert Fraction(s)[i - n - 1] != '0'; }
  }

  /** An amount is too large exactly when its value is more than 64 above ten to the eighteenth. */
  lemma TooLargeIff(s: string)
    requires IsDecimal(s)
    ensures TooLarge(s) <==> Units(s) > 1_000_000_000_000_000_064 * 1_000_000_000_000_000_000
  {
    DigitRunDigits(s);
    var whole := Whole(s[..DigitRun(s)]);
    var places := Padded(Fraction(s));
    WholeConcat(s[..DigitRun(s)], places);
    WholeBounds(places);
    ShiftedEighteen(whole, |places|);
    ShiftedEighteen(1, |places|);
    PaddingIsZero(Fraction(s));
    FractionIff(s);
  }
}

/** Any number of processors on one store, their steps in any order. */
module PayoutRuns {
  import opened Prelude
  import opened BatchPayout

  /** Where a processor stands with its item: recorded, paid, or with an execution that threw. */
  datatype Point = Recorded | Executed | Threw

  datatype Worker = Worker(hash: string, point: Point)

  /** `successes` lists the executions that returned, `payments` the payouts that took place. */
  datatype State = State(rows: Rows, workers: map<nat, Worker>, successes: seq<string>, payments: seq<string>)

  datatype Step =
    | Record(w: nat, hash: string, write: Write)
    | Execute(w: nat, throws: bool, paid: bool)
    | Mark(w: nat, write: Write)

  const Initial := State(map[], map[], [], [])

  function Upsert(rows: Rows, hash: string, status: Status, write: Write): Rows {
    if write.Refused? then rows else rows[hash := status]
  }

  function Apply(dup: Policy, s: State, step: Step): State {
    match step
    case Record(w, hash, write) =>
      if w in s.workers then s
      else
        var t := s.(rows := Upsert(s.rows, hash, Pending, write));
        if write.Written? && !dup(RowOf(s.rows, hash)) then t.(workers := s.workers[w := Worker(hash, Recorded)]) else t
    case Execute(w, throws, paid) =>
      if w !in s.workers || !s.workers[w].point.Recorded? then s
      else
        var hash := s.workers[w].hash;
        State(s.rows, s.workers[w := Worker(hash, if throws then Threw else Executed)],
              if throws then s.successes else s.successes + [hash],
              if paid then s.payments + [hash] else s.payments)
    case Mark(w, write) =>
      if w !in s.workers || s.workers[w].point.Recorded? then s
      else
        var v := s.workers[w];
        s.(rows := Upsert(s.rows, v.hash, if v.point.Executed? then Settled else Failed, write), workers := s.workers - {w})
  }

  ghost function Run(dup: Policy, s: State, steps: seq<Step>): State
    decreases |steps|
  {
    if steps == [] then s else Run(dup, Apply(dup, s, steps[0]), steps[1..])
  }

  ghost function Times(log: seq<string>, hash: string): nat {
    if log == [] then 0 else Times(log[..|log| - 1], hash) + (if log[|log| - 1] == hash then 1 else 0)
  }

  lemma TimesSnoc(log: seq<string>, x: string, hash: string)
    ensures Times(log + [x], hash) == Times(log, hash) + if x == hash then 1 else 0
  {
    assert (log + [x])[..|log|] == log;
  }

  // ---------------------------------------------------------------- at most one success

  /** A row that is pending or settled makes its hash a duplicate. */
  ghost predicate Guarded(dup: Policy) { dup(Some(Pending)) && dup(Some(Settled)) }

  ghost predicate Holds(s: State, w: nat, hash: string) { w in s.workers && s.workers[w].hash == hash }

  /** One processor at most is at work on a hash, and its row is then pending. */
  ghost predicate OneHolder(s: State, hash: string) {
    && (forall v, w :: Holds(s, v, hash) && Holds(s, w, hash) ==> v == w)
    && (forall w :: Holds(s, w, hash) ==> RowOf(s.rows, hash) == Some(Pending))
  }

  /** A hash that has been executed keeps a row that is not failed. */
  ghost predicate OnceOnly(s: State, hash: string) {
    && Times(s.successes, hash) <= 1
    && (forall w :: Holds(s, w, hash) ==> (s.workers[w].point.Executed? <==> Times(s.successes, hash) == 1))
    && (Times(s.successes, hash) == 1 ==> RowOf(s.rows, hash) in {Some(Pending), Some(Settled)})
  }

  lemma PendingWhileHeld(dup: Policy, s: State, step: Step, hash: string, w: nat)
    requires OneHolder(s, hash) && Holds(Apply(dup, s, step), w, hash)
    ensures RowOf(Apply(dup, s, step).rows, hash) == Some(Pending)
  {
    if !(step.Record? && step.w == w && w !in s.workers) {
      assert Holds(s, w, hash);
      if step.Mark? && Holds(s, step.w, hash) { assert step.w == w; }
    }
  }

  lemma OneHolderStep(dup: Policy, s: State, step: Step, hash: string)
    requires Guarded(dup) && OneHolder(s, hash)
    ensures OneHolder(Apply(dup, s, step), hash)
  {
    var t := Apply(dup, s, step);
    forall w: nat | Holds(t, w, hash) ensures RowOf(t.rows, hash) == Some(Pending) {
      PendingWhileHeld(dup, s, step, hash, w);
    }
    forall v: nat, w: nat | Holds(t, v, hash) && Holds(t, w, hash) ensures v == w {
      if step.Record? && step.w !in s.workers {
        if v != step.w { assert Holds(s, v, hash); }
        if w != step.w { assert Holds(s, w, hash); }
      } else {
        assert Holds(s, v, hash) && Holds(s, w, hash);
      }
    }
  }

  lemma OnceOnlyRecord(dup: Policy, s: State, step: Step, hash: string)
    requires Guarded(dup) && OnceOnly(s, hash) && step.Record?
    ensures OnceOnly(Apply(dup, s, step), hash)
  {
    var t := Apply(dup, s, step);
    forall w: nat | Holds(t, w, hash) ensures t.workers[w].point.Executed? <==> Times(t.successes, hash) == 1 {
      if w in s.workers { assert Holds(s, w, hash); }
    }
  }

  lemma OnceOnlyExecute(dup: Policy, s: State, step: Step, hash: string)
    requires OneHolder(s, hash) && OnceOnly(s, hash) && step.Execute? && step.w in s.workers
    ensures OnceOnly(Apply(dup, s, step), hash)
  {
    var t := Apply(dup, s, step);
    var x := s.workers[step.w].hash;
    TimesSnoc(s.successes, x, hash);
    if x == hash { assert Holds(s, step.w, hash); }
    forall w: nat | Holds(t, w, hash) ensures t.workers[w].point.Executed? <==> Times(t.successes, hash) == 1 {
      assert Holds(s, w, hash);
    }
  }

  lemma OnceOnlyMark(dup: Policy, s: State, step: Step, hash: string)
    requires OnceOnly(s, hash) && step.Mark? && step.w in s.workers
    ensures OnceOnly(Apply(dup, s, step), hash)
  {
    var t := Apply(dup, s, step);
    if s.workers[step.w].hash == hash { assert Holds(s, step.w, hash); }
    forall w: nat | Holds(t, w, hash) ensures t.workers[w].point.Executed? <==> Times(t.successes, hash) == 1 {
      assert Holds(s, w, hash);
    }
  }

  lemma OnceOnlyStep(dup: Policy, s: State, step: Step, hash: string)
    requires Guarded(dup) && OneHolder(s, hash) && OnceOnly(s, hash)
    ensures OnceOnly(Apply(dup, s, step), hash)
  {
    if step.Record? {
      OnceOnlyRecord(dup, s, step, hash);
    } else if step.w in s.workers {
      if step.Execute? { OnceOnlyExecute(dup, s, step, hash); } else { OnceOnlyMark(dup, s, step, hash); }
    }
  }

  lemma {:induction false} OnceOnlyRun(dup: Policy, s: State, steps: seq<Step>, hash: string)
    requires Guarded(dup) && OneHolder(s, hash) && OnceOnly(s, hash)
    ensures OnceOnly(Run(dup, s, steps), hash)
    decreases |steps|
  {
    if steps != [] {
      OneHolderStep(dup, s, steps[0], hash);
      OnceOnlyStep(dup, s, steps[0], hash);
      OnceOnlyRun(dup, Apply(dup, s, steps[0]), steps[1..], hash);
    }
  }

  lemma RunFrom(dup: Policy, s: State, steps: seq<Step>, i: nat)
    requires i < |steps|
    ensures Run(dup, s, steps[i..]) == Run(dup, Apply(dup, s, steps[i]), steps[i + 1..])
  {
    assert steps[i..][1..] == steps[i + 1..];
  }

  /** Without the guard a hash is executed twice, with processors overlapping or after a settled row. */
  lemma UnguardedPaysTwice(dup: Policy, hash: string) returns (steps: seq<Step>)
    requires !dup(None) && !Guarded(dup)
    ensures Times(Run(dup, Initial, steps).successes, hash) == 2
  {
    var last := if dup(Some(Pending)) then Written else Refused;
    steps := [Record(0, hash, Written), Execute(0, false, true), Mark(0, last), Record(1, hash, Written), Execute(1, false, true)];
    var s1 := Apply(dup, Initial, steps[0]);
    var s2 := Apply(dup, s1, steps[1]);
    var s3 := Apply(dup, s2, steps[2]);
    var s4 := Apply(dup, s3, steps[3]);
    var s5 := Apply(dup, s4, steps[4]);
    assert steps[0..] == steps;
    RunFrom(dup, Initial, steps, 0);
    RunFrom(dup, s1, steps, 1);
    RunFrom(dup, s2, steps, 2);
    RunFrom(dup, s3, steps, 3);
    RunFrom(dup, s4, steps, 4);
    assert s5.successes == [hash] + [hash];
    TimesSnoc([], hash, hash);
    TimesSnoc([hash], hash, hash);
    assert [] + [hash] == [hash];
  }

  /**
    A store that lets new hashes through allows one successful execution per hash at most, over all interleavings,
    batches, retries and failing writes, exactly when it reports pending and settled rows as duplicates.
    */
  lemma AtMostOnceIff(dup: Policy)
    requires !dup(None)
    ensures (forall steps, hash :: Times(Run(dup, Initial, steps).successes, hash) <= 1) <==> Guarded(dup)
  {
    if Guarded(dup) {
      forall steps, hash ensures Times(Run(dup, Initial, steps).successes, hash) <= 1 {
        OnceOnlyRun(dup, Initial, steps, hash);
      }
    } else {
      var steps := UnguardedPaysTwice(dup, "");
      assert Times(Run(dup, Initial, steps).successes, "") == 2;
    }
  }

  // ---------------------------------------------------------------- payments

  /** An execution that throws has not paid. */
  ghost predicate Honest(steps: seq<Step>) {
    forall i :: 0 <= i < |steps| && steps[i].Execute? && steps[i].throws ==> !steps[i].paid
  }

  lemma {:induction false} HonestRun(dup: Policy, s: State, steps: seq<Step>, hash: string)
    requires Honest(steps) && Times(s.payments, hash) <= Times(s.successes, hash)
    ensures Times(Run(dup, s, steps).payments, hash) <= Times(Run(dup, s, steps).successes, hash)
    decreases |steps|
  {
    if steps != [] {
      HonestStep(dup, s, steps[0], hash);
      HonestRun(dup, Apply(dup, s, steps[0]), steps[1..], hash);
    }
  }

  lemma HonestStep(dup: Policy, s: State, step: Step, hash: string)
    requires step.Execute? && step.throws ==> !step.paid
    requires Times(s.payments, hash) <= Times(s.successes, hash)
    ensures Times(Apply(dup, s, step).payments, hash) <= Times(Apply(dup, s, step).successes, hash)
  {
    if step.Execute? && step.w in s.workers {
      TimesSnoc(s.payments, s.workers[step.w].hash, hash);
      TimesSnoc(s.successes, s.workers[step.w].hash, hash);
    }
  }

  /** With an executor that throws only when nothing was paid, a hash is paid once at most. */
  lemma PaidAtMostOnce(dup: Policy, steps: seq<Step>, hash: string)
    requires Guarded(dup) && Honest(steps)
    ensures Times(Run(dup, Initial, steps).payments, hash) <= 1
  {
    HonestRun(dup, Initial, steps, hash);
    OnceOnlyRun(dup, Initial, steps, hash);
  }

  /** Every row makes its hash a duplicate, whatever its status. */
  ghost predicate Shut(dup: Policy) { Guarded(dup) && dup(Some(Failed)) }

  /** A hash has been paid once at most, and not yet while it has no row or while its execution is still to come. */
  ghost predicate ExecutedOnce(s: State, hash: string) {
    && Times(s.payments, hash) <= 1
    && (forall w :: Holds(s, w, hash) && s.workers[w].point.Recorded? ==> Times(s.payments, hash) == 0)
    && (hash !in s.rows ==> Times(s.payments, hash) == 0)
  }

  lemma RowIsDuplicate(dup: Policy, status: Status)
    requires Shut(dup)
    ensures dup(Some(status))
  {
    match status {
      case Pending =>
      case Settled =>
      case Failed =>
    }
  }

  lemma ExecutedOnceRecord(dup: Policy, s: State, step: Step, hash: string)
    requires Shut(dup) && ExecutedOnce(s, hash) && step.Record?
    ensures ExecutedOnce(Apply(dup, s, step), hash)
  {
    var t := Apply(dup, s, step);
    if hash in s.rows { RowIsDuplicate(dup, s.rows[hash]); }
    forall w: nat | Holds(t, w, hash) && t.workers[w].point.Recorded? ensures Times(t.payments, hash) == 0 {
      if w in s.workers { assert Holds(s, w, hash); }
    }
  }

  lemma ExecutedOnceExecute(dup: Policy, s: State, step: Step, hash: string)
    requires OneHolder(s, hash) && ExecutedOnce(s, hash) && step.Execute? && step.w in s.workers
    ensures ExecutedOnce(Apply(dup, s, step), hash)
  {
    var t := Apply(dup, s, step);
    TimesSnoc(s.payments, s.workers[step.w].hash, hash);
    if s.workers[step.w].hash == hash { assert Holds(s, step.w, hash); }
    forall w: nat | Holds(t, w, hash) && t.workers[w].point.Recorded? ensures Times(t.payments, hash) == 0 {
      assert Holds(s, w, hash);
    }
  }

  lemma ExecutedOnceMark(dup: Policy, s: State, step: Step, hash: string)
    requires ExecutedOnce(s, hash) && step.Mark?
    ensures ExecutedOnce(Apply(dup, s, step), hash)
  {
    var t := Apply(dup, s, step);
    forall w: nat | Holds(t, w, hash) && t.workers[w].point.Recorded? ensures Times(t.payments, hash) == 0 {
      assert Holds(s, w, hash);
    }
  }

  lemma ExecutedOnceStep(dup: Policy, s: State, step: Step, hash: string)
    requires Shut(dup) && OneHolder(s, hash) && ExecutedOnce(s, hash)
    ensures ExecutedOnce(Apply(dup, s, step), hash)
  {
    match step {
      case Record(_, _, _) => ExecutedOnceRecord(dup, s, step, hash);
      case Execute(w, _, _) => if w in s.workers { ExecutedOnceExecute(dup, s, step, hash); }
      case Mark(_, _) => ExecutedOnceMark(dup, s, step, hash);
    }
  }

  lemma {:induction false} ExecutedOnceRun(dup: Policy, s: State, steps: seq<Step>, hash: string)
    requires Shut(dup) && OneHolder(s, hash) && ExecutedOnce(s, hash)
    ensures ExecutedOnce(Run(dup, s, steps), hash)
    decreases |steps|
  {
    if steps != [] {
      OneHolderStep(dup, s, steps[0], hash);
      ExecutedOnceStep(dup, s, steps[0], hash);
      ExecutedOnceRun(dup, Apply(dup, s, steps[0]), steps[1..], hash);
    }
  }

  /**
    Whatever the executor does, paying and throwing included, a hash is paid once at most exactly when the store reports
    failed rows as duplicates as well.
    */
  lemma PaidOnceIff(dup: Policy)
    requires Guarded(dup) && !dup(None)
    ensures (forall steps, hash :: Times(Run(dup, Initial, steps).payments, hash) <= 1) <==> dup(Some(Failed))
  {
    if dup(Some(Failed)) {
      forall steps, hash ensures Times(Run(dup, Initial, steps).payments, hash) <= 1 {
        ExecutedOnceRun(dup, Initial, steps, hash);
      }
    } else {
      var steps := LostPaymentPaysTwice(dup, "");
      assert Times(Run(dup, Initial, steps).payments, "") == 2;
    }
  }

  /** One that pays and throws is retried, and pays again. */
  lemma LostPaymentPaysTwice(dup: Policy, hash: string) returns (steps: seq<Step>)
    requires Guarded(dup) && !dup(None) && !dup(Some(Failed))
    ensures Times(Run(dup, Initial, steps).payments, hash) == 2
  {
    steps := [Record(0, hash, Written), Execute(0, true, true), Mark(0, Written), Record(1, hash, Written), Execute(1, false, true)];
    var s1 := Apply(dup, Initial, steps[0]);
    var s2 := Apply(dup, s1, steps[1]);
    var s3 := Apply(dup, s2, steps[2]);
    var s4 := Apply(dup, s3, steps[3]);
    var s5 := Apply(dup, s4, steps[4]);
    assert steps[0..] == steps;
    RunFrom(dup, Initial, steps, 0);
    RunFrom(dup, s1, steps, 1);
    RunFrom(dup, s2, steps, 2);
    RunFrom(dup, s3, steps, 3);
    RunFrom(dup, s4, steps, 4);
    assert s5.payments == [hash] + [hash];
    TimesSnoc([], hash, hash);
    TimesSnoc([hash], hash, hash);
    assert [] + [hash] == [hash];
  }

  // ---------------------------------------------------------------- retries

  /** No processor is at work on the hash, and its row makes every new attempt a duplicate. */
  ghost predicate Stuck(dup: Policy, s: State, hash: string) {
    dup(RowOf(s.rows, hash)) && forall w :: !Holds(s, w, hash)
  }

  lemma StuckStep(dup: Policy, s: State, step: Step, hash: string)
    requires dup(Some(Pending)) && Stuck(dup, s, hash)
    ensures Stuck(dup, Apply(dup, s, step), hash)
    ensures Times(Apply(dup, s, step).successes, hash) == Times(s.successes, hash)
  {
    var t := Apply(dup, s, step);
    if step.Execute? && step.w in s.workers {
      assert !Holds(s, step.w, hash);
      TimesSnoc(s.successes, s.workers[step.w].hash, hash);
    }
    forall w ensures !Holds(t, w, hash) { assert !Holds(s, w, hash); }
    if step.Mark? && step.w in s.workers { assert !Holds(s, step.w, hash); }
  }

  /**
    A hash left with such a row is never executed again, however often it is retried:
    so it is with a pending row whose failure was not written down.
    */
  lemma {:induction false} StuckForever(dup: Policy, s: State, steps: seq<Step>, hash: string)
    requires dup(Some(Pending)) && Stuck(dup, s, hash)
    ensures Stuck(dup, Run(dup, s, steps), hash) && Times(Run(dup, s, steps).successes, hash) == Times(s.successes, hash)
    decreases |steps|
  {
    if steps != [] {
      StuckStep(dup, s, steps[0], hash);
      StuckForever(dup, Apply(dup, s, steps[0]), steps[1..], hash);
    }
  }

  lemma {:induction false} OneHolderRun(dup: Policy, s: State, steps: seq<Step>, hash: string)
    requires Guarded(dup) && OneHolder(s, hash)
    ensures OneHolder(Run(dup, s, steps), hash)
    decreases |steps|
  {
    if steps != [] {
      OneHolderStep(dup, s, steps[0], hash);
      OneHolderRun(dup, Apply(dup, s, steps[0]), steps[1..], hash);
    }
  }

  /**
    After an execution that threw, a retry executes the payout exactly when the failure was written down and the store
    lets failed rows through; otherwise no retry ever will, although the item was reported as to be retried.
    */
  lemma RetryableIff(dup: Policy, steps: seq<Step>, w: nat, write: Write, retry: nat)
    requires
      var s := Run(dup, Initial, steps);
      Guarded(dup) && w in s.workers && s.workers[w].point.Threw? && retry !in s.workers
    ensures
      var s := Run(dup, Initial, steps);
      var hash := s.workers[w].hash;
      var t := Apply(dup, s, Mark(w, write));
      && (Holds(Apply(dup, t, Record(retry, hash, Written)), retry, hash) <==> !write.Refused? && !dup(Some(Failed)))
      && (write.Refused? || dup(Some(Failed)) ==> Stuck(dup, t, hash))
  {
    var s := Run(dup, Initial, steps);
    var hash := s.workers[w].hash;
    OneHolderRun(dup, Initial, steps, hash);
    assert Holds(s, w, hash);
    var t := Apply(dup, s, Mark(w, write));
    forall v: nat ensures !Holds(t, v, hash) {
      if Holds(t, v, hash) { assert Holds(s, v, hash); }
    }
  }

  const AnyRow: Policy := (row: Option<Status>) => row.Some?

  /** The settlements table calls every hash it has a row for a duplicate: with it a failed payout is never executed again. */
  lemma TableNeverRetries(s: State, steps: seq<Step>, hash: string)
    requires hash in s.rows && forall w :: !Holds(s, w, hash)
    ensures Times(Run(AnyRow, s, steps).successes, hash) == Times(s.successes, hash)
  {
    StuckForever(AnyRow, s, steps, hash);
  }

  // ---------------------------------------------------------------- one processor alone

  /** One item processed without interruption is three steps of a run. */
  lemma ItemIsRun(dup: Policy, s: State, w: nat, item: Item, f: Fate)
    requires w !in s.workers
    ensures
      var steps := [Record(w, item.hash, f.first), Execute(w, f.throws, !f.throws), Mark(w, f.last)];
      var t := Run(dup, s, steps);
      && RowOf(t.rows, item.hash) == RowAfter(dup, RowOf(s.rows, item.hash), f)
      && t.successes == s.successes + (if Succeeds(dup, RowOf(s.rows, item.hash), f) then [item.hash] else [])
      && t.workers == s.workers
  {
    var steps := [Record(w, item.hash, f.first), Execute(w, f.throws, !f.throws), Mark(w, f.last)];
    var s1 := Apply(dup, s, steps[0]);
    var s2 := Apply(dup, s1, steps[1]);
    assert steps[0..] == steps;
    RunFrom(dup, s, steps, 0);
    RunFrom(dup, s1, steps, 1);
    RunFrom(dup, s2, steps, 2);
  }
}
