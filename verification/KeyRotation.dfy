/** Re-encryption of evidence records from retired key versions to the active one, and the wiping of retired keys. */
module KeyRotation {
  import opened Prelude

  /** An evidence record: a blob under its own data key, and that key wrapped under a key of the given version. */
  datatype Record = Record(
    id: string, blob: string, iv: string, authTag: string,
    wrappedDek: string, wrappedDekIv: string, wrappedDekAuthTag: string, version: int, shredded: bool)

  datatype Kek = Kek(version: int, key: string, active: bool)

  /** What is left of wiped key material. */
  const ZEROS := "\0\0\0\0\0\0\0\0\0\0\0\0\0\0\0\0\0\0\0\0\0\0\0\0\0\0\0\0\0\0\0\0"

  datatype Box = Box(blob: string, authTag: string)

  /** Authenticated encryption: (key, iv, text) to a box, and (key, iv, box) back. */
  datatype Cipher = Cipher(enc: (string, string, string) -> Box, dec: (string, string, Box) -> Option<string>)

  ghost predicate Sound(c: Cipher) {
    forall k, iv, m :: c.dec(k, iv, c.enc(k, iv, m)) == Some(m)
  }

  /** Authenticity: a box opens under one key at most. */
  ghost predicate Authentic(c: Cipher) {
    forall k, l, iv, jv, box :: c.dec(k, iv, box).Some? && c.dec(l, jv, box).Some? ==> k == l
  }

  /** The fresh ivs of a pass, and which updates the store accepts, by position. */
  datatype World = World(iv: nat -> string, stores: nat -> bool)

  datatype Tally = Reencrypted | Skipped | Failed

  /** One pass: the record versions it moves from and to, and its surroundings. */
  datatype Pass = Pass(from: Kek, to: Kek, w: World)

  // ---------------------------------------------------------------- one record

  predicate IsValidRecord(r: Record) {
    r.id != "" && r.blob != "" && r.iv != "" && r.authTag != ""
  }

  function OpenBlob(c: Cipher, key: string, r: Record): Option<string> {
    c.dec(key, r.iv, Box(r.blob, r.authTag))
  }

  function Unwrap(c: Cipher, key: string, r: Record): Option<string> {
    c.dec(key, r.wrappedDekIv, Box(r.wrappedDek, r.wrappedDekAuthTag))
  }

  /** The worker opens the blob with the old key itself; `None` stands for a thrown error. */
  function ReencryptRecord(c: Cipher, r: Record, from: Kek, to: Kek, iv: string): Option<Record> {
    if !IsValidRecord(r) then None
    else
      match OpenBlob(c, from.key, r)
      case None => None
      case Some(plaintext) =>
        if plaintext == "" then None
        else
          var box := c.enc(to.key, iv, plaintext);
          if box.blob == "" || box.authTag == "" then None
          else Some(r.(blob := box.blob, iv := iv, authTag := box.authTag, version := to.version))
  }

  /** What a pass makes of the record at position `i`. */
  function Moved(c: Cipher, p: Pass, i: nat, r: Record): Record {
    if r.version == p.to.version || r.version != p.from.version then r
    else
      match ReencryptRecord(c, r, p.from, p.to, p.w.iv(i))
      case Some(q) => if p.w.stores(i) then q else r
      case None => r
  }

  function TallyOf(c: Cipher, p: Pass, i: nat, r: Record): Tally {
    if r.version == p.to.version || r.version != p.from.version then Skipped
    else if ReencryptRecord(c, r, p.from, p.to, p.w.iv(i)).Some? && p.w.stores(i) then Reencrypted
    else Failed
  }

  // ---------------------------------------------------------------- one pass

  /** The store after a pass has visited its first `n` records. */
  function Visited(c: Cipher, p: Pass, rs: seq<Record>, n: nat): (after: seq<Record>)
    requires n <= |rs|
    ensures |after| == |rs|
  {
    if n == 0 then rs else Visited(c, p, rs, n - 1)[n - 1 := Moved(c, p, n - 1, rs[n - 1])]
  }

  lemma {:induction false} VisitedAt(c: Cipher, p: Pass, rs: seq<Record>, n: nat)
    requires n <= |rs|
    ensures forall i :: 0 <= i < |rs| ==> Visited(c, p, rs, n)[i] == if i < n then Moved(c, p, i, rs[i]) else rs[i]
  {
    if n > 0 { VisitedAt(c, p, rs, n - 1); }
  }

  /** How many of the first `n` records were tallied as `t`. */
  function Count(c: Cipher, p: Pass, rs: seq<Record>, n: nat, t: Tally): nat
    requires n <= |rs|
  {
    if n == 0 then 0 else Count(c, p, rs, n - 1, t) + (if TallyOf(c, p, n - 1, rs[n - 1]) == t then 1 else 0)
  }

  datatype RotationResult = RotationResult(total: nat, reencrypted: nat, skipped: nat, failed: nat, interrupted: bool)

  /** The counters of a pass that has visited `n` records. */
  ghost predicate Counts(c: Cipher, p: Pass, rs: seq<Record>, n: nat, r: RotationResult)
    requires n <= |rs|
  {
    && r.reencrypted == Count(c, p, rs, n, Reencrypted)
    && r.skipped == Count(c, p, rs, n, Skipped)
    && r.failed == Count(c, p, rs, n, Failed)
  }

  lemma {:induction false} CountsAddUp(c: Cipher, p: Pass, rs: seq<Record>, n: nat)
    requires n <= |rs|
    ensures Count(c, p, rs, n, Reencrypted) + Count(c, p, rs, n, Skipped) + Count(c, p, rs, n, Failed) == n
  {
    if n > 0 { CountsAddUp(c, p, rs, n - 1); }
  }

  ghost predicate DistinctIds(rs: seq<Record>) {
    forall i, j :: 0 <= i < j < |rs| ==> rs[i].id != rs[j].id
  }

  lemma VisitedKeepsIds(c: Cipher, p: Pass, rs: seq<Record>, n: nat)
    requires n <= |rs| && DistinctIds(rs)
    ensures DistinctIds(Visited(c, p, rs, n))
  {
    VisitedAt(c, p, rs, n);
  }

  // ---------------------------------------------------------------- the worker and the command

  datatype CommandResult = BadBatchSize | NothingToDo | DryRun | NoProgress | Interrupted | Zeroized

  function Retired(versions: seq<Kek>, current: Kek): (olds: seq<Kek>)
    ensures forall k :: k in olds <==> k in versions && !k.active && k.version < current.version
  {
    if versions == [] then []
    else if !versions[0].active && versions[0].version < current.version then [versions[0]] + Retired(versions[1..], current)
    else Retired(versions[1..], current)
  }

  function Wiped(versions: seq<Kek>): (after: seq<Kek>)
    ensures |after| == |versions|
    ensures forall i :: 0 <= i < |after| ==> after[i] == if versions[i].active then versions[i] else versions[i].(key := ZEROS)
  {
    seq(|versions|, i requires 0 <= i < |versions| => if versions[i].active then versions[i] else versions[i].(key := ZEROS))
  }

  /** The store after the first `n` passes, none of them interrupted. */
  function Passed(c: Cipher, ps: seq<Pass>, rs: seq<Record>, n: nat): (after: seq<Record>)
    requires n <= |ps|
    ensures |after| == |rs|
  {
    if n == 0 then rs
    else
      var before := Passed(c, ps, rs, n - 1);
      Visited(c, ps[n - 1], before, |before|)
  }

  /** The passes of a rotation, in order. */
  function Plan(olds: seq<Kek>, current: Kek, worlds: nat -> World): (ps: seq<Pass>)
    ensures |ps| == |olds| && forall i :: 0 <= i < |ps| ==> ps[i] == Pass(olds[i], current, worlds(i))
  {
    seq(|olds|, i requires 0 <= i < |olds| => Pass(olds[i], current, worlds(i)))
  }

  class RotationCli {
    const c: Cipher
    const batchSize: nat
    var records: seq<Record>
    var versions: seq<Kek>

    constructor (c: Cipher, batchSize: nat, records: seq<Record>, versions: seq<Kek>)
      ensures this.c == c && this.batchSize == batchSize && this.records == records && this.versions == versions
    {
      this.c, this.batchSize, this.records, this.versions := c, batchSize, records, versions;
    }

    method ListPage(offset: nat, limit: nat) returns (page: seq<Record>)
      ensures page == if offset >= |records| then [] else if offset + limit <= |records| then records[offset..offset + limit] else records[offset..]
    {
      if offset >= |records| { return []; }
      return records[offset..if offset + limit <= |records| then offset + limit else |records|];
    }

    /** A record that is there keeps its place, and a new one comes last. */
    method Update(record: Record)
      requires DistinctIds(records)
      modifies this`records
      ensures forall at :: 0 <= at < |old(records)| && old(records)[at].id == record.id ==> records == old(records)[at := record]
      ensures (forall at :: 0 <= at < |old(records)| ==> old(records)[at].id != record.id) ==> records == old(records) + [record]
    {
      var i := 0;
      while i < |records| && records[i].id != record.id
        invariant 0 <= i <= |records| && forall j :: 0 <= j < i ==> records[j].id != record.id
      {
        i := i + 1;
      }
      records := if i < |records| then records[i := record] else records + [record];
    }

    method Visit(p: Pass, i: nat) returns (tally: Tally)
      requires DistinctIds(records) && i < |records|
      modifies this`records
      ensures tally == TallyOf(c, p, i, old(records)[i]) && records == old(records)[i := Moved(c, p, i, old(records)[i])]
    {
      var record := records[i];
      if record.version == p.to.version { return Skipped; }
      if record.version != p.from.version { return Skipped; }
      if !IsValidRecord(record) { return Failed; }
      var moved := ReencryptRecord(c, record, p.from, p.to, p.w.iv(i));
      if moved.None? || !p.w.stores(i) { return Failed; }
      Update(moved.value);
      return Reencrypted;
    }

    /** The pass has visited `n` of the records `rs`, and has counted them in `r`. */
    ghost predicate At(p: Pass, rs: seq<Record>, n: nat, r: RotationResult)
      reads this`records
    {
      n <= |rs| && records == Visited(c, p, rs, n) && Counts(c, p, rs, n, r)
    }

    /** The next record, counted. */
    method VisitNext(p: Pass, ghost rs: seq<Record>, n: nat, before: RotationResult) returns (r: RotationResult)
      requires DistinctIds(rs) && n < |rs| && At(p, rs, n, before)
      modifies this`records
      ensures At(p, rs, n + 1, r) && r.total == before.total && r.interrupted == before.interrupted
    {
      VisitedKeepsIds(c, p, rs, n);
      VisitedAt(c, p, rs, n);
      var tally := Visit(p, n);
      assert records == Visited(c, p, rs, n + 1);
      match tally {
        case Reencrypted => r := before.(reencrypted := before.reencrypted + 1);
        case Skipped => r := before.(skipped := before.skipped + 1);
        case Failed => r := before.(failed := before.failed + 1);
      }
    }

    /** One page, until the signal is raised. */
    method RunPage(p: Pass, ghost rs: seq<Record>, offset: nat, size: nat, before: RotationResult, aborted: nat -> bool, poll: nat)
      returns (r: RotationResult, polls: nat, ghost visited: nat)
      requires DistinctIds(rs) && offset + size <= |rs| && At(p, rs, offset, before) && !before.interrupted
      modifies this`records
      ensures At(p, rs, visited, r) && r.total == before.total
      ensures if r.interrupted then aborted(polls) else visited == offset + size
    {
      r, polls, visited := before, poll, offset;
      var j := 0;
      while j < size
        invariant 0 <= j <= size && visited == offset + j && !r.interrupted && r.total == before.total
        invariant At(p, rs, visited, r) == true
      {
        if aborted(polls) {
          r := r.(interrupted := true);
          return;
        }
        polls := polls + 1;
        r := VisitNext(p, rs, offset + j, r);
        j, visited := j + 1, visited + 1;
      }
    }

    /** The pass over the whole store, page by page. */
    method Run(p: Pass, aborted: nat -> bool) returns (r: RotationResult, ghost visited: nat)
      requires DistinctIds(records)
      modifies this`records
      ensures At(p, old(records), visited, r) && r.total == |old(records)|
      ensures !r.interrupted && batchSize > 0 ==> visited == |old(records)|
      ensures r.interrupted ==> exists k :: aborted(k)
    {
      ghost var rs := records;
      r := RotationResult(|records|, 0, 0, 0, false);
      visited := 0;
      var offset, polls := 0, 0;
      assert records == Visited(c, p, rs, 0);
      while true
        invariant 0 <= offset && visited == (if offset < |rs| then offset else |rs|) && r.total == |rs| && !r.interrupted
        invariant At(p, rs, visited, r) == true && |records| == |rs|
        decreases |rs| - visited
      {
        if aborted(polls) {
          r := r.(interrupted := true);
          return;
        }
        polls := polls + 1;
        var page := ListPage(offset, batchSize);
        if |page| == 0 { return; }
        r, polls, visited := RunPage(p, rs, offset, |page|, r, aborted, polls);
        if r.interrupted { return; }
        offset := offset + batchSize;
      }
    }

    /** Every pass in turn; retired keys are wiped at the end unless the signal has been raised. */
    method CmdRotate(current: Kek, dryRun: bool, worlds: nat -> World, signals: nat -> nat -> bool, raised: bool)
      returns (result: CommandResult)
      requires DistinctIds(records)
      requires forall p, k :: signals(p)(k) ==> raised
      modifies this
      ensures var ps := Plan(Retired(old(versions), current), current, worlds);
        && (result.Zeroized? ==>
             && records == Passed(c, ps, old(records), |ps|)
             && versions == Wiped(old(versions))
             && (forall p :: 0 <= p < |ps| ==> !NoProgressIn(c, ps, old(records), p)))
        && (!result.Zeroized? ==> versions == old(versions))
        && (result.BadBatchSize? || result.NothingToDo? || result.DryRun? ==> records == old(records))
        && (result.NoProgress? || result.Interrupted? ==> StoppedIn(c, ps, old(records), records))
        && (result.BadBatchSize? <==> batchSize < 1)
        && (result.NothingToDo? <==> batchSize >= 1 && ps == [])
        && (result.DryRun? <==> batchSize >= 1 && ps != [] && dryRun)
        && (result.Zeroized? ==> !raised)
        && (result.Interrupted? ==> raised)
        && (result.NoProgress? && !raised ==> exists p :: 0 <= p < |ps| && NoProgressIn(c, ps, old(records), p))
    {
      if batchSize < 1 { return BadBatchSize; }
      var oldVersions := Retired(versions, current);
      if |oldVersions| == 0 { return NothingToDo; }
      if dryRun { return DryRun; }
      var ps := Plan(oldVersions, current, worlds);
      var progress := RunPasses(ps, signals);
      if !progress { return NoProgress; }
      if !raised {
        versions := Wiped(versions);
        return Zeroized;
      }
      return Interrupted;
    }

    /** The first `n` passes are over, and none of them was without progress. */
    ghost predicate Through(ps: seq<Pass>, rs: seq<Record>, n: nat)
      reads this`records
    {
      && n <= |ps|
      && records == Passed(c, ps, rs, n)
      && forall p :: 0 <= p < n ==> !NoProgressIn(c, ps, rs, p)
    }

    /** A pass without progress throws, and an interrupted one is the last. */
    method RunPasses(ps: seq<Pass>, signals: nat -> nat -> bool) returns (progress: bool)
      requires DistinctIds(records) && batchSize >= 1 && ps != []
      modifies this`records
      ensures StoppedIn(c, ps, old(records), records)
      ensures progress ==> Through(ps, old(records), |ps|) || exists p, k :: signals(p)(k)
      ensures !progress ==>
        (exists p :: 0 <= p < |ps| && NoProgressIn(c, ps, old(records), p)) || exists p, k :: signals(p)(k)
    {
      ghost var rs := records;
      var p := 0;
      while p < |ps|
        invariant 0 <= p <= |ps| && Through(ps, rs, p) == true && DistinctIds(records) == true
      {
        ghost var before := records;
        var r, visited := Run(ps[p], signals(p));
        assert StoppedAt(c, ps, rs, p, visited, records);
        assert !r.interrupted && r.failed > 0 && r.reencrypted == 0 ==> NoProgressIn(c, ps, rs, p);
        if r.failed > 0 && r.reencrypted == 0 { return false; }
        if r.interrupted { return true; }
        VisitedKeepsIds(c, ps[p], before, |before|);
        p := p + 1;
      }
      assert StoppedAt(c, ps, rs, |ps| - 1, |rs|, records);
      return true;
    }
  }

  /** The passes before `p` are over, and pass `p` has visited `n` records. */
  ghost predicate StoppedAt(c: Cipher, ps: seq<Pass>, rs: seq<Record>, p: nat, n: nat, after: seq<Record>) {
    p < |ps| && n <= |rs| && after == Visited(c, ps[p], Passed(c, ps, rs, p), n)
  }

  ghost predicate StoppedIn(c: Cipher, ps: seq<Pass>, rs: seq<Record>, after: seq<Record>) {
    exists p, n :: StoppedAt(c, ps, rs, p, n, after)
  }

  /** Pass `p` of an uninterrupted rotation fails on some record and re-encrypts none. */
  ghost predicate NoProgressIn(c: Cipher, ps: seq<Pass>, rs: seq<Record>, p: nat)
    requires p < |ps|
  {
    FailuresIn(c, ps, rs, p) > 0 && Count(c, ps[p], Passed(c, ps, rs, p), |rs|, Reencrypted) == 0
  }

  ghost function FailuresIn(c: Cipher, ps: seq<Pass>, rs: seq<Record>, p: nat): nat
    requires p < |ps|
  {
    Count(c, ps[p], Passed(c, ps, rs, p), |rs|, Failed)
  }

  // ---------------------------------------------------------------- what a reader gets

  function Lookup(versions: seq<Kek>, version: int): Option<Kek> {
    if versions == [] then None else if versions[0].version == version then Some(versions[0]) else Lookup(versions[1..], version)
  }

  /** The registered versions, and the secret that stands in for a version that is not registered. */
  datatype KeyRing = KeyRing(versions: seq<Kek>, secret: Option<string>)

  function KeyFor(ring: KeyRing, version: int): Option<string> {
    var kek := Lookup(ring.versions, version);
    if kek.Some? then Some(kek.value.key) else ring.secret
  }

  /** The data key of a record, unwrapped with the key of its version. */
  function DataKey(c: Cipher, ring: KeyRing, r: Record): Option<string> {
    var kek := KeyFor(ring, r.version);
    if kek.None? then None else Unwrap(c, kek.value, r)
  }

  /** What a reader gets: the blob opened with the unwrapped data key. */
  function RetrieveEvidence(c: Cipher, ring: KeyRing, r: Record): Option<string> {
    if r.shredded then None
    else
      var dek := DataKey(c, ring, r);
      if dek.None? then None else OpenBlob(c, dek.value, r)
  }

  /** What an upload stores. */
  function UploadEvidence(
    c: Cipher, kek: Kek, id: string, rawData: string, dek: string, dataIv: string, wrapIv: string): Record
  {
    var data := c.enc(dek, dataIv, rawData);
    var wrapped := c.enc(kek.key, wrapIv, dek);
    Record(id, data.blob, dataIv, data.authTag, wrapped.blob, wrapIv, wrapped.authTag, kek.version, false)
  }

  /** What was uploaded is read back while its key version is in the ring. */
  lemma UploadIsRead(
    c: Cipher, ring: KeyRing, kek: Kek, id: string, rawData: string, dek: string, dataIv: string, wrapIv: string)
    requires Sound(c) && KeyFor(ring, kek.version) == Some(kek.key)
    ensures var r := UploadEvidence(c, kek, id, rawData, dek, dataIv, wrapIv);
      DataKey(c, ring, r) == Some(dek) && RetrieveEvidence(c, ring, r) == Some(rawData)
  {
    var data := c.enc(dek, dataIv, rawData);
    var wrapped := c.enc(kek.key, wrapIv, dek);
    assert Box(data.blob, data.authTag) == data && Box(wrapped.blob, wrapped.authTag) == wrapped;
  }

  /** The two keys of a pass are the registered ones. */
  ghost predicate Registered(versions: seq<Kek>, p: Pass) {
    Lookup(versions, p.from.version) == Some(p.from) && Lookup(versions, p.to.version) == Some(p.to)
  }

  /** A readable record is moved only when its data key is the old key itself. */
  lemma MovedNeedsKekAsDataKey(c: Cipher, ring: KeyRing, p: Pass, i: nat, r: Record)
    requires Authentic(c) && Registered(ring.versions, p) && RetrieveEvidence(c, ring, r).Some?
    requires TallyOf(c, p, i, r) == Reencrypted
    ensures DataKey(c, ring, r) == Some(p.from.key)
  {
  }

  /** The moved record keeps its wrapped key, which opens under the old key only. */
  lemma MovedReadIff(c: Cipher, ring: KeyRing, after: KeyRing, p: Pass, i: nat, r: Record)
    requires Sound(c) && Authentic(c) && Registered(ring.versions, p) && RetrieveEvidence(c, ring, r).Some?
    requires TallyOf(c, p, i, r) == Reencrypted && KeyFor(after, p.to.version) == Some(p.to.key)
    ensures RetrieveEvidence(c, after, Moved(c, p, i, r)) == RetrieveEvidence(c, ring, r) <==> p.to.key == p.from.key
  {
    MovedNeedsKekAsDataKey(c, ring, p, i, r);
    var q := Moved(c, p, i, r);
    var text := OpenBlob(c, p.from.key, r).value;
    var box := c.enc(p.to.key, p.w.iv(i), text);
    assert Box(q.blob, q.authTag) == box && c.dec(p.to.key, p.w.iv(i), box) == Some(text);
    assert Unwrap(c, p.from.key, q).Some?;
    if p.to.key != p.from.key { assert Unwrap(c, p.to.key, q).None?; }
  }

  /**
    The pass moves a readable record: it is on the old version, well formed, with a text, under the old key as its own
    data key, and neither the cipher nor the store stands in the way.
    */
  ghost predicate Movable(c: Cipher, ring: KeyRing, p: Pass, i: nat, r: Record)
    requires RetrieveEvidence(c, ring, r).Some?
  {
    var text := RetrieveEvidence(c, ring, r).value;
    var box := c.enc(p.to.key, p.w.iv(i), text);
    && r.version == p.from.version && r.version != p.to.version
    && DataKey(c, ring, r) == Some(p.from.key)
    && r.id != "" && r.blob != "" && r.iv != "" && r.authTag != "" && text != "" && box.blob != "" && box.authTag != ""
    && p.w.stores(i)
  }

  lemma MovedIff(c: Cipher, ring: KeyRing, p: Pass, i: nat, r: Record)
    requires Authentic(c) && Registered(ring.versions, p) && RetrieveEvidence(c, ring, r).Some?
    ensures TallyOf(c, p, i, r) == Reencrypted <==> Movable(c, ring, p, i, r)
  {
    if TallyOf(c, p, i, r) == Reencrypted { MovedNeedsKekAsDataKey(c, ring, p, i, r); }
  }

  /** One pass leaves a readable record readable exactly when it does not move it, or moves it to the same key. */
  lemma PassKeepsReadableIff(c: Cipher, ring: KeyRing, p: Pass, i: nat, r: Record)
    requires Sound(c) && Authentic(c) && Registered(ring.versions, p) && RetrieveEvidence(c, ring, r).Some?
    ensures RetrieveEvidence(c, ring, Moved(c, p, i, r)) == RetrieveEvidence(c, ring, r)
      <==> !Movable(c, ring, p, i, r) || p.to.key == p.from.key
  {
    MovedIff(c, ring, p, i, r);
    if TallyOf(c, p, i, r) == Reencrypted { MovedReadIff(c, ring, ring, p, i, r); }
  }

  /** An uploaded record, with a data key of its own, is never moved: on the old version it fails, elsewhere it is skipped. */
  lemma UploadIsNotMoved(c: Cipher, ring: KeyRing, p: Pass, i: nat, r: Record)
    requires Authentic(c) && Registered(ring.versions, p) && RetrieveEvidence(c, ring, r).Some?
    requires DataKey(c, ring, r) != Some(p.from.key)
    ensures Moved(c, p, i, r) == r
    ensures TallyOf(c, p, i, r) == if r.version == p.from.version && r.version != p.to.version then Failed else Skipped
  {
    if TallyOf(c, p, i, r) == Reencrypted {
      MovedNeedsKekAsDataKey(c, ring, p, i, r);
      assert false;
    }
  }

  /** What the worker itself preserves: the blob as opened directly with the key of the record's version. */
  function BlobText(c: Cipher, versions: seq<Kek>, r: Record): Option<string> {
    match Lookup(versions, r.version)
    case None => None
    case Some(kek) => OpenBlob(c, kek.key, r)
  }

  /** Wherever a pass stops, every blob opens as before under the key of its record's version. */
  lemma PassKeepsBlobText(c: Cipher, versions: seq<Kek>, p: Pass, rs: seq<Record>, n: nat, i: nat)
    requires Sound(c) && Registered(versions, p) && n <= |rs| && i < |rs|
    ensures var after := Visited(c, p, rs, n);
      BlobText(c, versions, after[i]) == BlobText(c, versions, rs[i]) && after[i].id == rs[i].id
  {
    var r, q := rs[i], Visited(c, p, rs, n)[i];
    VisitedAt(c, p, rs, n);
    if q != r {
      var text := OpenBlob(c, p.from.key, r).value;
      var box := c.enc(p.to.key, p.w.iv(i), text);
      assert Box(q.blob, q.authTag) == box && c.dec(p.to.key, p.w.iv(i), box) == Some(text);
    }
  }

  // ---------------------------------------------------------------- counters

  lemma {:induction false} CountZeroIff(c: Cipher, p: Pass, rs: seq<Record>, n: nat, t: Tally)
    requires n <= |rs|
    ensures Count(c, p, rs, n, t) == 0 <==> forall i :: 0 <= i < n ==> TallyOf(c, p, i, rs[i]) != t
  {
    if n > 0 { CountZeroIff(c, p, rs, n - 1, t); }
  }

  /** After a whole pass without a failure, doing it again finds nothing to do. */
  lemma RerunIsIdle(c: Cipher, p: Pass, rs: seq<Record>, again: World, n: nat)
    requires Count(c, p, rs, |rs|, Failed) == 0 && n <= |rs| && p.from.version != p.to.version
    ensures
      var after := Visited(c, p, rs, |rs|);
      var q := p.(w := again);
      && Visited(c, q, after, n) == after
      && Count(c, q, after, n, Reencrypted) == 0 && Count(c, q, after, n, Failed) == 0
  {
    var after := Visited(c, p, rs, |rs|);
    var q := p.(w := again);
    CountZeroIff(c, p, rs, |rs|, Failed);
    VisitedAt(c, p, rs, |rs|);
    VisitedAt(c, q, after, n);
    forall i | 0 <= i < |rs| ensures after[i].version != p.from.version {
      assert TallyOf(c, p, i, rs[i]) != Failed;
    }
    CountZeroIff(c, q, after, n, Reencrypted);
    CountZeroIff(c, q, after, n, Failed);
  }

  // ---------------------------------------------------------------- zeroizing

  /** The passes go to one version, each from a different other one. */
  ghost predicate Planned(ps: seq<Pass>, target: int) {
    && (forall p :: 0 <= p < |ps| ==> ps[p].to.version == target && ps[p].from.version != target)
    && (forall p, q :: 0 <= p < q < |ps| ==> ps[p].from.version != ps[q].from.version)
  }

  ghost predicate Covered(ps: seq<Pass>, target: int, version: int) {
    version == target || exists p :: 0 <= p < |ps| && ps[p].from.version == version
  }

  lemma PassedNext(c: Cipher, ps: seq<Pass>, rs: seq<Record>, n: nat, i: nat)
    requires n < |ps| && i < |rs|
    ensures Passed(c, ps, rs, n + 1)[i] == Moved(c, ps[n], i, Passed(c, ps, rs, n)[i])
  {
    VisitedAt(c, ps[n], Passed(c, ps, rs, n), |rs|);
  }

  /** A record is as it was, or on the target version. */
  lemma {:induction false} SameOrMoved(c: Cipher, ps: seq<Pass>, target: int, rs: seq<Record>, n: nat, i: nat)
    requires Planned(ps, target) && n <= |ps| && i < |rs|
    ensures Passed(c, ps, rs, n)[i] == rs[i] || Passed(c, ps, rs, n)[i].version == target
  {
    if n > 0 {
      SameOrMoved(c, ps, target, rs, n - 1, i);
      PassedNext(c, ps, rs, n - 1, i);
    }
  }

  lemma {:induction false} StaysOnTarget(c: Cipher, ps: seq<Pass>, target: int, rs: seq<Record>, m: nat, n: nat, i: nat)
    requires Planned(ps, target) && m <= n <= |ps| && i < |rs| && Passed(c, ps, rs, m)[i].version == target
    ensures Passed(c, ps, rs, n)[i].version == target
    decreases n
  {
    if m < n {
      StaysOnTarget(c, ps, target, rs, m, n - 1, i);
      PassedNext(c, ps, rs, n - 1, i);
    }
  }

  /** A record that no later pass is about stays as it is. */
  lemma {:induction false} LeftAlone(c: Cipher, ps: seq<Pass>, rs: seq<Record>, m: nat, n: nat, i: nat)
    requires m <= n <= |ps| && i < |rs|
    requires forall p :: m <= p < n ==> ps[p].from.version != Passed(c, ps, rs, m)[i].version
    ensures Passed(c, ps, rs, n)[i] == Passed(c, ps, rs, m)[i]
    decreases n
  {
    if m < n {
      LeftAlone(c, ps, rs, m, n - 1, i);
      PassedNext(c, ps, rs, n - 1, i);
    }
  }

  ghost predicate Clean(c: Cipher, ps: seq<Pass>, target: int, rs: seq<Record>) {
    && (forall i :: 0 <= i < |rs| ==> Covered(ps, target, rs[i].version))
    && (forall p :: 0 <= p < |ps| ==> FailuresIn(c, ps, rs, p) == 0)
  }

  /** The pass over a record's own version, when nothing fails in it, takes the record to the target. */
  lemma OwnPassMoves(c: Cipher, ps: seq<Pass>, target: int, rs: seq<Record>, p: nat, i: nat)
    requires Planned(ps, target) && p < |ps| && FailuresIn(c, ps, rs, p) == 0
    requires i < |rs| && ps[p].from.version == rs[i].version
    ensures Passed(c, ps, rs, p + 1)[i].version == target
  {
    var before := Passed(c, ps, rs, p);
    SameOrMoved(c, ps, target, rs, p, i);
    CountZeroIff(c, ps[p], before, |rs|, Failed);
    assert TallyOf(c, ps[p], i, before[i]) != Failed;
    PassedNext(c, ps, rs, p, i);
  }

  lemma CleanArrives(c: Cipher, ps: seq<Pass>, target: int, rs: seq<Record>, i: nat)
    requires Planned(ps, target) && Clean(c, ps, target, rs) && i < |rs|
    ensures Passed(c, ps, rs, |ps|)[i].version == target
  {
    if rs[i].version == target {
      StaysOnTarget(c, ps, target, rs, 0, |ps|, i);
    } else {
      assert Covered(ps, target, rs[i].version);
      var p :| 0 <= p < |ps| && ps[p].from.version == rs[i].version;
      OwnPassMoves(c, ps, target, rs, p, i);
      StaysOnTarget(c, ps, target, rs, p + 1, |ps|, i);
    }
  }

  lemma FailedOne(c: Cipher, p: Pass, rs: seq<Record>) returns (i: nat)
    requires Count(c, p, rs, |rs|, Failed) > 0
    ensures i < |rs| && rs[i].version == p.from.version && rs[i].version != p.to.version && Moved(c, p, i, rs[i]) == rs[i]
  {
    CountZeroIff(c, p, rs, |rs|, Failed);
    i :| 0 <= i < |rs| && TallyOf(c, p, i, rs[i]) == Failed;
  }

  lemma FailureStays(c: Cipher, ps: seq<Pass>, target: int, rs: seq<Record>, p: nat) returns (i: nat)
    requires Planned(ps, target) && p < |ps| && FailuresIn(c, ps, rs, p) > 0
    ensures i < |rs| && Passed(c, ps, rs, |ps|)[i].version != target
  {
    i := FailedOne(c, ps[p], Passed(c, ps, rs, p));
    PassedNext(c, ps, rs, p, i);
    LeftAlone(c, ps, rs, p + 1, |ps|, i);
  }

  /** All records reach the target exactly when each started on a rotated version or on it, and no pass failed. */
  lemma AllArriveIff(c: Cipher, ps: seq<Pass>, target: int, rs: seq<Record>)
    requires Planned(ps, target)
    ensures (forall i :: 0 <= i < |rs| ==> Passed(c, ps, rs, |ps|)[i].version == target) <==> Clean(c, ps, target, rs)
  {
    if Clean(c, ps, target, rs) {
      forall i | 0 <= i < |rs| ensures Passed(c, ps, rs, |ps|)[i].version == target { CleanArrives(c, ps, target, rs, i); }
    } else if i :| 0 <= i < |rs| && !Covered(ps, target, rs[i].version) {
      LeftAlone(c, ps, rs, 0, |ps|, i);
    } else {
      var p :| 0 <= p < |ps| && FailuresIn(c, ps, rs, p) != 0;
      var i := FailureStays(c, ps, target, rs, p);
    }
  }

  /** The versions of a key manager: distinct, with one active. */
  ghost predicate OneActive(versions: seq<Kek>, current: Kek) {
    && current in versions && current.active
    && (forall k :: k in versions && k.active ==> k == current)
    && DistinctVersions(versions)
  }

  lemma {:induction false} LookupFinds(versions: seq<Kek>, i: nat)
    requires i < |versions| && forall j :: 0 <= j < i ==> versions[j].version != versions[i].version
    ensures Lookup(versions, versions[i].version) == Some(versions[i])
    decreases |versions|
  {
    if i > 0 { LookupFinds(versions[1..], i - 1); }
  }

  lemma {:induction false} LookupSound(versions: seq<Kek>, version: int)
    ensures Lookup(versions, version).Some? ==> Lookup(versions, version).value in versions && Lookup(versions, version).value.version == version
    decreases |versions|
  {
    if versions != [] { LookupSound(versions[1..], version); }
  }

  /** After the wipe only the active version still names its key. */
  lemma WipedKeys(ring: KeyRing, current: Kek, version: int)
    requires OneActive(ring.versions, current)
    ensures Lookup(ring.versions, version).None? <==> Lookup(Wiped(ring.versions), version).None?
    ensures KeyFor(ring.(versions := Wiped(ring.versions)), version) ==
      if version == current.version then Some(current.key)
      else if Lookup(ring.versions, version).Some? then Some(ZEROS) else ring.secret
  {
    var versions, wiped := ring.versions, Wiped(ring.versions);
    var j :| 0 <= j < |versions| && versions[j] == current;
    if version == current.version {
      LookupFinds(versions, j);
      assert wiped[j] == versions[j];
      LookupFinds(wiped, j);
    } else {
      WipedLookup(versions, version);
      LookupSound(versions, version);
    }
  }

  lemma {:induction false} WipedLookup(versions: seq<Kek>, version: int)
    ensures Lookup(Wiped(versions), version)
      == match Lookup(versions, version) { case None => None case Some(k) => Some(if k.active then k else k.(key := ZEROS)) }
    decreases |versions|
  {
    if versions != [] {
      WipedLookup(versions[1..], version);
      assert Wiped(versions)[1..] == Wiped(versions[1..]);
    }
  }

  /** A record goes through the passes unchanged, or one of them moves it, once. */
  ghost predicate Fate(c: Cipher, ps: seq<Pass>, i: nat, r: Record, q: Record) {
    q == r || exists p :: MovedBy(c, ps, i, r, q, p)
  }

  ghost predicate MovedBy(c: Cipher, ps: seq<Pass>, i: nat, r: Record, q: Record, p: nat) {
    p < |ps| && TallyOf(c, ps[p], i, r) == Reencrypted && q == Moved(c, ps[p], i, r)
  }

  lemma {:induction false} MovedAtMostOnce(c: Cipher, ps: seq<Pass>, target: int, rs: seq<Record>, n: nat, i: nat)
    requires Planned(ps, target) && n <= |ps| && i < |rs|
    ensures Fate(c, ps, i, rs[i], Passed(c, ps, rs, n)[i])
  {
    if n > 0 {
      MovedAtMostOnce(c, ps, target, rs, n - 1, i);
      PassedNext(c, ps, rs, n - 1, i);
      FateNext(c, ps, target, i, rs[i], Passed(c, ps, rs, n - 1)[i], n - 1);
    }
  }

  lemma FateNext(c: Cipher, ps: seq<Pass>, target: int, i: nat, r: Record, q: Record, n: nat)
    requires Planned(ps, target) && Fate(c, ps, i, r, q) && n < |ps|
    ensures Fate(c, ps, i, r, Moved(c, ps[n], i, q))
  {
    if q == r {
      assert Moved(c, ps[n], i, q) == r || MovedBy(c, ps, i, r, Moved(c, ps[n], i, q), n);
    }
  }

  /** The passes and keys of a command, and the ring it leaves behind. */
  ghost predicate Command(ring: KeyRing, current: Kek, ps: seq<Pass>) {
    && OneActive(ring.versions, current)
    && Planned(ps, current.version)
    && forall p :: 0 <= p < |ps| ==> Registered(ring.versions, ps[p]) && ps[p].to == current
  }

  /**
    After all passes and the wipe a record is read as before exactly when the key its version then names
    is the one its data key was wrapped under.
    */
  lemma WipeKeepsReadableIff(c: Cipher, ring: KeyRing, current: Kek, ps: seq<Pass>, rs: seq<Record>, i: nat)
    requires Sound(c) && Authentic(c) && Command(ring, current, ps)
    requires i < |rs| && RetrieveEvidence(c, ring, rs[i]).Some?
    ensures
      var after, wiped := Passed(c, ps, rs, |ps|), ring.(versions := Wiped(ring.versions));
      RetrieveEvidence(c, wiped, after[i]) == RetrieveEvidence(c, ring, rs[i])
      <==> KeyFor(wiped, after[i].version) == KeyFor(ring, rs[i].version)
  {
    MovedAtMostOnce(c, ps, current.version, rs, |ps|, i);
    FateDecides(c, ring, current, ps, i, rs[i], Passed(c, ps, rs, |ps|)[i]);
  }

  lemma FateDecides(c: Cipher, ring: KeyRing, current: Kek, ps: seq<Pass>, i: nat, r: Record, q: Record)
    requires Sound(c) && Authentic(c) && Command(ring, current, ps)
    requires RetrieveEvidence(c, ring, r).Some? && Fate(c, ps, i, r, q)
    ensures var wiped := ring.(versions := Wiped(ring.versions));
      RetrieveEvidence(c, wiped, q) == RetrieveEvidence(c, ring, r) <==> KeyFor(wiped, q.version) == KeyFor(ring, r.version)
  {
    if q == r {
      SameKeyReads(c, ring, ring.(versions := Wiped(ring.versions)), r);
    } else {
      var p: nat :| MovedBy(c, ps, i, r, q, p);
      MovedSurvivesIff(c, ring, current, ps[p], i, r);
    }
  }

  lemma MovedSurvivesIff(c: Cipher, ring: KeyRing, current: Kek, p: Pass, i: nat, r: Record)
    requires Sound(c) && Authentic(c) && OneActive(ring.versions, current) && Registered(ring.versions, p) && p.to == current
    requires RetrieveEvidence(c, ring, r).Some? && TallyOf(c, p, i, r) == Reencrypted
    ensures
      var wiped, q := ring.(versions := Wiped(ring.versions)), Moved(c, p, i, r);
      RetrieveEvidence(c, wiped, q) == RetrieveEvidence(c, ring, r) <==> KeyFor(wiped, q.version) == KeyFor(ring, r.version)
  {
    WipedKeys(ring, current, current.version);
    MovedReadIff(c, ring, ring.(versions := Wiped(ring.versions)), p, i, r);
    assert r.version == p.from.version && Moved(c, p, i, r).version == current.version;
  }

  lemma SameKeyReads(c: Cipher, ring: KeyRing, other: KeyRing, r: Record)
    requires Authentic(c) && RetrieveEvidence(c, ring, r).Some?
    ensures RetrieveEvidence(c, other, r) == RetrieveEvidence(c, ring, r) <==> KeyFor(other, r.version) == KeyFor(ring, r.version)
  {
    var k, l := KeyFor(ring, r.version), KeyFor(other, r.version);
    if l.Some? && l != k { assert Unwrap(c, l.value, r).None?; }
  }

  /** The key material of a version is its own, and none of it is zeros. */
  ghost predicate OwnMaterial(versions: seq<Kek>, current: Kek) {
    forall k :: k in versions && k != current ==> k.key != current.key && k.key != ZEROS
  }

  /**
    So a readable record survives a completed command exactly when it did not need it: when it was on the active version
    already, or on one that is not registered.  Every record on a retired version is lost, moved or not.
    */
  lemma SurvivesIffNotRetired(c: Cipher, ring: KeyRing, current: Kek, ps: seq<Pass>, rs: seq<Record>, i: nat)
    requires Sound(c) && Authentic(c) && Command(ring, current, ps) && OwnMaterial(ring.versions, current)
    requires i < |rs| && RetrieveEvidence(c, ring, rs[i]).Some?
    ensures
      var after, wiped := Passed(c, ps, rs, |ps|), ring.(versions := Wiped(ring.versions));
      RetrieveEvidence(c, wiped, after[i]) == RetrieveEvidence(c, ring, rs[i])
      <==> rs[i].version == current.version || Lookup(ring.versions, rs[i].version).None?
  {
    var after := Passed(c, ps, rs, |ps|);
    var version := rs[i].version;
    WipeKeepsReadableIff(c, ring, current, ps, rs, i);
    SameOrMoved(c, ps, current.version, rs, |ps|, i);
    WipedKeys(ring, current, after[i].version);
    LookupSound(ring.versions, version);
    CurrentIsFound(ring.versions, current);
    if version == current.version || Lookup(ring.versions, version).None? {
      NotRotatedStays(c, ring, current, ps, rs, i);
    }
  }

  lemma CurrentIsFound(versions: seq<Kek>, current: Kek)
    requires OneActive(versions, current)
    ensures Lookup(versions, current.version) == Some(current)
  {
    var j :| 0 <= j < |versions| && versions[j] == current;
    LookupFinds(versions, j);
  }

  lemma NotRotatedStays(c: Cipher, ring: KeyRing, current: Kek, ps: seq<Pass>, rs: seq<Record>, i: nat)
    requires Command(ring, current, ps) && i < |rs|
    requires rs[i].version == current.version || Lookup(ring.versions, rs[i].version).None?
    ensures Passed(c, ps, rs, |ps|)[i] == rs[i]
  {
    forall p | 0 <= p < |ps| ensures ps[p].from.version != rs[i].version { assert Registered(ring.versions, ps[p]); }
    LeftAlone(c, ps, rs, 0, |ps|, i);
  }

  // ---------------------------------------------------------------- a store of uploads

  /** Every record is readable, and its data key is none of the keys that the passes move from. */
  ghost predicate Uploads(c: Cipher, ring: KeyRing, ps: seq<Pass>, rs: seq<Record>) {
    forall i, p :: 0 <= i < |rs| && 0 <= p < |ps| ==>
      RetrieveEvidence(c, ring, rs[i]).Some? && DataKey(c, ring, rs[i]) != Some(ps[p].from.key)
  }

  lemma {:induction false} UploadsStay(c: Cipher, ring: KeyRing, current: Kek, ps: seq<Pass>, rs: seq<Record>, n: nat)
    requires Authentic(c) && Command(ring, current, ps) && Uploads(c, ring, ps, rs) && n <= |ps|
    ensures Passed(c, ps, rs, n) == rs
  {
    if n > 0 {
      UploadsStay(c, ring, current, ps, rs, n - 1);
      forall i | 0 <= i < |rs| ensures Passed(c, ps, rs, n)[i] == rs[i] {
        PassedNext(c, ps, rs, n - 1, i);
        UploadIsNotMoved(c, ring, ps[n - 1], i, rs[i]);
      }
    }
  }

  /** On such a store a pass that finds a record of its version makes no progress, and so no pass changes anything. */
  lemma UploadsStopRotation(c: Cipher, ring: KeyRing, current: Kek, ps: seq<Pass>, rs: seq<Record>, p: nat)
    requires Authentic(c) && Command(ring, current, ps) && Uploads(c, ring, ps, rs) && p < |ps|
    ensures Passed(c, ps, rs, |ps|) == rs
    ensures NoProgressIn(c, ps, rs, p) <==> exists i :: 0 <= i < |rs| && rs[i].version == ps[p].from.version
  {
    UploadsStay(c, ring, current, ps, rs, |ps|);
    UploadsStay(c, ring, current, ps, rs, p);
    forall i | 0 <= i < |rs|
      ensures TallyOf(c, ps[p], i, rs[i]) == if rs[i].version == ps[p].from.version then Failed else Skipped
    {
      UploadIsNotMoved(c, ring, ps[p], i, rs[i]);
    }
    CountZeroIff(c, ps[p], rs, |rs|, Reencrypted);
    CountZeroIff(c, ps[p], rs, |rs|, Failed);
  }

  ghost predicate DistinctVersions(versions: seq<Kek>) {
    forall i, j :: 0 <= i < j < |versions| ==> versions[i].version != versions[j].version
  }

  lemma {:induction false} RetiredDistinct(versions: seq<Kek>, current: Kek)
    requires DistinctVersions(versions)
    ensures DistinctVersions(Retired(versions, current))
    decreases |versions|
  {
    if versions != [] {
      var rest := Retired(versions[1..], current);
      RetiredDistinct(versions[1..], current);
      forall k | k in rest ensures k.version != versions[0].version {
        assert k in versions[1..];
      }
    }
  }

  /** The passes of the command are over registered keys, and no version comes up twice. */
  lemma CommandPlan(ring: KeyRing, current: Kek, worlds: nat -> World)
    requires OneActive(ring.versions, current)
    ensures Command(ring, current, Plan(Retired(ring.versions, current), current, worlds))
  {
    var versions := ring.versions;
    var olds := Retired(versions, current);
    RetiredDistinct(versions, current);
    forall k | k in versions ensures Lookup(versions, k.version) == Some(k) {
      var i :| 0 <= i < |versions| && versions[i] == k;
      LookupFinds(versions, i);
    }
    forall p | 0 <= p < |olds| ensures olds[p] in versions && olds[p].version < current.version {
      assert olds[p] in olds;
    }
  }

  /** An uploaded record on a retired version above the active one is in no pass, and the wipe takes its key. */
  lemma UploadedRecordLost(c: Cipher, k1: string, k2: string, k3: string, w: World, rawData: string, dek: string)
    returns (ring: KeyRing, current: Kek, ps: seq<Pass>, r: Record)
    requires Sound(c) && Authentic(c) && k3 != ZEROS
    ensures OneActive(ring.versions, current) && ps == Plan(Retired(ring.versions, current), current, _ => w) && |ps| == 1
    ensures exists kek, iv, jv :: kek in ring.versions && r == UploadEvidence(c, kek, "evidence", rawData, dek, iv, jv)
    ensures RetrieveEvidence(c, ring, r) == Some(rawData)
    ensures !NoProgressIn(c, ps, [r], 0)
    ensures RetrieveEvidence(c, ring.(versions := Wiped(ring.versions)), Passed(c, ps, [r], 1)[0]).None?
  {
    var old1, old3 := Kek(1, k1, false), Kek(3, k3, false);
    current := Kek(2, k2, true);
    ring := KeyRing([old1, current, old3], None);
    ps := Plan(Retired(ring.versions, current), current, _ => w);
    RetiredOfThree(old1, current, old3);
    assert ps == [Pass(old1, current, w)];
    r := UploadEvidence(c, old3, "evidence", rawData, dek, "0", "1");
    LookupFinds(ring.versions, 2);
    UploadIsRead(c, ring, old3, "evidence", rawData, dek, "0", "1");
    CountZeroIff(c, ps[0], [r], 1, Failed);
    assert Passed(c, ps, [r], 0) == [r];
    PassedNext(c, ps, [r], 0, 0);
    WipedKeys(ring, current, 3);
    SameKeyReads(c, ring, ring.(versions := Wiped(ring.versions)), r);
    NotReadAtAll(c, ring, ring.(versions := Wiped(ring.versions)), r);
  }

  lemma NotReadAtAll(c: Cipher, ring: KeyRing, other: KeyRing, r: Record)
    requires Authentic(c) && RetrieveEvidence(c, ring, r).Some? && KeyFor(other, r.version) != KeyFor(ring, r.version)
    ensures RetrieveEvidence(c, other, r).None?
  {
    var l := KeyFor(other, r.version);
    if l.Some? { assert Unwrap(c, l.value, r).None?; }
  }

  lemma RetiredOfThree(old1: Kek, current: Kek, old3: Kek)
    requires !old1.active && current.active && !old3.active && old1.version < current.version < old3.version
    ensures Retired([old1, current, old3], current) == [old1]
  {
    assert [old1, current, old3][1..] == [current, old3] && [current, old3][1..] == [old3] && [old3][1..] == [];
    assert Retired([old3], current) == [] && Retired([current, old3], current) == [];
  }
}
