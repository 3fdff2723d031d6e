/** The outer shape of JSON texts: where their string literals begin and end. */
module JsonLexis {

  datatype Lex = Outside | Inside | Escaped | Bad

  /** A bar or a backslash is part of a JSON text only inside a string literal. */
  function Next(q: Lex, ch: char): Lex {
    match q
    case Outside => if ch == '"' then Inside else if ch == '|' || ch == '\\' then Bad else Outside
    case Inside => if ch == '"' then Outside else if ch == '\\' then Escaped else Inside
    case Escaped => Inside
    case Bad => Bad
  }

  function Scan(q: Lex, t: string): Lex
    decreases t
  {
    if t == "" then q else Scan(Next(q, t[0]), t[1..])
  }

  /** Every JSON text is of this shape. */
  predicate Lexical(t: string) { Scan(Outside, t) == Outside }

  lemma {:induction false} ScanConcat(q: Lex, x: string, y: string)
    ensures Scan(q, x + y) == Scan(Scan(q, x), y)
    decreases x
  {
    if x == "" {
      assert x + y == y;
    } else {
      assert (x + y)[1..] == x[1..] + y;
      ScanConcat(Next(q, x[0]), x[1..], y);
    }
  }

  lemma {:induction false} BadStays(t: string)
    ensures Scan(Bad, t) == Bad
  {
    if t != "" { BadStays(t[1..]); }
  }

  /** A text read from inside a literal and from outside of one does not end well both times: its quotes change roles. */
  lemma {:induction false} NotBoth(t: string)
    ensures !(Scan(Inside, t) == Outside && Scan(Outside, t) == Outside)
  {
    if t != "" {
      BadStays(t[1..]);
      NotBoth(t[1..]);
    }
  }

  /** Neither side of a bar in a JSON text is a JSON text. */
  lemma BarBreaks(x: string, y: string)
    requires Lexical(x + "|" + y)
    ensures !Lexical(x) && !Lexical(y)
  {
    ScanConcat(Outside, x + "|", y);
    ScanConcat(Outside, x, "|");
    var q := Scan(Outside, x);
    assert Scan(q, "|") == Scan(Next(q, '|'), "") == Next(q, '|');
    BadStays(y);
    NotBoth(y);
  }
}

/** Texts cut at their bars, and the nine fields of a row as a choice of cuts. */
module BarSegments {
  import opened BarJoin

  function Segments(s: string): (r: seq<string>)
    ensures r != []
  {
    if s == "" then [""]
    else
      var rest := Segments(s[1..]);
      if s[0] == '|' then [""] + rest else [[s[0]] + rest[0]] + rest[1..]
  }

  lemma {:induction false} SegmentsAreBarFree(s: string)
    ensures BarFree(Segments(s)) && |Segments(s)| == Bars(s) + 1
  {
    if s != "" { SegmentsAreBarFree(s[1..]); }
  }

  lemma {:induction false} JoinSegments(s: string)
    ensures Join(Segments(s)) == s
  {
    if s != "" {
      var rest := Segments(s[1..]);
      JoinSegments(s[1..]);
      if s[0] == '|' {
        JoinHead("", rest);
      } else {
        assert rest == [rest[0]] + rest[1..];
        JoinHead(rest[0], rest[1..]);
        JoinHead([s[0]] + rest[0], rest[1..]);
        assert ([s[0]] + rest[0]) + Tail(rest[1..]) == [s[0]] + (rest[0] + Tail(rest[1..]));
      }
    }
  }

  /** Bar-free pieces are the segments of their joined text. */
  lemma SegmentsOfJoin(f: seq<string>)
    requires f != [] && BarFree(f)
    ensures Segments(Join(f)) == f
  {
    var s := Join(f);
    SegmentsAreBarFree(s);
    JoinSegments(s);
    BarsOfJoin(f);
    BarFreeIsZero(f);
    BarFreeDetermined(f, Segments(s));
  }

  lemma {:induction false} JoinConcat(x: seq<string>, y: seq<string>)
    requires x != [] && y != []
    ensures Join(x + y) == Join(x) + "|" + Join(y)
  {
    if |x| == 1 {
      assert (x + y)[1..] == y;
    } else {
      assert (x + y)[1..] == x[1..] + y;
      JoinConcat(x[1..], y);
    }
  }

  lemma SegmentsConcat(x: string, y: string)
    ensures Segments(x + "|" + y) == Segments(x) + Segments(y)
  {
    JoinSegments(x);
    JoinSegments(y);
    SegmentsAreBarFree(x);
    SegmentsAreBarFree(y);
    JoinConcat(Segments(x), Segments(y));
    SegmentsOfJoin(Segments(x) + Segments(y));
  }

  /** Positions that cut `n` segments into non-empty runs. */
  predicate Fits(cuts: seq<nat>, n: nat) {
    && |cuts| >= 2
    && cuts[0] == 0
    && cuts[|cuts| - 1] == n
    && (forall i :: 0 <= i < |cuts| ==> cuts[i] <= n)
    && (forall i :: 0 < i < |cuts| ==> cuts[i - 1] < cuts[i])
  }

  function Run(segs: seq<string>, cuts: seq<nat>, i: nat): string
    requires Fits(cuts, |segs|) && i + 1 < |cuts|
  {
    Join(segs[cuts[i]..cuts[i + 1]])
  }

  /** The fields that the cuts make of the segments. */
  function Read(segs: seq<string>, cuts: seq<nat>): (f: seq<string>)
    requires Fits(cuts, |segs|)
    ensures |f| == |cuts| - 1 && forall i :: 0 <= i < |f| ==> f[i] == Run(segs, cuts, i)
  {
    seq(|cuts| - 1, i requires 0 <= i < |cuts| - 1 => Run(segs, cuts, i))
  }

  lemma {:induction false} ReadJoinsFrom(segs: seq<string>, cuts: seq<nat>, i: nat)
    requires Fits(cuts, |segs|) && i + 1 < |cuts|
    ensures cuts[i] < |segs| && Join(Read(segs, cuts)[i..]) == Join(segs[cuts[i]..])
    decreases |cuts| - i
  {
    var f := Read(segs, cuts);
    assert cuts[i] < cuts[i + 1];
    if i + 2 == |cuts| {
      assert f[i..] == [f[i]] && segs[cuts[i]..] == segs[cuts[i]..cuts[i + 1]];
    } else {
      ReadJoinsFrom(segs, cuts, i + 1);
      assert f[i..][1..] == f[i + 1..];
      assert segs[cuts[i]..] == segs[cuts[i]..cuts[i + 1]] + segs[cuts[i + 1]..];
      JoinConcat(segs[cuts[i]..cuts[i + 1]], segs[cuts[i + 1]..]);
    }
  }

  /** However the cuts are made, the joined text is the same. */
  lemma ReadJoins(segs: seq<string>, cuts: seq<nat>)
    requires Fits(cuts, |segs|)
    ensures segs != [] && Join(Read(segs, cuts)) == Join(segs)
  {
    ReadJoinsFrom(segs, cuts, 0);
    assert Read(segs, cuts)[0..] == Read(segs, cuts) && segs[0..] == segs;
  }

  /** How many segments the first `i` fields have. */
  function Start(f: seq<string>, i: nat): nat
    requires i <= |f|
  {
    if i == 0 then 0 else Start(f, i - 1) + Bars(f[i - 1]) + 1
  }

  /** The cuts that a list of fields stands for. */
  function CutsOf(f: seq<string>): (cuts: seq<nat>)
    ensures |cuts| == |f| + 1 && forall i :: 0 <= i <= |f| ==> cuts[i] == Start(f, i)
  {
    seq(|f| + 1, i requires 0 <= i <= |f| => Start(f, i))
  }

  lemma SliceBars(segs: seq<string>, i: nat, j: nat)
    requires i < j <= |segs| && BarFree(segs)
    ensures Bars(Join(segs[i..j])) == j - i - 1
  {
    BarFreeIsZero(segs[i..j]);
    BarsOfJoin(segs[i..j]);
  }

  lemma {:induction false} StartOfRead(segs: seq<string>, cuts: seq<nat>, i: nat)
    requires Fits(cuts, |segs|) && BarFree(segs) && i < |cuts|
    ensures Start(Read(segs, cuts), i) == cuts[i]
  {
    if i > 0 {
      StartOfRead(segs, cuts, i - 1);
      assert cuts[i - 1] < cuts[i] <= |segs|;
      SliceBars(segs, cuts[i - 1], cuts[i]);
    }
  }

  /** The segments of the first `n` fields, one field after the other. */
  function Flat(f: seq<string>, n: nat): seq<string>
    requires n <= |f|
  {
    if n == 0 then [] else Flat(f, n - 1) + Segments(f[n - 1])
  }

  lemma {:induction false} FlatLength(f: seq<string>, n: nat)
    requires n <= |f|
    ensures |Flat(f, n)| == Start(f, n)
  {
    if n > 0 {
      FlatLength(f, n - 1);
      SegmentsAreBarFree(f[n - 1]);
    }
  }

  lemma {:induction false} FlatIsSegments(f: seq<string>, n: nat)
    requires 0 < n <= |f|
    ensures Segments(Join(f[..n])) == Flat(f, n)
  {
    if n == 1 {
      assert f[..1] == [f[0]] && Flat(f, 0) == [];
    } else {
      FlatIsSegments(f, n - 1);
      assert f[..n] == f[..n - 1] + [f[n - 1]];
      JoinSnoc(f[..n - 1], f[n - 1]);
      SegmentsConcat(Join(f[..n - 1]), f[n - 1]);
    }
  }

  lemma {:induction false} FlatSlice(f: seq<string>, i: nat, n: nat)
    requires i < n <= |f|
    ensures Start(f, i) < Start(f, i + 1) <= |Flat(f, n)| && Flat(f, n)[Start(f, i)..Start(f, i + 1)] == Segments(f[i])
    decreases n
  {
    FlatLength(f, i);
    FlatLength(f, i + 1);
    if i + 1 < n {
      FlatSlice(f, i, n - 1);
      assert Flat(f, n)[Start(f, i)..Start(f, i + 1)] == Flat(f, n - 1)[Start(f, i)..Start(f, i + 1)];
    }
  }

  lemma {:induction false} StartsAscend(f: seq<string>, i: nat, j: nat)
    requires i < j <= |f|
    ensures Start(f, i) < Start(f, j)
    decreases j
  {
    if i + 1 < j { StartsAscend(f, i, j - 1); }
  }

  lemma CutsFit(f: seq<string>)
    requires f != []
    ensures Fits(CutsOf(f), |Flat(f, |f|)|)
  {
    var cuts := CutsOf(f);
    FlatLength(f, |f|);
    forall i | 0 <= i < |f| ensures cuts[i] <= cuts[|f|] { StartsAscend(f, i, |f|); }
  }

  lemma RunIsField(f: seq<string>, i: nat)
    requires i < |f| && Fits(CutsOf(f), |Flat(f, |f|)|)
    ensures Run(Flat(f, |f|), CutsOf(f), i) == f[i]
  {
    FlatSlice(f, i, |f|);
    JoinSegments(f[i]);
  }

  /** Fields are what their cuts read from the joined text. */
  lemma ReadCutsOf(f: seq<string>)
    requires f != []
    ensures var segs := Segments(Join(f)); Fits(CutsOf(f), |segs|) && Read(segs, CutsOf(f)) == f
  {
    assert f[..|f|] == f;
    FlatIsSegments(f, |f|);
    CutsFit(f);
    forall i | 0 <= i < |f| ensures Run(Flat(f, |f|), CutsOf(f), i) == f[i] { RunIsField(f, i); }
  }

  lemma CutsDecide(f: seq<string>, g: seq<string>)
    requires f != [] && g != [] && Join(f) == Join(g) && CutsOf(f) == CutsOf(g)
    ensures f == g
  {
    ReadCutsOf(f);
    ReadCutsOf(g);
  }

  lemma FieldSlice(f: seq<string>, i: nat)
    requires i < |f|
    ensures var segs := Segments(Join(f));
      Start(f, i) < Start(f, i + 1) <= |segs| == Start(f, |f|) && segs[Start(f, i)..Start(f, i + 1)] == Segments(f[i])
  {
    assert f[..|f|] == f;
    FlatIsSegments(f, |f|);
    FlatLength(f, |f|);
    FlatSlice(f, i, |f|);
  }

  /** A field without a bar is one segment. */
  lemma WordAt(f: seq<string>, i: nat)
    requires i < |f| && '|' !in f[i]
    ensures var segs := Segments(Join(f)); Start(f, i + 1) == Start(f, i) + 1 <= |segs| && segs[Start(f, i)] == f[i]
  {
    FieldSlice(f, i);
    NoBars(f[i]);
    SegmentsOfJoin([f[i]]);
  }
}

/** Which rows of an accepted table can be altered without a trace. */
module AuditTampering {
  import opened Prelude
  import opened BarJoin
  import opened BarSegments
  import opened JsonLexis
  import opened AuditChain

  /** The texts that the time column and the JSON column of a table can give. */
  datatype Columns = Columns(time: string -> bool, json: string -> bool)

  ghost predicate Sensible(c: Columns) {
    && (forall t :: c.time(t) ==> '|' !in t)
    && (forall t :: c.json(t) ==> Lexical(t))
  }

  predicate IsStatus(t: string) { t == "success" || t == "failure" }

  /** Nine fields that a row can have: a time, a JSON text and a status in their places, any text elsewhere. */
  ghost predicate Typed(c: Columns, f: seq<string>) {
    |f| == 9 && c.time(f[1]) && c.json(f[6]) && IsStatus(f[7])
  }

  /** Another row has the same joined text. */
  ghost predicate OtherReading(c: Columns, f: seq<string>, g: seq<string>) {
    Typed(c, g) && g != f && f != [] && Join(g) == Join(f)
  }

  // ---------------------------------------------------------------- the condition

  /** Among the segments of a text: a time at `a`, then four or more, then a JSON text from `d` to a status at `e`, then more. */
  ghost predicate Frame(c: Columns, segs: seq<string>, a: nat, d: nat, e: nat) {
    && 0 < a && a + 5 <= d < e && e + 1 < |segs|
    && c.time(segs[a]) && c.json(Join(segs[d..e])) && IsStatus(segs[e])
  }

  /** Actor, action, resource type or resource id has a bar. */
  predicate BarInNames(f: seq<string>)
    requires |f| == 9
  {
    '|' in f[2] || '|' in f[3] || '|' in f[4] || '|' in f[5]
  }

  /** The text has a time and a JSON text with its status in other places than the fields'. */
  ghost predicate OtherFrame(c: Columns, f: seq<string>, a: nat, d: nat, e: nat)
    requires |f| == 9
  {
    Frame(c, Segments(Join(f)), a, d, e) && (a, d) != (Start(f, 1), Start(f, 6))
  }

  ghost predicate Ambiguous(c: Columns, f: seq<string>)
    requires |f| == 9
  {
    BarInNames(f) || exists a, d, e :: OtherFrame(c, f, a, d, e)
  }

  // ---------------------------------------------------------------- cuts of typed fields

  lemma NamesBars(f: seq<string>)
    requires |f| == 9
    ensures Start(f, 6) - Start(f, 2) >= 4
    ensures BarInNames(f) <==> Start(f, 6) - Start(f, 2) > 4
  {
    NoBars(f[2]);
    NoBars(f[3]);
    NoBars(f[4]);
    NoBars(f[5]);
    var b := Start(f, 2);
    assert Start(f, 3) == b + Bars(f[2]) + 1;
    assert Start(f, 4) == b + Bars(f[2]) + Bars(f[3]) + 2;
    assert Start(f, 5) == b + Bars(f[2]) + Bars(f[3]) + Bars(f[4]) + 3;
    assert Start(f, 6) == b + Bars(f[2]) + Bars(f[3]) + Bars(f[4]) + Bars(f[5]) + 4;
  }

  /** Typed fields frame their own text. */
  lemma TypedFrames(c: Columns, f: seq<string>)
    requires Sensible(c) && Typed(c, f)
    ensures Frame(c, Segments(Join(f)), Start(f, 1), Start(f, 6), Start(f, 7))
    ensures Start(f, 2) == Start(f, 1) + 1 && Start(f, 8) == Start(f, 7) + 1
  {
    WordAt(f, 1);
    WordAt(f, 7);
    NamesBars(f);
    FieldSlice(f, 6);
    JoinSegments(f[6]);
    FieldSlice(f, 8);
    FieldSlice(f, 0);
  }

  /** From a given start there is one JSON text at most before a status. */
  lemma OneJsonEnd(c: Columns, segs: seq<string>, a: nat, d: nat, e: nat, e': nat)
    requires Sensible(c) && Frame(c, segs, a, d, e) && Frame(c, segs, a, d, e') && e <= e'
    ensures e == e'
  {
    if e < e' {
      assert segs[d..e'] == segs[d..e] + segs[e..e'];
      JoinConcat(segs[d..e], segs[e..e']);
      BarBreaks(Join(segs[d..e]), Join(segs[e..e']));
      assert false;
    }
  }

  // ---------------------------------------------------------------- both directions

  /** Another reading has a bar in the names to shift, or another frame. */
  lemma ReadingIsAmbiguous(c: Columns, f: seq<string>, g: seq<string>)
    requires Sensible(c) && Typed(c, f) && OtherReading(c, f, g)
    ensures Ambiguous(c, f)
  {
    var segs := Segments(Join(f));
    TypedFrames(c, f);
    TypedFrames(c, g);
    if (Start(g, 1), Start(g, 6)) != (Start(f, 1), Start(f, 6)) {
      assert OtherFrame(c, f, Start(g, 1), Start(g, 6), Start(g, 7));
    } else {
      var e, e' := Start(f, 7), Start(g, 7);
      if e <= e' { OneJsonEnd(c, segs, Start(f, 1), Start(f, 6), e, e'); } else { OneJsonEnd(c, segs, Start(f, 1), Start(f, 6), e', e); }
      NamesBars(f);
      if Start(f, 6) - Start(f, 2) == 4 { SameCuts(f, g); }
    }
  }

  /** With four single names, the frame leaves one way to read the text. */
  lemma SameCuts(f: seq<string>, g: seq<string>)
    requires |f| == |g| == 9 && Join(f) == Join(g)
    requires var p, q := CutsOf(f), CutsOf(g);
      p[6] == p[2] + 4 && p[1] == q[1] && p[2] == q[2] && p[6] == q[6] && p[7] == q[7] && p[8] == q[8]
    ensures f == g
  {
    ReadCutsOf(f);
    ReadCutsOf(g);
    FourNames(CutsOf(f), CutsOf(g), |Segments(Join(f))|);
    CutsDecide(f, g);
  }

  lemma FourNames(p: seq<nat>, q: seq<nat>, n: nat)
    requires |p| == |q| == 10 && Fits(p, n) && Fits(q, n)
    requires p[6] == p[2] + 4 && p[1] == q[1] && p[2] == q[2] && p[6] == q[6] && p[7] == q[7] && p[8] == q[8]
    ensures p == q
  {
    FourSteps(p, n);
    FourSteps(q, n);
  }

  lemma FourSteps(p: seq<nat>, n: nat)
    requires |p| == 10 && Fits(p, n) && p[6] == p[2] + 4
    ensures p[3] == p[2] + 1 && p[4] == p[2] + 2 && p[5] == p[2] + 3
  {
    assert p[2] < p[3] && p[3] < p[4] && p[4] < p[5] && p[5] < p[6];
  }

  /** Cuts at a frame, with the first of the four names `m` segments long. */
  function FrameCuts(n: nat, a: nat, d: nat, e: nat, m: nat): seq<nat> {
    [0, a, a + 1, a + 1 + m, a + 2 + m, a + 3 + m, d, e, e + 1, n]
  }

  lemma FrameCutsFit(n: nat, a: nat, d: nat, e: nat, m: nat)
    requires 0 < a && 1 <= m <= d - a - 4 && d < e && e + 1 < n
    ensures Fits(FrameCuts(n, a, d, e, m), n)
  {
  }

  /** The fields read at a frame are typed. */
  lemma FrameIsTyped(c: Columns, segs: seq<string>, a: nat, d: nat, e: nat, m: nat)
    requires Frame(c, segs, a, d, e) && Fits(FrameCuts(|segs|, a, d, e, m), |segs|)
    ensures Typed(c, Read(segs, FrameCuts(|segs|, a, d, e, m)))
  {
    var cuts := FrameCuts(|segs|, a, d, e, m);
    assert segs[a..a + 1] == [segs[a]] && segs[e..e + 1] == [segs[e]];
    assert Run(segs, cuts, 1) == segs[a] && Run(segs, cuts, 6) == Join(segs[d..e]) && Run(segs, cuts, 7) == segs[e];
  }

  lemma FrameReads(c: Columns, f: seq<string>, a: nat, d: nat, e: nat, m: nat) returns (g: seq<string>)
    requires |f| == 9 && Frame(c, Segments(Join(f)), a, d, e) && 1 <= m <= d - a - 4
    ensures Typed(c, g) && Join(g) == Join(f)
    ensures Start(g, 1) == a && Start(g, 3) == a + 1 + m && Start(g, 6) == d
  {
    var segs := Segments(Join(f));
    var cuts := FrameCuts(|segs|, a, d, e, m);
    FrameCutsFit(|segs|, a, d, e, m);
    FrameIsTyped(c, segs, a, d, e, m);
    g := Read(segs, cuts);
    ReadJoins(segs, cuts);
    JoinSegments(Join(f));
    SegmentsAreBarFree(Join(f));
    StartOfRead(segs, cuts, 1);
    StartOfRead(segs, cuts, 3);
    StartOfRead(segs, cuts, 6);
  }

  lemma AmbiguousIsReading(c: Columns, f: seq<string>) returns (g: seq<string>)
    requires Sensible(c) && Typed(c, f) && Ambiguous(c, f)
    ensures OtherReading(c, f, g)
  {
    if a: nat, d: nat, e: nat :| OtherFrame(c, f, a, d, e) {
      g := FrameReads(c, f, a, d, e, 1);
    } else {
      TypedFrames(c, f);
      NamesBars(f);
      var a, d, e := Start(f, 1), Start(f, 6), Start(f, 7);
      g := FrameReads(c, f, a, d, e, if Start(f, 3) == a + 2 then 2 else 1);
    }
  }

  /** Other fields of the same text exist exactly when the names have a bar to shift or the text has another frame. */
  lemma OtherReadingIff(c: Columns, f: seq<string>)
    requires Sensible(c) && Typed(c, f)
    ensures (exists g :: OtherReading(c, f, g)) <==> Ambiguous(c, f)
  {
    if Ambiguous(c, f) {
      var g := AmbiguousIsReading(c, f);
    } else {
      forall g ensures !OtherReading(c, f, g) {
        if OtherReading(c, f, g) { ReadingIsAmbiguous(c, f, g); }
      }
    }
  }

  // ---------------------------------------------------------------- tables

  ghost predicate TypedTable(c: Columns, rows: seq<Row>) {
    forall i :: 0 <= i < |rows| ==> Typed(c, Fields(rows[i]))
  }

  /** An accepted table with the same last hash but other fields in row `i`. */
  ghost predicate AlterationHidden(hash: string -> string, c: Columns, a: seq<Row>, i: nat, b: seq<Row>)
    requires i < |a|
  {
    && |b| == |a| && TypedTable(c, b)
    && Violations(hash, b) == [] && PrevRowHash(b) == PrevRowHash(a)
    && Fields(b[i]) != Fields(a[i])
  }

  lemma HiddenIsReading(hash: string -> string, c: Columns, a: seq<Row>, i: nat, b: seq<Row>)
    requires Digest(hash) && Violations(hash, a) == [] && i < |a| && AlterationHidden(hash, c, a, i, b)
    ensures OtherReading(c, Fields(a[i]), Fields(b[i]))
  {
    CleanIffIntact(hash, a);
    CleanIffIntact(hash, b);
    TamperEvidence(hash, a, b);
    LinkShape(hash, a, i);
    LinkShape(hash, b, i);
    assert SameRow(a[i], b[i]);
    TextDetermines(a[i], b[i]);
  }

  /** The row with other fields of the same text in it. */
  lemma ReadingIsHidden(hash: string -> string, c: Columns, a: seq<Row>, i: nat, g: seq<string>) returns (b: seq<Row>)
    requires Violations(hash, a) == [] && TypedTable(c, a) && i < |a| && OtherReading(c, Fields(a[i]), g)
    ensures AlterationHidden(hash, c, a, i, b) && forall j :: 0 <= j < |a| && j != i ==> b[j] == a[j]
  {
    var q := AlteredRow(a[i], g);
    b := a[i := q];
    ReplacedClean(hash, a, i, q);
  }

  lemma AlteredRow(r: Row, g: seq<string>) returns (q: Row)
    requires |g| == 9 && Join(g) == Join(Fields(r))
    ensures Fields(q) == g && HashText(q) == HashText(r)
    ensures q.seqNo == r.seqNo && q.prevHash == r.prevHash && q.rowHash == r.rowHash
  {
    q := r.(id := g[0], occurredAt := g[1], actorId := g[2], action := g[3], resourceType := g[4],
            resourceId := g[5], details := Some(g[6]), status := g[7], tenantId := g[8]);
    assert Fields(q) == g;
    TextSplits(r);
    TextSplits(q);
  }

  /**
    A row of an accepted table can be altered unseen exactly when one of its four names contains a bar, or its text holds
    a time and a JSON text with its status in other places as well.
    */
  lemma HiddenIffAmbiguous(hash: string -> string, c: Columns, a: seq<Row>, i: nat)
    requires Digest(hash) && Sensible(c) && TypedTable(c, a) && Violations(hash, a) == [] && i < |a|
    ensures (exists b :: AlterationHidden(hash, c, a, i, b)) <==> Ambiguous(c, Fields(a[i]))
  {
    OtherReadingIff(c, Fields(a[i]));
    if Ambiguous(c, Fields(a[i])) {
      var g :| OtherReading(c, Fields(a[i]), g);
      var b := ReadingIsHidden(hash, c, a, i, g);
    } else {
      forall b ensures !AlterationHidden(hash, c, a, i, b) {
        if AlterationHidden(hash, c, a, i, b) { HiddenIsReading(hash, c, a, i, b); }
      }
    }
  }

  /** Bars in the details alone give nothing away: no status stands between two of them, so the row cannot be altered. */
  lemma DetailsBarsHold(c: Columns, f: seq<string>)
    requires Sensible(c) && Typed(c, f)
    requires forall i :: 0 <= i < 9 && i != 6 ==> '|' !in f[i]
    requires forall s :: s in Segments(f[6]) ==> !IsStatus(s)
    ensures !Ambiguous(c, f)
  {
    TypedFrames(c, f);
    NamesBars(f);
    forall a: nat, d: nat, e: nat ensures !OtherFrame(c, f, a, d, e) {
      if OtherFrame(c, f, a, d, e) {
        OnlyFrame(c, f, a, d, e);
        assert false;
      }
    }
  }

  lemma OnlyFrame(c: Columns, f: seq<string>, a: nat, d: nat, e: nat)
    requires Sensible(c) && Typed(c, f) && Frame(c, Segments(Join(f)), a, d, e)
    requires forall i :: 0 <= i < 9 && i != 6 ==> '|' !in f[i]
    requires forall s :: s in Segments(f[6]) ==> !IsStatus(s)
    ensures a == Start(f, 1) && d == Start(f, 6)
  {
    DetailsPlace(f);
    var segs := Segments(Join(f));
    if e < Start(f, 7) {
      NoStatusInside(segs, Start(f, 7), Segments(f[6]), e);
      assert false;
    }
    if d > 6 {
      NoLaterJson(c, f, segs, d);
      assert false;
    }
  }

  lemma NoStatusInside(segs: seq<string>, end: nat, inside: seq<string>, e: nat)
    requires 6 <= e < end <= |segs| && segs[6..end] == inside && forall s :: s in inside ==> !IsStatus(s)
    ensures !IsStatus(segs[e])
  {
    assert segs[6..end][e - 6] == segs[e];
    assert inside[e - 6] in inside;
  }

  lemma NoLaterJson(c: Columns, f: seq<string>, segs: seq<string>, d: nat)
    requires Sensible(c) && |f| == 9 && c.json(f[6]) && 6 < d < Start(f, 7) <= |segs| && segs[6..Start(f, 7)] == Segments(f[6])
    ensures !c.json(Join(segs[d..Start(f, 7)]))
  {
    var e := Start(f, 7);
    JoinSegments(f[6]);
    assert segs[6..e] == segs[6..d] + segs[d..e];
    JoinConcat(segs[6..d], segs[d..e]);
    BarBreaks(Join(segs[6..d]), Join(segs[d..e]));
  }

  lemma DetailsPlace(f: seq<string>)
    requires |f| == 9 && forall i :: 0 <= i < 9 && i != 6 ==> '|' !in f[i]
    ensures Start(f, 1) == 1 && Start(f, 6) == 6 && Start(f, 7) == |Segments(Join(f))| - 2
    ensures Start(f, 6) < Start(f, 7) && Segments(Join(f))[6..Start(f, 7)] == Segments(f[6])
  {
    WordAt(f, 0);
    WordAt(f, 1);
    WordAt(f, 2);
    WordAt(f, 3);
    WordAt(f, 4);
    WordAt(f, 5);
    FieldSlice(f, 6);
    WordAt(f, 7);
    WordAt(f, 8);
    FieldSlice(f, 8);
  }

  /** They can give something away: a JSON text and a status between bars of the details can stand for the row's own. */
  lemma DetailsCanHide(c: Columns, f: seq<string>, x: string, json: string, status: string, y: string)
    requires Sensible(c) && Typed(c, f) && (forall i :: 0 <= i < 9 && i != 6 ==> '|' !in f[i])
    requires c.json(json) && '|' !in json && IsStatus(status)
    requires f[6] == x + "|" + (json + "|" + (status + "|" + y))
    ensures Ambiguous(c, f)
  {
    DetailsPlace(f);
    TypedFrames(c, f);
    var segs, inside, k := Segments(Join(f)), Segments(f[6]), |Segments(x)|;
    InnerSegments(x, json, status, y);
    assert forall i :: 0 <= i < |inside| ==> segs[6 + i] == inside[i];
    assert segs[6 + k..6 + k + 1] == [json];
    assert OtherFrame(c, f, 1, 6 + k, 6 + k + 1);
  }

  lemma InnerSegments(x: string, json: string, status: string, y: string)
    requires '|' !in json && IsStatus(status)
    ensures var inside, k := Segments(x + "|" + (json + "|" + (status + "|" + y))), |Segments(x)|;
      k + 2 < |inside| && inside[k] == json && inside[k + 1] == status
  {
    SegmentsConcat(x, json + "|" + (status + "|" + y));
    SegmentsConcat(json, status + "|" + y);
    SegmentsConcat(status, y);
    SegmentsOfJoin([json]);
    SegmentsOfJoin([status]);
  }
}
