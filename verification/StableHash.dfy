/** Canonical serialisation: the sorted-key printer used to compare cached and fresh data.

  Strings are sequences of UTF-16 code units, as in the source language, so key order and
  lone-surrogate escaping are those of the program.  Numbers are restricted to the integers
  that print in plain decimal notation.
*/
module StableHash {

  type CodeUnit = u: int | 0 <= u < 0x1_0000
  type Text = seq<CodeUnit>
  type PlainInt = n: int | -1_000_000_000_000_000_000_000 < n < 1_000_000_000_000_000_000_000

  /** An object is its own properties in enumeration order. */
  datatype Json =
    | Null
    | Bool(b: bool)
    | Num(n: PlainInt)
    | Str(s: Text)
    | Arr(items: seq<Json>)
    | Obj(fields: seq<Field>)

  datatype Field = Field(key: Text, value: Json)

  const QUOTE: CodeUnit := 0x22
  const COMMA: CodeUnit := 0x2c
  const MINUS: CodeUnit := 0x2d
  const ZERO: CodeUnit := 0x30
  const COLON: CodeUnit := 0x3a
  const LBRACKET: CodeUnit := 0x5b
  const BACKSLASH: CodeUnit := 0x5c
  const RBRACKET: CodeUnit := 0x5d
  const LBRACE: CodeUnit := 0x7b
  const RBRACE: CodeUnit := 0x7d

  ghost predicate DistinctKeys(fields: seq<Field>) {
    forall i, j :: 0 <= i < j < |fields| ==> fields[i].key != fields[j].key
  }

  /** Every object, at every depth, has distinct keys. */
  ghost predicate WellFormed(v: Json)
    decreases v
  {
    match v
    case Arr(items) => forall i :: 0 <= i < |items| ==> WellFormed(items[i])
    case Obj(fields) =>
      && DistinctKeys(fields)
      && forall i :: 0 <= i < |fields| ==> WellFormed(fields[i].value)
    case _ => true
  }

  /** Equality up to the order of object keys, at every depth.  Independent of the printer. */
  ghost predicate Equivalent(v: Json, w: Json)
    decreases v
  {
    match v
    case Arr(xs) =>
      && w.Arr?
      && |xs| == |w.items|
      && forall i :: 0 <= i < |xs| ==> Equivalent(xs[i], w.items[i])
    case Obj(fs) =>
      && w.Obj?
      && |fs| == |w.fields|
      && forall i :: 0 <= i < |fs| ==>
           exists j :: 0 <= j < |w.fields| && fs[i].key == w.fields[j].key && Equivalent(fs[i].value, w.fields[j].value)
    case _ => v == w
  }

  // ---------------------------------------------------------------- string literals

  predicate HighSurrogate(c: CodeUnit) { 0xd800 <= c < 0xdc00 }
  predicate LowSurrogate(c: CodeUnit) { 0xdc00 <= c < 0xe000 }

  function HexDigit(n: int): CodeUnit
    requires 0 <= n < 16
  {
    if n < 10 then 0x30 + n else 0x61 + n - 10
  }

  /** The \uXXXX form, lower-case hexadecimal. */
  function UnicodeEscape(c: CodeUnit): Text {
    [BACKSLASH, 0x75, HexDigit(c / 4096), HexDigit(c / 256 % 16), HexDigit(c / 16 % 16), HexDigit(c % 16)]
  }

  predicate NeedsEscape(c: CodeUnit) {
    c < 0x20 || c == QUOTE || c == BACKSLASH
  }

  /** Section 7 of RFC 8259: the two-character escapes, otherwise the numeric one. */
  function EscapeUnit(c: CodeUnit): Text
  {
    if c == QUOTE then [BACKSLASH, QUOTE]
    else if c == BACKSLASH then [BACKSLASH, BACKSLASH]
    else if c == 0x08 then [BACKSLASH, 0x62]
    else if c == 0x09 then [BACKSLASH, 0x74]
    else if c == 0x0a then [BACKSLASH, 0x6e]
    else if c == 0x0c then [BACKSLASH, 0x66]
    else if c == 0x0d then [BACKSLASH, 0x72]
    else UnicodeEscape(c)
  }

  predicate StartsWithPair(s: Text) {
    |s| >= 2 && HighSurrogate(s[0]) && LowSurrogate(s[1])
  }

  /** A surrogate pair is kept, a lone surrogate is escaped. */
  function Escape(s: Text): Text {
    if s == [] then []
    else if StartsWithPair(s) then s[..2] + Escape(s[2..])
    else if NeedsEscape(s[0]) || HighSurrogate(s[0]) || LowSurrogate(s[0]) then EscapeUnit(s[0]) + Escape(s[1..])
    else [s[0]] + Escape(s[1..])
  }

  function Quote(s: Text): Text {
    [QUOTE] + Escape(s) + [QUOTE]
  }

  // ---------------------------------------------------------------- numbers

  function PrintNat(n: nat): Text {
    if n < 10 then [ZERO + n] else PrintNat(n / 10) + [ZERO + n % 10]
  }

  function PrintInt(n: int): Text {
    if n < 0 then [MINUS] + PrintNat(-n) else PrintNat(n)
  }

  // ---------------------------------------------------------------- key order

  /** Code-unit lexicographic order, the default order of Array.prototype.sort on strings. */
  predicate KeyLess(a: Text, b: Text) {
    b != [] && (a == [] || a[0] < b[0] || (a[0] == b[0] && KeyLess(a[1..], b[1..])))
  }

  function InsertKey(k: Text, keys: seq<Text>): seq<Text> {
    if keys == [] || !KeyLess(keys[0], k) then [k] + keys else [keys[0]] + InsertKey(k, keys[1..])
  }

  function SortKeys(keys: seq<Text>): seq<Text> {
    if keys == [] then [] else InsertKey(keys[0], SortKeys(keys[1..]))
  }

  function Keys(fields: seq<Field>): seq<Text> {
    seq(|fields|, i requires 0 <= i < |fields| => fields[i].key)
  }

  function IndexOf(fields: seq<Field>, k: Text): (i: nat)
    requires k in Keys(fields)
    ensures i < |fields| && fields[i].key == k
  {
    if fields[0].key == k then 0
    else
      assert forall j :: 1 <= j < |fields| ==> Keys(fields)[j] == Keys(fields[1..])[j - 1];
      1 + IndexOf(fields[1..], k)
  }

  // ---------------------------------------------------------------- the printer

  function Join(parts: seq<Text>): Text {
    if parts == [] then []
    else if |parts| == 1 then parts[0]
    else parts[0] + [COMMA] + Join(parts[1..])
  }

  /** computeStableHash on JSON values. */
  function Print(v: Json): Text
    decreases v, 1
  {
    match v
    case Null => [0x6e, 0x75, 0x6c, 0x6c]
    case Bool(b) => if b then [0x74, 0x72, 0x75, 0x65] else [0x66, 0x61, 0x6c, 0x73, 0x65]
    case Num(n) => PrintInt(n)
    case Str(s) => Quote(s)
    case Arr(items) => [LBRACKET] + Join(PrintAll(items)) + [RBRACKET]
    case Obj(fields) =>
      SortedIsPermutation(Keys(fields));
      [LBRACE] + Join(PrintMembers(fields, SortKeys(Keys(fields)))) + [RBRACE]
  }

  function PrintAll(items: seq<Json>): (parts: seq<Text>)
    ensures |parts| == |items|
    decreases items, 0
  {
    if items == [] then [] else [Print(items[0])] + PrintAll(items[1..])
  }

  function PrintMembers(fields: seq<Field>, keys: seq<Text>): (parts: seq<Text>)
    requires forall k :: k in keys ==> k in Keys(fields)
    ensures |parts| == |keys|
    decreases fields, 0, |keys|
  {
    if keys == [] then []
    else
      var i := IndexOf(fields, keys[0]);
      [Quote(keys[0]) + [COLON] + Print(fields[i].value)] + PrintMembers(fields, keys[1..])
  }

  // ---------------------------------------------------------------- sorting facts

  lemma {:induction false} InsertIsPermutation(k: Text, keys: seq<Text>)
    ensures multiset(InsertKey(k, keys)) == multiset([k]) + multiset(keys)
  {
    if keys == [] || !KeyLess(keys[0], k) {
    } else {
      InsertIsPermutation(k, keys[1..]);
      assert keys == [keys[0]] + keys[1..];
    }
  }

  lemma {:induction false} SortedIsPermutation(keys: seq<Text>)
    ensures multiset(SortKeys(keys)) == multiset(keys)
    ensures forall k :: k in SortKeys(keys) ==> k in keys
  {
    if keys != [] {
      SortedIsPermutation(keys[1..]);
      InsertIsPermutation(keys[0], SortKeys(keys[1..]));
      assert keys == [keys[0]] + keys[1..];
    }
    forall k | k in SortKeys(keys) ensures k in keys {
      assert k in multiset(SortKeys(keys));
    }
  }

  lemma SortedLength(keys: seq<Text>)
    ensures |SortKeys(keys)| == |keys|
  {
    SortedIsPermutation(keys);
    assert |multiset(SortKeys(keys))| == |multiset(keys)|;
  }

  ghost predicate Ascending(keys: seq<Text>) {
    forall i, j :: 0 <= i < j < |keys| ==> !KeyLess(keys[j], keys[i])
  }

  lemma {:induction false} KeyLessTotal(a: Text, b: Text)
    ensures !KeyLess(a, b) && !KeyLess(b, a) ==> a == b
    ensures !(KeyLess(a, b) && KeyLess(b, a))
  {
    if a != [] && b != [] {
      KeyLessTotal(a[1..], b[1..]);
      assert a == [a[0]] + a[1..] && b == [b[0]] + b[1..];
    }
  }

  lemma {:induction false} KeyLessTransitive(a: Text, b: Text, c: Text)
    requires !KeyLess(b, a) && !KeyLess(c, b)
    ensures !KeyLess(c, a)
  {
    if a != [] && b != [] && c != [] {
      if a[0] == b[0] == c[0] {
        KeyLessTransitive(a[1..], b[1..], c[1..]);
      }
    }
  }

  lemma {:induction false} InsertAscending(k: Text, keys: seq<Text>)
    requires Ascending(keys)
    ensures Ascending(InsertKey(k, keys))
  {
    if keys == [] {
    } else if !KeyLess(keys[0], k) {
      forall j | 0 <= j < |keys| ensures !KeyLess(keys[j], k) {
        if j > 0 { KeyLessTransitive(k, keys[0], keys[j]); }
      }
    } else {
      var rest := InsertKey(k, keys[1..]);
      InsertAscending(k, keys[1..]);
      InsertIsPermutation(k, keys[1..]);
      forall j | 0 <= j < |rest| ensures !KeyLess(rest[j], keys[0]) {
        assert rest[j] in multiset(rest);
        if rest[j] == k {
          KeyLessTotal(keys[0], k);
        } else {
          assert rest[j] in keys[1..];
        }
      }
    }
  }

  lemma {:induction false} SortAscending(keys: seq<Text>)
    ensures Ascending(SortKeys(keys))
  {
    if keys != [] {
      SortAscending(keys[1..]);
      InsertAscending(keys[0], SortKeys(keys[1..]));
    }
  }

  /** An ascending sequence is determined by its multiset of keys. */
  lemma {:induction false} AscendingUnique(a: seq<Text>, b: seq<Text>)
    requires Ascending(a) && Ascending(b) && multiset(a) == multiset(b)
    ensures a == b
  {
    assert |a| == |multiset(a)| == |multiset(b)| == |b|;
    if a != [] {
      assert a[0] in multiset(b) && b[0] in multiset(a);
      KeyLessTotal(a[0], b[0]);
      assert a[0] == b[0];
      assert a == [a[0]] + a[1..] && b == [b[0]] + b[1..];
      assert multiset(a[1..]) == multiset(a) - multiset([a[0]]);
      assert multiset(b[1..]) == multiset(b) - multiset([b[0]]);
      AscendingUnique(a[1..], b[1..]);
    }
  }

  // ---------------------------------------------------------------- unique readability

  predicate Digit(c: CodeUnit) { ZERO <= c < ZERO + 10 }

  /** What follows a printed value never continues a number. */
  ghost predicate Stops(rest: Text) { rest == [] || !Digit(rest[0]) }

  ghost predicate AllDigits(t: Text) { forall i :: 0 <= i < |t| ==> Digit(t[i]) }

  ghost function Value(t: Text): int
    requires AllDigits(t)
  {
    if t == [] then 0 else 10 * Value(t[..|t| - 1]) + t[|t| - 1] - ZERO
  }

  lemma {:induction false} PrintNatValue(n: nat)
    ensures AllDigits(PrintNat(n)) && |PrintNat(n)| > 0 && Value(PrintNat(n)) == n
  {
    if n >= 10 {
      PrintNatValue(n / 10);
      assert PrintNat(n)[..|PrintNat(n)| - 1] == PrintNat(n / 10);
    } else {
      assert PrintNat(n)[..0] == [];
    }
  }

  lemma {:induction false} DigitsReadable(a: Text, b: Text, r: Text, q: Text)
    requires AllDigits(a) && AllDigits(b) && Stops(r) && Stops(q) && a + r == b + q
    ensures a == b && r == q
  {
    DigitRunBound(a, b, r, q);
    DigitRunBound(b, a, q, r);
    assert a == (a + r)[..|a|] && b == (b + q)[..|a|];
    assert r == (a + r)[|a|..] && q == (b + q)[|a|..];
  }

  /** A run of digits reaches at least as far as any other run of digits in the same text. */
  lemma DigitRunBound(a: Text, b: Text, r: Text, q: Text)
    requires AllDigits(b) && Stops(r) && a + r == b + q
    ensures |b| <= |a|
  {
    ConcatAt(a, r, |a|);
    ConcatAt(b, q, |a|);
  }

  lemma ConcatAt(x: Text, y: Text, i: nat)
    ensures i < |x| ==> (x + y)[i] == x[i]
    ensures |x| <= i < |x + y| ==> (x + y)[i] == y[i - |x|]
  {
  }

  lemma NatReadable(m: nat, n: nat, r: Text, q: Text)
    requires Stops(r) && Stops(q) && PrintNat(m) + r == PrintNat(n) + q
    ensures m == n && r == q
  {
    PrintNatValue(m);
    PrintNatValue(n);
    DigitsReadable(PrintNat(m), PrintNat(n), r, q);
  }

  lemma IntReadable(m: int, n: int, r: Text, q: Text)
    requires Stops(r) && Stops(q) && PrintInt(m) + r == PrintInt(n) + q
    ensures m == n && r == q
  {
    IntHead(m);
    IntHead(n);
    ConcatAt(PrintInt(m), r, 0);
    ConcatAt(PrintInt(n), q, 0);
    if m < 0 {
      AfterHead(MINUS, PrintNat(-m), r);
      AfterHead(MINUS, PrintNat(-n), q);
      NatReadable(-m, -n, r, q);
    } else {
      NatReadable(m, n, r, q);
    }
  }

  lemma IntHead(n: int)
    ensures |PrintInt(n)| > 0
    ensures if n < 0 then PrintInt(n)[0] == MINUS else Digit(PrintInt(n)[0])
  {
    PrintNatValue(if n < 0 then -n else n);
  }

  lemma AfterHead(h: CodeUnit, x: Text, r: Text)
    ensures ([h] + x + r)[1..] == x + r
  {
  }

  lemma UnicodeEscapeInjective(c: CodeUnit, d: CodeUnit)
    requires UnicodeEscape(c) == UnicodeEscape(d)
    ensures c == d
  {
    var e, f := UnicodeEscape(c), UnicodeEscape(d);
    assert e[2] == f[2] && e[3] == f[3] && e[4] == f[4] && e[5] == f[5];
    assert c / 4096 == d / 4096 && c / 256 % 16 == d / 256 % 16 && c / 16 % 16 == d / 16 % 16 && c % 16 == d % 16;
    Nibbles(c);
    Nibbles(d);
  }

  lemma Nibbles(c: CodeUnit)
    ensures c == c / 4096 * 4096 + c / 256 % 16 * 256 + c / 16 % 16 * 16 + c % 16
  {
    var a, b, d := c / 16, c / 256, c / 4096;
    assert b == a / 16;
    assert d == b / 16;
  }

  lemma EscapeUnitReadable(c: CodeUnit, d: CodeUnit, x: Text, y: Text)
    requires EscapeUnit(c) + x == EscapeUnit(d) + y
    ensures c == d && x == y
  {
    var e, f := EscapeUnit(c), EscapeUnit(d);
    assert (e + x)[1] == e[1] && (f + y)[1] == f[1];
    assert |e| == |f|;
    assert e == (e + x)[..|e|] && f == (f + y)[..|e|];
    assert x == (e + x)[|e|..] && y == (f + y)[|e|..];
    if |e| == 6 { UnicodeEscapeInjective(c, d); }
  }

  /** How the escaped form of a string, followed by the closing quote, begins. */
  ghost predicate RawHead(s: Text) {
    s != [] && (StartsWithPair(s) || !(NeedsEscape(s[0]) || HighSurrogate(s[0]) || LowSurrogate(s[0])))
  }

  lemma EscapeOfEmpty(r: Text)
    ensures var t := Escape([]) + [QUOTE] + r; t[0] == QUOTE && t[1..] == r
  {
    assert Escape([]) + [QUOTE] + r == [QUOTE] + r;
  }

  lemma EscapeOfPair(s: Text, r: Text)
    requires StartsWithPair(s)
    ensures var t := Escape(s) + [QUOTE] + r;
      |t| > 1 && t[0] == s[0] && t[1] == s[1] && t[2..] == Escape(s[2..]) + [QUOTE] + r
  {
    assert Escape(s) + [QUOTE] + r == [s[0], s[1]] + (Escape(s[2..]) + [QUOTE] + r);
  }

  lemma EscapeOfRaw(s: Text, r: Text)
    requires RawHead(s) && !StartsWithPair(s)
    ensures var t := Escape(s) + [QUOTE] + r; |t| > 0 && t[0] == s[0] && t[1..] == Escape(s[1..]) + [QUOTE] + r
  {
    assert Escape(s) + [QUOTE] + r == [s[0]] + (Escape(s[1..]) + [QUOTE] + r);
  }

  lemma EscapeOfEscaped(s: Text, r: Text)
    requires s != [] && !RawHead(s)
    ensures var t := Escape(s) + [QUOTE] + r;
      |t| > 0 && t[0] == BACKSLASH && t == EscapeUnit(s[0]) + (Escape(s[1..]) + [QUOTE] + r)
  {
    EscapeUnitHead(s[0]);
    Regroup(EscapeUnit(s[0]), Escape(s[1..]), [QUOTE], r);
  }

  lemma EscapeUnitHead(c: CodeUnit)
    ensures |EscapeUnit(c)| > 0 && EscapeUnit(c)[0] == BACKSLASH
  {
  }

  lemma Regroup(a: Text, b: Text, c: Text, d: Text)
    ensures a + b + c + d == a + (b + c + d)
  {
  }

  /** The first character of an escaped string and its closing quote tells which case it is in. */
  lemma EscapeHead(s: Text, r: Text)
    ensures var t := Escape(s) + [QUOTE] + r;
      && |t| > 0
      && (s == [] ==> t[0] == QUOTE && t[1..] == r)
      && (s != [] && RawHead(s) ==> t[0] == s[0] && s[0] != QUOTE && s[0] != BACKSLASH)
      && (s != [] && !RawHead(s) ==> t[0] == BACKSLASH && t == EscapeUnit(s[0]) + (Escape(s[1..]) + [QUOTE] + r))
      && (s != [] && !StartsWithPair(s) && RawHead(s) ==> t[1..] == Escape(s[1..]) + [QUOTE] + r)
      && (StartsWithPair(s) ==> |t| > 1 && t[1] == s[1] && t[2..] == Escape(s[2..]) + [QUOTE] + r)
  {
    if s == [] {
      EscapeOfEmpty(r);
    } else if StartsWithPair(s) {
      EscapeOfPair(s, r);
    } else if RawHead(s) {
      EscapeOfRaw(s, r);
    } else {
      EscapeOfEscaped(s, r);
    }
  }

  /** A string literal is self-delimiting: it determines the string and what follows it. */
  lemma {:induction false} EscapeReadable(s: Text, t: Text, r: Text, q: Text)
    requires Escape(s) + [QUOTE] + r == Escape(t) + [QUOTE] + q
    ensures s == t && r == q
    decreases |s|
  {
    EscapeHead(s, r);
    EscapeHead(t, q);
    if s != [] && t != [] {
      if !RawHead(s) {
        EscapeUnitReadable(s[0], t[0], Escape(s[1..]) + [QUOTE] + r, Escape(t[1..]) + [QUOTE] + q);
        EscapeReadable(s[1..], t[1..], r, q);
      } else if StartsWithPair(s) {
        EscapeReadable(s[2..], t[2..], r, q);
        assert s == [s[0], s[1]] + s[2..] && t == [t[0], t[1]] + t[2..];
      } else {
        EscapeReadable(s[1..], t[1..], r, q);
      }
      assert s == [s[0]] + s[1..] && t == [t[0]] + t[1..];
    }
  }

  lemma AfterOpening(open: CodeUnit, x: Text, close: CodeUnit, r: Text)
    ensures ([open] + x + [close] + r)[1..] == x + [close] + r
  {
  }

  lemma QuoteReadable(s: Text, t: Text, r: Text, q: Text)
    requires Quote(s) + r == Quote(t) + q
    ensures s == t && r == q
  {
    AfterOpening(QUOTE, Escape(s), QUOTE, r);
    AfterOpening(QUOTE, Escape(t), QUOTE, q);
    EscapeReadable(s, t, r, q);
  }

  /** The first code unit of a printed value tells its kind. */
  lemma PrintHead(v: Json)
    ensures |Print(v)| > 0
    ensures match v
      case Null => Print(v)[0] == 0x6e
      case Bool(b) => Print(v)[0] == if b then 0x74 else 0x66
      case Num(n) => Digit(Print(v)[0]) || Print(v)[0] == MINUS
      case Str(_) => Print(v)[0] == QUOTE
      case Arr(_) => Print(v)[0] == LBRACKET
      case Obj(_) => Print(v)[0] == LBRACE
  {
    if v.Num? { IntHead(v.n); }
  }

  /** The printed list with its closing bracket, taken one element at a time. */
  lemma JoinStep(parts: seq<Text>, close: CodeUnit, r: Text)
    requires parts != []
    ensures Join(parts) + [close] + r == parts[0] + AfterFirst(parts, close, r)
  {
  }

  /** What follows the first element: the closing bracket, or a comma and the other elements. */
  function AfterFirst(parts: seq<Text>, close: CodeUnit, r: Text): (t: Text)
    requires parts != []
    ensures t != [] && t[0] == (if |parts| == 1 then close else COMMA)
    ensures t[1..] == if |parts| == 1 then r else Join(parts[1..]) + [close] + r
  {
    if |parts| == 1 then [close] + r else [COMMA] + (Join(parts[1..]) + [close] + r)
  }

  /** Both lists end there or both go on. */
  lemma AfterFirstReadable(ps: seq<Text>, qs: seq<Text>, close: CodeUnit, r: Text, q: Text)
    requires ps != [] && qs != [] && close != COMMA && AfterFirst(ps, close, r) == AfterFirst(qs, close, q)
    ensures |ps| == 1 <==> |qs| == 1
    ensures if |ps| == 1 then r == q else Join(ps[1..]) + [close] + r == Join(qs[1..]) + [close] + q
  {
    var x, y := AfterFirst(ps, close, r), AfterFirst(qs, close, q);
    assert x[0] == y[0] && x[1..] == y[1..];
  }

  /** Where a printed list begins: at its closing bracket, or at its first element. */
  lemma ListHead(parts: seq<Text>, close: CodeUnit, r: Text)
    ensures var t := Join(parts) + [close] + r;
      && (parts == [] ==> t[0] == close && t[1..] == r)
      && (parts != [] && parts[0] != [] ==> t[0] == parts[0][0])
  {
  }

  lemma SameKind(v: Json, w: Json, r: Text, q: Text)
    requires Print(v) + r == Print(w) + q
    ensures v.Null? == w.Null? && v.Bool? == w.Bool? && v.Num? == w.Num?
    ensures v.Str? == w.Str? && v.Arr? == w.Arr? && v.Obj? == w.Obj?
    ensures v.Bool? ==> v == w
  {
    PrintHead(v);
    PrintHead(w);
    ConcatAt(Print(v), r, 0);
    ConcatAt(Print(w), q, 0);
  }

  lemma ScalarReadable(v: Json, w: Json, r: Text, q: Text)
    requires !v.Arr? && !v.Obj? && Stops(r) && Stops(q) && Print(v) + r == Print(w) + q
    ensures v == w && r == q
  {
    SameKind(v, w, r, q);
    match v {
      case Num(m) => IntReadable(m, w.n, r, q);
      case Str(s) => QuoteReadable(s, w.s, r, q);
      case _ => assert (Print(v) + r)[|Print(v)|..] == r && (Print(w) + q)[|Print(w)|..] == q;
    }
  }

  /** What follows the opening bracket of a printed array or object. */
  lemma AfterBracket(v: Json, r: Text)
    requires v.Arr? || v.Obj?
    ensures v.Arr? ==> (Print(v) + r)[1..] == Join(PrintAll(v.items)) + [RBRACKET] + r
    ensures v.Obj? ==>
      && (forall k :: k in SortKeys(Keys(v.fields)) ==> k in Keys(v.fields))
      && (Print(v) + r)[1..] == Join(PrintMembers(v.fields, SortKeys(Keys(v.fields)))) + [RBRACE] + r
  {
    if v.Obj? {
      SortedIsPermutation(Keys(v.fields));
      AfterOpening(LBRACE, Join(PrintMembers(v.fields, SortKeys(Keys(v.fields)))), RBRACE, r);
    } else {
      AfterOpening(LBRACKET, Join(PrintAll(v.items)), RBRACKET, r);
    }
  }

  lemma {:induction false} ValueReadable(v: Json, w: Json, r: Text, q: Text)
    requires WellFormed(v) && WellFormed(w) && Stops(r) && Stops(q) && Print(v) + r == Print(w) + q
    ensures Equivalent(v, w) && r == q
    decreases v, 2
  {
    SameKind(v, w, r, q);
    if v.Arr? {
      AfterBracket(v, r);
      AfterBracket(w, q);
      ItemsReadable(v.items, w.items, r, q);
    } else if v.Obj? {
      AfterBracket(v, r);
      AfterBracket(w, q);
      MembersReadable(v.fields, SortKeys(Keys(v.fields)), w.fields, SortKeys(Keys(w.fields)), r, q);
      MembersEquivalent(v.fields, w.fields);
    } else {
      ScalarReadable(v, w, r, q);
    }
  }

  lemma {:induction false} ItemsReadable(xs: seq<Json>, ys: seq<Json>, r: Text, q: Text)
    requires forall i :: 0 <= i < |xs| ==> WellFormed(xs[i])
    requires forall i :: 0 <= i < |ys| ==> WellFormed(ys[i])
    requires Join(PrintAll(xs)) + [RBRACKET] + r == Join(PrintAll(ys)) + [RBRACKET] + q
    ensures |xs| == |ys| && r == q
    ensures forall i :: 0 <= i < |xs| ==> Equivalent(xs[i], ys[i])
    decreases xs, 0
  {
    ListHead(PrintAll(xs), RBRACKET, r);
    ListHead(PrintAll(ys), RBRACKET, q);
    if xs != [] { PrintHead(xs[0]); }
    if ys != [] { PrintHead(ys[0]); }
    if xs != [] && ys != [] {
      var ps, qs := PrintAll(xs), PrintAll(ys);
      JoinStep(ps, RBRACKET, r);
      JoinStep(qs, RBRACKET, q);
      ValueReadable(xs[0], ys[0], AfterFirst(ps, RBRACKET, r), AfterFirst(qs, RBRACKET, q));
      AfterFirstReadable(ps, qs, RBRACKET, r, q);
      assert ps[1..] == PrintAll(xs[1..]) && qs[1..] == PrintAll(ys[1..]);
      if |xs| > 1 { ItemsReadable(xs[1..], ys[1..], r, q); }
      forall i | 0 <= i < |xs| ensures Equivalent(xs[i], ys[i]) {
        if i > 0 { assert xs[i] == xs[1..][i - 1] && ys[i] == ys[1..][i - 1]; }
      }
    }
  }

  lemma {:induction false} MembersReadable(fs: seq<Field>, ks: seq<Text>, gs: seq<Field>, ls: seq<Text>, r: Text, q: Text)
    requires forall i :: 0 <= i < |fs| ==> WellFormed(fs[i].value)
    requires forall i :: 0 <= i < |gs| ==> WellFormed(gs[i].value)
    requires forall k :: k in ks ==> k in Keys(fs)
    requires forall k :: k in ls ==> k in Keys(gs)
    requires Join(PrintMembers(fs, ks)) + [RBRACE] + r == Join(PrintMembers(gs, ls)) + [RBRACE] + q
    ensures ks == ls && r == q
    ensures forall k :: k in ks ==> SameValue(fs, gs, k)
    decreases fs, 0, |ks|
  {
    var ps, qs := PrintMembers(fs, ks), PrintMembers(gs, ls);
    ListHead(ps, RBRACE, r);
    ListHead(qs, RBRACE, q);
    if ks != [] && ls != [] {
      JoinStep(ps, RBRACE, r);
      JoinStep(qs, RBRACE, q);
      MemberReadable(fs, ks[0], gs, ls[0], AfterFirst(ps, RBRACE, r), AfterFirst(qs, RBRACE, q));
      AfterFirstReadable(ps, qs, RBRACE, r, q);
      if |ks| > 1 {
        assert ps[1..] == PrintMembers(fs, ks[1..]) && qs[1..] == PrintMembers(gs, ls[1..]);
        MembersReadable(fs, ks[1..], gs, ls[1..], r, q);
      }
      FirstAndOthers(fs, gs, ks, ls);
    }
  }

  lemma FirstAndOthers(fs: seq<Field>, gs: seq<Field>, ks: seq<Text>, ls: seq<Text>)
    requires ks != [] && ls != [] && ks[0] == ls[0] && ks[1..] == ls[1..] && SameValue(fs, gs, ks[0])
    requires forall k :: k in ks[1..] ==> SameValue(fs, gs, k)
    ensures ks == ls && forall k :: k in ks ==> SameValue(fs, gs, k)
  {
    assert ks == [ks[0]] + ks[1..] && ls == [ls[0]] + ls[1..];
  }

  lemma RegroupMember(k: Text, x: Text, r: Text)
    ensures Quote(k) + [COLON] + x + r == Quote(k) + ([COLON] + x + r)
  {
  }

  /** One member of an object: its key, its value and the rest of the text are determined. */
  lemma {:induction false} MemberReadable(fs: seq<Field>, k: Text, gs: seq<Field>, l: Text, xt: Text, yt: Text)
    requires forall i :: 0 <= i < |fs| ==> WellFormed(fs[i].value)
    requires forall i :: 0 <= i < |gs| ==> WellFormed(gs[i].value)
    requires k in Keys(fs) && l in Keys(gs)
    requires Stops(xt) && Stops(yt)
    requires Quote(k) + [COLON] + Print(fs[IndexOf(fs, k)].value) + xt
          == Quote(l) + [COLON] + Print(gs[IndexOf(gs, l)].value) + yt
    ensures k == l && xt == yt && SameValue(fs, gs, k)
    decreases fs, 0, 0
  {
    var v, w := fs[IndexOf(fs, k)].value, gs[IndexOf(gs, l)].value;
    RegroupMember(k, Print(v), xt);
    RegroupMember(l, Print(w), yt);
    QuoteReadable(k, l, [COLON] + Print(v) + xt, [COLON] + Print(w) + yt);
    AfterHead(COLON, Print(v), xt);
    AfterHead(COLON, Print(w), yt);
    ValueReadable(v, w, xt, yt);
  }

  ghost predicate HasMember(gs: seq<Field>, f: Field) {
    exists j :: 0 <= j < |gs| && f.key == gs[j].key && Equivalent(f.value, gs[j].value)
  }

  ghost predicate SameValue(fs: seq<Field>, gs: seq<Field>, k: Text) {
    k in Keys(fs) && k in Keys(gs) && Equivalent(fs[IndexOf(fs, k)].value, gs[IndexOf(gs, k)].value)
  }

  lemma MemberIsThere(fs: seq<Field>, gs: seq<Field>, i: nat)
    requires DistinctKeys(fs) && i < |fs| && SameValue(fs, gs, fs[i].key)
    ensures HasMember(gs, fs[i])
  {
    KeyIsSorted(fs, i);
    assert gs[IndexOf(gs, fs[i].key)].key == fs[i].key;
  }

  /** Same sorted keys and equivalent values under each key: the objects are equivalent. */
  lemma MembersEquivalent(fs: seq<Field>, gs: seq<Field>)
    requires DistinctKeys(fs) && SortKeys(Keys(fs)) == SortKeys(Keys(gs))
    requires forall k :: k in SortKeys(Keys(fs)) ==> SameValue(fs, gs, k)
    ensures Equivalent(Obj(fs), Obj(gs))
  {
    SortedLength(Keys(fs));
    SortedLength(Keys(gs));
    forall i | 0 <= i < |fs| ensures HasMember(gs, fs[i]) {
      KeyIsSorted(fs, i);
      MemberIsThere(fs, gs, i);
    }
  }

  lemma KeyIsSorted(fs: seq<Field>, i: nat)
    requires DistinctKeys(fs) && i < |fs|
    ensures fs[i].key in Keys(fs) && fs[i].key in SortKeys(Keys(fs)) && IndexOf(fs, fs[i].key) == i
  {
    assert Keys(fs)[i] == fs[i].key;
    SortedIsPermutation(Keys(fs));
    assert fs[i].key in multiset(Keys(fs));
  }

  // ---------------------------------------------------------------- canonicity

  lemma {:induction false} EquivalentPrintsSame(v: Json, w: Json)
    requires WellFormed(v) && WellFormed(w) && Equivalent(v, w)
    ensures Print(v) == Print(w)
    decreases v, 1
  {
    match v {
      case Arr(xs) => ItemsPrintSame(xs, w.items);
      case Obj(fs) => ObjectPrintsSame(fs, w.fields);
      case _ =>
    }
  }

  lemma {:induction false} ItemsPrintSame(xs: seq<Json>, ys: seq<Json>)
    requires |xs| == |ys|
    requires forall i :: 0 <= i < |xs| ==> WellFormed(xs[i]) && WellFormed(ys[i]) && Equivalent(xs[i], ys[i])
    ensures PrintAll(xs) == PrintAll(ys)
    decreases xs, 0
  {
    if xs != [] {
      EquivalentPrintsSame(xs[0], ys[0]);
      ItemsPrintSame(xs[1..], ys[1..]);
    }
  }

  lemma {:induction false} ObjectPrintsSame(fs: seq<Field>, gs: seq<Field>)
    requires WellFormed(Obj(fs)) && WellFormed(Obj(gs)) && Equivalent(Obj(fs), Obj(gs))
    ensures Print(Obj(fs)) == Print(Obj(gs))
    decreases fs, 1
  {
    SameKeys(fs, gs);
    SortedIsPermutation(Keys(fs));
    SortedIsPermutation(Keys(gs));
    SortAscending(Keys(fs));
    SortAscending(Keys(gs));
    AscendingUnique(SortKeys(Keys(fs)), SortKeys(Keys(gs)));
    MembersPrintSame(fs, gs, SortKeys(Keys(fs)));
  }

  lemma {:induction false} MembersPrintSame(fs: seq<Field>, gs: seq<Field>, ks: seq<Text>)
    requires WellFormed(Obj(fs)) && WellFormed(Obj(gs)) && Equivalent(Obj(fs), Obj(gs))
    requires forall k :: k in ks ==> k in Keys(fs) && k in Keys(gs)
    ensures PrintMembers(fs, ks) == PrintMembers(gs, ks)
    decreases fs, 0, |ks|
  {
    if ks != [] {
      var i, j := IndexOf(fs, ks[0]), IndexOf(gs, ks[0]);
      assert Equivalent(fs[i].value, gs[j].value);
      EquivalentPrintsSame(fs[i].value, gs[j].value);
      MembersPrintSame(fs, gs, ks[1..]);
    }
  }

  lemma {:induction false} DistinctKeysAsSet(fields: seq<Field>)
    requires DistinctKeys(fields)
    ensures |set k | k in Keys(fields)| == |fields|
    ensures multiset(Keys(fields)) == multiset(set k | k in Keys(fields))
  {
    if fields == [] {
      assert (set k | k in Keys(fields)) == {};
    } else {
      var n := |fields| - 1;
      DistinctKeysAsSet(fields[..n]);
      assert Keys(fields) == Keys(fields[..n]) + [fields[n].key];
      assert fields[n].key !in Keys(fields[..n]);
      assert (set k | k in Keys(fields)) == (set k | k in Keys(fields[..n])) + {fields[n].key};
    }
  }

  /** Objects that are equal up to key order have the same multiset of keys. */
  lemma SameKeys(fs: seq<Field>, gs: seq<Field>)
    requires WellFormed(Obj(fs)) && WellFormed(Obj(gs)) && Equivalent(Obj(fs), Obj(gs))
    ensures multiset(Keys(fs)) == multiset(Keys(gs))
  {
    var a, b := set k | k in Keys(fs), set k | k in Keys(gs);
    DistinctKeysAsSet(fs);
    DistinctKeysAsSet(gs);
    forall k | k in a ensures k in b {
      var i := IndexOf(fs, k);
      var j :| 0 <= j < |gs| && fs[i].key == gs[j].key && Equivalent(fs[i].value, gs[j].value);
      assert Keys(gs)[j] == k;
    }
    SubsetOfEqualSize(a, b);
  }

  lemma SubsetOfEqualSize(a: set<Text>, b: set<Text>)
    requires a <= b && |a| == |b|
    ensures a == b
  {
    assert |b - a| == |b| - |a|;
  }

  /** computeStableHash is canonical: equal output exactly for values equal up to key order. */
  lemma StableHashCanonical(v: Json, w: Json)
    requires WellFormed(v) && WellFormed(w)
    ensures Print(v) == Print(w) <==> Equivalent(v, w)
  {
    if Print(v) == Print(w) {
      assert Print(v) + [] == Print(w) + [];
      ValueReadable(v, w, [], []);
    }
    if Equivalent(v, w) {
      EquivalentPrintsSame(v, w);
    }
  }
}
