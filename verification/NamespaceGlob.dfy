/** Which keys a namespace clear touches: the Redis KEYS pattern against the L1 prefix scan. */
module NamespaceGlob {

  // ---------------------------------------------------------------- Redis patterns

  predicate Between(a: char, b: char, c: char) {
    if a <= b then a <= c <= b else b <= c <= a
  }

  /** The part of a [...] class after its opening is true of a character; a class without an end takes in the whole pattern. */
  predicate ClassHas(p: string, c: char) {
    if p == "" then false
    else if p[0] == '\\' && |p| >= 2 then p[1] == c || ClassHas(p[2..], c)
    else if p[0] == ']' then false
    else if |p| >= 3 && p[1] == '-' then Between(p[0], p[2], c) || ClassHas(p[3..], c)
    else p[0] == c || ClassHas(p[1..], c)
  }

  /** What follows the class. */
  function ClassRest(p: string): (rest: string)
    ensures |rest| <= |p|
  {
    if p == "" then ""
    else if p[0] == '\\' && |p| >= 2 then ClassRest(p[2..])
    else if p[0] == ']' then p[1..]
    else if |p| >= 3 && p[1] == '-' then ClassRest(p[3..])
    else ClassRest(p[1..])
  }

  predicate Negated(p: string) { |p| >= 2 && p[1] == '^' }

  /** The pattern after `[` or `[^`. */
  function Body(p: string): string
    requires p != ""
  {
    if Negated(p) then p[2..] else p[1..]
  }

  predicate ClassMatches(p: string, c: char)
    requires p != ""
  {
    ClassHas(Body(p), c) != Negated(p)
  }

  /** Redis glob matching. */
  predicate GlobMatch(p: string, s: string)
    decreases |p| + |s|
  {
    if p == "" then s == ""
    else if p[0] == '*' then GlobMatch(p[1..], s) || (s != "" && GlobMatch(p, s[1..]))
    else if s == "" then false
    else if p[0] == '?' then GlobMatch(p[1..], s[1..])
    else if p[0] == '\\' && |p| >= 2 then s[0] == p[1] && GlobMatch(p[2..], s[1..])
    else if p[0] == '[' then ClassMatches(p, s[0]) && GlobMatch(ClassRest(Body(p)), s[1..])
    else s[0] == p[0] && GlobMatch(p[1..], s[1..])
  }

  // ---------------------------------------------------------------- the two sides of a clear

  /** String.prototype.replace('*', ''): only the first star goes. */
  function RemoveFirstStar(s: string): string {
    if s == "" then ""
    else if s[0] == '*' then s[1..]
    else [s[0]] + RemoveFirstStar(s[1..])
  }

  function Pattern(namespace: string): string { namespace + ":*" }

  /** The prefix scan of clearL1Pattern. */
  predicate L1Covers(namespace: string, key: string) {
    RemoveFirstStar(Pattern(namespace)) <= key
  }

  predicate RedisCovers(namespace: string, key: string) {
    GlobMatch(Pattern(namespace), key)
  }

  predicate GlobFree(namespace: string) {
    '*' !in namespace && '?' !in namespace && '\\' !in namespace && '[' !in namespace
  }

  lemma {:induction false} StarMatchesAll(s: string)
    ensures GlobMatch("*", s)
  {
    if s != "" { StarMatchesAll(s[1..]); }
  }

  lemma {:induction false} LiteralThenStar(n: string, s: string)
    requires GlobFree(n)
    ensures GlobMatch(n + "*", s) <==> n <= s
  {
    if n == "" {
      assert n + "*" == "*";
      StarMatchesAll(s);
    } else {
      assert (n + "*")[1..] == n[1..] + "*";
      if s != "" {
        LiteralThenStar(n[1..], s[1..]);
        assert n == [n[0]] + n[1..] && s == [s[0]] + s[1..];
      }
    }
  }

  lemma {:induction false} NoStarPrefix(n: string, rest: string)
    requires '*' !in n
    ensures RemoveFirstStar(n + "*" + rest) == n + rest
  {
    if n == "" {
      assert n + "*" + rest == "*" + rest;
    } else {
      assert n + "*" + rest == [n[0]] + (n[1..] + "*" + rest);
      NoStarPrefix(n[1..], rest);
    }
  }

  /** On a glob-free namespace both sides cover exactly the keys under "namespace:". */
  lemma GlobFreeCoversPrefix(namespace: string, key: string)
    requires GlobFree(namespace)
    ensures RedisCovers(namespace, key) <==> namespace + ":" <= key
    ensures L1Covers(namespace, key) <==> namespace + ":" <= key
  {
    assert Pattern(namespace) == (namespace + ":") + "*";
    assert Pattern(namespace) == (namespace + ":") + "*" + "";
    LiteralThenStar(namespace + ":", key);
    NoStarPrefix(namespace + ":", "");
    assert (namespace + ":") + "" == namespace + ":";
  }

  // ---------------------------------------------------------------- patterns that match nothing

  /** The pattern has a class that no character is in. */
  ghost predicate HasEmptyClass(p: string)
    decreases |p|
  {
    if p == "" then false
    else if p[0] == '\\' && |p| >= 2 then HasEmptyClass(p[2..])
    else if p[0] == '[' then (forall c :: !ClassMatches(p, c)) || HasEmptyClass(ClassRest(Body(p)))
    else HasEmptyClass(p[1..])
  }

  lemma {:induction false} EmptyClassMatchesNothing(p: string, s: string)
    requires HasEmptyClass(p)
    ensures !GlobMatch(p, s)
    decreases |p| + |s|
  {
    if p[0] == '*' {
      EmptyClassMatchesNothing(p[1..], s);
      if s != "" { EmptyClassMatchesNothing(p, s[1..]); }
    } else if s != "" {
      if p[0] == '\\' && |p| >= 2 {
        EmptyClassMatchesNothing(p[2..], s[1..]);
      } else if p[0] == '[' {
        if ClassMatches(p, s[0]) { EmptyClassMatchesNothing(ClassRest(Body(p)), s[1..]); }
      } else {
        EmptyClassMatchesNothing(p[1..], s[1..]);
      }
    }
  }

  /** The length of the shortest keys that a pattern matches. */
  function Width(p: string): nat
    decreases |p|
  {
    if p == "" then 0
    else if p[0] == '*' then Width(p[1..])
    else if p[0] == '\\' && |p| >= 2 then 1 + Width(p[2..])
    else if p[0] == '[' then 1 + Width(ClassRest(Body(p)))
    else 1 + Width(p[1..])
  }

  lemma {:induction false} ShortestMatch(p: string) returns (s: string)
    requires !HasEmptyClass(p)
    ensures GlobMatch(p, s) && |s| == Width(p)
    decreases |p|
  {
    if p == "" {
      s := "";
    } else if p[0] == '*' {
      s := ShortestMatch(p[1..]);
    } else if p[0] == '\\' && |p| >= 2 {
      s := ShortestMatch(p[2..]);
      s := [p[1]] + s;
    } else if p[0] == '[' {
      var c :| ClassMatches(p, c);
      s := ShortestMatch(ClassRest(Body(p)));
      s := [c] + s;
    } else {
      s := ShortestMatch(p[1..]);
      s := [p[0]] + s;
    }
  }

  // ---------------------------------------------------------------- the converse

  lemma {:induction false} ClassRestOfPattern(m: string) returns (k: nat)
    ensures ClassRest(Pattern(m)) == "" || (1 <= k <= |m| && ClassRest(Pattern(m)) == Pattern(m[k..]))
    decreases |m|
  {
    var p := Pattern(m);
    k := 0;
    if m == "" {
      assert p[1..] == "*" && "*"[1..] == "";
      assert ClassRest("*") == "";
    } else if p[0] == '\\' {
      if |m| == 1 {
        assert p[2..] == "*" && "*"[1..] == "";
        assert ClassRest("*") == "";
      } else {
        assert p[2..] == Pattern(m[2..]);
        k := ClassRestOfPattern(m[2..]);
        k := k + 2;
      }
    } else if p[0] == ']' {
      assert p[1..] == Pattern(m[1..]);
      k := 1;
    } else if p[1] == '-' {
      if |m| == 2 {
        assert p[3..] == "*" && "*"[1..] == "";
        assert ClassRest("*") == "";
      } else {
        assert p[3..] == Pattern(m[3..]);
        k := ClassRestOfPattern(m[3..]);
        k := k + 3;
      }
    } else {
      assert p[1..] == Pattern(m[1..]);
      k := ClassRestOfPattern(m[1..]);
      k := k + 1;
    }
  }

  /** A star, an escape or a class takes more of the pattern than of a key. */
  lemma {:induction false} WidthBound(n: string)
    ensures Width(Pattern(n)) <= |n| + 1
    ensures '*' in n || '\\' in n || '[' in n ==> Width(Pattern(n)) <= |n|
    decreases |n|
  {
    var p := Pattern(n);
    if n == "" {
      assert p[1..] == "*" && "*"[1..] == "";
      assert Width("*") == 0;
    } else if n[0] == '\\' {
      if |n| == 1 {
        assert p[2..] == "*" && "*"[1..] == "";
        assert Width("*") == 0;
      } else {
        assert p[2..] == Pattern(n[2..]);
        WidthBound(n[2..]);
      }
    } else if n[0] == '[' {
      var m := if Negated(p) then n[2..] else n[1..];
      assert Body(p) == Pattern(m);
      var k := ClassRestOfPattern(m);
      if ClassRest(Body(p)) != "" { WidthBound(m[k..]); }
    } else {
      assert p[1..] == Pattern(n[1..]);
      WidthBound(n[1..]);
    }
  }

  /** A key for a pattern with question marks only, with 'a' for each of them. */
  function Instance(n: string): string {
    if n == "" then ":" else [if n[0] == '?' then 'a' else n[0]] + Instance(n[1..])
  }

  lemma {:induction false} InstanceDiffers(n: string)
    requires '*' !in n && '\\' !in n && '[' !in n
    ensures GlobMatch(Pattern(n), Instance(n)) && |Instance(n)| == |n| + 1
    ensures '?' in n ==> Instance(n) != n + ":"
  {
    if n == "" {
      assert Pattern(n)[1..] == "*" && ":"[1..] == "";
      StarMatchesAll("");
    } else {
      assert Pattern(n)[1..] == Pattern(n[1..]) && (n + ":")[1..] == n[1..] + ":";
      assert Instance(n)[1..] == Instance(n[1..]);
      InstanceDiffers(n[1..]);
      if n[0] == '?' { assert Instance(n)[0] == 'a' && (n + ":")[0] == '?'; }
    }
  }

  lemma {:induction false} RemoveFirstStarLength(s: string)
    ensures |RemoveFirstStar(s)| >= |s| - 1
  {
    if s != "" && s[0] != '*' { RemoveFirstStarLength(s[1..]); }
  }

  /** A namespace with a glob character, in whose pattern no class is empty: Redis covers a key that L1 does not. */
  lemma SomeKeyDiffers(namespace: string) returns (key: string)
    requires !GlobFree(namespace) && !HasEmptyClass(Pattern(namespace))
    ensures RedisCovers(namespace, key) && !L1Covers(namespace, key)
  {
    RemoveFirstStarLength(Pattern(namespace));
    if '*' in namespace || '\\' in namespace || '[' in namespace {
      key := ShortestMatch(Pattern(namespace));
      WidthBound(namespace);
    } else {
      key := Instance(namespace);
      InstanceDiffers(namespace);
      assert Pattern(namespace) == (namespace + ":") + "*" + "";
      NoStarPrefix(namespace + ":", "");
      assert (namespace + ":") + "" == namespace + ":";
    }
  }

  /** The L1 scan and the Redis pattern cover the same keys exactly when the namespace has no glob character. */
  lemma SameCoverageIffGlobFree(namespace: string)
    ensures (forall key :: L1Covers(namespace, key) <==> RedisCovers(namespace, key)) <==> GlobFree(namespace)
  {
    if GlobFree(namespace) {
      forall key ensures L1Covers(namespace, key) <==> RedisCovers(namespace, key) {
        GlobFreeCoversPrefix(namespace, key);
      }
    } else if HasEmptyClass(Pattern(namespace)) {
      var key := RemoveFirstStar(Pattern(namespace));
      EmptyClassMatchesNothing(Pattern(namespace), key);
      assert L1Covers(namespace, key) && !RedisCovers(namespace, key);
    } else {
      var key := SomeKeyDiffers(namespace);
    }
  }

  /** Every key that Redis covers leaves L1 too: the namespace is glob-free, or its pattern covers nothing. */
  ghost predicate Followed(namespace: string) {
    GlobFree(namespace) || HasEmptyClass(Pattern(namespace))
  }

  lemma FollowedIff(namespace: string)
    ensures (forall key :: RedisCovers(namespace, key) ==> L1Covers(namespace, key)) <==> Followed(namespace)
  {
    if GlobFree(namespace) {
      SameCoverageIffGlobFree(namespace);
    } else if HasEmptyClass(Pattern(namespace)) {
      forall key ensures !RedisCovers(namespace, key) { EmptyClassMatchesNothing(Pattern(namespace), key); }
    } else {
      var key := SomeKeyDiffers(namespace);
    }
  }
}
