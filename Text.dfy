/** String operations the two generators borrow from their host languages:
    ASCII case mapping, splitting on a separator character, substring search,
    and replacement of the first occurrence (JavaScript's `String.replace` with
    a string pattern) or of every occurrence (Python's `str.replace`). */
module Text {

  // ---------------------------------------------------------------------
  // Letter case
  // ---------------------------------------------------------------------

  function Upper(c: char): char {
    if 'a' <= c <= 'z' then (c as int - 32) as char else c
  }

  function Lower(c: char): char {
    if 'A' <= c <= 'Z' then (c as int + 32) as char else c
  }

  function LowerString(s: string): (r: string)
    ensures |r| == |s|
    ensures forall i :: 0 <= i < |s| ==> r[i] == Lower(s[i])
  {
    seq(|s|, i requires 0 <= i < |s| => Lower(s[i]))
  }

  /** First character upper-cased, the rest lower-cased: the title-casing both
      scripts write as `s.substr(0,1).toUpperCase() + s.substr(1).toLowerCase()`
      and `s[0:1].upper() + s[1:].lower()`. */
  function TitleCase(s: string): (r: string)
    ensures |r| == |s|
  {
    if s == [] then [] else [Upper(s[0])] + LowerString(s[1..])
  }

  /** `a` and `b` differ at most in the case of their letters. */
  predicate SameUpToCase(a: string, b: string) {
    |a| == |b| && forall i :: 0 <= i < |a| ==> Lower(a[i]) == Lower(b[i])
  }

  lemma TitleCaseSameUpToCase(s: string)
    ensures SameUpToCase(TitleCase(s), s)
  {
  }

  lemma SameUpToCaseConcat(a1: string, b1: string, a2: string, b2: string)
    requires SameUpToCase(a1, b1) && SameUpToCase(a2, b2)
    ensures SameUpToCase(a1 + a2, b1 + b2)
  {
    forall i | 0 <= i < |a1 + a2|
      ensures Lower((a1 + a2)[i]) == Lower((b1 + b2)[i])
    {
      if i >= |a1| {
        assert (a1 + a2)[i] == a2[i - |a1|] && (b1 + b2)[i] == b2[i - |b1|];
      }
    }
  }

  /** Case changes never create or remove an underscore. */
  lemma SameUpToCaseUnderscore(a: string, b: string)
    requires SameUpToCase(a, b)
    ensures ('_' in a) <==> ('_' in b)
  {
    if '_' in a {
      var i :| 0 <= i < |a| && a[i] == '_';
      assert Lower(b[i]) == '_';
    }
    if '_' in b {
      var i :| 0 <= i < |b| && b[i] == '_';
      assert Lower(a[i]) == '_';
    }
  }

  // ---------------------------------------------------------------------
  // Splitting and joining
  // ---------------------------------------------------------------------

  /** `s.split(d)` in both languages: the maximal runs between separators,
      empty runs included, so the empty string gives `[""]`. */
  function Split(s: string, d: char): (parts: seq<string>)
    ensures |parts| >= 1
  {
    if s == [] then [[]]
    else
      var rest := Split(s[1..], d);
      if s[0] == d then [[]] + rest else [[s[0]] + rest[0]] + rest[1..]
  }

  /** The parts joined with `d` between consecutive ones. */
  function Join(parts: seq<string>, d: char): string
    requires |parts| >= 1
  {
    if |parts| == 1 then parts[0] else parts[0] + [d] + Join(parts[1..], d)
  }

  function Concat(parts: seq<string>): string {
    if parts == [] then [] else parts[0] + Concat(parts[1..])
  }

  /** `s` with every occurrence of `d` deleted. */
  function Remove(s: string, d: char): (r: string)
    ensures d !in r
  {
    if s == [] then [] else (if s[0] == d then [] else [s[0]]) + Remove(s[1..], d)
  }

  lemma {:induction false} SplitNoSeparator(s: string, d: char)
    requires d !in s
    ensures Split(s, d) == [s]
  {
    if s != [] {
      assert s[0] in s && forall c :: c in s[1..] ==> c in s;
      SplitNoSeparator(s[1..], d);
      assert [s[0]] + s[1..] == s;
    }
  }

  /** Deleting a character that does not occur changes nothing. */
  lemma {:induction false} RemoveAbsent(s: string, d: char)
    requires d !in s
    ensures Remove(s, d) == s
  {
    if s != [] {
      assert s[0] in s && forall c :: c in s[1..] ==> c in s;
      RemoveAbsent(s[1..], d);
      assert [s[0]] + s[1..] == s;
    }
  }

  /** The first separator ends the first part. */
  lemma {:induction false} SplitAtFirst(a: string, b: string, d: char)
    requires d !in a
    ensures Split(a + [d] + b, d) == [a] + Split(b, d)
  {
    if a != [] {
      assert a[0] in a && forall c :: c in a[1..] ==> c in a;
      assert (a + [d] + b)[1..] == a[1..] + [d] + b;
      SplitAtFirst(a[1..], b, d);
      assert [a[0]] + a[1..] == a;
    } else {
      assert ([d] + b)[1..] == b;
    }
  }

  /** A name with one separator splits into the two sides. */
  lemma SplitTwo(a: string, b: string, d: char)
    requires d !in a && d !in b
    ensures Split(a + [d] + b, d) == [a, b]
  {
    SplitAtFirst(a, b, d);
    SplitNoSeparator(b, d);
  }

  /** Joining the parts of a split with the separator gives back the input. */
  lemma {:induction false} SplitJoin(s: string, d: char)
    ensures Join(Split(s, d), d) == s
  {
    if s != [] {
      var rest := Split(s[1..], d);
      SplitJoin(s[1..], d);
      if s[0] == d {
        assert ([[]] + rest)[1..] == rest;
      } else {
        var parts := [[s[0]] + rest[0]] + rest[1..];
        assert Split(s, d) == parts;
        if |rest| > 1 {
          assert parts[1..] == rest[1..];
        }
      }
    }
  }

  /** No part of a split holds the separator, and concatenating the parts
      gives the input with the separators deleted. */
  lemma {:induction false} SplitParts(s: string, d: char)
    ensures forall p :: p in Split(s, d) ==> d !in p
    ensures Concat(Split(s, d)) == Remove(s, d)
  {
    if s != [] {
      var rest := Split(s[1..], d);
      SplitParts(s[1..], d);
      if s[0] == d {
        assert ([[]] + rest)[1..] == rest;
      } else {
        var parts := [[s[0]] + rest[0]] + rest[1..];
        assert Split(s, d) == parts;
        assert parts[1..] == rest[1..];
        assert Concat(rest) == rest[0] + Concat(rest[1..]);
        forall p | p in parts ensures d !in p {
          if p != parts[0] {
            assert p in rest;
          } else {
            assert rest[0] in rest;
          }
        }
      }
    }
  }

  // ---------------------------------------------------------------------
  // Substrings
  // ---------------------------------------------------------------------

  predicate StartsWith(s: string, p: string) {
    |p| <= |s| && s[..|p|] == p
  }

  /** `p` occurs somewhere in `s`. */
  predicate Contains(s: string, p: string) {
    exists i :: 0 <= i <= |s| - |p| && StartsWith(s[i..], p)
  }

  predicate IsLineTerminator(c: char) {
    c == '\n' || c == '\r' || c == '\U{2028}' || c == '\U{2029}'
  }

  /** `p` starts `s` or one of its lines: what a JavaScript regular
      expression `/^p/m` tests. */
  predicate LineStartsWith(s: string, p: string) {
    StartsWith(s, p) || exists i :: 0 <= i < |s| && IsLineTerminator(s[i]) && StartsWith(s[i + 1..], p)
  }

  /** The leftmost occurrence of `p` replaced by `q`. */
  function ReplaceFirst(s: string, p: string, q: string): string
    decreases |s|
  {
    if StartsWith(s, p) then q + s[|p|..]
    else if s == [] then s
    else [s[0]] + ReplaceFirst(s[1..], p, q)
  }

  /** Every occurrence of `p` found scanning left to right without overlap
      replaced by `q`. */
  function ReplaceAll(s: string, p: string, q: string): string
    requires p != []
    decreases |s|
  {
    if s == [] then s
    else if StartsWith(s, p) then q + ReplaceAll(s[|p|..], p, q)
    else [s[0]] + ReplaceAll(s[1..], p, q)
  }

  /** The number of occurrences `ReplaceAll` replaces. */
  function Count(s: string, p: string): nat
    requires p != []
    decreases |s|
  {
    if s == [] then 0
    else if StartsWith(s, p) then 1 + Count(s[|p|..], p)
    else Count(s[1..], p)
  }

  /** Replacing a pattern that does not occur changes nothing. */
  lemma {:induction false} ReplaceAbsent(s: string, p: string, q: string)
    requires p != [] && Count(s, p) == 0
    ensures ReplaceAll(s, p, q) == s
    ensures ReplaceFirst(s, p, q) == s
  {
    if s != [] {
      ReplaceAbsent(s[1..], p, q);
    }
  }

  /** When the pattern occurs at most once, replacing the first occurrence
      and replacing all occurrences agree. */
  lemma {:induction false} ReplaceOnce(s: string, p: string, q: string)
    requires p != [] && Count(s, p) <= 1
    ensures ReplaceAll(s, p, q) == ReplaceFirst(s, p, q)
  {
    if s != [] {
      if StartsWith(s, p) {
        ReplaceAbsent(s[|p|..], p, q);
      } else {
        ReplaceOnce(s[1..], p, q);
      }
    }
  }

  /** The leftmost occurrence is the one after the longest prefix in which
      none starts: replacing it leaves the text on either side as it was. */
  lemma {:induction false} ReplaceFirstAt(a: string, p: string, b: string, q: string)
    requires forall j :: 0 <= j < |a| ==> !StartsWith((a + p + b)[j..], p)
    ensures ReplaceFirst(a + p + b, p, q) == a + q + b
  {
    var s := a + p + b;
    if a == [] {
      assert s == p + b && s[..|p|] == p && s[|p|..] == b;
    } else {
      assert !StartsWith(s[0..], p);
      assert s[0..] == s;
      assert s[1..] == a[1..] + p + b;
      forall j | 0 <= j < |a[1..]|
        ensures !StartsWith((a[1..] + p + b)[j..], p)
      {
        assert (a[1..] + p + b)[j..] == s[j + 1..];
      }
      ReplaceFirstAt(a[1..], p, b, q);
      assert ReplaceFirst(s, p, q) == [s[0]] + ReplaceFirst(s[1..], p, q);
      assert s[0] == a[0] && [a[0]] + a[1..] == a;
      assert [a[0]] + (a[1..] + q + b) == a + q + b;
    }
  }

  /** Replacing every occurrence scans past a prefix holding none, replaces
      the occurrence that follows, and carries on after it. */
  lemma {:induction false} ReplaceAllAt(a: string, p: string, b: string, q: string)
    requires p != []
    requires forall j :: 0 <= j < |a| ==> !StartsWith((a + p + b)[j..], p)
    ensures ReplaceAll(a + p + b, p, q) == a + q + ReplaceAll(b, p, q)
  {
    var s := a + p + b;
    if a == [] {
      assert s == p + b && s[..|p|] == p && s[|p|..] == b;
    } else {
      assert !StartsWith(s[0..], p);
      assert s[0..] == s;
      assert s[1..] == a[1..] + p + b;
      forall j | 0 <= j < |a[1..]|
        ensures !StartsWith((a[1..] + p + b)[j..], p)
      {
        assert (a[1..] + p + b)[j..] == s[j + 1..];
      }
      ReplaceAllAt(a[1..], p, b, q);
      assert ReplaceAll(s, p, q) == [s[0]] + ReplaceAll(s[1..], p, q);
      assert s[0] == a[0] && [a[0]] + a[1..] == a;
      assert [a[0]] + (a[1..] + q + ReplaceAll(b, p, q)) == a + q + ReplaceAll(b, p, q);
    }
  }

  /** Replacing the leftmost occurrence changes the length by the
      difference between the two words, and only when there is one. */
  lemma {:induction false} ReplaceFirstLength(s: string, p: string, q: string)
    requires p != []
    ensures |ReplaceFirst(s, p, q)| == |s| + (if Count(s, p) == 0 then 0 else |q| - |p|)
  {
    if !StartsWith(s, p) && s != [] {
      ReplaceFirstLength(s[1..], p, q);
    }
  }

  /** Replacing every occurrence changes the length by the difference
      between the two words once per occurrence. */
  lemma {:induction false} ReplaceAllLength(s: string, p: string, q: string)
    requires p != []
    ensures |ReplaceAll(s, p, q)| == |s| + Count(s, p) * (|q| - |p|)
  {
    if s != [] {
      if StartsWith(s, p) {
        ReplaceAllLength(s[|p|..], p, q);
        MultiplyStep(Count(s[|p|..], p), |q| - |p|);
      } else {
        ReplaceAllLength(s[1..], p, q);
      }
    }
  }

  lemma MultiplyStep(c: int, k: int)
    ensures (c + 1) * k == c * k + k
  {
  }

  /** A same-length replacement preserves the length. */
  lemma {:induction false} ReplaceKeepsLength(s: string, p: string, q: string)
    requires p != [] && |p| == |q|
    ensures |ReplaceAll(s, p, q)| == |s|
    ensures |ReplaceFirst(s, p, q)| == |s|
  {
    if s != [] {
      if StartsWith(s, p) {
        ReplaceKeepsLength(s[|p|..], p, q);
      } else {
        ReplaceKeepsLength(s[1..], p, q);
      }
    }
  }
}
