/** The usual optional value: `None` stands for JavaScript's `undefined`. */
module Wrappers {
  datatype Option<+T> = None | Some(value: T)
}

/**
 * The few JavaScript string operations the service worker and the bundler
 * configuration rely on: `includes`, `startsWith`, `endsWith` and `split`
 * on a one-character separator, with the facts about them that the other
 * modules need.
 */
module Text {

  /** `sub` occurs in `s` starting at index `i`. */
  predicate OccursAt(s: string, sub: string, i: nat) {
    i + |sub| <= |s| && s[i..i + |sub|] == sub
  }

  /** JavaScript's `s.includes(sub)`. */
  predicate Includes(s: string, sub: string) {
    exists i :: 0 <= i <= |s| - |sub| && OccursAt(s, sub, i)
  }

  /** JavaScript's `s.startsWith(p)`. */
  predicate StartsWith(s: string, p: string) {
    p <= s
  }

  /** JavaScript's `s.endsWith(suffix)`. */
  predicate EndsWith(s: string, suffix: string) {
    |suffix| <= |s| && s[|s| - |suffix|..] == suffix
  }

  lemma IncludesAt(s: string, sub: string, i: nat)
    requires OccursAt(s, sub, i)
    ensures Includes(s, sub)
  {
  }

  /** A string includes each of its prefixes. */
  lemma IncludesPrefix(s: string, p: string)
    requires StartsWith(s, p)
    ensures Includes(s, p)
  {
    assert OccursAt(s, p, 0);
  }

  /** A string includes each of its suffixes. */
  lemma IncludesSuffix(a: string, b: string)
    ensures Includes(a + b, b)
  {
    assert (a + b)[|a|..|a| + |b|] == b;
    assert OccursAt(a + b, b, |a|);
  }

  /** Inclusion is transitive: an id that includes `react-router-dom` includes `react`. */
  lemma IncludesTransitive(s: string, t: string, u: string)
    requires Includes(s, t) && Includes(t, u)
    ensures Includes(s, u)
  {
    var i :| 0 <= i <= |s| - |t| && OccursAt(s, t, i);
    var j :| 0 <= j <= |t| - |u| && OccursAt(t, u, j);
    forall k | 0 <= k < |u|
      ensures s[i + j + k] == u[k]
    {
      assert s[i..i + |t|][j + k] == t[j + k];
      assert t[j..j + |u|][k] == u[k];
    }
    assert s[i + j..i + j + |u|] == u;
    IncludesAt(s, u, i + j);
  }

  /** Every character of an included string occurs in the including one. */
  lemma IncludesChar(s: string, sub: string, k: nat)
    requires Includes(s, sub) && k < |sub|
    ensures sub[k] in s
  {
    var i :| 0 <= i <= |s| - |sub| && OccursAt(s, sub, i);
    assert s[i..i + |sub|][k] == s[i + k];
  }

  /** A string cannot include a string that has a character it lacks. */
  lemma NotIncludes(s: string, sub: string, k: nat)
    requires k < |sub| && sub[k] !in s
    ensures !Includes(s, sub)
  {
    if Includes(s, sub) {
      IncludesChar(s, sub, k);
    }
  }

  /**
   * JavaScript's `s.split(sep)` for a one-character separator: the pieces
   * between consecutive separators, so there is always at least one piece,
   * and an empty string splits into one empty piece.
   */
  function Split(s: string, sep: char): (parts: seq<string>)
    ensures |parts| >= 1
  {
    if s == [] then [[]]
    else
      var rest := Split(s[1..], sep);
      if s[0] == sep then [[]] + rest
      else [[s[0]] + rest[0]] + rest[1..]
  }

  /** There is one more piece than there are separators. */
  lemma {:induction false} SplitCount(s: string, sep: char)
    ensures |Split(s, sep)| == multiset(s)[sep] + 1
  {
    if s != [] {
      SplitCount(s[1..], sep);
      assert s == [s[0]] + s[1..];
    }
  }

  /** No piece holds the separator. */
  lemma {:induction false} SplitPieces(s: string, sep: char)
    ensures forall k :: 0 <= k < |Split(s, sep)| ==> sep !in Split(s, sep)[k]
  {
    if s != [] {
      SplitPieces(s[1..], sep);
      var rest := Split(s[1..], sep);
      if s[0] != sep {
        assert sep !in rest[0];
        assert forall k :: 1 <= k < |rest| ==> Split(s, sep)[k] == rest[k];
      } else {
        assert forall k :: 1 <= k < |rest| + 1 ==> Split(s, sep)[k] == rest[k - 1];
      }
    }
  }

  /** JavaScript's `parts.join(sep)`. */
  function Join(parts: seq<string>, sep: char): string
    requires |parts| >= 1
  {
    if |parts| == 1 then parts[0] else parts[0] + [sep] + Join(parts[1..], sep)
  }

  /** The last element of a non-empty sequence: `xs.slice(-1)[0]` and `xs[xs.length - 1]`. */
  function Last<T>(xs: seq<T>): T
    requires |xs| >= 1
  {
    xs[|xs| - 1]
  }

  /** Joining the pieces of a split with the separator gives the string back. */
  lemma {:induction false} SplitJoin(s: string, sep: char)
    ensures Join(Split(s, sep), sep) == s
  {
    if s != [] {
      SplitJoin(s[1..], sep);
      SplitJoinStep(s, sep);
      assert s == [s[0]] + s[1..];
    }
  }

  /** Splitting and joining a string puts its first character back in front. */
  lemma SplitJoinStep(s: string, sep: char)
    requires s != []
    ensures Join(Split(s, sep), sep) == [s[0]] + Join(Split(s[1..], sep), sep)
  {
    var rest := Split(s[1..], sep);
    if s[0] == sep {
      SplitSeparatorFirst(s, sep);
    } else if |rest| == 1 {
      assert Split(s, sep) == [[s[0]] + rest[0]];
    } else {
      var parts := [[s[0]] + rest[0]] + rest[1..];
      assert Split(s, sep) == parts;
      assert parts[1..] == rest[1..];
      JoinHead(parts, sep);
      JoinHead(rest, sep);
    }
  }

  lemma SplitSeparatorFirst(s: string, sep: char)
    requires s != [] && s[0] == sep
    ensures Join(Split(s, sep), sep) == [sep] + Join(Split(s[1..], sep), sep)
  {
    var rest := Split(s[1..], sep);
    var parts := [[]] + rest;
    assert Split(s, sep) == parts;
    assert parts[1..] == rest;
    JoinHead(parts, sep);
  }

  /** Joining pieces is their first one, then the separator and the rest, joined. */
  lemma JoinHead(parts: seq<string>, sep: char)
    requires |parts| > 1
    ensures Join(parts, sep) == parts[0] + ([sep] + Join(parts[1..], sep))
  {
  }

  /** A string without the separator splits into itself alone. */
  lemma SplitWithoutSeparator(s: string, sep: char)
    requires sep !in s
    ensures Split(s, sep) == [s]
  {
    assert multiset(s)[sep] == 0;
    SplitJoin(s, sep);
  }

  /**
   * The last piece of a split is the longest separator-free suffix: it ends
   * the string, holds no separator, and is either the whole string or is
   * preceded by a separator.
   */
  lemma {:induction false} SplitLastSuffix(s: string, sep: char)
    ensures var t := Last(Split(s, sep));
      && |t| <= |s| && s[|s| - |t|..] == t
      && sep !in t
      && (|t| < |s| ==> s[|s| - |t| - 1] == sep)
  {
    if s != [] {
      var tail := s[1..];
      SplitLastSuffix(tail, sep);
      var t := Last(Split(tail, sep));
      SplitLastStep(s, sep);
      if Last(Split(s, sep)) == s {
        assert t == tail;
        assert s == [s[0]] + tail;
      } else {
        assert tail[|tail| - |t|..] == s[|s| - |t|..];
        assert |t| < |tail| ==> tail[|tail| - |t| - 1] == s[|s| - |t| - 1];
        if |t| == |tail| {
          assert t == tail && multiset(tail)[sep] == 0;
          SplitCount(tail, sep);
        }
      }
    }
  }

  /** The last piece of a split grows by the first character only when the rest holds no separator. */
  lemma SplitLastStep(s: string, sep: char)
    requires s != []
    ensures var rest := Split(s[1..], sep);
      if s[0] != sep && |rest| == 1 then Last(Split(s, sep)) == s && Last(rest) == s[1..]
      else Last(Split(s, sep)) == Last(rest)
  {
    var rest := Split(s[1..], sep);
    if s[0] == sep {
      assert Split(s, sep) == [[]] + rest;
    } else if |rest| == 1 {
      SplitJoin(s[1..], sep);
      assert s == [s[0]] + s[1..];
    } else {
      assert Split(s, sep) == [[s[0]] + rest[0]] + rest[1..];
    }
  }

  /** When `b` holds no separator, the last piece of `a + [sep] + b` is `b`. */
  lemma SplitLastAfter(a: string, b: string, sep: char)
    requires sep !in b
    ensures Last(Split(a + [sep] + b, sep)) == b
  {
    var s := a + [sep] + b;
    SplitLastSuffix(s, sep);
    forall k | |s| - |b| <= k < |s|
      ensures s[k] != sep
    {
      assert s[k] == b[k - (|s| - |b|)];
    }
    assert s[|s| - |b| - 1] == sep;
    assert s[|s| - |b|..] == b;
  }
}
