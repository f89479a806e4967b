/**
 * The JavaScript string operations the services rely on: `Array.prototype.join`,
 * `String.prototype.trim`, `split(/\s+/)`, `replace(/"/g, '')`, the `\s` character
 * class and ASCII case folding as the `i` flag of a non-Unicode regular expression
 * does it.
 */
module Text {

  /** `parts.join(sep)`: the parts, in order, with `sep` between neighbours. */
  function Join(parts: seq<string>, sep: string): string
    decreases |parts|
  {
    if |parts| == 0 then ""
    else if |parts| == 1 then parts[0]
    else parts[0] + sep + Join(parts[1..], sep)
  }

  /** `t` occurs in `s` starting at offset `k`. */
  predicate OccursAt(t: string, s: string, k: nat)
  {
    k + |t| <= |s| && s[k..k + |t|] == t
  }

  /** `s.includes(t)`. */
  predicate Contains(s: string, t: string)
  {
    exists k: nat | k <= |s| :: OccursAt(t, s, k)
  }

  /** `s.startsWith(prefix)`. */
  predicate StartsWith(s: string, prefix: string)
  {
    |prefix| <= |s| && s[..|prefix|] == prefix
  }

  lemma ContainsSelf(t: string)
    ensures Contains(t, t)
  {
    assert OccursAt(t, t, 0);
  }

  /** An occurrence stays an occurrence when text is added on either side. */
  lemma ContainsInContext(x: string, a: string, y: string, t: string)
    requires Contains(a, t)
    ensures Contains(x + a + y, t)
  {
    var k: nat :| k <= |a| && OccursAt(t, a, k);
    assert (x + a + y)[|x| + k .. |x| + k + |t|] == a[k..k + |t|];
    assert OccursAt(t, x + a + y, |x| + k);
  }

  /** An occurrence inside an occurrence is an occurrence. */
  lemma ContainsTransitive(s: string, t: string, u: string)
    requires Contains(s, t) && Contains(t, u)
    ensures Contains(s, u)
  {
    var k: nat :| k <= |s| && OccursAt(t, s, k);
    var m: nat :| m <= |t| && OccursAt(u, t, m);
    var w := s[k..k + |t|];
    assert w == t;
    var inner, outer := w[m..m + |u|], s[k + m .. k + m + |u|];
    assert forall x :: 0 <= x < |u| ==> outer[x] == inner[x];
    assert outer == u;
    assert OccursAt(u, s, k + m);
  }

  lemma ContainsPrepend(x: string, a: string, t: string)
    requires Contains(a, t)
    ensures Contains(x + a, t)
  {
    var k: nat :| k <= |a| && OccursAt(t, a, k);
    assert (x + a)[|x| + k .. |x| + k + |t|] == a[k..k + |t|];
    assert OccursAt(t, x + a, |x| + k);
  }

  lemma ContainsAppend(a: string, y: string, t: string)
    requires Contains(a, t)
    ensures Contains(a + y, t)
  {
    var k: nat :| k <= |a| && OccursAt(t, a, k);
    assert (a + y)[k .. k + |t|] == a[k..k + |t|];
    assert OccursAt(t, a + y, k);
  }

  /** Dropping a prefix of the first part of a concatenation. */
  lemma DropFromConcat(s: string, y: string, n: nat)
    requires n <= |s|
    ensures (s + y)[n..] == s[n..] + y
  {
  }

  /** A prefix of the first part is a prefix of the concatenation. */
  lemma StartsWithAppend(s: string, y: string, p: string)
    requires StartsWith(s, p)
    ensures StartsWith(s + y, p)
  {
    assert (s + y)[..|p|] == s[..|p|];
  }

  /** A string starts with its first part, and dropping that part leaves the rest. */
  lemma PrefixSplit(a: string, b: string)
    ensures StartsWith(a + b, a)
    ensures (a + b)[|a|..] == b
  {
    assert (a + b)[..|a|] == a;
  }

  /** A prefix of a prefix is a prefix. */
  lemma StartsWithTransitive(s: string, t: string, u: string)
    requires StartsWith(s, t) && StartsWith(t, u)
    ensures StartsWith(s, u)
  {
    assert s[..|t|][..|u|] == s[..|u|];
  }

  /** Every part of a join occurs in the joined text. */
  lemma {:induction false} JoinContainsPart(parts: seq<string>, sep: string, i: nat)
    requires i < |parts|
    ensures Contains(Join(parts, sep), parts[i])
    decreases |parts|
  {
    if |parts| == 1 {
      ContainsSelf(parts[0]);
    } else if i == 0 {
      ContainsSelf(parts[0]);
      ContainsInContext("", parts[0], sep + Join(parts[1..], sep), parts[0]);
      assert "" + parts[0] + (sep + Join(parts[1..], sep)) == Join(parts, sep);
    } else {
      JoinContainsPart(parts[1..], sep, i - 1);
      ContainsInContext(parts[0] + sep, Join(parts[1..], sep), "", parts[i]);
      assert parts[0] + sep + Join(parts[1..], sep) + "" == Join(parts, sep);
    }
  }

  /** Joining one more part appends the separator and that part. */
  lemma {:induction false} JoinSnoc(parts: seq<string>, p: string, sep: string)
    ensures Join(parts + [p], sep) == if parts == [] then p else Join(parts, sep) + sep + p
    decreases |parts|
  {
    if |parts| == 0 {
      assert parts + [p] == [p];
    } else if |parts| == 1 {
      assert (parts + [p])[1..] == [p];
    } else {
      assert (parts + [p])[1..] == parts[1..] + [p];
      JoinSnoc(parts[1..], p, sep);
    }
  }

  /**
   * The JavaScript `\s` class, which is also the set `trim()` strips: the ECMAScript
   * WhiteSpace and LineTerminator code points.
   */
  predicate IsSpace(c: char)
  {
    c == '\t' || c == '\n' || c == '\U{B}' || c == '\U{C}' || c == '\r' || c == ' '
    || c == '\U{A0}' || c == '\U{1680}' || ('\U{2000}' <= c <= '\U{200A}')
    || c == '\U{2028}' || c == '\U{2029}' || c == '\U{202F}' || c == '\U{205F}'
    || c == '\U{3000}' || c == '\U{FEFF}'
  }

  predicate IsNotSpace(c: char)
  {
    !IsSpace(c)
  }

  predicate AllSpace(s: string)
  {
    forall k :: 0 <= k < |s| ==> IsSpace(s[k])
  }

  /** Every character of `s[i..j]` satisfies `p`. */
  predicate Run(s: string, i: nat, j: nat, p: char -> bool)
    requires i <= j <= |s|
  {
    forall k :: i <= k < j ==> p(s[k])
  }

  /** The end of the longest run of characters satisfying `p` that starts at `i`. */
  function RunEnd(s: string, i: nat, p: char -> bool): (e: nat)
    requires i <= |s|
    ensures i <= e <= |s|
    ensures Run(s, i, e, p)
    ensures e == |s| || !p(s[e])
    decreases |s| - i
  {
    if i < |s| && p(s[i]) then RunEnd(s, i + 1, p) else i
  }

  /** A run that ends where `p` first fails is the longest run. */
  lemma {:induction false} RunEndIs(s: string, i: nat, j: nat, p: char -> bool)
    requires i <= j <= |s| && Run(s, i, j, p) && (j == |s| || !p(s[j]))
    ensures RunEnd(s, i, p) == j
    decreases j - i
  {
    if i < j {
      assert p(s[i]);
      RunEndIs(s, i + 1, j, p);
    }
  }

  /** The slice of `s` that is left after stripping its trailing whitespace. */
  function TrimEnd(s: string): (r: string)
    ensures |r| <= |s| && r == s[..|r|]
    ensures AllSpace(s[|r|..])
    ensures r == [] || !IsSpace(r[|r| - 1])
    decreases |s|
  {
    if |s| > 0 && IsSpace(s[|s| - 1]) then
      var init := s[..|s| - 1];
      var r := TrimEnd(init);
      assert init[..|r|] == s[..|r|];
      assert s[|r|..] == init[|r|..] + [s[|s| - 1]];
      AllSpaceSnoc(init[|r|..], s[|s| - 1]);
      r
    else s
  }

  /** Whitespace followed by one more whitespace character is whitespace. */
  lemma AllSpaceSnoc(t: string, c: char)
    requires AllSpace(t) && IsSpace(c)
    ensures AllSpace(t + [c])
  {
    assert forall k :: 0 <= k < |t| ==> (t + [c])[k] == t[k];
  }

  /**
   * `s.trim()`: the slice of `s` between its leading and its trailing whitespace,
   * which starts and ends with a character that is not whitespace.
   */
  function Trim(s: string): (r: string)
    ensures exists i, j :: 0 <= i <= j <= |s| && s[i..j] == r && AllSpace(s[..i]) && AllSpace(s[j..])
    ensures r == [] || (!IsSpace(r[0]) && !IsSpace(r[|r| - 1]))
  {
    var i := RunEnd(s, 0, IsSpace);
    var r := TrimEnd(s[i..]);
    assert s[i..][..|r|] == s[i..i + |r|];
    assert s[i..][|r|..] == s[i + |r|..];
    assert r != [] ==> r[0] == s[i];
    r
  }

  /** Trimming a second time changes nothing. */
  lemma TrimIdempotent(s: string)
    ensures Trim(Trim(s)) == Trim(s)
  {
    var r := Trim(s);
    var i := RunEnd(r, 0, IsSpace);
    assert i == 0;
    assert r[0..] == r;
    if r != [] {
      assert TrimEnd(r) == r;
    }
  }

  /**
   * `s.split(/\s+/)`: the pieces of `s` between its whitespace runs; a leading or
   * trailing run gives an empty first or last piece.
   */
  function SplitSpaces(s: string): (parts: seq<string>)
    ensures |parts| >= 1
  {
    SplitFrom(s, 0)
  }

  /** The pieces of `s[i..]` between its whitespace runs. */
  function SplitFrom(s: string, i: nat): (parts: seq<string>)
    requires i <= |s|
    ensures |parts| >= 1
    decreases |s| - i
  {
    var j := RunEnd(s, i, IsNotSpace);
    if j == |s| then [s[i..]]
    else
      assert IsSpace(s[j]);
      [s[i..j]] + SplitFrom(s, RunEnd(s, j, IsSpace))
  }

  /** A piece without whitespace followed by a whitespace run splits off first. */
  lemma SplitStep(s: string, i: nat, j: nat, k: nat)
    requires i <= j < k <= |s|
    requires Run(s, i, j, IsNotSpace) && Run(s, j, k, IsSpace)
    requires k == |s| || !IsSpace(s[k])
    ensures SplitFrom(s, i) == [s[i..j]] + SplitFrom(s, k)
  {
    assert IsSpace(s[j]);
    RunEndIs(s, i, j, IsNotSpace);
    RunEndIs(s, j, k, IsSpace);
  }

  /** A rest without whitespace is the last piece. */
  lemma SplitLast(s: string, i: nat)
    requires i <= |s| && Run(s, i, |s|, IsNotSpace)
    ensures SplitFrom(s, i) == [s[i..]]
  {
    RunEndIs(s, i, |s|, IsNotSpace);
  }

  /**
   * `s.replace(/"/g, '')` for a one-character pattern: every `ch` removed, every other
   * character kept as often as it occurs in `s`.
   */
  function RemoveAll(s: string, ch: char): (r: string)
    ensures ch !in r
    ensures |r| <= |s|
    ensures ch !in s ==> r == s
    ensures forall c :: c != ch ==> multiset(r)[c] == multiset(s)[c]
    decreases |s|
  {
    if |s| == 0 then ""
    else
      assert s == [s[0]] + s[1..];
      (if s[0] == ch then "" else [s[0]]) + RemoveAll(s[1..], ch)
  }

  /**
   * Removing works piece by piece: the characters that are kept stay in their order,
   * those of the first part before those of the second.
   */
  lemma {:induction false} RemoveAllAppend(a: string, b: string, ch: char)
    ensures RemoveAll(a + b, ch) == RemoveAll(a, ch) + RemoveAll(b, ch)
    decreases |a|
  {
    if |a| > 0 {
      var kept := if a[0] == ch then "" else [a[0]];
      assert (a + b)[0] == a[0];
      assert (a + b)[1..] == a[1..] + b;
      assert RemoveAll(a + b, ch) == kept + RemoveAll(a[1..] + b, ch);
      assert RemoveAll(a, ch) == kept + RemoveAll(a[1..], ch);
      RemoveAllAppend(a[1..], b, ch);
    } else {
      assert a + b == b;
    }
  }

  /** The upper case of an ASCII letter; every other character is its own upper case. */
  function AsciiUpper(c: char): char
  {
    if 'a' <= c <= 'z' then (c as int - 32) as char else c
  }

  /**
   * Equality up to ASCII case. A regular expression with the `i` flag and without the
   * `u` flag folds only ASCII letters onto the ASCII letters of a pattern: the rule
   * that a character outside ASCII never canonicalises to one inside it keeps, for
   * instance, U+017F from matching `s`.
   */
  predicate EqualsIgnoringCase(a: string, b: string)
  {
    |a| == |b| && forall k :: 0 <= k < |a| ==> AsciiUpper(a[k]) == AsciiUpper(b[k])
  }

  predicate IsAsciiLetter(c: char)
  {
    'a' <= c <= 'z' || 'A' <= c <= 'Z'
  }

  predicate IsAsciiDigit(c: char)
  {
    '0' <= c <= '9'
  }
}
