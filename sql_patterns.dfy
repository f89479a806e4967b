/**
 * `validateGeneratedSQL`: the advisory check that every `alias.column` reference in the
 * generated SQL names a column of the table the alias was given to.
 *
 * The regular expressions of the source are modelled by the functions of the first two
 * sections: `MatchClause` gives the match of
 * `/KEYWORD\s+([a-zA-Z_"][a-zA-Z0-9_"]*)\s+(?:AS\s+)?([a-zA-Z][a-zA-Z0-9_]*)?/gi` that
 * starts at a given index, and `Clauses` lists the matches `String.prototype.match`
 * returns; `RefEnd` and `Refs` do the same for `` new RegExp(`${alias}\.([a-zA-Z_][a-zA-Z0-9_]*)`, 'g') ``.
 * The methods scan the text with loops and are proved to return exactly those lists.
 */
module SqlPatterns {
  import opened Wrappers
  import opened Text
  import opened SchemaModel
  import opened OrderedDict

  // ----- Character classes of the patterns -----

  /** `[a-zA-Z_"]`, the first character of a table token. */
  predicate IsTableStart(c: char) { IsAsciiLetter(c) || c == '_' || c == '"' }

  /** `[a-zA-Z0-9_"]`, the other characters of a table token. */
  predicate IsTableChar(c: char) { IsAsciiLetter(c) || IsAsciiDigit(c) || c == '_' || c == '"' }

  /** `[a-zA-Z0-9_]`, the other characters of an alias or a column identifier. */
  predicate IsWordChar(c: char) { IsAsciiLetter(c) || IsAsciiDigit(c) || c == '_' }

  /** `[a-zA-Z_]`, the first character of a column identifier. */
  predicate IsIdentStart(c: char) { IsAsciiLetter(c) || c == '_' }

  /** The keywords the validator scans for; the regular expressions are case-insensitive. */
  predicate IsKeyword(keyword: string)
  {
    |keyword| > 0 && forall k :: 0 <= k < |keyword| ==> 'A' <= keyword[k] <= 'Z'
  }

  // ----- FROM and JOIN clauses -----

  /** `AS`, in any case, followed by whitespace, starts at `d`. */
  predicate AsAt(s: string, d: nat)
  {
    d + 2 < |s| && EqualsIgnoringCase(s[d..d + 2], "AS") && IsSpace(s[d + 2])
  }

  /**
   * A match of the clause pattern: where it starts, where its table token (group 1)
   * starts and ends, where the whitespace after the table ends, whether `AS` was
   * consumed, where the alias (group 2) starts and where the match ends.
   */
  datatype ClauseMatch = ClauseMatch(
    start: nat, tableStart: nat, tableEnd: nat, afterTable: nat, hasAs: bool, aliasStart: nat, end: nat)

  /**
   * The shape of a clause match in `s`: the keyword up to case, whitespace, a table
   * token, whitespace up to the next non-whitespace character, an optional `AS` (in any
   * case) followed by whitespace, and an optional alias.
   */
  ghost predicate Shape(s: string, keyword: string, m: ClauseMatch)
  {
    var a := m.start + |keyword|;
    && a < m.tableStart < m.tableEnd < m.afterTable <= m.aliasStart <= m.end <= |s|
    && EqualsIgnoringCase(s[m.start..a], keyword)
    && Run(s, a, m.tableStart, IsSpace)
    && IsTableStart(s[m.tableStart])
    && Run(s, m.tableStart, m.tableEnd, IsTableChar)
    && Run(s, m.tableEnd, m.afterTable, IsSpace)
    && (m.afterTable == |s| || !IsSpace(s[m.afterTable]))
    && (if m.hasAs then
          && m.afterTable + 2 < m.aliasStart
          && EqualsIgnoringCase(s[m.afterTable..m.afterTable + 2], "AS")
          && Run(s, m.afterTable + 2, m.aliasStart, IsSpace)
          && (m.aliasStart == |s| || !IsSpace(s[m.aliasStart]))
        else m.aliasStart == m.afterTable)
    && Run(s, m.aliasStart, m.end, IsWordChar)
    && (m.aliasStart < m.end ==> IsAsciiLetter(s[m.aliasStart]))
  }

  /**
   * The match of the clause pattern that starts at `i`, if one does. Every quantifier
   * of the pattern is greedy and what follows each one cannot start with a character it
   * consumes, so the first path the regular expression engine tries is the match: each
   * run is taken in full, `AS` is taken when whitespace follows it, and the alias is
   * taken when a letter follows.
   */
  function MatchClause(s: string, i: nat, keyword: string): (r: Option<ClauseMatch>)
    requires i <= |s|
    ensures r.Some? ==> r.value.start == i < r.value.end <= |s|
  {
    var a := i + |keyword|;
    if a > |s| || !EqualsIgnoringCase(s[i..a], keyword) then None
    else
      var b := RunEnd(s, a, IsSpace);
      if b == a || b == |s| || !IsTableStart(s[b]) then None
      else
        var c := RunEnd(s, b, IsTableChar);
        var d := RunEnd(s, c, IsSpace);
        if d == c then None
        else
          var hasAs := AsAt(s, d);
          var e := if hasAs then RunEnd(s, d + 2, IsSpace) else d;
          var f := if e < |s| && IsAsciiLetter(s[e]) then RunEnd(s, e, IsWordChar) else e;
          Some(ClauseMatch(i, b, c, d, hasAs, e, f))
  }

  /**
   * The choices the greedy quantifiers make: `AS` is consumed whenever it is there with
   * whitespace after it, an alias is taken whenever a letter follows, and a taken alias
   * runs to the last identifier character.
   */
  ghost predicate Greedy(s: string, m: ClauseMatch)
  {
    && (!m.hasAs ==> !AsAt(s, m.afterTable))
    && (m.aliasStart == m.end < |s| ==> !IsAsciiLetter(s[m.end]))
    && (m.aliasStart < m.end < |s| ==> !IsWordChar(s[m.end]))
  }

  /** A match `MatchClause` finds has the shape of the pattern and makes the greedy choices. */
  lemma MatchClauseShape(s: string, i: nat, keyword: string)
    requires i <= |s| && MatchClause(s, i, keyword).Some?
    ensures Shape(s, keyword, MatchClause(s, i, keyword).value)
    ensures Greedy(s, MatchClause(s, i, keyword).value)
  {
  }

  /**
   * Wherever the pattern can match at all, `MatchClause` finds a match, and it agrees
   * with every possible match on the keyword, the table token and the whitespace after it.
   */
  lemma MatchClauseFinds(s: string, i: nat, keyword: string, m: ClauseMatch)
    requires m.start == i && Shape(s, keyword, m)
    ensures MatchClause(s, i, keyword).Some?
    ensures var r := MatchClause(s, i, keyword).value;
      r.tableStart == m.tableStart && r.tableEnd == m.tableEnd && r.afterTable == m.afterTable
  {
    var a := i + |keyword|;
    RunEndIs(s, a, m.tableStart, IsSpace);
    assert IsSpace(s[m.tableEnd]);
    RunEndIs(s, m.tableStart, m.tableEnd, IsTableChar);
    RunEndIs(s, m.tableEnd, m.afterTable, IsSpace);
  }

  /** The greedy match is the only one: `MatchClause` is the match the regular expression returns. */
  lemma MatchClauseUnique(s: string, i: nat, keyword: string, m: ClauseMatch)
    requires m.start == i && Shape(s, keyword, m) && Greedy(s, m)
    ensures MatchClause(s, i, keyword) == Some(m)
  {
    MatchClauseFinds(s, i, keyword, m);
    var d := m.afterTable;
    if m.hasAs {
      assert IsSpace(s[d + 2]);
      assert AsAt(s, d);
      RunEndIs(s, d + 2, m.aliasStart, IsSpace);
    }
    if m.aliasStart < m.end {
      RunEndIs(s, m.aliasStart, m.end, IsWordChar);
    }
  }

  /** Where `MatchClause` finds nothing, the pattern has no match. */
  lemma MatchClauseNone(s: string, i: nat, keyword: string)
    requires i <= |s| && MatchClause(s, i, keyword).None?
    ensures forall m: ClauseMatch :: m.start == i ==> !Shape(s, keyword, m)
  {
    forall m: ClauseMatch | m.start == i && Shape(s, keyword, m) ensures false {
      MatchClauseFinds(s, i, keyword, m);
    }
  }

  /** `s.match(pattern)` with the `g` flag from index `i` on, `[]` standing for `null`. */
  function Clauses(s: string, keyword: string, i: nat): (ms: seq<string>)
    requires i <= |s|
    decreases |s| - i
  {
    if i == |s| then []
    else match MatchClause(s, i, keyword)
      case Some(m) => [s[i..m.end]] + Clauses(s, keyword, m.end)
      case None => Clauses(s, keyword, i + 1)
  }

  /** The global match of the clause pattern, computed by a left-to-right scan. */
  method FindClauses(sql: string, keyword: string) returns (matches: seq<string>)
    ensures matches == Clauses(sql, keyword, 0)
  {
    matches := [];
    var i := 0;
    while i < |sql|
      invariant i <= |sql|
      invariant matches + Clauses(sql, keyword, i) == Clauses(sql, keyword, 0)
      decreases |sql| - i
    {
      match MatchClause(sql, i, keyword) {
        case Some(m) =>
          matches := matches + [sql[i..m.end]];
          i := m.end;
        case None =>
          i := i + 1;
      }
    }
  }

  /** `parts.indexOf('AS')`: the first part that is exactly `AS`, or -1. */
  function IndexOfAs(parts: seq<string>): (r: int)
    ensures -1 <= r < |parts|
    ensures r == -1 <==> "AS" !in parts
    ensures r >= 0 ==> parts[r] == "AS" && "AS" !in parts[..r]
    decreases |parts|
  {
    if |parts| == 0 then -1
    else if parts[0] == "AS" then 0
    else
      var r := IndexOfAs(parts[1..]);
      assert r >= 0 ==> parts[..r + 1] == [parts[0]] + parts[1..][..r];
      if r == -1 then -1 else r + 1
  }

  /**
   * `parts[parts.indexOf('AS') + 1] || parts[2]`: the part after the first exact `AS`
   * when it is non-empty, otherwise the third part. Without an exact `AS` the first
   * index is 0, so the keyword as written is taken.
   */
  function AliasOf(parts: seq<string>): string
    requires |parts| >= 3
  {
    var k := IndexOfAs(parts) + 1;
    if k < |parts| && parts[k] != "" then parts[k] else parts[2]
  }

  /**
   * What one clause match adds to the alias map: the alias and the table name without
   * its double quotes, unless the alias is empty or equals that name.
   */
  function ClauseAlias(m: string): Option<(string, string)>
  {
    var parts := SplitSpaces(m);
    if |parts| >= 3 then
      var table := RemoveAll(parts[1], '"');
      var alias := AliasOf(parts);
      if alias != "" && alias != table then Some((alias, table)) else None
    else None
  }

  /** `tableAliases[alias] = tableName` for one match. */
  function Record(d: Dict<string>, m: string): (r: Dict<string>)
    requires DistinctKeys(d)
    ensures DistinctKeys(r)
  {
    match ClauseAlias(m)
    case Some((alias, table)) => Put(d, alias, table)
    case None => d
  }

  /** The `forEach` over the matches, in match order. */
  function AddAliases(d: Dict<string>, ms: seq<string>): (r: Dict<string>)
    requires DistinctKeys(d)
    ensures DistinctKeys(r)
    decreases |ms|
  {
    if ms == [] then d else AddAliases(Record(d, ms[0]), ms[1..])
  }

  /** `tableAliases` after both loops: the FROM matches first, then the JOIN matches. */
  function AliasMap(sql: string): (r: Dict<string>)
    ensures DistinctKeys(r)
  {
    AddAliases(AddAliases([], Clauses(sql, "FROM", 0)), Clauses(sql, "JOIN", 0))
  }

  /** Both alias loops of the validator. */
  method ExtractAliases(sql: string) returns (aliases: Dict<string>)
    ensures aliases == AliasMap(sql)
  {
    aliases := [];
    var fromMatches := FindClauses(sql, "FROM");
    for k := 0 to |fromMatches|
      invariant DistinctKeys(aliases)
      invariant AddAliases(aliases, fromMatches[k..]) == AddAliases([], fromMatches)
    {
      assert fromMatches[k..][1..] == fromMatches[k + 1..];
      aliases := Record(aliases, fromMatches[k]);
    }
    var afterFrom := aliases;
    var joinMatches := FindClauses(sql, "JOIN");
    for k := 0 to |joinMatches|
      invariant DistinctKeys(aliases)
      invariant AddAliases(aliases, joinMatches[k..]) == AddAliases(afterFrom, joinMatches)
    {
      assert joinMatches[k..][1..] == joinMatches[k + 1..];
      aliases := Record(aliases, joinMatches[k]);
    }
  }

  // ----- alias.column references -----

  /** The alias, a dot and the first character of an identifier start at `i`. */
  predicate RefAt(s: string, i: nat, alias: string)
    requires i <= |s|
  {
    var a := i + |alias|;
    a + 1 < |s| && s[i..a] == alias && s[a] == '.' && IsIdentStart(s[a + 1])
  }

  /**
   * The end of a match of `alias\.([a-zA-Z_][a-zA-Z0-9_]*)` that starts at `i`, if one
   * does. The alias is matched case-sensitively and the pattern has no word boundary,
   * so `u.` also matches inside `menu.id`.
   */
  function RefEnd(s: string, i: nat, alias: string): (r: Option<nat>)
    requires i <= |s|
    ensures r.Some? <==> RefAt(s, i, alias)
    ensures r.Some? ==> i + |alias| + 2 <= r.value <= |s|
    ensures r.Some? ==> Run(s, i + |alias| + 1, r.value, IsWordChar)
    ensures r.Some? ==> r.value == |s| || !IsWordChar(s[r.value])
  {
    if RefAt(s, i, alias) then Some(RunEnd(s, i + |alias| + 1, IsWordChar)) else None
  }

  /** The captured column names of `sql.matchAll(pattern)` from index `i` on. */
  function Refs(s: string, alias: string, i: nat): (cols: seq<string>)
    requires i <= |s|
    decreases |s| - i
  {
    if i == |s| then []
    else match RefEnd(s, i, alias)
      case Some(e) => [s[i + |alias| + 1..e]] + Refs(s, alias, e)
      case None => Refs(s, alias, i + 1)
  }

  /** The global match of the reference pattern, computed by a left-to-right scan. */
  method FindRefs(sql: string, alias: string) returns (cols: seq<string>)
    ensures cols == Refs(sql, alias, 0)
  {
    cols := [];
    var i := 0;
    while i < |sql|
      invariant i <= |sql|
      invariant cols + Refs(sql, alias, i) == Refs(sql, alias, 0)
      decreases |sql| - i
    {
      match RefEnd(sql, i, alias) {
        case Some(e) =>
          cols := cols + [sql[i + |alias| + 1..e]];
          i := e;
        case None =>
          i := i + 1;
      }
    }
  }

  // ----- What a clause match looks like -----

  /** A slice is the concatenation of its two halves. */
  lemma SliceSplit(s: string, i: nat, j: nat, k: nat)
    requires i <= j <= k <= |s|
    ensures s[i..k] == s[i..j] + s[j..k]
  {
  }

  /** Text that matches an upper-case keyword up to case has no whitespace. */
  lemma KeywordNoSpace(s: string, i: nat, keyword: string)
    requires IsKeyword(keyword) && i + |keyword| <= |s|
    requires EqualsIgnoringCase(s[i..i + |keyword|], keyword)
    ensures Run(s, i, i + |keyword|, IsNotSpace)
  {
    forall k | i <= k < i + |keyword| ensures IsNotSpace(s[k]) {
      assert AsciiUpper(s[i..i + |keyword|][k - i]) == AsciiUpper(keyword[k - i]);
    }
  }

  /** Table characters are not whitespace. */
  lemma TableCharsNoSpace(s: string, i: nat, j: nat)
    requires i <= j <= |s| && Run(s, i, j, IsTableChar)
    ensures Run(s, i, j, IsNotSpace)
  {
    forall k | i <= k < j ensures IsNotSpace(s[k]) {
      assert IsTableChar(s[k]);
    }
  }

  /** Alias characters are not whitespace. */
  lemma WordCharsNoSpace(s: string, i: nat, j: nat)
    requires i <= j <= |s| && Run(s, i, j, IsWordChar)
    ensures Run(s, i, j, IsNotSpace)
  {
    forall k | i <= k < j ensures IsNotSpace(s[k]) {
      assert IsWordChar(s[k]);
    }
  }

  /** A run inside a window is a run of the window's text. */
  lemma RunInWindow(s: string, lo: nat, hi: nat, i: nat, j: nat, p: char -> bool)
    requires lo <= i <= j <= hi <= |s| && Run(s, i, j, p)
    ensures Run(s[lo..hi], i - lo, j - lo, p)
  {
    forall k | i - lo <= k < j - lo ensures p(s[lo..hi][k]) {
      assert s[lo..hi][k] == s[lo + k];
    }
  }

  /**
   * The layout of a clause match text `x`, with positions relative to its start: the
   * keyword ends at `a`, the table token is `x[b..c]`, the whitespace after it ends at
   * `d`, `x[d..d + 2]` is the `AS` when there is one, and the alias is `x[e..]`.
   */
  predicate Layout(x: string, a: nat, b: nat, c: nat, d: nat, hasAs: bool, e: nat)
  {
    && a < b < c < d <= e <= |x|
    && Run(x, 0, a, IsNotSpace) && Run(x, a, b, IsSpace)
    && Run(x, b, c, IsNotSpace) && Run(x, c, d, IsSpace)
    && (d == |x| || !IsSpace(x[d]))
    && (if hasAs then
          && d + 2 < e
          && Run(x, d, d + 2, IsNotSpace) && Run(x, d + 2, e, IsSpace)
          && (e == |x| || !IsSpace(x[e]))
        else e == d)
    && Run(x, e, |x|, IsNotSpace)
  }

  /** The text of a clause match has the layout its match record describes. */
  lemma ClauseLayout(s: string, keyword: string, m: ClauseMatch)
    requires IsKeyword(keyword) && Shape(s, keyword, m)
    ensures Layout(s[m.start..m.end], |keyword|, m.tableStart - m.start, m.tableEnd - m.start,
      m.afterTable - m.start, m.hasAs, m.aliasStart - m.start)
  {
    KeywordNoSpace(s, m.start, keyword);
    TableCharsNoSpace(s, m.tableStart, m.tableEnd);
    if m.hasAs {
      KeywordNoSpace(s, m.afterTable, "AS");
    }
    WordCharsNoSpace(s, m.aliasStart, m.end);
    WindowLayout(s, m.start, m.end, m.start + |keyword|, m.tableStart, m.tableEnd, m.afterTable, m.hasAs, m.aliasStart);
  }

  /** `Layout` of the window `s[lo..hi]`, from the same runs stated on `s`. */
  lemma WindowLayout(s: string, lo: nat, hi: nat, a: nat, b: nat, c: nat, d: nat, hasAs: bool, e: nat)
    requires lo < a < b < c < d <= e <= hi <= |s|
    requires Run(s, lo, a, IsNotSpace) && Run(s, a, b, IsSpace)
    requires Run(s, b, c, IsNotSpace) && Run(s, c, d, IsSpace)
    requires d == hi || !IsSpace(s[d])
    requires if hasAs then
        && d + 2 < e
        && Run(s, d, d + 2, IsNotSpace) && Run(s, d + 2, e, IsSpace)
        && (e == hi || !IsSpace(s[e]))
      else e == d
    requires Run(s, e, hi, IsNotSpace)
    ensures Layout(s[lo..hi], a - lo, b - lo, c - lo, d - lo, hasAs, e - lo)
  {
    RunInWindow(s, lo, hi, lo, a, IsNotSpace);
    RunInWindow(s, lo, hi, a, b, IsSpace);
    RunInWindow(s, lo, hi, b, c, IsNotSpace);
    RunInWindow(s, lo, hi, c, d, IsSpace);
    if hasAs {
      RunInWindow(s, lo, hi, d, d + 2, IsNotSpace);
      RunInWindow(s, lo, hi, d + 2, e, IsSpace);
    }
    RunInWindow(s, lo, hi, e, hi, IsNotSpace);
  }

  /**
   * The pieces `split(/\s+/)` gives for a text with that layout: the keyword, the
   * table token, the `AS` when there is one, and the alias, which is empty when the
   * text ends with whitespace. So there are always at least three pieces.
   */
  lemma LayoutPieces(x: string, a: nat, b: nat, c: nat, d: nat, hasAs: bool, e: nat)
    requires Layout(x, a, b, c, d, hasAs, e)
    ensures var parts := SplitSpaces(x);
      && |parts| == (if hasAs then 4 else 3)
      && parts[0] == x[..a] && parts[1] == x[b..c]
      && (hasAs ==> parts[2] == x[d..d + 2])
      && parts[|parts| - 1] == x[e..]
  {
    SplitLast(x, e);
    if hasAs {
      SplitStep(x, d, d + 2, e);
    }
    SplitStep(x, b, c, d);
    SplitStep(x, 0, a, b);
  }

  /**
   * The pieces of a clause match, in terms of the scanned text: the keyword as written,
   * the table token, the `AS` when one was consumed, and the alias or an empty piece.
   * In particular the guard `parts.length >= 3` of the source never rejects a match.
   */
  lemma ClauseParts(s: string, keyword: string, m: ClauseMatch)
    requires IsKeyword(keyword) && Shape(s, keyword, m)
    ensures var parts := SplitSpaces(s[m.start..m.end]);
      && |parts| == (if m.hasAs then 4 else 3)
      && parts[0] == s[m.start..m.start + |keyword|]
      && parts[1] == s[m.tableStart..m.tableEnd]
      && (m.hasAs ==> parts[2] == s[m.afterTable..m.afterTable + 2])
      && parts[|parts| - 1] == s[m.aliasStart..m.end]
  {
    ClauseLayout(s, keyword, m);
    LayoutPiecesInText(s, m.start, m.end, m.start + |keyword|, m.tableStart, m.tableEnd, m.afterTable, m.hasAs, m.aliasStart);
  }

  /** `LayoutPieces` for the window `s[lo..hi]`, with the positions in terms of `s`. */
  lemma LayoutPiecesInText(s: string, lo: nat, hi: nat, a: nat, b: nat, c: nat, d: nat, hasAs: bool, e: nat)
    requires lo <= a <= b <= c <= d <= e <= hi <= |s|
    requires Layout(s[lo..hi], a - lo, b - lo, c - lo, d - lo, hasAs, e - lo)
    ensures var parts := SplitSpaces(s[lo..hi]);
      && |parts| == (if hasAs then 4 else 3)
      && parts[0] == s[lo..a] && parts[1] == s[b..c]
      && (hasAs ==> parts[2] == s[d..d + 2])
      && parts[|parts| - 1] == s[e..hi]
  {
    var x := s[lo..hi];
    LayoutPieces(x, a - lo, b - lo, c - lo, d - lo, hasAs, e - lo);
    PiecesAsSlices(s, lo, hi, SplitSpaces(x), a, b, c, d, hasAs, e);
  }

  /** Pieces that are slices of a window of `s` are slices of `s`. */
  lemma PiecesAsSlices(s: string, lo: nat, hi: nat, parts: seq<string>, a: nat, b: nat, c: nat, d: nat, hasAs: bool, e: nat)
    requires lo <= a <= b <= c <= d <= e <= hi <= |s| && (hasAs ==> d + 2 <= e)
    requires |parts| == (if hasAs then 4 else 3)
    requires parts[0] == s[lo..hi][..a - lo] && parts[1] == s[lo..hi][b - lo..c - lo]
    requires hasAs ==> parts[2] == s[lo..hi][d - lo..d - lo + 2]
    requires parts[|parts| - 1] == s[lo..hi][e - lo..]
    ensures parts[0] == s[lo..a] && parts[1] == s[b..c]
    ensures hasAs ==> parts[2] == s[d..d + 2]
    ensures parts[|parts| - 1] == s[e..hi]
  {
    SliceOfSlice(s, lo, hi, lo, a);
    SliceOfSlice(s, lo, hi, b, c);
    if hasAs {
      SliceOfSlice(s, lo, hi, d, d + 2);
    }
    SliceOfSlice(s, lo, hi, e, hi);
  }

  /** A slice of a slice is a slice. */
  lemma SliceOfSlice(s: string, lo: nat, hi: nat, i: nat, j: nat)
    requires lo <= i <= j <= hi <= |s|
    ensures s[lo..hi][i - lo..j - lo] == s[i..j]
  {
    forall k | 0 <= k < j - i ensures s[lo..hi][i - lo..j - lo][k] == s[i..j][k] {
    }
  }

  /** Every match `Clauses` lists is the text of a match of the clause pattern. */
  lemma {:induction false} ClausesAreMatches(s: string, keyword: string, i: nat, j: nat)
    requires i <= |s| && j < |Clauses(s, keyword, i)|
    ensures exists m: ClauseMatch :: i <= m.start && Shape(s, keyword, m) && Clauses(s, keyword, i)[j] == s[m.start..m.end]
    decreases |s| - i
  {
    match MatchClause(s, i, keyword)
    case Some(m) =>
      MatchClauseShape(s, i, keyword);
      if j > 0 {
        ClausesAreMatches(s, keyword, m.end, j - 1);
      }
    case None =>
      ClausesAreMatches(s, keyword, i + 1, j);
  }

  /**
   * The guard `parts.length >= 3` of the source never rejects a match, and the first
   * piece is always the keyword as written.
   */
  lemma ClausePieces(s: string, keyword: string, j: nat)
    requires IsKeyword(keyword) && j < |Clauses(s, keyword, 0)|
    ensures var parts := SplitSpaces(Clauses(s, keyword, 0)[j]);
      |parts| >= 3 && EqualsIgnoringCase(parts[0], keyword)
  {
    ClausesAreMatches(s, keyword, 0, j);
    var m: ClauseMatch :| Shape(s, keyword, m) && Clauses(s, keyword, 0)[j] == s[m.start..m.end];
    ClauseParts(s, keyword, m);
  }

  /**
   * Without a piece that is exactly `AS` (so also for `as` in lower case), the alias is
   * the keyword as written: `FROM users u` records `FROM` as an alias of `users`.
   */
  lemma AliasIsKeywordWithoutUppercaseAs(s: string, keyword: string, m: ClauseMatch)
    requires IsKeyword(keyword) && Shape(s, keyword, m)
    requires "AS" !in SplitSpaces(s[m.start..m.end])
    ensures
      var written := s[m.start..m.start + |keyword|];
      var table := RemoveAll(s[m.tableStart..m.tableEnd], '"');
      ClauseAlias(s[m.start..m.end]) == if written != table then Some((written, table)) else None
  {
    ClauseParts(s, keyword, m);
  }

  /** After an exact `AS`, a non-empty alias is the alias: `FROM users AS u` records `u`. */
  lemma AliasAfterUppercaseAs(s: string, keyword: string, m: ClauseMatch)
    requires keyword == "FROM" || keyword == "JOIN"
    requires Shape(s, keyword, m) && m.hasAs && m.aliasStart < m.end
    requires s[m.afterTable..m.afterTable + 2] == "AS" && s[m.tableStart..m.tableEnd] != "AS"
    ensures
      var alias := s[m.aliasStart..m.end];
      var table := RemoveAll(s[m.tableStart..m.tableEnd], '"');
      ClauseAlias(s[m.start..m.end]) == if alias != table then Some((alias, table)) else None
  {
    var parts := SplitSpaces(s[m.start..m.end]);
    assert |parts| == 4 && parts[1] == s[m.tableStart..m.tableEnd] && parts[3] == s[m.aliasStart..m.end]
      && IndexOfAs(parts) == 2 by {
      ClauseParts(s, keyword, m);
      AsThirdPiece(parts);
    }
    assert AliasOf(parts) == s[m.aliasStart..m.end];
  }

  /**
   * An exact `AS` with no alias after it, as in `FROM users AS (`, leaves an empty last
   * piece, and then `parts[2]`, the `AS` itself, becomes the alias.
   */
  lemma DanglingAsBecomesAlias(s: string, keyword: string, m: ClauseMatch)
    requires keyword == "FROM" || keyword == "JOIN"
    requires Shape(s, keyword, m) && m.hasAs && m.aliasStart == m.end
    requires s[m.afterTable..m.afterTable + 2] == "AS" && s[m.tableStart..m.tableEnd] != "AS"
    ensures
      var table := RemoveAll(s[m.tableStart..m.tableEnd], '"');
      ClauseAlias(s[m.start..m.end]) == if table != "AS" then Some(("AS", table)) else None
  {
    var parts := SplitSpaces(s[m.start..m.end]);
    assert |parts| == 4 && parts[1] == s[m.tableStart..m.tableEnd] && parts[2] == "AS" && parts[3] == ""
      && IndexOfAs(parts) == 2 by {
      ClauseParts(s, keyword, m);
      AsThirdPiece(parts);
    }
    assert AliasOf(parts) == "AS";
  }

  /** With the keyword and a table token other than `AS` first, the first `AS` is the third piece. */
  lemma AsThirdPiece(parts: seq<string>)
    requires |parts| == 4 && |parts[0]| == 4 && parts[1] != "AS" && parts[2] == "AS"
    ensures IndexOfAs(parts) == 2
  {
    assert parts[..2] == [parts[0], parts[1]];
  }

  /** No clause match starts where the keyword's first letter is missing. */
  lemma {:induction false} NoClauseIn(s: string, keyword: string, i: nat, j: nat)
    requires i <= j <= |s| && keyword != []
    requires forall k :: i <= k < j ==> AsciiUpper(s[k]) != AsciiUpper(keyword[0])
    ensures Clauses(s, keyword, i) == Clauses(s, keyword, j)
    decreases j - i
  {
    if i < j {
      assert MatchClause(s, i, keyword).None? by {
        if i + |keyword| <= |s| {
          assert s[i..i + |keyword|][0] == s[i];
        }
      }
      NoClauseIn(s, keyword, i + 1, j);
    }
  }

  // ----- The alias map -----

  /** Folding one more match records it last. */
  lemma {:induction false} AddAliasesSnoc(d: Dict<string>, ms: seq<string>, m: string)
    requires DistinctKeys(d)
    ensures AddAliases(d, ms + [m]) == Record(AddAliases(d, ms), m)
    decreases |ms|
  {
    if ms == [] {
      assert [] + [m] == [m];
      assert [m][1..] == [];
    } else {
      assert (ms + [m])[1..] == ms[1..] + [m];
      AddAliasesSnoc(Record(d, ms[0]), ms[1..], m);
    }
  }

  /** The table the last match that records `alias` gives it, if any match does. */
  function LastRecorded(ms: seq<string>, alias: string): Option<string>
    decreases |ms|
  {
    if ms == [] then None
    else match ClauseAlias(ms[|ms| - 1])
      case Some((a, t)) => if a == alias then Some(t) else LastRecorded(ms[..|ms| - 1], alias)
      case None => LastRecorded(ms[..|ms| - 1], alias)
  }

  /** A later match for the same alias overrides an earlier one; other aliases are kept. */
  lemma {:induction false} AddAliasesLookup(d: Dict<string>, ms: seq<string>, alias: string)
    requires DistinctKeys(d)
    ensures Get(AddAliases(d, ms), alias) == match LastRecorded(ms, alias)
      case Some(t) => Some(t)
      case None => Get(d, alias)
    decreases |ms|
  {
    if ms != [] {
      var init, last := ms[..|ms| - 1], ms[|ms| - 1];
      assert ms == init + [last];
      AddAliasesSnoc(d, init, last);
      AddAliasesLookup(d, init, alias);
    }
  }

  /**
   * Recording aliases never moves a key: the keys before the fold are the first keys
   * after it, and a key added later goes after them.
   */
  lemma {:induction false} AddAliasesKeepsOrder(d: Dict<string>, ms: seq<string>)
    requires DistinctKeys(d)
    ensures |d| <= |AddAliases(d, ms)|
    ensures Keys(AddAliases(d, ms))[..|d|] == Keys(d)
    decreases |ms|
  {
    if ms != [] {
      var d' := Record(d, ms[0]);
      assert |d| <= |d'| && Keys(d')[..|d|] == Keys(d);
      AddAliasesKeepsOrder(d', ms[1..]);
      assert Keys(AddAliases(d, ms))[..|d'|][..|d|] == Keys(AddAliases(d, ms))[..|d|];
    }
  }

  /** The aliases of the FROM clauses come first in the alias map, in the order they were first recorded. */
  lemma FromAliasesFirst(sql: string)
    ensures var fromOnly := AddAliases([], Clauses(sql, "FROM", 0));
      |fromOnly| <= |AliasMap(sql)| && Keys(AliasMap(sql))[..|fromOnly|] == Keys(fromOnly)
  {
    AddAliasesKeepsOrder(AddAliases([], Clauses(sql, "FROM", 0)), Clauses(sql, "JOIN", 0));
  }

  // ----- References -----

  /**
   * Every captured column is an identifier, and the text contains the alias, a dot and
   * that identifier.
   */
  lemma {:induction false} RefsAreReferences(s: string, alias: string, i: nat, j: nat)
    requires i <= |s| && j < |Refs(s, alias, i)|
    ensures var col := Refs(s, alias, i)[j];
      && col != [] && IsIdentStart(col[0]) && Run(col, 0, |col|, IsWordChar)
      && Contains(s, alias + "." + col)
    decreases |s| - i
  {
    match RefEnd(s, i, alias)
    case Some(e) =>
      if j == 0 {
        RefCapture(s, alias, i, e);
      } else {
        RefsAreReferences(s, alias, e, j - 1);
      }
    case None =>
      RefsAreReferences(s, alias, i + 1, j);
  }

  /** The column a single reference match captures. */
  lemma RefCapture(s: string, alias: string, i: nat, e: nat)
    requires i <= |s| && RefEnd(s, i, alias) == Some(e)
    ensures var col := s[i + |alias| + 1..e];
      && col != [] && IsIdentStart(col[0]) && Run(col, 0, |col|, IsWordChar)
      && Contains(s, alias + "." + col)
  {
    var a := i + |alias|;
    var col := s[a + 1..e];
    assert col[0] == s[a + 1];
    assert Run(col, 0, |col|, IsWordChar) by {
      forall k | 0 <= k < |col| ensures IsWordChar(col[k]) {
        assert col[k] == s[a + 1 + k];
      }
    }
    SliceSplit(s, i, a, e);
    SliceSplit(s, a, a + 1, e);
    assert s[a..a + 1] == ".";
    assert s[i..e] == alias + "." + col;
    assert OccursAt(alias + "." + col, s, i);
  }

  /** No reference starts where the alias's first character is missing. */
  lemma {:induction false} NoRefIn(s: string, alias: string, i: nat, j: nat)
    requires i <= j <= |s| && alias != []
    requires forall k :: i <= k < j ==> s[k] != alias[0]
    ensures Refs(s, alias, i) == Refs(s, alias, j)
    decreases j - i
  {
    if i < j {
      assert RefEnd(s, i, alias).None? by {
        if i + |alias| + 1 < |s| {
          assert s[i..i + |alias|][0] == s[i];
        }
      }
      NoRefIn(s, alias, i + 1, j);
    }
  }
}
