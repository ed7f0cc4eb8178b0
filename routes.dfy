/**
 * The route pattern `@app\.route\(['"](.*?)['"]` applied with `re.findall`,
 * written as a scanner. A match is the literal `@app.route(`, a quote
 * (either kind), the shortest run of non-newline characters, and the next
 * quote (either kind). findall tries each position from left to right,
 * takes the first match it finds and resumes right after it.
 */
module Routes {
  import opened Wrappers

  /** The literal text the pattern starts with. */
  const Decorator: string := "@app.route("

  /** Distance from the start of a match to its first captured character. */
  const Lead: nat := |Decorator| + 1

  predicate IsQuote(c: char) {
    c == '\'' || c == '"'
  }

  /** `@app\.route\(['"]` matches at position i. */
  predicate OpensAt(s: string, i: nat) {
    i + |Decorator| < |s| && DecoratorFrom(s, i, 0) && IsQuote(s[i + |Decorator|])
  }

  /** The decorator's characters from index k on stand in `s` at position i + k onwards. */
  predicate DecoratorFrom(s: string, i: nat, k: nat)
    decreases |Decorator| - k
  {
    k >= |Decorator| || (i + k < |s| && s[i + k] == Decorator[k] && DecoratorFrom(s, i, k + 1))
  }

  /** `(.*?)['"]` started at j ends with the quote at q: q is the first quote from j, with no newline before it. */
  predicate ClosesAt(s: string, j: nat, q: nat) {
    j <= q < |s| && IsQuote(s[q]) && forall k :: j <= k < q ==> s[k] != '\n' && !IsQuote(s[k])
  }

  /** The whole pattern matches at position i and its closing quote is at q. */
  predicate IsMatch(s: string, i: nat, q: nat) {
    OpensAt(s, i) && ClosesAt(s, i + Lead, q)
  }

  /** No match of the pattern starts in [lo, hi). */
  ghost predicate NoMatchIn(s: string, lo: nat, hi: nat) {
    forall p, q :: lo <= p < hi ==> !IsMatch(s, p, q)
  }

  /** Where one match starts and where its closing quote is. */
  datatype Match = Match(start: nat, close: nat)

  /** The lazy group run from j: the first quote, unless a newline or the end comes first. */
  function CloseFrom(s: string, j: nat): (r: Option<nat>)
    ensures r.Some? ==> j <= r.value < |s|
    decreases |s| - j
  {
    if j >= |s| || s[j] == '\n' then None
    else if IsQuote(s[j]) then Some(j)
    else CloseFrom(s, j + 1)
  }

  /** The lazy group closes at the first quote from j, and not at all when a newline or the end comes first. */
  lemma {:induction false} CloseFromCloses(s: string, j: nat)
    ensures CloseFrom(s, j).Some? ==> ClosesAt(s, j, CloseFrom(s, j).value)
    ensures CloseFrom(s, j).None? ==> forall q :: !ClosesAt(s, j, q)
    decreases |s| - j
  {
    if j < |s| && s[j] != '\n' && !IsQuote(s[j]) {
      CloseFromCloses(s, j + 1);
      assert forall q :: ClosesAt(s, j, q) ==> ClosesAt(s, j + 1, q);
    }
  }

  /** The pattern tried at position i alone. */
  function MatchAt(s: string, i: nat): (r: Option<nat>)
    ensures r.Some? ==> i + Lead <= r.value < |s|
  {
    if OpensAt(s, i) then CloseFrom(s, i + Lead) else None
  }

  /** MatchAt finds the match starting at i, if there is one. */
  lemma MatchAtMatches(s: string, i: nat)
    ensures MatchAt(s, i).Some? ==> IsMatch(s, i, MatchAt(s, i).value)
    ensures MatchAt(s, i).None? ==> forall q :: !IsMatch(s, i, q)
  {
    CloseFromCloses(s, i + Lead);
  }

  /** findall's scan from position i: the matches it takes, in order. */
  function ScanFrom(s: string, i: nat): seq<Match>
    decreases |s| - i
  {
    if i >= |s| then []
    else if MatchAt(s, i).Some? then [Match(i, MatchAt(s, i).value)] + ScanFrom(s, MatchAt(s, i).value + 1)
    else ScanFrom(s, i + 1)
  }

  /**
   * What findall returns, stated without computing it: the leftmost
   * match at or after `from`, then the same again from just past its
   * closing quote, until no match is left.
   */
  ghost predicate FindAll(s: string, from: nat, ms: seq<Match>)
    decreases |ms|
  {
    if ms == [] then NoMatchIn(s, from, |s|)
    else
      && from <= ms[0].start
      && NoMatchIn(s, from, ms[0].start)
      && IsMatch(s, ms[0].start, ms[0].close)
      && FindAll(s, ms[0].close + 1, ms[1..])
  }

  /** Every match's capture lies inside the text. */
  predicate InBounds(s: string, ms: seq<Match>) {
    forall k :: 0 <= k < |ms| ==> ms[k].start + Lead <= ms[k].close <= |s|
  }

  /** The text each match captures, in order. */
  function Captured(s: string, ms: seq<Match>): seq<string>
    requires InBounds(s, ms)
  {
    seq(|ms|, k requires 0 <= k < |ms| => s[ms[k].start + Lead..ms[k].close])
  }

  /** `re.findall(pattern, s)`: the captured group of every match, in order. */
  function FindRoutes(s: string): seq<string> {
    ScanFromMatches(s, 0);
    Captured(s, ScanFrom(s, 0))
  }

  /**
   * Each route is the text between the quotes of one match findall
   * takes, in order, so no route holds a newline or a quote.
   */
  lemma FindRoutesCaptures(s: string)
    ensures |FindRoutes(s)| == |ScanFrom(s, 0)|
    ensures forall k :: 0 <= k < |FindRoutes(s)| ==>
              var m := ScanFrom(s, 0)[k];
              IsMatch(s, m.start, m.close) && FindRoutes(s)[k] == s[m.start + Lead..m.close]
    ensures forall k, l :: 0 <= k < l < |FindRoutes(s)| ==> ScanFrom(s, 0)[k].close < ScanFrom(s, 0)[l].start
    ensures forall k, c :: 0 <= k < |FindRoutes(s)| && c in FindRoutes(s)[k] ==> c != '\n' && !IsQuote(c)
  {
    ScanFromMatches(s, 0);
  }

  /** Matches of the pattern that start at or after `from`, in text order, none overlapping the next. */
  predicate OrderedMatches(s: string, from: nat, ms: seq<Match>) {
    && (forall k :: 0 <= k < |ms| ==> from <= ms[k].start && IsMatch(s, ms[k].start, ms[k].close))
    && (forall k, l :: 0 <= k < l < |ms| ==> ms[k].close < ms[l].start)
  }

  lemma OrderedMatchesPrepend(s: string, i: nat, q: nat, rest: seq<Match>)
    requires IsMatch(s, i, q) && OrderedMatches(s, q + 1, rest)
    ensures OrderedMatches(s, i, [Match(i, q)] + rest)
  {
    var ms := [Match(i, q)] + rest;
    forall k | 1 <= k < |ms|
      ensures ms[k] == rest[k - 1]
    {
    }
  }

  /** Every match the scan takes is a match of the pattern, and they come in order without overlapping. */
  lemma {:induction false} ScanFromMatches(s: string, i: nat)
    ensures OrderedMatches(s, i, ScanFrom(s, i))
    decreases |s| - i
  {
    if i < |s| {
      match MatchAt(s, i)
      case Some(q) =>
        MatchAtMatches(s, i);
        ScanFromMatches(s, q + 1);
        ScanFromTakes(s, i, q);
        OrderedMatchesPrepend(s, i, q, ScanFrom(s, q + 1));
      case None =>
        ScanFromMatches(s, i + 1);
        ScanFromSkips(s, i);
    }
  }

  /** A match's closing quote is determined by where it starts. */
  lemma ClosesAtUnique(s: string, j: nat, q1: nat, q2: nat)
    requires ClosesAt(s, j, q1) && ClosesAt(s, j, q2)
    ensures q1 == q2
  {
  }

  /** The scanner takes exactly the matches findall takes. */
  lemma {:induction false} ScanFromIsFindAll(s: string, i: nat)
    ensures FindAll(s, i, ScanFrom(s, i))
    decreases |s| - i
  {
    if i >= |s| {
      assert NoMatchIn(s, i, |s|);
    } else if MatchAt(s, i).Some? {
      ScanFromIsFindAll(s, MatchAt(s, i).value + 1);
      FindAllTakes(s, i, MatchAt(s, i).value);
    } else {
      ScanFromIsFindAll(s, i + 1);
      FindAllSkips(s, i);
    }
  }

  /** Where the pattern matches, the scan's answer is findall's if its answer after the match is. */
  lemma FindAllTakes(s: string, i: nat, q: nat)
    requires i < |s| && MatchAt(s, i) == Some(q)
    requires FindAll(s, q + 1, ScanFrom(s, q + 1))
    ensures FindAll(s, i, ScanFrom(s, i))
  {
    MatchAtMatches(s, i);
    ScanFromTakes(s, i, q);
    FindAllFirst(s, i, Match(i, q), ScanFrom(s, q + 1));
  }

  /** Where the pattern does not match, the scan's answer is findall's if its answer from the next position is. */
  lemma FindAllSkips(s: string, i: nat)
    requires i < |s| && MatchAt(s, i) == None
    requires FindAll(s, i + 1, ScanFrom(s, i + 1))
    ensures FindAll(s, i, ScanFrom(s, i))
  {
    MatchAtMatches(s, i);
    ScanFromSkips(s, i);
    FindAllLater(s, i, ScanFrom(s, i + 1));
  }

  /** A match at `from` followed by findall's answer after it is findall's answer from `from`. */
  lemma FindAllFirst(s: string, from: nat, m: Match, rest: seq<Match>)
    requires m.start == from && IsMatch(s, m.start, m.close) && FindAll(s, m.close + 1, rest)
    ensures FindAll(s, from, [m] + rest)
  {
    assert ([m] + rest)[1..] == rest;
  }

  /** Where nothing matches at `from`, findall's answer from `from` is its answer from the next position. */
  lemma FindAllLater(s: string, from: nat, ms: seq<Match>)
    requires forall q :: !IsMatch(s, from, q)
    requires FindAll(s, from + 1, ms)
    ensures FindAll(s, from, ms)
  {
    if ms == [] {
      assert NoMatchIn(s, from, |s|);
    } else {
      assert NoMatchIn(s, from, ms[0].start);
    }
  }

  /** findall's answer is unique: any list of matches that meets FindAll is the scanner's. */
  lemma {:induction false} FindAllUnique(s: string, from: nat, ms1: seq<Match>, ms2: seq<Match>)
    requires FindAll(s, from, ms1) && FindAll(s, from, ms2)
    ensures ms1 == ms2
    decreases |ms1|
  {
    if ms1 != [] && ms2 != [] {
      var a, b := ms1[0], ms2[0];
      if a.start < b.start {
        assert false;
      } else if b.start < a.start {
        assert false;
      }
      ClosesAtUnique(s, a.start + Lead, a.close, b.close);
      FindAllUnique(s, a.close + 1, ms1[1..], ms2[1..]);
      assert ms1 == [a] + ms1[1..] && ms2 == [b] + ms2[1..];
    } else if ms1 != [] {
      assert false;
    } else if ms2 != [] {
      assert false;
    }
  }

  /** `sh` holds the matches of `ms`, each `d` characters further on. */
  predicate ShiftedBy(sh: seq<Match>, ms: seq<Match>, d: nat) {
    |sh| == |ms| && forall k :: 0 <= k < |ms| ==> sh[k] == Match(ms[k].start + d, ms[k].close + d)
  }

  /** Where the pattern matches, the scan takes the match and resumes after its closing quote. */
  lemma ScanFromTakes(s: string, i: nat, q: nat)
    requires i < |s| && MatchAt(s, i) == Some(q)
    ensures ScanFrom(s, i) == [Match(i, q)] + ScanFrom(s, q + 1)
  {
  }

  /** Where the pattern does not match, the scan moves on by one character. */
  lemma ScanFromSkips(s: string, i: nat)
    requires i < |s| && MatchAt(s, i) == None
    ensures ScanFrom(s, i) == ScanFrom(s, i + 1)
  {
  }

  /** Putting a match in front of both, shifted on one side, keeps one the shift of the other. */
  lemma ShiftedByStep(sh: seq<Match>, ms: seq<Match>, shRest: seq<Match>, msRest: seq<Match>, n: Match, m: Match, d: nat)
    requires n == Match(m.start + d, m.close + d)
    requires sh == [n] + shRest && ms == [m] + msRest
    requires ShiftedBy(shRest, msRest, d)
    ensures ShiftedBy(sh, ms, d)
  {
    forall k | 1 <= k < |ms|
      ensures sh[k] == shRest[k - 1] && ms[k] == msRest[k - 1]
    {
    }
  }

  /** The lazy group only looks ahead, so text put in front does not change where it closes. */
  lemma {:induction false} CloseFromAfterPrefix(p: string, t: string, j: nat)
    ensures CloseFrom(p + t, |p| + j) == if CloseFrom(t, j).Some? then Some(CloseFrom(t, j).value + |p|) else None
    decreases |t| - j
  {
    if j < |t| {
      assert (p + t)[|p| + j] == t[j];
      CloseFromAfterPrefix(p, t, j + 1);
    }
  }

  /** Text put in front does not move the decorator relative to the tail. */
  lemma {:induction false} DecoratorFromAfterPrefix(p: string, t: string, i: nat, k: nat)
    ensures DecoratorFrom(p + t, |p| + i, k) == DecoratorFrom(t, i, k)
    decreases |Decorator| - k
  {
    if k < |Decorator| {
      DecoratorFromAfterPrefix(p, t, i, k + 1);
      if i + k < |t| {
        assert (p + t)[|p| + i + k] == t[i + k];
      }
    }
  }

  /** Where the decorator's width fits inside `a`, what follows `a` does not matter. */
  lemma {:induction false} DecoratorFromBeforeSuffix(a: string, u: string, i: nat, k: nat)
    requires i + |Decorator| <= |a|
    ensures DecoratorFrom(a + u, i, k) == DecoratorFrom(a, i, k)
    decreases |Decorator| - k
  {
    if k < |Decorator| {
      DecoratorFromBeforeSuffix(a, u, i, k + 1);
      assert (a + u)[i + k] == a[i + k];
    }
  }

  /** The decorator holds no newline, so it cannot stand over one. */
  lemma {:induction false} NoDecoratorAcrossNewline(s: string, i: nat, n: nat, k: nat)
    requires i + k <= n < i + |Decorator| && n < |s| && s[n] == '\n'
    ensures !DecoratorFrom(s, i, k)
    decreases n - (i + k)
  {
    if i + k < n {
      NoDecoratorAcrossNewline(s, i, n, k + 1);
    } else {
      assert Decorator[k] != '\n';
    }
  }

  /** A text that begins with the decorator holds it at position 0. */
  lemma {:induction false} DecoratorLeads(s: string, k: nat)
    requires |Decorator| <= |s| && forall j :: k <= j < |Decorator| ==> s[j] == Decorator[j]
    ensures DecoratorFrom(s, 0, k)
    decreases |Decorator| - k
  {
    if k < |Decorator| {
      DecoratorLeads(s, k + 1);
    }
  }

  /** Text put in front does not change what the pattern matches further on. */
  lemma MatchAtAfterPrefix(p: string, t: string, i: nat)
    ensures MatchAt(p + t, |p| + i) == if MatchAt(t, i).Some? then Some(MatchAt(t, i).value + |p|) else None
  {
    var s := p + t;
    DecoratorFromAfterPrefix(p, t, i, 0);
    if i + |Decorator| < |t| {
      assert s[|p| + i + |Decorator|] == t[i + |Decorator|];
    }
    assert OpensAt(s, |p| + i) == OpensAt(t, i);
    CloseFromAfterPrefix(p, t, i + Lead);
  }

  /** Where the tail has a match, the longer text has it too, shifted, and both scans resume after it. */
  lemma AfterPrefixTakes(p: string, t: string, i: nat, q: nat)
    requires i < |t| && MatchAt(t, i) == Some(q)
    requires ShiftedBy(ScanFrom(p + t, |p| + q + 1), ScanFrom(t, q + 1), |p|)
    ensures ShiftedBy(ScanFrom(p + t, |p| + i), ScanFrom(t, i), |p|)
  {
    MatchAtAfterPrefix(p, t, i);
    ScanFromTakes(p + t, |p| + i, |p| + q);
    ScanFromTakes(t, i, q);
    ShiftedByStep(ScanFrom(p + t, |p| + i), ScanFrom(t, i), ScanFrom(p + t, |p| + q + 1), ScanFrom(t, q + 1),
                  Match(|p| + i, |p| + q), Match(i, q), |p|);
  }

  /** Where the tail has no match, neither does the longer text, and both scans move on by one. */
  lemma AfterPrefixSkips(p: string, t: string, i: nat)
    requires i < |t| && MatchAt(t, i) == None
    requires ShiftedBy(ScanFrom(p + t, |p| + i + 1), ScanFrom(t, i + 1), |p|)
    ensures ShiftedBy(ScanFrom(p + t, |p| + i), ScanFrom(t, i), |p|)
  {
    MatchAtAfterPrefix(p, t, i);
    ScanFromSkips(p + t, |p| + i);
    ScanFromSkips(t, i);
  }

  /** Scanning the tail of a text finds the tail's own matches, shifted. */
  lemma {:induction false} ScanFromAfterPrefix(p: string, t: string, i: nat)
    ensures ShiftedBy(ScanFrom(p + t, |p| + i), ScanFrom(t, i), |p|)
    decreases |t| - i
  {
    if i >= |t| {
      assert ScanFrom(p + t, |p| + i) == [];
      assert ScanFrom(t, i) == [];
    } else {
      match MatchAt(t, i)
      case Some(q) =>
        ScanFromAfterPrefix(p, t, q + 1);
        AfterPrefixTakes(p, t, i, q);
      case None =>
        ScanFromAfterPrefix(p, t, i + 1);
        AfterPrefixSkips(p, t, i);
    }
  }

  /** What shifted matches capture in the longer text is what they capture in the tail. */
  lemma CapturedAfterPrefix(p: string, t: string, sh: seq<Match>, ms: seq<Match>)
    requires InBounds(t, ms) && ShiftedBy(sh, ms, |p|)
    ensures InBounds(p + t, sh)
    ensures Captured(p + t, sh) == Captured(t, ms)
  {
    forall k | 0 <= k < |ms|
      ensures (p + t)[sh[k].start + Lead..sh[k].close] == t[ms[k].start + Lead..ms[k].close]
    {
      assert (p + t)[sh[k].start + Lead..sh[k].close] == (p + t)[|p| + (ms[k].start + Lead)..|p| + ms[k].close];
    }
  }

  lemma CapturedPrepend(s: string, m: Match, ms: seq<Match>)
    requires InBounds(s, [m] + ms)
    ensures InBounds(s, ms) && m.start + Lead <= m.close <= |s|
    ensures Captured(s, [m] + ms) == [s[m.start + Lead..m.close]] + Captured(s, ms)
  {
    var all := [m] + ms;
    assert all[0] == m;
    forall k | 0 <= k < |ms|
      ensures ms[k].start + Lead <= ms[k].close <= |s|
    {
      assert all[k + 1] == ms[k];
    }
    var lhs := Captured(s, all);
    var rhs := [s[m.start + Lead..m.close]] + Captured(s, ms);
    forall k | 0 <= k < |lhs|
      ensures lhs[k] == rhs[k]
    {
      if k > 0 {
        assert all[k] == ms[k - 1];
      }
    }
  }

  /** Matches that end inside a prefix capture the same text with or without what follows it. */
  lemma CapturedBeforeSuffix(a: string, t: string, ms: seq<Match>)
    requires InBounds(a, ms)
    ensures InBounds(a + t, ms)
    ensures Captured(a + t, ms) == Captured(a, ms)
  {
    forall k | 0 <= k < |ms|
      ensures (a + t)[ms[k].start + Lead..ms[k].close] == a[ms[k].start + Lead..ms[k].close]
    {
    }
  }

  /**
   * A literal `@app.route(` with a quote, a route free of quotes and
   * newlines, and a quote contributes exactly that route, and scanning
   * carries on with what follows.
   */
  lemma LiteralRoute(open: char, route: string, close: char, rest: string)
    requires IsQuote(open) && IsQuote(close)
    requires forall c :: c in route ==> c != '\n' && !IsQuote(c)
    ensures FindRoutes(Decorator + [open] + route + [close] + rest) == [route] + FindRoutes(rest)
  {
    var head := Decorator + [open] + route + [close];
    var s := head + rest;
    var q := Lead + |route|;
    LiteralMatch(open, route, close, rest);
    ScanFromTakes(s, 0, q);
    ScanFromAfterPrefix(head, rest, 0);
    var tail, later := ScanFrom(rest, 0), ScanFrom(s, q + 1);
    ScanFromMatches(rest, 0);
    CapturedAfterPrefix(head, rest, later, tail);
    assert s[Lead..q] == route;
    CapturedPrepend(s, Match(0, q), later);
  }

  /** The pattern matches a literal decorator, quote, route and quote, closing at the second quote. */
  lemma LiteralMatch(open: char, route: string, close: char, rest: string)
    requires IsQuote(open) && IsQuote(close)
    requires forall c :: c in route ==> c != '\n' && !IsQuote(c)
    ensures MatchAt(Decorator + [open] + route + [close] + rest, 0) == Some(Lead + |route|)
  {
    var s := Decorator + [open] + route + [close] + rest;
    var q := Lead + |route|;
    DecoratorLeads(s, 0);
    assert s[|Decorator|] == open;
    assert s[q] == close;
    forall k | Lead <= k < q
      ensures s[k] != '\n' && !IsQuote(s[k])
    {
      assert s[k] == route[k - Lead];
      assert route[k - Lead] in route;
    }
    assert ClosesAt(s, Lead, q);
    CloseFromCloses(s, Lead);
    ClosesAtUnique(s, Lead, q, CloseFrom(s, Lead).value);
  }

  /** Where a newline sits, the pattern cannot have started within the decorator's width before it. */
  lemma NoOpeningAcrossNewline(s: string, i: nat, n: nat)
    requires i <= n < |s| && s[n] == '\n' && n <= i + |Decorator|
    ensures !OpensAt(s, i)
  {
    if n < i + |Decorator| {
      NoDecoratorAcrossNewline(s, i, n, 0);
    }
  }

  /** The lazy group stops at a newline, so text after one does not change where it closes. */
  lemma {:induction false} CloseFromBeforeNewline(a: string, b: string, j: nat)
    requires j <= |a|
    ensures CloseFrom(a + "\n" + b, j) == CloseFrom(a, j)
    decreases |a| - j
  {
    var s := a + "\n" + b;
    if j < |a| {
      assert s[j] == a[j];
      CloseFromBeforeNewline(a, b, j + 1);
    } else {
      assert s[j] == '\n';
    }
  }

  /** Before a newline, the pattern matches exactly as it does in the line alone. */
  lemma MatchAtBeforeNewline(a: string, b: string, i: nat)
    requires i < |a|
    ensures MatchAt(a + "\n" + b, i) == MatchAt(a, i)
  {
    var s := a + "\n" + b;
    if i + |Decorator| < |a| {
      DecoratorFromBeforeSuffix(a, "\n" + b, i, 0);
      assert s == a + ("\n" + b);
      assert s[i + |Decorator|] == a[i + |Decorator|];
      assert OpensAt(s, i) == OpensAt(a, i);
      CloseFromBeforeNewline(a, b, i + Lead);
    } else {
      assert s[|a|] == '\n';
      NoOpeningAcrossNewline(s, i, |a|);
    }
  }

  /** Scanning from inside the first line finds that line's matches, then what the scan from just past the newline finds. */
  lemma {:induction false} ScanFromAcrossNewline(a: string, b: string, i: nat)
    requires i <= |a|
    ensures ScanFrom(a + "\n" + b, i) == ScanFrom(a, i) + ScanFrom(a + "\n" + b, |a| + 1)
    decreases |a| - i
  {
    if i < |a| {
      match MatchAt(a, i)
      case Some(q) =>
        ScanFromAcrossNewline(a, b, q + 1);
        BeforeNewlineTakes(a, b, i, q);
      case None =>
        ScanFromAcrossNewline(a, b, i + 1);
        BeforeNewlineSkips(a, b, i);
    } else {
      AtNewline(a, b);
    }
  }

  /** Where the line has a match, the joined text has the same one, and both scans resume after it. */
  lemma BeforeNewlineTakes(a: string, b: string, i: nat, q: nat)
    requires i < |a| && MatchAt(a, i) == Some(q)
    requires ScanFrom(a + "\n" + b, q + 1) == ScanFrom(a, q + 1) + ScanFrom(a + "\n" + b, |a| + 1)
    ensures ScanFrom(a + "\n" + b, i) == ScanFrom(a, i) + ScanFrom(a + "\n" + b, |a| + 1)
  {
    var s := a + "\n" + b;
    MatchAtBeforeNewline(a, b, i);
    ScanFromTakes(s, i, q);
    ScanFromTakes(a, i, q);
    AppendStep(ScanFrom(s, i), ScanFrom(a, i), ScanFrom(s, q + 1), ScanFrom(a, q + 1), Match(i, q), ScanFrom(s, |a| + 1));
  }

  /** Where the line has no match, neither has the joined text, and both scans move on by one. */
  lemma BeforeNewlineSkips(a: string, b: string, i: nat)
    requires i < |a| && MatchAt(a, i) == None
    requires ScanFrom(a + "\n" + b, i + 1) == ScanFrom(a, i + 1) + ScanFrom(a + "\n" + b, |a| + 1)
    ensures ScanFrom(a + "\n" + b, i) == ScanFrom(a, i) + ScanFrom(a + "\n" + b, |a| + 1)
  {
    var s := a + "\n" + b;
    MatchAtBeforeNewline(a, b, i);
    ScanFromSkips(s, i);
    ScanFromSkips(a, i);
  }

  /** No match starts at the newline itself. */
  lemma AtNewline(a: string, b: string)
    ensures ScanFrom(a + "\n" + b, |a|) == ScanFrom(a, |a|) + ScanFrom(a + "\n" + b, |a| + 1)
  {
    var s := a + "\n" + b;
    assert s[|a|] == '\n';
    NoOpeningAcrossNewline(s, |a|, |a|);
    ScanFromSkips(s, |a|);
    assert ScanFrom(a, |a|) == [];
  }

  /** A match put in front of both sides of `xRest == yRest + z`. */
  lemma AppendStep(x: seq<Match>, y: seq<Match>, xRest: seq<Match>, yRest: seq<Match>, m: Match, z: seq<Match>)
    requires x == [m] + xRest && y == [m] + yRest && xRest == yRest + z
    ensures x == y + z
  {
    assert [m] + (yRest + z) == ([m] + yRest) + z;
  }

  lemma CapturedAppend(s: string, ms1: seq<Match>, ms2: seq<Match>)
    requires InBounds(s, ms1) && InBounds(s, ms2)
    ensures InBounds(s, ms1 + ms2)
    ensures Captured(s, ms1 + ms2) == Captured(s, ms1) + Captured(s, ms2)
  {
    var ms := ms1 + ms2;
    assert forall k :: 0 <= k < |ms1| ==> ms[k] == ms1[k];
    assert forall k :: |ms1| <= k < |ms| ==> ms[k] == ms2[k - |ms1|];
  }

  /** No match spans a newline: the routes of two lines joined are the routes of each, in order. */
  lemma LinesScanSeparately(a: string, b: string)
    ensures FindRoutes(a + "\n" + b) == FindRoutes(a) + FindRoutes(b)
  {
    var s := a + "\n" + b;
    var ma, mb, sh := ScanFrom(a, 0), ScanFrom(b, 0), ScanFrom(s, |a| + 1);
    ScanFromMatches(a, 0);
    ScanFromMatches(b, 0);
    ScanFromAcrossNewline(a, b, 0);
    assert s == a + ("\n" + b);
    CapturedBeforeSuffix(a, "\n" + b, ma);
    assert s == (a + "\n") + b;
    ScanFromAfterPrefix(a + "\n", b, 0);
    CapturedAfterPrefix(a + "\n", b, sh, mb);
    CapturedAppend(s, ma, sh);
    calc {
      FindRoutes(s);
      Captured(s, ma + sh);
      Captured(s, ma) + Captured(s, sh);
      Captured(a, ma) + Captured(b, mb);
    }
  }

  /** The opening and closing quotes need not be the same character. */
  lemma MixedQuotesExample()
    ensures FindRoutes(Decorator + "'/users\")") == ["/users"]
  {
    LiteralRoute('\'', "/users", '"', ")");
    assert Decorator + "'/users\")" == Decorator + ['\''] + "/users" + ['"'] + ")";
    assert FindRoutes(")") == [];
  }

  /** The two routes of the example app in main.py's usage notes, one declaration per line. */
  lemma UsageExampleRoutes()
    ensures FindRoutes(Decorator + "'" + "/users" + "')\n" + Decorator + "'" + "/items/{item_id}" + "')")
            == ["/users", "/items/{item_id}"]
  {
    var first := Decorator + "'" + "/users" + "')";
    var second := Decorator + "'" + "/items/{item_id}" + "')";
    assert Decorator + "'" + "/users" + "')\n" + Decorator + "'" + "/items/{item_id}" + "')" == first + "\n" + second;
    LinesScanSeparately(first, second);
    LiteralRoute('\'', "/users", '\'', ")");
    assert first == Decorator + ['\''] + "/users" + ['\''] + ")";
    LiteralRoute('\'', "/items/{item_id}", '\'', ")");
    assert second == Decorator + ['\''] + "/items/{item_id}" + ['\''] + ")";
    assert FindRoutes(")") == [];
  }
}
