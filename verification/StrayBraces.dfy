/**
  Exactly when the brace matcher returns the body: with closing braces before the first opening one,
  or with the opening brace on a later line than the start, it never does.
 */
module StrayBraces {
  import opened Wrappers
  import opened Text
  import opened TestBody

  // ---------------------------------------------------------------- depth by position

  /** Opening minus closing braces of a line's braces that stand before column c. */
  function Before(bs: seq<Brace>, c: nat): int {
    if bs == [] then 0
    else (if bs[0].col >= c then 0 else if bs[0].open then 1 else -1) + Before(bs[1..], c)
  }

  function Level(line: string, c: nat): int {
    Before(BracesOfLine(line, 0, 0), c)
  }

  /** The braces of whole lines. */
  function Net(line: string): int {
    Level(line, |line|)
  }

  function Span(lines: seq<string>, i: nat, j: nat): int
    requires i <= j <= |lines|
    decreases j - i
  {
    if i == j then 0 else Net(lines[i]) + Span(lines, i + 1, j)
  }

  lemma {:induction false} BeforeIgnoresLine(line: string, i: nat, k: nat, j: nat, c: nat)
    ensures Before(BracesOfLine(line, i, j), c) == Before(BracesOfLine(line, k, j), c)
    decreases |line| - j
  {
    if j < |line| {
      if IsQuote(line[j]) {
        BeforeIgnoresLine(line, i, k, StringEnd(line, j + 1, line[j]) + 1, c);
      } else if !CommentAt(line, j) {
        BeforeIgnoresLine(line, i, k, j + 1, c);
        BeforeFirst(line, i, j, c);
        BeforeFirst(line, k, j, c);
      }
    }
  }

  /** One character's share, when it is neither a quote nor a comment. */
  function Sign(c: char): int {
    if c == '{' then 1 else if c == '}' then -1 else 0
  }

  lemma BeforeFirst(line: string, i: nat, j: nat, c: nat)
    requires j < |line| && !IsQuote(line[j]) && !CommentAt(line, j)
    ensures Before(BracesOfLine(line, i, j), c) == (if j < c then Sign(line[j]) else 0) + Before(BracesOfLine(line, i, j + 1), c)
  {
    hide BracesOfLine;
    BracesUnfold(line, i, j);
    var rest := BracesOfLine(line, i, j + 1);
    if line[j] == '{' {
      assert ([Brace(i, j, true)] + rest)[1..] == rest;
    } else if line[j] == '}' {
      assert ([Brace(i, j, false)] + rest)[1..] == rest;
    }
  }

  lemma BracesUnfold(line: string, i: nat, j: nat)
    requires j < |line| && !IsQuote(line[j]) && !CommentAt(line, j)
    ensures var rest := BracesOfLine(line, i, j + 1);
      BracesOfLine(line, i, j) ==
        if line[j] == '{' then [Brace(i, j, true)] + rest else if line[j] == '}' then [Brace(i, j, false)] + rest else rest
  {
    assert [] + BracesOfLine(line, i, j + 1) == BracesOfLine(line, i, j + 1);
  }

  lemma {:induction false} NothingBefore(line: string, i: nat, j: nat, c: nat)
    requires c <= j
    ensures Before(BracesOfLine(line, i, j), c) == 0
    decreases |line| - j
  {
    if j < |line| {
      if IsQuote(line[j]) {
        NothingBefore(line, i, StringEnd(line, j + 1, line[j]) + 1, c);
      } else if !CommentAt(line, j) {
        NothingBefore(line, i, j + 1, c);
        BeforeFirst(line, i, j, c);
      }
    }
  }

  /** A string literal ends at the same place in two lines that agree up to c, or past c in both. */
  lemma {:induction false} StringEndAgrees(x: string, y: string, j: nat, quote: char, c: nat)
    requires c < |x| && c < |y| && x[..c + 1] == y[..c + 1]
    ensures StringEnd(x, j, quote) == StringEnd(y, j, quote) || (StringEnd(x, j, quote) >= c && StringEnd(y, j, quote) >= c)
    decreases |x| - j
  {
    if j <= c {
      assert x[j] == x[..c + 1][j] == y[j];
      if x[j] == '\\' {
        StringEndAgrees(x, y, j + 2, quote, c);
      } else if x[j] != quote {
        StringEndAgrees(x, y, j + 1, quote, c);
      }
    }
  }

  /** Both lines agree at j, and on whether a comment starts there. */
  lemma CharactersAgree(x: string, y: string, j: nat, c: nat)
    requires j < c < |x| && c < |y| && x[..c + 1] == y[..c + 1]
    ensures x[j] == y[j] && (CommentAt(x, j) <==> CommentAt(y, j))
  {
    assert x[j] == x[..c + 1][j] == y[j] && x[j + 1] == x[..c + 1][j + 1] == y[j + 1];
  }

  lemma BracesSkip(line: string, i: nat, j: nat)
    requires j < |line|
    ensures IsQuote(line[j]) ==> BracesOfLine(line, i, j) == BracesOfLine(line, i, StringEnd(line, j + 1, line[j]) + 1)
    ensures !IsQuote(line[j]) && CommentAt(line, j) ==> BracesOfLine(line, i, j) == []
  {
  }

  /** The braces before column c depend only on the text up to c. */
  lemma {:induction false} BeforeAgrees(x: string, y: string, j: nat, c: nat)
    requires c < |x| && c < |y| && x[..c + 1] == y[..c + 1]
    ensures Before(BracesOfLine(x, 0, j), c) == Before(BracesOfLine(y, 0, j), c)
    decreases |x| - j
  {
    hide Before, StringEnd, BracesOfLine, CommentAt, IsQuote;
    if j >= c {
      NothingBefore(x, 0, j, c);
      NothingBefore(y, 0, j, c);
    } else {
      CharactersAgree(x, y, j, c);
      BracesSkip(x, 0, j);
      BracesSkip(y, 0, j);
      if IsQuote(x[j]) {
        var a, b := StringEnd(x, j + 1, x[j]), StringEnd(y, j + 1, x[j]);
        StringEndAgrees(x, y, j + 1, x[j], c);
        if a == b {
          BeforeAgrees(x, y, a + 1, c);
        } else {
          NothingBefore(x, 0, a + 1, c);
          NothingBefore(y, 0, b + 1, c);
        }
      } else if !CommentAt(x, j) {
        BeforeAgrees(x, y, j + 1, c);
        BeforeFirst(x, 0, j, c);
        BeforeFirst(y, 0, j, c);
      }
    }
  }

  // ---------------------------------------------------------------- depth by index is depth by position

  lemma {:induction false} DepthConcat(a: seq<Brace>, b: seq<Brace>, n: nat)
    requires n <= |b|
    ensures Depth(a + b, |a| + n) == Depth(a, |a|) + Depth(b, n)
  {
    if n == 0 {
      DepthPrefix(a, b, |a|);
    } else {
      DepthConcat(a, b, n - 1);
    }
  }

  lemma {:induction false} DepthPrefix(a: seq<Brace>, b: seq<Brace>, n: nat)
    requires n <= |a|
    ensures Depth(a + b, n) == Depth(a, n)
  {
    if n > 0 { DepthPrefix(a, b, n - 1); }
  }

  predicate ColumnsAscend(bs: seq<Brace>) {
    forall x, y :: 0 <= x < y < |bs| ==> bs[x].col < bs[y].col
  }

  lemma {:induction false} NoneBefore(bs: seq<Brace>, c: nat)
    requires forall x :: 0 <= x < |bs| ==> bs[x].col >= c
    ensures Before(bs, c) == 0
  {
    if bs != [] { NoneBefore(bs[1..], c); }
  }

  /** Of braces in column order, those before the x-th are the first x. */
  lemma {:induction false} DepthIsBefore(bs: seq<Brace>, x: nat, c: nat)
    requires ColumnsAscend(bs) && x <= |bs|
    requires (forall k :: 0 <= k < x ==> bs[k].col < c) && (forall k :: x <= k < |bs| ==> bs[k].col >= c)
    ensures Depth(bs, x) == Before(bs, c)
  {
    if x == 0 {
      NoneBefore(bs, c);
    } else {
      DepthIsBefore(bs[1..], x - 1, c);
      DepthCons(bs[0], bs[1..], x - 1);
      assert bs == [bs[0]] + bs[1..];
    }
  }

  lemma LineDepth(line: string, i: nat, x: nat)
    requires x < |BracesOfLine(line, i, 0)|
    ensures Depth(BracesOfLine(line, i, 0), x) == Level(line, BracesOfLine(line, i, 0)[x].col)
  {
    hide BracesOfLine, Before, Depth;
    var bs := BracesOfLine(line, i, 0);
    LineAscends(line, i);
    DepthIsBefore(bs, x, bs[x].col);
    BeforeIgnoresLine(line, i, 0, 0, bs[x].col);
  }

  lemma LineNet(line: string, i: nat)
    ensures var bs := BracesOfLine(line, i, 0); Depth(bs, |bs|) == Net(line)
  {
    hide BracesOfLine, Before, Depth;
    var bs := BracesOfLine(line, i, 0);
    LineAscends(line, i);
    BracesOfLineAreThere(line, i, 0);
    DepthIsBefore(bs, |bs|, |line|);
    BeforeIgnoresLine(line, i, 0, 0, |line|);
  }

  lemma LineAscends(line: string, i: nat)
    ensures ColumnsAscend(BracesOfLine(line, i, 0))
  {
    hide BracesOfLine;
    LineInOrder(line, i, 0);
    BracesOfLineAreThere(line, i, 0);
    var bs := BracesOfLine(line, i, 0);
    forall x, y | 0 <= x < y < |bs| ensures bs[x].col < bs[y].col {
      assert Precedes(bs[x], bs[y]);
      assert bs[x] in bs && bs[y] in bs;
    }
  }

  /** The depth before a brace is what the lines above and the line up to it add up to. */
  lemma {:induction false} DepthAtBrace(lines: seq<string>, start: nat, x: nat)
    requires start <= |lines| && x < |BracesFrom(lines, start)|
    ensures var b := BracesFrom(lines, start)[x];
      start <= b.line < |lines| && Depth(BracesFrom(lines, start), x) == Span(lines, start, b.line) + Level(lines[b.line], b.col)
    decreases |lines| - start
  {
    hide Level, Depth, BracesOfLine;
    var first := BracesOfLine(lines[start], start, 0);
    var rest := BracesFrom(lines, start + 1);
    if x < |first| {
      LineDepth(lines[start], start, x);
      DepthPrefix(first, rest, x);
      BracesOfLineAreThere(lines[start], start, 0);
      assert first[x] in first;
    } else {
      DepthAtBrace(lines, start + 1, x - |first|);
      DepthConcat(first, rest, x - |first|);
      LineNet(lines[start], start);
    }
  }

  lemma BracesFromUnfold(lines: seq<string>, i: nat)
    requires i < |lines|
    ensures BracesFrom(lines, i) == BracesOfLine(lines[i], i, 0) + BracesFrom(lines, i + 1)
  {
  }

  /** How many braces there are up to the end of line l, and the depth there. */
  lemma {:induction false} DepthAtEnd(lines: seq<string>, start: nat, l: nat) returns (n: nat)
    requires start <= l < |lines|
    ensures var bs := BracesFrom(lines, start);
      && n <= |bs| && Depth(bs, n) == Span(lines, start, l + 1)
      && forall x :: 0 <= x < |bs| ==> (x < n <==> bs[x].line <= l)
    decreases l - start
  {
    hide Level, Depth, BracesOfLine, BracesFrom;
    var bs, first, rest := BracesFrom(lines, start), BracesOfLine(lines[start], start, 0), BracesFrom(lines, start + 1);
    BracesFromUnfold(lines, start);
    LineNet(lines[start], start);
    BracesOfLineAreThere(lines[start], start, 0);
    BracesAreThere(lines, start + 1);
    if start == l {
      n := |first|;
      DepthPrefix(first, rest, n);
    } else {
      var m := DepthAtEnd(lines, start + 1, l);
      n := |first| + m;
      DepthConcat(first, rest, m);
    }
    forall x | 0 <= x < |bs| ensures x < n <==> bs[x].line <= l {
      if x < |first| { assert bs[x] in first; } else { assert bs[x] == rest[x - |first|] && rest[x - |first|] in rest; }
    }
  }

  // ---------------------------------------------------------------- the opening brace on a later line

  lemma {:induction false} SpanSplit(lines: seq<string>, i: nat, m: nat, j: nat)
    requires i <= m <= j <= |lines|
    ensures Span(lines, i, j) == Span(lines, i, m) + Span(lines, m, j)
    decreases m - i
  {
    if i < m { SpanSplit(lines, i + 1, m, j); }
  }

  /** Where lines repeat after d lines, every window of d lines has the same net. */
  lemma {:induction false} WindowsAgree(lines: seq<string>, i: nat, k: nat, d: nat)
    requires i + k + d <= |lines|
    requires forall j :: i <= j < i + k ==> lines[j] == lines[j + d]
    ensures Span(lines, i, i + d) == Span(lines, i + k, i + k + d)
  {
    hide Net;
    if k > 0 {
      WindowsAgree(lines, i, k - 1, d);
      var j := i + k - 1;
      SpanSplit(lines, j, j + 1, j + 1 + d);
      SpanSplit(lines, j, j + d, j + 1 + d);
      assert Span(lines, j, j + 1) == Net(lines[j]) + Span(lines, j + 1, j + 1);
      assert Span(lines, j + d, j + 1 + d) == Net(lines[j + d]) + Span(lines, j + d + 1, j + 1 + d);
      assert lines[j] == lines[j + d];
    }
  }

  /** What the code puts together for an opening brace a and a last brace b, and what stands between. */
  function Glued(lines: seq<string>, from: nat, a: Brace, b: Brace): seq<string>
    requires from < b.line < |lines|
  {
    [Slice(lines[from], a.col + 1, |lines[from]|)] + lines[from + 1..b.line] + [Slice(lines[b.line], 0, b.col)]
  }

  lemma GluedLacks(lines: seq<string>, from: nat, a: Brace, b: Brace)
    requires AllLack(lines, '\n') && from < b.line < |lines|
    ensures AllLack(Glued(lines, from, a, b), '\n')
  {
    assert Lacks(lines[from], '\n') && Lacks(lines[b.line], '\n');
  }

  /** If two gluings give the same text, their lines agree one by one. */
  lemma SameTextSameLines(lines: seq<string>, from: nat, to: nat, a: Brace, e: Brace, b: Brace)
    requires AllLack(lines, '\n') && from < e.line < |lines| && to < b.line < |lines|
    requires e.col < |lines[e.line]| && b.col < |lines[b.line]|
    requires Join(Glued(lines, from, a, e), '\n') == Join(Glued(lines, to, a, b), '\n')
    ensures e.line - from == b.line - to && e.col == b.col
    ensures lines[e.line][..e.col] == lines[b.line][..b.col]
    ensures forall j :: from < j < e.line ==> lines[j] == lines[j + (to - from)]
  {
    hide Join, Lacks;
    var x, y := Glued(lines, from, a, e), Glued(lines, to, a, b);
    GluedLacks(lines, from, a, e);
    GluedLacks(lines, to, a, b);
    SplitOnInvertsJoin(x, '\n');
    SplitOnInvertsJoin(y, '\n');
    assert x == y;
    assert x[|x| - 1] == lines[e.line][..e.col] && y[|y| - 1] == lines[b.line][..b.col];
    forall j | from < j < e.line ensures lines[j] == lines[j + (to - from)] {
      assert x[j - from] == lines[j] && y[j - from] == lines[j + (to - from)];
    }
  }

  lemma {:induction false} OnlyClosers(bs: seq<Brace>, c: nat)
    requires forall x :: 0 <= x < |bs| ==> !bs[x].open
    ensures Before(bs, c) <= 0
  {
    if bs != [] { OnlyClosers(bs[1..], c); }
  }

  lemma LineOfClosers(lines: seq<string>, start: nat)
    requires start < |lines|
    requires forall x :: 0 <= x < |BracesFrom(lines, start)| && BracesFrom(lines, start)[x].line == start ==>
      !BracesFrom(lines, start)[x].open
    ensures Net(lines[start]) <= 0
  {
    hide BracesOfLine, BracesFrom, Before;
    var first := BracesOfLine(lines[start], start, 0);
    BracesFromUnfold(lines, start);
    BracesOfLineAreThere(lines[start], start, 0);
    forall x | 0 <= x < |first| ensures !first[x].open {
      assert first[x] == BracesFrom(lines, start)[x] && first[x] in first;
    }
    OnlyClosers(first, |lines[start]|);
    BeforeIgnoresLine(lines[start], start, 0, 0, |lines[start]|);
  }

  /** The first opening brace, the f-th, comes after f closing ones, and the m-th from there closes it. */
  predicate Opens(bs: seq<Brace>, f: nat, m: nat) {
    f < |bs| && (forall k :: 0 <= k < f ==> !bs[k].open) && IsMatch(bs[f..], m)
  }

  lemma MatchDepths(bs: seq<Brace>, f: nat, m: nat)
    requires Opens(bs, f, m)
    ensures f + m < |bs| && m > 0 && bs[f].open && !bs[f + m].open && Depth(bs, f + m) == 1 - f
    ensures forall n :: f < n <= f + m ==> Depth(bs, n) >= 1 - f
  {
    ClosersOnly(bs, f);
    assert Depth(bs[f..], m) >= 1;
    forall n | f < n <= f + m ensures Depth(bs, n) >= 1 - f {
      DepthSplit(bs, f, n - f);
    }
    DepthSplit(bs, f, m);
    assert bs[f..][m] == bs[f + m] && bs[f..][0] == bs[f];
  }

  /** What the search ends at: a closing brace after the first opening one, at depth 1. */
  lemma SearchEnd(bs: seq<Brace>, f: nat, m: nat) returns (e: nat)
    requires Opens(bs, f, m) && Search(bs, 0, None).Found?
    ensures f < e < |bs| && Search(bs, 0, None) == Found(bs[f], bs[e]) && !bs[e].open && Depth(bs, e) == 1
  {
    e := SearchEndsAtZero(bs, 0, None);
    SearchFindsGiven(bs, 0, None);
    MatchDepths(bs, f, m);
    FirstOpener(bs, 0, f);
    if e <= f { ClosersOnly(bs, e); }
  }

  lemma {:induction false} FirstOpener(bs: seq<Brace>, depth: int, f: nat)
    requires f < |bs| && bs[f].open && forall k :: 0 <= k < f ==> !bs[k].open
    ensures Search(bs, depth, None).Found? ==> Search(bs, depth, None).first == bs[f]
  {
    if f > 0 {
      FirstOpener(bs[1..], depth - 1, f - 1);
    } else {
      SearchFindsGiven(bs[1..], depth + 1, Some(bs[0]));
    }
  }

  /** If the text the code glues together from the start line to brace e were the body, the lines after
      the start would repeat those after the opening brace, and have the net of the stray braces. */
  lemma RepeatedLinesNet(lines: seq<string>, start: nat, f: nat, m: nat, e: nat)
    requires start < |lines| && AllLack(lines, '\n')
    requires var bs := BracesFrom(lines, start);
      Opens(bs, f, m) && f < e < |bs| && Depth(bs, e) == 1 && !bs[e].open && bs[f].line > start
    requires var bs := BracesFrom(lines, start);
      f + m < |bs| && bs[f].line < bs[f + m].line < |lines| && start < bs[e].line < |lines|
      && Join(Glued(lines, start, bs[f], bs[e]), '\n') == Join(Glued(lines, bs[f].line, bs[f], bs[f + m]), '\n')
    ensures Span(lines, start, BracesFrom(lines, start)[f].line + 1) == Net(lines[start]) - f
  {
    hide BracesFrom, BracesOfLine, Level, Net, Depth, Join, Opens, Glued, Slice, Span;
    var bs := BracesFrom(lines, start);
    MatchDepths(bs, f, m);
    BracesAreThere(lines, start);
    var a, x, y := bs[f], bs[e], bs[f + m];
    assert a in bs && x in bs && y in bs;
    var d := a.line - start;
    SameTextSameLines(lines, start, a.line, a, x, y);
    DepthAtBrace(lines, start, e);
    DepthAtBrace(lines, start, f + m);
    assert lines[x.line][..x.col + 1] == lines[x.line][..x.col] + ['}'] == lines[y.line][..y.col + 1];
    LevelAgrees(lines[x.line], lines[y.line], x.col);
    SpanSplit(lines, start, x.line, y.line);
    WindowsAgree(lines, start + 1, x.line - start - 1, d);
    assert Span(lines, start + 1, start + 1 + d) == Span(lines, x.line, y.line);
    SpanFirst(lines, start, a.line + 1);
  }

  /** But the lines up to the opening brace's own end inside the body, and the start line only closes. */
  lemma OpenerLineNet(lines: seq<string>, start: nat, f: nat, m: nat)
    requires start < |lines|
    requires var bs := BracesFrom(lines, start);
      Opens(bs, f, m) && f + m < |bs| && start < bs[f].line < bs[f + m].line < |lines|
    ensures Span(lines, start, BracesFrom(lines, start)[f].line + 1) >= 1 - f && Net(lines[start]) <= 0
  {
    hide BracesFrom, BracesOfLine, Net, Depth, Opens, Span;
    var bs := BracesFrom(lines, start);
    MatchDepths(bs, f, m);
    BracesInOrder(lines, start);
    LinesBeforeOpener(bs, start, f, m);
    LineOfClosers(lines, start);
    var n := DepthAtEnd(lines, start, bs[f].line);
    assert f < n <= f + m;
  }

  lemma LevelAgrees(x: string, y: string, c: nat)
    requires c < |x| && c < |y| && x[..c + 1] == y[..c + 1]
    ensures Level(x, c) == Level(y, c)
  {
    BeforeAgrees(x, y, 0, c);
  }

  lemma SpanFirst(lines: seq<string>, i: nat, j: nat)
    requires i < j <= |lines|
    ensures Span(lines, i, j) == Net(lines[i]) + Span(lines, i + 1, j)
  {
  }

  lemma LinesBeforeOpener(bs: seq<Brace>, start: nat, f: nat, m: nat)
    requires Opens(bs, f, m) && InFileOrder(bs) && bs[f].line > start
    ensures forall x :: 0 <= x < |bs| && bs[x].line == start ==> !bs[x].open
  {
    forall x | f < x < |bs| ensures Precedes(bs[f], bs[x]) {
    }
  }

  // ---------------------------------------------------------------- the exact condition

  lemma {:induction false} OffsetAscends(lines: seq<string>, a: Brace, b: Brace)
    requires Precedes(a, b) && b.line < |lines| && a.col < |lines[a.line]| && b.col < |lines[b.line]|
    ensures Offset(lines, a.line) + a.col < Offset(lines, b.line) + b.col < |Join(lines, '\n')|
  {
    JoinUpTo(lines, b.line, b.col + 1);
    if a.line < b.line {
      OffsetFrom(lines, a.line, b.line - a.line);
      OffsetGrows(lines[a.line..], b.line - a.line);
    }
  }

  /** Texts from one place to two different places differ. */
  lemma BetweenDiffers(lines: seq<string>, a: Brace, b: Brace, c: Brace)
    requires Precedes(a, b) && Precedes(b, c) && c.line < |lines|
    requires a.col < |lines[a.line]| && b.col < |lines[b.line]| && c.col < |lines[c.line]|
    ensures Between(lines, a, b) != Between(lines, a, c)
  {
    hide Join, Offset;
    OffsetAscends(lines, a, b);
    OffsetAscends(lines, b, c);
    assert |Between(lines, a, b)| < |Between(lines, a, c)|;
  }

  /** With the first opening brace on the start line, but behind a stray closing one, the text goes to
      another brace than its match. */
  lemma StrayCloserDerails(lines: seq<string>, start: nat, f: nat, m: nat)
    requires start <= |lines| && AllLack(lines, '\n')
    requires var bs := BracesFrom(lines, start); Opens(bs, f, m) && f > 0 && bs[f].line == start
    requires Search(BracesFrom(lines, start), 0, None).Found?
    ensures var bs := BracesFrom(lines, start);
      f + m < |bs| && bs[f].line < |lines| && bs[f + m].line < |lines|
      && Extracted(lines, start) != Some(Between(lines, bs[f], bs[f + m]))
  {
    hide BracesFrom, Search, Depth, Between, BodyText;
    var bs := BracesFrom(lines, start);
    MatchDepths(bs, f, m);
    BracesAreThere(lines, start);
    BracesInOrder(lines, start);
    var e := SearchEnd(bs, f, m);
    assert bs[f] in bs && bs[e] in bs && bs[f + m] in bs;
    BodyIsBetween(lines, start, bs[f], bs[e]);
    if e < f + m {
      BetweenDiffers(lines, bs[f], bs[e], bs[f + m]);
    } else {
      BetweenDiffers(lines, bs[f], bs[f + m], bs[e]);
    }
  }

  /** With the first opening brace on a later line the text is never the body. */
  lemma LaterOpenerDerails(lines: seq<string>, start: nat, f: nat, m: nat)
    requires start <= |lines| && AllLack(lines, '\n')
    requires var bs := BracesFrom(lines, start); Opens(bs, f, m) && bs[f].line > start
    requires Search(BracesFrom(lines, start), 0, None).Found?
    ensures var bs := BracesFrom(lines, start);
      f + m < |bs| && bs[f].line < |lines| && bs[f + m].line < |lines|
      && Extracted(lines, start) != Some(Between(lines, bs[f], bs[f + m]))
  {
    hide BracesFrom, Search, Depth, Between, Opens, IsMatch, Newlines, Join, Slice;
    var bs := BracesFrom(lines, start);
    MatchDepths(bs, f, m);
    BracesAreThere(lines, start);
    BracesInOrder(lines, start);
    var e := SearchEnd(bs, f, m);
    var a, x, y := bs[f], bs[e], bs[f + m];
    assert a in bs && x in bs && y in bs;
    assert Precedes(a, x) && Precedes(a, y);
    assert Extracted(lines, start) == Some(Join(Glued(lines, start, a, x), '\n'));
    if Extracted(lines, start) == Some(Between(lines, a, y)) {
      BetweenNewlines(lines, a, y);
      GluedLacks(lines, start, a, x);
      NewlinesOfJoin(Glued(lines, start, a, x));
      assert a.line < y.line;
      BetweenIsGlued(lines, a, y);
      RepeatedLinesNet(lines, start, f, m, e);
      OpenerLineNet(lines, start, f, m);
      assert false;
    }
  }

  lemma BetweenIsGlued(lines: seq<string>, a: Brace, b: Brace)
    requires a.line < b.line < |lines| && a.col < |lines[a.line]| && b.col < |lines[b.line]|
    ensures Between(lines, a, b) == Join(Glued(lines, a.line, a, b), '\n')
  {
    hide Between, Join;
    BetweenIsJoin(lines, a, b);
    assert Slice(lines[a.line], a.col + 1, |lines[a.line]|) == lines[a.line][a.col + 1..];
    assert Slice(lines[b.line], 0, b.col) == lines[b.line][..b.col];
  }

  /** Whatever stray closing braces come first: the text returned is exactly the text between the first
      opening brace and its match if and only if no closing brace comes before it and it stands on the
      start line. */
  lemma BodyIsReturnedExactly(lines: seq<string>, start: nat, f: nat, m: nat)
    requires start <= |lines| && AllLack(lines, '\n') && Opens(BracesFrom(lines, start), f, m)
    ensures var bs := BracesFrom(lines, start);
      && f + m < |bs| && start <= bs[f].line < |lines| && bs[f + m].line < |lines|
      && (Extracted(lines, start) == Some(Between(lines, bs[f], bs[f + m])) <==> f == 0 && bs[f].line == start)
  {
    hide BracesFrom, Search, Depth, Between;
    var bs := BracesFrom(lines, start);
    MatchDepths(bs, f, m);
    BracesAreThere(lines, start);
    assert bs[f] in bs && bs[f + m] in bs;
    if Search(bs, 0, None).Found? && bs[f].line > start {
      LaterOpenerDerails(lines, start, f, m);
    } else if f == 0 {
      assert bs[0..] == bs && IsMatch(bs, m);
      ExtractedIsBetweenMatchingBraces(lines, start);
    } else if Search(bs, 0, None).Found? {
      StrayCloserDerails(lines, start, f, m);
    }
  }

  // ---------------------------------------------------------------- examples

  /** The opening brace one line below the start: the text is cut out of the start line. */
  lemma LaterOpenerExample()
    ensures var lines := ["it(", "{x}"];
      Opens(BracesFrom(lines, 0), 0, 1) && Extracted(lines, 0) == Some("t(\n{x")
      && Between(lines, Brace(1, 0, true), Brace(1, 2, false)) == "x"
  {
    var lines := ["it(", "{x}"];
    var a, b := Brace(1, 0, true), Brace(1, 2, false);
    hide BracesFrom, BracesOfLine, Search, IsMatch, BodyText, Between;
    LaterOpenerBraces(lines);
    TwoBraces(a, b);
    BetweenOnOneLine(lines, a, b);
    LaterOpenerText(lines, a, b);
    assert [a, b][0..] == [a, b];
  }

  /** A stray closing brace before the first opening one: the text ends at the inner block's end. */
  lemma StrayCloserExample()
    ensures var lines := ["}{{x}}"];
      Opens(BracesFrom(lines, 0), 1, 3) && Extracted(lines, 0) == Some("{x")
      && Between(lines, Brace(0, 1, true), Brace(0, 5, false)) == "{x}"
  {
    var line, lines := "}{{x}}", ["}{{x}}"];
    var bs := [Brace(0, 0, false), Brace(0, 1, true), Brace(0, 2, true), Brace(0, 4, false), Brace(0, 5, false)];
    hide BracesFrom, BracesOfLine, Search, Opens, Between;
    StrayCloserBraces(lines, bs);
    StrayCloserSearch(bs);
    BetweenOnOneLine(lines, bs[1], bs[4]);
    assert Slice(line, 2, 4) == "{x" && line[2..5] == "{x}";
  }

  lemma LaterOpenerText(lines: seq<string>, a: Brace, b: Brace)
    requires lines == ["it(", "{x}"] && a == Brace(1, 0, true) && b == Brace(1, 2, false)
    ensures BodyText(lines, 0, Found(a, b)) == Some("t(\n{x")
  {
    hide Join;
    assert Slice("it(", 1, 3) == "t(" && Slice("{x}", 0, 2) == "{x";
    assert ["t("] + lines[1..1] + ["{x"] == ["t(", "{x"];
    JoinPair("t(", "{x");
    assert "t(" + "\n" + "{x" == "t(\n{x";
  }

  lemma StrayCloserBraces(lines: seq<string>, bs: seq<Brace>)
    requires lines == ["}{{x}}"]
    requires bs == [Brace(0, 0, false), Brace(0, 1, true), Brace(0, 2, true), Brace(0, 4, false), Brace(0, 5, false)]
    ensures BracesFrom(lines, 0) == bs
  {
    var line := lines[0];
    assert BracesOfLine(line, 0, 5) == bs[4..];
    assert BracesOfLine(line, 0, 4) == bs[3..];
    assert BracesOfLine(line, 0, 3) == bs[3..];
    assert BracesOfLine(line, 0, 2) == bs[2..];
    assert BracesOfLine(line, 0, 1) == bs[1..];
  }

  lemma StrayCloserSearch(bs: seq<Brace>)
    requires |bs| == 5 && !bs[0].open && bs[1].open && bs[2].open && !bs[3].open && !bs[4].open
    ensures Search(bs, 0, None) == Found(bs[1], bs[3]) && Opens(bs, 1, 3)
  {
    assert Search(bs[3..], 1, Some(bs[1])) == Found(bs[1], bs[3]);
    assert bs[2..][1..] == bs[3..] && bs[1..][1..] == bs[2..];
    assert Search(bs[2..], 0, Some(bs[1])) == Found(bs[1], bs[3]);
    assert Search(bs[1..], -1, None) == Found(bs[1], bs[3]);
    NestedMatch(bs[1..]);
  }

  lemma LaterOpenerBraces(lines: seq<string>)
    requires lines == ["it(", "{x}"]
    ensures BracesFrom(lines, 0) == [Brace(1, 0, true), Brace(1, 2, false)]
  {
    assert BracesOfLine("{x}", 1, 1) == [Brace(1, 2, false)];
    assert BracesOfLine("it(", 0, 1) == [];
    assert BracesFrom(lines, 1) == [Brace(1, 0, true), Brace(1, 2, false)];
  }

  lemma TwoBraces(a: Brace, b: Brace)
    requires a.open && !b.open
    ensures IsMatch([a, b], 1) && Search([a, b], 0, None) == Found(a, b)
  {
    assert Depth([a, b], 1) == 1;
    assert [a, b][1..] == [b];
  }

  lemma NestedMatch(bs: seq<Brace>)
    requires |bs| == 4 && bs[0].open && bs[1].open && !bs[2].open && !bs[3].open
    ensures IsMatch(bs, 3)
  {
    assert Depth(bs, 1) == 1;
    assert Depth(bs, 2) == 2;
    assert Depth(bs, 3) == 1;
  }

  lemma JoinPair(a: string, b: string)
    ensures Join([a, b], '\n') == a + "\n" + b
  {
    assert [a, b][1..] == [b];
  }
}
