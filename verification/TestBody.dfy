/**
  The brace matcher of src/lib/test-quality-validator.ts: the body of a test block is the text
  between its first opening brace and the matching closing one.
 */
module TestBody {
  import opened Wrappers
  import opened Text

  /** A brace that is neither in a string literal nor in a line comment. */
  datatype Brace = Brace(line: nat, col: nat, open: bool)

  predicate IsQuote(c: char) {
    c == '"' || c == '\'' || c == '`'
  }

  /** Where a string literal of the line ends: at its closing quote, or past the end of the line. */
  function StringEnd(line: string, j: nat, quote: char): (r: nat)
    ensures j <= r
    decreases |line| - j
  {
    if j >= |line| then j
    else if line[j] == '\\' then StringEnd(line, j + 2, quote)
    else if line[j] == quote then j
    else StringEnd(line, j + 1, quote)
  }

  predicate CommentAt(line: string, j: nat) {
    j + 1 < |line| && line[j] == '/' && line[j + 1] == '/'
  }

  /** The braces of line number `i` from column `j` on. Every line is lexed on its own. */
  function BracesOfLine(line: string, i: nat, j: nat): seq<Brace>
    decreases |line| - j
  {
    if j >= |line| then []
    else if IsQuote(line[j]) then BracesOfLine(line, i, StringEnd(line, j + 1, line[j]) + 1)
    else if CommentAt(line, j) then []
    else (if line[j] == '{' then [Brace(i, j, true)] else if line[j] == '}' then [Brace(i, j, false)] else [])
         + BracesOfLine(line, i, j + 1)
  }

  /** The braces of the file from line `i` on. */
  function BracesFrom(lines: seq<string>, i: nat): seq<Brace>
    requires i <= |lines|
    decreases |lines| - i
  {
    if i == |lines| then [] else BracesOfLine(lines[i], i, 0) + BracesFrom(lines, i + 1)
  }

  // ---------------------------------------------------------------- what the loop computes

  datatype Found = NotFound | Found(first: Brace, last: Brace)

  /** The search of the code: from the first opening brace, to the first closing brace that brings
      the running depth to 0. Closing braces before the first opening one count too. */
  function Search(bs: seq<Brace>, depth: int, first: Option<Brace>): Found {
    if bs == [] then NotFound
    else if bs[0].open then Search(bs[1..], depth + 1, if first.None? then Some(bs[0]) else first)
    else if first.Some? && depth == 1 then Found(first.value, bs[0])
    else Search(bs[1..], depth - 1, first)
  }

  /** String.slice for 0 <= a and 0 <= b. */
  function Slice(s: string, a: nat, b: nat): string {
    var e := if b <= |s| then b else |s|;
    if a <= e then s[a..e] else ""
  }

  /** The text the code returns: it takes the first brace to be on the start line. */
  function BodyText(lines: seq<string>, start: nat, f: Found): Option<string>
    requires f.Found? ==> start <= f.last.line < |lines|
  {
    match f
    case NotFound => None
    case Found(first, last) =>
      if last.line == start then Some(Slice(lines[start], first.col + 1, last.col))
      else Some(Join([Slice(lines[start], first.col + 1, |lines[start]|)] + lines[start + 1..last.line]
                     + [Slice(lines[last.line], 0, last.col)], '\n'))
  }

  lemma {:induction false} BracesOfLineAreThere(line: string, i: nat, j: nat)
    ensures forall b :: b in BracesOfLine(line, i, j) ==>
      b.line == i && j <= b.col < |line| && line[b.col] == if b.open then '{' else '}'
    decreases |line| - j
  {
    if j < |line| {
      if IsQuote(line[j]) {
        BracesOfLineAreThere(line, i, StringEnd(line, j + 1, line[j]) + 1);
      } else if !CommentAt(line, j) {
        BracesOfLineAreThere(line, i, j + 1);
      }
    }
  }

  lemma {:induction false} BracesAreThere(lines: seq<string>, i: nat)
    requires i <= |lines|
    ensures forall b :: b in BracesFrom(lines, i) ==>
      i <= b.line < |lines| && b.col < |lines[b.line]| && lines[b.line][b.col] == if b.open then '{' else '}'
    decreases |lines| - i
  {
    if i < |lines| {
      BracesOfLineAreThere(lines[i], i, 0);
      BracesAreThere(lines, i + 1);
    }
  }

  lemma {:induction false} SearchFindsGiven(bs: seq<Brace>, depth: int, first: Option<Brace>)
    ensures var f := Search(bs, depth, first);
      f.Found? ==> f.last in bs && !f.last.open && (if first.Some? then f.first == first.value else f.first in bs && f.first.open)
  {
    if bs != [] {
      SearchFindsGiven(bs[1..], if bs[0].open then depth + 1 else depth - 1,
                       if bs[0].open && first.None? then Some(bs[0]) else first);
    }
  }

  function Extracted(lines: seq<string>, start: nat): Option<string>
    requires start <= |lines|
  {
    var bs := BracesFrom(lines, start);
    SearchFindsGiven(bs, 0, None);
    BracesAreThere(lines, start);
    BodyText(lines, start, Search(bs, 0, None))
  }

  /** The innermost loop: skips the string literal whose quote is at `open`. */
  method SkipLiteral(line: string, open: nat) returns (j: nat)
    requires open < |line| && IsQuote(line[open])
    ensures j == StringEnd(line, open + 1, line[open])
  {
    var quote := line[open];
    j := open + 1;
    while j < |line|
      invariant open < j
      invariant StringEnd(line, open + 1, quote) == StringEnd(line, j, quote)
      decreases |line| - j
    {
      SkipOne(line, j, quote);
      if line[j] == '\\' {
        j := j + 1;
      } else if line[j] == quote {
        break;
      }
      j := j + 1;
    }
    SkipAll(line, j, quote);
  }

  /** The text from just after the opening brace to just before the closing one at (i, j). */
  method CollectBody(lines: seq<string>, startLine: nat, bodyStart: nat, i: nat, j: nat) returns (body: string)
    requires startLine <= i < |lines|
    ensures body == if i == startLine then Slice(lines[startLine], bodyStart, j)
      else Join([Slice(lines[startLine], bodyStart, |lines[startLine]|)] + lines[startLine + 1..i] + [Slice(lines[i], 0, j)], '\n')
  {
    var bodyLines: seq<string>;
    if i == startLine {
      bodyLines := [Slice(lines[i], bodyStart, j)];
      JoinSingle(bodyLines[0]);
    } else {
      bodyLines := [Slice(lines[startLine], bodyStart, |lines[startLine]|)];
      for k := startLine + 1 to i
        invariant bodyLines == [Slice(lines[startLine], bodyStart, |lines[startLine]|)] + lines[startLine + 1..k]
      {
        bodyLines := bodyLines + [lines[k]];
      }
      bodyLines := bodyLines + [Slice(lines[i], 0, j)];
    }
    body := Join(bodyLines, '\n');
  }

  /** The variables the scan carries from line to line; `first` is the brace that `bodyStart` follows. */
  ghost predicate Carries(started: bool, bodyStart: int, first: Option<Brace>) {
    started == first.Some? && (started ==> bodyStart == first.value.col + 1)
  }

  /** The loop over the columns of line `i`; stops early at the brace that closes the body. */
  method ScanLine(line: string, i: nat, depth0: int, started0: bool, bodyStart0: int,
                  ghost first0: Option<Brace>, ghost later: seq<Brace>)
    returns (depth: int, started: bool, bodyStart: int, closing: Option<nat>, ghost first: Option<Brace>)
    requires Carries(started0, bodyStart0, first0)
    ensures Carries(started, bodyStart, first) && (closing.Some? ==> started)
    ensures Search(BracesOfLine(line, i, 0) + later, depth0, first0) ==
      if closing.Some? then Found(first.value, Brace(i, closing.value, false)) else Search(later, depth, first)
  {
    hide StringEnd, Search, BracesOfLine;
    depth, started, bodyStart, first := depth0, started0, bodyStart0, first0;
    var j := 0;
    while j < |line|
      invariant 0 <= j && Carries(started, bodyStart, first)
      invariant Search(BracesOfLine(line, i, 0) + later, depth0, first0) == Search(BracesOfLine(line, i, j) + later, depth, first)
    {
      var ch := line[j];
      LineStep(line, i, j, later);
      if ch == '"' || ch == '\'' || ch == '`' {
        j := SkipLiteral(line, j);
        j := j + 1;
        continue;
      }
      if ch == '/' && j + 1 < |line| && line[j + 1] == '/' {
        break;
      }
      ghost var rest := BracesOfLine(line, i, j + 1) + later;
      if ch == '{' {
        SearchStep(Brace(i, j, true), rest, depth, first);
        if !started {
          started := true;
          bodyStart := j + 1;
          first := Some(Brace(i, j, true));
        }
        depth := depth + 1;
      } else if ch == '}' {
        SearchStep(Brace(i, j, false), rest, depth, first);
        depth := depth - 1;
        if started && depth == 0 {
          closing := Some(j);
          return;
        }
      }
      j := j + 1;
    }
    LineStep(line, i, j, later);
    closing := None;
  }

  lemma LineStep(line: string, i: nat, j: nat, later: seq<Brace>)
    ensures BracesOfLine(line, i, j) + later ==
      if j >= |line| then later
      else if IsQuote(line[j]) then BracesOfLine(line, i, StringEnd(line, j + 1, line[j]) + 1) + later
      else if CommentAt(line, j) then later
      else if line[j] == '{' || line[j] == '}' then [Brace(i, j, line[j] == '{')] + (BracesOfLine(line, i, j + 1) + later)
      else BracesOfLine(line, i, j + 1) + later
  {
    assert [] + later == later;
  }

  /** extractTestBody */
  method ExtractTestBody(lines: seq<string>, startLine: nat) returns (r: Option<string>)
    requires startLine <= |lines|
    ensures r == Extracted(lines, startLine)
  {
    hide Slice, Join, Search, BracesOfLine;
    var depth := 0;
    var started := false;
    var bodyStart := -1;
    ghost var all := Search(BracesFrom(lines, startLine), 0, None);
    ghost var first: Option<Brace> := None;
    SearchFindsGiven(BracesFrom(lines, startLine), 0, None);
    BracesAreThere(lines, startLine);
    var i := startLine;
    while i < |lines|
      invariant startLine <= i <= |lines|
      invariant all == Search(BracesFrom(lines, i), depth, first)
      invariant Carries(started, bodyStart, first)
    {
      var closing;
      depth, started, bodyStart, closing, first := ScanLine(lines[i], i, depth, started, bodyStart, first, BracesFrom(lines, i + 1));
      if closing.Some? {
        var body := CollectBody(lines, startLine, bodyStart, i, closing.value);
        return Some(body);
      }
      i := i + 1;
    }
    SearchNothing(depth, first);
    r := None;
  }

  lemma SearchNothing(depth: int, first: Option<Brace>)
    ensures Search([], depth, first) == NotFound
  {
  }

  lemma SkipOne(line: string, j: nat, quote: char)
    requires j < |line|
    ensures line[j] == '\\' ==> StringEnd(line, j, quote) == StringEnd(line, j + 2, quote)
    ensures line[j] != '\\' && line[j] != quote ==> StringEnd(line, j, quote) == StringEnd(line, j + 1, quote)
  {
  }

  lemma SkipAll(line: string, j: nat, quote: char)
    requires j >= |line| || (line[j] == quote && line[j] != '\\')
    ensures StringEnd(line, j, quote) == j
  {
  }

  lemma SearchStep(b: Brace, rest: seq<Brace>, depth: int, first: Option<Brace>)
    ensures Search([b] + rest, depth, first) ==
      if b.open then Search(rest, depth + 1, if first.None? then Some(b) else first)
      else if first.Some? && depth == 1 then Found(first.value, b)
      else Search(rest, depth - 1, first)
  {
    assert ([b] + rest)[1..] == rest;
  }

  lemma JoinSingle(s: string)
    ensures Join([s], '\n') == s
  {
  }

  // ---------------------------------------------------------------- matching braces

  /** Opening minus closing braces among the first n. */
  function Depth(bs: seq<Brace>, n: nat): int
    requires n <= |bs|
  {
    if n == 0 then 0 else Depth(bs, n - 1) + if bs[n - 1].open then 1 else -1
  }

  /** Brace m closes the opening brace 0: every proper prefix in between is nested. */
  predicate IsMatch(bs: seq<Brace>, m: nat) {
    0 < m < |bs| && bs[0].open && Depth(bs, m + 1) == 0 && forall k :: 1 <= k <= m ==> Depth(bs, k) >= 1
  }

  lemma {:induction false} DepthCons(b: Brace, rest: seq<Brace>, n: nat)
    requires n <= |rest|
    ensures Depth([b] + rest, n + 1) == Depth(rest, n) + if b.open then 1 else -1
  {
    if n > 0 {
      DepthCons(b, rest, n - 1);
      assert ([b] + rest)[n] == rest[n - 1];
    } else {
      assert ([b] + rest)[0] == b;
    }
  }

  /** A search at depth d >= 1 stops at the first brace that brings the depth to 0. */
  ghost predicate StopsAt(bs: seq<Brace>, d: int, m: nat) {
    m < |bs| && d + Depth(bs, m + 1) == 0 && forall k :: 0 <= k <= m ==> d + Depth(bs, k) >= 1
  }

  lemma {:induction false} SearchStops(bs: seq<Brace>, d: int, first: Brace) returns (m: nat)
    requires d >= 1
    ensures Search(bs, d, Some(first)).Found? ==> StopsAt(bs, d, m) && Search(bs, d, Some(first)) == Found(first, bs[m])
    ensures Search(bs, d, Some(first)).NotFound? ==> forall k: nat :: !StopsAt(bs, d, k)
    decreases |bs|
  {
    m := 0;
    if bs != [] {
      var b, rest := bs[0], bs[1..];
      var d' := if b.open then d + 1 else d - 1;
      assert bs == [b] + rest;
      DepthCons(b, rest, 0);
      if d' == 0 {
        assert StopsAt(bs, d, 0);
      } else {
        m := SearchStops(rest, d', first);
        forall k: nat ensures StopsAt(bs, d, k + 1) <==> StopsAt(rest, d', k) { StopsShift(b, rest, d, k); }
        if Search(rest, d', Some(first)).Found? {
          m := m + 1;
        } else {
          forall k: nat ensures !StopsAt(bs, d, k) {
            if k > 0 { assert StopsAt(bs, d, k - 1 + 1) <==> StopsAt(rest, d', k - 1); }
          }
        }
      }
    }
  }

  lemma StopsShift(b: Brace, rest: seq<Brace>, d: int, k: nat)
    requires d >= 1
    ensures StopsAt([b] + rest, d, k + 1) <==> StopsAt(rest, if b.open then d + 1 else d - 1, k)
  {
    var bs, d' := [b] + rest, if b.open then d + 1 else d - 1;
    forall n | 0 <= n <= |rest| ensures d + Depth(bs, n + 1) == d' + Depth(rest, n) {
      DepthCons(b, rest, n);
    }
    if StopsAt(bs, d, k + 1) {
      forall n | 0 <= n <= k ensures d' + Depth(rest, n) >= 1 {
        assert d + Depth(bs, n + 1) >= 1;
      }
    }
    if StopsAt(rest, d', k) {
      forall n | 0 <= n <= k + 1 ensures d + Depth(bs, n) >= 1 {
        if n > 0 { assert d' + Depth(rest, n - 1) >= 1; }
      }
    }
  }

  /** When the first brace opens, the search finds exactly its match. */
  lemma SearchFindsTheMatch(bs: seq<Brace>)
    requires bs != [] && bs[0].open
    ensures match Search(bs, 0, None)
      case Found(first, last) => first == bs[0] && exists m: nat :: IsMatch(bs, m) && last == bs[m]
      case NotFound => forall m: nat :: !IsMatch(bs, m)
  {
    var m := SearchStops(bs[1..], 1, bs[0]);
    assert bs == [bs[0]] + bs[1..];
    forall k: nat ensures StopsAt(bs[1..], 1, k) <==> IsMatch(bs, k + 1) { MatchIsStop(bs, k); }
    if Search(bs, 0, None).Found? {
      assert IsMatch(bs, m + 1) && bs[1..][m] == bs[m + 1];
    } else {
      forall k: nat ensures !IsMatch(bs, k) {
        if k > 0 { assert StopsAt(bs[1..], 1, k - 1) <==> IsMatch(bs, k - 1 + 1); }
      }
    }
  }

  lemma MatchIsStop(bs: seq<Brace>, k: nat)
    requires bs != [] && bs[0].open
    ensures StopsAt(bs[1..], 1, k) <==> IsMatch(bs, k + 1)
  {
    var rest := bs[1..];
    assert bs == [bs[0]] + rest;
    forall n | 0 <= n <= |rest| ensures Depth(bs, n + 1) == 1 + Depth(rest, n) {
      DepthCons(bs[0], rest, n);
    }
    if IsMatch(bs, k + 1) {
      forall n | 0 <= n <= k ensures 1 + Depth(rest, n) >= 1 {
        assert Depth(bs, n + 1) >= 1;
      }
    }
    if StopsAt(rest, 1, k) {
      forall n | 1 <= n <= k + 1 ensures Depth(bs, n) >= 1 {
        assert 1 + Depth(rest, n - 1) >= 1;
      }
    }
  }

  lemma MatchIsUnique(bs: seq<Brace>, m: nat, n: nat)
    requires IsMatch(bs, m) && IsMatch(bs, n)
    ensures m == n
  {
  }

  // ---------------------------------------------------------------- text between two places

  /** Where line l starts in the text of the file. */
  function Offset(lines: seq<string>, l: nat): nat
    requires l <= |lines|
  {
    if l == 0 then 0 else |lines[0]| + 1 + Offset(lines[1..], l - 1)
  }

  /** The text strictly between two braces, cut out of the whole file. */
  function Between(lines: seq<string>, a: Brace, b: Brace): string
    requires a.line < |lines| && b.line < |lines|
  {
    Slice(Join(lines, '\n'), Offset(lines, a.line) + a.col + 1, Offset(lines, b.line) + b.col)
  }

  lemma {:induction false} JoinFrom(lines: seq<string>, l: nat)
    requires l < |lines|
    ensures Offset(lines, l) <= |Join(lines, '\n')| && Join(lines, '\n')[Offset(lines, l)..] == Join(lines[l..], '\n')
  {
    if l == 0 {
      assert lines[0..] == lines;
    } else {
      JoinFrom(lines[1..], l - 1);
      assert lines[1..][l - 1..] == lines[l..];
      var rest := Join(lines[1..], '\n');
      assert Join(lines, '\n')[|lines[0]| + 1..] == rest;
      assert rest[Offset(lines[1..], l - 1)..] == Join(lines, '\n')[Offset(lines, l)..];
    }
  }

  lemma {:induction false} OffsetFrom(lines: seq<string>, l: nat, n: nat)
    requires l + n <= |lines|
    ensures Offset(lines, l + n) == Offset(lines, l) + Offset(lines[l..], n)
  {
    if l == 0 {
      assert lines[0..] == lines;
    } else {
      OffsetFrom(lines[1..], l - 1, n);
      assert lines[1..][l - 1..] == lines[l..];
    }
  }

  /** The text up to column c of line n is the earlier lines and that line's head. */
  lemma {:induction false} JoinUpTo(lines: seq<string>, n: nat, c: nat)
    requires n < |lines| && c <= |lines[n]|
    ensures Offset(lines, n) + c <= |Join(lines, '\n')|
    ensures Join(lines, '\n')[..Offset(lines, n) + c] == Join(lines[..n] + [lines[n][..c]], '\n')
  {
    var cut := lines[..n] + [lines[n][..c]];
    if n == 0 {
      assert cut == [lines[0][..c]];
    } else {
      JoinUpTo(lines[1..], n - 1, c);
      assert lines[1..][..n - 1] + [lines[n][..c]] == cut[1..];
      var text, rest := Join(lines, '\n'), Join(lines[1..], '\n');
      assert text == lines[0] + "\n" + rest;
      assert text[..Offset(lines, n) + c] == lines[0] + "\n" + rest[..Offset(lines[1..], n - 1) + c];
    }
  }

  lemma JoinDrop(x: string, rest: seq<string>, a: nat)
    requires a <= |x|
    ensures a <= |Join([x] + rest, '\n')| && Join([x] + rest, '\n')[a..] == Join([x[a..]] + rest, '\n')
  {
    if rest != [] {
      assert ([x] + rest)[1..] == rest && ([x[a..]] + rest)[1..] == rest;
      assert (x + "\n" + Join(rest, '\n'))[a..] == x[a..] + "\n" + Join(rest, '\n');
    }
  }

  /** The lines the code puts together for two places on different lines are the text between them. */
  lemma BetweenIsJoin(lines: seq<string>, a: Brace, b: Brace)
    requires a.line < b.line < |lines| && a.col < |lines[a.line]| && b.col < |lines[b.line]|
    ensures Between(lines, a, b) ==
      Join([lines[a.line][a.col + 1..]] + lines[a.line + 1..b.line] + [lines[b.line][..b.col]], '\n')
  {
    hide Offset, Join;
    var ls, n := lines[a.line..], b.line - a.line;
    var text, tail, o := Join(lines, '\n'), Join(ls, '\n'), Offset(lines, a.line);
    var rest := lines[a.line + 1..b.line] + [lines[b.line][..b.col]];
    JoinFrom(lines, a.line);
    OffsetFrom(lines, a.line, n);
    JoinUpTo(ls, n, b.col);
    OffsetGrows(ls, n);
    assert ls[..n] + [ls[n][..b.col]] == [ls[0]] + rest;
    JoinDrop(ls[0], rest, a.col + 1);
    var e := Offset(ls, n) + b.col;
    assert tail[..e][a.col + 1..] == tail[a.col + 1..e] == text[o + a.col + 1..o + e];
    assert Between(lines, a, b) == text[o + a.col + 1..o + e];
    assert [lines[a.line][a.col + 1..]] + rest == [lines[a.line][a.col + 1..]] + lines[a.line + 1..b.line] + [lines[b.line][..b.col]];
  }

  lemma OffsetGrows(lines: seq<string>, n: nat)
    requires 0 < n <= |lines|
    ensures Offset(lines, n) >= |lines[0]| + 1
  {
  }

  lemma BetweenOnOneLine(lines: seq<string>, a: Brace, b: Brace)
    requires a.line == b.line < |lines| && a.col < b.col < |lines[b.line]|
    ensures Between(lines, a, b) == lines[a.line][a.col + 1..b.col]
  {
    var l := a.line;
    JoinFrom(lines, l);
    JoinUpTo(lines[l..], 0, b.col);
    var tail := Join(lines[l..], '\n');
    assert lines[l..][..0] + [lines[l][..b.col]] == [lines[l][..b.col]];
    assert tail[..b.col] == lines[l][..b.col];
    assert tail[a.col + 1..b.col] == tail[..b.col][a.col + 1..];
  }

  // ---------------------------------------------------------------- the braces are in file order

  predicate Precedes(a: Brace, b: Brace) {
    a.line < b.line || (a.line == b.line && a.col < b.col)
  }

  predicate InFileOrder(bs: seq<Brace>) {
    forall x, y :: 0 <= x < y < |bs| ==> Precedes(bs[x], bs[y])
  }

  lemma OrderConcat(a: seq<Brace>, b: seq<Brace>)
    requires InFileOrder(a) && InFileOrder(b) && forall x, y :: x in a && y in b ==> Precedes(x, y)
    ensures InFileOrder(a + b)
  {
    forall x, y | 0 <= x < y < |a + b| ensures Precedes((a + b)[x], (a + b)[y]) {
      if x < |a| <= y { assert a[x] in a && b[y - |a|] in b; }
    }
  }

  lemma {:induction false} LineInOrder(line: string, i: nat, j: nat)
    ensures InFileOrder(BracesOfLine(line, i, j))
    decreases |line| - j
  {
    if j < |line| {
      if IsQuote(line[j]) {
        LineInOrder(line, i, StringEnd(line, j + 1, line[j]) + 1);
      } else if !CommentAt(line, j) {
        LineInOrder(line, i, j + 1);
        BracesOfLineAreThere(line, i, j + 1);
        OrderConcat(if line[j] == '{' then [Brace(i, j, true)] else if line[j] == '}' then [Brace(i, j, false)] else [],
                    BracesOfLine(line, i, j + 1));
      }
    }
  }

  lemma {:induction false} BracesInOrder(lines: seq<string>, i: nat)
    requires i <= |lines|
    ensures InFileOrder(BracesFrom(lines, i))
    decreases |lines| - i
  {
    hide BracesOfLine;
    if i < |lines| {
      LineInOrder(lines[i], i, 0);
      BracesInOrder(lines, i + 1);
      BracesOfLineAreThere(lines[i], i, 0);
      BracesAreThere(lines, i + 1);
      OrderConcat(BracesOfLine(lines[i], i, 0), BracesFrom(lines, i + 1));
    }
  }

  // ---------------------------------------------------------------- main results

  function Newlines(s: string): nat {
    if s == "" then 0 else (if s[0] == '\n' then 1 else 0) + Newlines(s[1..])
  }

  lemma {:induction false} NewlinesAdd(s: string, t: string)
    ensures Newlines(s + t) == Newlines(s) + Newlines(t)
  {
    if s == "" {
      assert s + t == t;
    } else {
      assert (s + t)[1..] == s[1..] + t;
      NewlinesAdd(s[1..], t);
    }
  }

  lemma {:induction false} NoNewlines(s: string)
    requires Lacks(s, '\n')
    ensures Newlines(s) == 0
  {
    if s != "" { NoNewlines(s[1..]); }
  }

  lemma {:induction false} NewlinesOfJoin(parts: seq<string>)
    requires parts != [] && AllLack(parts, '\n')
    ensures Newlines(Join(parts, '\n')) == |parts| - 1
  {
    hide Newlines;
    assert Lacks(parts[0], '\n');
    NoNewlines(parts[0]);
    if |parts| > 1 {
      NewlinesOfJoin(parts[1..]);
      NewlinesAdd(parts[0] + "\n", Join(parts[1..], '\n'));
      NewlinesAdd(parts[0], "\n");
      OneNewline();
    }
  }

  lemma OneNewline()
    ensures Newlines("\n") == 1
  {
    assert "\n"[1..] == "";
    assert Newlines("") == 0;
  }

  lemma BetweenNewlines(lines: seq<string>, a: Brace, b: Brace)
    requires AllLack(lines, '\n') && Precedes(a, b) && b.line < |lines| && a.col < |lines[a.line]| && b.col < |lines[b.line]|
    ensures Newlines(Between(lines, a, b)) == b.line - a.line
  {
    hide Newlines;
    assert Lacks(lines[a.line], '\n') && Lacks(lines[b.line], '\n');
    if a.line == b.line {
      BetweenOnOneLine(lines, a, b);
      NoNewlines(lines[a.line][a.col + 1..b.col]);
    } else {
      BetweenIsJoin(lines, a, b);
      var parts := [lines[a.line][a.col + 1..]] + lines[a.line + 1..b.line] + [lines[b.line][..b.col]];
      NewlinesOfJoin(parts);
    }
  }

  /** If the first brace opens, and stands on the start line, the body is exactly the text between
      it and its match, and null exactly if it has none. If it stands on a later line and has a
      match, the text returned is never that text. */
  lemma ExtractedIsBetweenMatchingBraces(lines: seq<string>, start: nat)
    requires start <= |lines| && AllLack(lines, '\n')
    requires BracesFrom(lines, start) != [] && BracesFrom(lines, start)[0].open
    ensures var bs := BracesFrom(lines, start);
      && (forall b :: b in bs ==> start <= b.line < |lines|)
      && (Extracted(lines, start).None? <==> forall m: nat :: !IsMatch(bs, m))
      && (forall m: nat :: IsMatch(bs, m) ==>
            (Extracted(lines, start) == Some(Between(lines, bs[0], bs[m])) <==> bs[0].line == start))
  {
    hide BracesFrom, Join, Between, Search, Newlines, Depth;
    var bs := BracesFrom(lines, start);
    SearchFindsTheMatch(bs);
    BracesAreThere(lines, start);
    BracesInOrder(lines, start);
    SearchFindsGiven(bs, 0, None);
    forall m: nat | IsMatch(bs, m)
      ensures Extracted(lines, start) == Some(Between(lines, bs[0], bs[m])) <==> bs[0].line == start
    {
      var n: nat :| IsMatch(bs, n) && Search(bs, 0, None) == Found(bs[0], bs[n]);
      MatchIsUnique(bs, m, n);
      MatchInside(bs, m);
      BodyIsBetween(lines, start, bs[0], bs[m]);
    }
  }

  lemma MatchInside(bs: seq<Brace>, m: nat)
    requires IsMatch(bs, m)
    ensures 0 < m < |bs|
  {
  }

  lemma BodyIsBetween(lines: seq<string>, start: nat, a: Brace, b: Brace)
    requires AllLack(lines, '\n') && start <= a.line && Precedes(a, b) && b.line < |lines|
    requires a.col < |lines[a.line]| && b.col < |lines[b.line]|
    ensures BodyText(lines, start, Found(a, b)) == Some(Between(lines, a, b)) <==> a.line == start
  {
    hide Newlines;
    if a.line == start {
      if b.line == start {
        BetweenOnOneLine(lines, a, b);
      } else {
        BetweenIsJoin(lines, a, b);
        assert Slice(lines[start], a.col + 1, |lines[start]|) == lines[start][a.col + 1..];
        assert Slice(lines[b.line], 0, b.col) == lines[b.line][..b.col];
      }
    } else {
      var parts := [Slice(lines[start], a.col + 1, |lines[start]|)] + lines[start + 1..b.line] + [Slice(lines[b.line], 0, b.col)];
      assert Lacks(lines[start], '\n') && Lacks(lines[b.line], '\n');
      NewlinesOfJoin(parts);
      BetweenNewlines(lines, a, b);
    }
  }

  lemma {:induction false} SearchEndsAtZero(bs: seq<Brace>, d: int, first: Option<Brace>) returns (e: nat)
    ensures Search(bs, d, first).Found? ==> e < |bs| && bs[e] == Search(bs, d, first).last && d + Depth(bs, e + 1) == 0
    decreases |bs|
  {
    e := 0;
    if bs != [] {
      assert bs == [bs[0]] + bs[1..];
      DepthCons(bs[0], bs[1..], 0);
      var inner := SearchEndsAtZero(bs[1..], if bs[0].open then d + 1 else d - 1,
                                    if bs[0].open && first.None? then Some(bs[0]) else first);
      if Search(bs, d, first).Found? && !(!bs[0].open && first.Some? && d == 1) {
        DepthCons(bs[0], bs[1..], inner + 1);
        e := inner + 1;
      }
    }
  }

  lemma {:induction false} DepthSplit(bs: seq<Brace>, f: nat, n: nat)
    requires f + n <= |bs|
    ensures Depth(bs, f + n) == Depth(bs, f) + Depth(bs[f..], n)
  {
    if n > 0 { DepthSplit(bs, f, n - 1); }
  }

  lemma {:induction false} ClosersOnly(bs: seq<Brace>, f: nat)
    requires f <= |bs| && forall k :: 0 <= k < f ==> !bs[k].open
    ensures Depth(bs, f) + f == 0
  {
    if f > 0 { ClosersOnly(bs, f - 1); }
  }
}
