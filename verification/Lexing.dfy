/**
  Which braces of a line count (src/lib/test-quality-validator.ts): the laws of the per-line lexing, with
  the characters written out. Plain text, literals and comments are all there is on a line, so that the
  laws determine the braces of every line.
 */
module Lexing {
  import opened TestBody

  /** The braces, moved d columns to the right. */
  function Shift(bs: seq<Brace>, d: nat): (r: seq<Brace>)
    ensures |r| == |bs|
  {
    seq(|bs|, k requires 0 <= k < |bs| => Brace(bs[k].line, bs[k].col + d, bs[k].open))
  }

  /** No quotation mark, and no two slashes in a row. */
  predicate Plain(s: string) {
    && (forall k :: 0 <= k < |s| ==> s[k] != '"' && s[k] != '\'' && s[k] != '`')
    && (forall k :: 0 <= k < |s| - 1 ==> !(s[k] == '/' && s[k + 1] == '/'))
  }

  const SLASHES: string := ['/', '/']
  const BACKSLASH: string := ['\\']

  /** The inside of a literal with quotation mark q: every q in it follows a backslash of its own. */
  predicate LiteralBody(s: string, q: char) {
    if s == "" then true
    else if s[0] == '\\' then |s| >= 2 && LiteralBody(s[2..], q)
    else s[0] != q && LiteralBody(s[1..], q)
  }

  predicate QuotationMark(q: char) {
    q == '"' || q == '\'' || q == '`'
  }

  // ---------------------------------------------------------------- what precedes does not matter

  lemma {:induction false} StringEndShifts(pre: string, rest: string, j: nat, q: char)
    ensures StringEnd(pre + rest, |pre| + j, q) == |pre| + StringEnd(rest, j, q)
    decreases |rest| - j
  {
    if j < |rest| {
      assert (pre + rest)[|pre| + j] == rest[j];
      if rest[j] == '\\' {
        StringEndShifts(pre, rest, j + 2, q);
      } else if rest[j] != q {
        StringEndShifts(pre, rest, j + 1, q);
      }
    }
  }

  lemma ShiftCons(b: Brace, rest: seq<Brace>, d: nat)
    ensures Shift([b] + rest, d) == [Brace(b.line, b.col + d, b.open)] + Shift(rest, d)
  {
  }

  /** What one plain character contributes. */
  function OwnBrace(c: char, i: nat, j: nat): seq<Brace> {
    if c == '{' then [Brace(i, j, true)] else if c == '}' then [Brace(i, j, false)] else []
  }

  lemma ShiftOne(c: char, i: nat, j: nat, d: nat, rest: seq<Brace>)
    ensures Shift(OwnBrace(c, i, j) + rest, d) == OwnBrace(c, i, d + j) + Shift(rest, d)
  {
    if c == '{' {
      ShiftCons(Brace(i, j, true), rest, d);
    } else if c == '}' {
      ShiftCons(Brace(i, j, false), rest, d);
    } else {
      assert [] + rest == rest;
    }
  }

  lemma BracesUnfold(line: string, i: nat, j: nat)
    ensures j >= |line| ==> BracesOfLine(line, i, j) == []
    ensures j < |line| && IsQuote(line[j]) ==> BracesOfLine(line, i, j) == BracesOfLine(line, i, StringEnd(line, j + 1, line[j]) + 1)
    ensures j < |line| && !IsQuote(line[j]) && CommentAt(line, j) ==> BracesOfLine(line, i, j) == []
    ensures j < |line| && !IsQuote(line[j]) && !CommentAt(line, j) ==>
      BracesOfLine(line, i, j) == OwnBrace(line[j], i, j) + BracesOfLine(line, i, j + 1)
  {
  }

  lemma CommentShifts(pre: string, rest: string, j: nat)
    requires j < |rest|
    ensures (pre + rest)[|pre| + j] == rest[j] && (CommentAt(pre + rest, |pre| + j) <==> CommentAt(rest, j))
  {
  }

  /** The lexing from a column on sees only what follows. */
  lemma {:induction false} BracesShift(pre: string, rest: string, i: nat, j: nat)
    ensures BracesOfLine(pre + rest, i, |pre| + j) == Shift(BracesOfLine(rest, i, j), |pre|)
    decreases |rest| - j
  {
    hide BracesOfLine, StringEnd, CommentAt, IsQuote, OwnBrace;
    BracesUnfold(pre + rest, i, |pre| + j);
    BracesUnfold(rest, i, j);
    if j < |rest| {
      var c := rest[j];
      CommentShifts(pre, rest, j);
      if IsQuote(c) {
        StringEndShifts(pre, rest, j + 1, c);
        BracesShift(pre, rest, i, StringEnd(rest, j + 1, c) + 1);
      } else if !CommentAt(rest, j) {
        BracesShift(pre, rest, i, j + 1);
        ShiftOne(c, i, j, |pre|, BracesOfLine(rest, i, j + 1));
      }
    }
  }

  lemma {:induction false} ShiftTwice(bs: seq<Brace>, d: nat, e: nat)
    ensures Shift(Shift(bs, d), e) == Shift(bs, d + e)
  {
  }

  // ---------------------------------------------------------------- plain text

  /** The lexing of plain text and then something else: all its braces, and the other's. */
  lemma {:induction false} PlainThen(pre: string, rest: string, i: nat)
    requires Plain(pre)
    requires pre != "" && rest != "" ==> !(pre[|pre| - 1] == '/' && rest[0] == '/')
    ensures BracesOfLine(pre + rest, i, 0) == BracesOfLine(pre, i, 0) + Shift(BracesOfLine(rest, i, 0), |pre|)
    decreases |pre|
  {
    hide BracesOfLine, CommentAt, IsQuote, OwnBrace;
    var line := pre + rest;
    if pre == "" {
      assert line == rest && |pre| + 0 == 0;
      BracesUnfold("", i, 0);
      BracesShift("", rest, i, 0);
    } else {
      var c, tail := pre[0], pre[1..];
      SlashesApart(pre, rest);
      PlainThen(tail, rest, i);
      assert line == [c] + (tail + rest) && pre == [c] + tail;
      BracesShift([c], tail + rest, i, 0);
      BracesShift([c], tail, i, 0);
      ShiftConcat(BracesOfLine(tail, i, 0), Shift(BracesOfLine(rest, i, 0), |tail|), 1);
      ShiftTwice(BracesOfLine(rest, i, 0), |tail|, 1);
      BracesUnfold(line, i, 0);
      BracesUnfold(pre, i, 0);
      var own, a, b := OwnBrace(c, i, 0), Shift(BracesOfLine(tail, i, 0), 1), Shift(BracesOfLine(rest, i, 0), |pre|);
      assert own + (a + b) == own + a + b;
    }
  }

  lemma SlashesApart(pre: string, rest: string)
    requires Plain(pre) && pre != ""
    requires rest != "" ==> !(pre[|pre| - 1] == '/' && rest[0] == '/')
    ensures !CommentAt(pre, 0) && !CommentAt(pre + rest, 0) && !IsQuote(pre[0])
    ensures Plain(pre[1..])
  {
    if |pre| > 1 { assert (pre + rest)[1] == pre[1]; } else if rest != "" { assert (pre + rest)[1] == rest[0]; }
  }

  lemma FirstCharacter(line: string, i: nat)
    requires line != "" && !IsQuote(line[0]) && !CommentAt(line, 0)
    ensures BracesOfLine(line, i, 0) == OwnBrace(line[0], i, 0) + BracesOfLine(line, i, 1)
  {
  }

  lemma ShiftConcat(a: seq<Brace>, b: seq<Brace>, d: nat)
    ensures Shift(a + b, d) == Shift(a, d) + Shift(b, d)
  {
  }

  /** In plain text exactly every brace counts. */
  lemma {:induction false} PlainTextCountsAll(s: string, i: nat, col: nat, open: bool)
    requires Plain(s)
    ensures Brace(i, col, open) in BracesOfLine(s, i, 0) <==> col < |s| && s[col] == (if open then '{' else '}')
    decreases |s|
  {
    if s != "" {
      hide BracesOfLine;
      var tail := s[1..];
      SlashesApart(s, "");
      FirstCharacter(s, i);
      assert s == [s[0]] + tail;
      BracesShift([s[0]], tail, i, 0);
      BracesOfLineAreThere(tail, i, 0);
      if col > 0 { PlainTextCountsAll(tail, i, col - 1, open); }
      ShiftMembers(BracesOfLine(tail, i, 0), Brace(i, col, open));
      assert Brace(i, col, open) in OwnBrace(s[0], i, 0) <==> col == 0 && s[0] == if open then '{' else '}';
    } else {
      assert BracesOfLine(s, i, 0) == [];
    }
  }

  lemma ShiftMembers(bs: seq<Brace>, b: Brace)
    ensures b in Shift(bs, 1) <==> b.col > 0 && Brace(b.line, b.col - 1, b.open) in bs
  {
    if b.col > 0 && Brace(b.line, b.col - 1, b.open) in bs {
      var k :| 0 <= k < |bs| && bs[k] == Brace(b.line, b.col - 1, b.open);
      assert Shift(bs, 1)[k] == b;
    }
  }

  // ---------------------------------------------------------------- literals

  lemma {:induction false} BodyEnds(s: string, q: char, post: string)
    requires LiteralBody(s, q) && q != '\\'
    ensures StringEnd(s + [q] + post, 0, q) == |s| && StringEnd(s, 0, q) >= |s|
    ensures StringEnd(s + BACKSLASH, 0, q) >= |s| + 1
    decreases |s|
  {
    if s != "" {
      var n := if s[0] == '\\' then 2 else 1;
      BodyEnds(s[n..], q, post);
      assert s == s[..n] + s[n..];
      assert s + [q] + post == s[..n] + (s[n..] + [q] + post) && s + BACKSLASH == s[..n] + (s[n..] + BACKSLASH);
      StringEndShifts(s[..n], s[n..] + [q] + post, 0, q);
      StringEndShifts(s[..n], s[n..], 0, q);
      StringEndShifts(s[..n], s[n..] + BACKSLASH, 0, q);
    }
  }

  /** A literal hides everything in it; the lexing goes on behind it. */
  lemma LiteralIsSkipped(q: char, s: string, post: string, i: nat)
    requires QuotationMark(q) && LiteralBody(s, q)
    ensures BracesOfLine([q] + s + [q] + post, i, 0) == Shift(BracesOfLine(post, i, 0), |s| + 2)
  {
    hide BracesOfLine, StringEnd;
    var inner := s + [q] + post;
    var line := [q] + s + [q] + post;
    assert line == [q] + inner;
    BodyEnds(s, q, post);
    StringEndShifts([q], inner, 0, q);
    QuoteStep(line, i);
    var head := [q] + s + [q];
    assert line == head + post;
    BracesShift(head, post, i, 0);
  }

  lemma QuoteStep(line: string, i: nat)
    requires line != "" && QuotationMark(line[0])
    ensures BracesOfLine(line, i, 0) == BracesOfLine(line, i, StringEnd(line, 1, line[0]) + 1)
  {
  }

  /** A literal that is not closed hides the rest of its line; it may end in a backslash. */
  lemma UnclosedLiteralHidesTheRest(q: char, s: string, i: nat)
    requires QuotationMark(q) && LiteralBody(s, q)
    ensures BracesOfLine([q] + s, i, 0) == [] && BracesOfLine([q] + s + BACKSLASH, i, 0) == []
  {
    BodyEnds(s, q, "");
    StringEndShifts([q], s, 0, q);
    StringEndShifts([q], s + BACKSLASH, 0, q);
    assert [q] + s + BACKSLASH == [q] + (s + BACKSLASH);
    QuoteStep([q] + s, i);
    QuoteStep([q] + s + BACKSLASH, i);
  }

  /** The law of literals on a line: the braces of what stands before, and of what stands behind. */
  lemma LiteralsHideBraces(pre: string, q: char, s: string, post: string, i: nat)
    requires Plain(pre) && QuotationMark(q) && LiteralBody(s, q)
    ensures var bs := BracesOfLine(pre + [q] + s + [q] + post, i, 0);
      && bs == BracesOfLine(pre, i, 0) + Shift(BracesOfLine(post, i, 0), |pre| + |s| + 2)
      && forall b :: b in bs ==> b.col < |pre| || b.col >= |pre| + |s| + 2
    ensures BracesOfLine(pre + [q] + s, i, 0) == BracesOfLine(pre, i, 0)
  {
    hide BracesOfLine, LiteralBody;
    var literal := [q] + s + [q] + post;
    assert pre + [q] + s + [q] + post == pre + literal && pre + [q] + s == pre + ([q] + s);
    PlainThen(pre, literal, i);
    PlainThen(pre, [q] + s, i);
    LiteralIsSkipped(q, s, post, i);
    UnclosedLiteralHidesTheRest(q, s, i);
    ShiftTwice(BracesOfLine(post, i, 0), |s| + 2, |pre|);
    BracesOfLineAreThere(pre, i, 0);
    assert BracesOfLine(pre, i, 0) + [] == BracesOfLine(pre, i, 0);
  }

  // ---------------------------------------------------------------- comments

  /** Behind two slashes outside a literal nothing counts. */
  lemma CommentsHideBraces(pre: string, post: string, i: nat)
    requires Plain(pre) && (pre != "" ==> pre[|pre| - 1] != '/')
    ensures BracesOfLine(pre + SLASHES + post, i, 0) == BracesOfLine(pre, i, 0)
  {
    var comment := SLASHES + post;
    assert pre + SLASHES + post == pre + comment;
    if pre == "" {
      assert pre + comment == comment;
      assert CommentAt(comment, 0);
    } else {
      CommentAfter(pre, comment, i);
    }
  }

  lemma {:induction false} CommentAfter(pre: string, comment: string, i: nat)
    requires Plain(pre) && (pre != "" ==> pre[|pre| - 1] != '/') && SLASHES <= comment
    ensures BracesOfLine(pre + comment, i, 0) == BracesOfLine(pre, i, 0)
  {
    PlainThen(pre, comment, i);
    assert CommentAt(comment, 0) && BracesOfLine(comment, i, 0) == [];
    assert BracesOfLine(pre, i, 0) + [] == BracesOfLine(pre, i, 0);
  }
}
