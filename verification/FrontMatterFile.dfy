/**
  normalizeFile on whole files: fences, lines, and the result of normalising twice.
 */
module FrontMatterFile {
  import opened Text
  import opened HintText
  import opened FrontMatter

  const OPEN_FENCE := "---\n"
  const FENCE := "\n---"

  predicate OccursAt(s: string, pat: string, i: nat) {
    i + |pat| <= |s| && forall k :: 0 <= k < |pat| ==> s[i + k] == pat[k]
  }

  /** String.indexOf */
  function IndexOf(s: string, pat: string, from: nat): (r: int)
    ensures r == -1 || (from <= r && OccursAt(s, pat, r))
    ensures forall i: nat :: from <= i && (r == -1 || i < r) ==> !OccursAt(s, pat, i)
    decreases |s| - from
  {
    if from + |pat| > |s| then -1 else if OccursAt(s, pat, from) then from else IndexOf(s, pat, from + 1)
  }

  datatype Parts = NoParts | Parts(yaml: string, close: string, body: string)

  /** splitFrontMatter */
  function SplitFrontMatter(content: string): Parts {
    if !(OPEN_FENCE <= content) then NoParts
    else
      var end := IndexOf(content, FENCE, 4);
      if end == -1 then NoParts
      else
        var closeEnd := IndexOf(content, "\n", end + 4);
        if closeEnd == -1 then NoParts
        else Parts(content[4..end], content[end + 1..closeEnd + 1], content[closeEnd + 1..])
  }

  function Assemble(yaml: string, close: string, body: string): string {
    OPEN_FENCE + yaml + "\n" + close + body
  }

  predicate IsClose(close: string) {
    |close| >= 4 && close[..3] == "---" && close[|close| - 1] == '\n' && Lacks(close[..|close| - 1], '\n')
  }

  ghost predicate NoFence(yaml: string) {
    forall i: nat :: !OccursAt(yaml, FENCE, i)
  }

  /** The parts put together again are the file; the yaml holds no further fence. */
  lemma SplitReassembles(content: string)
    requires SplitFrontMatter(content).Parts?
    ensures var p := SplitFrontMatter(content);
      Assemble(p.yaml, p.close, p.body) == content && IsClose(p.close) && NoFence(p.yaml)
  {
    hide IndexOf, OccursAt, NoFence, IsClose, Assemble;
    var end := IndexOf(content, FENCE, 4);
    var closeEnd := IndexOf(content, "\n", end + 4);
    PiecesOfFile(content, end, closeEnd);
    CloseOfFile(content, end, closeEnd);
    FenceChars(content, end);
    YamlOfFile(content, end);
  }

  lemma PiecesOfFile(content: string, end: nat, closeEnd: nat)
    requires OPEN_FENCE <= content && 4 <= end && OccursAt(content, FENCE, end)
    requires end + 4 <= closeEnd && OccursAt(content, "\n", closeEnd)
    ensures content == Assemble(content[4..end], content[end + 1..closeEnd + 1], content[closeEnd + 1..])
  {
    FenceChars(content, end);
  }

  lemma CloseOfFile(content: string, end: nat, closeEnd: nat)
    requires OccursAt(content, FENCE, end) && end + 4 <= closeEnd && OccursAt(content, "\n", closeEnd)
    requires forall i: nat :: end + 4 <= i < closeEnd ==> !OccursAt(content, "\n", i)
    ensures IsClose(content[end + 1..closeEnd + 1])
  {
    hide OccursAt;
    FenceChars(content, end);
    NewlineChar(content, closeEnd);
    var close := content[end + 1..closeEnd + 1];
    forall i | 0 <= i < |close| - 1 ensures close[i] != '\n' {
      if i >= 3 { NewlineChar(content, end + 1 + i); }
    }
  }

  lemma YamlOfFile(content: string, end: nat)
    requires 4 <= end <= |content| && forall i: nat :: 4 <= i < end ==> !OccursAt(content, FENCE, i)
    ensures NoFence(content[4..end])
  {
    hide OccursAt;
    var yaml := content[4..end];
    forall i: nat ensures !OccursAt(yaml, FENCE, i) {
      FenceChars(yaml, i);
      FenceChars(content, 4 + i);
    }
  }

  lemma FenceChars(s: string, i: nat)
    ensures OccursAt(s, FENCE, i) <==>
      i + 4 <= |s| && s[i] == '\n' && s[i + 1] == '-' && s[i + 2] == '-' && s[i + 3] == '-'
  {
    if OccursAt(s, FENCE, i) {
      assert s[i + 0] == FENCE[0] && s[i + 1] == FENCE[1] && s[i + 2] == FENCE[2] && s[i + 3] == FENCE[3];
    }
  }

  lemma NewlineChar(s: string, i: nat)
    ensures OccursAt(s, "\n", i) <==> i < |s| && s[i] == '\n'
  {
    if OccursAt(s, "\n", i) { assert s[i + 0] == "\n"[0]; }
  }

  /** And splitting the assembled file gives the same parts back. */
  lemma SplitInvertsAssemble(yaml: string, close: string, body: string)
    requires IsClose(close) && NoFence(yaml)
    ensures SplitFrontMatter(Assemble(yaml, close, body)) == Parts(yaml, close, body)
  {
    hide IndexOf, OccursAt;
    var content := Assemble(yaml, close, body);
    var end, closeEnd := 4 + |yaml|, 4 + |yaml| + |close|;
    assert content[end] == '\n';
    assert forall k :: 0 <= k < |close| ==> content[end + 1 + k] == close[k];
    FenceChars(content, end);
    assert close[..3][0] == '-' && close[..3][1] == '-' && close[..3][2] == '-';
    forall i: nat | 4 <= i < end ensures !OccursAt(content, FENCE, i) {
      NoFenceBefore(yaml, close, body, i - 4);
    }
    assert IndexOf(content, FENCE, 4) == end;
    NewlineChar(content, closeEnd);
    forall i: nat | end + 4 <= i < closeEnd ensures !OccursAt(content, "\n", i) {
      NewlineChar(content, i);
      assert content[i] == close[..|close| - 1][i - end - 1];
    }
    assert IndexOf(content, "\n", end + 4) == closeEnd;
    assert content[4..end] == yaml && content[end + 1..closeEnd + 1] == close && content[closeEnd + 1..] == body;
  }

  lemma NoFenceBefore(yaml: string, close: string, body: string, i: nat)
    requires NoFence(yaml) && i < |yaml|
    ensures !OccursAt(Assemble(yaml, close, body), FENCE, 4 + i)
  {
    hide OccursAt;
    var content := Assemble(yaml, close, body);
    FenceChars(content, 4 + i);
    FenceChars(yaml, i);
    assert forall k :: 0 <= k < |yaml| ==> content[4 + k] == yaml[k];
    assert content[4 + |yaml|] == '\n';
  }

  // ---------------------------------------------------------------- the normaliser

  function StripNewlines(s: string): string {
    if s != [] && s[|s| - 1] == '\n' then StripNewlines(s[..|s| - 1]) else s
  }

  datatype Result = Unchanged | Changed(content: string)

  function NewYaml(s: Scan, target: string): string
    requires 0 <= s.insertAt <= |s.kept|
  {
    StripNewlines(Join(Merged(s, target), '\n'))
  }

  function Normalize(content: string, rules: bool): Result {
    match SplitFrontMatter(content)
    case NoParts => Unchanged
    case Parts(yaml, close, body) =>
      var s := ScanFrom(SplitOn(yaml, '\n'), 0);
      if !Drifts(s.fields, TargetField(rules)) then Unchanged
      else
        var next := Assemble(NewYaml(s, TargetField(rules)), close, body);
        if next == content then Unchanged else Changed(next)
  }

  /** normalizeFile */
  method NormalizeFile(content: string, rules: bool) returns (r: Result)
    ensures r == Normalize(content, rules)
  {
    hide HintAt, Drifts, StripNewlines, SplitOn, Join, SplitFrontMatter, Assemble, Dedup, AllHints, Serialize, Then;
    var parts := SplitFrontMatter(content);
    if parts.NoParts? {
      return Unchanged;
    }
    var lines := SplitOn(parts.yaml, '\n');
    var targetField := if rules then "read_when" else "topic_hint";
    var keptLines: seq<string> := [];
    var removedFields: set<string> := {};
    var hintValues: seq<seq<string>> := [];
    var insertAt := -1;
    var i := 0;
    ghost var all := ScanFrom(lines, 0);
    ThenNothing(all);
    while i < |lines|
      invariant 0 <= i <= |lines|
      invariant all == Then(Scan(keptLines, removedFields, hintValues, insertAt), ScanFrom(lines, i))
      invariant -1 <= insertAt <= |keptLines|
    {
      ghost var before, rest := Scan(keptLines, removedFields, hintValues, insertAt), ScanFrom(lines, i);
      var parsed := ParseHintFieldAt(lines, i);
      if parsed.NoHint? {
        ThenKeep(before, ScanFrom(lines, i + 1), lines[i]);
        keptLines := keptLines + [lines[i]];
        i := i + 1;
      } else {
        ThenRemove(before, ScanFrom(lines, i + parsed.consumed), parsed.field, parsed.values);
        if insertAt == -1 {
          insertAt := |keptLines|;
        }
        removedFields := removedFields + {parsed.field};
        hintValues := hintValues + [parsed.values];
        i := i + parsed.consumed;
      }
    }
    ThenNothing(Scan(keptLines, removedFields, hintValues, insertAt));
    if !Drifts(removedFields, targetField) {
      return Unchanged;
    }
    assert insertAt >= 0 by { DriftsNeedsAField(removedFields, targetField); }
    var hints := MergeHints(hintValues);
    var nextLines := Insert(keptLines, insertAt, Serialize(targetField, hints));
    var next := Assemble(StripNewlines(Join(nextLines, '\n')), parts.close, parts.body);
    if next == content {
      return Unchanged;
    }
    r := Changed(next);
  }

  lemma DriftsNeedsAField(fields: set<string>, target: string)
    requires Drifts(fields, target)
    ensures fields != {}
  {
  }

  /** The loop's state, continued by a scan of the rest. */
  function Then(a: Scan, b: Scan): Scan {
    Scan(a.kept + b.kept, a.fields + b.fields, a.values + b.values,
         if a.insertAt != -1 then a.insertAt else if b.insertAt == -1 then -1 else |a.kept| + b.insertAt)
  }

  lemma ThenKeep(a: Scan, b: Scan, line: string)
    requires -1 <= a.insertAt && -1 <= b.insertAt
    ensures Then(a, Scan([line] + b.kept, b.fields, b.values, if b.insertAt == -1 then -1 else b.insertAt + 1))
         == Then(a.(kept := a.kept + [line]), b)
  {
    assert a.kept + ([line] + b.kept) == a.kept + [line] + b.kept;
  }

  lemma ThenRemove(a: Scan, b: Scan, field: string, values: seq<string>)
    requires -1 <= a.insertAt
    ensures Then(a, Scan(b.kept, {field} + b.fields, [values] + b.values, 0))
         == Then(Scan(a.kept, a.fields + {field}, a.values + [values], if a.insertAt == -1 then |a.kept| else a.insertAt), b)
  {
    assert a.fields + ({field} + b.fields) == a.fields + {field} + b.fields;
    assert a.values + ([values] + b.values) == a.values + [values] + b.values;
  }

  lemma ThenNothing(a: Scan)
    requires -1 <= a.insertAt
    ensures Then(a, Scan([], {}, [], -1)) == a && Then(Scan([], {}, [], -1), a) == a
  {
    assert a.kept + [] == [] + a.kept == a.kept && a.values + [] == [] + a.values == a.values;
    assert a.fields + {} == {} + a.fields == a.fields;
  }

  // ---------------------------------------------------------------- lines and fences

  lemma {:induction false} JoinLast(lines: seq<string>, line: string)
    requires lines != []
    ensures Join(lines + [line], '\n') == Join(lines, '\n') + "\n" + line
  {
    var all := lines + [line];
    if |lines| == 1 {
      assert all[1..] == [line];
    } else {
      assert all[1..] == lines[1..] + [line];
      JoinLast(lines[1..], line);
      assert lines[0] + ['\n'] + (Join(lines[1..], '\n') + "\n" + line) == Join(lines, '\n') + "\n" + line;
    }
  }

  /** Stripping trailing newlines from the text is dropping trailing empty lines. */
  lemma {:induction false} StripJoin(lines: seq<string>)
    requires AllLack(lines, '\n')
    ensures StripNewlines(Join(lines, '\n')) == Join(StripEmpty(lines), '\n')
  {
    if lines != [] {
      var most, last := lines[..|lines| - 1], lines[|lines| - 1];
      assert lines == most + [last];
      assert Lacks(last, '\n');
      if most == [] {
        if last == "" {
          assert StripEmpty(lines) == StripEmpty([]) == [];
        } else {
          assert StripEmpty(lines) == lines;
        }
        assert Join(lines, '\n') == last;
      } else {
        JoinLast(most, last);
        var text := Join(lines, '\n');
        if last == "" {
          assert text[..|text| - 1] == Join(most, '\n');
          StripJoin(most);
        } else {
          assert Lacks(last, '\n');
          assert text[|text| - 1] == last[|last| - 1];
        }
      }
    }
  }

  predicate NoFenceLines(lines: seq<string>) {
    forall k :: 1 <= k < |lines| ==> !("---" <= lines[k])
  }

  lemma JoinStarts(lines: seq<string>)
    requires lines != [] && AllLack(lines, '\n')
    ensures "---" <= Join(lines, '\n') <==> "---" <= lines[0]
  {
    if |lines| > 1 {
      var text := Join(lines, '\n');
      assert forall k :: 0 <= k < |lines[0]| ==> text[k] == lines[0][k];
      assert text[|lines[0]|] == '\n';
    }
  }

  /** A text has a fence exactly if one of its lines but the first starts like one. */
  lemma {:induction false} FencesAreLines(lines: seq<string>)
    requires lines != [] && AllLack(lines, '\n')
    ensures NoFence(Join(lines, '\n')) <==> NoFenceLines(lines)
  {
    hide Join;
    assert Lacks(lines[0], '\n');
    if |lines| == 1 {
      assert lines == [lines[0]];
      JoinOne(lines[0]);
      forall i: nat ensures !OccursAt(lines[0], FENCE, i) {
        FenceChars(lines[0], i);
      }
    } else {
      var rest := lines[1..];
      FencesAreLines(rest);
      JoinStarts(rest);
      JoinTwo(lines);
      FenceAfterLine(lines[0], Join(rest, '\n'));
      assert NoFenceLines(lines) <==> !("---" <= lines[1]) && NoFenceLines(rest) by {
        NoFenceLinesTail(lines);
      }
    }
  }

  lemma JoinOne(line: string)
    ensures Join([line], '\n') == line
  {
  }

  lemma JoinTwo(lines: seq<string>)
    requires |lines| > 1
    ensures Join(lines, '\n') == lines[0] + "\n" + Join(lines[1..], '\n')
  {
  }

  lemma NoFenceLinesTail(lines: seq<string>)
    requires |lines| > 1
    ensures NoFenceLines(lines) <==> !("---" <= lines[1]) && NoFenceLines(lines[1..])
  {
    if !("---" <= lines[1]) && NoFenceLines(lines[1..]) {
      forall k | 1 <= k < |lines| ensures !("---" <= lines[k]) {
        if k > 1 { assert lines[1..][k - 1] == lines[k]; }
      }
    }
  }

  lemma FenceAfterLine(line: string, rest: string)
    requires Lacks(line, '\n')
    ensures NoFence(line + "\n" + rest) <==> !("---" <= rest) && NoFence(rest)
  {
    hide OccursAt;
    var s := line + "\n" + rest;
    var n := |line| + 1;
    assert forall k :: 0 <= k < |rest| ==> s[n + k] == rest[k];
    FenceChars(s, |line|);
    assert OccursAt(s, FENCE, |line|) <==> "---" <= rest;
    forall i: nat ensures OccursAt(s, FENCE, n + i) <==> OccursAt(rest, FENCE, i) {
      FenceChars(s, n + i);
      FenceChars(rest, i);
    }
    forall i: nat | i < |line| ensures !OccursAt(s, FENCE, i) {
      FenceChars(s, i);
      assert s[i] == line[i];
    }
    if !("---" <= rest) && NoFence(rest) {
      forall i: nat ensures !OccursAt(s, FENCE, i) {
        if i >= n { assert OccursAt(s, FENCE, n + (i - n)) <==> OccursAt(rest, FENCE, i - n); }
      }
    }
  }

  // ---------------------------------------------------------------- normalising twice

  /** Kept lines come from the file in order: only the first can be the file's first line. */
  lemma {:induction false} KeptNoFence(lines: seq<string>, i: nat)
    requires i <= |lines| && NoFenceLines(lines)
    ensures var s := ScanFrom(lines, i);
      && NoFenceLines(s.kept)
      && (s.kept != [] && (i > 0 || s.insertAt == 0) ==> !("---" <= s.kept[0]))
    decreases |lines| - i
  {
    hide HintAt;
    if i < |lines| {
      var h := HintAt(lines, i);
      if h.Hint? {
        KeptNoFence(lines, i + h.consumed);
      } else {
        KeptNoFence(lines, i + 1);
        NoFenceCons(lines[i], ScanFrom(lines, i + 1).kept);
      }
    }
  }

  lemma NoFenceCons(line: string, rest: seq<string>)
    requires NoFenceLines(rest) && (rest != [] ==> !("---" <= rest[0]))
    ensures NoFenceLines([line] + rest)
  {
  }

  lemma {:induction false} KeptLack(lines: seq<string>, i: nat)
    requires i <= |lines| && AllLack(lines, '\n')
    ensures AllLack(ScanFrom(lines, i).kept, '\n')
    decreases |lines| - i
  {
    hide HintAt, Lacks;
    if i < |lines| {
      var h := HintAt(lines, i);
      KeptLack(lines, if h.Hint? then i + h.consumed else i + 1);
    }
  }

  lemma SerializedIsPlain(target: string, hints: seq<string>, k: nat)
    requires IsHintField(target) && AllSingleLine(hints) && k < |Serialize(target, hints)|
    ensures Lacks(Serialize(target, hints)[k], '\n') && !("---" <= Serialize(target, hints)[k])
  {
    hide Lacks, SingleLine, JsonQuote, IsHintField, Serialize;
    SerializeAt(target, hints, k);
    if k == 0 {
      HeaderIsPlain(target);
    } else {
      BulletIsPlain(hints[k - 1]);
    }
  }

  lemma SerializeAt(target: string, hints: seq<string>, k: nat)
    requires k < |Serialize(target, hints)|
    ensures k <= |hints| && Serialize(target, hints)[k] == if k == 0 then target + ":" else "  - " + JsonQuote(hints[k - 1])
  {
    hide JsonQuote;
  }

  lemma HeaderIsPlain(target: string)
    requires IsHintField(target)
    ensures Lacks(target + ":", '\n') && !("---" <= target + ":")
  {
    assert (target + ":")[0] == target[0];
  }

  lemma BulletIsPlain(hint: string)
    requires SingleLine(hint)
    ensures Lacks("  - " + JsonQuote(hint), '\n') && !("---" <= "  - " + JsonQuote(hint))
  {
    EscapeIsSingleLine(hint);
    assert ("  - " + JsonQuote(hint))[0] == ' ';
  }

  lemma MergedIsPlain(lines: seq<string>, target: string)
    requires NoFenceLines(lines) && AllLack(lines, '\n') && IsHintField(target) && ScanFrom(lines, 0).insertAt >= 0
    ensures var m := Merged(ScanFrom(lines, 0), target);
      AllLack(m, '\n') && NoFenceLines(m)
  {
    hide ScanFrom, HintsOf, Serialize, Lacks;
    var s := ScanFrom(lines, 0);
    var m, ins := Merged(s, target), Serialize(target, HintsOf(s));
    KeptNoFence(lines, 0);
    KeptLack(lines, 0);
    HintsSingleLine(lines);
    forall i | 0 <= i < |m| ensures Lacks(m[i], '\n') && (i > 0 ==> !("---" <= m[i])) {
      MergedLines(s, target, i);
      if s.insertAt <= i < s.insertAt + |ins| { SerializedIsPlain(target, HintsOf(s), i - s.insertAt); }
    }
  }

  /** The lines a second pass reads are the merged lines without trailing empty ones. */
  lemma SecondPassReads(content: string, rules: bool)
    requires Normalize(content, rules).Changed?
    ensures var p, target := SplitFrontMatter(content), TargetField(rules);
      var s := ScanFrom(SplitOn(p.yaml, '\n'), 0);
      var again := SplitFrontMatter(Normalize(content, rules).content);
      && again.Parts? && again.close == p.close && again.body == p.body && s.insertAt >= 0
      && SplitOn(again.yaml, '\n') == (if StripEmpty(Merged(s, target)) == [] then [""] else StripEmpty(Merged(s, target)))
  {
    hide ScanFrom, StripEmpty, Merged, StripNewlines, SplitOn, Join, SplitFrontMatter, Assemble, IsClose, NoFence;
    var p, target := SplitFrontMatter(content), TargetField(rules);
    var lines := SplitOn(p.yaml, '\n');
    var s := ScanFrom(lines, 0);
    DriftsNeedsAField(s.fields, target);
    var m := Merged(s, target);
    var kept := StripEmpty(m);
    SplitReassembles(content);
    JoinInvertsSplitOn(p.yaml, '\n');
    FencesAreLines(lines);
    MergedIsPlain(lines, target);
    StripJoin(m);
    StripIsPlain(m);
    var shown := if kept == [] then [""] else kept;
    JoinNothing();
    assert Join(shown, '\n') == Join(kept, '\n') == NewYaml(s, target);
    FencesAreLines(shown);
    SplitInvertsAssemble(NewYaml(s, target), p.close, p.body);
    SplitOnInvertsJoin(shown, '\n');
  }

  lemma JoinNothing()
    ensures Join([], '\n') == Join([""], '\n') == ""
  {
  }

  lemma StripIsPlain(m: seq<string>)
    requires AllLack(m, '\n') && NoFenceLines(m)
    ensures AllLack(StripEmpty(m), '\n') && NoFenceLines(StripEmpty(m))
  {
    var r := StripEmpty(m);
    assert forall k :: 0 <= k < |r| ==> r[k] == m[k];
  }

  /** What the second pass over a rewritten file finds, in terms of the first. */
  ghost predicate DriftsAgain(s: Scan, target: string) {
    && (exists f :: IsHintField(f) && f != target && FoundAgain(s, target, f))
    && (FoundAgain(s, target, "use_when") || FoundAgain(s, target, "read_when"))
  }

  /** Exactly when normalising a rewritten file changes it once more: when the first pass left a
      heading of another field directly above a list, in a file that then still holds use_when or
      read_when. */
  lemma SecondPassExactly(content: string, rules: bool)
    requires Normalize(content, rules).Changed?
    ensures var s := ScanFrom(SplitOn(SplitFrontMatter(content).yaml, '\n'), 0);
      Normalize(Normalize(content, rules).content, rules).Changed? <==> DriftsAgain(s, TargetField(rules))
  {
    hide ScanFrom, StripEmpty, Merged, StripNewlines, SplitOn, Join, SplitFrontMatter, Assemble, FoundAgain;
    var target := TargetField(rules);
    var lines := SplitOn(SplitFrontMatter(content).yaml, '\n');
    var s, next := ScanFrom(lines, 0), Normalize(content, rules).content;
    SecondPassReads(content, rules);
    var again := SplitOn(SplitFrontMatter(next).yaml, '\n');
    var fields := ScanFrom(again, 0).fields;
    forall f ensures f in fields <==> FoundAgain(s, target, f) {
      SecondPassFinds(lines, target, f);
      StripKeepsHints(Merged(s, target), f);
      EmptyHasNoHints(f);
    }
    forall f | f in fields ensures IsHintField(f) { ScanFindsAllHints(again, 0, f); }
    if Drifts(fields, target) {
      var f :| f in fields && f != target;
      RewritingChanges(next, rules, f);
    }
  }

  lemma EmptyHasNoHints(field: string)
    ensures field !in ScanFrom([""], 0).fields && field !in ScanFrom([], 0).fields
  {
    EmptyLine();
    ScanFindsAllHints([""], 0, field);
    ScanFindsAllHints([], 0, field);
  }

  /** A file whose fields drift is really rewritten to a different text. */
  lemma RewritingChanges(content: string, rules: bool, field: string)
    requires SplitFrontMatter(content).Parts?
    requires var fields := ScanFrom(SplitOn(SplitFrontMatter(content).yaml, '\n'), 0).fields;
      Drifts(fields, TargetField(rules)) && field in fields && field != TargetField(rules)
    ensures Normalize(content, rules).Changed?
  {
    hide ScanFrom, StripEmpty, Merged, StripNewlines, SplitOn, Join, SplitFrontMatter, Assemble, Headings, IsClose, NoFence;
    var p, target := SplitFrontMatter(content), TargetField(rules);
    var lines := SplitOn(p.yaml, '\n');
    var s := ScanFrom(lines, 0);
    DriftsNeedsAField(s.fields, target);
    if Normalize(content, rules).Unchanged? {
      SplitReassembles(content);
      JoinInvertsSplitOn(p.yaml, '\n');
      FencesAreLines(lines);
      MergedIsPlain(lines, target);
      var m := Merged(s, target);
      StripJoin(m);
      StripIsPlain(m);
      AssembleIsInjective(NewYaml(s, target), p.yaml, p.close, p.body);
      var shown := if StripEmpty(m) == [] then [""] else StripEmpty(m);
      JoinNothing();
      SplitOnInvertsJoin(shown, '\n');
      MergedDiffers(lines, target, field);
      StripKeepsHeadings(m, field);
      EmptyHasNoHeadings(field);
      assert false;
    }
  }

  lemma EmptyHasNoHeadings(field: string)
    ensures Headings([""], 0, field) == Headings([], 0, field) == 0
  {
    EmptyLine();
    assert Headings([""], 1, field) == 0;
  }

  lemma AssembleIsInjective(a: string, b: string, close: string, body: string)
    requires Assemble(a, close, body) == Assemble(b, close, body)
    ensures a == b
  {
    assert |a| == |b|;
    assert Assemble(a, close, body)[4..4 + |a|] == a && Assemble(b, close, body)[4..4 + |b|] == b;
  }

  /** Normalisation is idempotent on every file in which no list item comes directly after a hint
      field: a second run reports no change. */
  lemma NormalizeIsIdempotent(content: string, rules: bool)
    requires SplitFrontMatter(content).Parts? ==> NoItemAfterHint(SplitOn(SplitFrontMatter(content).yaml, '\n'))
    ensures var r := Normalize(content, rules);
      r.Changed? ==> Normalize(r.content, rules).Unchanged?
  {
    hide ScanFrom, SplitOn, SplitFrontMatter, Adopts, TakesList;
    if Normalize(content, rules).Changed? {
      var lines := SplitOn(SplitFrontMatter(content).yaml, '\n');
      SecondPassExactly(content, rules);
      NothingAdopted(lines, 0);
      NoneAdopted(ScanFrom(lines, 0));
    }
  }

  lemma NoneAdopted(s: Scan)
    requires forall p: nat :: !TakesList(s.kept, p)
    ensures forall at: int, inserted: bool, field: string :: !SomeAdopt(s.kept, at, inserted, field)
  {
  }

  // ---------------------------------------------------------------- a file that is changed twice

  lemma InlineHeading(field: string, value: string)
    requires IsHintField(field) && value != "" && !IsSpace(value[0]) && !IsSpace(value[|value| - 1]) && SingleLine(value)
    ensures HeadingOf(field + ": " + value) == Heading("", field, value)
  {
    TrimAfterSpace(value);
    hide HeadingOf, Trim, SingleLine, IsHintField, IsSpace;
    assert field + ": " + value == field + (": " + value) && (": " + value)[1..] == " " + value;
    HeadingOfField(field, ": " + value);
  }

  lemma TrimAfterSpace(value: string)
    requires value != "" && !IsSpace(value[0]) && !IsSpace(value[|value| - 1])
    ensures Trim(" " + value) == value
  {
    assert (" " + value)[1..] == value;
    assert LeadLen(value) == 0;
  }

  const TWICE := ["topic_hint: a", "use_when:", "read_when: c", "  - " + JsonQuote("b")]

  lemma TwiceLines()
    ensures HeadingOf(TWICE[0]) == Heading("", "topic_hint", "a") && HeadingOf(TWICE[1]) == Heading("", "use_when", "")
    ensures HeadingOf(TWICE[2]) == Heading("", "read_when", "c") && !IsItem(TWICE[2], "")
    ensures HeadingOf(TWICE[3]).NoHeading? && IsItem(TWICE[3], "")
  {
    hide HeadingOf, IsItem, JsonQuote;
    assert TWICE[0] == "topic_hint" + ": " + "a" && TWICE[2] == "read_when" + ": " + "c" && TWICE[1] == "use_when" + ":";
    InlineHeading("topic_hint", "a");
    InlineHeading("read_when", "c");
    SerializedHeading("use_when");
    HeaderIsNoItem(TWICE[2]);
    BulletIsItem("b");
    ItemIsNoHeading(TWICE[3], "");
  }

  lemma TwiceIsPlain()
    ensures AllLack(TWICE, '\n') && NoFenceLines(TWICE)
  {
    hide JsonQuote;
    BulletIsPlain("b");
    HeaderIsPlain("use_when");
    assert TWICE[1] == "use_when" + ":";
    assert TWICE[2][0] == 'r';
  }

  /** use_when has no value, so the first pass keeps it; removing read_when puts it above the list. */
  lemma TwiceScan()
    ensures var s := ScanFrom(TWICE, 0);
      s.kept == [TWICE[1], TWICE[3]] && s.fields == {"topic_hint", "read_when"} && s.insertAt == 0
  {
    hide HeadingOf, IsItem, JsonQuote, ParseHintValue;
    TwiceLines();
    assert ScanFrom(TWICE, 4) == Scan([], {}, [], -1);
    assert ScanFrom(TWICE, 3).kept == [TWICE[3]] && ScanFrom(TWICE, 3).fields == {};
    assert ScanFrom(TWICE, 2).kept == [TWICE[3]] && ScanFrom(TWICE, 2).fields == {"read_when"};
    assert HintAt(TWICE, 1).NoHint?;
    assert ScanFrom(TWICE, 1).kept == [TWICE[1], TWICE[3]] && ScanFrom(TWICE, 1).fields == {"read_when"};
  }

  /** Normalising is not idempotent in general: this file changes in the first and in the second run. */
  lemma NormalizeIsNotAlwaysIdempotent() returns (content: string)
    ensures Normalize(content, false).Changed?
    ensures Normalize(Normalize(content, false).content, false).Changed?
  {
    hide HeadingOf, IsItem, ScanFrom, SplitOn, Join, SplitFrontMatter, Assemble, NoFence, HintsOf;
    TwiceLines();
    TwiceIsPlain();
    TwiceScan();
    var yaml := Join(TWICE, '\n');
    content := Assemble(yaml, "---\n", "");
    var s := ScanFrom(TWICE, 0);
    FencesAreLines(TWICE);
    SplitInvertsAssemble(yaml, "---\n", "");
    SplitOnInvertsJoin(TWICE, '\n');
    RewritingChanges(content, false, "read_when");
    SecondPassExactly(content, false);
    assert s.kept[0] == TWICE[1] && s.kept[1] == TWICE[3];
    assert AdoptsField(s.kept, 0, HintsOf(s) != [], 0, "use_when");
    assert FoundAgain(s, "topic_hint", "use_when");
  }
}
