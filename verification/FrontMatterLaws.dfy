/**
  What scripts/normalize-doc-frontmatter.ts does to a file, line by line: which lines it reads as hints,
  when it rewrites the file at all, which lines it keeps, and that no hint is lost.
 */
module FrontMatterLaws {
  import opened Text
  import opened HintText
  import opened HintLaws
  import opened FrontMatter
  import opened FrontMatterFile

  // ---------------------------------------------------------------- lines

  predicate IsOneOfTheThree(field: string) {
    field == "use_when" || field == "read_when" || field == "topic_hint"
  }

  lemma WordsEnd(word: string, rest: string)
    requires (forall k :: 0 <= k < |word| ==> IsWord(word[k])) && (rest != "" ==> !IsWord(rest[0]))
    ensures WordLen(word + rest) == |word|
  {
    if rest == "" {
      assert word + rest == word;
      AllWords(word);
    } else {
      WordsThen(word, rest);
    }
  }

  lemma {:induction false} AllWords(word: string)
    requires forall k :: 0 <= k < |word| ==> IsWord(word[k])
    ensures WordLen(word) == |word|
  {
    if word != "" { AllWords(word[1..]); }
  }

  /** A line of blanks, one of the three names, a colon, and a value is a hint heading, */
  lemma HeadingLineIsRead(indent: string, field: string, tail: string)
    requires AllSpace(indent) && IsOneOfTheThree(field) && SingleLine(Trim(tail))
    ensures HeadingOf(indent + field + ":" + tail) == Heading(indent, field, Trim(tail))
  {
    FieldIsWords(field);
    assert !IsWord(':') && IsHintField(field);
    hide HeadingOf, Trim, SingleLine, WordLen, LeadLen, IsWord, IsSpace, IsHintField, IsOneOfTheThree;
    Slices(indent, field, tail);
    LeadThen(indent, field + (":" + tail));
    WordsEnd(field, ":" + tail);
    ReadsAsHeading(indent + field + ":" + tail, indent, field, tail);
  }

  lemma Slices(indent: string, field: string, tail: string)
    requires field != ""
    ensures var line, i, w := indent + field + ":" + tail, |indent|, |field|;
      && line == indent + (field + (":" + tail)) && line[i..] == field + (":" + tail) && line[i + w] == ':'
      && line[..i] == indent && line[i..i + w] == field && line[i + w + 1..] == tail
  {
  }

  lemma ReadsAsHeading(line: string, indent: string, field: string, tail: string)
    requires LeadLen(line) == |indent| && |indent| + |field| < |line| && field != "" && IsHintField(field)
    requires WordLen(line[|indent|..]) == |field| && line[|indent| + |field|] == ':' && SingleLine(Trim(tail))
    requires line[..|indent|] == indent && line[|indent|..|indent| + |field|] == field && line[|indent| + |field| + 1..] == tail
    ensures HeadingOf(line) == Heading(indent, field, Trim(tail))
  {
    hide Trim, SingleLine, WordLen, LeadLen, IsWord, IsSpace, IsHintField;
  }

  /** and no other line is. */
  lemma HeadingsAreSuchLines(line: string) returns (tail: string)
    requires HeadingOf(line).Heading?
    ensures var h := HeadingOf(line);
      && line == h.indent + h.field + ":" + tail && AllSpace(h.indent) && IsOneOfTheThree(h.field)
      && h.raw == Trim(tail) && SingleLine(h.raw)
  {
    hide Trim, SingleLine, WordLen, LeadLen, IsWord, IsSpace;
    var i := LeadLen(line);
    var w := WordLen(line[i..]);
    tail := line[i + w + 1..];
    assert line == line[..i] + line[i..i + w] + ":" + tail;
  }

  /** A list item is more blanks than the heading has, a dash, and a value. */
  lemma ItemLineIsRead(indent: string, more: string, tail: string)
    requires AllSpace(indent) && AllSpace(more) && more != "" && SingleLine(Trim(tail))
    ensures var line := indent + more + "-" + tail;
      IsItem(line, indent) && ItemValue(line) == Unquote(Trim(tail))
  {
    assert !IsSpace('-');
    hide Trim, SingleLine, LeadLen, IsSpace, Unquote;
    var line := indent + more + "-" + tail;
    assert line == (indent + more) + ("-" + tail);
    LeadThen(indent + more, "-" + tail);
    assert line[|indent + more| + 1..] == tail;
    assert line[..|indent|] == indent;
  }

  lemma ItemsAreSuchLines(line: string, indent: string) returns (more: string, tail: string)
    requires IsItem(line, indent)
    ensures line == indent + more + "-" + tail && AllSpace(indent) && AllSpace(more) && more != "" && SingleLine(Trim(tail))
  {
    hide Trim, SingleLine, LeadLen, IsSpace;
    var i := LeadLen(line);
    more, tail := line[|indent|..i], line[i + 1..];
    assert line[..|indent|] == indent;
    assert line == indent + more + "-" + tail;
    forall k | 0 <= k < |indent| ensures IsSpace(indent[k]) {
      assert indent[k] == line[k];
    }
  }

  // ---------------------------------------------------------------- which lines are kept

  /** Line k is a hint, or an item of the list under one, counting from line `from`. */
  predicate Consumed(lines: seq<string>, from: nat, k: nat) {
    exists h :: from <= h <= k && Covers(lines, h, k)
  }

  predicate Covers(lines: seq<string>, h: nat, k: nat) {
    h <= k < |lines| && IsHint(lines, h)
    && (k == h || (HeadingOf(lines[h]).raw == "" && forall j :: h < j <= k ==> IsItem(lines[j], HeadingOf(lines[h]).indent)))
  }

  /** The lines from i on that are neither. */
  function OtherLines(lines: seq<string>, from: nat, i: nat): seq<string>
    requires i <= |lines|
    decreases |lines| - i
  {
    if i == |lines| then [] else (if Consumed(lines, from, i) then [] else [lines[i]]) + OtherLines(lines, from, i + 1)
  }

  lemma {:induction false} OtherLinesAgree(lines: seq<string>, a: nat, b: nat, i: nat)
    requires i <= |lines| && forall k :: i <= k < |lines| ==> (Consumed(lines, a, k) <==> Consumed(lines, b, k))
    ensures OtherLines(lines, a, i) == OtherLines(lines, b, i)
    decreases |lines| - i
  {
    hide Consumed;
    if i < |lines| { OtherLinesAgree(lines, a, b, i + 1); }
  }

  lemma {:induction false} OtherLinesSkip(lines: seq<string>, from: nat, i: nat, n: nat)
    requires i + n <= |lines| && forall k :: i <= k < i + n ==> Consumed(lines, from, k)
    ensures OtherLines(lines, from, i) == OtherLines(lines, from, i + n)
    decreases n
  {
    hide Consumed;
    if n > 0 { OtherLinesSkip(lines, from, i + 1, n - 1); }
  }

  /** A hint covers exactly the lines it consumes. */
  lemma HintCovers(lines: seq<string>, i: nat, k: nat)
    requires i < |lines|
    ensures Covers(lines, i, k) <==> HintAt(lines, i).Hint? && i <= k < i + HintAt(lines, i).consumed
  {
    hide HeadingOf, IsItem, ItemsAt, ItemValues, ParseHintValue;
    HintAtIsHint(lines, i);
    var h := HeadingOf(lines[i]);
    if h.Heading? {
      ItemsAtAreItems(lines, i + 1, h.indent);
    }
  }

  lemma ItemsCoverNothing(lines: seq<string>, i: nat, h: nat, k: nat)
    requires i < h && Covers(lines, i, h)
    ensures !Covers(lines, h, k)
  {
    hide HeadingOf, IsItem;
    if IsHint(lines, h) { ItemIsNoHeading(lines[h], HeadingOf(lines[i]).indent); }
  }

  /** Behind a hint its own lines no longer matter. */
  lemma ConsumedBehind(lines: seq<string>, i: nat, next: nat, k: nat)
    requires i < next <= k < |lines| && forall j :: i <= j < next ==> (j == i || Covers(lines, i, j))
    requires !Covers(lines, i, k)
    ensures Consumed(lines, i, k) <==> Consumed(lines, next, k)
  {
    hide Covers;
    if Consumed(lines, i, k) {
      var h :| i <= h <= k && Covers(lines, h, k);
      if h < next { ItemsCoverNothing(lines, i, h, k); }
    }
  }

  /** What a scan from line i consumes itself, and what it leaves to the scan of the rest. */
  lemma ConsumedByScan(lines: seq<string>, i: nat, next: nat)
    requires i < |lines| && next == if HintAt(lines, i).Hint? then i + HintAt(lines, i).consumed else i + 1
    ensures forall k :: next <= k < |lines| ==> (Consumed(lines, i, k) <==> Consumed(lines, next, k))
    ensures forall k :: i <= k < next ==> (Consumed(lines, i, k) <==> HintAt(lines, i).Hint?)
  {
    hide HintAt, Covers, Consumed;
    forall k: nat ensures Covers(lines, i, k) <==> HintAt(lines, i).Hint? && i <= k < next {
      HintCovers(lines, i, k);
    }
    forall k | next <= k < |lines| ensures Consumed(lines, i, k) <==> Consumed(lines, next, k) {
      ConsumedBehind(lines, i, next, k);
    }
    forall k | i <= k < next ensures Consumed(lines, i, k) <==> HintAt(lines, i).Hint? {
      if HintAt(lines, i).Hint? { FirstCovers(lines, i, k); } else { NoneCovers(lines, i); }
    }
  }

  /** The scan keeps exactly the other lines, in order. */
  lemma {:induction false} KeptLinesExactly(lines: seq<string>, i: nat)
    requires i <= |lines|
    ensures ScanFrom(lines, i).kept == OtherLines(lines, i, i)
    decreases |lines| - i
  {
    hide HintAt, Consumed;
    if i < |lines| {
      var next := if HintAt(lines, i).Hint? then i + HintAt(lines, i).consumed else i + 1;
      KeptLinesExactly(lines, next);
      ConsumedByScan(lines, i, next);
      OtherLinesAgree(lines, i, next, next);
      if HintAt(lines, i).Hint? { OtherLinesSkip(lines, i, i, next - i); }
    }
  }

  lemma FirstCovers(lines: seq<string>, i: nat, k: nat)
    requires Covers(lines, i, k)
    ensures Consumed(lines, i, k)
  {
  }

  lemma NoneCovers(lines: seq<string>, i: nat)
    requires !Covers(lines, i, i)
    ensures !Consumed(lines, i, i)
  {
  }

  /** The merged field goes where the first hint was. */
  lemma {:induction false} InsertedAtFirstHint(lines: seq<string>, i: nat, first: nat)
    requires i <= first < |lines| && HintAt(lines, first).Hint? && forall k :: i <= k < first ==> HintAt(lines, k).NoHint?
    ensures ScanFrom(lines, i).insertAt == first - i && ScanFrom(lines, i).kept[..first - i] == lines[i..first]
    decreases first - i
  {
    hide HintAt;
    if i < first { InsertedAtFirstHint(lines, i + 1, first); }
  }

  // ---------------------------------------------------------------- which hints are found

  /** The values read are those of all hint lines, each in its place. */
  lemma {:induction false} ValuesOfAllHints(lines: seq<string>, i: nat, j: nat)
    requires i <= j < |lines| && HintAt(lines, j).Hint?
    requires forall k :: i <= k < j ==> !Covers(lines, k, j)
    ensures HintAt(lines, j).values in ScanFrom(lines, i).values
    decreases j - i
  {
    hide HintAt, Covers;
    if i < j {
      HintCovers(lines, i, j);
      ValuesOfAllHints(lines, if HintAt(lines, i).Hint? then i + HintAt(lines, i).consumed else i + 1, j);
    }
  }

  lemma HintsAreNotCovered(lines: seq<string>, j: nat)
    requires j < |lines| && HintAt(lines, j).Hint?
    ensures forall k :: 0 <= k < j ==> !Covers(lines, k, j)
  {
    hide HintAt, Covers;
    HintCovers(lines, j, j);
    forall k | 0 <= k < j ensures !Covers(lines, k, j) {
      if Covers(lines, k, j) { ItemsCoverNothing(lines, k, j, j); }
    }
  }

  /** Everything a hint line of the file offers is among the merged hints, up to case. */
  lemma FoundHintsAreMerged(lines: seq<string>, j: nat, hint: string)
    requires j < |lines| && HintAt(lines, j).Hint? && OneOffers(HintAt(lines, j).values, hint)
    ensures Seen(HintsOf(ScanFrom(lines, 0)), Lower(hint))
  {
    hide HintAt, Covers, ScanFrom, OneOffers, Seen, Dedup, AllHints, Lower;
    HintsAreNotCovered(lines, j);
    ValuesOfAllHints(lines, 0, j);
    var values := ScanFrom(lines, 0).values;
    var i :| 0 <= i < |values| && values[i] == HintAt(lines, j).values;
    MergingKeepsHints(values);
  }

  // ---------------------------------------------------------------- whole files

  /** The lines between the fences; none in a file without front matter. */
  function YamlLines(content: string): seq<string> {
    match SplitFrontMatter(content)
    case NoParts => []
    case Parts(yaml, _, _) => SplitOn(yaml, '\n')
  }

  /** Some line is a hint of this field. */
  predicate HasHint(lines: seq<string>, field: string) {
    exists j :: 0 <= j < |lines| && IsHint(lines, j) && HeadingOf(lines[j]).field == field
  }

  function Target(rules: bool): string {
    if rules then "read_when" else "topic_hint"
  }

  lemma FoundFields(lines: seq<string>, field: string)
    ensures field in ScanFrom(lines, 0).fields <==> HasHint(lines, field)
    ensures HasHint(lines, field) ==> IsOneOfTheThree(field)
  {
    hide ScanFrom, HeadingOf;
    ScanFindsAllHints(lines, 0, field);
  }

  /** A file is rewritten if and only if it has front matter, a hint of another field than the one its
      place calls for, and a hint of use_when or read_when. */
  lemma ChangesExactly(content: string, rules: bool)
    ensures Normalize(content, rules).Changed? <==>
      (SplitFrontMatter(content).Parts?
       && (exists field :: HasHint(YamlLines(content), field) && field != Target(rules))
       && (HasHint(YamlLines(content), "use_when") || HasHint(YamlLines(content), "read_when")))
  {
    hide SplitFrontMatter, HasHint, ScanFrom;
    if SplitFrontMatter(content).Parts? {
      var lines := YamlLines(content);
      var fields := ScanFrom(lines, 0).fields;
      forall field ensures field in fields <==> HasHint(lines, field) {
        FoundFields(lines, field);
      }
      if Drifts(fields, Target(rules)) {
        var field :| field in fields && field != Target(rules);
        RewritingChanges(content, rules, field);
      }
    }
  }

  lemma StripStops(a: seq<string>, b: seq<string>)
    requires a != [] && a[|a| - 1] != ""
    ensures a <= StripEmpty(a + b) && StripEmpty(a + b) <= a + b
  {
    var r := StripEmpty(a + b);
    assert (a + b)[|a| - 1] == a[|a| - 1];
    assert |r| >= |a|;
    assert r == (a + b)[..|r|];
    assert a == (a + b)[..|a|];
    assert a == r[..|a|];
  }

  /** The old lines up to the first hint, the merged field, and then the old lines that are not hints. */
  function Rewritten(lines: seq<string>, first: nat, target: string, hints: seq<string>): seq<string>
    requires first <= |lines|
  {
    lines[..first] + (if hints == [] then [] else [target + ":"] + Bulleted(hints)) + OtherLines(lines, 0, first)
  }

  predicate IsFirstHint(lines: seq<string>, first: nat) {
    first < |lines| && HintAt(lines, first).Hint? && forall k :: 0 <= k < first ==> HintAt(lines, k).NoHint?
  }

  lemma {:induction false} OthersBeforeFirst(lines: seq<string>, i: nat, first: nat)
    requires i <= first && IsFirstHint(lines, first)
    ensures OtherLines(lines, 0, i) == lines[i..first] + OtherLines(lines, 0, first)
    decreases first - i
  {
    hide HintAt, Covers;
    if i < first {
      OthersBeforeFirst(lines, i + 1, first);
      forall h | 0 <= h <= i ensures !Covers(lines, h, i) { HintCovers(lines, h, i); }
    }
  }

  /** What a scan makes of the lines. */
  lemma MergedIsRewritten(lines: seq<string>, first: nat, target: string)
    requires IsFirstHint(lines, first)
    ensures var s := ScanFrom(lines, 0); s.insertAt == first && Merged(s, target) == Rewritten(lines, first, target, HintsOf(s))
  {
    hide ScanFrom, HintAt, HintsOf, OtherLines;
    KeptLinesExactly(lines, 0);
    InsertedAtFirstHint(lines, 0, first);
    OthersBeforeFirst(lines, 0, first);
    BulletsAre(HintsOf(ScanFrom(lines, 0)));
    assert lines[0..first] == lines[..first];
  }

  lemma {:induction false} LastIsNotEmpty(lines: seq<string>)
    ensures StripEmpty(lines) != [] ==> StripEmpty(lines)[|StripEmpty(lines)| - 1] != ""
  {
    if lines != [] { LastIsNotEmpty(lines[..|lines| - 1]); }
  }

  /** The hints the new file lists. */
  function MergedHints(content: string): seq<string> {
    HintsOf(ScanFrom(YamlLines(content), 0))
  }

  lemma ChangedHasParts(content: string, rules: bool)
    requires Normalize(content, rules).Changed?
    ensures SplitFrontMatter(content).Parts? && YamlLines(content) == SplitOn(SplitFrontMatter(content).yaml, '\n')
  {
    hide SplitFrontMatter, ScanFrom, SplitOn;
  }

  /** The lines of a rewritten file. Only empty lines at the end may be missing. */
  lemma NewLines(content: string, rules: bool, first: nat)
    requires Normalize(content, rules).Changed? && IsFirstHint(YamlLines(content), first)
    ensures var all := StripEmpty(Rewritten(YamlLines(content), first, Target(rules), MergedHints(content)));
      YamlLines(Normalize(content, rules).content) == (if all == [] then [""] else all) && (all != [] ==> all[|all| - 1] != "")
  {
    LastIsNotEmpty(Rewritten(YamlLines(content), first, Target(rules), MergedHints(content)));
    ChangedHasParts(content, rules);
    hide Normalize, SplitFrontMatter, ScanFrom, HintsOf, StripEmpty, SplitOn, IsFirstHint, Merged, Rewritten;
    SecondPassReads(content, rules);
    MergedIsRewritten(YamlLines(content), first, Target(rules));
    assert TargetField(rules) == Target(rules);
  }

  function Bulleted(hints: seq<string>): seq<string> {
    if hints == [] then [] else ["  - " + JsonQuote(hints[0])] + Bulleted(hints[1..])
  }

  lemma {:induction false} BulletsAre(hints: seq<string>)
    ensures Bullets(hints) == Bulleted(hints)
  {
    hide JsonQuote;
    if hints != [] {
      BulletsAre(hints[1..]);
      forall k | 0 <= k < |hints| ensures Bullets(hints)[k] == Bulleted(hints)[k] {
        if k > 0 { assert Bullets(hints)[k] == Bullets(hints[1..])[k - 1]; }
      }
    }
  }

  lemma SomeHintIsFirst(lines: seq<string>, j: nat) returns (first: nat)
    requires j < |lines| && HintAt(lines, j).Hint?
    ensures first <= j && IsFirstHint(lines, first)
    decreases j
  {
    hide HintAt;
    if k :| 0 <= k < j && HintAt(lines, k).Hint? {
      first := SomeHintIsFirst(lines, k);
    } else {
      first := j;
    }
  }

  /** No hint gets lost: whatever a hint line of the old file offers, inline or as a list item, is offered
      by the merged field of the new file, up to case, if it needs no escapes. */
  lemma HintsSurvive(content: string, rules: bool, j: nat, hint: string)
    requires Normalize(content, rules).Changed?
    requires j < |YamlLines(content)| && HintAt(YamlLines(content), j).Hint?
    requires OneOffers(HintAt(YamlLines(content), j).values, hint) && NeedsNoEscape(hint)
    ensures HoldsHint(YamlLines(Normalize(content, rules).content), Target(rules), hint)
  {
    hide Normalize, YamlLines, HintAt, IsFirstHint, OtherLines, OneOffers, NeedsNoEscape, Seen, Lower, StripEmpty, HoldsHint, ScanFrom, HintsOf;
    var lines, hints := YamlLines(content), MergedHints(content);
    var first := SomeHintIsFirst(lines, j);
    assert first < |lines|;
    NewLines(content, rules, first);
    FoundHintsAreMerged(lines, j, hint);
    HintsSingleLine(lines);
    SeenIsSome(hints, Lower(hint));
    NewFieldHolds(lines[..first], Target(rules), hints, OtherLines(lines, 0, first), hint);
  }

  lemma SeenIsSome(hints: seq<string>, key: string)
    ensures Seen(hints, key) ==> hints != []
  {
  }

  /** A hint of the field has a value that is the hint up to case. */
  ghost predicate HoldsHint(lines: seq<string>, field: string, hint: string) {
    exists p :: 0 <= p < |lines| && HintAt(lines, p).Hint? && HintAt(lines, p).field == field
      && Seen(HintAt(lines, p).values, Lower(hint))
  }

  lemma NewFieldHolds(before: seq<string>, target: string, hints: seq<string>, after: seq<string>, hint: string)
    requires IsOneOfTheThree(target) && hints != [] && AllSingleLine(hints) && Seen(hints, Lower(hint)) && NeedsNoEscape(hint)
    ensures var all := before + ([target + ":"] + Bulleted(hints)) + after;
      StripEmpty(all) != [] && HoldsHint(StripEmpty(all), target, hint)
  {
    hide HintAt, StripEmpty, JsonQuote, NeedsNoEscape, Lower, SingleLine;
    var field := [target + ":"] + Bulleted(hints);
    var lines := StripEmpty(before + field + after);
    BulletedLines(hints);
    assert (before + field)[|before + field| - 1] == Bulleted(hints)[|hints| - 1];
    BulletNotEmpty(hints[|hints| - 1]);
    StripStops(before + field, after);
    var p := |before|;
    var k :| 0 <= k < |hints| && Lower(hints[k]) == Lower(hint);
    assert lines[p] == target + ":";
    forall m | 0 <= m < |hints| ensures lines[p + 1 + m] == "  - " + JsonQuote(hints[m]) {
      assert (before + field)[p + 1 + m] == Bulleted(hints)[m];
    }
    FieldReadsBullets(lines, p, target, hints, k);
    SameEscapes(hint, hints[k]);
    BulletIsItem(hints[k]);
    UnquoteInvertsJsonQuote(hints[k]);
  }

  lemma BulletNotEmpty(hint: string)
    ensures "  - " + JsonQuote(hint) != ""
  {
  }

  lemma {:induction false} BulletedLines(hints: seq<string>)
    ensures |Bulleted(hints)| == |hints| && forall m :: 0 <= m < |hints| ==> Bulleted(hints)[m] == "  - " + JsonQuote(hints[m])
  {
    hide JsonQuote;
    if hints != [] { BulletedLines(hints[1..]); }
  }

  /** Letter case has nothing to do with escapes. */
  lemma SameEscapes(a: string, b: string)
    requires Lower(a) == Lower(b) && NeedsNoEscape(a)
    ensures NeedsNoEscape(b)
  {
    forall k | 0 <= k < |b| ensures b[k] != '"' && b[k] != '\\' && b[k] >= ' ' {
      assert Lower(b)[k] == Lower(a)[k];
    }
  }

  /** The heading is followed by its bullets, so it reads at least them. */
  lemma FieldReadsBullets(lines: seq<string>, p: nat, target: string, hints: seq<string>, k: nat)
    requires p + |hints| < |lines| && lines[p] == target + ":" && IsOneOfTheThree(target)
    requires k < |hints| && AllSingleLine(hints) && forall m :: 0 <= m < |hints| ==> lines[p + 1 + m] == "  - " + JsonQuote(hints[m])
    ensures HintAt(lines, p).Hint? && HintAt(lines, p).field == target
    ensures ItemValue("  - " + JsonQuote(hints[k])) in HintAt(lines, p).values
  {
    hide HeadingOf, IsItem, ItemValue, JsonQuote, SingleLine, ItemsAt;
    SerializedHeading(target);
    ItemsAtAreItems(lines, p + 1, "");
    var n := ItemsAt(lines, p + 1, "");
    if n < |hints| {
      BulletIsItem(hints[n]);
      assert false;
    }
    var items := lines[p + 1..p + 1 + n];
    assert ItemValues(items)[k] == ItemValue(lines[p + 1 + k]);
  }
}
