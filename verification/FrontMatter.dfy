/**
  The front-matter normaliser of scripts/normalize-doc-frontmatter.ts on the lines between the two
  fences: it collects the hint fields, merges them into one, and leaves every other line alone.
 */
module FrontMatter {
  import opened Text
  import opened HintText

  predicate IsHintField(field: string) {
    field == "use_when" || field == "read_when" || field == "topic_hint"
  }

  /** A line `field: raw` whose field is one of the three hint fields. */
  datatype Heading = NoHeading | Heading(indent: string, field: string, raw: string)

  function HeadingOf(line: string): (h: Heading)
    ensures h.Heading? ==> IsHintField(h.field)
  {
    var i := LeadLen(line);
    var w := WordLen(line[i..]);
    if w > 0 && i + w < |line| && line[i + w] == ':' && IsHintField(line[i..i + w]) && SingleLine(Trim(line[i + w + 1..]))
    then Heading(line[..i], line[i..i + w], Trim(line[i + w + 1..]))
    else NoHeading
  }

  /** A list item indented deeper than `indent`. */
  predicate IsItem(line: string, indent: string) {
    var i := LeadLen(line);
    |indent| < i < |line| && indent <= line && line[i] == '-' && SingleLine(Trim(line[i + 1..]))
  }

  function ItemValue(line: string): string {
    if LeadLen(line) < |line| then Unquote(Trim(line[LeadLen(line) + 1..])) else ""
  }

  lemma ItemIsNoHeading(line: string, indent: string)
    requires IsItem(line, indent)
    ensures HeadingOf(line).NoHeading?
  {
    hide LeadLen, WordLen, Trim, SingleLine;
    var i := LeadLen(line);
    var w := WordLen(line[i..]);
    if w > 0 && i + w < |line| { assert line[i..i + w][0] == '-'; }
  }

  // ---------------------------------------------------------------- one field

  /** How many items of a list indented deeper than `indent` start at line `i`. */
  function ItemsAt(lines: seq<string>, i: nat, indent: string): (n: nat)
    requires i <= |lines|
    ensures i + n <= |lines|
    decreases |lines| - i
  {
    if i < |lines| && IsItem(lines[i], indent) then 1 + ItemsAt(lines, i + 1, indent) else 0
  }

  /** They are all items, and the line after them is none. */
  lemma {:induction false} ItemsAtAreItems(lines: seq<string>, i: nat, indent: string)
    requires i <= |lines|
    ensures var n := ItemsAt(lines, i, indent);
      && (forall j :: i <= j < i + n ==> IsItem(lines[j], indent))
      && (i + n < |lines| ==> !IsItem(lines[i + n], indent))
    decreases |lines| - i
  {
    hide IsItem;
    if i < |lines| && IsItem(lines[i], indent) { ItemsAtAreItems(lines, i + 1, indent); }
  }

  function ItemValues(lines: seq<string>): seq<string> {
    seq(|lines|, i requires 0 <= i < |lines| => ItemValue(lines[i]))
  }

  datatype Hint = NoHint | Hint(field: string, values: seq<string>, consumed: nat)

  function HintAt(lines: seq<string>, i: nat): (h: Hint)
    requires i < |lines|
    ensures h.Hint? ==> 1 <= h.consumed <= |lines| - i
  {
    match HeadingOf(lines[i])
    case NoHeading => NoHint
    case Heading(indent, field, raw) =>
      var n := ItemsAt(lines, i + 1, indent);
      if raw != "" then Hint(field, ParseHintValue(raw), 1)
      else if n == 0 then NoHint
      else Hint(field, ItemValues(lines[i + 1..i + 1 + n]), 1 + n)
  }

  /** parseHintFieldAt */
  method ParseHintFieldAt(lines: seq<string>, index: nat) returns (h: Hint)
    requires index < |lines|
    ensures h == HintAt(lines, index)
  {
    hide HeadingOf, IsItem, ItemValue, ParseHintValue;
    var heading := HeadingOf(lines[index]);
    if heading.NoHeading? {
      return NoHint;
    }
    if heading.raw != "" {
      return Hint(heading.field, ParseHintValue(heading.raw), 1);
    }
    var values := [];
    var consumed := 1;
    var i := index + 1;
    while i < |lines|
      invariant index + 1 <= i <= |lines| && consumed == i - index
      invariant values == ItemValues(lines[index + 1..i])
      invariant ItemsAt(lines, index + 1, heading.indent) == consumed - 1 + ItemsAt(lines, i, heading.indent)
    {
      if !IsItem(lines[i], heading.indent) {
        break;
      }
      values := values + [ItemValue(lines[i])];
      consumed := consumed + 1;
      i := i + 1;
    }
    if |values| == 0 {
      return NoHint;
    }
    h := Hint(heading.field, values, consumed);
  }

  /** serializeHintField */
  function Serialize(field: string, hints: seq<string>): seq<string> {
    if hints == [] then [] else [field + ":"] + Bullets(hints)
  }

  function Bullets(hints: seq<string>): seq<string> {
    seq(|hints|, i requires 0 <= i < |hints| => "  - " + JsonQuote(hints[i]))
  }

  lemma BulletIsItem(hint: string)
    requires SingleLine(hint)
    ensures IsItem("  - " + JsonQuote(hint), "")
    ensures ItemValue("  - " + JsonQuote(hint)) == Unquote(JsonQuote(hint))
  {
    QuoteIsTight(hint);
    hide JsonQuote, Unquote;
    var q := JsonQuote(hint);
    var line := "  - " + q;
    assert line[1..][0] == ' ' && line[1..][1..] == "- " + q;
    assert LeadLen("- " + q) == 0;
    assert LeadLen(line) == 2;
    assert line[3..] == " " + q;
    assert (" " + q)[1..] == q && LeadLen(q) == 0;
    assert Trim(" " + q) == q by { TrimOfTight(q); }
    TrimOfTight(q);
  }

  lemma QuoteIsTight(hint: string)
    requires SingleLine(hint)
    ensures var q := JsonQuote(hint);
      q != "" && !IsSpace(q[0]) && q[0] != '-' && !IsSpace(q[|q| - 1]) && SingleLine(q)
  {
    EscapeIsSingleLine(hint);
  }

  lemma HeadingOfField(field: string, rest: string)
    requires IsHintField(field) && rest != "" && rest[0] == ':' && SingleLine(Trim(rest[1..]))
    ensures HeadingOf(field + rest) == Heading("", field, Trim(rest[1..]))
  {
    FieldIsWords(field);
    assert !IsWord(':');
    hide Trim, SingleLine, WordLen, LeadLen, IsHintField, IsWord, IsSpace;
    var line := field + rest;
    assert line[0] == field[0] && line[0..] == line;
    NoLead(line);
    WordsThen(field, rest);
    assert line[0..|field|] == field && line[|field| + 1..] == rest[1..];
  }

  lemma SerializedHeading(field: string)
    requires IsHintField(field)
    ensures HeadingOf(field + ":") == Heading("", field, "")
  {
    hide LeadLen, WordLen, TrimEnd, SingleLine;
    assert field[0] == 'u' || field[0] == 'r' || field[0] == 't';
    FieldIsWords(field);
    var line := field + ":";
    NoLead(line);
    assert line[0..] == line;
    WordsThen(field, ":");
    NoLead("");
    assert line[0..|field|] == field && line[|field| + 1..] == "";
  }

  lemma FieldIsWords(field: string)
    requires IsHintField(field)
    ensures field != "" && !IsSpace(field[0]) && forall i :: 0 <= i < |field| ==> IsWord(field[i])
  {
  }

  lemma NoLead(s: string)
    requires s == [] || !IsSpace(s[0])
    ensures LeadLen(s) == 0 && (s == [] ==> Trim(s) == "" && SingleLine(Trim(s)))
  {
  }

  lemma {:induction false} WordsThen(word: string, rest: string)
    requires (forall i :: 0 <= i < |word| ==> IsWord(word[i])) && rest != "" && !IsWord(rest[0])
    ensures WordLen(word + rest) == |word|
  {
    if word == [] {
      assert word + rest == rest;
    } else {
      assert (word + rest)[1..] == word[1..] + rest;
      WordsThen(word[1..], rest);
    }
  }

  /** Parsing the serialised field gives the field back, and its hints when they need no escapes. */
  lemma ParseInvertsSerialize(field: string, hints: seq<string>, rest: seq<string>)
    requires IsHintField(field) && hints != [] && AllSingleLine(hints)
    requires rest != [] ==> !IsItem(rest[0], "")
    ensures var h := HintAt(Serialize(field, hints) + rest, 0);
      && h.Hint? && h.field == field && h.consumed == 1 + |hints|
      && ((forall i :: 0 <= i < |hints| ==> NeedsNoEscape(hints[i])) ==> h.values == hints)
  {
    hide HeadingOf, IsItem, ItemValue, JsonQuote, Unquote, NeedsNoEscape, SingleLine;
    var lines := Serialize(field, hints) + rest;
    SerializedHeading(field);
    assert lines[0] == field + ":";
    forall j | 1 <= j <= |hints| ensures IsItem(lines[j], "") && ItemValue(lines[j]) == Unquote(JsonQuote(hints[j - 1])) {
      assert lines[j] == Bullets(hints)[j - 1];
      BulletIsItem(hints[j - 1]);
    }
    ItemsCounted(lines, 1, "", |hints|);
    if forall i :: 0 <= i < |hints| ==> NeedsNoEscape(hints[i]) {
      var values := ItemValues(lines[1..1 + |hints|]);
      forall i | 0 <= i < |hints| ensures values[i] == hints[i] {
        UnquoteInvertsJsonQuote(hints[i]);
        assert lines[1..1 + |hints|][i] == lines[i + 1];
      }
    }
  }

  lemma {:induction false} ItemsCounted(lines: seq<string>, i: nat, indent: string, n: nat)
    requires i + n <= |lines| && forall j :: i <= j < i + n ==> IsItem(lines[j], indent)
    requires i + n < |lines| ==> !IsItem(lines[i + n], indent)
    ensures ItemsAt(lines, i, indent) == n
    decreases n
  {
    if n > 0 { ItemsCounted(lines, i + 1, indent, n - 1); }
  }

  // ---------------------------------------------------------------- one pass over the lines

  /** What the loop of normalizeFile leaves: the kept lines, the removed fields, their values, and
      where among the kept lines the first removed field stood. */
  datatype Scan = Scan(kept: seq<string>, fields: set<string>, values: seq<seq<string>>, insertAt: int)

  function ScanFrom(lines: seq<string>, i: nat): (s: Scan)
    requires i <= |lines|
    ensures -1 <= s.insertAt <= |s.kept| && (s.fields == {} <==> s.insertAt == -1)
    decreases |lines| - i
  {
    if i == |lines| then Scan([], {}, [], -1)
    else
      match HintAt(lines, i)
      case NoHint =>
        var s := ScanFrom(lines, i + 1);
        Scan([lines[i]] + s.kept, s.fields, s.values, if s.insertAt == -1 then -1 else s.insertAt + 1)
      case Hint(field, values, n) =>
        var s := ScanFrom(lines, i + n);
        Scan(s.kept, {field} + s.fields, [values] + s.values, 0)
  }

  function TargetField(rules: bool): string {
    if rules then "read_when" else "topic_hint"
  }

  /** The two early returns of normalizeFile are not taken. */
  predicate Drifts(fields: set<string>, target: string) {
    (exists f :: f in fields && f != target) && ("use_when" in fields || "read_when" in fields)
  }

  function Insert(kept: seq<string>, at: nat, lines: seq<string>): seq<string>
    requires at <= |kept|
  {
    kept[..at] + lines + kept[at..]
  }

  function HintsOf(s: Scan): seq<string> {
    Dedup(AllHints(s.values))
  }

  function Merged(s: Scan, target: string): seq<string>
    requires s.insertAt >= 0 && s.insertAt <= |s.kept|
  {
    Insert(s.kept, s.insertAt, Serialize(target, HintsOf(s)))
  }

  function StripEmpty(lines: seq<string>): (r: seq<string>)
    ensures r <= lines && forall i :: |r| <= i < |lines| ==> lines[i] == ""
  {
    if lines != [] && lines[|lines| - 1] == "" then StripEmpty(lines[..|lines| - 1]) else lines
  }

  // ---------------------------------------------------------------- what a pass sees

  /** A heading without a value that has a list to take. */
  predicate TakesList(lines: seq<string>, i: nat) {
    i + 1 < |lines| && HeadingOf(lines[i]).Heading? && HeadingOf(lines[i]).raw == ""
    && IsItem(lines[i + 1], HeadingOf(lines[i]).indent)
  }

  predicate IsHint(lines: seq<string>, i: nat) {
    i < |lines| && HeadingOf(lines[i]).Heading? && (HeadingOf(lines[i]).raw != "" || TakesList(lines, i))
  }

  lemma HintAtIsHint(lines: seq<string>, i: nat)
    requires i < |lines|
    ensures HintAt(lines, i).Hint? <==> IsHint(lines, i)
    ensures IsHint(lines, i) ==> HintAt(lines, i).field == HeadingOf(lines[i]).field
    ensures HintAt(lines, i).Hint? ==> forall j :: i < j < i + HintAt(lines, i).consumed ==> IsItem(lines[j], HeadingOf(lines[i]).indent)
  {
    hide HeadingOf, IsItem, ParseHintValue, ItemValue;
    if HeadingOf(lines[i]).Heading? { ItemsAtAreItems(lines, i + 1, HeadingOf(lines[i]).indent); }
  }

  /** No heading is ever skipped as a list item: a pass removes exactly the hints there are. */
  lemma {:induction false} ScanFindsAllHints(lines: seq<string>, i: nat, field: string)
    requires i <= |lines|
    ensures field in ScanFrom(lines, i).fields <==>
      exists j: nat :: i <= j < |lines| && IsHint(lines, j) && HeadingOf(lines[j]).field == field
    decreases |lines| - i
  {
    hide HeadingOf, IsItem, HintAt;
    if i < |lines| {
      HintAtIsHint(lines, i);
      var next := if HintAt(lines, i).Hint? then i + HintAt(lines, i).consumed else i + 1;
      ScanFindsAllHints(lines, next, field);
      forall j: nat | i < j < next ensures !IsHint(lines, j) {
        ItemIsNoHeading(lines[j], HeadingOf(lines[i]).indent);
      }
    }
  }

  predicate Bare(lines: seq<string>) {
    forall i :: 0 <= i < |lines| && HeadingOf(lines[i]).Heading? ==> HeadingOf(lines[i]).raw == ""
  }

  lemma {:induction false} KeptIsBare(lines: seq<string>, i: nat)
    requires i <= |lines|
    ensures Bare(ScanFrom(lines, i).kept)
    decreases |lines| - i
  {
    hide HeadingOf, HintAt;
    if i < |lines| {
      HintAtIsHint(lines, i);
      KeptIsBare(lines, if HintAt(lines, i).Hint? then i + HintAt(lines, i).consumed else i + 1);
    }
  }

  // ---------------------------------------------------------------- the second pass

  /** The first pass left heading `p` directly above a list item it can take, and did not insert
      the merged field in between. */
  predicate Adopts(kept: seq<string>, at: int, inserted: bool, p: nat) {
    TakesList(kept, p) && !(inserted && p + 1 == at)
  }

  /** The fields a second pass finds. */
  ghost predicate FoundAgain(s: Scan, target: string, field: string) {
    || (HintsOf(s) != [] && field == target)
    || SomeAdopt(s.kept, s.insertAt, HintsOf(s) != [], field)
  }

  ghost predicate SomeAdopt(kept: seq<string>, at: int, inserted: bool, field: string) {
    exists p: nat :: AdoptsField(kept, at, inserted, p, field)
  }

  predicate AdoptsField(kept: seq<string>, at: int, inserted: bool, p: nat, field: string) {
    Adopts(kept, at, inserted, p) && HeadingOf(kept[p]).field == field
  }

  lemma {:induction false} ValuesSingleLine(lines: seq<string>, i: nat)
    requires i <= |lines|
    ensures forall k :: 0 <= k < |ScanFrom(lines, i).values| ==> AllSingleLine(ScanFrom(lines, i).values[k])
    decreases |lines| - i
  {
    hide HintAt, AllSingleLine;
    if i < |lines| {
      var h := HintAt(lines, i);
      ValuesSingleLine(lines, if h.Hint? then i + h.consumed else i + 1);
      if h.Hint? { HintSingleLine(lines, i); }
    }
  }

  lemma HintSingleLine(lines: seq<string>, i: nat)
    requires i < |lines| && HintAt(lines, i).Hint?
    ensures AllSingleLine(HintAt(lines, i).values)
  {
    hide HeadingOf, HintAt, ItemsAt, IsItem, ItemValues, ParseHintValue, SingleLine, AllSingleLine;
    var heading := HeadingOf(lines[i]);
    HintAtValues(lines, i);
    HeadingIsSingleLine(lines[i]);
    if heading.raw != "" {
      ParseHintValueSingleLine(heading.raw);
    } else {
      ItemsAtAreItems(lines, i + 1, heading.indent);
      ItemValuesSingleLine(lines[i + 1..i + 1 + ItemsAt(lines, i + 1, heading.indent)], heading.indent);
    }
  }

  lemma HintAtValues(lines: seq<string>, i: nat)
    requires i < |lines| && HintAt(lines, i).Hint?
    ensures var h := HeadingOf(lines[i]);
      h.Heading? && HintAt(lines, i).values ==
        if h.raw != "" then ParseHintValue(h.raw) else ItemValues(lines[i + 1..i + 1 + ItemsAt(lines, i + 1, h.indent)])
  {
    hide HeadingOf, ItemsAt, ItemValues, ParseHintValue;
  }

  lemma ItemValuesSingleLine(items: seq<string>, indent: string)
    requires forall j :: 0 <= j < |items| ==> IsItem(items[j], indent)
    ensures AllSingleLine(ItemValues(items))
  {
    hide IsItem, ItemValue, SingleLine;
    forall j | 0 <= j < |items| ensures SingleLine(ItemValue(items[j])) {
      ItemIsSingleLine(items[j], indent);
    }
  }

  lemma HeadingIsSingleLine(line: string)
    ensures HeadingOf(line).Heading? ==> SingleLine(HeadingOf(line).raw)
  {
  }

  lemma ItemIsSingleLine(line: string, indent: string)
    requires IsItem(line, indent)
    ensures SingleLine(ItemValue(line))
  {
    var value := Trim(line[LeadLen(line) + 1..]);
    UnquoteDraws(value);
    DrawnIsSingleLine(Unquote(value), value);
  }

  lemma HintsSingleLine(lines: seq<string>)
    ensures AllSingleLine(HintsOf(ScanFrom(lines, 0)))
  {
    ValuesSingleLine(lines, 0);
    AllHintsSingleLine(ScanFrom(lines, 0).values);
    DedupSingleLine(AllHints(ScanFrom(lines, 0).values));
  }

  /** Where the lines of the merged text come from. */
  lemma MergedLines(s: Scan, target: string, i: nat)
    requires 0 <= s.insertAt <= |s.kept| && i < |Merged(s, target)|
    ensures var at, ins := s.insertAt, Serialize(target, HintsOf(s));
      Merged(s, target)[i] == if i < at then s.kept[i] else if i < at + |ins| then ins[i - at] else s.kept[i - |ins|]
  {
    hide Serialize, HintsOf;
  }

  lemma HeaderIsNoItem(line: string)
    requires HeadingOf(line).Heading? && HeadingOf(line).indent == ""
    ensures forall indent :: !IsItem(line, indent)
  {
  }

  lemma SerializedLines(target: string, hints: seq<string>, k: nat)
    requires IsHintField(target) && AllSingleLine(hints) && k < |Serialize(target, hints)|
    ensures var line := Serialize(target, hints)[k];
      && (k == 0 ==> HeadingOf(line) == Heading("", target, "") && forall indent :: !IsItem(line, indent))
      && (k > 0 ==> HeadingOf(line).NoHeading? && IsItem(line, ""))
  {
    hide HeadingOf, IsItem, JsonQuote, SingleLine, ItemValue, Unquote;
    var line := Serialize(target, hints)[k];
    if k == 0 {
      SerializedHeading(target);
      HeaderIsNoItem(line);
    } else {
      BulletIsItem(hints[k - 1]);
      ItemIsNoHeading(line, "");
    }
  }

  lemma MergedIsBare(s: Scan, target: string)
    requires 0 <= s.insertAt <= |s.kept| && Bare(s.kept) && IsHintField(target) && AllSingleLine(HintsOf(s))
    ensures Bare(Merged(s, target))
  {
    hide HeadingOf, Serialize, HintsOf;
    var m := Merged(s, target);
    forall i | 0 <= i < |m| && HeadingOf(m[i]).Heading? ensures HeadingOf(m[i]).raw == "" {
      MergedLines(s, target, i);
      var at, ins := s.insertAt, Serialize(target, HintsOf(s));
      if at <= i < at + |ins| { SerializedLines(target, HintsOf(s), i - at); }
    }
  }

  /** The lists taken in the merged text are the inserted one and the adopted ones. */
  lemma MergedTakes(s: Scan, target: string, i: nat)
    requires 0 <= s.insertAt <= |s.kept| && IsHintField(target) && AllSingleLine(HintsOf(s)) && i < |Merged(s, target)|
    ensures var at, n := s.insertAt, |Serialize(target, HintsOf(s))|;
      TakesList(Merged(s, target), i) <==>
        if i < at then Adopts(s.kept, at, n > 0, i) else if i < at + n then i == at else Adopts(s.kept, at, n > 0, i - n)
  {
    hide HeadingOf, IsItem, Serialize, HintsOf;
    var at, ins, m := s.insertAt, Serialize(target, HintsOf(s)), Merged(s, target);
    MergedLines(s, target, i);
    if i + 1 < |m| { MergedLines(s, target, i + 1); }
    SerializedLength(target, HintsOf(s));
    if at <= i < at + |ins| { SerializedLines(target, HintsOf(s), i - at); }
    if at <= i + 1 < at + |ins| { SerializedLines(target, HintsOf(s), i + 1 - at); }
  }

  lemma SerializedLength(target: string, hints: seq<string>)
    ensures |Serialize(target, hints)| == if hints == [] then 0 else 1 + |hints|
  {
  }

  /** The second pass over the merged lines finds exactly: the merged field, and the headings that
      the first pass left standing above a list. */
  lemma SecondPassFinds(lines: seq<string>, target: string, field: string)
    requires ScanFrom(lines, 0).insertAt >= 0 && IsHintField(target)
    ensures field in ScanFrom(Merged(ScanFrom(lines, 0), target), 0).fields <==> FoundAgain(ScanFrom(lines, 0), target, field)
  {
    hide HeadingOf, IsItem, Serialize, HintsOf, TakesList, Insert, ScanFrom;
    var s := ScanFrom(lines, 0);
    var m, at, ins := Merged(s, target), s.insertAt, Serialize(target, HintsOf(s));
    KeptIsBare(lines, 0);
    HintsSingleLine(lines);
    MergedIsBare(s, target);
    ScanFindsAllHints(m, 0, field);
    SerializedLength(target, HintsOf(s));
    MergedLength(s, target);
    if j: nat :| j < |m| && IsHint(m, j) && HeadingOf(m[j]).field == field {
      MergedTakes(s, target, j);
      MergedLines(s, target, j);
      if at <= j < at + |ins| {
        SerializedLines(target, HintsOf(s), j - at);
      } else {
        var p := if j < at then j else j - |ins|;
        assert AdoptsField(s.kept, at, |ins| > 0, p, field);
      }
      assert FoundAgain(s, target, field);
    }
    if FoundAgain(s, target, field) {
      var j: nat;
      if HintsOf(s) != [] && field == target {
        j := at;
        SerializedLines(target, HintsOf(s), 0);
      } else {
        var p: nat :| AdoptsField(s.kept, at, |ins| > 0, p, field);
        TakesListIsHint(s.kept, p);
        j := if p < at then p else p + |ins|;
      }
      MergedTakes(s, target, j);
      MergedLines(s, target, j);
      TakesListIsHint(m, j);
    }
  }

  lemma MergedLength(s: Scan, target: string)
    requires 0 <= s.insertAt <= |s.kept|
    ensures |Merged(s, target)| == |s.kept| + |Serialize(target, HintsOf(s))|
  {
  }

  lemma TakesListIsHint(lines: seq<string>, i: nat)
    requires TakesList(lines, i)
    ensures IsHint(lines, i) && i + 1 < |lines|
  {
  }

  /** Trailing empty lines make no difference. */
  lemma StripKeepsHints(lines: seq<string>, field: string)
    ensures field in ScanFrom(StripEmpty(lines), 0).fields <==> field in ScanFrom(lines, 0).fields
  {
    hide ScanFrom, HeadingOf, IsItem;
    var r := StripEmpty(lines);
    ScanFindsAllHints(r, 0, field);
    ScanFindsAllHints(lines, 0, field);
    EmptyLine();
    forall j: nat | j < |lines| ensures IsHint(lines, j) <==> j < |r| && IsHint(r, j) {
      if j + 1 < |r| { assert lines[j + 1] == r[j + 1]; }
    }
    if j: nat :| j < |r| && IsHint(r, j) && HeadingOf(r[j]).field == field {
      assert IsHint(lines, j) && HeadingOf(lines[j]).field == field;
    }
  }

  lemma EmptyLine()
    ensures HeadingOf("").NoHeading? && forall indent :: !IsItem("", indent)
  {
  }

  // ---------------------------------------------------------------- a rewrite is a real change

  /** How many lines from `i` on are headings of the field. */
  function Headings(lines: seq<string>, i: nat, field: string): nat
    requires i <= |lines|
    decreases |lines| - i
  {
    if i == |lines| then 0
    else (if HeadingOf(lines[i]).Heading? && HeadingOf(lines[i]).field == field then 1 else 0) + Headings(lines, i + 1, field)
  }

  lemma {:induction false} HeadingsAppend(a: seq<string>, b: seq<string>, i: nat, field: string)
    requires i <= |a|
    ensures Headings(a + b, i, field) == Headings(a, i, field) + Headings(b, 0, field)
    decreases |a| - i
  {
    hide HeadingOf;
    if i == |a| {
      HeadingsShift(a, b, 0, field);
    } else {
      HeadingsAppend(a, b, i + 1, field);
    }
  }

  lemma {:induction false} HeadingsShift(a: seq<string>, b: seq<string>, i: nat, field: string)
    requires i <= |b|
    ensures Headings(a + b, |a| + i, field) == Headings(b, i, field)
    decreases |b| - i
  {
    hide HeadingOf;
    if i < |b| { HeadingsShift(a, b, i + 1, field); }
  }

  /** A pass removes at least one heading of every field it found. */
  lemma {:induction false} KeptHasFewer(lines: seq<string>, i: nat, field: string)
    requires i <= |lines|
    ensures Headings(ScanFrom(lines, i).kept, 0, field) + (if field in ScanFrom(lines, i).fields then 1 else 0)
         <= Headings(lines, i, field)
    decreases |lines| - i
  {
    hide HeadingOf, HintAt, IsItem, TakesList;
    if i < |lines| {
      HintAtIsHint(lines, i);
      var h := HintAt(lines, i);
      if h.Hint? {
        KeptHasFewer(lines, i + h.consumed, field);
        HeadingsDecrease(lines, i + 1, i + h.consumed, field);
      } else {
        KeptHasFewer(lines, i + 1, field);
        HeadingsAppend([lines[i]], ScanFrom(lines, i + 1).kept, 0, field);
        assert Headings([lines[i]], 1, field) == 0;
      }
    }
  }

  lemma {:induction false} HeadingsDecrease(lines: seq<string>, i: nat, j: nat, field: string)
    requires i <= j <= |lines|
    ensures Headings(lines, j, field) <= Headings(lines, i, field)
    decreases j - i
  {
    hide HeadingOf;
    if i < j { HeadingsDecrease(lines, i + 1, j, field); }
  }

  lemma {:induction false} NoOtherHeadings(lines: seq<string>, i: nat, target: string, field: string)
    requires i <= |lines| && field != target
    requires forall k :: 0 <= k < |lines| && HeadingOf(lines[k]).Heading? ==> HeadingOf(lines[k]).field == target
    ensures Headings(lines, i, field) == 0
    decreases |lines| - i
  {
    hide HeadingOf;
    if i < |lines| { NoOtherHeadings(lines, i + 1, target, field); }
  }

  /** Rewriting lines that hold a hint field other than the target changes them. */
  lemma MergedDiffers(lines: seq<string>, target: string, field: string)
    requires IsHintField(target) && field in ScanFrom(lines, 0).fields && field != target
    ensures Headings(Merged(ScanFrom(lines, 0), target), 0, field) < Headings(lines, 0, field)
  {
    hide HeadingOf, ScanFrom, Serialize, HintsOf;
    var s := ScanFrom(lines, 0);
    var ins := Serialize(target, HintsOf(s));
    HintsSingleLine(lines);
    forall k | 0 <= k < |ins| && HeadingOf(ins[k]).Heading? ensures HeadingOf(ins[k]).field == target {
      SerializedLines(target, HintsOf(s), k);
    }
    NoOtherHeadings(ins, 0, target, field);
    var a, b := s.kept[..s.insertAt], s.kept[s.insertAt..];
    HeadingsAppend(a + ins, b, 0, field);
    HeadingsAppend(a, ins, 0, field);
    HeadingsAppend(a, b, 0, field);
    assert s.kept == a + b;
    KeptHasFewer(lines, 0, field);
  }

  lemma {:induction false} StripKeepsHeadings(lines: seq<string>, field: string)
    ensures Headings(StripEmpty(lines), 0, field) == Headings(lines, 0, field)
  {
    hide HeadingOf;
    if lines != [] && lines[|lines| - 1] == "" {
      var most := lines[..|lines| - 1];
      StripKeepsHeadings(most, field);
      EmptyLine();
      assert lines == most + [""];
      HeadingsAppend(most, [""], 0, field);
      assert Headings([""], 1, field) == 0;
    }
  }

  // ---------------------------------------------------------------- when nothing is adopted

  /** In the original lines: no list item comes directly after a hint field. */
  predicate NoItemAfterHint(lines: seq<string>) {
    forall i :: 0 <= i < |lines| && HintAt(lines, i).Hint? && i + HintAt(lines, i).consumed < |lines| ==>
      !IsItem(lines[i + HintAt(lines, i).consumed], "")
  }

  /** Then every kept heading is still not above a list. */
  lemma {:induction false} NothingAdopted(lines: seq<string>, i: nat)
    requires i <= |lines| && NoItemAfterHint(lines)
    ensures forall p: nat :: !TakesList(ScanFrom(lines, i).kept, p)
    ensures ScanFrom(lines, i).kept != [] && IsItem(ScanFrom(lines, i).kept[0], "") ==>
      i < |lines| && ScanFrom(lines, i).kept[0] == lines[i]
    decreases |lines| - i
  {
    hide HeadingOf, IsItem, HintAt;
    if i < |lines| {
      HintAtIsHint(lines, i);
      var h := HintAt(lines, i);
      if h.Hint? {
        NothingAdopted(lines, i + h.consumed);
      } else {
        NothingAdopted(lines, i + 1);
        var rest, kept := ScanFrom(lines, i + 1).kept, ScanFrom(lines, i).kept;
        forall p: nat ensures !TakesList(kept, p) {
          if p > 0 {
            TakesListShift(lines[i], rest, p);
          } else if TakesList(kept, 0) {
            DeeperIsItem(rest[0], HeadingOf(lines[i]).indent);
            assert false;
          }
        }
      }
    }
  }

  lemma TakesListShift(line: string, rest: seq<string>, p: nat)
    requires p > 0
    ensures TakesList([line] + rest, p) <==> TakesList(rest, p - 1)
  {
  }

  lemma DeeperIsItem(line: string, indent: string)
    requires IsItem(line, indent)
    ensures IsItem(line, "")
  {
  }
}
