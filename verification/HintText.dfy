/**
  The text handling of scripts/normalize-doc-frontmatter.ts: whitespace, quoting, comma lists, and
  the merging of hints. The regular expressions are written out as scans.
 */
module HintText {
  import opened Text

  predicate IsWord(c: char) {
    'A' <= c <= 'Z' || 'a' <= c <= 'z' || '0' <= c <= '9' || c == '_' || c == '-'
  }

  predicate SingleLine(s: string) {
    forall i :: 0 <= i < |s| ==> !IsTerminator(s[i])
  }

  function LeadLen(s: string): (n: nat)
    ensures n <= |s| && (forall i :: 0 <= i < n ==> IsSpace(s[i])) && (n < |s| ==> !IsSpace(s[n]))
  {
    if s == [] || !IsSpace(s[0]) then 0 else 1 + LeadLen(s[1..])
  }

  function WordLen(s: string): (n: nat)
    ensures n <= |s| && (forall i :: 0 <= i < n ==> IsWord(s[i])) && (n < |s| ==> !IsWord(s[n]))
  {
    if s == [] || !IsWord(s[0]) then 0 else 1 + WordLen(s[1..])
  }

  function TrimEnd(s: string): (r: string)
    ensures r <= s && (r != [] ==> !IsSpace(r[|r| - 1])) && (forall i :: |r| <= i < |s| ==> IsSpace(s[i]))
  {
    if s == [] || !IsSpace(s[|s| - 1]) then s else TrimEnd(s[..|s| - 1])
  }

  function Trim(s: string): string {
    TrimEnd(s[LeadLen(s)..])
  }

  lemma TrimOfTight(s: string)
    requires s != [] && !IsSpace(s[0]) && !IsSpace(s[|s| - 1])
    ensures Trim(s) == s
  {
    assert LeadLen(s) == 0;
    assert s[0..] == s;
  }

  /** Every character of `part` comes from `whole`. */
  predicate DrawnFrom(part: string, whole: string) {
    forall i :: 0 <= i < |part| ==> part[i] in whole
  }

  lemma TrimDraws(s: string)
    ensures DrawnFrom(Trim(s), s)
  {
    hide IsSpace, TrimEnd, LeadLen;
    var t := s[LeadLen(s)..];
    forall i | 0 <= i < |TrimEnd(t)| ensures TrimEnd(t)[i] in s {
      assert TrimEnd(t)[i] == s[LeadLen(s) + i];
    }
  }

  // ---------------------------------------------------------------- quoting

  /** unquote */
  function Unquote(value: string): string {
    var t := Trim(value);
    if t != [] && ((t[0] == '"' && t[|t| - 1] == '"') || (t[0] == '\'' && t[|t| - 1] == '\'')) then
      if |t| == 1 then "" else t[1..|t| - 1]
    else t
  }

  lemma UnquoteDraws(value: string)
    ensures DrawnFrom(Unquote(value), value)
  {
    TrimDraws(value);
    var t := Trim(value);
    if |t| > 1 {
      var u := t[1..|t| - 1];
      forall i | 0 <= i < |u| ensures u[i] in value { assert u[i] == t[i + 1]; }
    }
  }

  function HexDigit(n: nat): char
    requires n < 16
  {
    if n < 10 then '0' + n as char else 'a' + (n - 10) as char
  }

  function EscapeChar(c: char): string {
    if c == '"' then "\\\"" else if c == '\\' then "\\\\" else if c == '\n' then "\\n" else if c == '\r' then "\\r"
    else if c == '\t' then "\\t" else if c == '\U{8}' then "\\b" else if c == '\U{C}' then "\\f"
    else if c < ' ' then "\\u00" + [HexDigit(c as int / 16), HexDigit(c as int % 16)]
    else [c]
  }

  function Escape(s: string): string {
    if s == [] then [] else EscapeChar(s[0]) + Escape(s[1..])
  }

  /** JSON.stringify of a string (RFC 8259, section 7). */
  function JsonQuote(s: string): string {
    "\"" + Escape(s) + "\""
  }

  predicate NeedsNoEscape(s: string) {
    forall i :: 0 <= i < |s| ==> s[i] != '"' && s[i] != '\\' && s[i] >= ' '
  }

  lemma {:induction false} EscapeIsIdentity(s: string)
    requires NeedsNoEscape(s)
    ensures Escape(s) == s
  {
    if s != [] { EscapeIsIdentity(s[1..]); }
  }

  lemma {:induction false} EscapeIsSingleLine(s: string)
    requires SingleLine(s)
    ensures SingleLine(Escape(s))
  {
    if s != [] {
      EscapeIsSingleLine(s[1..]);
      assert SingleLine(EscapeChar(s[0]));
    }
  }

  /** Reading back a hint that needs no escapes. */
  lemma UnquoteInvertsJsonQuote(hint: string)
    requires NeedsNoEscape(hint)
    ensures Unquote(JsonQuote(hint)) == hint
  {
    EscapeIsIdentity(hint);
    TrimOfTight(JsonQuote(hint));
    assert JsonQuote(hint)[1..|JsonQuote(hint)| - 1] == hint;
  }

  // ---------------------------------------------------------------- comma lists

  datatype Quote = NoQuote | Quote(mark: char)

  /** A quotation mark opens a quoted stretch, and the same mark closes it. */
  function NextQuote(c: char, quote: Quote): Quote {
    if (c == '"' || c == '\'') && quote.NoQuote? then Quote(c) else if quote == Quote(c) then NoQuote else quote
  }

  /** splitCommaList of the rest `s` of a value, inside quotes or not: commas between quotes do not split. */
  function SplitComma(s: string, quote: Quote): (parts: seq<string>)
    ensures parts != []
  {
    if s == [] then [""]
    else if s[0] == ',' && quote.NoQuote? then [""] + SplitComma(s[1..], quote)
    else Attach([s[0]], SplitComma(s[1..], NextQuote(s[0], quote)))
  }

  /** Splitting loses nothing: joining the parts with commas restores the value. */
  lemma {:induction false} JoinInvertsSplitComma(s: string, quote: Quote)
    ensures Join(SplitComma(s, quote), ',') == s
  {
    if s != [] {
      var quote' := NextQuote(s[0], quote);
      var rest := SplitComma(s[1..], quote');
      JoinInvertsSplitComma(s[1..], quote');
      JoinAttach([s[0]], rest, ',');
      assert ([""] + rest)[1..] == rest;
      assert "" + [','] + Join(rest, ',') == [','] + Join(rest, ',');
      assert s == [s[0]] + s[1..];
    }
  }

  /** What one character does to the parts pushed so far and the part under way. */
  lemma SplitCommaStep(current: string, s: string, quote: Quote)
    requires s != []
    ensures Attach(current, SplitComma(s, quote)) ==
      if s[0] == ',' && quote.NoQuote? then [current] + Attach("", SplitComma(s[1..], quote))
      else Attach(current + [s[0]], SplitComma(s[1..], NextQuote(s[0], quote)))
  {
    AttachEmpty(current, SplitComma(s[1..], quote));
    AttachTwice(current, [s[0]], SplitComma(s[1..], NextQuote(s[0], quote)));
  }

  lemma SplitCommaEnd(current: string, quote: Quote)
    ensures Attach(current, SplitComma("", quote)) == [current]
  {
    assert current + "" == current;
  }

  /** How far the loop has got: with the rest `s` of the value it will have split it into `all`. */
  ghost predicate Splits(all: seq<string>, parts: seq<string>, current: string, s: string, quote: Quote) {
    all == parts + Attach(current, SplitComma(s, quote))
  }

  lemma SplitsCharacter(all: seq<string>, parts: seq<string>, current: string, s: string, quote: Quote)
    requires s != [] && Splits(all, parts, current, s, quote)
    ensures if s[0] == ',' && quote.NoQuote? then Splits(all, parts + [current], "", s[1..], quote)
            else Splits(all, parts, current + [s[0]], s[1..], NextQuote(s[0], quote))
  {
    hide SplitComma, Attach, NextQuote;
    SplitCommaStep(current, s, quote);
    if s[0] == ',' && quote.NoQuote? {
      var rest := Attach("", SplitComma(s[1..], quote));
      assert parts + ([current] + rest) == (parts + [current]) + rest;
    }
  }

  lemma SplitsWhole(value: string)
    ensures Splits(SplitComma(value, NoQuote), [], "", value[0..], NoQuote)
  {
    AttachEmpty("", SplitComma(value, NoQuote));
    assert value[0..] == value;
  }

  lemma SplitsNothing(all: seq<string>, parts: seq<string>, current: string, quote: Quote)
    requires Splits(all, parts, current, "", quote)
    ensures all == parts + [current]
  {
    SplitCommaEnd(current, quote);
  }

  /** splitCommaList */
  method SplitCommaList(value: string) returns (parts: seq<string>)
    ensures parts == SplitComma(value, NoQuote)
    ensures Join(parts, ',') == value
  {
    hide SplitComma, Splits, Join;
    parts := [];
    var current := "";
    var quote := NoQuote;
    ghost var all := SplitComma(value, NoQuote);
    SplitsWhole(value);
    for i := 0 to |value|
      invariant Splits(all, parts, current, value[i..], quote)
    {
      var c := value[i];
      SplitsCharacter(all, parts, current, value[i..], quote);
      assert value[i..][1..] == value[i + 1..];
      if (c == '"' || c == '\'') && quote == NoQuote {
        quote := Quote(c);
        current := current + [c];
      } else if quote == Quote(c) {
        quote := NoQuote;
        current := current + [c];
      } else if c == ',' && quote == NoQuote {
        parts := parts + [current];
        current := "";
      } else {
        current := current + [c];
      }
    }
    assert value[|value|..] == "";
    SplitsNothing(all, parts, current, quote);
    parts := parts + [current];
    JoinInvertsSplitComma(value, NoQuote);
  }

  lemma {:induction false} SplitCommaDraws(s: string, quote: Quote, whole: string)
    requires DrawnFrom(s, whole)
    ensures forall part :: part in SplitComma(s, quote) ==> DrawnFrom(part, whole)
  {
    if s != [] {
      var quote' := NextQuote(s[0], quote);
      SplitCommaDraws(s[1..], quote', whole);
      assert s[0] in whole;
      assert SplitComma(s[1..], quote')[0] in SplitComma(s[1..], quote');
    }
  }

  // ---------------------------------------------------------------- hints

  function UnquoteAll(parts: seq<string>): seq<string> {
    if parts == [] then []
    else (if Unquote(parts[0]) == "" then [] else [Unquote(parts[0])]) + UnquoteAll(parts[1..])
  }

  /** parseHintValue */
  function ParseHintValue(raw: string): seq<string> {
    var t := Trim(raw);
    UnquoteAll(SplitComma(if |t| >= 2 && t[0] == '[' && t[|t| - 1] == ']' then t[1..|t| - 1] else t, NoQuote))
  }

  function TrimAll(parts: seq<string>): seq<string> {
    if parts == [] then [] else (if Trim(parts[0]) == "" then [] else [Trim(parts[0])]) + TrimAll(parts[1..])
  }

  /** toHints of a list of strings, and of a list of such lists. */
  function ToHints(values: seq<string>): seq<string> {
    if values == [] then [] else TrimAll(SplitOn(values[0], ',')) + ToHints(values[1..])
  }

  function AllHints(values: seq<seq<string>>): seq<string> {
    if values == [] then [] else ToHints(values[0]) + AllHints(values[1..])
  }

  /** `parts` are the comma parts of v. */
  predicate CommaParts(v: string, parts: seq<string>) {
    parts != [] && AllLack(parts, ',') && Join(parts, ',') == v
  }

  /** The hint is what is left of a comma part of v without the blanks around it. */
  ghost predicate Offers(v: string, hint: string) {
    hint != "" && exists parts, k :: CommaParts(v, parts) && 0 <= k < |parts| && hint == Trim(parts[k])
  }

  lemma {:induction false} TrimAllKeepsNonBlank(parts: seq<string>, hint: string)
    ensures hint in TrimAll(parts) <==> hint != "" && exists k :: 0 <= k < |parts| && hint == Trim(parts[k])
  {
    hide Trim;
    if parts != [] {
      TrimAllKeepsNonBlank(parts[1..], hint);
      if hint in TrimAll(parts[1..]) {
        var k :| 0 <= k < |parts[1..]| && hint == Trim(parts[1..][k]);
        assert parts[k + 1] == parts[1..][k];
      }
      forall k | 0 < k < |parts| && hint == Trim(parts[k]) ensures hint == Trim(parts[1..][k - 1]) {
      }
    }
  }

  lemma OffersExactly(v: string, hint: string)
    ensures hint in TrimAll(SplitOn(v, ',')) <==> Offers(v, hint)
  {
    hide TrimAll, Trim, SplitOn, Join, AllLack;
    var parts := SplitOn(v, ',');
    JoinInvertsSplitOn(v, ',');
    assert CommaParts(v, parts);
    TrimAllKeepsNonBlank(parts, hint);
    forall other, k | CommaParts(v, other) && 0 <= k < |other| && hint == Trim(other[k]) ensures other == parts {
      SplitOnInvertsJoin(other, ',');
    }
  }

  lemma {:induction false} ToHintsAreOffered(values: seq<string>, hint: string)
    ensures hint in ToHints(values) <==> exists j :: 0 <= j < |values| && Offers(values[j], hint)
  {
    hide Offers, TrimAll, SplitOn;
    if values != [] {
      OffersExactly(values[0], hint);
      ToHintsAreOffered(values[1..], hint);
      forall j | 0 < j < |values| ensures values[j] == values[1..][j - 1] {
      }
      if hint in ToHints(values[1..]) {
        var j :| 0 <= j < |values[1..]| && Offers(values[1..][j], hint);
        assert Offers(values[j + 1], hint);
      }
    }
  }

  ghost predicate OneOffers(values: seq<string>, hint: string) {
    exists j :: 0 <= j < |values| && Offers(values[j], hint)
  }

  lemma {:induction false} AllHintsAreOffered(values: seq<seq<string>>, hint: string)
    ensures hint in AllHints(values) <==> exists i :: 0 <= i < |values| && OneOffers(values[i], hint)
  {
    hide ToHints, Offers;
    if values != [] {
      ToHintsAreOffered(values[0], hint);
      AllHintsAreOffered(values[1..], hint);
      forall i | 0 < i < |values| ensures values[i] == values[1..][i - 1] {
      }
      if hint in AllHints(values[1..]) {
        var i :| 0 <= i < |values[1..]| && OneOffers(values[1..][i], hint);
        assert OneOffers(values[i + 1], hint);
      }
    }
  }

  /** No hint is lost in merging, and none is made up. */
  lemma MergingKeepsHints(values: seq<seq<string>>)
    ensures forall i, hint :: 0 <= i < |values| && OneOffers(values[i], hint) ==> Seen(Dedup(AllHints(values)), Lower(hint))
    ensures forall hint :: hint in Dedup(AllHints(values)) ==> exists i :: 0 <= i < |values| && OneOffers(values[i], hint)
  {
    hide AllHints, OneOffers, Lower;
    var hints := AllHints(values);
    DedupIsDistinct(hints);
    DedupKeepsFirstSpellings(hints);
    forall i, hint | 0 <= i < |values| && OneOffers(values[i], hint) ensures Seen(Dedup(hints), Lower(hint)) {
      AllHintsAreOffered(values, hint);
      var k :| 0 <= k < |hints| && hints[k] == hint;
    }
    forall hint | hint in Dedup(hints) ensures exists i :: 0 <= i < |values| && OneOffers(values[i], hint) {
      AllHintsAreOffered(values, hint);
      var k :| 0 <= k < |Dedup(hints)| && Dedup(hints)[k] == hint;
      assert IsFirstSpelling(hints, hint);
    }
  }

  predicate Seen(hints: seq<string>, key: string) {
    exists i :: 0 <= i < |hints| && Lower(hints[i]) == key
  }

  function Dedup(hints: seq<string>): seq<string> {
    if hints == [] then []
    else
      var most := Dedup(hints[..|hints| - 1]);
      if Seen(most, Lower(hints[|hints| - 1])) then most else most + [hints[|hints| - 1]]
  }

  predicate IsFirstSpelling(hints: seq<string>, hint: string) {
    exists i :: 0 <= i < |hints| && hints[i] == hint && forall j :: 0 <= j < i ==> Lower(hints[j]) != Lower(hint)
  }

  /** No two hints of the result agree up to case, and every hint is represented. */
  lemma {:induction false} DedupIsDistinct(hints: seq<string>)
    ensures var r := Dedup(hints);
      && (forall i, j :: 0 <= i < j < |r| ==> Lower(r[i]) != Lower(r[j]))
      && (forall i :: 0 <= i < |hints| ==> Seen(r, Lower(hints[i])))
  {
    hide Lower;
    if hints != [] {
      var n := |hints| - 1;
      var most := Dedup(hints[..n]);
      DedupIsDistinct(hints[..n]);
      forall i | 0 <= i < |hints| ensures Seen(Dedup(hints), Lower(hints[i])) {
        SeenAppend(most, hints[n], Lower(hints[i]));
        if i < n { assert hints[..n][i] == hints[i]; }
      }
    }
  }

  /** Each hint is kept in its first spelling. */
  lemma {:induction false} DedupKeepsFirstSpellings(hints: seq<string>)
    ensures forall k :: 0 <= k < |Dedup(hints)| ==> IsFirstSpelling(hints, Dedup(hints)[k])
  {
    hide Lower;
    if hints != [] {
      var n := |hints| - 1;
      var most, r := Dedup(hints[..n]), Dedup(hints);
      DedupKeepsFirstSpellings(hints[..n]);
      DedupIsDistinct(hints[..n]);
      forall k | 0 <= k < |r| ensures IsFirstSpelling(hints, r[k]) {
        if k < |most| {
          assert IsFirstSpelling(hints[..n], most[k]);
          var i :| 0 <= i < n && hints[..n][i] == most[k] && forall j :: 0 <= j < i ==> Lower(hints[..n][j]) != Lower(most[k]);
          assert forall j :: 0 <= j < i ==> hints[..n][j] == hints[j];
          assert hints[i] == r[k];
        } else {
          forall j | 0 <= j < n ensures Lower(hints[j]) != Lower(r[k]) {
            assert hints[..n][j] == hints[j];
            assert Seen(most, Lower(hints[..n][j]));
          }
        }
      }
    }
  }

  lemma SeenAppend(hints: seq<string>, hint: string, key: string)
    ensures Seen(hints + [hint], key) <==> Seen(hints, key) || Lower(hint) == key
  {
    hide Lower;
    var all := hints + [hint];
    assert all[|hints|] == hint;
    if Seen(hints, key) {
      var k :| 0 <= k < |hints| && Lower(hints[k]) == key;
      assert all[k] == hints[k];
    }
  }

  ghost predicate Tracks(seen: set<string>, merged: seq<string>) {
    forall key :: key in seen <==> Seen(merged, key)
  }

  /** The body of mergeHints' inner loop. */
  method MergeHint(hint: string, merged: seq<string>, seen: set<string>, ghost done: seq<string>)
    returns (merged': seq<string>, seen': set<string>)
    requires merged == Dedup(done) && Tracks(seen, merged)
    ensures merged' == Dedup(done + [hint]) && Tracks(seen', merged')
  {
    merged', seen' := merged, seen;
    assert (done + [hint])[..|done|] == done;
    if Lower(hint) !in seen {
      seen' := seen + {Lower(hint)};
      merged' := merged + [hint];
      forall key ensures key in seen' <==> Seen(merged', key) {
        SeenAppend(merged, hint, key);
      }
    }
  }

  lemma StartTracks()
    ensures Dedup([]) == [] && Tracks({}, [])
  {
  }

  /** mergeHints */
  method MergeHints(values: seq<seq<string>>) returns (merged: seq<string>)
    ensures merged == Dedup(AllHints(values))
    ensures forall i, hint :: 0 <= i < |values| && OneOffers(values[i], hint) ==> Seen(merged, Lower(hint))
    ensures forall hint :: hint in merged ==> exists i :: 0 <= i < |values| && OneOffers(values[i], hint)
  {
    hide ToHints, Dedup, Tracks, OneOffers, Seen, Lower;
    MergingKeepsHints(values);
    StartTracks();
    merged := [];
    var seen: set<string> := {};
    ghost var done: seq<string> := [];
    for i := 0 to |values|
      invariant done + AllHints(values[i..]) == AllHints(values)
      invariant merged == Dedup(done) && Tracks(seen, merged)
    {
      assert values[i..][1..] == values[i + 1..];
      var hints := ToHints(values[i]);
      ghost var before := done;
      for j := 0 to |hints|
        invariant done == before + hints[..j]
        invariant merged == Dedup(done) && Tracks(seen, merged)
      {
        merged, seen := MergeHint(hints[j], merged, seen, done);
        done := done + [hints[j]];
      }
      assert before + hints + AllHints(values[i + 1..]) == before + (hints + AllHints(values[i + 1..]));
    }
    assert done + [] == done;
  }

  // ---------------------------------------------------------------- hints stay on one line

  predicate AllSingleLine(values: seq<string>) {
    forall i :: 0 <= i < |values| ==> SingleLine(values[i])
  }

  lemma DrawnIsSingleLine(part: string, whole: string)
    requires DrawnFrom(part, whole) && SingleLine(whole)
    ensures SingleLine(part)
  {
  }

  lemma {:induction false} UnquoteAllSingleLine(parts: seq<string>)
    requires AllSingleLine(parts)
    ensures AllSingleLine(UnquoteAll(parts))
  {
    if parts != [] {
      UnquoteDraws(parts[0]);
      DrawnIsSingleLine(Unquote(parts[0]), parts[0]);
      UnquoteAllSingleLine(parts[1..]);
    }
  }

  lemma SliceIsSingleLine(t: string)
    requires SingleLine(t)
    ensures |t| >= 2 ==> SingleLine(t[1..|t| - 1])
  {
  }

  lemma DrawsItself(s: string)
    ensures DrawnFrom(s, s)
  {
  }

  lemma ParseHintValueSingleLine(raw: string)
    requires SingleLine(raw)
    ensures AllSingleLine(ParseHintValue(raw))
  {
    hide IsTerminator, Trim, SplitComma, UnquoteAll, DrawnFrom, SingleLine;
    var t := Trim(raw);
    TrimDraws(raw);
    DrawnIsSingleLine(t, raw);
    var u := if |t| >= 2 && t[0] == '[' && t[|t| - 1] == ']' then t[1..|t| - 1] else t;
    assert SingleLine(u) by { SliceIsSingleLine(t); }
    DrawsItself(u);
    SplitCommaDraws(u, NoQuote, u);
    forall i | 0 <= i < |SplitComma(u, NoQuote)| ensures SingleLine(SplitComma(u, NoQuote)[i]) {
      DrawnIsSingleLine(SplitComma(u, NoQuote)[i], u);
    }
    UnquoteAllSingleLine(SplitComma(u, NoQuote));
  }

  lemma {:induction false} SplitOnSingleLine(s: string, sep: char)
    requires SingleLine(s)
    ensures AllSingleLine(SplitOn(s, sep))
  {
    if s != [] { SplitOnSingleLine(s[1..], sep); }
  }

  lemma {:induction false} TrimAllSingleLine(parts: seq<string>)
    requires AllSingleLine(parts)
    ensures AllSingleLine(TrimAll(parts))
  {
    if parts != [] {
      TrimDraws(parts[0]);
      DrawnIsSingleLine(Trim(parts[0]), parts[0]);
      TrimAllSingleLine(parts[1..]);
    }
  }

  lemma {:induction false} ToHintsSingleLine(values: seq<string>)
    requires AllSingleLine(values)
    ensures AllSingleLine(ToHints(values))
  {
    if values != [] {
      SplitOnSingleLine(values[0], ',');
      TrimAllSingleLine(SplitOn(values[0], ','));
      ToHintsSingleLine(values[1..]);
    }
  }

  lemma {:induction false} AllHintsSingleLine(values: seq<seq<string>>)
    requires forall i :: 0 <= i < |values| ==> AllSingleLine(values[i])
    ensures AllSingleLine(AllHints(values))
  {
    if values != [] {
      ToHintsSingleLine(values[0]);
      AllHintsSingleLine(values[1..]);
    }
  }

  lemma {:induction false} DedupSingleLine(hints: seq<string>)
    requires AllSingleLine(hints)
    ensures AllSingleLine(Dedup(hints))
  {
    if hints != [] { DedupSingleLine(hints[..|hints| - 1]); }
  }
}
