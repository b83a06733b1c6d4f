/**
  The laws of the text handling in scripts/normalize-doc-frontmatter.ts, with every character written
  out: what trimming, unquoting and splitting do to the values people write, and that JSON.stringify is
  undone by reading JSON.
 */
module HintLaws {
  import opened Text
  import opened HintText
  import Base64

  predicate AllSpace(s: string) {
    forall k :: 0 <= k < |s| ==> IsSpace(s[k])
  }

  /** Starts and ends with something other than a blank, or is empty. */
  predicate Tight(s: string) {
    s != "" ==> !IsSpace(s[0]) && !IsSpace(s[|s| - 1])
  }

  // ---------------------------------------------------------------- trimming

  /** Trimming takes away the blanks at both ends and nothing else. */
  lemma TrimIsExact(s: string) returns (lead: string, tail: string)
    ensures s == lead + Trim(s) + tail && AllSpace(lead) && AllSpace(tail) && Tight(Trim(s))
  {
    hide IsSpace, TrimEnd, LeadLen;
    var n := LeadLen(s);
    var t := s[n..];
    lead, tail := s[..n], t[|TrimEnd(t)|..];
    assert t == TrimEnd(t) + tail;
    if TrimEnd(t) != "" { assert TrimEnd(t)[0] == t[0] == s[n]; }
  }

  lemma {:induction false} LeadThen(lead: string, rest: string)
    requires AllSpace(lead) && (rest != "" ==> !IsSpace(rest[0]))
    ensures LeadLen(lead + rest) == |lead|
  {
    hide IsSpace;
    if lead == "" {
      assert lead + rest == rest;
    } else {
      assert (lead + rest)[1..] == lead[1..] + rest;
      LeadThen(lead[1..], rest);
    }
  }

  lemma {:induction false} TrimEndThen(core: string, tail: string)
    requires AllSpace(tail) && (core != "" ==> !IsSpace(core[|core| - 1]))
    ensures TrimEnd(core + tail) == core
  {
    hide IsSpace;
    if tail == "" {
      assert core + tail == core;
    } else {
      assert (core + tail)[..|core + tail| - 1] == core + tail[..|tail| - 1];
      TrimEndThen(core, tail[..|tail| - 1]);
    }
  }

  lemma TrimUndoesBlanks(lead: string, core: string, tail: string)
    requires AllSpace(lead) && AllSpace(tail) && Tight(core)
    ensures Trim(lead + core + tail) == core
  {
    hide TrimEnd, LeadLen, IsSpace;
    if core == "" {
      assert lead + core + tail == (lead + tail) + "";
      LeadThen(lead + tail, "");
      assert (lead + tail)[|lead + tail|..] == "";
      TrimEndThen("", "");
      assert "" + "" == "";
    } else {
      assert lead + core + tail == lead + (core + tail);
      LeadThen(lead, core + tail);
      assert (lead + (core + tail))[|lead|..] == core + tail;
      TrimEndThen(core, tail);
    }
  }

  // ---------------------------------------------------------------- unquoting

  predicate IsQuotation(q: char) {
    q == '"' || q == '\''
  }

  /** Quotation marks of either kind are taken off, blanks around them too; what is inside stays, */
  lemma UnquoteTakesQuotesOff(lead: string, q: char, s: string, tail: string)
    requires AllSpace(lead) && AllSpace(tail) && IsQuotation(q)
    ensures Unquote(lead + ([q] + s + [q]) + tail) == s
  {
    var core := [q] + s + [q];
    TrimUndoesBlanks(lead, core, tail);
    hide Trim;
    assert core[1..|core| - 1] == s;
  }

  /** and anything else is only trimmed. */
  lemma UnquoteOnlyTrims(lead: string, core: string, tail: string)
    requires AllSpace(lead) && AllSpace(tail) && Tight(core)
    requires core != "" && IsQuotation(core[0]) ==> core[|core| - 1] != core[0]
    ensures Unquote(lead + core + tail) == core
  {
    TrimUndoesBlanks(lead, core, tail);
    hide Trim;
  }

  // ---------------------------------------------------------------- comma lists

  /** Neither a comma nor a quotation mark. */
  predicate Bare(s: string) {
    forall k :: 0 <= k < |s| ==> s[k] != ',' && !IsQuotation(s[k])
  }

  lemma {:induction false} BareIsAttached(pre: string, rest: string)
    requires Bare(pre)
    ensures SplitComma(pre + rest, NoQuote) == Attach(pre, SplitComma(rest, NoQuote))
  {
    if pre == "" {
      assert pre + rest == rest;
      AttachEmpty("", SplitComma(rest, NoQuote));
    } else {
      assert (pre + rest)[1..] == pre[1..] + rest;
      BareIsAttached(pre[1..], rest);
      AttachTwice([pre[0]], pre[1..], SplitComma(rest, NoQuote));
      assert [pre[0]] + pre[1..] == pre;
    }
  }

  lemma {:induction false} QuotedIsAttached(q: char, s: string, rest: string)
    requires IsQuotation(q) && Lacks(s, q)
    ensures SplitComma(s + [q] + rest, Quote(q)) == Attach(s + [q], SplitComma(rest, NoQuote))
    ensures SplitComma(s, Quote(q)) == [s]
  {
    if s == "" {
      assert s + [q] + rest == [q] + rest && s + [q] == [q];
      assert ([q] + rest)[1..] == rest;
    } else {
      assert (s + [q] + rest)[1..] == s[1..] + [q] + rest;
      QuotedIsAttached(q, s[1..], rest);
      AttachTwice([s[0]], s[1..] + [q], SplitComma(rest, NoQuote));
      assert [s[0]] + (s[1..] + [q]) == s + [q];
      assert [s[0]] + s[1..] == s;
    }
  }

  /** A comma outside quotes splits; */
  lemma CommaSplits(pre: string, post: string)
    requires Bare(pre)
    ensures SplitComma(pre + "," + post, NoQuote) == [pre] + SplitComma(post, NoQuote)
    ensures SplitComma(pre, NoQuote) == [pre]
  {
    assert pre + "," + post == pre + ("," + post) && ("," + post)[1..] == post;
    BareIsAttached(pre, "," + post);
    AttachEmpty(pre, SplitComma(post, NoQuote));
    BareIsAttached(pre, "");
    assert pre + "" == pre;
  }

  /** commas between quotes of either kind do not, and an unclosed quote keeps the rest together. */
  lemma QuotesKeepCommas(pre: string, q: char, s: string, post: string)
    requires Bare(pre) && IsQuotation(q) && Lacks(s, q)
    ensures SplitComma(pre + [q] + s + [q] + post, NoQuote) == Attach(pre + [q] + s + [q], SplitComma(post, NoQuote))
    ensures SplitComma(pre + [q] + s, NoQuote) == [pre + [q] + s]
  {
    hide SplitComma, Attach, Bare;
    var inner, rest := s + [q] + post, SplitComma(post, NoQuote);
    assert pre + [q] + s + [q] + post == pre + ([q] + inner);
    BareIsAttached(pre, [q] + inner);
    QuoteOpens(q, inner);
    QuotedIsAttached(q, s, post);
    AttachTwice([q], s + [q], rest);
    AttachTwice(pre, [q] + (s + [q]), rest);
    assert pre + ([q] + (s + [q])) == pre + [q] + s + [q];
    assert pre + [q] + s == pre + ([q] + s);
    BareIsAttached(pre, [q] + s);
    QuoteOpens(q, s);
    AttachOne([q], s);
    AttachOne(pre, [q] + s);
  }

  lemma QuoteOpens(q: char, inner: string)
    requires IsQuotation(q)
    ensures SplitComma([q] + inner, NoQuote) == Attach([q], SplitComma(inner, Quote(q)))
  {
    assert ([q] + inner)[1..] == inner;
  }

  lemma AttachOne(cur: string, part: string)
    ensures Attach(cur, [part]) == [cur + part]
  {
  }

  // ---------------------------------------------------------------- lists as people write them

  /** A part of a list, and the hint it stands for: bare, or in quotes of either kind. */
  datatype Part = Plain(lead: string, core: string, tail: string) | Quoted(lead: string, q: char, core: string, tail: string)

  function Spelled(p: Part): string {
    match p
    case Plain(lead, core, tail) => lead + core + tail
    case Quoted(lead, q, core, tail) => lead + ([q] + core + [q]) + tail
  }

  predicate WellSpelled(p: Part) {
    && AllSpace(p.lead) && AllSpace(p.tail) && p.core != ""
    && (p.Plain? ==> Tight(p.core) && Bare(p.core))
    && (p.Quoted? ==> IsQuotation(p.q) && Lacks(p.core, p.q))
  }

  function AllSpelled(ps: seq<Part>): seq<string> {
    if ps == [] then [] else [Spelled(ps[0])] + AllSpelled(ps[1..])
  }

  function Cores(ps: seq<Part>): seq<string> {
    if ps == [] then [] else [ps[0].core] + Cores(ps[1..])
  }

  lemma SpaceIsBare(s: string)
    requires AllSpace(s)
    ensures Bare(s)
  {
  }

  lemma PartUnquotes(p: Part)
    requires WellSpelled(p)
    ensures Unquote(Spelled(p)) == p.core
  {
    hide Unquote;
    match p
    case Plain(lead, core, tail) => UnquoteOnlyTrims(lead, core, tail);
    case Quoted(lead, q, core, tail) => UnquoteTakesQuotesOff(lead, q, core, tail);
  }

  lemma PartIsKept(p: Part, rest: string)
    requires WellSpelled(p)
    ensures SplitComma(Spelled(p) + rest, NoQuote) == Attach(Spelled(p), SplitComma(rest, NoQuote))
  {
    hide SplitComma, Attach, IsSpace, AllSpace, Bare;
    SpaceIsBare(p.lead);
    SpaceIsBare(p.tail);
    BareIsAttached(p.tail, rest);
    match p
    case Plain(lead, core, tail) =>
      BareIsAttached(lead, core + (tail + rest));
      BareIsAttached(core, tail + rest);
      AttachNotEmpty(core, SplitComma(tail + rest, NoQuote));
      AttachTwice(core, tail, SplitComma(rest, NoQuote));
      AttachTwice(lead, core + tail, SplitComma(rest, NoQuote));
      assert lead + core + tail + rest == lead + (core + (tail + rest)) && lead + (core + tail) == lead + core + tail;
    case Quoted(lead, q, core, tail) =>
      QuotesKeepCommas(lead, q, core, tail + rest);
      AttachTwice(lead + [q] + core + [q], tail, SplitComma(rest, NoQuote));
      assert lead + ([q] + core + [q]) + tail + rest == lead + [q] + core + [q] + (tail + rest);
      assert lead + [q] + core + [q] + tail == lead + ([q] + core + [q]) + tail;
  }

  lemma AttachNotEmpty(cur: string, parts: seq<string>)
    ensures Attach(cur, parts) != []
  {
  }

  /** Splitting a list of well spelled parts gives the parts. */
  lemma {:induction false} ListSplits(ps: seq<Part>)
    requires ps != [] && forall k :: 0 <= k < |ps| ==> WellSpelled(ps[k])
    ensures SplitComma(Join(AllSpelled(ps), ','), NoQuote) == AllSpelled(ps)
  {
    hide Spelled, WellSpelled;
    var first, rest := Spelled(ps[0]), AllSpelled(ps[1..]);
    if |ps| == 1 {
      PartIsKept(ps[0], "");
      assert first + "" == first;
    } else {
      ListSplits(ps[1..]);
      var joined := Join(rest, ',');
      PartIsKept(ps[0], "," + joined);
      assert ("," + joined)[1..] == joined;
      assert AllSpelled(ps)[1..] == rest && |AllSpelled(ps)| > 1;
      assert first + [','] + joined == first + ("," + joined);
      AttachEmpty(first, rest);
    }
  }

  lemma {:induction false} AllUnquote(ps: seq<Part>)
    requires forall k :: 0 <= k < |ps| ==> WellSpelled(ps[k])
    ensures UnquoteAll(AllSpelled(ps)) == Cores(ps)
  {
    hide Unquote, Spelled;
    if ps != [] {
      PartUnquotes(ps[0]);
      AllUnquote(ps[1..]);
      assert AllSpelled(ps)[1..] == AllSpelled(ps[1..]);
    }
  }

  /** An inline value that lists hints, bare or quoted, gives exactly those hints, in brackets too. */
  lemma InlineListParses(ps: seq<Part>)
    requires ps != [] && forall k :: 0 <= k < |ps| ==> WellSpelled(ps[k])
    ensures ParseHintValue("[" + Join(AllSpelled(ps), ',') + "]") == Cores(ps)
    ensures var raw := Join(AllSpelled(ps), ',');
      Tight(raw) && raw != "" && !(raw[0] == '[' && raw[|raw| - 1] == ']') ==> ParseHintValue(raw) == Cores(ps)
  {
    hide SplitComma, UnquoteAll, Join, AllSpelled, Cores, WellSpelled;
    var raw := Join(AllSpelled(ps), ',');
    var listed := "[" + raw + "]";
    ListSplits(ps);
    AllUnquote(ps);
    TrimOfTight(listed);
    assert listed[1..|listed| - 1] == raw;
    if raw != "" && Tight(raw) { TrimOfTight(raw); }
  }

  // ---------------------------------------------------------------- the order of hints

  /** Hints come in the order of the fields, of their values, and of the parts of a value. */
  lemma HintsComeInOrder(a: seq<string>, b: seq<string>)
    ensures ToHints(a + b) == ToHints(a) + ToHints(b)
    ensures AllHints([a, b]) == ToHints(a + b)
    ensures TrimAll(a + b) == TrimAll(a) + TrimAll(b)
  {
    ToHintsAdds(a, b);
    TrimAllAdds(a, b);
    assert [a, b][1..] == [b] && [b][1..] == [];
    assert AllHints([b]) == ToHints(b) + [] == ToHints(b);
  }

  lemma {:induction false} ToHintsAdds(a: seq<string>, b: seq<string>)
    ensures ToHints(a + b) == ToHints(a) + ToHints(b)
  {
    if a == [] {
      assert a + b == b;
    } else {
      assert (a + b)[1..] == a[1..] + b;
      ToHintsAdds(a[1..], b);
    }
  }

  lemma {:induction false} TrimAllAdds(a: seq<string>, b: seq<string>)
    ensures TrimAll(a + b) == TrimAll(a) + TrimAll(b)
  {
    hide Trim;
    if a == [] {
      assert a + b == b;
    } else {
      assert (a + b)[1..] == a[1..] + b;
      TrimAllAdds(a[1..], b);
    }
  }

  // ---------------------------------------------------------------- JSON strings

  /** Reading the inside of a JSON string (RFC 8259, section 7). */
  function Unescape(s: string): string {
    if s == "" then ""
    else if s[0] != '\\' || |s| < 2 then [s[0]] + Unescape(s[1..])
    else if s[1] == 'u' && |s| >= 6 && (forall k :: 2 <= k < 6 ==> Base64.IsHex(s[k])) then
      [CodeOf(s[2], s[3], s[4], s[5])] + Unescape(s[6..])
    else [Meaning(s[1])] + Unescape(s[2..])
  }

  function Meaning(c: char): char {
    match c
    case 'b' => '\U{8}'
    case 'f' => '\U{C}'
    case 'n' => '\n'
    case 'r' => '\r'
    case 't' => '\t'
    case _ => c
  }

  function CodeOf(a: char, b: char, c: char, d: char): char
    requires Base64.IsHex(a) && Base64.IsHex(b) && Base64.IsHex(c) && Base64.IsHex(d)
  {
    var n := ((Base64.HexValue(a) * 16 + Base64.HexValue(b)) * 16 + Base64.HexValue(c)) * 16 + Base64.HexValue(d);
    if n < 0xD800 then n as char else '?'
  }

  lemma UnescapeOne(c: char, rest: string)
    ensures Unescape(EscapeChar(c) + rest) == [c] + Unescape(rest)
  {
    var e := EscapeChar(c);
    var s := e + rest;
    if c < ' ' && c != '\n' && c != '\r' && c != '\t' && c != '\U{8}' && c != '\U{C}' {
      ControlCode(c);
      assert s[6..] == rest && s[0] == '\\' && s[1] == 'u' && s[2] == '0' && s[3] == '0' && s[4] == e[4] && s[5] == e[5];
    } else if |e| == 2 {
      assert s[2..] == rest;
    } else {
      assert s[1..] == rest;
    }
  }

  lemma ControlCode(c: char)
    requires c < ' '
    ensures var hi, lo := HexDigit(c as int / 16), HexDigit(c as int % 16);
      Base64.IsHex(hi) && Base64.IsHex(lo) && CodeOf('0', '0', hi, lo) == c
  {
  }

  /** Reading back what JSON.stringify wrote gives the hint, whatever characters it has. */
  lemma {:induction false} UnescapeInvertsEscape(s: string)
    ensures Unescape(Escape(s)) == s
  {
    if s != "" {
      UnescapeOne(s[0], Escape(s[1..]));
      UnescapeInvertsEscape(s[1..]);
    }
  }

  /** The inside of a JSON string: no control characters, and every quotation mark follows a backslash
      of its own. */
  predicate IsJsonInside(s: string) {
    if s == "" then true
    else if s[0] == '\\' then |s| >= 2 && s[1] >= ' ' && IsJsonInside(s[2..])
    else s[0] != '"' && s[0] >= ' ' && IsJsonInside(s[1..])
  }

  lemma {:induction false} EscapeIsJson(s: string)
    ensures IsJsonInside(Escape(s))
  {
    if s != "" {
      EscapeIsJson(s[1..]);
      EscapeOneIsJson(s[0], Escape(s[1..]));
    }
  }

  lemma EscapeOneIsJson(c: char, rest: string)
    requires IsJsonInside(rest)
    ensures IsJsonInside(EscapeChar(c) + rest)
  {
    var e := EscapeChar(c);
    var s := e + rest;
    if |e| == 6 {
      assert s[6..] == rest;
      assert s[5] >= ' ' && s[4] >= ' ' && s[5] != '"' && s[4] != '"' && s[5] != '\\' && s[4] != '\\';
      assert s[2..][1..] == s[3..] && s[3..][1..] == s[4..] && s[4..][1..] == s[5..] && s[5..][1..] == s[6..];
      assert IsJsonInside(s[5..]);
      assert IsJsonInside(s[4..]);
      assert IsJsonInside(s[3..]);
      assert IsJsonInside(s[2..]);
    } else if |e| == 2 {
      assert s[2..] == rest;
    } else {
      assert s[1..] == rest;
    }
  }
}
