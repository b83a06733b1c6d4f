/**
  Text as the modelled code handles it: characters, case folding (addresses and hint keywords are
  ASCII), and String.split with its inverse.
 */
module Text {

  function LowerChar(c: char): char {
    if 'A' <= c <= 'Z' then c - 'A' + 'a' else c
  }

  /** toLowerCase */
  function Lower(s: string): string {
    seq(|s|, i requires 0 <= i < |s| => LowerChar(s[i]))
  }

  /** Letters lose their case, and nothing else changes. */
  lemma LowerIsExact(c: char)
    ensures c in "ABCDEFGHIJKLMNOPQRSTUVWXYZ" ==> LowerChar(c) as int == c as int + 32
    ensures c !in "ABCDEFGHIJKLMNOPQRSTUVWXYZ" ==> LowerChar(c) == c
  {
    Capitals(c);
  }

  lemma Capitals(c: char)
    ensures c in "ABCDEFGHIJKLMNOPQRSTUVWXYZ" <==> 65 <= c as int <= 90
  {
    var capitals := "ABCDEFGHIJKLMNOPQRSTUVWXYZ";
    if 'A' <= c <= 'Z' { assert capitals[c as int - 65] == c; }
  }

  lemma LowerTwice(s: string)
    ensures Lower(Lower(s)) == Lower(s)
  {
  }

  /** \s of a JavaScript regular expression, which is also what trim() removes. */
  predicate IsSpace(c: char) {
    c == ' ' || c == '\t' || c == '\n' || c == '\r' || c == '\U{B}' || c == '\U{C}' || c == '\U{A0}'
    || c == '\U{1680}' || '\U{2000}' <= c <= '\U{200A}' || c == '\U{2028}' || c == '\U{2029}'
    || c == '\U{202F}' || c == '\U{205F}' || c == '\U{3000}' || c == '\U{FEFF}'
  }

  /** What `.` does not match. */
  predicate IsTerminator(c: char) {
    c == '\n' || c == '\r' || c == '\U{2028}' || c == '\U{2029}'
  }

  // ---------------------------------------------------------------- split and join

  /** `cur` put in front of the first of `parts`. */
  function Attach(cur: string, parts: seq<string>): seq<string> {
    if parts == [] then [cur] else [cur + parts[0]] + parts[1..]
  }

  function Join(parts: seq<string>, sep: char): string {
    if parts == [] then [] else if |parts| == 1 then parts[0] else parts[0] + [sep] + Join(parts[1..], sep)
  }

  lemma JoinAttach(cur: string, parts: seq<string>, sep: char)
    requires parts != []
    ensures Join(Attach(cur, parts), sep) == cur + Join(parts, sep)
  {
    if |parts| > 1 {
      assert Attach(cur, parts)[1..] == parts[1..];
      assert cur + parts[0] + [sep] + Join(parts[1..], sep) == cur + (parts[0] + [sep] + Join(parts[1..], sep));
    }
  }

  lemma AttachTwice(a: string, b: string, parts: seq<string>)
    requires parts != []
    ensures Attach(a, Attach(b, parts)) == Attach(a + b, parts)
  {
    assert a + (b + parts[0]) == a + b + parts[0];
  }

  lemma AttachEmpty(cur: string, parts: seq<string>)
    requires parts != []
    ensures Attach("", parts) == parts && Attach(cur, [""] + parts) == [cur] + parts
  {
    assert "" + parts[0] == parts[0] && cur + "" == cur;
  }

  /** String.split of a one-character separator. */
  function SplitOn(s: string, sep: char): (parts: seq<string>)
    ensures parts != []
  {
    if s == [] then [""]
    else if s[0] == sep then [""] + SplitOn(s[1..], sep)
    else Attach([s[0]], SplitOn(s[1..], sep))
  }

  predicate Lacks(s: string, c: char) {
    forall i :: 0 <= i < |s| ==> s[i] != c
  }

  predicate AllLack(parts: seq<string>, c: char) {
    forall i :: 0 <= i < |parts| ==> Lacks(parts[i], c)
  }

  lemma {:induction false} JoinInvertsSplitOn(s: string, sep: char)
    ensures Join(SplitOn(s, sep), sep) == s && AllLack(SplitOn(s, sep), sep)
  {
    if s != [] {
      var rest := SplitOn(s[1..], sep);
      JoinInvertsSplitOn(s[1..], sep);
      JoinAttach([s[0]], rest, sep);
      assert ([""] + rest)[1..] == rest;
      assert "" + [sep] + Join(rest, sep) == [sep] + Join(rest, sep);
      assert s == [s[0]] + s[1..];
    }
  }

  lemma {:induction false} SplitOnPrefixed(cur: string, rest: string, sep: char)
    requires Lacks(cur, sep)
    ensures SplitOn(cur + rest, sep) == Attach(cur, SplitOn(rest, sep))
  {
    if cur == [] {
      assert cur + rest == rest;
      AttachEmpty("", SplitOn(rest, sep));
    } else {
      assert (cur + rest)[1..] == cur[1..] + rest;
      SplitOnPrefixed(cur[1..], rest, sep);
      AttachTwice([cur[0]], cur[1..], SplitOn(rest, sep));
      assert [cur[0]] + cur[1..] == cur;
    }
  }

  lemma {:induction false} SplitOnInvertsJoin(parts: seq<string>, sep: char)
    requires parts != [] && AllLack(parts, sep)
    ensures SplitOn(Join(parts, sep), sep) == parts
  {
    assert Lacks(parts[0], sep);
    if |parts| == 1 {
      SplitOnPrefixed(parts[0], "", sep);
      assert parts[0] + "" == parts[0];
    } else {
      var rest := Join(parts[1..], sep);
      SplitOnInvertsJoin(parts[1..], sep);
      assert Join(parts, sep) == parts[0] + ([sep] + rest);
      SplitOnPrefixed(parts[0], [sep] + rest, sep);
      assert ([sep] + rest)[1..] == rest;
      AttachEmpty(parts[0], parts[1..]);
    }
  }
}
