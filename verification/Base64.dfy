/**
  Hexadecimal and Base64 text as src/toolkit/hive-codec.ts reads it: sections 8 and 4 of RFC 4648.
 */
module Base64 {
  import opened Text

  type Byte = n: int | 0 <= n < 256
  type Sextet = n: int | 0 <= n < 64

  // ---------------------------------------------------------------- Base64

  function CharOf(n: Sextet): (c: char)
    ensures c == '+' || c == '/' || 'A' <= c <= 'Z' || 'a' <= c <= 'z' || '0' <= c <= '9'
    ensures n < 26 <==> 'A' <= c <= 'Z'
  {
    if n < 26 then 'A' + n as char
    else if n < 52 then 'a' + (n - 26) as char
    else if n < 62 then '0' + (n - 52) as char
    else if n == 62 then '+' else '/'
  }

  predicate IsBase64Char(c: char) {
    'A' <= c <= 'Z' || 'a' <= c <= 'z' || '0' <= c <= '9' || c == '+' || c == '/' || c == '-' || c == '_'
  }

  /** Buffer also takes the URL-safe characters. */
  function ValueOf(c: char): Sextet
    requires IsBase64Char(c)
  {
    if 'A' <= c <= 'Z' then c as int - 'A' as int
    else if 'a' <= c <= 'z' then c as int - 'a' as int + 26
    else if '0' <= c <= '9' then c as int - '0' as int + 52
    else if c == '+' || c == '-' then 62 else 63
  }

  lemma ValueOfCharOf(n: Sextet)
    ensures IsBase64Char(CharOf(n)) && ValueOf(CharOf(n)) == n
  {
  }

  // the four sextets of three bytes, and the three bytes of four sextets

  function First(a: Byte): Sextet {
    (a as int) / 4
  }

  function Second(a: Byte, b: Byte): Sextet {
    (a as int) % 4 * 16 + (b as int) / 16
  }

  function Third(b: Byte, c: Byte): Sextet {
    (b as int) % 16 * 4 + (c as int) / 64
  }

  function Fourth(c: Byte): Sextet {
    (c as int) % 64
  }

  function High(a: Sextet, b: Sextet): Byte {
    (a as int) * 4 + (b as int) / 16
  }

  function Middle(b: Sextet, c: Sextet): Byte {
    (b as int) % 16 * 16 + (c as int) / 4
  }

  function Low(c: Sextet, d: Sextet): Byte {
    (c as int) % 4 * 64 + (d as int)
  }

  lemma ThreeBytes(a: Byte, b: Byte, c: Byte)
    ensures High(First(a), Second(a, b)) == a
    ensures Middle(Second(a, b), Third(b, c)) == b
    ensures Low(Third(b, c), Fourth(c)) == c
  {
  }

  function Encode(b: seq<Byte>): string {
    if |b| == 0 then ""
    else if |b| == 1 then [CharOf(First(b[0])), CharOf(Second(b[0], 0)), '=', '=']
    else if |b| == 2 then [CharOf(First(b[0])), CharOf(Second(b[0], b[1])), CharOf(Third(b[1], 0)), '=']
    else [CharOf(First(b[0])), CharOf(Second(b[0], b[1])), CharOf(Third(b[1], b[2])), CharOf(Fourth(b[2]))] + Encode(b[3..])
  }

  /** Characters outside the alphabet, padding among them, are skipped. */
  function Sextets(s: string): seq<Sextet> {
    if s == "" then [] else SextetOf(s[0]) + Sextets(s[1..])
  }

  function Octets(x: seq<Sextet>): seq<Byte> {
    if |x| < 2 then []
    else if |x| == 2 then [High(x[0], x[1])]
    else if |x| == 3 then [High(x[0], x[1]), Middle(x[1], x[2])]
    else [High(x[0], x[1]), Middle(x[1], x[2]), Low(x[2], x[3])] + Octets(x[4..])
  }

  /** Buffer.from(s, "base64") */
  function Decode(s: string): seq<Byte> {
    Octets(Sextets(s))
  }

  function SextetOf(c: char): seq<Sextet> {
    if IsBase64Char(c) then [ValueOf(c)] else []
  }

  lemma {:induction false} SextetsAppend(s: string, t: string)
    ensures Sextets(s + t) == Sextets(s) + Sextets(t)
  {
    hide SextetOf;
    if s == "" {
      assert s + t == t;
    } else {
      assert (s + t)[1..] == s[1..] + t;
      SextetsAppend(s[1..], t);
      assert SextetOf(s[0]) + (Sextets(s[1..]) + Sextets(t)) == SextetOf(s[0]) + Sextets(s[1..]) + Sextets(t);
    }
  }

  lemma SextetsOfChar(a: Sextet, rest: string)
    ensures Sextets([CharOf(a)] + rest) == [a] + Sextets(rest)
  {
    hide CharOf, ValueOf, IsBase64Char;
    ValueOfCharOf(a);
    assert ([CharOf(a)] + rest)[1..] == rest;
  }

  lemma SextetsOfTwo(a: Sextet, b: Sextet, rest: string)
    ensures Sextets([CharOf(a), CharOf(b)] + rest) == [a, b] + Sextets(rest)
  {
    hide Sextets, CharOf;
    SextetsOfChar(b, rest);
    SextetsOfChar(a, [CharOf(b)] + rest);
    assert [CharOf(a)] + ([CharOf(b)] + rest) == [CharOf(a), CharOf(b)] + rest;
    assert [a] + ([b] + Sextets(rest)) == [a, b] + Sextets(rest);
  }

  /** RFC 4648, section 4: decoding restores the bytes. */
  lemma {:induction false} DecodeInvertsEncode(b: seq<Byte>)
    ensures Decode(Encode(b)) == b
  {
    hide CharOf, Sextets, First, Second, Third, Fourth, High, Middle, Low;
    NoSextets();
    if |b| == 1 {
      assert Encode(b) == [CharOf(First(b[0])), CharOf(Second(b[0], 0))] + "==";
      SextetsOfTwo(First(b[0]), Second(b[0], 0), "==");
      ThreeBytes(b[0], 0, 0);
    } else if |b| == 2 {
      assert Encode(b) == [CharOf(First(b[0])), CharOf(Second(b[0], b[1]))] + ([CharOf(Third(b[1], 0))] + "=");
      SextetsOfTwo(First(b[0]), Second(b[0], b[1]), [CharOf(Third(b[1], 0))] + "=");
      SextetsOfChar(Third(b[1], 0), "=");
      ThreeBytes(b[0], b[1], 0);
    } else if |b| >= 3 {
      var x0, x1, x2, x3 := First(b[0]), Second(b[0], b[1]), Third(b[1], b[2]), Fourth(b[2]);
      var rest := Encode(b[3..]);
      assert Encode(b) == [CharOf(x0), CharOf(x1)] + ([CharOf(x2), CharOf(x3)] + rest);
      SextetsOfTwo(x0, x1, [CharOf(x2), CharOf(x3)] + rest);
      SextetsOfTwo(x2, x3, rest);
      DecodeInvertsEncode(b[3..]);
      ThreeBytes(b[0], b[1], b[2]);
      OctetsOfFour(x0, x1, x2, x3, Sextets(rest));
      assert b == [b[0], b[1], b[2]] + b[3..];
    }
  }

  lemma OctetsOfFour(x0: Sextet, x1: Sextet, x2: Sextet, x3: Sextet, rest: seq<Sextet>)
    ensures Octets([x0, x1] + ([x2, x3] + rest)) == [High(x0, x1), Middle(x1, x2), Low(x2, x3)] + Octets(rest)
  {
    var x := [x0, x1] + ([x2, x3] + rest);
    assert x[4..] == rest;
  }

  lemma NoSextets()
    ensures Sextets("") == [] && Sextets("==") == [] && Sextets("=") == []
  {
    assert "=="[1..] == "=" && "="[1..] == "";
  }

  lemma {:induction false} EncodeLength(b: seq<Byte>)
    ensures |Encode(b)| == (|b| + 2) / 3 * 4
  {
    hide CharOf, First, Second, Third, Fourth;
    if |b| >= 3 { EncodeLength(b[3..]); }
  }

  /** /^[A-Za-z0-9+/=]+$/ */
  predicate LooksBase64(s: string) {
    s != "" && forall i :: 0 <= i < |s| ==>
      (IsBase64Char(s[i]) && s[i] != '-' && s[i] != '_') || s[i] == '='
  }

  lemma {:induction false} EncodeLooksBase64(b: seq<Byte>)
    ensures b != [] ==> LooksBase64(Encode(b))
  {
    if |b| >= 3 { EncodeLooksBase64(b[3..]); }
  }

  // RFC 4648, section 4: table 1, the order of the bits, and test vectors of section 10

  lemma AlphabetLetters(n: nat)
    requires n < 26
    ensures CharOf(n) == "ABCDEFGHIJKLMNOPQRSTUVWXYZ"[n] && CharOf(26 + n) == "abcdefghijklmnopqrstuvwxyz"[n]
  {
    hide CharOf;
    assert "ABCDEFGHIJKLM" + "NOPQRSTUVWXYZ" == "ABCDEFGHIJKLMNOPQRSTUVWXYZ";
    assert "abcdefghijklm" + "nopqrstuvwxyz" == "abcdefghijklmnopqrstuvwxyz";
    if n < 13 { AlphabetHalf(n); } else { OtherHalf(n); }
  }

  lemma AlphabetHalf(n: nat)
    requires n < 13
    ensures CharOf(n) == "ABCDEFGHIJKLM"[n] && CharOf(26 + n) == "abcdefghijklm"[n]
  {
  }

  lemma OtherHalf(n: nat)
    requires 13 <= n < 26
    ensures CharOf(n) == "NOPQRSTUVWXYZ"[n - 13] && CharOf(26 + n) == "nopqrstuvwxyz"[n - 13]
  {
  }

  lemma AlphabetRest(n: nat)
    requires n < 12
    ensures CharOf(52 + n) == "0123456789+/"[n]
  {
  }

  lemma SextetsAreDigits(a: Byte, b: Byte, c: Byte)
    ensures First(a) * 0x4_0000 + Second(a, b) * 0x1000 + Third(b, c) * 0x40 + Fourth(c) == a * 0x1_0000 + b * 0x100 + c
  {
  }

  lemma TestVectors()
    ensures Encode([]) == "" && Encode([0x66]) == "Zg==" && Encode([0x66, 0x6f]) == "Zm8="
    ensures Encode([0x66, 0x6f, 0x6f]) == "Zm9v" && Encode([0x66, 0x6f, 0x6f, 0x62]) == "Zm9vYg=="
  {
    assert [0x66, 0x6f, 0x6f, 0x62][3..] == [0x62];
    assert [0x66, 0x6f, 0x6f][3..] == [];
    assert Encode([0x62]) == "Yg==";
    assert "Zm9v" + "Yg==" == "Zm9vYg==";
  }

  // ---------------------------------------------------------------- hexadecimal

  predicate IsHex(c: char) {
    '0' <= c <= '9' || 'a' <= c <= 'f' || 'A' <= c <= 'F'
  }

  function HexValue(c: char): (n: int)
    requires IsHex(c)
    ensures 0 <= n < 16
  {
    if '0' <= c <= '9' then c as int - '0' as int
    else if 'a' <= c <= 'f' then c as int - 'a' as int + 10
    else c as int - 'A' as int + 10
  }

  /** parseInt(chunk, 16), stored in a Uint8Array: NaN becomes 0, negative numbers wrap around. */
  function ParseChunk(chunk: string): Byte
    requires 1 <= |chunk| <= 2
  {
    var c := chunk[0];
    if |chunk| == 1 then (if IsHex(c) then HexValue(c) else 0)
    else
      var d := chunk[1];
      if IsHex(c) then
        if IsHex(d) then HexValue(c) * 16 + HexValue(d) else if c == '0' && (d == 'x' || d == 'X') then 0 else HexValue(c)
      else if !IsHex(d) then 0
      else if c == '-' then (256 - HexValue(d)) % 256
      else if c == '+' || IsSpace(c) then HexValue(d)
      else 0
  }

  /** The bytes of s.match(/.{1,2}/g). */
  function HexDecode(s: string): seq<Byte> {
    if s == "" then []
    else if IsTerminator(s[0]) then HexDecode(s[1..])
    else if |s| >= 2 && !IsTerminator(s[1]) then [ParseChunk(s[..2])] + HexDecode(s[2..])
    else [ParseChunk(s[..1])] + HexDecode(s[1..])
  }

  predicate IsHexPair(c: char, d: char, b: Byte) {
    IsHex(c) && IsHex(d) && HexValue(c) * 16 + HexValue(d) == b
  }

  /** RFC 4648, section 8, in either case: two digits for each byte, high digit first. */
  predicate IsHexOf(s: string, b: seq<Byte>) {
    |s| == 2 * |b| && forall i :: 0 <= i < |b| ==> IsHexPair(s[2 * i], s[2 * i + 1], b[i])
  }

  lemma PairParses(s: string, b: Byte)
    requires |s| >= 2 && IsHexPair(s[0], s[1], b)
    ensures !IsTerminator(s[0]) && !IsTerminator(s[1]) && ParseChunk(s[..2]) == b
  {
  }

  lemma {:induction false} HexDecodeRestores(s: string, b: seq<Byte>)
    requires IsHexOf(s, b)
    ensures HexDecode(s) == b
  {
    hide IsHexPair, ParseChunk, IsTerminator;
    if b != [] {
      assert IsHexPair(s[2 * 0], s[2 * 0 + 1], b[0]);
      PairParses(s, b[0]);
      var t, c := s[2..], b[1..];
      forall i | 0 <= i < |c| ensures IsHexPair(t[2 * i], t[2 * i + 1], c[i]) {
        assert IsHexPair(s[2 * (i + 1)], s[2 * (i + 1) + 1], b[i + 1]);
      }
      HexDecodeRestores(t, c);
    }
  }

  /** RFC 4648, section 8: table 5, in either case. */
  lemma HexDigits(c: char)
    requires IsHex(c)
    ensures "0123456789abcdef"[HexValue(c)] == LowerChar(c)
  {
  }

  /** A digit that is missing or foreign does not stop the decoder: such a byte reads as what parseInt
      makes of it. */
  lemma ForeignHexDigits(c: char, d: char)
    requires !IsHex(c) && c != '-' && c != '+' && !IsSpace(c)
    ensures ParseChunk([c, d]) == 0 && ParseChunk([c]) == 0
  {
  }
}
