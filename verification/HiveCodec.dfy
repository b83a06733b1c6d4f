/**
  The HIVE payload codec of src/toolkit/hive-codec.ts, with the second encoder of
  src/actions/publish-pipeline-normalize.ts.

  JSON and UTF-8 are taken as given: a `Platform` bundles stringify, parse and the text codec, and
  is `Sound` when parsing inverts stringifying and decoding inverts encoding (RFC 8259; section 3
  of RFC 3629).
 */
module HiveCodec {
  import opened Wrappers
  import opened Text
  import opened Base64

  const PREFIX: seq<Byte> := [0x48, 0x49, 0x56, 0x45]
  const PREFIX_HEX := "48495645"
  const PREFIX_STR := "HIVE"
  const HEX_LIMIT := 128 * 1024
  const ENVELOPE_LIMIT := 172 * 1024

  /** `parse` is None when the text is not JSON or not an object. */
  datatype Platform<!P> = Platform(
    stringify: P -> string, parse: string -> Option<P>,
    encodeText: string -> seq<Byte>, decodeText: seq<Byte> -> string)

  ghost predicate Sound<P(!new)>(j: Platform<P>) {
    forall p: P :: j.stringify(p) != "" && j.parse(j.stringify(p)) == Some(p)
                   && j.decodeText(j.encodeText(j.stringify(p))) == j.stringify(p)
  }

  /** What a transaction's data field may hold. Of an object the decoder looks at its string field
      `bytes`, if it has one, and at whether it carries v and one of text and action. */
  datatype Data<+P> =
    | Falsy
    | Bytes(bytes: seq<Byte>)
    | Text(text: string)
    | Tuple(items: seq<Data<P>>)
    | Object(value: P, envelope: Option<string>, direct: bool)
    | Other

  predicate HasHivePrefix(b: seq<Byte>) {
    |b| >= 4 && b[0] == 0x48 && b[1] == 0x49 && b[2] == 0x56 && b[3] == 0x45
  }

  function Payload<P>(j: Platform<P>, p: P): seq<Byte> {
    PREFIX + j.encodeText(j.stringify(p))
  }

  /** encodeHivePayload */
  method EncodeHivePayload<P>(j: Platform<P>, payload: P) returns (encoded: array<Byte>)
    ensures fresh(encoded) && encoded[..] == Payload(j, payload)
  {
    var jsonBytes := j.encodeText(j.stringify(payload));
    encoded := new Byte[4 + |jsonBytes|](_ => 0);
    SetBytes(encoded, PREFIX, 0);
    SetBytes(encoded, jsonBytes, 4);
  }

  /** encodeHivePost: the publish pipeline's encoder emits the same bytes. */
  method EncodeHivePost<P>(j: Platform<P>, post: P) returns (combined: array<Byte>)
    ensures fresh(combined) && combined[..] == Payload(j, post)
  {
    var jsonBytes := j.encodeText(j.stringify(post));
    combined := new Byte[|PREFIX| + |jsonBytes|](_ => 0);
    SetBytes(combined, PREFIX, 0);
    SetBytes(combined, jsonBytes, |PREFIX|);
  }

  /** Uint8Array.set */
  method SetBytes(a: array<Byte>, bytes: seq<Byte>, offset: nat)
    requires offset + |bytes| <= a.Length
    modifies a
    ensures a[..] == old(a[..offset]) + bytes + old(a[offset + |bytes|..])
  {
    for i := 0 to |bytes|
      invariant a[..] == old(a[..offset]) + bytes[..i] + old(a[offset + i..])
    {
      a[offset + i] := bytes[i];
    }
  }

  // ---------------------------------------------------------------- decoding

  /** Which of the three readings of a string applies; their order matters. */
  datatype Form = HexForm | RawForm | Base64Form | NoForm

  function FormOf(s: string): Form {
    if PREFIX_HEX <= Lower(s) then HexForm
    else if PREFIX_STR <= s then RawForm
    else if LooksBase64(s) && |s| >= 8 then Base64Form
    else NoForm
  }

  function ParseJson<P>(j: Platform<P>, s: string): Option<P> {
    if s == "" then None else j.parse(s)
  }

  /** The payload of bytes that start with the prefix. */
  function DecodeBytes<P>(j: Platform<P>, b: seq<Byte>): Option<P> {
    if HasHivePrefix(b) then ParseJson(j, j.decodeText(b[4..])) else None
  }

  /** decodeHiveData */
  function DecodeHiveData<P>(j: Platform<P>, data: Data<P>): Option<P> {
    match data
    case Falsy => None
    case Bytes(b) => if |b| < 4 then None else DecodeBytes(j, b)
    case Text(s) =>
      if s == "" then None
      else
        (match FormOf(s)
         case HexForm =>
           if |s| - 8 > HEX_LIMIT then None
           else LowerLength(s); ParseJson(j, j.decodeText(HexDecode(s[8..])))
         case RawForm => ParseJson(j, s[4..])
         case Base64Form => DecodeBytes(j, Base64.Decode(s))
         case NoForm => None)
    case Tuple(items) =>
      if |items| >= 2 && items[0] == Text("storage") then DecodeHiveData(j, items[1]) else None
    case Object(value, envelope, direct) =>
      if envelope.Some? && 8 <= |envelope.value| <= ENVELOPE_LIMIT then DecodeBytes(j, Base64.Decode(envelope.value))
      else if direct then Some(value)
      else None
    case Other => None
  }

  lemma LowerLength(s: string)
    ensures |Lower(s)| == |s|
  {
  }

  // ---------------------------------------------------------------- round trips

  lemma PayloadPrefixed<P(!new)>(j: Platform<P>, p: P)
    requires Sound(j)
    ensures HasHivePrefix(Payload(j, p)) && DecodeBytes(j, Payload(j, p)) == Some(p)
  {
    assert Payload(j, p)[4..] == j.encodeText(j.stringify(p));
  }

  lemma BytesRoundTrip<P(!new)>(j: Platform<P>, p: P)
    requires Sound(j)
    ensures DecodeHiveData(j, Bytes(Payload(j, p))) == Some(p)
  {
    PayloadPrefixed(j, p);
  }

  /** A hex text of a payload, in upper or lower case, starts with the prefix's digits. */
  lemma HexOfPayload<P>(j: Platform<P>, p: P, s: string)
    requires IsHexOf(s, Payload(j, p))
    ensures FormOf(s) == HexForm && |s| >= 8 && IsHexOf(s[8..], j.encodeText(j.stringify(p)))
  {
    var b, rest := Payload(j, p), j.encodeText(j.stringify(p));
    assert IsHexPair(s[2 * 0], s[2 * 0 + 1], b[0]) && IsHexPair(s[2 * 1], s[2 * 1 + 1], b[1]);
    assert IsHexPair(s[2 * 2], s[2 * 2 + 1], b[2]) && IsHexPair(s[2 * 3], s[2 * 3 + 1], b[3]);
    DigitPair(s[0], s[1], 4, 8);
    DigitPair(s[2], s[3], 4, 9);
    DigitPair(s[4], s[5], 5, 6);
    DigitPair(s[6], s[7], 4, 5);
    assert Lower(s)[..8] == PREFIX_HEX;
    forall i | 0 <= i < |rest| ensures IsHexPair(s[8..][2 * i], s[8..][2 * i + 1], rest[i]) {
      assert IsHexPair(s[2 * (i + 4)], s[2 * (i + 4) + 1], b[i + 4]);
    }
  }

  lemma DigitPair(c: char, d: char, x: int, y: int)
    requires 0 <= x < 10 && 0 <= y < 10 && IsHexPair(c, d, x * 16 + y)
    ensures c == '0' + x as char && d == '0' + y as char
  {
  }

  /** Hex text gives the payload back exactly when it is within the size limit, and null beyond it. */
  lemma HexRoundTrip<P(!new)>(j: Platform<P>, p: P, s: string)
    requires Sound(j) && IsHexOf(s, Payload(j, p))
    ensures DecodeHiveData(j, Text(s)) == if |j.encodeText(j.stringify(p))| <= 64 * 1024 then Some(p) else None
  {
    HexOfPayload(j, p, s);
    HexDecodeRestores(s[8..], j.encodeText(j.stringify(p)));
  }

  /** Base64 text of a payload starts "SElW", so neither the hex nor the raw test takes it. */
  lemma Base64OfPayload<P>(j: Platform<P>, p: P)
    ensures FormOf(Encode(Payload(j, p))) == Base64Form
  {
    var b := Payload(j, p);
    var s := Encode(b);
    EncodeLength(b);
    EncodeLooksBase64(b);
    assert |b| >= 4;
    assert s[0] == CharOf(First(0x48)) == 'S';
    assert Lower(s)[0] == 's';
  }

  lemma Base64RoundTrip<P(!new)>(j: Platform<P>, p: P)
    requires Sound(j)
    ensures DecodeHiveData(j, Text(Encode(Payload(j, p)))) == Some(p)
  {
    Base64OfPayload(j, p);
    DecodeInvertsEncode(Payload(j, p));
    PayloadPrefixed(j, p);
  }

  lemma RawRoundTrip<P(!new)>(j: Platform<P>, p: P)
    requires Sound(j)
    ensures FormOf(PREFIX_STR + j.stringify(p)) == RawForm
    ensures DecodeHiveData(j, Text(PREFIX_STR + j.stringify(p))) == Some(p)
  {
    var s := PREFIX_STR + j.stringify(p);
    assert Lower(s)[0] == 'h';
    assert s[4..] == j.stringify(p);
  }

  /** The storage envelope gives the payload back exactly when its Base64 text is within the limit;
      beyond it the envelope counts as a pre-decoded object if it looks like one. */
  lemma EnvelopeRoundTrip<P(!new)>(j: Platform<P>, p: P, envelope: P, direct: bool)
    requires Sound(j)
    ensures DecodeHiveData(j, Object(envelope, Some(Encode(Payload(j, p))), direct)) ==
      if |Encode(Payload(j, p))| <= ENVELOPE_LIMIT then Some(p) else if direct then Some(envelope) else None
  {
    EncodeLength(Payload(j, p));
    DecodeInvertsEncode(Payload(j, p));
    PayloadPrefixed(j, p);
  }

  /** Wrapping data as ["storage", data, ...] any number of times. */
  function Wrap<P>(data: Data<P>, tails: seq<seq<Data<P>>>): Data<P> {
    if tails == [] then data else Tuple([Text("storage"), Wrap(data, tails[1..])] + tails[0])
  }

  lemma {:induction false} WrappingIsTransparent<P>(j: Platform<P>, data: Data<P>, tails: seq<seq<Data<P>>>)
    ensures DecodeHiveData(j, Wrap(data, tails)) == DecodeHiveData(j, data)
  {
    if tails != [] {
      WrappingIsTransparent(j, data, tails[1..]);
      var items := [Text("storage"), Wrap(data, tails[1..])] + tails[0];
      assert items[0] == Text("storage") && items[1] == Wrap(data, tails[1..]);
    }
  }

  /** The accepted encodings of a payload, within their size limits. */
  ghost predicate Encodes<P>(j: Platform<P>, data: Data<P>, p: P) {
    match data
    case Bytes(b) => b == Payload(j, p)
    case Text(s) =>
      || (IsHexOf(s, Payload(j, p)) && |j.encodeText(j.stringify(p))| <= 64 * 1024)
      || s == PREFIX_STR + j.stringify(p)
      || s == Encode(Payload(j, p))
    case Object(_, envelope, _) => envelope == Some(Encode(Payload(j, p))) && |Encode(Payload(j, p))| <= ENVELOPE_LIMIT
    case _ => false
  }

  /** Whatever accepted encoding a payload travels in, and however often it is wrapped, decoding
      gives it back. */
  lemma EveryEncodingDecodes<P(!new)>(j: Platform<P>, data: Data<P>, p: P, tails: seq<seq<Data<P>>>)
    requires Sound(j) && Encodes(j, data, p)
    ensures DecodeHiveData(j, Wrap(data, tails)) == Some(p)
  {
    hide FormOf, Payload;
    WrappingIsTransparent(j, data, tails);
    match data
    case Bytes(_) => BytesRoundTrip(j, p);
    case Text(s) =>
      if s == PREFIX_STR + j.stringify(p) {
        RawRoundTrip(j, p);
      } else if s == Encode(Payload(j, p)) {
        Base64RoundTrip(j, p);
      } else {
        HexRoundTrip(j, p, s);
      }
    case Object(value, _, direct) => EnvelopeRoundTrip(j, p, value, direct);
  }

  /** So no data encodes two payloads: no encoding is mistaken for another's. */
  lemma EncodingsDoNotClash<P(!new)>(j: Platform<P>, data: Data<P>, p: P, q: P)
    requires Sound(j) && Encodes(j, data, p) && Encodes(j, data, q)
    ensures p == q
  {
    EveryEncodingDecodes(j, data, p, []);
    EveryEncodingDecodes(j, data, q, []);
  }

  // ---------------------------------------------------------------- what is not HIVE data

  /** The bytes are HIVE data of the payload: the four letters, and then its JSON. */
  ghost predicate AreHive<P>(j: Platform<P>, b: seq<Byte>, p: P) {
    && |b| >= 4 && b[..4] == [0x48, 0x49, 0x56, 0x45]
    && j.decodeText(b[4..]) != "" && j.parse(j.decodeText(b[4..])) == Some(p)
  }

  /** The data carries the payload, in one of the ways the decoder knows; strings by what they start
      with and what they are made of. */
  ghost predicate Carries<P>(j: Platform<P>, data: Data<P>, p: P) {
    match data
    case Bytes(b) => AreHive(j, b, p)
    case Text(s) =>
      if StartsWith(s, "48495645") then
        |s| <= 8 + 131_072 && j.decodeText(HexDecode(s[8..])) != "" && j.parse(j.decodeText(HexDecode(s[8..]))) == Some(p)
      else if StartsWith(s, "HIVE") then
        |s| > 4 && j.parse(s[4..]) == Some(p)
      else
        |s| >= 8 && AreHive(j, Base64.Decode(s), p)
        && forall i :: 0 <= i < |s| ==>
             'A' <= s[i] <= 'Z' || 'a' <= s[i] <= 'z' || '0' <= s[i] <= '9' || s[i] == '+' || s[i] == '/' || s[i] == '='
    case Tuple(items) => |items| >= 2 && items[0] == Text("storage") && Carries(j, items[1], p)
    case Object(value, envelope, direct) =>
      if envelope.Some? && 8 <= |envelope.value| <= 176_128 then AreHive(j, Base64.Decode(envelope.value), p)
      else direct && value == p
    case _ => false
  }

  predicate StartsWith(s: string, start: string) {
    |start| <= |s| && s[..|start|] == start
  }

  lemma HexPrefixIsDigits(s: string)
    ensures PREFIX_HEX <= Lower(s) <==> StartsWith(s, "48495645")
  {
    if |s| >= 8 {
      forall i | 0 <= i < 8 ensures Lower(s)[i] == PREFIX_HEX[i] <==> s[i] == PREFIX_HEX[i] {
      }
      if StartsWith(s, "48495645") {
        forall i | 0 <= i < 8 ensures s[i] == PREFIX_HEX[i] {
          assert s[..8][i] == s[i];
        }
        assert Lower(s)[..8] == PREFIX_HEX;
      }
      if PREFIX_HEX <= Lower(s) {
        forall i | 0 <= i < 8 ensures s[i] == PREFIX_HEX[i] {
          assert Lower(s)[..8][i] == Lower(s)[i];
        }
        assert s[..8] == PREFIX_HEX;
      }
    }
  }

  lemma BytesDecodeExactly<P>(j: Platform<P>, b: seq<Byte>, p: P)
    ensures DecodeBytes(j, b) == Some(p) <==> AreHive(j, b, p)
  {
    if |b| >= 4 { assert b[..4] == [b[0], b[1], b[2], b[3]]; }
  }

  /** The decoder gives a payload exactly for data that carries it; everything else gives null. */
  lemma {:induction false} DecodesExactly<P>(j: Platform<P>, data: Data<P>, p: P)
    ensures DecodeHiveData(j, data) == Some(p) <==> Carries(j, data, p)
  {
    hide AreHive, DecodeBytes;
    match data
    case Bytes(b) =>
      BytesDecodeExactly(j, b, p);
      if |b| < 4 { ShortBytes(j, b, p); }
    case Text(s) => TextDecodesExactly(j, s, p);
    case Tuple(items) =>
      if |items| >= 2 && items[0] == Text("storage") { DecodesExactly(j, items[1], p); }
    case Object(_, envelope, _) =>
      if envelope.Some? { BytesDecodeExactly(j, Base64.Decode(envelope.value), p); }
    case _ =>
  }

  lemma ShortBytes<P>(j: Platform<P>, b: seq<Byte>, p: P)
    requires |b| < 4
    ensures !AreHive(j, b, p)
  {
  }

  lemma TextDecodesExactly<P>(j: Platform<P>, s: string, p: P)
    ensures DecodeHiveData(j, Text(s)) == Some(p) <==> Carries(j, Text(s), p)
  {
    hide AreHive, DecodeBytes, HexDecode, Base64.Decode;
    HexPrefixIsDigits(s);
    BytesDecodeExactly(j, Base64.Decode(s), p);
    assert PREFIX_STR <= s <==> StartsWith(s, "HIVE");
  }

  /** Bytes of a foreign transaction give null, as they are or in an envelope, and so does their Base64
      text unless it happens to start like one of the other two string forms. */
  lemma ForeignBytesAreRefused<P>(j: Platform<P>, b: seq<Byte>, envelope: P, direct: bool, tails: seq<seq<Data<P>>>)
    requires !(|b| >= 4 && b[..4] == [0x48, 0x49, 0x56, 0x45])
    ensures DecodeHiveData(j, Wrap(Bytes(b), tails)) == None
    ensures 8 <= |Encode(b)| <= 176_128 ==> DecodeHiveData(j, Wrap(Object(envelope, Some(Encode(b)), direct), tails)) == None
    ensures !StartsWith(Encode(b), "48495645") && !StartsWith(Encode(b), "HIVE") ==>
      DecodeHiveData(j, Wrap(Text(Encode(b)), tails)) == None
  {
    WrappingIsTransparent(j, Bytes(b), tails);
    WrappingIsTransparent(j, Object(envelope, Some(Encode(b)), direct), tails);
    WrappingIsTransparent(j, Text(Encode(b)), tails);
    DecodeInvertsEncode(b);
    NeverHive(j, Bytes(b));
    NeverHive(j, Object(envelope, Some(Encode(b)), direct));
    NeverHive(j, Text(Encode(b)));
  }

  /** If no payload is carried the result is null. */
  lemma NeverHive<P>(j: Platform<P>, data: Data<P>)
    ensures DecodeHiveData(j, data).Some? ==> Carries(j, data, DecodeHiveData(j, data).value)
  {
    if DecodeHiveData(j, data).Some? { DecodesExactly(j, data, DecodeHiveData(j, data).value); }
  }

  /** An object without a `bytes` string gives itself exactly when it looks pre-decoded. */
  lemma ObjectWithoutEnvelope<P>(j: Platform<P>, value: P, direct: bool, tails: seq<seq<Data<P>>>)
    ensures DecodeHiveData(j, Wrap(Object(value, None, direct), tails)) == if direct then Some(value) else None
  {
    WrappingIsTransparent(j, Object(value, None, direct), tails);
  }
}
