/**
 * Base64 as used by the mail front end: the URL-safe alphabet of section 5 of
 * RFC 4648 is rewritten into the standard alphabet of section 4, padded with
 * `=` to a multiple of four characters, and decoded as standard base64.
 * `decodeBase64Url` in heymail/src/gmailApi.ts.
 */
module Base64 {
  import opened Wrappers

  type Byte = b: int | 0 <= b < 256
  type Sextet = v: int | 0 <= v < 64

  /** The character of the standard alphabet that encodes a 6-bit value. */
  function StdChar(v: Sextet): char
  {
    if v < 26 then ('A' as int + v) as char
    else if v < 52 then ('a' as int + (v - 26)) as char
    else if v < 62 then ('0' as int + (v - 52)) as char
    else if v == 62 then '+'
    else '/'
  }

  /** The 6-bit value of a standard-alphabet character, or None for any other character (including `=`). */
  function StdValue(c: char): (r: Option<Sextet>)
    ensures r.Some? ==> StdChar(r.value) == c
    ensures r.Some? ==> c != '=' && c != '-' && c != '_'
  {
    if 'A' <= c <= 'Z' then Some(c as int - 'A' as int)
    else if 'a' <= c <= 'z' then Some(c as int - 'a' as int + 26)
    else if '0' <= c <= '9' then Some(c as int - '0' as int + 52)
    else if c == '+' then Some(62)
    else if c == '/' then Some(63)
    else None
  }

  lemma StdValueOfChar(v: Sextet)
    ensures StdValue(StdChar(v)) == Some(v)
  {
  }

  predicate IsStdText(s: string)
  {
    forall i :: 0 <= i < |s| ==> StdValue(s[i]).Some?
  }

  // ---------------------------------------------------------------------------
  // Step 1: alphabet rewrite, `str.replace(/-/g, "+").replace(/_/g, "/")`.

  function UrlCharToStd(c: char): char
  {
    if c == '-' then '+' else if c == '_' then '/' else c
  }

  /** Rewrites every `-` to `+` and every `_` to `/`, leaving every other character in place. */
  function UrlToStandard(s: string): (r: string)
    ensures |r| == |s|
    ensures forall i :: 0 <= i < |s| ==>
              r[i] == (if s[i] == '-' then '+' else if s[i] == '_' then '/' else s[i])
  {
    if s == [] then [] else [UrlCharToStd(s[0])] + UrlToStandard(s[1..])
  }

  // ---------------------------------------------------------------------------
  // Step 2: padding, `while (str.length % 4) str += "="`.

  /** How many `=` make a string of length n a whole number of quads. */
  function PadCount(n: nat): nat
  {
    (4 - n % 4) % 4
  }

  function Padding(k: nat): (r: string)
    ensures |r| == k && forall i :: 0 <= i < k ==> r[i] == '='
  {
    seq(k, _ => '=')
  }

  /** The string the padding loop leaves behind. */
  function Padded(s: string): string
  {
    s + Padding(PadCount(|s|))
  }

  method PadToQuad(s: string) returns (p: string)
    ensures p == Padded(s)
    ensures |p| % 4 == 0 && |s| <= |p| <= |s| + 3
    ensures p[..|s|] == s && forall i :: |s| <= i < |p| ==> p[i] == '='
    ensures |s| % 4 == 0 ==> p == s
  {
    p := s;
    while |p| % 4 != 0
      invariant |s| <= |p| <= |s| + PadCount(|s|)
      invariant p == s + Padding(|p| - |s|)
      decreases |s| + PadCount(|s|) - |p|
    {
      assert Padding(|p| - |s|) + "=" == Padding(|p| + 1 - |s|);
      p := p + "=";
    }
  }

  // ---------------------------------------------------------------------------
  // Step 3: standard decoding, `Buffer.from(str, "base64")` on well-formed input.

  /** The three bytes carried by four 6-bit values. */
  function GroupBytes(a: Sextet, b: Sextet, c: Sextet, d: Sextet): seq<Byte>
  {
    [a * 4 + b / 16, (b % 16) * 16 + c / 4, (c % 4) * 64 + d]
  }

  /** A quad that is not the last one: four alphabet characters. */
  function DecodeGroup(c0: char, c1: char, c2: char, c3: char): Option<seq<Byte>>
  {
    match (StdValue(c0), StdValue(c1), StdValue(c2), StdValue(c3))
    case (Some(a), Some(b), Some(c), Some(d)) => Some(GroupBytes(a, b, c, d))
    case _ => None
  }

  /** The last quad, which may end in `==` (one byte) or `=` (two bytes). */
  function DecodeFinal(c0: char, c1: char, c2: char, c3: char): (r: Option<seq<Byte>>)
    ensures r.Some? ==> r.value != []
  {
    match (StdValue(c0), StdValue(c1))
    case (Some(a), Some(b)) =>
      if c2 == '=' && c3 == '=' then Some([a * 4 + b / 16])
      else if c3 == '=' then
        (match StdValue(c2)
         case Some(c) => Some([a * 4 + b / 16, (b % 16) * 16 + c / 4])
         case None => None)
      else DecodeGroup(c0, c1, c2, c3)
    case _ => None
  }

  /**
   * Decodes a standard base64 string whose length is a multiple of four; only
   * the last quad may end in `=` or `==`. Any other input is malformed (None).
   */
  function DecodeStd(s: string): (r: Option<seq<Byte>>)
    ensures r.Some? && s != [] ==> r.value != []
    decreases |s|
  {
    if |s| % 4 != 0 then None
    else if s == [] then Some([])
    else if |s| == 4 then DecodeFinal(s[0], s[1], s[2], s[3])
    else
      match DecodeGroup(s[0], s[1], s[2], s[3])
      case None => None
      case Some(group) =>
        match DecodeStd(s[4..])
        case None => None
        case Some(rest) => Some(group + rest)
  }

  /** The bytes `decodeBase64Url` recovers, or None when the padded text is not well-formed base64. */
  function DecodeUrl(s: string): Option<seq<Byte>>
  {
    DecodeStd(Padded(UrlToStandard(s)))
  }

  /**
   * `Buffer.toString("utf-8")`, modelled as one character per byte (exact for
   * ASCII).
   */
  function BytesToText(bytes: seq<Byte>): (r: string)
    ensures |r| == |bytes|
  {
    seq(|bytes|, i requires 0 <= i < |bytes| => bytes[i] as char)
  }

  /** The text of base64url data; malformed data decodes to no text at all. */
  function DecodeText(s: string): string
  {
    match DecodeUrl(s)
    case Some(bytes) => BytesToText(bytes)
    case None => ""
  }

  /** `decodeBase64Url`: rewrite the alphabet, pad in a loop, decode. */
  method DecodeBase64Url(str: string) returns (text: string)
    ensures text == DecodeText(str)
    ensures str != "" && DecodeUrl(str).Some? ==> text != ""
  {
    var s := UrlToStandard(str);
    s := PadToQuad(s);
    match DecodeStd(s)
    case Some(bytes) => text := BytesToText(bytes);
    case None => text := "";
  }

  /** Well-formed, non-empty base64url data never decodes to the empty text. */
  lemma WellFormedDecodesNonEmpty(s: string)
    requires s != "" && DecodeUrl(s).Some?
    ensures DecodeText(s) != ""
  {
    assert Padded(UrlToStandard(s)) != [];
  }

  // ---------------------------------------------------------------------------
  // The encoder the round trip is stated against.

  /** The four characters of one quad. */
  function QuadChars(a: Sextet, b: Sextet, c: Sextet, d: Sextet): string
  {
    [StdChar(a), StdChar(b), StdChar(c), StdChar(d)]
  }

  /** The four characters that encode three bytes. */
  function GroupChars(x: Byte, y: Byte, z: Byte): string
  {
    QuadChars(x / 4, (x % 4) * 16 + y / 16, (y % 16) * 4 + z / 64, z % 64)
  }

  /** Standard base64 of the bytes, without its trailing padding. */
  function EncodeUnpadded(bytes: seq<Byte>): string
    decreases |bytes|
  {
    if |bytes| == 0 then ""
    else if |bytes| == 1 then
      [StdChar(bytes[0] / 4), StdChar((bytes[0] % 4) * 16)]
    else if |bytes| == 2 then
      [StdChar(bytes[0] / 4), StdChar((bytes[0] % 4) * 16 + bytes[1] / 16), StdChar((bytes[1] % 16) * 4)]
    else
      GroupChars(bytes[0], bytes[1], bytes[2]) + EncodeUnpadded(bytes[3..])
  }

  /** Standard base64 (section 4 of RFC 4648), padded to whole quads. */
  function Encode(bytes: seq<Byte>): string
  {
    Padded(EncodeUnpadded(bytes))
  }

  /** The unpadded encoding uses nothing but the 64 alphabet characters. */
  lemma {:induction false} EncodeUnpaddedIsStd(bytes: seq<Byte>)
    ensures IsStdText(EncodeUnpadded(bytes))
    decreases |bytes|
  {
    var u := EncodeUnpadded(bytes);
    if |bytes| == 1 {
      StdValueOfChar(bytes[0] / 4);
      StdValueOfChar((bytes[0] % 4) * 16);
    } else if |bytes| == 2 {
      StdValueOfChar(bytes[0] / 4);
      StdValueOfChar((bytes[0] % 4) * 16 + bytes[1] / 16);
      StdValueOfChar((bytes[1] % 16) * 4);
    } else if |bytes| >= 3 {
      var g := GroupChars(bytes[0], bytes[1], bytes[2]);
      var u' := EncodeUnpadded(bytes[3..]);
      EncodeUnpaddedIsStd(bytes[3..]);
      StdValueOfChar(bytes[0] / 4);
      StdValueOfChar((bytes[0] % 4) * 16 + bytes[1] / 16);
      StdValueOfChar((bytes[1] % 16) * 4 + bytes[2] / 64);
      StdValueOfChar(bytes[2] % 64);
      assert IsStdText(g);
      forall i | 0 <= i < |u| ensures StdValue(u[i]).Some? {
        if i >= 4 { assert u[i] == u'[i - 4]; }
      }
    }
  }

  function StdCharToUrl(c: char): char
  {
    if c == '+' then '-' else if c == '/' then '_' else c
  }

  /** The URL-safe alphabet of section 5 of RFC 4648. */
  function ToUrlSafe(s: string): (r: string)
    ensures |r| == |s|
    ensures forall i :: 0 <= i < |s| ==> r[i] == StdCharToUrl(s[i])
  {
    if s == [] then [] else [StdCharToUrl(s[0])] + ToUrlSafe(s[1..])
  }

  /** Removes every trailing `=`. */
  function StripPadding(s: string): (r: string)
    ensures |r| <= |s| && r == s[..|r|]
    ensures forall i :: |r| <= i < |s| ==> s[i] == '='
    ensures r == [] || r[|r| - 1] != '='
    decreases |s|
  {
    if |s| > 0 && s[|s| - 1] == '=' then StripPadding(s[..|s| - 1]) else s
  }

  // ---------------------------------------------------------------------------
  // Round trip.

  /** The bit-level arithmetic of one encoded group, undone by the decoder. */
  lemma GroupArithmetic(x: Byte, y: Byte, z: Byte)
    ensures (x / 4) * 4 + ((x % 4) * 16 + y / 16) / 16 == x
    ensures (((x % 4) * 16 + y / 16) % 16) * 16 + ((y % 16) * 4 + z / 64) / 4 == y
    ensures (((y % 16) * 4 + z / 64) % 4) * 64 + z % 64 == z
  {
    assert ((x % 4) * 16 + y / 16) / 16 == x % 4;
    assert ((x % 4) * 16 + y / 16) % 16 == y / 16;
    assert ((y % 16) * 4 + z / 64) / 4 == y % 16;
    assert ((y % 16) * 4 + z / 64) % 4 == z / 64;
  }

  lemma GroupBytesOfChars(x: Byte, y: Byte, z: Byte)
    ensures GroupBytes(x / 4, (x % 4) * 16 + y / 16, (y % 16) * 4 + z / 64, z % 64) == [x, y, z]
  {
    GroupArithmetic(x, y, z);
  }

  lemma DecodeSingle(x: Byte)
    ensures DecodeStd(Encode([x])) == Some([x])
  {
    var s := Encode([x]);
    GroupArithmetic(x, 0, 0);
    StdValueOfChar(x / 4);
    StdValueOfChar((x % 4) * 16);
    assert s == [StdChar(x / 4), StdChar((x % 4) * 16), '=', '='];
  }

  lemma DecodePair(x: Byte, y: Byte)
    ensures DecodeStd(Encode([x, y])) == Some([x, y])
  {
    var s := Encode([x, y]);
    GroupArithmetic(x, y, 0);
    StdValueOfChar(x / 4);
    StdValueOfChar((x % 4) * 16 + y / 16);
    StdValueOfChar((y % 16) * 4);
    assert s == [StdChar(x / 4), StdChar((x % 4) * 16 + y / 16), StdChar((y % 16) * 4), '='];
  }

  /** Four alphabet characters form a group, whether or not it is the last one. */
  lemma GroupOfChars(a: Sextet, b: Sextet, c: Sextet, d: Sextet)
    ensures DecodeGroup(StdChar(a), StdChar(b), StdChar(c), StdChar(d)) == Some(GroupBytes(a, b, c, d))
    ensures DecodeFinal(StdChar(a), StdChar(b), StdChar(c), StdChar(d)) == Some(GroupBytes(a, b, c, d))
  {
    StdValueOfChar(a);
    StdValueOfChar(b);
    StdValueOfChar(c);
    StdValueOfChar(d);
  }

  /** A quad of four alphabet characters decodes to its three bytes, followed by the rest. */
  lemma DecodeFullQuad(a: Sextet, b: Sextet, c: Sextet, d: Sextet, t: string, rest: seq<Byte>)
    requires |t| % 4 == 0 && DecodeStd(t) == Some(rest)
    ensures DecodeStd(QuadChars(a, b, c, d) + t) == Some(GroupBytes(a, b, c, d) + rest)
  {
    var q := QuadChars(a, b, c, d);
    GroupOfChars(a, b, c, d);
    if t == [] {
      assert q + t == q;
      assert rest == [] && GroupBytes(a, b, c, d) + rest == GroupBytes(a, b, c, d);
    } else {
      DecodeQuadBeforeRest(q, t);
    }
  }

  /** In front of further quads, a quad must decode as a group, and the rest decodes on its own. */
  lemma DecodeQuadBeforeRest(q: string, t: string)
    requires |q| == 4 && |t| % 4 == 0 && t != []
    ensures DecodeStd(q + t) ==
      match DecodeGroup(q[0], q[1], q[2], q[3])
      case None => None
      case Some(group) =>
        match DecodeStd(t)
        case None => None
        case Some(rest) => Some(group + rest)
  {
    var s := q + t;
    assert s[0] == q[0] && s[1] == q[1] && s[2] == q[2] && s[3] == q[3];
    assert s[4..] == t;
    assert |s| == |t| + 4 && |s| % 4 == 0 && |s| != 4;
  }

  /** A full group of three bytes in front of well-formed text decodes back to those bytes. */
  lemma DecodeQuad(x: Byte, y: Byte, z: Byte, t: string, rest: seq<Byte>)
    requires |t| % 4 == 0 && DecodeStd(t) == Some(rest)
    ensures DecodeStd(GroupChars(x, y, z) + t) == Some([x, y, z] + rest)
  {
    var a, b, c, d := x / 4, (x % 4) * 16 + y / 16, (y % 16) * 4 + z / 64, z % 64;
    assert GroupChars(x, y, z) == QuadChars(a, b, c, d);
    GroupBytesOfChars(x, y, z);
    var g := GroupBytes(a, b, c, d);
    assert g == [x, y, z];
    DecodeFullQuad(a, b, c, d, t, rest);
    assert g + rest == [x, y, z] + rest;
  }

  /** Encoding a group of three bytes emits its quad in front of the encoding of the rest. */
  lemma EncodeGroup(bytes: seq<Byte>)
    requires |bytes| >= 3
    ensures Encode(bytes) == GroupChars(bytes[0], bytes[1], bytes[2]) + Encode(bytes[3..])
  {
    var g := GroupChars(bytes[0], bytes[1], bytes[2]);
    var u' := EncodeUnpadded(bytes[3..]);
    assert EncodeUnpadded(bytes) == g + u';
    assert PadCount(|g + u'|) == PadCount(|u'|);
    assert Padded(g + u') == g + Padded(u');
  }

  lemma {:induction false} DecodeEncode(bytes: seq<Byte>)
    ensures DecodeStd(Encode(bytes)) == Some(bytes)
    decreases |bytes|
  {
    if |bytes| == 0 {
    } else if |bytes| == 1 {
      assert bytes == [bytes[0]];
      DecodeSingle(bytes[0]);
    } else if |bytes| == 2 {
      assert bytes == [bytes[0], bytes[1]];
      DecodePair(bytes[0], bytes[1]);
    } else {
      var rest := bytes[3..];
      EncodeGroup(bytes);
      DecodeEncode(rest);
      DecodeQuad(bytes[0], bytes[1], bytes[2], Encode(rest), rest);
      assert bytes == [bytes[0], bytes[1], bytes[2]] + rest;
    }
  }

  lemma {:induction false} StripAddedPadding(u: string, k: nat)
    requires u == [] || u[|u| - 1] != '='
    ensures StripPadding(u + Padding(k)) == u
  {
    if k > 0 {
      assert (u + Padding(k))[..|u| + k - 1] == u + Padding(k - 1);
      StripAddedPadding(u, k - 1);
    } else {
      assert u + Padding(k) == u;
    }
  }

  lemma UrlSafeThenStandard(u: string)
    requires IsStdText(u)
    ensures UrlToStandard(ToUrlSafe(u)) == u
  {
    var r := UrlToStandard(ToUrlSafe(u));
    forall i | 0 <= i < |u| ensures r[i] == u[i] {
      assert StdValue(u[i]).Some?;
    }
  }

  /**
   * For any bytes, the standard encoding rewritten to the URL-safe alphabet and
   * stripped of its `=` padding decodes back to the same bytes.
   */
  lemma RoundTrip(bytes: seq<Byte>)
    ensures DecodeUrl(StripPadding(ToUrlSafe(Encode(bytes)))) == Some(bytes)
  {
    var u := EncodeUnpadded(bytes);
    var k := PadCount(|u|);
    var url := ToUrlSafe(u);
    assert ToUrlSafe(Encode(bytes)) == url + Padding(k);
    EncodeUnpaddedIsStd(bytes);
    if u != [] {
      assert StdValue(u[|u| - 1]).Some?;
    }
    StripAddedPadding(url, k);
    UrlSafeThenStandard(u);
    DecodeEncode(bytes);
  }

  /** A worked example: `"QUI"` is the bytes of `"AB"`. */
  lemma DecodeExample()
    ensures DecodeUrl("QUI") == Some([65, 66])
    ensures DecodeText("QUI") == "AB"
  {
    assert UrlToStandard("QUI") == "QUI";
    assert Padded("QUI") == "QUI=";
  }
}
