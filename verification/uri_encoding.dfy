/** Percent-encoding as the handlers use it through the JavaScript runtime:
    `encodeURIComponent` (the component scheme) and the
    application/x-www-form-urlencoded serializer behind
    `URLSearchParams.toString()` (the form scheme). Both encode a character
    by the UTF-8 bytes of its code point, each byte written `%XX` with
    upper-case hex digits, except for a scheme-specific set of characters
    left as they are; the form scheme writes a space as `+`.

    A strict reference decoder is defined beside the encoders so that the
    round trip `Decode(Encode(s)) == Some(s)` can be stated and proved. */
module UriEncoding {
  import opened Wrappers
  import Strings

  type Byte = b: int | 0 <= b < 256

  /** Code points that are Unicode scalar values, that is, the values of `char`. */
  predicate IsScalar(n: int)
  {
    0 <= n < 0xD800 || 0xE000 <= n < 0x11_0000
  }

  // ---------------------------------------------------------------------
  // UTF-8

  predicate IsContinuation(b: Byte)
  {
    0x80 <= b < 0xC0
  }

  /** The UTF-8 encoding of one character (RFC 3629, section 3). */
  function Utf8(c: char): (bs: seq<Byte>)
    ensures 1 <= |bs| <= 4
    ensures |bs| == 1 <==> (c as int) < 0x80
    ensures forall k :: 1 <= k < |bs| ==> IsContinuation(bs[k])
  {
    var n := c as int;
    if n < 0x80 then [n]
    else if n < 0x800 then [0xC0 + n / 64, 0x80 + n % 64]
    else if n < 0x1_0000 then [0xE0 + n / 4096, 0x80 + (n / 64) % 64, 0x80 + n % 64]
    else [0xF0 + n / 262144, 0x80 + (n / 4096) % 64, 0x80 + (n / 64) % 64, 0x80 + n % 64]
  }

  function Utf8Encode(s: string): seq<Byte>
  {
    if |s| == 0 then [] else Utf8(s[0]) + Utf8Encode(s[1..])
  }

  /** The number of bytes of the sequence a lead byte starts, or 0 when
      `b` cannot start one. */
  function SequenceLength(b: Byte): nat
  {
    if b < 0x80 then 1
    else if 0xC0 <= b < 0xE0 then 2
    else if 0xE0 <= b < 0xF0 then 3
    else if 0xF0 <= b < 0xF8 then 4
    else 0
  }

  /** The code point that a complete byte sequence of a given length spells. */
  function UnitValue(bs: seq<Byte>): int
    requires 1 <= |bs| <= 4
  {
    var b: seq<int> := bs;
    if |b| == 1 then b[0]
    else if |b| == 2 then (b[0] - 0xC0) * 64 + (b[1] - 0x80)
    else if |b| == 3 then ((b[0] - 0xE0) * 64 + (b[1] - 0x80)) * 64 + (b[2] - 0x80)
    else (((b[0] - 0xF0) * 64 + (b[1] - 0x80)) * 64 + (b[2] - 0x80)) * 64 + (b[3] - 0x80)
  }

  function Prepend<T>(x: seq<T>, rest: Option<seq<T>>): Option<seq<T>>
  {
    match rest
    case None => None
    case Some(r) => Some(x + r)
  }

  /** The reference UTF-8 decoder: `None` on any malformed sequence. */
  function Utf8Decode(bs: seq<Byte>): Option<string>
    decreases |bs|
  {
    if |bs| == 0 then Some("")
    else
      var len := SequenceLength(bs[0]);
      if len == 0 || |bs| < len then None
      else if exists k :: 1 <= k < len && !IsContinuation(bs[k]) then None
      else
        var n := UnitValue(bs[..len]);
        if IsScalar(n) then Prepend([n as char], Utf8Decode(bs[len..])) else None
  }

  lemma DivMod64(n: int)
    requires n >= 0
    ensures n == (n / 64) * 64 + n % 64
    ensures n / 64 / 64 == n / 4096
    ensures n / 4096 / 64 == n / 262144
  {
  }

  /** The bytes of one character decode back to its code point. */
  lemma Utf8Unit(c: char)
    ensures SequenceLength(Utf8(c)[0]) == |Utf8(c)|
    ensures UnitValue(Utf8(c)) == c as int
  {
    var n := c as int;
    DivMod64(n);
    DivMod64(n / 64);
    DivMod64(n / 4096);
  }

  /** Decoding the bytes of one character followed by more bytes yields
      that character followed by the decoding of the rest. */
  lemma Utf8DecodeCons(c: char, rest: seq<Byte>)
    ensures Utf8Decode(Utf8(c) + rest) == Prepend([c], Utf8Decode(rest))
  {
    var bs := Utf8(c) + rest;
    Utf8Unit(c);
    var len := |Utf8(c)|;
    assert bs[..len] == Utf8(c);
    assert bs[len..] == rest;
    assert forall k :: 1 <= k < len ==> bs[k] == Utf8(c)[k];
  }

  /** UTF-8 decoding inverts UTF-8 encoding. */
  lemma {:induction false} Utf8RoundTrip(s: string)
    ensures Utf8Decode(Utf8Encode(s)) == Some(s)
    decreases |s|
  {
    if |s| > 0 {
      Utf8RoundTrip(s[1..]);
      Utf8DecodeCons(s[0], Utf8Encode(s[1..]));
      assert [s[0]] + s[1..] == s;
    }
  }

  // ---------------------------------------------------------------------
  // Percent-encoding

  /** `Component` is `encodeURIComponent`; `Form` is the
      application/x-www-form-urlencoded serializer of `URLSearchParams`. */
  datatype Scheme = Component | Form

  predicate IsAlphanumeric(c: char)
  {
    'a' <= c <= 'z' || 'A' <= c <= 'Z' || '0' <= c <= '9'
  }

  /** The characters a scheme writes unchanged. */
  predicate Unreserved(scheme: Scheme, c: char)
  {
    IsAlphanumeric(c) ||
    match scheme
    case Component => c in "-_.!~*'()"
    case Form => c in "*-._"
  }

  const HexDigits: string := "0123456789ABCDEF"

  predicate IsUpperHex(c: char)
  {
    '0' <= c <= '9' || 'A' <= c <= 'F'
  }

  /** Characters that may appear in an encoded string. */
  predicate InEncodedAlphabet(scheme: Scheme, c: char)
  {
    Unreserved(scheme, c) || c == '%' || IsUpperHex(c) || (scheme == Form && c == '+')
  }

  /** `%XX` for one byte. */
  function Percent(b: Byte): (e: string)
    ensures |e| == 3 && e[0] == '%' && IsUpperHex(e[1]) && IsUpperHex(e[2])
  {
    ['%', HexDigits[b / 16], HexDigits[b % 16]]
  }

  function PercentBytes(bs: seq<Byte>): (e: string)
    ensures forall k :: 0 <= k < |e| ==> e[k] == '%' || IsUpperHex(e[k])
  {
    if |bs| == 0 then "" else Percent(bs[0]) + PercentBytes(bs[1..])
  }

  function EncodeChar(scheme: Scheme, c: char): (e: string)
    ensures forall k :: 0 <= k < |e| ==> InEncodedAlphabet(scheme, e[k])
  {
    if Unreserved(scheme, c) then [c]
    else if scheme == Form && c == ' ' then "+"
    else PercentBytes(Utf8(c))
  }

  /** The encoding of a string, character by character. */
  function Encode(scheme: Scheme, s: string): (e: string)
    ensures forall k :: 0 <= k < |e| ==> InEncodedAlphabet(scheme, e[k])
  {
    if |s| == 0 then "" else EncodeChar(scheme, s[0]) + Encode(scheme, s[1..])
  }

  /** The value of a hex digit, either case. */
  function HexValue(c: char): Option<int>
  {
    if '0' <= c <= '9' then Some(c as int - '0' as int)
    else if 'A' <= c <= 'F' then Some(c as int - 'A' as int + 10)
    else if 'a' <= c <= 'f' then Some(c as int - 'a' as int + 10)
    else None
  }

  /** The bytes an encoded string spells: `%XX` is one byte, `+` is a space
      in the form scheme, any other ASCII character stands for itself. */
  function DecodeBytes(scheme: Scheme, e: string): Option<seq<Byte>>
    decreases |e|
  {
    if |e| == 0 then Some([])
    else if e[0] == '%' then
      if |e| < 3 then None
      else
        match (HexValue(e[1]), HexValue(e[2]))
        case (Some(hi), Some(lo)) => Prepend([hi * 16 + lo], DecodeBytes(scheme, e[3..]))
        case _ => None
    else if scheme == Form && e[0] == '+' then Prepend([0x20], DecodeBytes(scheme, e[1..]))
    else if (e[0] as int) < 0x80 then Prepend([e[0] as int], DecodeBytes(scheme, e[1..]))
    else None
  }

  /** The reference decoder for both schemes. */
  function Decode(scheme: Scheme, e: string): Option<string>
  {
    match DecodeBytes(scheme, e)
    case None => None
    case Some(bs) => Utf8Decode(bs)
  }

  lemma PrependAssoc<T>(x: seq<T>, y: seq<T>, o: Option<seq<T>>)
    ensures Prepend(x, Prepend(y, o)) == Prepend(x + y, o)
  {
    if o.Some? {
      assert x + (y + o.value) == (x + y) + o.value;
    }
  }

  lemma HexDigitValue(d: int)
    requires 0 <= d < 16
    ensures HexValue(HexDigits[d]) == Some(d)
  {
  }

  lemma DecodePercent(scheme: Scheme, b: Byte, rest: string)
    ensures DecodeBytes(scheme, Percent(b) + rest) == Prepend([b], DecodeBytes(scheme, rest))
  {
    var e := Percent(b) + rest;
    HexDigitValue(b / 16);
    HexDigitValue(b % 16);
    assert e[1] == HexDigits[b / 16] && e[2] == HexDigits[b % 16];
    assert e[3..] == rest;
  }

  lemma {:induction false} DecodePercentBytes(scheme: Scheme, bs: seq<Byte>, rest: string)
    ensures DecodeBytes(scheme, PercentBytes(bs) + rest) == Prepend(bs, DecodeBytes(scheme, rest))
    decreases |bs|
  {
    if |bs| == 0 {
      assert PercentBytes(bs) + rest == rest;
      var o := DecodeBytes(scheme, rest);
      assert o.Some? ==> bs + o.value == o.value;
    } else {
      assert PercentBytes(bs) + rest == Percent(bs[0]) + (PercentBytes(bs[1..]) + rest);
      DecodePercent(scheme, bs[0], PercentBytes(bs[1..]) + rest);
      DecodePercentBytes(scheme, bs[1..], rest);
      PrependAssoc([bs[0]], bs[1..], DecodeBytes(scheme, rest));
      assert [bs[0]] + bs[1..] == bs;
    }
  }

  lemma DecodeEncodeChar(scheme: Scheme, c: char, rest: string)
    ensures DecodeBytes(scheme, EncodeChar(scheme, c) + rest) == Prepend(Utf8(c), DecodeBytes(scheme, rest))
  {
    if Unreserved(scheme, c) {
      assert (EncodeChar(scheme, c) + rest)[1..] == rest;
    } else if scheme == Form && c == ' ' {
      assert (EncodeChar(scheme, c) + rest)[1..] == rest;
    } else {
      DecodePercentBytes(scheme, Utf8(c), rest);
    }
  }

  lemma {:induction false} DecodeBytesOfEncode(scheme: Scheme, s: string)
    ensures DecodeBytes(scheme, Encode(scheme, s)) == Some(Utf8Encode(s))
    decreases |s|
  {
    if |s| > 0 {
      DecodeBytesOfEncode(scheme, s[1..]);
      DecodeEncodeChar(scheme, s[0], Encode(scheme, s[1..]));
    }
  }

  /** Decoding inverts encoding, in both schemes. */
  lemma RoundTrip(scheme: Scheme, s: string)
    ensures Decode(scheme, Encode(scheme, s)) == Some(s)
  {
    DecodeBytesOfEncode(scheme, s);
    Utf8RoundTrip(s);
  }

  /** The separators of a query string never occur in an encoded string. */
  lemma EncodedHasNoSeparators(scheme: Scheme, s: string)
    ensures '&' !in Encode(scheme, s) && '=' !in Encode(scheme, s) && '?' !in Encode(scheme, s)
    ensures '#' !in Encode(scheme, s) && ' ' !in Encode(scheme, s)
  {
    var e := Encode(scheme, s);
    forall k | 0 <= k < |e|
      ensures e[k] != '&' && e[k] != '=' && e[k] != '?' && e[k] != '#' && e[k] != ' '
    {
      AlphabetExcludesSeparators(scheme, e[k]);
    }
  }

  /** No separator of a URL or a query is in the encoded alphabet. */
  lemma AlphabetExcludesSeparators(scheme: Scheme, c: char)
    requires InEncodedAlphabet(scheme, c)
    ensures c != '&' && c != '=' && c != '?' && c != '#' && c != ' '
  {
  }

  // ---------------------------------------------------------------------
  // Query strings

  /** `name=value` with both halves form-encoded. */
  function EncodePair(p: (string, string)): string
  {
    Encode(Form, p.0) + "=" + Encode(Form, p.1)
  }

  function EncodePairs(ps: seq<(string, string)>): (pieces: seq<string>)
    ensures |pieces| == |ps|
    ensures forall i :: 0 <= i < |ps| ==> pieces[i] == EncodePair(ps[i])
  {
    if |ps| == 0 then [] else [EncodePair(ps[0])] + EncodePairs(ps[1..])
  }

  /** `new URLSearchParams(ps).toString()`. */
  function SerializeQuery(ps: seq<(string, string)>): string
  {
    Strings.Join(EncodePairs(ps), '&')
  }

  /** One `name=value` piece of a query: the name ends at the first `=`;
      a piece without `=` has an empty value. */
  function ParsePiece(piece: string): Option<(string, string)>
  {
    var name := Strings.FirstSegment(piece, '=');
    var value := if |name| < |piece| then piece[|name| + 1..] else "";
    match (Decode(Form, name), Decode(Form, value))
    case (Some(n), Some(v)) => Some((n, v))
    case _ => None
  }

  function ParsePieces(pieces: seq<string>): Option<seq<(string, string)>>
  {
    if |pieces| == 0 then Some([])
    else if pieces[0] == "" then ParsePieces(pieces[1..])
    else
      match ParsePiece(pieces[0])
      case None => None
      case Some(p) => Prepend([p], ParsePieces(pieces[1..]))
  }

  /** The reference query parser: split on `&`, skip empty pieces, decode
      each `name=value` piece. */
  function ParseQuery(q: string): Option<seq<(string, string)>>
  {
    ParsePieces(Strings.Split(q, '&'))
  }

  lemma ParseEncodedPair(p: (string, string))
    ensures ParsePiece(EncodePair(p)) == Some(p)
  {
    var k := Encode(Form, p.0);
    var v := Encode(Form, p.1);
    EncodedHasNoSeparators(Form, p.0);
    EncodedHasNoSeparators(Form, p.1);
    assert EncodePair(p) == k + ['='] + v;
    Strings.SplitAfterPiece(k, v, '=');
    assert Strings.FirstSegment(EncodePair(p), '=') == k;
    assert EncodePair(p)[|k| + 1..] == v;
    RoundTrip(Form, p.0);
    RoundTrip(Form, p.1);
  }

  lemma {:induction false} ParseEncodedPairs(ps: seq<(string, string)>)
    ensures ParsePieces(EncodePairs(ps)) == Some(ps)
    decreases |ps|
  {
    if |ps| > 0 {
      ParseEncodedPairs(ps[1..]);
      ParseEncodedPair(ps[0]);
      var pieces := EncodePairs(ps);
      assert pieces[0] == EncodePair(ps[0]);
      assert '=' in pieces[0];
      assert pieces[1..] == EncodePairs(ps[1..]);
      assert [ps[0]] + ps[1..] == ps;
    }
  }

  lemma EncodedPiecesHaveNoAmpersand(ps: seq<(string, string)>)
    ensures forall i :: 0 <= i < |ps| ==> '&' !in EncodePairs(ps)[i]
  {
    forall i | 0 <= i < |ps|
      ensures '&' !in EncodePairs(ps)[i]
    {
      PairHasNoAmpersand(ps[i]);
    }
  }

  lemma PairHasNoAmpersand(p: (string, string))
    ensures '&' !in EncodePair(p)
  {
    EncodedHasNoSeparators(Form, p.0);
    EncodedHasNoSeparators(Form, p.1);
    assert EncodePair(p) == Encode(Form, p.0) + ['='] + Encode(Form, p.1);
  }

  /** Parsing a serialized parameter list gives back the list, names,
      values and order. */
  lemma QueryRoundTrip(ps: seq<(string, string)>)
    ensures ParseQuery(SerializeQuery(ps)) == Some(ps)
  {
    if |ps| == 0 {
      assert SerializeQuery(ps) == "";
    } else {
      EncodedPiecesHaveNoAmpersand(ps);
      Strings.SplitJoin(EncodePairs(ps), '&');
      ParseEncodedPairs(ps);
    }
  }
}
