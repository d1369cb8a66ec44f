/** The `application/x-www-form-urlencoded` serializer that `URLSearchParams.toString()`
    applies (section 5.2 of the WHATWG URL Standard), and the matching parser (section 5.1).
    A query string built by the serializer parses back into the same name/value pairs. */
module FormUrlEncoded {
  import opened Bytes
  import opened Seqs
  import opened Text

  /** The bytes the serializer leaves as they are: ASCII letters, digits and `*-._`. */
  predicate IsFormSafe(b: Byte)
  {
    || 0x30 <= b <= 0x39 || 0x41 <= b <= 0x5A || 0x61 <= b <= 0x7A
    || b == 0x2A || b == 0x2D || b == 0x2E || b == 0x5F
  }

  /** One byte of the serializer's output: itself, `+` for a space, else `%XX` in upper case. */
  function EncodeByte(b: Byte): (s: string)
    ensures 1 <= |s| <= 3
    ensures forall i :: 0 <= i < |s| ==> IsAscii(s[i]) && s[i] != '&' && s[i] != '='
  {
    if IsFormSafe(b) then [b as char]
    else if b == 0x20 then "+"
    else ['%', HexDigit(b / 16, true), HexDigit(b % 16, true)]
  }

  function EncodeBytes(b: seq<Byte>): (s: string)
    ensures forall i :: 0 <= i < |s| ==> IsAscii(s[i]) && s[i] != '&' && s[i] != '='
    decreases |b|
  {
    if b == [] then [] else EncodeByte(b[0]) + EncodeBytes(b[1..])
  }

  /** The serialization of one name or value: its UTF-8 bytes, encoded byte by byte. */
  function FormEncode(s: string): (r: string)
    ensures '&' !in r && '=' !in r
    ensures forall i :: 0 <= i < |r| ==> IsAscii(r[i])
  {
    EncodeBytes(Utf8(s))
  }

  predicate IsHexByte(b: Byte)
  {
    0x30 <= b <= 0x39 || 0x41 <= b <= 0x46 || 0x61 <= b <= 0x66
  }

  /** The value of a hexadecimal digit byte, either case. */
  function HexByteValue(b: Byte): (v: int)
    ensures 0 <= v < 16
  {
    if 0x30 <= b <= 0x39 then b - 0x30
    else if 0x41 <= b <= 0x46 then b - 0x41 + 10
    else if 0x61 <= b <= 0x66 then b - 0x61 + 10
    else 0
  }

  /** The parser's byte decoding: `+` is a space, `%` with two hexadecimal digits is that byte,
      anything else stands for itself. */
  function DecodeBytes(t: seq<Byte>): seq<Byte>
    decreases |t|
  {
    if t == [] then []
    else if t[0] == 0x2B then [0x20] + DecodeBytes(t[1..])
    else if t[0] == 0x25 && |t| >= 3 && IsHexByte(t[1]) && IsHexByte(t[2]) then
      [HexByteValue(t[1]) * 16 + HexByteValue(t[2])] + DecodeBytes(t[3..])
    else [t[0]] + DecodeBytes(t[1..])
  }

  /** The parser's decoding of one name or value. */
  function FormDecode(s: string): string
  {
    DecodeUtf8(DecodeBytes(Utf8(s)))
  }

  /** The UTF-8 bytes of an ASCII string are its character codes. */
  lemma {:induction false} Utf8Ascii(s: string)
    requires forall i :: 0 <= i < |s| ==> IsAscii(s[i])
    ensures |Utf8(s)| == |s|
    ensures forall i :: 0 <= i < |s| ==> Utf8(s)[i] == s[i] as int
    decreases |s|
  {
    if s != [] {
      Utf8Ascii(s[1..]);
      assert Utf8(s) == [s[0] as int] + Utf8(s[1..]);
    }
  }

  /** Decoding one encoded byte ahead of the rest. */
  lemma DecodeEncodedByte(b: Byte, rest: seq<Byte>)
    ensures DecodeBytes(Utf8(EncodeByte(b)) + rest) == [b] + DecodeBytes(rest)
  {
    var e := EncodeByte(b);
    Utf8Ascii(e);
    var t := Utf8(e) + rest;
    if IsFormSafe(b) {
      assert t[0] == b && t[1..] == rest;
    } else if b == 0x20 {
      assert t[0] == 0x2B && t[1..] == rest;
    } else {
      assert t[0] == 0x25 && t[3..] == rest;
      assert t[1] == HexDigit(b / 16, true) as int && t[2] == HexDigit(b % 16, true) as int;
      assert HexByteValue(t[1]) == b / 16 && HexByteValue(t[2]) == b % 16;
    }
  }

  /** The parser undoes the serializer on bytes. */
  lemma {:induction false} DecodeEncodeBytes(b: seq<Byte>)
    ensures DecodeBytes(Utf8(EncodeBytes(b))) == b
    decreases |b|
  {
    if b != [] {
      var e := EncodeByte(b[0]);
      var rest := EncodeBytes(b[1..]);
      Utf8Concat(e, rest);
      DecodeEncodedByte(b[0], Utf8(rest));
      DecodeEncodeBytes(b[1..]);
    }
  }

  /** The parser undoes the serializer on strings. */
  lemma FormRoundTrip(s: string)
    ensures FormDecode(FormEncode(s)) == s
  {
    DecodeEncodeBytes(Utf8(s));
    Utf8RoundTrip(s);
  }

  /** Distinct names or values serialize differently. */
  lemma FormEncodeInjective(s: string, t: string)
    requires FormEncode(s) == FormEncode(t)
    ensures s == t
  {
    FormRoundTrip(s);
    FormRoundTrip(t);
  }

  // ---------------------------------------------------------------------------------------------
  // Query strings

  datatype Param = Param(name: string, value: string)

  function EncodePair(p: Param): (s: string)
    ensures '&' !in s && s != []
  {
    FormEncode(p.name) + "=" + FormEncode(p.value)
  }

  /** `new URLSearchParams(params).toString()`: the pairs in order, joined with `&`. */
  function Serialize(params: seq<Param>): string
  {
    Join(seq(|params|, i requires 0 <= i < |params| => EncodePair(params[i])), '&')
  }

  /** One `name=value` piece: the name is everything before the first `=`. */
  function ParsePair(piece: string): Param
  {
    var parts := SplitOn(piece, '=');
    Param(FormDecode(parts[0]), FormDecode(Join(parts[1..], '=')))
  }

  /** The parser: split on `&`, skip empty pieces, decode each pair. */
  function ParseQuery(query: string): (params: seq<Param>)
  {
    var pieces := Filter(SplitOn(query, '&'), (p: string) => p != []);
    seq(|pieces|, i requires 0 <= i < |pieces| => ParsePair(pieces[i]))
  }

  lemma ParseEncodedPair(p: Param)
    ensures ParsePair(EncodePair(p)) == p
  {
    var n, v := FormEncode(p.name), FormEncode(p.value);
    assert EncodePair(p) == n + ['='] + v;
    SplitOnCons(n, '=', v);
    SplitOnNone(v, '=');
    assert SplitOn(EncodePair(p), '=') == [n, v];
    assert Join([v], '=') == v;
    FormRoundTrip(p.name);
    FormRoundTrip(p.value);
  }

  /** A serialized query parses back into exactly the pairs it was built from, in order. */
  lemma QueryRoundTrip(params: seq<Param>)
    ensures ParseQuery(Serialize(params)) == params
  {
    var pieces := seq(|params|, i requires 0 <= i < |params| => EncodePair(params[i]));
    if params == [] {
      assert Serialize(params) == [];
      assert SplitOn([], '&') == [[]];
      assert Filter([[]], (p: string) => p != []) == [];
    } else {
      JoinSplit(pieces, '&');
      FilterAll(pieces, (p: string) => p != []);
      forall i | 0 <= i < |params| ensures ParsePair(pieces[i]) == params[i] {
        ParseEncodedPair(params[i]);
      }
    }
  }
}
