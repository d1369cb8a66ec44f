/** Bytes as the source's `Buffer` holds them: the UTF-8 encoding that `Buffer.from(string)` and
    `hash.update(string)` apply to a string, and `buffer.toString('hex')`. Each encoder comes with
    a decoder and a round-trip lemma, which is what makes the encoders injective. */
module Bytes {

  type Byte = b: int | 0 <= b < 256

  /** The UTF-8 encoding of one Unicode scalar value (RFC 3629 section 3). */
  function Utf8Char(c: char): (r: seq<Byte>)
    ensures 1 <= |r| <= 4
  {
    var n := c as int;
    if n < 0x80 then [n]
    else if n < 0x800 then [0xC0 + n / 64, 0x80 + n % 64]
    else if n < 0x10000 then [0xE0 + n / 4096, 0x80 + (n / 64) % 64, 0x80 + n % 64]
    else [0xF0 + n / 262144, 0x80 + (n / 4096) % 64, 0x80 + (n / 64) % 64, 0x80 + n % 64]
  }

  /** `Buffer.from(s)`: the UTF-8 bytes of a string, character after character. */
  function Utf8(s: string): (r: seq<Byte>)
    ensures |s| <= |r| <= 4 * |s|
    ensures s == [] <==> r == []
    decreases |s|
  {
    if s == [] then [] else Utf8Char(s[0]) + Utf8(s[1..])
  }

  /** The length of the UTF-8 sequence that a lead byte announces. */
  function SequenceLength(lead: Byte): nat
  {
    if lead < 0x80 then 1 else if lead < 0xE0 then 2 else if lead < 0xF0 then 3 else 4
  }

  /** The scalar value a (well-formed) UTF-8 sequence stands for; U+FFFD for anything else. */
  function DecodeSequence(b: seq<Byte>): char
    requires |b| > 0 && |b| == SequenceLength(b[0])
  {
    var b0, b1, b2, b3: int := b[0], if |b| > 1 then b[1] else 0, if |b| > 2 then b[2] else 0, if |b| > 3 then b[3] else 0;
    var n :=
      if |b| == 1 then b0
      else if |b| == 2 then (b0 - 0xC0) * 64 + (b1 - 0x80)
      else if |b| == 3 then (b0 - 0xE0) * 4096 + (b1 - 0x80) * 64 + (b2 - 0x80)
      else (b0 - 0xF0) * 262144 + (b1 - 0x80) * 4096 + (b2 - 0x80) * 64 + (b3 - 0x80);
    if 0 <= n < 0xD800 || 0xE000 <= n < 0x110000 then n as char else 0xFFFD as char
  }

  /** UTF-8 decoding, one announced sequence at a time. */
  function DecodeUtf8(b: seq<Byte>): string
    decreases |b|
  {
    if b == [] then []
    else
      var len := SequenceLength(b[0]);
      if |b| < len then [0xFFFD as char]
      else [DecodeSequence(b[..len])] + DecodeUtf8(b[len..])
  }

  lemma Utf8CharDecodes(c: char)
    ensures var e := Utf8Char(c); |e| == SequenceLength(e[0]) && DecodeSequence(e) == c
  {
    var n := c as int;
    if n >= 0x10000 {
      Utf8FourBytes(c);
    } else if n >= 0x800 {
      Utf8ThreeBytes(c);
    }
  }

  lemma Utf8ThreeBytes(c: char)
    requires 0x800 <= c as int < 0x10000
    ensures var e := Utf8Char(c); |e| == 3 && SequenceLength(e[0]) == 3 && DecodeSequence(e) == c
  {
    var n := c as int;
    var hi, mid, lo := n / 4096, (n / 64) % 64, n % 64;
    assert n / 64 == hi * 64 + mid;
    assert n == (n / 64) * 64 + lo;
    assert hi * 4096 + mid * 64 + lo == n;
  }

  lemma Utf8FourBytes(c: char)
    requires 0x10000 <= c as int
    ensures var e := Utf8Char(c); |e| == 4 && SequenceLength(e[0]) == 4 && DecodeSequence(e) == c
  {
    var n := c as int;
    var top, hi, mid, lo := n / 262144, (n / 4096) % 64, (n / 64) % 64, n % 64;
    assert top <= 4;
    assert n / 4096 == top * 64 + hi;
    assert n / 64 == (n / 4096) * 64 + mid;
    assert n == (n / 64) * 64 + lo;
    assert top * 262144 + hi * 4096 + mid * 64 + lo == n;
  }

  /** Decoding undoes encoding. */
  lemma {:induction false} Utf8RoundTrip(s: string)
    ensures DecodeUtf8(Utf8(s)) == s
    decreases |s|
  {
    if s != [] {
      var e := Utf8Char(s[0]);
      var rest := Utf8(s[1..]);
      Utf8CharDecodes(s[0]);
      assert Utf8(s) == e + rest;
      assert (e + rest)[0] == e[0];
      assert (e + rest)[..|e|] == e;
      assert (e + rest)[|e|..] == rest;
      Utf8RoundTrip(s[1..]);
    }
  }

  /** Distinct strings have distinct UTF-8 encodings. */
  lemma Utf8Injective(s: string, t: string)
    requires Utf8(s) == Utf8(t)
    ensures s == t
  {
    Utf8RoundTrip(s);
    Utf8RoundTrip(t);
  }

  /** Encoding distributes over concatenation. */
  lemma {:induction false} Utf8Concat(s: string, t: string)
    ensures Utf8(s + t) == Utf8(s) + Utf8(t)
    decreases |s|
  {
    if s == [] {
      assert s + t == t;
    } else {
      assert (s + t)[0] == s[0] && (s + t)[1..] == s[1..] + t;
      Utf8Concat(s[1..], t);
    }
  }

  /** An ASCII character is its own single byte. */
  predicate IsAscii(c: char)
  {
    c as int < 0x80
  }

  /** A hexadecimal digit, lower-case (`toString('hex')`) or upper-case (percent-encoding). */
  function HexDigit(v: int, upper: bool): (c: char)
    requires 0 <= v < 16
    ensures '0' <= c <= '9' || (if upper then 'A' <= c <= 'F' else 'a' <= c <= 'f')
  {
    if v < 10 then ('0' as int + v) as char
    else if upper then ('A' as int + v - 10) as char
    else ('a' as int + v - 10) as char
  }

  predicate IsLowerHexDigit(c: char)
  {
    '0' <= c <= '9' || 'a' <= c <= 'f'
  }

  /** The value of a lower-case hexadecimal digit. */
  function HexValue(c: char): (v: int)
    ensures 0 <= v < 16
  {
    if '0' <= c <= '9' then c as int - '0' as int
    else if 'a' <= c <= 'f' then c as int - 'a' as int + 10
    else 0
  }

  /** `buffer.toString('hex')`: two lower-case digits per byte, high nibble first. */
  function Hex(b: seq<Byte>): (r: string)
    ensures |r| == 2 * |b|
    ensures forall i :: 0 <= i < |r| ==> IsLowerHexDigit(r[i])
    decreases |b|
  {
    if b == [] then [] else [HexDigit(b[0] / 16, false), HexDigit(b[0] % 16, false)] + Hex(b[1..])
  }

  function DecodeHex(s: string): seq<Byte>
    decreases |s|
  {
    if |s| < 2 then [] else [HexValue(s[0]) * 16 + HexValue(s[1])] + DecodeHex(s[2..])
  }

  /** Decoding undoes hex encoding. */
  lemma {:induction false} HexRoundTrip(b: seq<Byte>)
    ensures DecodeHex(Hex(b)) == b
    decreases |b|
  {
    if b != [] {
      var h := Hex(b);
      assert h[2..] == Hex(b[1..]);
      assert HexValue(h[0]) == b[0] / 16 && HexValue(h[1]) == b[0] % 16;
      HexRoundTrip(b[1..]);
    }
  }
}
