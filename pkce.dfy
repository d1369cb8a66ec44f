/** PKCE helpers of the OAuth login (RFC 7636): the base64url encoding of a buffer, the code
    verifier drawn from 32 random bytes and the S256 code challenge. The random bytes and the
    SHA-256 digest are parameters. */
module Pkce {
  import opened Bytes
  import opened Seqs

  type Sextet = v: int | 0 <= v < 64

  /** A SHA-256 digest: 32 bytes. */
  type Digest = d: seq<Byte> | |d| == 32 witness seq(32, i => 0)

  /** The base64 alphabet of RFC 4648 section 4 (Table 1). */
  function StdChar(v: Sextet): char
  {
    if v < 26 then ('A' as int + v) as char
    else if v < 52 then ('a' as int + v - 26) as char
    else if v < 62 then ('0' as int + v - 52) as char
    else if v == 62 then '+'
    else '/'
  }

  /** The "URL and Filename safe" alphabet of RFC 4648 section 5 (Table 2). */
  function UrlChar(v: Sextet): char
  {
    if v < 62 then StdChar(v) else if v == 62 then '-' else '_'
  }

  predicate IsUrlSafe(c: char)
  {
    'A' <= c <= 'Z' || 'a' <= c <= 'z' || '0' <= c <= '9' || c == '-' || c == '_'
  }

  /** The sextet a base64url character stands for. */
  function UrlValue(c: char): Sextet
  {
    if 'A' <= c <= 'Z' then c as int - 'A' as int
    else if 'a' <= c <= 'z' then c as int - 'a' as int + 26
    else if '0' <= c <= '9' then c as int - '0' as int + 52
    else if c == '-' then 62
    else 63
  }

  lemma UrlCharValue(v: Sextet)
    ensures IsUrlSafe(UrlChar(v)) && UrlValue(UrlChar(v)) == v
  {
  }

  /** The sextets of one group of one to three bytes (RFC 4648 section 4): the 8-bit groups are
      read as 6-bit groups, a missing final bit filled with zeros; n bytes give n + 1 sextets. */
  function Sextets(g: seq<Byte>): (vs: seq<Sextet>)
    requires 1 <= |g| <= 3
    ensures |vs| == |g| + 1
  {
    if |g| == 3 then [g[0] / 4, (g[0] % 4) * 16 + g[1] / 16, (g[1] % 16) * 4 + g[2] / 64, g[2] % 64]
    else if |g| == 2 then [g[0] / 4, (g[0] % 4) * 16 + g[1] / 16, (g[1] % 16) * 4]
    else [g[0] / 4, (g[0] % 4) * 16]
  }

  /** Sextets spelled in the standard alphabet. */
  function StdChars(vs: seq<Sextet>): string
  {
    seq(|vs|, i requires 0 <= i < |vs| => StdChar(vs[i]))
  }

  /** Sextets spelled in the URL-safe alphabet. */
  function UrlChars(vs: seq<Sextet>): string
  {
    seq(|vs|, i requires 0 <= i < |vs| => UrlChar(vs[i]))
  }

  /** `n` padding characters. */
  function Padding(n: nat): string
  {
    seq(n, i => '=')
  }

  /** The length of the next group: three bytes, or what is left. */
  function GroupLength(b: seq<Byte>): nat
  {
    if |b| < 3 then |b| else 3
  }

  /** `buffer.toString('base64')`: each group of three bytes becomes four characters; a final
      group of two or one bytes becomes three or two characters followed by '=' padding. */
  function Base64(b: seq<Byte>): (r: string)
    ensures |r| == 4 * ((|b| + 2) / 3)
    decreases |b|
  {
    if b == [] then []
    else
      var g := b[..GroupLength(b)];
      StdChars(Sextets(g)) + Padding(3 - |g|) + Base64(b[|g|..])
  }

  /** `s.replace(/x/g, y)` for single characters. */
  function ReplaceAll(s: string, x: char, y: char): (r: string)
  {
    seq(|s|, i requires 0 <= i < |s| => if s[i] == x then y else s[i])
  }

  /** `s.replace(/x/g, '')`. */
  function RemoveAll(s: string, x: char): string
  {
    Filter(s, c => c != x)
  }

  /** `base64UrlEncode` as written: standard base64, then '+' to '-', '/' to '_', '=' removed. */
  function Base64UrlEncode(b: seq<Byte>): string
  {
    RemoveAll(ReplaceAll(ReplaceAll(Base64(b), '+', '-'), '/', '_'), '=')
  }

  /** Reference definition: base64url without padding (RFC 4648 section 5 with the padding
      omitted, as section 3.2 permits), written directly over Table 2. */
  function Base64Url(b: seq<Byte>): (r: string)
    decreases |b|
  {
    if b == [] then []
    else
      var g := b[..GroupLength(b)];
      UrlChars(Sextets(g)) + Base64Url(b[|g|..])
  }

  /** The bytes of one group of two to four base64url characters. */
  function DecodeGroup(s: string): seq<Byte>
    requires 2 <= |s| <= 4
  {
    var v0, v1 := UrlValue(s[0]), UrlValue(s[1]);
    if |s| == 2 then [v0 * 4 + v1 / 16]
    else
      var v2 := UrlValue(s[2]);
      if |s| == 3 then [v0 * 4 + v1 / 16, (v1 % 16) * 16 + v2 / 4]
      else [v0 * 4 + v1 / 16, (v1 % 16) * 16 + v2 / 4, (v2 % 4) * 64 + UrlValue(s[3])]
  }

  /** Decoder for unpadded base64url, four characters at a time; a stray single final
      character (which no encoding produces) is dropped. */
  function DecodeBase64Url(s: string): seq<Byte>
    decreases |s|
  {
    if |s| < 2 then []
    else if |s| < 4 then DecodeGroup(s)
    else DecodeGroup(s[..4]) + DecodeBase64Url(s[4..])
  }

  /** One group decodes back to its bytes. */
  lemma GroupRoundTrip(g: seq<Byte>)
    requires 1 <= |g| <= 3
    ensures DecodeGroup(UrlChars(Sextets(g))) == g
  {
    var vs := Sextets(g);
    forall i | 0 <= i < |vs| ensures UrlValue(UrlChars(vs)[i]) == vs[i] {
      UrlCharValue(vs[i]);
    }
  }

  /** Replacing and removing characters distributes over concatenation. */
  lemma CleanConcat(a: string, b: string)
    ensures RemoveAll(ReplaceAll(ReplaceAll(a + b, '+', '-'), '/', '_'), '=')
         == RemoveAll(ReplaceAll(ReplaceAll(a, '+', '-'), '/', '_'), '=')
          + RemoveAll(ReplaceAll(ReplaceAll(b, '+', '-'), '/', '_'), '=')
  {
    assert ReplaceAll(ReplaceAll(a + b, '+', '-'), '/', '_')
        == ReplaceAll(ReplaceAll(a, '+', '-'), '/', '_') + ReplaceAll(ReplaceAll(b, '+', '-'), '/', '_');
    FilterConcat(ReplaceAll(ReplaceAll(a, '+', '-'), '/', '_'), ReplaceAll(ReplaceAll(b, '+', '-'), '/', '_'), c => c != '=');
  }

  /** On one padded group, the replace chain yields the unpadded URL-safe group. */
  lemma CleanGroup(vs: seq<Sextet>, pad: nat)
    ensures RemoveAll(ReplaceAll(ReplaceAll(StdChars(vs) + Padding(pad), '+', '-'), '/', '_'), '=')
         == UrlChars(vs)
  {
    CleanConcat(StdChars(vs), Padding(pad));
    var mapped := ReplaceAll(ReplaceAll(StdChars(vs), '+', '-'), '/', '_');
    assert mapped == UrlChars(vs);
    FilterAll(mapped, c => c != '=');
    assert ReplaceAll(ReplaceAll(Padding(pad), '+', '-'), '/', '_') == Padding(pad);
    FilterNone(Padding(pad), c => c != '=');
  }

  /** The source's chain of replacements computes exactly unpadded base64url. */
  lemma {:induction false} Base64UrlEncodeIsBase64Url(b: seq<Byte>)
    ensures Base64UrlEncode(b) == Base64Url(b)
    decreases |b|
  {
    if b != [] {
      var g := b[..GroupLength(b)];
      var head := StdChars(Sextets(g)) + Padding(3 - |g|);
      assert Base64(b) == head + Base64(b[|g|..]);
      CleanConcat(head, Base64(b[|g|..]));
      CleanGroup(Sextets(g), 3 - |g|);
      Base64UrlEncodeIsBase64Url(b[|g|..]);
    }
  }

  /** base64url uses only the URL-safe alphabet and is ceil(4n/3) characters long. */
  lemma {:induction false} Base64UrlShape(b: seq<Byte>)
    ensures |Base64Url(b)| == (4 * |b| + 2) / 3
    ensures forall i :: 0 <= i < |Base64Url(b)| ==> IsUrlSafe(Base64Url(b)[i])
    decreases |b|
  {
    if b != [] {
      var g := b[..GroupLength(b)];
      var head := UrlChars(Sextets(g));
      Base64UrlShape(b[|g|..]);
      assert Base64Url(b) == head + Base64Url(b[|g|..]);
      forall i | 0 <= i < |head| ensures IsUrlSafe(head[i]) {
        UrlCharValue(Sextets(g)[i]);
      }
    }
  }

  /** Decoding undoes base64url, one group of three bytes at a time. */
  lemma {:induction false} Base64UrlRoundTrip(b: seq<Byte>)
    ensures DecodeBase64Url(Base64Url(b)) == b
    decreases |b|
  {
    if b != [] {
      var g := b[..GroupLength(b)];
      var head := UrlChars(Sextets(g));
      var e := Base64Url(b);
      assert e == head + Base64Url(b[|g|..]);
      GroupRoundTrip(g);
      if |b| >= 3 {
        Base64UrlRoundTrip(b[3..]);
        DecodeFirstGroup(head, Base64Url(b[3..]));
        assert b == g + b[3..];
      } else {
        assert Base64Url(b[|g|..]) == [];
        assert e == head;
      }
    }
  }

  /** A full group of four characters decodes on its own. */
  lemma DecodeFirstGroup(head: string, rest: string)
    requires |head| == 4
    ensures DecodeBase64Url(head + rest) == DecodeGroup(head) + DecodeBase64Url(rest)
  {
    assert (head + rest)[..4] == head && (head + rest)[4..] == rest;
  }

  /** The encoding as written has the base64url shape: URL-safe characters only (so no '+',
      '/' or '='), ceil(4n/3) of them, and distinct buffers give distinct strings. */
  lemma Base64UrlEncodeProperties(a: seq<Byte>, b: seq<Byte>)
    ensures |Base64UrlEncode(a)| == (4 * |a| + 2) / 3
    ensures forall i :: 0 <= i < |Base64UrlEncode(a)| ==> IsUrlSafe(Base64UrlEncode(a)[i])
    ensures Base64UrlEncode(a) == Base64UrlEncode(b) ==> a == b
  {
    Base64UrlEncodeIsBase64Url(a);
    Base64UrlEncodeIsBase64Url(b);
    Base64UrlShape(a);
    Base64UrlRoundTrip(a);
    Base64UrlRoundTrip(b);
  }

  /** Test vector of RFC 4648 section 10: "f", with two padding characters, and the same byte
      through the URL-safe encoding as written. */
  lemma Rfc4648OneByteVector()
    ensures Base64([0x66]) == "Zg==" && Base64UrlEncode([0x66]) == "Zg"
  {
    var b: seq<Byte> := [0x66];
    assert b[..1] == b && b[1..] == [];
    assert Sextets(b) == [25, 32];
    assert StdChars([25, 32]) == "Zg" && Padding(2) == "==";
    assert Base64(b) == StdChars([25, 32]) + Padding(2);
    CleanGroup([25, 32], 2);
    assert UrlChars([25, 32]) == "Zg";
  }

  /** Test vector of RFC 4648 section 10: "fo", with one padding character. */
  lemma Rfc4648TwoByteVector()
    ensures Base64([0x66, 0x6F]) == "Zm8=" && Base64UrlEncode([0x66, 0x6F]) == "Zm8"
  {
    var b: seq<Byte> := [0x66, 0x6F];
    assert b[..2] == b && b[2..] == [];
    assert Sextets(b) == [25, 38, 60];
    assert StdChars([25, 38, 60]) == "Zm8" && Padding(1) == "=";
    assert Base64(b) == StdChars([25, 38, 60]) + Padding(1);
    CleanGroup([25, 38, 60], 1);
    assert UrlChars([25, 38, 60]) == "Zm8";
  }

  /** Test vector of RFC 4648 section 10: "foobar", two full groups. */
  lemma Rfc4648FoobarVector()
    ensures Base64([0x66, 0x6F, 0x6F, 0x62, 0x61, 0x72]) == "Zm9vYmFy"
  {
    var foo: seq<Byte>, bar: seq<Byte> := [0x66, 0x6F, 0x6F], [0x62, 0x61, 0x72];
    assert foo + bar == [0x66, 0x6F, 0x6F, 0x62, 0x61, 0x72];
    Base64FullGroup(foo, bar);
    FooGroup();
    BarGroup();
  }

  /** A leading group of three bytes is encoded on its own. */
  lemma Base64FullGroup(g: seq<Byte>, rest: seq<Byte>)
    requires |g| == 3
    ensures Base64(g + rest) == Base64(g) + Base64(rest)
  {
    assert (g + rest)[..3] == g && (g + rest)[3..] == rest;
    assert g[..3] == g && g[3..] == [];
  }

  lemma FooGroup()
    ensures Base64([0x66, 0x6F, 0x6F]) == "Zm9v"
  {
    var b: seq<Byte> := [0x66, 0x6F, 0x6F];
    assert b[..3] == b && b[3..] == [];
    assert Sextets(b) == [25, 38, 61, 47];
    assert StdChars([25, 38, 61, 47]) == "Zm9v";
  }

  lemma BarGroup()
    ensures Base64([0x62, 0x61, 0x72]) == "YmFy"
  {
    var b: seq<Byte> := [0x62, 0x61, 0x72];
    assert b[..3] == b && b[3..] == [];
    assert Sextets(b) == [24, 38, 5, 50];
    assert StdChars([24, 38, 5, 50]) == "YmFy";
  }

  /** The two characters that differ between the alphabets: bytes FB FF give "+/8=" in base64
      and "-_8" through the replace chain. */
  lemma UrlSafeReplacementVector()
    ensures Base64([0xFB, 0xFF]) == "+/8=" && Base64UrlEncode([0xFB, 0xFF]) == "-_8"
  {
    var b: seq<Byte> := [0xFB, 0xFF];
    assert b[..2] == b && b[2..] == [];
    assert Sextets(b) == [62, 63, 60];
    assert StdChars([62, 63, 60]) == "+/8" && Padding(1) == "=";
    assert Base64(b) == StdChars([62, 63, 60]) + Padding(1);
    CleanGroup([62, 63, 60], 1);
    assert UrlChars([62, 63, 60]) == "-_8";
  }

  /** `generateCodeVerifier`: base64url of 32 random bytes. RFC 7636 section 4.1 asks for 43 to
      128 characters from the unreserved set; 32 bytes give exactly 43. */
  function GenerateCodeVerifier(random: seq<Byte>): (v: string)
    requires |random| == 32
    ensures |v| == 43 && 43 <= |v| <= 128
    ensures forall i :: 0 <= i < |v| ==> IsUrlSafe(v[i])
  {
    Base64UrlEncodeProperties(random, random);
    Base64UrlEncode(random)
  }

  /** A digest encodes to 43 URL-safe characters that decode back to it. */
  lemma DigestEncoding(digest: Digest)
    ensures |Base64UrlEncode(digest)| == 43
    ensures forall i :: 0 <= i < |Base64UrlEncode(digest)| ==> IsUrlSafe(Base64UrlEncode(digest)[i])
    ensures DecodeBase64Url(Base64UrlEncode(digest)) == digest
  {
    Base64UrlEncodeProperties(digest, digest);
    Base64UrlEncodeIsBase64Url(digest);
    Base64UrlRoundTrip(digest);
  }

  /** `generateCodeChallenge`: the S256 method of RFC 7636 section 4.2, base64url of the SHA-256
      digest of the verifier's UTF-8 bytes; a 32-byte digest gives 43 characters. */
  function GenerateCodeChallenge(verifier: string, sha256: seq<Byte> -> Digest): (c: string)
    ensures |c| == 43
    ensures forall i :: 0 <= i < |c| ==> IsUrlSafe(c[i])
    ensures DecodeBase64Url(c) == sha256(Utf8(verifier))
  {
    var digest := sha256(Utf8(verifier));
    DigestEncoding(digest);
    Base64UrlEncode(digest)
  }
}
