/**
 * The browser's `btoa`: the input string is read as Latin-1 (every character
 * must be below U+0100, otherwise `InvalidCharacterError` is thrown) and the
 * resulting bytes are encoded with the base 64 alphabet of section 4 of
 * RFC 4648, padded with `=`.
 */
module Base64 {
  import opened Wrappers

  type Byte = x: int | 0 <= x < 256
  type Sextet = x: int | 0 <= x < 64

  /** The DOMException `btoa` throws on a character outside Latin-1. */
  datatype Error = InvalidCharacterError

  /** Table 1 of RFC 4648: the character that encodes a 6-bit value. */
  function SextetChar(v: Sextet): (c: char)
    ensures c != '='
  {
    if v < 26 then ('A' as int + v) as char
    else if v < 52 then ('a' as int + (v - 26)) as char
    else if v < 62 then ('0' as int + (v - 52)) as char
    else if v == 62 then '+'
    else '/'
  }

  /** The 6-bit value a character of the alphabet stands for (0 for any other character). */
  function CharSextet(c: char): Sextet
  {
    if 'A' <= c <= 'Z' then c as int - 'A' as int
    else if 'a' <= c <= 'z' then c as int - 'a' as int + 26
    else if '0' <= c <= '9' then c as int - '0' as int + 52
    else if c == '+' then 62
    else if c == '/' then 63
    else 0
  }

  predicate InAlphabet(c: char)
  {
    'A' <= c <= 'Z' || 'a' <= c <= 'z' || '0' <= c <= '9' || c == '+' || c == '/'
  }

  lemma CharSextetInverse(v: Sextet)
    ensures InAlphabet(SextetChar(v)) && CharSextet(SextetChar(v)) == v
  {
  }

  /** Three bytes become four characters. */
  function EncodeBlock(a: Byte, b: Byte, c: Byte): string
  {
    [SextetChar(a / 4), SextetChar((a % 4) * 16 + b / 16),
     SextetChar((b % 16) * 4 + c / 64), SextetChar(c % 64)]
  }

  /** A final group of one or two bytes is padded with `=` to four characters. */
  function EncodeTail(t: seq<Byte>): string
    requires 1 <= |t| <= 2
  {
    if |t| == 1 then [SextetChar(t[0] / 4), SextetChar((t[0] % 4) * 16), '=', '=']
    else [SextetChar(t[0] / 4), SextetChar((t[0] % 4) * 16 + t[1] / 16), SextetChar((t[1] % 16) * 4), '=']
  }

  function Encode(bytes: seq<Byte>): (s: string)
    ensures |s| == 4 * ((|bytes| + 2) / 3)
    ensures forall i :: 0 <= i < |s| ==> InAlphabet(s[i]) || s[i] == '='
    decreases |bytes|
  {
    if |bytes| == 0 then ""
    else if |bytes| < 3 then
      EncodeTail(bytes)
    else
      EncodeBlock(bytes[0], bytes[1], bytes[2]) + Encode(bytes[3..])
  }

  /** The inverse of Encode: four characters give back up to three bytes. */
  function Decode(s: string): seq<Byte>
    decreases |s|
  {
    if |s| < 4 then []
    else
      var i0, i1, i2, i3 := CharSextet(s[0]), CharSextet(s[1]), CharSextet(s[2]), CharSextet(s[3]);
      var a, b, c := i0 * 4 + i1 / 16, (i1 % 16) * 16 + i2 / 4, (i2 % 4) * 64 + i3;
      if s[2] == '=' then [a]
      else if s[3] == '=' then [a, b]
      else [a, b, c] + Decode(s[4..])
  }

  /** The bit arithmetic of one block: the four sextets give back the three bytes. */
  lemma BlockArithmetic(a: Byte, b: Byte, c: Byte)
    ensures (a / 4) * 4 + ((a % 4) * 16 + b / 16) / 16 == a
    ensures (((a % 4) * 16 + b / 16) % 16) * 16 + ((b % 16) * 4 + c / 64) / 4 == b
    ensures (((b % 16) * 4 + c / 64) % 4) * 64 + c % 64 == c
  {
  }

  lemma DecodeEncodeBlock(a: Byte, b: Byte, c: Byte, rest: string)
    ensures Decode(EncodeBlock(a, b, c) + rest) == [a, b, c] + Decode(rest)
  {
    var s := EncodeBlock(a, b, c) + rest;
    CharSextetInverse(a / 4);
    CharSextetInverse((a % 4) * 16 + b / 16);
    CharSextetInverse((b % 16) * 4 + c / 64);
    CharSextetInverse(c % 64);
    BlockArithmetic(a, b, c);
    assert s[4..] == rest;
    assert s[2] != '=' && s[3] != '=';
  }

  lemma DecodeEncodeTail(t: seq<Byte>)
    requires 1 <= |t| <= 2
    ensures Decode(EncodeTail(t)) == t
  {
    var s := EncodeTail(t);
    if |t| == 1 {
      CharSextetInverse(t[0] / 4);
      CharSextetInverse((t[0] % 4) * 16);
      assert s[2] == '=';
    } else {
      CharSextetInverse(t[0] / 4);
      CharSextetInverse((t[0] % 4) * 16 + t[1] / 16);
      CharSextetInverse((t[1] % 16) * 4);
      assert s[2] != '=' && s[3] == '=';
    }
  }

  /** Decoding undoes encoding, for every byte sequence. */
  lemma {:induction false} DecodeEncode(bytes: seq<Byte>)
    ensures Decode(Encode(bytes)) == bytes
    decreases |bytes|
  {
    if |bytes| == 0 {
    } else if |bytes| < 3 {
      DecodeEncodeTail(bytes);
    } else {
      DecodeEncodeBlock(bytes[0], bytes[1], bytes[2], Encode(bytes[3..]));
      DecodeEncode(bytes[3..]);
      assert bytes == [bytes[0], bytes[1], bytes[2]] + bytes[3..];
    }
  }

  predicate IsLatin1(s: string)
  {
    forall i :: 0 <= i < |s| ==> s[i] as int < 256
  }

  /** The byte values of a Latin-1 string, one per character. */
  function Latin1Bytes(s: string): (bytes: seq<Byte>)
    requires IsLatin1(s)
    ensures |bytes| == |s| && forall i :: 0 <= i < |s| ==> bytes[i] == s[i] as int
  {
    seq(|s|, i requires 0 <= i < |s| => s[i] as int as Byte)
  }

  /** `btoa(s)`: fails exactly when some character is outside Latin-1. */
  function Btoa(s: string): (r: Result<string, Error>)
    ensures r.Ok? <==> IsLatin1(s)
    ensures r.Ok? ==> |r.value| == 4 * ((|s| + 2) / 3)
  {
    if IsLatin1(s) then Ok(Encode(Latin1Bytes(s))) else Err(InvalidCharacterError)
  }

  /** What `btoa` produces decodes back to the characters of its input. */
  lemma BtoaRoundTrip(s: string)
    requires IsLatin1(s)
    ensures Btoa(s).Ok? && Decode(Btoa(s).value) == Latin1Bytes(s)
  {
    DecodeEncode(Latin1Bytes(s));
  }

  lemma BtoaExample()
    ensures Btoa("alice") == Ok("YWxpY2U=")
  {
    var b := Latin1Bytes("alice");
    assert b == [97, 108, 105, 99, 101];
    assert b[3..] == [99, 101];
    assert EncodeBlock(97, 108, 105) == "YWxp";
    assert EncodeTail([99, 101]) == "Y2U=";
    assert Encode(b[3..]) == "Y2U=";
    assert Encode(b) == EncodeBlock(b[0], b[1], b[2]) + Encode(b[3..]);
    assert IsLatin1("alice");
    assert Btoa("alice") == Ok(Encode(b));
    assert Encode(b) == "YWxp" + "Y2U=";
    assert "YWxp" + "Y2U=" == "YWxpY2U=";
  }
}
