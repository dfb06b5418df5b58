/**
 * The random disambiguation token: `crypto.randomBytes(length).toString('hex')`.
 * The random bytes themselves are an input; the model covers the encoding.
 */
module Tokens {
  import opened Results

  type Byte = b: int | 0 <= b < 256

  /** Number of random bytes the uploader asks for (the default `length`). */
  const DefaultLength: nat := 10

  const HexDigits: string := "0123456789abcdef"

  predicate IsLowerHex(c: char) {
    '0' <= c <= '9' || 'a' <= c <= 'f'
  }

  /** The shape of every token the uploader inserts: 20 lower-case hex digits. */
  predicate IsToken(t: string) {
    |t| == 2 * DefaultLength && forall i :: 0 <= i < |t| ==> IsLowerHex(t[i])
  }

  function HexDigit(n: nat): (c: char)
    requires n < 16
    ensures IsLowerHex(c)
  {
    HexDigits[n]
  }

  /** The value of a lower-case hex digit; `None` for any other character. */
  function HexValue(c: char): (r: Option<nat>)
    ensures r.Some? <==> IsLowerHex(c)
    ensures r.Some? ==> r.value < 16 && HexDigit(r.value) == c
  {
    if '0' <= c <= '9' then Some(c as int - '0' as int)
    else if 'a' <= c <= 'f' then Some(c as int - 'a' as int + 10)
    else None
  }

  lemma HexValueOfDigit(n: nat)
    requires n < 16
    ensures HexValue(HexDigit(n)) == Some(n)
  {
  }

  /** Node's `'hex'` encoding: two lower-case digits per byte, high nibble first. */
  function HexEncode(bytes: seq<Byte>): (s: string)
    ensures |s| == 2 * |bytes|
    ensures forall i :: 0 <= i < |s| ==> IsLowerHex(s[i])
  {
    if bytes == [] then ""
    else [HexDigit(bytes[0] / 16), HexDigit(bytes[0] % 16)] + HexEncode(bytes[1..])
  }

  /** The inverse of `HexEncode`: fails on an odd length or a character that is not a lower-case hex digit. */
  function HexDecode(s: string): (r: Option<seq<Byte>>)
    ensures r.Some? ==> 2 * |r.value| == |s|
    decreases |s|
  {
    if s == [] then Some([])
    else if |s| < 2 then None
    else match (HexValue(s[0]), HexValue(s[1]), HexDecode(s[2..]))
      case (Some(hi), Some(lo), Some(rest)) => Some([hi * 16 + lo] + rest)
      case _ => None
  }

  /** Decoding reads one byte from the first two digits and decodes the rest on its own. */
  lemma HexDecodeCons(c0: char, c1: char, rest: string, hi: nat, lo: nat, tail: seq<Byte>)
    requires HexValue(c0) == Some(hi) && HexValue(c1) == Some(lo) && HexDecode(rest) == Some(tail)
    ensures HexDecode([c0, c1] + rest) == Some([hi * 16 + lo] + tail)
  {
    var s := [c0, c1] + rest;
    assert s[0] == c0 && s[1] == c1 && s[2..] == rest;
  }

  lemma {:induction false} HexDecodeEncode(bytes: seq<Byte>)
    ensures HexDecode(HexEncode(bytes)) == Some(bytes)
  {
    if bytes != [] {
      var b := bytes[0];
      var hi, lo := b / 16, b % 16;
      HexDecodeEncode(bytes[1..]);
      HexValueOfDigit(hi);
      HexValueOfDigit(lo);
      HexDecodeCons(HexDigit(hi), HexDigit(lo), HexEncode(bytes[1..]), hi, lo, bytes[1..]);
      assert [hi * 16 + lo] + bytes[1..] == bytes by {
        assert hi * 16 + lo == b;
      }
    }
  }

  lemma {:induction false} HexEncodeDecode(s: string)
    requires HexDecode(s).Some?
    ensures HexEncode(HexDecode(s).value) == s
    decreases |s|
  {
    if s != [] {
      var hi, lo := HexValue(s[0]).value, HexValue(s[1]).value;
      var rest := HexDecode(s[2..]).value;
      HexEncodeDecode(s[2..]);
      var b := hi * 16 + lo;
      assert b / 16 == hi && b % 16 == lo;
      assert HexDecode(s).value == [b] + rest;
      assert s == [s[0], s[1]] + s[2..];
    }
  }

  /** Exactly the even-length strings of lower-case hex digits decode. */
  lemma {:induction false} HexDecodeDefined(s: string)
    ensures HexDecode(s).Some? <==> |s| % 2 == 0 && forall i :: 0 <= i < |s| ==> IsLowerHex(s[i])
    decreases |s|
  {
    if |s| >= 2 {
      HexDecodeDefined(s[2..]);
      assert forall i :: 2 <= i < |s| ==> s[i] == s[2..][i - 2];
    }
  }

  /** `generateRandomString`: the hex encoding of the random bytes, which it determines uniquely. */
  function GenerateRandomString(randomBytes: seq<Byte>): (token: string)
    ensures |token| == 2 * |randomBytes|
    ensures |randomBytes| == DefaultLength ==> IsToken(token)
    ensures HexDecode(token) == Some(randomBytes)
  {
    HexDecodeEncode(randomBytes);
    HexEncode(randomBytes)
  }

  /** A token can never be mistaken for a key separator. */
  lemma TokenHasNoSeparator(t: string)
    requires IsToken(t)
    ensures '/' !in t && '-' !in t
  {
  }
}
