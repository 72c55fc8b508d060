/**
 * The hash functions the indexer depends on and the lowercase hexadecimal rendering of their
 * output (the `hex` crate, the "base16" alphabet of section 8 of RFC 4648 in lower case).
 * SHA-1 and SHA-256 themselves are not modelled: they are supplied as total functions with
 * the right output length.
 */
module Digests {
  import opened Wrappers
  import Utf8

  type Byte = Utf8.Byte

  type Sha1Digest = s: seq<Byte> | |s| == 20 witness seq(20, i => 0)
  type Sha256Digest = s: seq<Byte> | |s| == 32 witness seq(32, i => 0)

  /** The two digests the `sha1` (through `uuid`) and `sha2` crates compute. */
  datatype Crypto = Crypto(sha1: seq<Byte> -> Sha1Digest, sha256: seq<Byte> -> Sha256Digest)

  /** A digit of the lowercase hexadecimal alphabet "0123456789abcdef". */
  predicate IsHexDigit(c: char) {
    '0' <= c <= '9' || 'a' <= c <= 'f'
  }

  predicate IsLowerHex(s: string) {
    forall i :: 0 <= i < |s| ==> IsHexDigit(s[i])
  }

  /** The n-th digit of the alphabet. */
  function HexDigit(n: nat): (c: char)
    requires n < 16
    ensures IsHexDigit(c)
  {
    if n < 10 then ('0' as int + n) as char else ('a' as int + (n - 10)) as char
  }

  /** The value of a lowercase hexadecimal digit. */
  function HexValue(c: char): (r: Option<nat>)
    ensures r.Some? ==> r.value < 16
  {
    if '0' <= c <= '9' then Some(c as int - '0' as int)
    else if 'a' <= c <= 'f' then Some(c as int - 'a' as int + 10)
    else None
  }

  /** Exactly the digits of the alphabet have a value, and each value is spelled by its digit. */
  lemma {:induction false} HexValueMeaning(c: char)
    ensures HexValue(c).Some? <==> IsHexDigit(c)
    ensures HexValue(c).Some? ==> HexDigit(HexValue(c).value) == c
  {
  }

  lemma {:induction false} HexValueOfDigit(n: nat)
    requires n < 16
    ensures HexValue(HexDigit(n)) == Some(n)
  {
  }

  /** `hex::encode`: two lowercase digits per byte, high nibble first. */
  function HexEncode(bs: seq<Byte>): (r: string)
    ensures |r| == 2 * |bs|
  {
    if bs == [] then [] else [HexDigit(bs[0] / 16), HexDigit(bs[0] % 16)] + HexEncode(bs[1..])
  }

  /** Every character of a rendering is a lowercase hexadecimal digit. */
  lemma {:induction false} HexEncodeLowerHex(bs: seq<Byte>)
    ensures IsLowerHex(HexEncode(bs))
  {
    if bs != [] {
      HexEncodeLowerHex(bs[1..]);
      var r := HexEncode(bs);
      assert r == [HexDigit(bs[0] / 16), HexDigit(bs[0] % 16)] + HexEncode(bs[1..]);
      forall i | 0 <= i < |r| ensures IsHexDigit(r[i]) {
        if i >= 2 {
          assert r[i] == HexEncode(bs[1..])[i - 2];
        }
      }
    }
  }

  /** `hex::decode` restricted to lowercase input. */
  function HexDecode(s: string): (r: Option<seq<Byte>>)
    ensures r.Some? ==> 2 * |r.value| == |s|
  {
    if s == [] then Some([])
    else if |s| == 1 then None
    else
      var hi, lo, rest := HexValue(s[0]), HexValue(s[1]), HexDecode(s[2..]);
      if hi.Some? && lo.Some? && rest.Some? then Some([hi.value * 16 + lo.value] + rest.value) else None
  }

  /** Two digits followed by a decodable rest decode to the byte they spell followed by the rest. */
  lemma {:induction false} HexDecodePair(s: string, hi: nat, lo: nat, rest: seq<Byte>)
    requires |s| >= 2 && HexValue(s[0]) == Some(hi) && HexValue(s[1]) == Some(lo) && HexDecode(s[2..]) == Some(rest)
    ensures HexDecode(s) == Some([hi * 16 + lo] + rest)
  {
  }

  lemma {:induction false} Nibbles(b: Byte)
    ensures (b / 16) * 16 + b % 16 == b
  {
  }

  lemma {:induction false} HexRoundTrip(bs: seq<Byte>)
    ensures HexDecode(HexEncode(bs)) == Some(bs)
  {
    if bs != [] {
      var hi, lo := bs[0] / 16, bs[0] % 16;
      var r := HexEncode(bs);
      assert r == [HexDigit(hi), HexDigit(lo)] + HexEncode(bs[1..]);
      assert r[0] == HexDigit(hi) && r[1] == HexDigit(lo);
      assert r[2..] == HexEncode(bs[1..]);
      HexValueOfDigit(hi);
      HexValueOfDigit(lo);
      HexRoundTrip(bs[1..]);
      HexDecodePair(r, hi, lo, bs[1..]);
      Nibbles(bs[0]);
      assert bs == [bs[0]] + bs[1..];
    }
  }

  /** Distinct byte strings never share a hexadecimal rendering. */
  lemma {:induction false} HexInjective(a: seq<Byte>, b: seq<Byte>)
    requires HexEncode(a) == HexEncode(b)
    ensures a == b
  {
    HexRoundTrip(a);
    HexRoundTrip(b);
  }

  lemma {:induction false} HexAppend(a: seq<Byte>, b: seq<Byte>)
    ensures HexEncode(a + b) == HexEncode(a) + HexEncode(b)
  {
    if a == [] {
      assert a + b == b;
    } else {
      assert (a + b)[0] == a[0];
      assert (a + b)[1..] == a[1..] + b;
      HexAppend(a[1..], b);
    }
  }
}
