/**
 * UTF-8 (RFC 3629), the encoding of every Rust `str`: the byte width of a character, the
 * byte length of a string (`str::len`), the encoding itself, and what a byte offset
 * falling on a character boundary means.
 */
module Utf8 {

  type Byte = b: int | 0 <= b < 256

  /** The number of bytes section 3 of RFC 3629 uses for c. */
  function Width(c: char): (w: nat)
    ensures 1 <= w <= 4
    ensures w == 1 <==> c as int < 0x80
  {
    if c as int < 0x80 then 1
    else if c as int < 0x800 then 2
    else if c as int < 0x10000 then 3
    else 4
  }

  /** `str::len`: the length of s in UTF-8 bytes. */
  function ByteLen(s: string): (n: nat)
    ensures |s| <= n <= 4 * |s|
  {
    if s == [] then 0 else Width(s[0]) + ByteLen(s[1..])
  }

  lemma {:induction false} ByteLenAppend(a: string, b: string)
    ensures ByteLen(a + b) == ByteLen(a) + ByteLen(b)
  {
    if a == [] {
      assert a + b == b;
    } else {
      assert (a + b)[0] == a[0];
      assert (a + b)[1..] == a[1..] + b;
      ByteLenAppend(a[1..], b);
    }
  }

  /** A string of ASCII characters has one byte per character. */
  lemma {:induction false} ByteLenAscii(s: string)
    requires forall i :: 0 <= i < |s| ==> s[i] as int < 0x80
    ensures ByteLen(s) == |s|
  {
    if s != [] {
      ByteLenAscii(s[1..]);
    }
  }

  /** The encoding of one character, section 3 of RFC 3629. */
  function EncodeChar(c: char): (bs: seq<Byte>)
    ensures |bs| == Width(c)
    ensures |bs| == 1 ==> bs[0] == c as int
    ensures |bs| > 1 ==> bs[0] >= 0xC0 && forall i :: 1 <= i < |bs| ==> 0x80 <= bs[i] < 0xC0
  {
    var n := c as int;
    if n < 0x80 then [n]
    else if n < 0x800 then [0xC0 + n / 64, 0x80 + n % 64]
    else if n < 0x10000 then [0xE0 + n / 4096, 0x80 + (n / 64) % 64, 0x80 + n % 64]
    else [0xF0 + n / 262144, 0x80 + (n / 4096) % 64, 0x80 + (n / 64) % 64, 0x80 + n % 64]
  }

  /** `str::as_bytes`. */
  function Encode(s: string): (bs: seq<Byte>)
    ensures |bs| == ByteLen(s)
  {
    if s == [] then [] else EncodeChar(s[0]) + Encode(s[1..])
  }

  lemma {:induction false} EncodeAppend(a: string, b: string)
    ensures Encode(a + b) == Encode(a) + Encode(b)
  {
    if a == [] {
      assert a + b == b;
    } else {
      assert (a + b)[0] == a[0];
      assert (a + b)[1..] == a[1..] + b;
      EncodeAppend(a[1..], b);
    }
  }

  /** Only the character U+0000 is encoded with a zero byte. */
  lemma {:induction false} EncodeNoNul(s: string)
    requires '\0' !in s
    ensures 0 !in Encode(s)
  {
    if s != [] {
      assert '\0' !in s[1..];
      EncodeNoNul(s[1..]);
      assert EncodeChar(s[0])[0] != 0;
    }
  }

  /** The scalar value encoded at the front of bs, or -1 when the bytes run out. */
  function DecodeChar(bs: seq<Byte>): int
    requires |bs| >= 1
  {
    var b0 := bs[0] as int;
    if b0 < 0x80 then b0
    else if b0 < 0xE0 && |bs| >= 2 then (b0 - 0xC0) * 64 + (bs[1] as int - 0x80)
    else if b0 < 0xF0 && |bs| >= 3 then (b0 - 0xE0) * 4096 + (bs[1] as int - 0x80) * 64 + (bs[2] as int - 0x80)
    else if |bs| >= 4 then
      (b0 - 0xF0) * 262144 + (bs[1] as int - 0x80) * 4096 + (bs[2] as int - 0x80) * 64 + (bs[3] as int - 0x80)
    else -1
  }

  /** The character at the front of an encoding is decoded whatever follows it. */
  lemma {:induction false} EncodeCharRoundTrip(c: char, rest: seq<Byte>)
    ensures DecodeChar(EncodeChar(c) + rest) == c as int
  {
    var n := c as int;
    var e := EncodeChar(c);
    var bs := e + rest;
    assert forall i :: 0 <= i < |e| ==> bs[i] == e[i];
    if n < 0x80 {
    } else if n < 0x800 {
      assert n == (n / 64) * 64 + n % 64;
    } else if n < 0x10000 {
      Split3(n);
    } else {
      Split4(n);
    }
  }

  lemma {:induction false} Split3(n: int)
    requires 0 <= n
    ensures n == (n / 4096) * 4096 + ((n / 64) % 64) * 64 + n % 64
  {
    var q := n / 64;
    assert n == q * 64 + n % 64;
    assert q == (q / 64) * 64 + q % 64;
    assert q / 64 == n / 4096;
  }

  lemma {:induction false} Split4(n: int)
    requires 0 <= n
    ensures n == (n / 262144) * 262144 + ((n / 4096) % 64) * 4096 + ((n / 64) % 64) * 64 + n % 64
  {
    var q := n / 64;
    var r := q / 64;
    assert n == q * 64 + n % 64;
    assert q == r * 64 + q % 64;
    assert r == (r / 64) * 64 + r % 64;
    assert r == n / 4096;
    assert r / 64 == n / 262144;
  }

  /** Different characters never share an encoding, so `Encode` loses nothing. */
  lemma {:induction false} EncodeCharInjective(c: char, d: char)
    requires EncodeChar(c) == EncodeChar(d)
    ensures c == d
  {
    EncodeCharRoundTrip(c, []);
    EncodeCharRoundTrip(d, []);
  }

  /** Equal encodings come from equal strings. */
  lemma {:induction false} EncodeInjective(s: string, t: string)
    requires Encode(s) == Encode(t)
    ensures s == t
  {
    if s != [] && t != [] {
      var es, et := EncodeChar(s[0]), EncodeChar(t[0]);
      EncodeCharRoundTrip(s[0], Encode(s[1..]));
      EncodeCharRoundTrip(t[0], Encode(t[1..]));
      assert s[0] == t[0];
      assert Encode(s[1..]) == Encode(s)[|es|..];
      assert Encode(t[1..]) == Encode(t)[|et|..];
      EncodeInjective(s[1..], t[1..]);
    }
  }

  /** The longest prefix of s whose encoding fits in max bytes. */
  function CapBytes(s: string, max: nat): (r: string)
    ensures |r| <= |s| && r == s[..|r|]
    ensures ByteLen(r) <= max
    ensures |r| == |s| || ByteLen(r) + Width(s[|r|]) > max
  {
    if s == [] || Width(s[0]) > max then []
    else
      var rest := CapBytes(s[1..], max - Width(s[0]));
      var r := [s[0]] + rest;
      assert r[1..] == rest;
      r
  }

  /** A string that fits is kept whole. */
  lemma {:induction false} CapBytesWhole(s: string, max: nat)
    requires ByteLen(s) <= max
    ensures CapBytes(s, max) == s
  {
    if s != [] {
      CapBytesWhole(s[1..], max - Width(s[0]));
    }
  }

  /** `str::is_char_boundary(b)`: the first b bytes are the encoding of some prefix. */
  predicate IsCharBoundary(s: string, b: nat) {
    ByteLen(CapBytes(s, b)) == b
  }

  /** The prefix of s that ends exactly k characters in is what `CapBytes` keeps for its byte length. */
  lemma {:induction false} CapBytesOfPrefix(s: string, k: nat)
    requires k <= |s|
    ensures CapBytes(s, ByteLen(s[..k])) == s[..k]
  {
    if k > 0 {
      var p := s[..k];
      assert p[0] == s[0];
      assert p[1..] == s[1..][..k - 1];
      CapBytesOfPrefix(s[1..], k - 1);
    }
  }

  /** The boundary test agrees with its definition: b bytes are exactly some prefix. */
  lemma {:induction false} CharBoundaryMeaning(s: string, b: nat)
    ensures IsCharBoundary(s, b) <==> exists k :: 0 <= k <= |s| && ByteLen(s[..k]) == b
  {
    if IsCharBoundary(s, b) {
      var r := CapBytes(s, b);
      assert ByteLen(s[..|r|]) == b;
    }
    if k :| 0 <= k <= |s| && ByteLen(s[..k]) == b {
      CapBytesOfPrefix(s, k);
    }
  }

  /** Offset 0 and the full byte length are always character boundaries. */
  lemma {:induction false} EndsAreBoundaries(s: string)
    ensures IsCharBoundary(s, 0) && IsCharBoundary(s, ByteLen(s))
  {
    CapBytesOfPrefix(s, 0);
    CapBytesOfPrefix(s, |s|);
    assert s[..|s|] == s;
  }
}
