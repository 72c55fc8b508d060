/**
 * Name-based UUIDs (version 5, section 4.3 of RFC 4122) and their hyphenated lowercase text
 * form, as the `uuid` crate's `Uuid::new_v5` and `Uuid::to_string` produce them.
 */
module Uuid {
  import opened Wrappers
  import opened Digests

  type UuidBytes = s: seq<Byte> | |s| == 16 witness seq(16, i => 0)

  /** `Uuid::NAMESPACE_URL`, 6ba7b811-9dad-11d1-80b4-00c04fd430c8 (appendix C of RFC 4122). */
  const NamespaceUrl: UuidBytes :=
    [0x6b, 0xa7, 0xb8, 0x11, 0x9d, 0xad, 0x11, 0xd1, 0x80, 0xb4, 0x00, 0xc0, 0x4f, 0xd4, 0x30, 0xc8]

  /** The version of a UUID, the high nibble of octet 6. */
  function Version(u: UuidBytes): nat { u[6] / 16 }

  /** The two high bits of octet 8; RFC 4122 UUIDs carry 0b10 there. */
  function VariantBits(u: UuidBytes): nat { u[8] / 64 }

  /**
   * `Uuid::new_v5`: the first 16 octets of SHA-1(namespace ++ name) with the version nibble
   * set to 5 and the variant bits set to 0b10.
   */
  function NewV5(sha1: seq<Byte> -> Sha1Digest, namespace: UuidBytes, name: seq<Byte>): (u: UuidBytes)
    ensures Version(u) == 5 && VariantBits(u) == 2
    ensures forall i :: 0 <= i < 16 && i != 6 && i != 8 ==> u[i] == sha1(namespace + name)[i]
    ensures u[6] % 16 == sha1(namespace + name)[6] % 16
    ensures u[8] % 64 == sha1(namespace + name)[8] % 64
  {
    var h := sha1(namespace + name);
    h[..6] + [h[6] % 16 + 0x50] + h[7..8] + [h[8] % 64 + 0x80] + h[9..16]
  }

  /** `Uuid::to_string`: 8-4-4-4-12 lowercase hexadecimal digits separated by hyphens. */
  function ToText(u: UuidBytes): (r: string)
    ensures |r| == 36
    ensures r[8] == '-' && r[13] == '-' && r[18] == '-' && r[23] == '-'
  {
    HexEncode(u[..4]) + "-" + HexEncode(u[4..6]) + "-" + HexEncode(u[6..8]) + "-"
      + HexEncode(u[8..10]) + "-" + HexEncode(u[10..])
  }

  /** Reads the hyphenated form back. */
  function FromText(s: string): (r: Option<UuidBytes>)
  {
    if |s| != 36 || s[8] != '-' || s[13] != '-' || s[18] != '-' || s[23] != '-' then None
    else
      match HexDecode(s[..8] + s[9..13] + s[14..18] + s[19..23] + s[24..])
      case Some(bs) => if |bs| == 16 then Some(bs) else None
      case None => None
  }

  lemma {:induction false} TextRoundTrip(u: UuidBytes)
    ensures FromText(ToText(u)) == Some(u)
  {
    var a, b, c, d, e := HexEncode(u[..4]), HexEncode(u[4..6]), HexEncode(u[6..8]), HexEncode(u[8..10]), HexEncode(u[10..]);
    Dehyphenate(a, b, c, d, e);
    HexOfGroups(u);
    HexRoundTrip(u);
  }

  lemma {:induction false} Dehyphenate(a: string, b: string, c: string, d: string, e: string)
    requires |a| == 8 && |b| == 4 && |c| == 4 && |d| == 4 && |e| == 12
    ensures var s := a + "-" + b + "-" + c + "-" + d + "-" + e;
      s[..8] + s[9..13] + s[14..18] + s[19..23] + s[24..] == a + b + c + d + e
  {
    var s := a + "-" + b + "-" + c + "-" + d + "-" + e;
    assert s[..8] == a && s[9..13] == b && s[14..18] == c && s[19..23] == d && s[24..] == e;
  }

  lemma {:induction false} HexOfGroups(u: UuidBytes)
    ensures HexEncode(u[..4]) + HexEncode(u[4..6]) + HexEncode(u[6..8]) + HexEncode(u[8..10]) + HexEncode(u[10..])
      == HexEncode(u)
  {
    HexSplit(u, 4, 6);
    HexSplit(u, 6, 8);
    HexSplit(u, 8, 10);
    HexSplit(u, 10, 16);
    assert u[..16] == u;
  }

  lemma {:induction false} HexSplit(u: seq<Byte>, i: nat, j: nat)
    requires i <= j <= |u|
    ensures HexEncode(u[..j]) == HexEncode(u[..i]) + HexEncode(u[i..j])
  {
    assert u[..j] == u[..i] + u[i..j];
    HexAppend(u[..i], u[i..j]);
  }

  /** Different UUIDs have different text forms. */
  lemma {:induction false} ToTextInjective(u: UuidBytes, v: UuidBytes)
    requires ToText(u) == ToText(v)
    ensures u == v
  {
    TextRoundTrip(u);
    TextRoundTrip(v);
  }

  /** The text of a version-5 UUID shows '5' as its version digit and 8, 9, a or b as its variant digit. */
  lemma {:induction false} V5Text(u: UuidBytes)
    requires Version(u) == 5 && VariantBits(u) == 2
    ensures ToText(u)[14] == '5'
    ensures ToText(u)[19] in "89ab"
  {
    var s := ToText(u);
    var c, d := HexEncode(u[6..8]), HexEncode(u[8..10]);
    assert s[14] == c[0] && c[0] == HexDigit(u[6] / 16);
    assert s[19] == d[0] && d[0] == HexDigit(u[8] / 16);
    assert 8 <= u[8] / 16 < 12;
  }
}
