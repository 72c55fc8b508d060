/**
 * Deterministic identities for stored points: the canonical document key, the version-5 UUID
 * derived from it, and the SHA-256 content hash over a document's signature, doc comment and
 * code.
 */
module IdGenerator {
  import opened Wrappers
  import opened Strings
  import Utf8
  import opened Digests
  import Uuid

  /**
   * `canonical_document_key`: "repo=R|path=P|symbol=S|type=K" over the trimmed fields,
   * with the kind also lower-cased.
   */
  function CanonicalKey(repo: string, path: string, symbol: string, kind: string): (k: string)
    ensures var f := KeyFieldsOf(repo, path, symbol, kind);
      k == "repo=" + f.repo + "|path=" + f.path + "|symbol=" + f.symbol + "|type=" + f.kind
    ensures StartsWith(k, "repo=")
  {
    "repo=" + Trim(repo) + "|path=" + Trim(path) + "|symbol=" + Trim(symbol) + "|type=" + ToLowerAscii(Trim(kind))
  }

  datatype KeyFields = KeyFields(repo: string, path: string, symbol: string, kind: string)

  /** The fields a key is built from: trimmed, and the kind lower-cased. */
  function KeyFieldsOf(repo: string, path: string, symbol: string, kind: string): KeyFields {
    KeyFields(Trim(repo), Trim(path), Trim(symbol), ToLowerAscii(Trim(kind)))
  }

  /** A '|'-free field followed by '|' can be read back from the front of a string. */
  lemma {:induction false} FieldUnique(pre: string, a: string, b: string, c: string, d: string)
    requires '|' !in a && '|' !in c
    requires pre + a + "|" + b == pre + c + "|" + d
    ensures a == c && b == d
  {
    var x, y := pre + a + "|" + b, pre + c + "|" + d;
    assert x[|pre|..] == a + ['|'] + b;
    assert y[|pre|..] == c + ['|'] + d;
    IndexOfAfter(a, '|', b);
    IndexOfAfter(c, '|', d);
    assert (a + ['|'] + b)[..|a|] == a && (a + ['|'] + b)[|a| + 1..] == b;
    assert (c + ['|'] + d)[..|c|] == c && (c + ['|'] + d)[|c| + 1..] == d;
  }

  lemma {:induction false} KeyRegroup(r: string, p: string, s: string, t: string)
    ensures "repo=" + r + "|path=" + p + "|symbol=" + s + "|type=" + t
      == "repo=" + r + "|" + ("path=" + p + "|" + ("symbol=" + s + "|" + ("type=" + t)))
  {
    assert "|path=" == "|" + "path=" && "|symbol=" == "|" + "symbol=" && "|type=" == "|" + "type=";
  }

  /**
   * Two documents share a canonical key only when their trimmed identities agree, provided the
   * repository, path and symbol contain no '|' (the kind, last in the key, may contain anything).
   */
  lemma {:induction false} KeyInjective(a: KeyFields, b: KeyFields)
    requires '|' !in Trim(a.repo) && '|' !in Trim(a.path) && '|' !in Trim(a.symbol)
    requires '|' !in Trim(b.repo) && '|' !in Trim(b.path) && '|' !in Trim(b.symbol)
    requires CanonicalKey(a.repo, a.path, a.symbol, a.kind) == CanonicalKey(b.repo, b.path, b.symbol, b.kind)
    ensures KeyFieldsOf(a.repo, a.path, a.symbol, a.kind) == KeyFieldsOf(b.repo, b.path, b.symbol, b.kind)
  {
    var fa, fb := KeyFieldsOf(a.repo, a.path, a.symbol, a.kind), KeyFieldsOf(b.repo, b.path, b.symbol, b.kind);
    KeyRegroup(fa.repo, fa.path, fa.symbol, fa.kind);
    KeyRegroup(fb.repo, fb.path, fb.symbol, fb.kind);
    var a3, b3 := "type=" + fa.kind, "type=" + fb.kind;
    var a2, b2 := "symbol=" + fa.symbol + "|" + a3, "symbol=" + fb.symbol + "|" + b3;
    var a1, b1 := "path=" + fa.path + "|" + a2, "path=" + fb.path + "|" + b2;
    FieldUnique("repo=", fa.repo, a1, fb.repo, b1);
    FieldUnique("path=", fa.path, a2, fb.path, b2);
    FieldUnique("symbol=", fa.symbol, a3, fb.symbol, b3);
    assert fa.kind == a3[5..] && fb.kind == b3[5..];
  }

  /** Whitespace around any field does not change the key. */
  lemma {:induction false} KeyIgnoresPadding(repo: string, path: string, symbol: string, kind: string, w1: string, w2: string)
    requires AllWhitespace(w1) && AllWhitespace(w2)
    ensures CanonicalKey(w1 + repo + w2, w1 + path + w2, w1 + symbol + w2, w1 + kind + w2)
      == CanonicalKey(repo, path, symbol, kind)
  {
    TrimPadded(w1, repo, w2);
    TrimPadded(w1, path, w2);
    TrimPadded(w1, symbol, w2);
    TrimPadded(w1, kind, w2);
  }

  /** Kinds that differ only in the case of their ASCII letters give the same key. */
  lemma {:induction false} KeyIgnoresKindCase(repo: string, path: string, symbol: string, kind1: string, kind2: string)
    requires ToLowerAscii(kind1) == ToLowerAscii(kind2)
    ensures CanonicalKey(repo, path, symbol, kind1) == CanonicalKey(repo, path, symbol, kind2)
  {
    TrimLower(kind1);
    TrimLower(kind2);
  }

  /** `deterministic_point_id`: the textual UUIDv5 of the key's UTF-8 bytes in the URL namespace. */
  function PointId(crypto: Crypto, repo: string, path: string, symbol: string, kind: string): (id: string)
    ensures |id| == 36 && id[8] == '-' && id[13] == '-' && id[18] == '-' && id[23] == '-'
    ensures id[14] == '5' && id[19] in "89ab"
  {
    var u := Uuid.NewV5(crypto.sha1, Uuid.NamespaceUrl, Utf8.Encode(CanonicalKey(repo, path, symbol, kind)));
    Uuid.V5Text(u);
    Uuid.ToText(u)
  }

  /**
   * Two points get the same id exactly when SHA-1 agrees on the parts of the two key digests
   * the UUID keeps; ids differ as soon as those UUID bytes differ.
   */
  lemma {:induction false} PointIdsEqualIffUuidsEqual(crypto: Crypto, a: KeyFields, b: KeyFields)
    ensures (PointId(crypto, a.repo, a.path, a.symbol, a.kind) == PointId(crypto, b.repo, b.path, b.symbol, b.kind))
      <==> (Uuid.NewV5(crypto.sha1, Uuid.NamespaceUrl, Utf8.Encode(CanonicalKey(a.repo, a.path, a.symbol, a.kind)))
            == Uuid.NewV5(crypto.sha1, Uuid.NamespaceUrl, Utf8.Encode(CanonicalKey(b.repo, b.path, b.symbol, b.kind))))
  {
    var u := Uuid.NewV5(crypto.sha1, Uuid.NamespaceUrl, Utf8.Encode(CanonicalKey(a.repo, a.path, a.symbol, a.kind)));
    var v := Uuid.NewV5(crypto.sha1, Uuid.NamespaceUrl, Utf8.Encode(CanonicalKey(b.repo, b.path, b.symbol, b.kind)));
    if Uuid.ToText(u) == Uuid.ToText(v) {
      Uuid.ToTextInjective(u, v);
    }
  }

  // ---------------------------------------------------------------- content hash

  /** `b"SIG\0"`, `b"DOC\0"` and `b"CODE\0"`, the separators fed to the hasher. */
  const SigTag: seq<Byte> := [0x53, 0x49, 0x47, 0]
  const DocTag: seq<Byte> := [0x44, 0x4F, 0x43, 0]
  const CodeTag: seq<Byte> := [0x43, 0x4F, 0x44, 0x45, 0]

  lemma {:induction false} TagsSpellTheirNames()
    ensures Utf8.Encode("SIG\0") == SigTag && Utf8.Encode("DOC\0") == DocTag && Utf8.Encode("CODE\0") == CodeTag
  {
  }

  /** The bytes `content_hash` feeds to SHA-256, in order; an absent part contributes nothing. */
  function HashInput(signature: Option<string>, doc: Option<string>, code: string): (bs: seq<Byte>)
    ensures EndsWithBytes(bs, CodeTag + Utf8.Encode(code))
  {
    var pre := (if signature.Some? then SigTag + Utf8.Encode(signature.value) else [])
      + (if doc.Some? then DocTag + Utf8.Encode(doc.value) else []);
    EndsWithTail(pre, CodeTag, Utf8.Encode(code));
    pre + CodeTag + Utf8.Encode(code)
  }

  lemma {:induction false} EndsWithTail(pre: seq<Byte>, tag: seq<Byte>, tail: seq<Byte>)
    ensures EndsWithBytes(pre + tag + tail, tag + tail)
  {
    var s := pre + tag + tail;
    assert s[|s| - |tag + tail|..] == tag + tail;
  }

  predicate EndsWithBytes(s: seq<Byte>, p: seq<Byte>) {
    |p| <= |s| && s[|s| - |p|..] == p
  }

  /** `content_hash`: the lowercase hex SHA-256 of `HashInput`. */
  function ContentHash(crypto: Crypto, signature: Option<string>, doc: Option<string>, code: string): (h: string)
    ensures |h| == 64
  {
    HexEncode(crypto.sha256(HashInput(signature, doc, code)))
  }

  /** The content hash is 64 lowercase hexadecimal digits. */
  lemma {:induction false} ContentHashLowerHex(crypto: Crypto, signature: Option<string>, doc: Option<string>, code: string)
    ensures IsLowerHex(ContentHash(crypto, signature, doc, code))
  {
    HexEncodeLowerHex(crypto.sha256(HashInput(signature, doc, code)));
  }

  datatype HashParts = HashParts(signature: Option<seq<Byte>>, doc: Option<seq<Byte>>, code: seq<Byte>)

  /**
   * Splits `rest` at the first tag that ends in its first NUL byte: `DOC\0` (true) or
   * `CODE\0` (false), returning what precedes the tag and what follows it.
   */
  function SplitAtTag(rest: seq<Byte>): Option<(seq<Byte>, bool, seq<Byte>)> {
    match IndexOf(rest, 0)
    case None => None
    case Some(p) =>
      if p >= 3 && rest[p - 3..p + 1] == DocTag then Some((rest[..p - 3], true, rest[p + 1..]))
      else if p >= 4 && rest[p - 4..p + 1] == CodeTag then Some((rest[..p - 4], false, rest[p + 1..]))
      else None
  }

  /** Reads the three parts back out of a hash input. */
  function ParseHashInput(bs: seq<Byte>): Option<HashParts> {
    if |bs| >= 4 && bs[..4] == SigTag then
      match SplitAtTag(bs[4..])
      case Some((sig, true, rest)) =>
        (match SplitAtTag(rest)
         case Some((doc, false, code)) => Some(HashParts(Some(sig), Some(doc), code))
         case _ => None)
      case Some((sig, false, code)) => Some(HashParts(Some(sig), None, code))
      case None => None
    else if |bs| >= 4 && bs[..4] == DocTag then
      match SplitAtTag(bs[4..])
      case Some((doc, false, code)) => Some(HashParts(None, Some(doc), code))
      case _ => None
    else if |bs| >= 5 && bs[..5] == CodeTag then Some(HashParts(None, None, bs[5..]))
    else None
  }

  lemma {:induction false} SplitAtDocTag(x: seq<Byte>, y: seq<Byte>)
    requires 0 !in x
    ensures SplitAtTag(x + DocTag + y) == Some((x, true, y))
  {
    var s := x + DocTag + y;
    assert s == (x + [0x44, 0x4F, 0x43]) + [0] + y;
    assert 0 !in x + [0x44, 0x4F, 0x43];
    IndexOfAfter(x + [0x44, 0x4F, 0x43], 0, y);
    var p := |x| + 3;
    assert s[p - 3..p + 1] == DocTag;
    assert s[..p - 3] == x && s[p + 1..] == y;
  }

  lemma {:induction false} SplitAtCodeTag(x: seq<Byte>, y: seq<Byte>)
    requires 0 !in x
    ensures SplitAtTag(x + CodeTag + y) == Some((x, false, y))
  {
    var s := x + CodeTag + y;
    assert s == (x + [0x43, 0x4F, 0x44, 0x45]) + [0] + y;
    assert 0 !in x + [0x43, 0x4F, 0x44, 0x45];
    IndexOfAfter(x + [0x43, 0x4F, 0x44, 0x45], 0, y);
    var p := |x| + 4;
    assert s[p - 3] == 0x4F;
    assert s[p - 4..p + 1] == CodeTag;
    assert s[..p - 4] == x && s[p + 1..] == y;
  }

  function EncodeOpt(o: Option<string>): Option<seq<Byte>> {
    match o
    case None => None
    case Some(s) => Some(Utf8.Encode(s))
  }

  predicate NulFree(o: Option<string>) {
    o.Some? ==> '\0' !in o.value
  }

  /**
   * The hash input determines the parts it was built from whenever the signature and the doc
   * comment contain no NUL character; code may contain anything.
   */
  lemma {:induction false} HashInputRoundTrip(signature: Option<string>, doc: Option<string>, code: string)
    requires NulFree(signature) && NulFree(doc)
    ensures ParseHashInput(HashInput(signature, doc, code))
      == Some(HashParts(EncodeOpt(signature), EncodeOpt(doc), Utf8.Encode(code)))
  {
    match (signature, doc) {
      case (Some(sig), Some(d)) => RoundTripSigDoc(sig, d, code);
      case (Some(sig), None) => RoundTripSigOnly(sig, code);
      case (None, Some(d)) => RoundTripDocOnly(d, code);
      case (None, None) => RoundTripCodeOnly(code);
    }
  }

  lemma {:induction false} RoundTripSigDoc(sig: string, d: string, code: string)
    requires '\0' !in sig && '\0' !in d
    ensures ParseHashInput(HashInput(Some(sig), Some(d), code))
      == Some(HashParts(Some(Utf8.Encode(sig)), Some(Utf8.Encode(d)), Utf8.Encode(code)))
  {
    Utf8.EncodeNoNul(sig);
    Utf8.EncodeNoNul(d);
    var sb, db, c := Utf8.Encode(sig), Utf8.Encode(d), Utf8.Encode(code);
    ParseSigDoc(sb, db, c);
  }

  lemma {:induction false} RoundTripSigOnly(sig: string, code: string)
    requires '\0' !in sig
    ensures ParseHashInput(HashInput(Some(sig), None, code))
      == Some(HashParts(Some(Utf8.Encode(sig)), None, Utf8.Encode(code)))
  {
    Utf8.EncodeNoNul(sig);
    var sb := Utf8.Encode(sig);
    assert HashInput(Some(sig), None, code) == SigTag + sb + CodeTag + Utf8.Encode(code) by {
      assert SigTag + sb + [] == SigTag + sb;
    }
    ParseSigOnly(sb, Utf8.Encode(code));
  }

  lemma {:induction false} RoundTripDocOnly(d: string, code: string)
    requires '\0' !in d
    ensures ParseHashInput(HashInput(None, Some(d), code))
      == Some(HashParts(None, Some(Utf8.Encode(d)), Utf8.Encode(code)))
  {
    Utf8.EncodeNoNul(d);
    var db := Utf8.Encode(d);
    assert HashInput(None, Some(d), code) == DocTag + db + CodeTag + Utf8.Encode(code) by {
      assert [] + (DocTag + db) == DocTag + db;
    }
    ParseDocOnly(db, Utf8.Encode(code));
  }

  lemma {:induction false} RoundTripCodeOnly(code: string)
    ensures ParseHashInput(HashInput(None, None, code)) == Some(HashParts(None, None, Utf8.Encode(code)))
  {
    assert HashInput(None, None, code) == CodeTag + Utf8.Encode(code) by {
      assert [] + [] + CodeTag == CodeTag;
    }
    ParseCodeOnly(Utf8.Encode(code));
  }

  lemma {:induction false} ParseSigDoc(sb: seq<Byte>, db: seq<Byte>, c: seq<Byte>)
    requires 0 !in sb && 0 !in db
    ensures ParseHashInput(SigTag + sb + (DocTag + db) + CodeTag + c) == Some(HashParts(Some(sb), Some(db), c))
  {
    var bs := SigTag + sb + (DocTag + db) + CodeTag + c;
    assert bs[..4] == SigTag && bs[4..] == sb + DocTag + (db + CodeTag + c);
    SplitAtDocTag(sb, db + CodeTag + c);
    SplitAtCodeTag(db, c);
  }

  lemma {:induction false} ParseSigOnly(sb: seq<Byte>, c: seq<Byte>)
    requires 0 !in sb
    ensures ParseHashInput(SigTag + sb + CodeTag + c) == Some(HashParts(Some(sb), None, c))
  {
    var bs := SigTag + sb + CodeTag + c;
    assert bs[..4] == SigTag && bs[4..] == sb + CodeTag + c;
    SplitAtCodeTag(sb, c);
  }

  lemma {:induction false} ParseDocOnly(db: seq<Byte>, c: seq<Byte>)
    requires 0 !in db
    ensures ParseHashInput(DocTag + db + CodeTag + c) == Some(HashParts(None, Some(db), c))
  {
    var bs := DocTag + db + CodeTag + c;
    assert bs[..4] == DocTag && bs[4..] == db + CodeTag + c;
    assert bs[..4] != SigTag;
    SplitAtCodeTag(db, c);
  }

  lemma {:induction false} ParseCodeOnly(c: seq<Byte>)
    ensures ParseHashInput(CodeTag + c) == Some(HashParts(None, None, c))
  {
    var bs := CodeTag + c;
    assert bs[..5] == CodeTag && bs[5..] == c;
    assert bs[..4][0] == 0x43;
  }

  lemma {:induction false} EncodeOptInjective(a: Option<string>, b: Option<string>)
    requires EncodeOpt(a) == EncodeOpt(b)
    ensures a == b
  {
    if a.Some? && b.Some? {
      Utf8.EncodeInjective(a.value, b.value);
    }
  }

  /**
   * Different documents feed SHA-256 different bytes: a changed signature, doc comment or code,
   * and also an absent part versus an empty one, all change the hash input.
   */
  lemma {:induction false} HashInputInjective(s1: Option<string>, d1: Option<string>, c1: string, s2: Option<string>, d2: Option<string>, c2: string)
    requires NulFree(s1) && NulFree(d1) && NulFree(s2) && NulFree(d2)
    requires HashInput(s1, d1, c1) == HashInput(s2, d2, c2)
    ensures s1 == s2 && d1 == d2 && c1 == c2
  {
    HashInputRoundTrip(s1, d1, c1);
    HashInputRoundTrip(s2, d2, c2);
    EncodeOptInjective(s1, s2);
    EncodeOptInjective(d1, d2);
    Utf8.EncodeInjective(c1, c2);
  }
}
