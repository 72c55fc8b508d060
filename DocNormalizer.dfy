/**
 * The normaliser that turns an extracted document into the record that is embedded and
 * stored: the trimmed signature and doc comment, the cleaned and capped code, the kind's
 * name, and the content hash over those normalised parts.
 */
module DocNormalizer {
  import opened Wrappers
  import opened Strings
  import opened Utf8
  import opened Digests
  import IdGenerator
  import opened RustParser

  /** `DocNormalizer`: the byte cap on the code field. */
  datatype Normalizer = Normalizer(maxCodeChars: nat)

  /** `DocNormalizer::default()`. */
  const DefaultNormalizer := Normalizer(100_000)

  /** The instant stamped on a normalised document; the clock is left to the caller. */
  type Timestamp = nat

  /** `NormalizedDoc`. */
  datatype NormalizedDoc = NormalizedDoc(
    repo: string,
    filePath: string,
    symbolName: string,
    kind: string,
    signature: Option<string>,
    docComment: Option<string>,
    code: string,
    parentType: Option<string>,
    lineStart: nat,
    lineEnd: nat,
    hashSource: string,
    timestampIndexed: Timestamp)

  // ---------------------------------------------------------------- cleaning code

  /** `String::truncate(n)`, which panics unless byte offset n is a character boundary. */
  function Truncate(s: string, n: nat): (r: string)
    requires IsCharBoundary(s, n)
    ensures ByteLen(r) == n && |r| <= |s| && r == s[..|r|]
  {
    CapBytes(s, n)
  }

  /** The trimmed code with "\r\n" replaced, which is what the byte cap applies to. */
  function Unwrapped(src: string): string {
    ReplaceCrlf(Trim(src))
  }

  /** The cap can only cut the code where `String::truncate` accepts it: on a character boundary. */
  predicate TruncatesOnBoundary(src: string, maxChars: nat) {
    ByteLen(Unwrapped(src)) > maxChars ==> IsCharBoundary(Unwrapped(src), maxChars)
  }

  /**
   * What `normalize_code` returns: the longest prefix of the trimmed, "\r\n"-replaced code
   * that fits in maxChars bytes. It never starts with whitespace.
   */
  function CleanCode(src: string, maxChars: nat): (r: string)
    requires TruncatesOnBoundary(src, maxChars)
    ensures ByteLen(r) <= maxChars
    ensures r == CapBytes(Unwrapped(src), maxChars)
    ensures r == [] || !IsWhitespace(r[0])
  {
    var t := Unwrapped(src);
    if ByteLen(t) > maxChars then Truncate(t, maxChars)
    else
      CapBytesWhole(t, maxChars);
      t
  }

  /** `str::lines` on one piece of `SplitLines`: its "\n" or "\r\n" ending is dropped. */
  function LineBody(l: string): string {
    if l != [] && l[|l| - 1] == '\n' then
      var t := l[..|l| - 1];
      if t != [] && t[|t| - 1] == '\r' then t[..|t| - 1] else t
    else l
  }

  /** `str::lines`. */
  function Lines(s: string): (ls: seq<string>)
    ensures |ls| == |SplitLines(s)|
  {
    var raw := SplitLines(s);
    seq(|raw|, i requires 0 <= i < |raw| => LineBody(raw[i]))
  }

  /** The first line that is not blank after trimming. */
  function FirstNonBlank(ls: seq<string>): (r: Option<string>)
    ensures r.Some? ==> r.value in ls && Trim(r.value) != []
    ensures r.None? ==> forall i :: 0 <= i < |ls| ==> Trim(ls[i]) == []
  {
    if ls == [] then None
    else if Trim(ls[0]) != [] then Some(ls[0])
    else FirstNonBlank(ls[1..])
  }

  /** The number of whitespace characters a line starts with. */
  function Indent(l: string): (n: nat)
    ensures n <= |l|
    ensures n == 0 <==> l == [] || !IsWhitespace(l[0])
  {
    if l != [] && IsWhitespace(l[0]) then 1 + Indent(l[1..]) else 0
  }

  /** One line of the dedent: the first `indent` characters go when the line is long enough. */
  function DedentLine(l: string, indent: nat): string {
    if |l| >= indent then l[indent..] else l
  }

  function DedentLines(ls: seq<string>, indent: nat): (r: seq<string>)
    ensures |r| == |ls|
  {
    seq(|ls|, i requires 0 <= i < |ls| => DedentLine(ls[i], indent))
  }

  /**
   * `normalize_code`: trim, replace "\r\n", truncate to maxChars bytes, then dedent by the
   * indent of the first non-blank line. The text was trimmed first, so that indent is always 0
   * and the dedent never changes anything: the result is `CleanCode`.
   */
  method NormalizeCode(src: string, maxChars: nat) returns (s: string)
    requires TruncatesOnBoundary(src, maxChars)
    ensures s == CleanCode(src, maxChars)
  {
    s := ReplaceCrlf(Trim(src));
    if ByteLen(s) > maxChars {
      s := Truncate(s, maxChars);
    }
    assert s == CleanCode(src, maxChars);
    FirstLineUnindented(s);
    var first := FirstNonBlank(Lines(s));
    if first.Some? {
      var indent := Indent(first.value);
      if indent > 0 {
        s := Join(DedentLines(Lines(s), indent), "\n");
      }
    }
  }

  /** Text that does not start with whitespace has a first non-blank line without indent. */
  lemma {:induction false} FirstLineUnindented(s: string)
    requires s == [] || !IsWhitespace(s[0])
    ensures FirstNonBlank(Lines(s)).Some? ==> Indent(FirstNonBlank(Lines(s)).value) == 0
  {
    if s != [] {
      var raw := SplitLines(s);
      SplitLinesShape(s);
      assert raw != [];
      FirstLineStarts(raw, s);
      var body := Lines(s)[0];
      BodyKeepsFirst(raw[0]);
      assert body != [] && body[0] == s[0];
      TrimNonBlank(body);
      assert FirstNonBlank(Lines(s)) == Some(body);
    }
  }

  lemma {:induction false} FirstLineStarts(raw: seq<string>, s: string)
    requires raw != [] && raw[0] != [] && Concat(raw) == s
    ensures s != [] && raw[0][0] == s[0]
  {
    assert Concat(raw) == raw[0] + Concat(raw[1..]);
  }

  /** Dropping the line ending keeps a first character that is neither '\n' nor '\r'. */
  lemma {:induction false} BodyKeepsFirst(l: string)
    requires l != [] && !IsWhitespace(l[0])
    ensures LineBody(l) != [] && LineBody(l)[0] == l[0]
  {
  }

  lemma {:induction false} TrimNonBlank(l: string)
    requires l != [] && !IsWhitespace(l[0])
    ensures Trim(l) != []
  {
    assert !AllWhitespace(l);
  }

  /** The example of `normalizes_code_and_hash`: an indented function loses its indent. */
  lemma {:induction false} CleanCodeExample(src: string)
    requires src == "    fn foo() {}"
    ensures TruncatesOnBoundary(src, 100_000)
    ensures CleanCode(src, 100_000) == "fn foo() {}"
  {
    var w, f := "    ", "fn foo() {}";
    ExampleParts(src, w, f);
    UnwrappedPadded(w, f);
    assert ByteLen(f) <= 4 * |f|;
    CapBytesWhole(f, 100_000);
  }

  lemma {:induction false} ExampleParts(src: string, w: string, f: string)
    requires src == "    fn foo() {}" && w == "    " && f == "fn foo() {}"
    ensures src == w + f && AllWhitespace(w)
    ensures f != [] && !IsWhitespace(f[0]) && !IsWhitespace(f[|f| - 1]) && '\r' !in f
  {
  }

  /** Leading whitespace before text without '\r' and without outer whitespace is all that goes. */
  lemma {:induction false} UnwrappedPadded(w: string, f: string)
    requires AllWhitespace(w) && f != [] && !IsWhitespace(f[0]) && !IsWhitespace(f[|f| - 1]) && '\r' !in f
    ensures Unwrapped(w + f) == f
  {
    assert w + f + [] == w + f;
    TrimPadded(w, f, []);
  }

  // ---------------------------------------------------------------- normalising a document

  /** `Option::map(|s| s.trim())`. */
  function TrimOpt(o: Option<string>): (r: Option<string>)
    ensures r.None? <==> o.None?
    ensures r.Some? ==> r.value == Trim(o.value)
  {
    match o
    case None => None
    case Some(s) => Some(Trim(s))
  }

  /**
   * `DocNormalizer::normalize`, stamped with `now`: the identity fields and the line range
   * pass through, the kind becomes its name, the signature and doc comment are trimmed, the
   * code is cleaned, and the hash is taken over the normalised signature, doc comment and code.
   */
  function Normalize(crypto: Crypto, n: Normalizer, doc: Document, now: Timestamp): (r: NormalizedDoc)
    requires TruncatesOnBoundary(doc.code, n.maxCodeChars)
    ensures r.repo == doc.repo && r.filePath == doc.filePath && r.symbolName == doc.symbolName
    ensures r.parentType == doc.parentType && r.lineStart == doc.lineStart && r.lineEnd == doc.lineEnd
    ensures r.kind == doc.kind.AsStr() && r.timestampIndexed == now
    ensures r.signature == TrimOpt(doc.signature) && r.docComment == TrimOpt(doc.docComment)
    ensures r.code == CleanCode(doc.code, n.maxCodeChars) && ByteLen(r.code) <= n.maxCodeChars
    ensures r.hashSource == IdGenerator.ContentHash(crypto, r.signature, r.docComment, r.code)
  {
    var code := CleanCode(doc.code, n.maxCodeChars);
    var docComment := TrimOpt(doc.docComment);
    var signature := TrimOpt(doc.signature);
    var hashSource := IdGenerator.ContentHash(crypto, signature, docComment, code);
    NormalizedDoc(doc.repo, doc.filePath, doc.symbolName, doc.kind.AsStr(), signature, docComment,
                  code, doc.parentType, doc.lineStart, doc.lineEnd, hashSource, now)
  }

  /**
   * Padding a document's signature, doc comment or code with whitespace changes neither the
   * normalised parts nor the hash.
   */
  lemma {:induction false} NormalizeIgnoresPadding(crypto: Crypto, n: Normalizer, doc: Document, w1: string, w2: string,
                                sig: Option<string>, dc: Option<string>, now: Timestamp)
    requires AllWhitespace(w1) && AllWhitespace(w2)
    requires TruncatesOnBoundary(doc.code, n.maxCodeChars)
    requires sig.Some? <==> doc.signature.Some?
    requires sig.Some? ==> sig.value == w1 + doc.signature.value + w2
    requires dc.Some? <==> doc.docComment.Some?
    requires dc.Some? ==> dc.value == w1 + doc.docComment.value + w2
    ensures var padded := doc.(signature := sig, docComment := dc, code := w1 + doc.code + w2);
      && TruncatesOnBoundary(padded.code, n.maxCodeChars)
      && Normalize(crypto, n, padded, now) == Normalize(crypto, n, doc, now)
  {
    TrimPadded(w1, doc.code, w2);
    if sig.Some? {
      TrimPadded(w1, doc.signature.value, w2);
    }
    if dc.Some? {
      TrimPadded(w1, doc.docComment.value, w2);
    }
  }

  /**
   * When the normalised signature and doc comment hold no NUL, the bytes hashed for two
   * documents are equal only when their normalised signature, doc comment and code are.
   */
  lemma {:induction false} HashSeparatesContent(n: Normalizer, a: Document, b: Document)
    requires TruncatesOnBoundary(a.code, n.maxCodeChars) && TruncatesOnBoundary(b.code, n.maxCodeChars)
    requires IdGenerator.NulFree(TrimOpt(a.signature)) && IdGenerator.NulFree(TrimOpt(a.docComment))
    requires IdGenerator.NulFree(TrimOpt(b.signature)) && IdGenerator.NulFree(TrimOpt(b.docComment))
    requires IdGenerator.HashInput(TrimOpt(a.signature), TrimOpt(a.docComment), CleanCode(a.code, n.maxCodeChars))
          == IdGenerator.HashInput(TrimOpt(b.signature), TrimOpt(b.docComment), CleanCode(b.code, n.maxCodeChars))
    ensures TrimOpt(a.signature) == TrimOpt(b.signature) && TrimOpt(a.docComment) == TrimOpt(b.docComment)
    ensures CleanCode(a.code, n.maxCodeChars) == CleanCode(b.code, n.maxCodeChars)
  {
    IdGenerator.HashInputInjective(TrimOpt(a.signature), TrimOpt(a.docComment), CleanCode(a.code, n.maxCodeChars),
                                   TrimOpt(b.signature), TrimOpt(b.docComment), CleanCode(b.code, n.maxCodeChars));
  }

  /**
   * The document of `normalizes_code_and_hash`: with the default cap its code starts with
   * "fn foo" and its hash is longer than 10 characters.
   */
  lemma {:induction false} NormalizeExample(crypto: Crypto, doc: Document, now: Timestamp)
    requires doc == Document("r", "src/lib.rs", "foo", Function, Some("fn foo()"), Some("/// docs"),
                             "    fn foo() {}", None, 1, 2)
    ensures TruncatesOnBoundary(doc.code, DefaultNormalizer.maxCodeChars)
    ensures var norm := Normalize(crypto, DefaultNormalizer, doc, now);
      StartsWith(norm.code, "fn foo") && |norm.hashSource| > 10
  {
    CleanCodeExample(doc.code);
    var norm := Normalize(crypto, DefaultNormalizer, doc, now);
    StartsFnFoo(norm.code);
  }

  lemma {:induction false} StartsFnFoo(c: string)
    requires c == "fn foo() {}"
    ensures StartsWith(c, "fn foo")
  {
  }
}
