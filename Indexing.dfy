/**
 * The indexing cycle (src/indexing.rs): the collection name derived from the root path, the
 * text each document is embedded as, the fixed-size windows the documents are embedded and
 * upserted in, and `tick_once`, which ensures the collection, scans the project, parses every
 * file, normalises the documents and indexes them repository by repository.
 *
 * The project scanner, the parsers, the embedding server and the Qdrant upload are inputs
 * (`Env`, `Uploader`): their replies are whatever those services answer.
 */
module Indexing {
  import opened Wrappers
  import opened Strings
  import opened Digests
  import opened RustParser
  import opened DocNormalizer
  import IdGenerator
  import EmbedderClient
  import QdrantSchema

  // ---------------------------------------------------------------- configuration

  /** Documents per embedding request. */
  const EmbedBatch: nat := 64
  /** Dimension of the embedding model's vectors. */
  const VectorSize: nat := 768
  const IncludeFilenameDoc := true
  const QdrantUrl := "http://localhost:6333"
  const EmbedBaseModel := "text-embedding-embeddinggemma-300m"
  const CollectionDistance := QdrantSchema.Cosine

  /** The embedder `index` builds: the base model, guarded to vectors of `VectorSize` components. */
  const IndexEmbedder := EmbedderClient.NewClient(EmbedBaseModel, Some(VectorSize))

  function Min(a: nat, b: nat): nat { if a <= b then a else b }

  // ---------------------------------------------------------------- collection name

  /** The characters a collection name is made of. */
  predicate IsSlugChar(c: char) {
    ('a' <= c <= 'z') || ('0' <= c <= '9') || c == '-'
  }

  /** What `repo_name` makes of one character: ASCII alphanumerics lower-cased, anything else '-'. */
  function SlugChar(c: char): (d: char)
    ensures IsSlugChar(d)
    ensures d == '-' <==> !IsAsciiAlphanumeric(c)
    ensures IsAsciiAlphanumeric(c) && !IsAsciiUpper(c) ==> d == c
  {
    if IsAsciiAlphanumeric(c) then AsciiLower(c) else '-'
  }

  /** The name with every character replaced by its `SlugChar`. */
  function Slug(name: string): (r: string)
    ensures |r| == |name| && forall i :: 0 <= i < |name| ==> r[i] == SlugChar(name[i])
  {
    seq(|name|, i requires 0 <= i < |name| => SlugChar(name[i]))
  }

  predicate AllDashes(s: string) {
    forall i :: 0 <= i < |s| ==> s[i] == '-'
  }

  /** r is s with some dashes removed from each end. */
  predicate DashPadded(s: string, r: string) {
    exists i, j :: 0 <= i <= j <= |s| && s[i..j] == r && AllDashes(s[..i]) && AllDashes(s[j..])
  }

  /** `str::trim_matches('-')`. */
  function TrimDashes(s: string): (r: string)
    ensures DashPadded(s, r)
    ensures r == [] || (r[0] != '-' && r[|r| - 1] != '-')
  {
    var e := TrimEndMatches(s, '-');
    var r := TrimStartMatches(e, "-");
    TrimEndMatchesPrefix(s, '-');
    TrimStartMatchesSuffix(e, "-");
    TrimmedDashes(s, e, r);
    r
  }

  lemma {:induction false} TrimmedDashes(s: string, e: string, r: string)
    requires |e| <= |s| && e == s[..|e|] && forall i :: |e| <= i < |s| ==> s[i] == '-'
    requires |r| <= |e| && r == e[|e| - |r|..] && !StartsWith(r, "-")
    requires e == [] || e[|e| - 1] != '-'
    requires r == TrimStartMatches(e, "-")
    ensures DashPadded(s, r)
    ensures r == [] || (r[0] != '-' && r[|r| - 1] != '-')
  {
    var i, j := |e| - |r|, |e|;
    assert s[i..j] == r;
    assert AllDashes(s[j..]) by {
      forall k | 0 <= k < |s[j..]| ensures s[j..][k] == '-' {
        assert s[j..][k] == s[j + k];
      }
    }
    NothingButDashes(e, "-");
    assert AllDashes(s[..i]) by {
      forall k | 0 <= k < i ensures s[..i][k] == '-' {
        assert s[..i][k] == e[k];
      }
    }
    if r != [] {
      DashStart(r);
      assert r[|r| - 1] == e[|e| - 1];
    }
  }

  lemma {:induction false} DashStart(r: string)
    requires r != []
    ensures StartsWith(r, "-") <==> r[0] == '-'
  {
    assert r[..1] == [r[0]];
  }

  /** What `TrimStartMatches(e, "-")` removes is dashes only. */
  lemma {:induction false} NothingButDashes(e: string, p: string)
    requires p == "-"
    ensures forall k :: 0 <= k < |e| - |TrimStartMatches(e, p)| ==> e[k] == '-'
    decreases |e|
  {
    if StartsWith(e, p) {
      NothingButDashes(e[1..], p);
      assert e[0] == '-';
      forall k | 1 <= k < |e| - |TrimStartMatches(e, p)| ensures e[k] == '-' {
        assert e[1..][k - 1] == e[k];
      }
    }
  }

  /**
   * `repo_name`: the root's last path component, or "repo" when it has none, slugged and with
   * its outer dashes removed. The name consists of lower-case ASCII letters, digits and '-',
   * and neither starts nor ends with '-'.
   */
  function RepoName(root: string): (r: string)
    ensures forall i :: 0 <= i < |r| ==> IsSlugChar(r[i])
    ensures r == [] || (r[0] != '-' && r[|r| - 1] != '-')
    ensures DashPadded(Slug(FileName(root).GetOr("repo")), r)
  {
    var s := Slug(FileName(root).GetOr("repo"));
    TrimmedSlug(s);
    TrimDashes(s)
  }

  /** Trimming dashes keeps a string of slug characters one. */
  lemma {:induction false} TrimmedSlug(s: string)
    requires forall i :: 0 <= i < |s| ==> IsSlugChar(s[i])
    ensures forall k :: 0 <= k < |TrimDashes(s)| ==> IsSlugChar(TrimDashes(s)[k])
  {
    var r := TrimDashes(s);
    var i, j :| 0 <= i <= j <= |s| && s[i..j] == r && AllDashes(s[..i]) && AllDashes(s[j..]);
    forall k | 0 <= k < |r| ensures IsSlugChar(r[k]) {
      assert r[k] == s[i + k];
    }
  }

  /** A root without a last component (such as "/" or "..") is named "repo". */
  lemma {:induction false} RepoNameFallback(root: string)
    requires FileName(root).None?
    ensures RepoName(root) == "repo"
  {
    assert Slug("repo") == "repo";
    SlugPaddedIsSelf("repo", RepoName(root));
  }

  /** A name that already is a slug with no outer dashes is kept as it is. */
  lemma {:induction false} RepoNameOfSlug(dir: string, name: string)
    requires name != [] && forall i :: 0 <= i < |name| ==> IsSlugChar(name[i])
    requires name[0] != '-' && name[|name| - 1] != '-'
    ensures RepoName(dir + "/" + name) == name && RepoName(name) == name
  {
    forall k | 0 <= k < |name| ensures name[k] != '/' {
      assert IsSlugChar(name[k]);
    }
    assert '/' !in name;
    assert name != "." && name != ".." by {
      assert IsSlugChar(name[0]);
    }
    FileNameOfPlain(dir, name);
    assert Slug(name) == name;
    SlugPaddedIsSelf(name, RepoName(name));
    SlugPaddedIsSelf(name, RepoName(dir + "/" + name));
  }

  /** Trimming dashes off a name that neither starts nor ends with one leaves it whole. */
  lemma {:induction false} SlugPaddedIsSelf(name: string, r: string)
    requires name != [] && name[0] != '-' && name[|name| - 1] != '-'
    requires DashPadded(name, r)
    ensures r == name
  {
    var i, j :| 0 <= i <= j <= |name| && name[i..j] == r && AllDashes(name[..i]) && AllDashes(name[j..]);
    DashPrefix(name, i);
    DashSuffix(name, j);
    assert i == 0 && j == |name|;
    assert name[0..|name|] == name;
  }

  lemma {:induction false} DashPrefix(s: string, i: nat)
    requires i <= |s| && AllDashes(s[..i])
    ensures i == 0 || s[0] == '-'
  {
    if i > 0 {
      assert s[..i][0] == s[0];
    }
  }

  lemma {:induction false} DashSuffix(s: string, j: nat)
    requires j <= |s| && AllDashes(s[j..])
    ensures j == |s| || s[|s| - 1] == '-'
  {
    if j < |s| {
      assert s[j..][|s| - j - 1] == s[|s| - 1];
    }
  }

  /** A collection name is itself a root naming that collection. */
  lemma {:induction false} RepoNameIdempotent(root: string)
    requires RepoName(root) != []
    ensures RepoName(RepoName(root)) == RepoName(root)
  {
    RepoNameOfSlug("", RepoName(root));
  }

  /** A root ending in the directory `My_Repo` is indexed into the collection `my-repo`. */
  lemma {:induction false} RepoNameExample()
    ensures RepoName("/home/u/My_Repo") == "my-repo"
  {
    FileNameOfExampleRoot();
    SlugOfMyRepo();
    var r := RepoName("/home/u/My_Repo");
    assert DashPadded("my-repo", r);
    SlugPaddedIsSelf("my-repo", r);
  }

  lemma {:induction false} FileNameOfExampleRoot()
    ensures FileName("/home/u/My_Repo") == Some("My_Repo")
  {
    var name := "My_Repo";
    assert IsNormalComponent(name) && '/' !in name;
    FileNameOfPlain("/home/u", name);
    assert "/home/u" + "/" + name == "/home/u/My_Repo";
  }

  lemma {:induction false} SlugOfMyRepo()
    ensures Slug("My_Repo") == "my-repo"
  {
    var name := "My_Repo";
    var s := Slug(name);
    assert name[0] == 'M' && name[1] == 'y' && name[2] == '_' && name[3] == 'R';
    assert name[4] == 'e' && name[5] == 'p' && name[6] == 'o';
    assert |s| == 7 && s[0] == 'm' && s[1] == 'y' && s[2] == '-' && s[3] == 'r' && s[4] == 'e' && s[5] == 'p' && s[6] == 'o';
  }

  // ---------------------------------------------------------------- embedding input

  /** `build_embedding_input`: the canonical text a document is embedded as. */
  function BuildEmbeddingInput(d: NormalizedDoc): string {
    var parent := d.parentType.GetOr("");
    var signature := d.signature.GetOr("");
    var docs := d.docComment.GetOr("");
    "repo: " + d.repo + "\npath: " + d.filePath + "\ntype: " + d.kind + "\nsymbol: " + d.symbolName
      + "\nparent: " + parent + "\nlines: " + NatToString(d.lineStart) + "-" + NatToString(d.lineEnd)
      + "\n\n[DOC]\n" + docs + "\n\n[SIGNATURE]\n" + signature + "\n\n[CODE]\n" + d.code
  }

  /** A missing parent type, signature or doc comment is rendered exactly as an empty one. */
  lemma {:induction false} EmbeddingInputAbsentAsEmpty(d: NormalizedDoc)
    ensures BuildEmbeddingInput(d.(parentType := None, signature := None, docComment := None))
         == BuildEmbeddingInput(d.(parentType := Some(""), signature := Some(""), docComment := Some("")))
  {
  }

  /** The text closes with the code section: the `[CODE]` marker, then the document's code, whole. */
  lemma {:induction false} EmbeddingInputEndsWithCode(d: NormalizedDoc)
    ensures EndsWith(BuildEmbeddingInput(d), "\n\n[CODE]\n" + d.code)
  {
    var y := "repo: " + d.repo + "\npath: " + d.filePath + "\ntype: " + d.kind + "\nsymbol: " + d.symbolName
      + "\nparent: " + d.parentType.GetOr("") + "\nlines: " + NatToString(d.lineStart) + "-" + NatToString(d.lineEnd)
      + "\n\n[DOC]\n" + d.docComment.GetOr("") + "\n\n[SIGNATURE]\n" + d.signature.GetOr("");
    TailOf(y, "\n\n[CODE]\n", d.code);
  }

  lemma {:induction false} TailOf(y: string, marker: string, code: string)
    ensures EndsWith(y + marker + code, marker + code)
  {
    var s := y + marker + code;
    assert s[|s| - |marker + code|..] == marker + code;
  }

  /** Documents that differ only in their code are embedded as different texts. */
  lemma {:induction false} EmbeddingInputSeparatesCode(d: NormalizedDoc, code: string)
    requires code != d.code
    ensures BuildEmbeddingInput(d) != BuildEmbeddingInput(d.(code := code))
  {
    var e := d.(code := code);
    var prefix := BuildEmbeddingInput(d)[..|BuildEmbeddingInput(d)| - |d.code|];
    assert BuildEmbeddingInput(d) == prefix + d.code;
    assert BuildEmbeddingInput(e) == prefix + code;
    if |code| == |d.code| {
      assert (prefix + code)[|prefix|..] == code;
      assert (prefix + d.code)[|prefix|..] == d.code;
    }
  }

  /** The embedding inputs of a batch, in order. */
  function EmbeddingInputs(batch: seq<NormalizedDoc>): (ts: seq<string>)
    ensures |ts| == |batch| && forall i :: 0 <= i < |batch| ==> ts[i] == BuildEmbeddingInput(batch[i])
  {
    seq(|batch|, i requires 0 <= i < |batch| => BuildEmbeddingInput(batch[i]))
  }

  // ---------------------------------------------------------------- points

  /** The JSON payload stored beside each vector, field by field. */
  datatype Payload = Payload(
    repo: string,
    filePath: string,
    symbolName: string,
    kind: string,
    code: string,
    lineStart: nat,
    lineEnd: nat,
    parentType: Option<string>,
    signature: Option<string>,
    docComment: Option<string>,
    hashSource: string,
    timestampIndexed: Timestamp)

  /** `PointWrite`: the point id, its vector and its payload. */
  datatype PointWrite = PointWrite(id: string, vector: EmbedderClient.Vector, payload: Payload)

  function PayloadOf(d: NormalizedDoc): Payload {
    Payload(d.repo, d.filePath, d.symbolName, d.kind, d.code, d.lineStart, d.lineEnd,
            d.parentType, d.signature, d.docComment, d.hashSource, d.timestampIndexed)
  }

  /** The id a document is stored under: derived from its identity, never from its content. */
  function DocId(crypto: Crypto, d: NormalizedDoc): string {
    IdGenerator.PointId(crypto, d.repo, d.filePath, d.symbolName, d.kind)
  }

  /** `DocId` as a function value, for the statements below that hold for any choice of ids. */
  function IdOf(crypto: Crypto): NormalizedDoc -> string {
    d => DocId(crypto, d)
  }

  /** The points built for docs pair each with its own id (as id gives it) and payload, in order. */
  predicate PointsFor(id: NormalizedDoc -> string, ps: seq<PointWrite>, docs: seq<NormalizedDoc>) {
    && |ps| == |docs|
    && forall k :: 0 <= k < |ps| ==> ps[k].id == id(docs[k]) && ps[k].payload == PayloadOf(docs[k])
  }

  /** The documents of a batch zipped with their vectors into points, each under the id id gives; the zip stops at the shorter. */
  function ZipPoints(id: NormalizedDoc -> string, batch: seq<NormalizedDoc>, vectors: seq<EmbedderClient.Vector>): (ps: seq<PointWrite>)
    ensures |ps| == Min(|batch|, |vectors|)
  {
    if batch == [] || vectors == [] then []
    else [PointWrite(id(batch[0]), vectors[0], PayloadOf(batch[0]))] + ZipPoints(id, batch[1..], vectors[1..])
  }

  /** Point i pairs document i with vector i, under the document's id and with its payload. */
  lemma {:induction false} ZipPointsAt(id: NormalizedDoc -> string, batch: seq<NormalizedDoc>, vectors: seq<EmbedderClient.Vector>)
    ensures var ps := ZipPoints(id, batch, vectors);
      forall i :: 0 <= i < |ps| ==> ps[i] == PointWrite(id(batch[i]), vectors[i], PayloadOf(batch[i]))
  {
    if batch != [] && vectors != [] {
      ZipPointsAt(id, batch[1..], vectors[1..]);
      var ps := ZipPoints(id, batch, vectors);
      var rest := ZipPoints(id, batch[1..], vectors[1..]);
      assert ps == [PointWrite(id(batch[0]), vectors[0], PayloadOf(batch[0]))] + rest;
      forall i | 1 <= i < |ps| ensures ps[i] == PointWrite(id(batch[i]), vectors[i], PayloadOf(batch[i])) {
        assert ps[i] == rest[i - 1];
      }
    }
  }

  /** The points of a batch, under the ids `deterministic_point_id` derives. */
  function Points(crypto: Crypto, batch: seq<NormalizedDoc>, vectors: seq<EmbedderClient.Vector>): (ps: seq<PointWrite>)
    ensures |ps| == Min(|batch|, |vectors|)
  {
    ZipPoints(IdOf(crypto), batch, vectors)
  }

  /** A batch zipped with as many vectors: one point per document, in order, each with its own vector. */
  lemma {:induction false} PointsOfBatch(crypto: Crypto, batch: seq<NormalizedDoc>, vectors: seq<EmbedderClient.Vector>)
    requires |vectors| == |batch|
    ensures var ps := Points(crypto, batch, vectors);
      PointsFor(IdOf(crypto), ps, batch) && forall j :: 0 <= j < |ps| ==> ps[j].vector == vectors[j]
  {
    ZipPointsAt(IdOf(crypto), batch, vectors);
  }

  lemma {:induction false} PointsForAppend(id: NormalizedDoc -> string, ps: seq<PointWrite>, qs: seq<PointWrite>, a: seq<NormalizedDoc>, b: seq<NormalizedDoc>)
    requires PointsFor(id, ps, a) && PointsFor(id, qs, b)
    ensures PointsFor(id, ps + qs, a + b)
  {
    forall k | 0 <= k < |ps + qs|
      ensures (ps + qs)[k].id == id((a + b)[k]) && (ps + qs)[k].payload == PayloadOf((a + b)[k])
    {
      if k < |ps| {
        assert (ps + qs)[k] == ps[k] && (a + b)[k] == a[k];
      } else {
        assert (ps + qs)[k] == qs[k - |ps|] && (a + b)[k] == b[k - |ps|];
      }
    }
  }

  // ---------------------------------------------------------------- windows

  /** The half-open range of documents `[start, end)` one request covers. */
  datatype Window = Window(start: nat, end: nat)

  /** The windows `embed_and_upsert` walks from start on: EMBED_BATCH documents each, the last one shorter. */
  function Windows(start: nat, n: nat): (ws: seq<Window>)
    ensures forall i :: 0 <= i < |ws| ==>
      start <= ws[i].start < ws[i].end <= n && ws[i].end - ws[i].start <= EmbedBatch
    decreases n - start
  {
    if start >= n then []
    else
      var end := Min(start + EmbedBatch, n);
      [Window(start, end)] + Windows(end, n)
  }

  predicate InBounds(ws: seq<Window>, n: nat) {
    forall i :: 0 <= i < |ws| ==> ws[i].start <= ws[i].end <= n
  }

  /**
   * Window i is exactly `[start + 64 i, min(start + 64 (i + 1), n))`, and there are as many
   * windows as it takes to reach n: the windows are consecutive, all but the last are full, and
   * together they cover `start..n`.
   */
  lemma {:induction false} WindowsAt(start: nat, n: nat)
    requires start <= n
    ensures |Windows(start, n)| == (n - start + EmbedBatch - 1) / EmbedBatch
    ensures forall i :: 0 <= i < |Windows(start, n)| ==>
      Windows(start, n)[i] == Window(start + EmbedBatch * i, Min(start + EmbedBatch * (i + 1), n))
    decreases n - start
  {
    var ws := Windows(start, n);
    if start < n {
      var end := Min(start + EmbedBatch, n);
      WindowsAt(end, n);
      var rest := Windows(end, n);
      assert ws == [Window(start, end)] + rest;
      forall i | 1 <= i < |ws|
        ensures ws[i] == Window(start + EmbedBatch * i, Min(start + EmbedBatch * (i + 1), n))
      {
        assert ws[i] == rest[i - 1];
        assert end == start + EmbedBatch;
      }
      if end == n {
        assert |rest| == 0;
      } else {
        assert n - start + EmbedBatch - 1 == (n - end + EmbedBatch - 1) + EmbedBatch;
      }
    }
  }

  /** Every document below n lies in exactly one window, the one `(k - start) / 64` counts to. */
  lemma {:induction false} WindowOf(start: nat, n: nat, k: nat)
    requires start <= k < n
    ensures var ws, i := Windows(start, n), (k - start) / EmbedBatch;
      && i < |ws| && ws[i].start <= k < ws[i].end
      && forall j :: 0 <= j < |ws| && ws[j].start <= k < ws[j].end ==> j == i
  {
    WindowsAt(start, n);
    var ws, i := Windows(start, n), (k - start) / EmbedBatch;
    assert EmbedBatch * i <= k - start < EmbedBatch * i + EmbedBatch;
    assert i < |ws|;
    forall j | 0 <= j < |ws| && ws[j].start <= k < ws[j].end ensures j == i {
      assert ws[j].start == start + EmbedBatch * j;
      assert k < start + EmbedBatch * (j + 1);
    }
  }

  /**
   * The windows from start on follow each other without gap or overlap: the first starts at
   * start, each ends EMBED_BATCH documents later or at n, the next starts where it ends, and
   * the last ends at n. There is none exactly when start is already at n.
   */
  lemma {:induction false} WindowsLinked(start: nat, n: nat)
    ensures var ws := Windows(start, n);
      && (ws == [] <==> start >= n)
      && (ws != [] ==> ws[0].start == start && ws[|ws| - 1].end == n)
      && (forall i :: 0 <= i < |ws| ==> ws[i].end == Min(ws[i].start + EmbedBatch, n))
      && (forall i :: 0 <= i < |ws| - 1 ==> ws[i].end == ws[i + 1].start)
    decreases n - start
  {
    if start < n {
      var end := Min(start + EmbedBatch, n);
      WindowsLinked(end, n);
      var ws, rest := Windows(start, n), Windows(end, n);
      assert ws == [Window(start, end)] + rest;
      assert forall i :: 1 <= i < |ws| ==> ws[i] == rest[i - 1];
      if rest != [] {
        assert ws[|ws| - 1] == rest[|rest| - 1];
      }
    }
  }

  // ---------------------------------------------------------------- embed and upsert

  /** What the Qdrant upload answers a set of points with: `None` when the upsert succeeded. */
  type Uploader = (string, seq<PointWrite>) -> Option<string>

  /** One successful `upsert_points_batched` call. */
  datatype Upsert = Upsert(collection: string, points: seq<PointWrite>)

  /** The error `embed_and_upsert` returns, naming the window it failed on. */
  datatype IndexError =
    | EmbedFailed(start: nat, end: nat, cause: EmbedderClient.EmbedError)
    | UpsertFailed(start: nat, end: nat, message: string)

  /** The services one indexing run talks to. */
  datatype Backends = Backends(crypto: Crypto, embedder: EmbedderClient.Client, server: EmbedderClient.Server, upload: Uploader)

  /** The outcome of a run and the upserts it made, in order. */
  datatype Run = Run(result: Result<(), IndexError>, upserts: seq<Upsert>)

  /** The embedding reply for a batch's inputs. */
  function BatchEmbedding(b: Backends, batch: seq<NormalizedDoc>): Result<seq<EmbedderClient.Vector>, EmbedderClient.EmbedError> {
    var inputs := EmbeddingInputs(batch);
    EmbedderClient.EmbedTextsResult(b.embedder, inputs, EmbedderClient.Post(b.embedder, b.server, inputs))
  }

  /** One window: embed its documents, zip them with the vectors, upload the points. */
  function WindowStep(collection: string, docs: seq<NormalizedDoc>, b: Backends, w: Window): Result<seq<PointWrite>, IndexError>
    requires w.start <= w.end <= |docs|
  {
    var batch := docs[w.start..w.end];
    match BatchEmbedding(b, batch)
    case Err(e) => Err(EmbedFailed(w.start, w.end, e))
    case Ok(vectors) =>
      var ps := Points(b.crypto, batch, vectors);
      match b.upload(collection, ps)
      case Some(message) => Err(UpsertFailed(w.start, w.end, message))
      case None => Ok(ps)
  }

  /**
   * A window fails with the embedding error when the embedding fails and with the upload's
   * message when the upload refuses the points, either way naming the window.
   */
  lemma {:induction false} WindowStepErrors(collection: string, docs: seq<NormalizedDoc>, b: Backends, w: Window)
    requires w.start <= w.end <= |docs|
    ensures var batch, r := docs[w.start..w.end], WindowStep(collection, docs, b, w);
      && (r.Err? ==> r.error.start == w.start && r.error.end == w.end)
      && (BatchEmbedding(b, batch).Err? <==> r.Err? && r.error.EmbedFailed?)
      && (BatchEmbedding(b, batch).Err? ==> r.error.cause == BatchEmbedding(b, batch).error)
      && (r.Err? && r.error.UpsertFailed? ==>
            b.upload(collection, Points(b.crypto, batch, BatchEmbedding(b, batch).value)) == Some(r.error.message))
  {
  }

  /**
   * A window that succeeds was embedded and its points accepted by the upload; they are those of
   * the window's documents, in order, each with the vector the embedder returned for it.
   */
  lemma {:induction false} WindowStepPoints(collection: string, docs: seq<NormalizedDoc>, b: Backends, w: Window)
    requires w.start <= w.end <= |docs|
    requires WindowStep(collection, docs, b, w).Ok?
    ensures var batch, ps := docs[w.start..w.end], WindowStep(collection, docs, b, w).value;
      && BatchEmbedding(b, batch).Ok? && b.upload(collection, ps).None?
      && PointsFor(IdOf(b.crypto), ps, batch)
      && forall j :: 0 <= j < |ps| ==> ps[j].vector == BatchEmbedding(b, batch).value[j]
  {
    var batch := docs[w.start..w.end];
    var inputs := EmbeddingInputs(batch);
    EmbedderClient.EmbedTextsOutcome(b.embedder, inputs, EmbedderClient.Post(b.embedder, b.server, inputs));
    PointsOfBatch(b.crypto, batch, BatchEmbedding(b, batch).value);
  }

  /** Every point carries a vector of n components. */
  predicate PointsOfSize(ps: seq<PointWrite>, n: nat) {
    forall j :: 0 <= j < |ps| ==> |ps[j].vector| == n
  }

  /** Every point of every upsert carries a vector of n components. */
  predicate VectorsOfSize(us: seq<Upsert>, n: nat) {
    forall i :: 0 <= i < |us| ==> PointsOfSize(us[i].points, n)
  }

  /** An embedder that expects vectors of n components only lets windows of such vectors through. */
  lemma {:induction false} WindowStepVectorSize(collection: string, docs: seq<NormalizedDoc>, b: Backends, w: Window)
    requires w.start <= w.end <= |docs|
    requires WindowStep(collection, docs, b, w).Ok? && b.embedder.expectedDim.Some?
    ensures PointsOfSize(WindowStep(collection, docs, b, w).value, b.embedder.expectedDim.value)
  {
    var batch := docs[w.start..w.end];
    var inputs := EmbeddingInputs(batch);
    EmbedderClient.EmbedTextsOutcome(b.embedder, inputs, EmbedderClient.Post(b.embedder, b.server, inputs));
    assert BatchEmbedding(b, batch) == EmbedderClient.EmbedTextsResult(b.embedder, inputs, EmbedderClient.Post(b.embedder, b.server, inputs));
    WindowStepPoints(collection, docs, b, w);
  }

  /** Steps taken in order until the first failure: an upsert for each step that succeeded, then that failure. */
  function RunOf(collection: string, steps: seq<Result<seq<PointWrite>, IndexError>>): (run: Run)
    ensures |run.upserts| <= |steps|
    ensures run.result.Ok? <==> |run.upserts| == |steps|
  {
    if steps == [] then Run(Ok(()), [])
    else
      match steps[0]
      case Err(e) => Run(Err(e), [])
      case Ok(ps) =>
        var rest := RunOf(collection, steps[1..]);
        Run(rest.result, [Upsert(collection, ps)] + rest.upserts)
  }

  /**
   * A run upserts the points of its first steps, in order and into the collection, and ends at
   * the first step that fails, with that step's error: nothing after it is attempted.
   */
  lemma {:induction false} RunStopsAtFirstFailure(collection: string, steps: seq<Result<seq<PointWrite>, IndexError>>)
    ensures var run := RunOf(collection, steps);
      && (forall i :: 0 <= i < |run.upserts| ==>
            run.upserts[i].collection == collection && steps[i] == Ok(run.upserts[i].points))
      && (run.result.Err? ==> steps[|run.upserts|] == Err(run.result.error))
  {
    if steps != [] && steps[0].Ok? {
      RunStopsAtFirstFailure(collection, steps[1..]);
      var run := RunOf(collection, steps);
      var rest := RunOf(collection, steps[1..]);
      assert run.upserts == [Upsert(collection, steps[0].value)] + rest.upserts;
      forall i | 1 <= i < |run.upserts|
        ensures run.upserts[i].collection == collection && steps[i] == Ok(run.upserts[i].points)
      {
        assert run.upserts[i] == rest.upserts[i - 1] && steps[i] == steps[1..][i - 1];
      }
      if run.result.Err? {
        assert steps[|run.upserts|] == steps[1..][|rest.upserts|];
      }
    }
  }

  /** The result of each window, in order. */
  function Steps(collection: string, docs: seq<NormalizedDoc>, b: Backends, ws: seq<Window>)
    : (s: seq<Result<seq<PointWrite>, IndexError>>)
    requires InBounds(ws, |docs|)
    ensures |s| == |ws|
  {
    if ws == [] then [] else [WindowStep(collection, docs, b, ws[0])] + Steps(collection, docs, b, ws[1..])
  }

  /** Step i is the i-th window's. */
  lemma {:induction false} StepAt(collection: string, docs: seq<NormalizedDoc>, b: Backends, ws: seq<Window>, i: nat)
    requires InBounds(ws, |docs|) && i < |ws|
    ensures Steps(collection, docs, b, ws)[i] == WindowStep(collection, docs, b, ws[i])
  {
    if i > 0 {
      StepAt(collection, docs, b, ws[1..], i - 1);
    }
  }

  /** The windows processed in order until the first that fails. */
  function RunWindows(collection: string, docs: seq<NormalizedDoc>, b: Backends, ws: seq<Window>): Run
    requires InBounds(ws, |docs|)
  {
    RunOf(collection, Steps(collection, docs, b, ws))
  }

  /** With an embedder that expects vectors of n components, every upserted vector has n components. */
  lemma {:induction false} RunVectorsOfSize(collection: string, docs: seq<NormalizedDoc>, b: Backends, ws: seq<Window>)
    requires InBounds(ws, |docs|)
    ensures b.embedder.expectedDim.Some? ==> VectorsOfSize(RunWindows(collection, docs, b, ws).upserts, b.embedder.expectedDim.value)
  {
    if b.embedder.expectedDim.Some? {
      var steps := Steps(collection, docs, b, ws);
      RunStopsAtFirstFailure(collection, steps);
      var us := RunOf(collection, steps).upserts;
      forall i | 0 <= i < |us| ensures PointsOfSize(us[i].points, b.embedder.expectedDim.value) {
        StepAt(collection, docs, b, ws, i);
        WindowStepVectorSize(collection, docs, b, ws[i]);
      }
    }
  }

  /**
   * Every document indexed exactly once, window by window: one upsert per window into the
   * collection, window i's upsert as long as the window, and document k's point being point
   * `k % 64` of upsert `k / 64`, under the document's id and with its payload.
   */
  predicate Indexed(collection: string, id: NormalizedDoc -> string, docs: seq<NormalizedDoc>, us: seq<Upsert>) {
    && |us| == (|docs| + EmbedBatch - 1) / EmbedBatch
    && (forall i :: 0 <= i < |us| ==>
          us[i].collection == collection && |us[i].points| == Min(EmbedBatch * (i + 1), |docs|) - EmbedBatch * i)
    && forall k :: 0 <= k < |docs| ==>
         && k / EmbedBatch < |us| && k % EmbedBatch < |us[k / EmbedBatch].points|
         && us[k / EmbedBatch].points[k % EmbedBatch].id == id(docs[k])
         && us[k / EmbedBatch].points[k % EmbedBatch].payload == PayloadOf(docs[k])
  }

  /** Each successful step holds the points of its window's documents. */
  predicate StepsHold(id: NormalizedDoc -> string, docs: seq<NormalizedDoc>, ws: seq<Window>, ss: seq<Result<seq<PointWrite>, IndexError>>)
    requires InBounds(ws, |docs|) && |ss| == |ws|
  {
    forall i :: 0 <= i < |ss| && ss[i].Ok? ==> PointsFor(id, ss[i].value, docs[ws[i].start..ws[i].end])
  }

  /** The shape `WindowsAt` gives the windows of `0..n`. */
  predicate WindowsOfLength(ws: seq<Window>, n: nat) {
    && |ws| == (n + EmbedBatch - 1) / EmbedBatch
    && forall i :: 0 <= i < |ws| ==> ws[i] == Window(EmbedBatch * i, Min(EmbedBatch * (i + 1), n))
  }

  /** The upserts made for steps that all succeeded: one per step, its points those of the step. */
  predicate UpsertsOfSteps(collection: string, us: seq<Upsert>, ss: seq<Result<seq<PointWrite>, IndexError>>) {
    |us| == |ss| && forall i :: 0 <= i < |us| ==> us[i].collection == collection && ss[i] == Ok(us[i].points)
  }

  /** Steps made for windows of the documents in the shape `WindowsAt` gives, each holding its window's points. */
  predicate Plan(id: NormalizedDoc -> string, docs: seq<NormalizedDoc>, ws: seq<Window>, ss: seq<Result<seq<PointWrite>, IndexError>>) {
    WindowsOfLength(ws, |docs|) && InBounds(ws, |docs|) && |ss| == |ws| && StepsHold(id, docs, ws, ss)
  }

  /** Document k lies in window `k / 64`, at offset `k % 64`. */
  lemma {:induction false} WindowPosition(ws: seq<Window>, n: nat, k: nat)
    requires WindowsOfLength(ws, n) && k < n
    ensures k / EmbedBatch < |ws| && ws[k / EmbedBatch].start + k % EmbedBatch == k < ws[k / EmbedBatch].end
  {
    var i, j := k / EmbedBatch, k % EmbedBatch;
    assert k == EmbedBatch * i + j;
  }

  /** Document k's point is point `k % 64` of upsert `k / 64`, with the document's id and payload. */
  lemma {:induction false} PointOfDocument(collection: string, id: NormalizedDoc -> string, docs: seq<NormalizedDoc>, ws: seq<Window>,
                        ss: seq<Result<seq<PointWrite>, IndexError>>, us: seq<Upsert>, k: nat)
    requires Plan(id, docs, ws, ss) && k < |docs|
    requires UpsertsOfSteps(collection, us, ss)
    ensures && k / EmbedBatch < |us| && k % EmbedBatch < |us[k / EmbedBatch].points|
            && us[k / EmbedBatch].points[k % EmbedBatch].id == id(docs[k])
            && us[k / EmbedBatch].points[k % EmbedBatch].payload == PayloadOf(docs[k])
  {
    var i, j := k / EmbedBatch, k % EmbedBatch;
    WindowPosition(ws, |docs|, k);
    var batch := docs[ws[i].start..ws[i].end];
    assert ss[i] == Ok(us[i].points);
    assert PointsFor(id, us[i].points, batch);
    assert batch[j] == docs[k];
  }

  /**
   * A run that succeeds over steps made for the windows of `0..|docs|`, where each successful
   * step holds the points of its window's documents, indexes document k as point `k % 64` of
   * upsert `k / 64`.
   */
  lemma {:induction false} RunIndexesDocuments(collection: string, id: NormalizedDoc -> string, docs: seq<NormalizedDoc>, ws: seq<Window>,
                            ss: seq<Result<seq<PointWrite>, IndexError>>)
    requires Plan(id, docs, ws, ss)
    requires RunOf(collection, ss).result.Ok?
    ensures Indexed(collection, id, docs, RunOf(collection, ss).upserts)
  {
    var us := RunOf(collection, ss).upserts;
    RunStopsAtFirstFailure(collection, ss);
    assert UpsertsOfSteps(collection, us, ss);
    forall i | 0 <= i < |us|
      ensures us[i].collection == collection && |us[i].points| == Min(EmbedBatch * (i + 1), |docs|) - EmbedBatch * i
    {
      assert ss[i] == Ok(us[i].points);
      assert PointsFor(id, us[i].points, docs[ws[i].start..ws[i].end]);
    }
    forall k | 0 <= k < |docs|
      ensures && k / EmbedBatch < |us| && k % EmbedBatch < |us[k / EmbedBatch].points|
              && us[k / EmbedBatch].points[k % EmbedBatch].id == id(docs[k])
              && us[k / EmbedBatch].points[k % EmbedBatch].payload == PayloadOf(docs[k])
    {
      PointOfDocument(collection, id, docs, ws, ss, us, k);
    }
  }

  /** Each successful window step holds the points of that window's documents. */
  lemma {:induction false} StepsHoldPoints(collection: string, docs: seq<NormalizedDoc>, b: Backends, ws: seq<Window>)
    requires InBounds(ws, |docs|)
    ensures StepsHold(IdOf(b.crypto), docs, ws, Steps(collection, docs, b, ws))
  {
    var ss := Steps(collection, docs, b, ws);
    forall i | 0 <= i < |ss| && ss[i].Ok? ensures PointsFor(IdOf(b.crypto), ss[i].value, docs[ws[i].start..ws[i].end]) {
      StepAt(collection, docs, b, ws, i);
      WindowStepPoints(collection, docs, b, ws[i]);
    }
  }

  /** The steps of an embed-and-upsert run over all documents follow the plan `RunIndexesDocuments` needs. */
  lemma {:induction false} StepsPlan(collection: string, docs: seq<NormalizedDoc>, b: Backends)
    ensures Plan(IdOf(b.crypto), docs, Windows(0, |docs|), Steps(collection, docs, b, Windows(0, |docs|)))
  {
    WindowsAt(0, |docs|);
    StepsHoldPoints(collection, docs, b, Windows(0, |docs|));
  }

  /**
   * On success every document gets exactly one point: there is one upsert per window, window i's
   * upsert carries as many points as the window has documents, and document k's point is point
   * `k % 64` of upsert `k / 64`, stored under the document's id with its payload.
   */
  lemma {:induction false} EveryDocumentIndexed(collection: string, docs: seq<NormalizedDoc>, b: Backends)
    requires RunWindows(collection, docs, b, Windows(0, |docs|)).result.Ok?
    ensures Indexed(collection, IdOf(b.crypto), docs, RunWindows(collection, docs, b, Windows(0, |docs|)).upserts)
  {
    StepsPlan(collection, docs, b);
    RunIndexesDocuments(collection, IdOf(b.crypto), docs, Windows(0, |docs|), Steps(collection, docs, b, Windows(0, |docs|)));
  }

  /** `QdrantClient`: the points store as the indexer sees it, the upserts it accepted so far. */
  class QdrantClient {
    const upload: Uploader
    var upserted: seq<Upsert>

    constructor(upload: Uploader)
      ensures this.upload == upload && upserted == []
    {
      this.upload := upload;
      upserted := [];
    }

    /** `upsert_points_batched`: stores the points when the upload accepts them. */
    method UpsertPointsBatched(collection: string, points: seq<PointWrite>) returns (r: Result<(), string>)
      modifies this
      ensures upload(collection, points).None? <==> r.Ok?
      ensures r.Err? ==> r.error == upload(collection, points).value
      ensures upserted == if r.Ok? then old(upserted) + [Upsert(collection, points)] else old(upserted)
    {
      match upload(collection, points)
      case Some(message) =>
        r := Err(message);
      case None =>
        upserted := upserted + [Upsert(collection, points)];
        r := Ok(());
    }
  }

  /** A later part's upserts come after the ones already made. */
  function Then(done: seq<Upsert>, run: Run): Run {
    Run(run.result, done + run.upserts)
  }

  /** One window of `embed_and_upsert`'s loop: embed the batch, build its points, upsert them. */
  method IndexWindow(collection: string, docs: seq<NormalizedDoc>, b: Backends, qdrant: QdrantClient, start: nat, end: nat)
    returns (r: Result<seq<PointWrite>, IndexError>)
    requires start <= end <= |docs| && qdrant.upload == b.upload
    modifies qdrant
    ensures r == WindowStep(collection, docs, b, Window(start, end))
    ensures qdrant.upserted == if r.Ok? then old(qdrant.upserted) + [Upsert(collection, r.value)] else old(qdrant.upserted)
  {
    var batch := docs[start..end];
    var inputs := EmbeddingInputs(batch);
    var vectors := EmbedderClient.EmbedTexts(b.embedder, b.server, inputs);
    if vectors.Err? {
      return Err(EmbedFailed(start, end, vectors.error));
    }
    var points := Points(b.crypto, batch, vectors.value);
    var up := qdrant.UpsertPointsBatched(collection, points);
    if up.Err? {
      return Err(UpsertFailed(start, end, up.error));
    }
    r := Ok(points);
  }

  /** The run over the steps from i on, after the upserts of the steps before i. */
  lemma {:induction false} RunFrom(collection: string, ss: seq<Result<seq<PointWrite>, IndexError>>, i: nat, done: seq<Upsert>)
    requires i < |ss|
    ensures ss[i].Err? ==> Then(done, RunOf(collection, ss[i..])) == Run(Err(ss[i].error), done)
    ensures ss[i].Ok? ==>
      Then(done, RunOf(collection, ss[i..])) == Then(done + [Upsert(collection, ss[i].value)], RunOf(collection, ss[i + 1..]))
  {
    assert ss[i..][0] == ss[i] && ss[i..][1..] == ss[i + 1..];
    if ss[i].Ok? {
      AppendAssoc(done, [Upsert(collection, ss[i].value)], RunOf(collection, ss[i + 1..]).upserts);
    }
  }

  /**
   * `embed_and_upsert`: walks the documents window by window and returns at the first failure.
   * Its result and the upserts it makes are those of `RunWindows` over `Windows(0, |docs|)`.
   */
  method EmbedAndUpsert(collection: string, docs: seq<NormalizedDoc>, b: Backends, qdrant: QdrantClient)
    returns (r: Result<(), IndexError>)
    requires qdrant.upload == b.upload
    modifies qdrant
    ensures var run := RunWindows(collection, docs, b, Windows(0, |docs|));
      r == run.result && qdrant.upserted == old(qdrant.upserted) + run.upserts
  {
    ghost var ws := Windows(0, |docs|);
    ghost var ss := Steps(collection, docs, b, ws);
    WindowsAt(0, |docs|);
    var start := 0;
    ghost var i := 0;
    ghost var base := qdrant.upserted;
    ghost var done: seq<Upsert> := [];
    while start < |docs|
      invariant i <= |ws| && start == if i < |ws| then EmbedBatch * i else |docs|
      invariant qdrant.upserted == base + done
      invariant Then(done, RunOf(collection, ss[i..])) == RunOf(collection, ss)
      decreases |ws| - i
    {
      var end := Min(start + EmbedBatch, |docs|);
      assert ws[i] == Window(start, end);
      StepAt(collection, docs, b, ws, i);
      RunFrom(collection, ss, i, done);
      var step := IndexWindow(collection, docs, b, qdrant, start, end);
      if step.Ok? {
        AppendAssoc(base, done, [Upsert(collection, step.value)]);
      }
      if step.Err? {
        return Err(step.error);
      }
      done := done + [Upsert(collection, step.value)];
      start := end;
      i := i + 1;
    }
    assert ss[i..] == [];
    r := Ok(());
  }

  // ---------------------------------------------------------------- parsing a repository

  datatype ParseLanguage = Rust | Kotlin | TypeScript | JavaScript

  /** A file the repository scanner found: the repository it belongs to, its path and its text. */
  datatype ScannedFile = ScannedFile(repo: string, filePath: string, source: string)

  /**
   * What a language's `CodeParser::parse_file` answers for a file: its documents, or the parse
   * error `tick_once` reports and skips.
   */
  type Parser = (ParseLanguage, ScannedFile) -> Result<seq<Document>, ParserError>

  /**
   * The parser `tick_once` hands a file to, as written: a bare suffix test, with Kotlin, TypeScript
   * and JavaScript files all handed to the Kotlin parser.
   */
  function DispatchAsWritten(path: string): (r: Option<ParseLanguage>)
    ensures r == Some(Rust) <==> EndsWith(path, "rs")
    ensures r == Some(Kotlin) <==>
      !EndsWith(path, "rs") && (EndsWith(path, "kt") || EndsWith(path, "ts") || EndsWith(path, "js"))
    ensures r != Some(TypeScript) && r != Some(JavaScript)
  {
    if EndsWith(path, "rs") then Some(Rust)
    else if EndsWith(path, "kt") then Some(Kotlin)
    else if EndsWith(path, "ts") then Some(Kotlin)
    else if EndsWith(path, "js") then Some(Kotlin)
    else None
  }

  /** The dispatch with each suffix handed to its own language's parser. */
  function Dispatch(path: string): (r: Option<ParseLanguage>)
    ensures r == Some(Rust) <==> EndsWith(path, "rs")
    ensures r == Some(Kotlin) <==> !EndsWith(path, "rs") && EndsWith(path, "kt")
    ensures r == Some(TypeScript) <==> !EndsWith(path, "rs") && !EndsWith(path, "kt") && EndsWith(path, "ts")
    ensures r == Some(JavaScript) <==>
      !EndsWith(path, "rs") && !EndsWith(path, "kt") && !EndsWith(path, "ts") && EndsWith(path, "js")
  {
    if EndsWith(path, "rs") then Some(Rust)
    else if EndsWith(path, "kt") then Some(Kotlin)
    else if EndsWith(path, "ts") then Some(TypeScript)
    else if EndsWith(path, "js") then Some(JavaScript)
    else None
  }

  /** The dispatch of a reading: as written, or with each suffix handed to its own parser. */
  function DispatchBy(rules: Rules): string -> Option<ParseLanguage> {
    if rules == AsWritten then DispatchAsWritten else Dispatch
  }

  /** The two dispatches send the same files to a parser, and agree except on ts and js files. */
  lemma {:induction false} DispatchesAgree(path: string)
    ensures DispatchAsWritten(path).None? <==> Dispatch(path).None?
    ensures Dispatch(path) != Some(TypeScript) && Dispatch(path) != Some(JavaScript) ==>
      DispatchAsWritten(path) == Dispatch(path)
  {
  }

  lemma {:induction false} EndsWithLiteral(pre: string, suffix: string)
    ensures EndsWith(pre + suffix, suffix)
  {
    assert (pre + suffix)[|pre + suffix| - |suffix|..] == suffix;
  }

  /** As written, a TypeScript file goes to the Kotlin parser; the corrected dispatch uses TypeScript's. */
  lemma {:induction false} TypeScriptToKotlinParser()
    ensures DispatchAsWritten("web/app.ts") == Some(Kotlin)
    ensures Dispatch("web/app.ts") == Some(TypeScript)
  {
    EndsWithLiteral("web/app.", "ts");
    assert "web/app." + "ts" == "web/app.ts";
    assert !EndsWith("web/app.ts", "rs") by {
      assert "web/app.ts"[8..] == "ts";
    }
    assert !EndsWith("web/app.ts", "kt") by {
      assert "web/app.ts"[8..] == "ts";
    }
  }

  /** The test is on the suffix, not the extension: an extensionless file named `errors` is taken for Rust. */
  lemma {:induction false} SuffixNotExtension()
    ensures Dispatch("src/errors") == Some(Rust) && DispatchAsWritten("src/errors") == Some(Rust)
  {
    EndsWithLiteral("src/erro", "rs");
    assert "src/erro" + "rs" == "src/errors";
  }

  /** The concatenation of the pieces, in order. */
  function Flatten<T>(xss: seq<seq<T>>): seq<T>
    decreases |xss|
  {
    if xss == [] then [] else Flatten(xss[..|xss| - 1]) + xss[|xss| - 1]
  }

  lemma {:induction false} FlattenAppend<T>(a: seq<seq<T>>, b: seq<seq<T>>)
    ensures Flatten(a + b) == Flatten(a) + Flatten(b)
    decreases |b|
  {
    if b == [] {
      assert a + b == a;
    } else {
      var c := b[..|b| - 1];
      assert (a + b)[..|a + b| - 1] == a + c;
      assert (a + b)[|a + b| - 1] == b[|b| - 1];
      FlattenAppend(a, c);
      AppendAssoc(Flatten(a), Flatten(c), b[|b| - 1]);
    }
  }

  /** f applied to each element, in order. */
  function Map<A, B>(f: A -> B, xs: seq<A>): (ys: seq<B>)
    ensures |ys| == |xs| && forall i :: 0 <= i < |xs| ==> ys[i] == f(xs[i])
  {
    seq(|xs|, i requires 0 <= i < |xs| => f(xs[i]))
  }

  lemma {:induction false} MapAppend<A, B>(f: A -> B, a: seq<A>, b: seq<A>)
    ensures Map(f, a + b) == Map(f, a) + Map(f, b)
  {
    forall i | 0 <= i < |a + b| ensures Map(f, a + b)[i] == (Map(f, a) + Map(f, b))[i] {
      if i < |a| {
        assert (a + b)[i] == a[i];
      } else {
        assert (a + b)[i] == b[i - |a|];
      }
    }
  }

  /** The documents a file contributes: its parse, or nothing when it is not dispatched or does not parse. */
  function FileDocs(dispatch: string -> Option<ParseLanguage>, parse: Parser, f: ScannedFile): seq<Document> {
    match dispatch(f.filePath)
    case None => []
    case Some(lang) =>
      match parse(lang, f)
      case Err(_) => []
      case Ok(docs) => docs
  }

  /** Each file's documents, file by file. */
  function PerFile(dispatch: string -> Option<ParseLanguage>, parse: Parser, files: seq<ScannedFile>): (r: seq<seq<Document>>)
    ensures |r| == |files| && forall i :: 0 <= i < |files| ==> r[i] == FileDocs(dispatch, parse, files[i])
  {
    seq(|files|, i requires 0 <= i < |files| => FileDocs(dispatch, parse, files[i]))
  }

  /** The documents of the files, file after file. */
  function FilesDocs(dispatch: string -> Option<ParseLanguage>, parse: Parser, files: seq<ScannedFile>): seq<Document> {
    Flatten(PerFile(dispatch, parse, files))
  }

  lemma {:induction false} FilesDocsAppend(dispatch: string -> Option<ParseLanguage>, parse: Parser, a: seq<ScannedFile>, b: seq<ScannedFile>)
    ensures FilesDocs(dispatch, parse, a + b) == FilesDocs(dispatch, parse, a) + FilesDocs(dispatch, parse, b)
  {
    var pa, pb := PerFile(dispatch, parse, a), PerFile(dispatch, parse, b);
    assert PerFile(dispatch, parse, a + b) == pa + pb by {
      forall i | 0 <= i < |a + b| ensures PerFile(dispatch, parse, a + b)[i] == (pa + pb)[i] {
        if i < |a| {
          assert (a + b)[i] == a[i];
        } else {
          assert (a + b)[i] == b[i - |a|];
        }
      }
    }
    FlattenAppend(pa, pb);
  }

  /** The documents of one file on its own. */
  lemma {:induction false} FilesDocsSingle(dispatch: string -> Option<ParseLanguage>, parse: Parser, f: ScannedFile)
    ensures FilesDocs(dispatch, parse, [f]) == FileDocs(dispatch, parse, f)
  {
    var p := PerFile(dispatch, parse, [f]);
    assert |p| == 1 && p[..0] == [] && p[0] == FileDocs(dispatch, parse, f);
    assert Flatten(p) == Flatten(p[..0]) + p[0];
    assert [] + p[0] == p[0];
  }

  /**
   * A file that is not dispatched, or whose parse fails, is skipped: the loop goes on and the
   * other files' documents are unaffected.
   */
  lemma {:induction false} UnparsedFileSkipped(dispatch: string -> Option<ParseLanguage>, parse: Parser, a: seq<ScannedFile>, f: ScannedFile, b: seq<ScannedFile>)
    requires dispatch(f.filePath).None? || parse(dispatch(f.filePath).value, f).Err?
    ensures FilesDocs(dispatch, parse, a + [f] + b) == FilesDocs(dispatch, parse, a) + FilesDocs(dispatch, parse, b)
  {
    FilesDocsAppend(dispatch, parse, a + [f], b);
    FilesDocsAppend(dispatch, parse, a, [f]);
    FilesDocsSingle(dispatch, parse, f);
  }

  /** A dispatched file's parsed documents are appended in the file's place. */
  lemma {:induction false} ParsedFileAppended(dispatch: string -> Option<ParseLanguage>, parse: Parser, a: seq<ScannedFile>, f: ScannedFile, b: seq<ScannedFile>)
    requires dispatch(f.filePath).Some? && parse(dispatch(f.filePath).value, f).Ok?
    ensures FilesDocs(dispatch, parse, a + [f] + b)
         == FilesDocs(dispatch, parse, a) + parse(dispatch(f.filePath).value, f).value + FilesDocs(dispatch, parse, b)
  {
    FilesDocsAppend(dispatch, parse, a + [f], b);
    FilesDocsAppend(dispatch, parse, a, [f]);
    FilesDocsSingle(dispatch, parse, f);
  }

  /**
   * The repository has no documents exactly when no file is both dispatched and parsed into
   * documents: the "yielded 0 documents" stop.
   */
  lemma {:induction false} NoDocumentsIff(dispatch: string -> Option<ParseLanguage>, parse: Parser, files: seq<ScannedFile>)
    ensures FilesDocs(dispatch, parse, files) == [] <==>
      forall k :: 0 <= k < |files| ==> FileDocs(dispatch, parse, files[k]) == []
    decreases |files|
  {
    if files != [] {
      var init, last := files[..|files| - 1], files[|files| - 1];
      assert files == init + [last];
      FilesDocsAppend(dispatch, parse, init, [last]);
      FilesDocsSingle(dispatch, parse, last);
      NoDocumentsIff(dispatch, parse, init);
      assert forall k :: 0 <= k < |init| ==> files[k] == init[k];
    }
  }

  /** The loop over a repository's files, appending each file's documents as it parses. */
  method CollectDocuments(dispatch: string -> Option<ParseLanguage>, parse: Parser, files: seq<ScannedFile>)
    returns (all: seq<Document>)
    ensures all == FilesDocs(dispatch, parse, files)
  {
    ghost var per := PerFile(dispatch, parse, files);
    all := [];
    for i := 0 to |files|
      invariant all == Flatten(per[..i])
    {
      var f := files[i];
      assert per[..i + 1][..i] == per[..i];
      match dispatch(f.filePath)
      case None =>
      case Some(lang) =>
        var parsed := parse(lang, f);
        if parsed.Ok? {
          all := all + parsed.value;
        }
    }
    assert per[..|files|] == per;
  }

  // ---------------------------------------------------------------- normalisation

  /** The documents the normaliser truncates without panicking. */
  predicate NormalizesSafely(d: Document) {
    TruncatesOnBoundary(d.code, DefaultNormalizer.maxCodeChars)
  }

  /**
   * `DocNormalizer::default().normalize` mapped over the documents: `None` when one of them
   * makes the truncation panic, the normalised documents in order otherwise.
   */
  function NormalizeAll(crypto: Crypto, docs: seq<Document>, now: Timestamp): Option<seq<NormalizedDoc>> {
    if forall i :: 0 <= i < |docs| ==> NormalizesSafely(docs[i]) then
      Some(seq(|docs|, i requires 0 <= i < |docs| => Normalize(crypto, DefaultNormalizer, docs[i], now)))
    else None
  }

  // ---------------------------------------------------------------- the cycle

  /** The outside world of one cycle. */
  datatype Env = Env(
    crypto: Crypto,
    /** `ProjectScanner::scan_project`: the repository roots under a root. */
    scanProject: string -> Result<seq<string>, string>,
    /** `ProjectScanner::scan_repo`: the files of a repository. */
    scanRepo: string -> Result<seq<ScannedFile>, string>,
    /** Whether `CodeParser::new` succeeds for a language. */
    parserReady: ParseLanguage -> bool,
    parse: Parser,
    embedder: EmbedderClient.Client,
    server: EmbedderClient.Server,
    now: Timestamp)

  function BackendsOf(env: Env, upload: Uploader): Backends {
    Backends(env.crypto, env.embedder, env.server, upload)
  }

  /** Why `tick_once` returned early. */
  datatype Stop =
    | EnsureFailed(cause: QdrantSchema.SchemaError)
    | ScanProjectFailed(message: string)
    | ScanRepoFailed(repoRoot: string, message: string)
    | NoFiles(repoRoot: string)
    | ParserInitFailed(language: ParseLanguage)
    | NoDocuments(repoRoot: string)
    | NormalizePanicked(repoRoot: string)
    | IndexFailed(failure: IndexError)

  /** How a cycle, or part of one, ends (`None` when it went through) and the upserts it made. */
  datatype Cycle = Cycle(stop: Option<Stop>, upserts: seq<Upsert>)

  /** Every upsert of the cycle goes to the collection. */
  predicate IntoCollection(c: Cycle, collection: string) {
    forall j :: 0 <= j < |c.upserts| ==> c.upserts[j].collection == collection
  }

  /** The parts in order until one stops: the upserts of each part up to and including that one. */
  function Chain(cs: seq<Cycle>): Cycle {
    if cs == [] then Cycle(None, [])
    else if cs[0].stop.Some? then cs[0]
    else
      var rest := Chain(cs[1..]);
      Cycle(rest.stop, cs[0].upserts + rest.upserts)
  }

  lemma {:induction false} ChainAppend(a: seq<Cycle>, b: seq<Cycle>)
    ensures Chain(a + b) == if Chain(a).stop.Some? then Chain(a) else Cycle(Chain(b).stop, Chain(a).upserts + Chain(b).upserts)
  {
    if a == [] {
      assert a + b == b;
    } else {
      assert (a + b)[0] == a[0];
      assert (a + b)[1..] == a[1..] + b;
      ChainAppend(a[1..], b);
      if a[0].stop.None? {
        AppendAssoc(a[0].upserts, Chain(a[1..]).upserts, Chain(b).upserts);
      }
    }
  }

  /** A part that went through without upserting anything changes nothing. */
  lemma {:induction false} ChainSkipsIdle(a: seq<Cycle>, b: seq<Cycle>)
    ensures Chain(a + [Cycle(None, [])] + b) == Chain(a + b)
  {
    ChainAppend(a + [Cycle(None, [])], b);
    ChainAppend(a, [Cycle(None, [])]);
    ChainAppend(a, b);
    assert [Cycle(None, [])][1..] == [];
    assert Chain(a).upserts + [] == Chain(a).upserts;
  }

  lemma {:induction false} ChainIntoCollection(cs: seq<Cycle>, collection: string)
    requires forall i :: 0 <= i < |cs| ==> IntoCollection(cs[i], collection)
    ensures IntoCollection(Chain(cs), collection)
  {
    if cs != [] && cs[0].stop.None? {
      ChainIntoCollection(cs[1..], collection);
      var us: seq<Upsert>, rest: seq<Upsert> := cs[0].upserts, Chain(cs[1..]).upserts;
      forall j | 0 <= j < |us + rest| ensures (us + rest)[j].collection == collection {
        if j < |us| {
          assert (us + rest)[j] == us[j];
        } else {
          assert (us + rest)[j] == rest[j - |us|];
        }
      }
    }
  }

  /** A chain of parts whose vectors all have n components upserts only vectors of n components. */
  lemma {:induction false} ChainVectorsOfSize(cs: seq<Cycle>, n: nat)
    requires forall i :: 0 <= i < |cs| ==> VectorsOfSize(cs[i].upserts, n)
    ensures VectorsOfSize(Chain(cs).upserts, n)
  {
    if cs != [] && cs[0].stop.None? {
      ChainVectorsOfSize(cs[1..], n);
      var us: seq<Upsert>, rest: seq<Upsert> := cs[0].upserts, Chain(cs[1..]).upserts;
      forall j | 0 <= j < |us + rest| ensures PointsOfSize((us + rest)[j].points, n) {
        if j < |us| {
          assert (us + rest)[j] == us[j];
        } else {
          assert (us + rest)[j] == rest[j - |us|];
        }
      }
    }
  }

  /** The first of the four parsers, in creation order, that fails to initialise. */
  function FirstUnreadyParser(ready: ParseLanguage -> bool): (r: Option<ParseLanguage>)
    ensures r.None? <==> ready(Rust) && ready(Kotlin) && ready(TypeScript) && ready(JavaScript)
    ensures r.Some? ==> !ready(r.value)
  {
    if !ready(Rust) then Some(Rust)
    else if !ready(Kotlin) then Some(Kotlin)
    else if !ready(TypeScript) then Some(TypeScript)
    else if !ready(JavaScript) then Some(JavaScript)
    else None
  }

  /**
   * Normalising and indexing a repository's documents, the same in both versions of the cycle:
   * no documents or a panicking truncation stop it before anything is embedded, and what is
   * upserted goes to the collection.
   */
  function IndexDocuments(env: Env, upload: Uploader, collection: string, repoRoot: string, docs: seq<Document>): (c: Cycle)
    ensures c.upserts != [] ==> docs != [] && forall i :: 0 <= i < |docs| ==> NormalizesSafely(docs[i])
    ensures IntoCollection(c, collection)
    ensures env.embedder.expectedDim.Some? ==> VectorsOfSize(c.upserts, env.embedder.expectedDim.value)
  {
    if docs == [] then Cycle(Some(NoDocuments(repoRoot)), [])
    else
      match NormalizeAll(env.crypto, docs, env.now)
      case None => Cycle(Some(NormalizePanicked(repoRoot)), [])
      case Some(norm) =>
        var run := RunWindows(collection, norm, BackendsOf(env, upload), Windows(0, |norm|));
        RunStopsAtFirstFailure(collection, Steps(collection, norm, BackendsOf(env, upload), Windows(0, |norm|)));
        RunVectorsOfSize(collection, norm, BackendsOf(env, upload), Windows(0, |norm|));
        Cycle(if run.result.Err? then Some(IndexFailed(run.result.error)) else None, run.upserts)
  }

  /** One repository root of `tick_once`: an empty repository is passed over, everything else but success stops the cycle. */
  function IndexRoot(rules: Rules, env: Env, upload: Uploader, collection: string, repoRoot: string): (c: Cycle)
    ensures c.upserts != [] ==> c.stop.None? || c.stop.value.IndexFailed?
    ensures IntoCollection(c, collection)
    ensures env.embedder.expectedDim.Some? ==> VectorsOfSize(c.upserts, env.embedder.expectedDim.value)
  {
    match env.scanRepo(repoRoot)
    case Err(message) => Cycle(Some(ScanRepoFailed(repoRoot, message)), [])
    case Ok(files) =>
      if files == [] then Cycle(None, [])
      else
        match FirstUnreadyParser(env.parserReady)
        case Some(lang) => Cycle(Some(ParserInitFailed(lang)), [])
        case None => IndexDocuments(env, upload, collection, repoRoot, FilesDocs(DispatchBy(rules), env.parse, files))
  }

  /** One root's part of the cycle, as a function of the root. */
  function RootStep(rules: Rules, env: Env, upload: Uploader, collection: string): string -> Cycle {
    r => IndexRoot(rules, env, upload, collection, r)
  }

  /** Each root's part of the cycle, root by root. */
  function PerRoot(rules: Rules, env: Env, upload: Uploader, collection: string, roots: seq<string>): (cs: seq<Cycle>)
    ensures |cs| == |roots| && forall i :: 0 <= i < |roots| ==> cs[i] == IndexRoot(rules, env, upload, collection, roots[i])
  {
    Map(RootStep(rules, env, upload, collection), roots)
  }

  lemma {:induction false} PerRootAppend(rules: Rules, env: Env, upload: Uploader, collection: string, a: seq<string>, b: seq<string>)
    ensures PerRoot(rules, env, upload, collection, a + b) == PerRoot(rules, env, upload, collection, a) + PerRoot(rules, env, upload, collection, b)
  {
    MapAppend(RootStep(rules, env, upload, collection), a, b);
  }

  /** The repository roots in order, until one stops the cycle. */
  function IndexRoots(rules: Rules, env: Env, upload: Uploader, collection: string, roots: seq<string>): Cycle
  {
    Chain(PerRoot(rules, env, upload, collection, roots))
  }

  /** `tick_once` once `ensure_collection` has answered. */
  function Tick(rules: Rules, env: Env, upload: Uploader, root: string, collection: string, ensured: Result<(), QdrantSchema.SchemaError>): Cycle
  {
    match ensured
    case Err(e) => Cycle(Some(EnsureFailed(e)), [])
    case Ok(_) =>
      match env.scanProject(root)
      case Err(message) => Cycle(Some(ScanProjectFailed(message)), [])
      case Ok(roots) => IndexRoots(rules, env, upload, collection, roots)
  }

  /** A repository with no files is passed over: the cycle goes on with the next root as if it were absent. */
  lemma {:induction false} EmptyRepoSkipped(rules: Rules, env: Env, upload: Uploader, collection: string, a: seq<string>, r: string, b: seq<string>)
    requires env.scanRepo(r) == Ok([])
    ensures IndexRoots(rules, env, upload, collection, a + [r] + b) == IndexRoots(rules, env, upload, collection, a + b)
  {
    PerRootAppend(rules, env, upload, collection, a + [r], b);
    PerRootAppend(rules, env, upload, collection, a, [r]);
    PerRootAppend(rules, env, upload, collection, a, b);
    assert PerRoot(rules, env, upload, collection, [r]) == [Cycle(None, [])];
    ChainSkipsIdle(PerRoot(rules, env, upload, collection, a), PerRoot(rules, env, upload, collection, b));
  }

  /** Once a root stops the cycle, no later root is scanned, parsed or indexed. */
  lemma {:induction false} StopEndsCycle(rules: Rules, env: Env, upload: Uploader, collection: string, a: seq<string>, b: seq<string>)
    requires IndexRoots(rules, env, upload, collection, a).stop.Some?
    ensures IndexRoots(rules, env, upload, collection, a + b) == IndexRoots(rules, env, upload, collection, a)
  {
    PerRootAppend(rules, env, upload, collection, a, b);
    ChainAppend(PerRoot(rules, env, upload, collection, a), PerRoot(rules, env, upload, collection, b));
  }

  /** Points only reach the collection after it was ensured and the project scanned, and only that collection. */
  lemma {:induction false} UpsertsOnlyAfterEnsure(rules: Rules, env: Env, upload: Uploader, root: string, collection: string,
                               ensured: Result<(), QdrantSchema.SchemaError>)
    ensures var c := Tick(rules, env, upload, root, collection, ensured);
      (c.upserts != [] ==> ensured.Ok? && env.scanProject(root).Ok?) && IntoCollection(c, collection)
  {
    if ensured.Ok? && env.scanProject(root).Ok? {
      ChainIntoCollection(PerRoot(rules, env, upload, collection, env.scanProject(root).value), collection);
    }
  }

  /** With an embedder that expects vectors of n components, every vector the cycle upserts has n components. */
  lemma {:induction false} TickVectorsOfSize(rules: Rules, env: Env, upload: Uploader, root: string, collection: string,
                                             ensured: Result<(), QdrantSchema.SchemaError>)
    requires env.embedder.expectedDim.Some?
    ensures VectorsOfSize(Tick(rules, env, upload, root, collection, ensured).upserts, env.embedder.expectedDim.value)
  {
    if ensured.Ok? && env.scanProject(root).Ok? {
      var cs := PerRoot(rules, env, upload, collection, env.scanProject(root).value);
      forall i | 0 <= i < |cs| ensures VectorsOfSize(cs[i].upserts, env.embedder.expectedDim.value) {
      }
      ChainVectorsOfSize(cs, env.embedder.expectedDim.value);
    }
  }

  /** One repository root of `tick_once`'s loop. */
  method IndexRepoRoot(rules: Rules, env: Env, qdrant: QdrantClient, collection: string, repoRoot: string) returns (stop: Option<Stop>)
    modifies qdrant
    ensures var c := IndexRoot(rules, env, qdrant.upload, collection, repoRoot);
      stop == c.stop && qdrant.upserted == old(qdrant.upserted) + c.upserts
  {
    var files;
    match env.scanRepo(repoRoot)
    case Err(message) =>
      return Some(ScanRepoFailed(repoRoot, message));
    case Ok(v) =>
      files := v;
    if files == [] {
      return None;
    }
    var failed := FirstUnreadyParser(env.parserReady);
    if failed.Some? {
      return Some(ParserInitFailed(failed.value));
    }
    var allDocs := CollectDocuments(DispatchBy(rules), env.parse, files);
    if allDocs == [] {
      return Some(NoDocuments(repoRoot));
    }
    var normDocs := NormalizeAll(env.crypto, allDocs, env.now);
    if normDocs.None? {
      return Some(NormalizePanicked(repoRoot));
    }
    var r := EmbedAndUpsert(collection, normDocs.value, BackendsOf(env, qdrant.upload), qdrant);
    if r.Err? {
      return Some(IndexFailed(r.error));
    }
    stop := None;
  }

  /** A later part's upserts come after the ones already made. */
  function After(done: seq<Upsert>, c: Cycle): Cycle {
    Cycle(c.stop, done + c.upserts)
  }

  /** The chain from part i on is part i if it stops, and otherwise part i followed by the chain from i + 1. */
  lemma {:induction false} ChainFrom(cs: seq<Cycle>, i: nat, done: seq<Upsert>)
    requires i < |cs|
    ensures cs[i].stop.Some? ==> After(done, Chain(cs[i..])) == After(done, cs[i])
    ensures cs[i].stop.None? ==> After(done, Chain(cs[i..])) == After(done + cs[i].upserts, Chain(cs[i + 1..]))
  {
    assert cs[i..][0] == cs[i] && cs[i..][1..] == cs[i + 1..];
    if cs[i].stop.None? {
      AppendAssoc(done, cs[i].upserts, Chain(cs[i + 1..]).upserts);
    }
  }

  /** The loop over the repository roots, returning at the first that stops the cycle. */
  method IndexRepoRoots(rules: Rules, env: Env, qdrant: QdrantClient, collection: string, roots: seq<string>) returns (stop: Option<Stop>)
    modifies qdrant
    ensures var c := IndexRoots(rules, env, qdrant.upload, collection, roots);
      stop == c.stop && qdrant.upserted == old(qdrant.upserted) + c.upserts
  {
    ghost var cs := PerRoot(rules, env, qdrant.upload, collection, roots);
    ghost var base := qdrant.upserted;
    ghost var done: seq<Upsert> := [];
    for i := 0 to |roots|
      invariant qdrant.upserted == base + done
      invariant After(done, Chain(cs[i..])) == Chain(cs)
    {
      ChainFrom(cs, i, done);
      stop := IndexRepoRoot(rules, env, qdrant, collection, roots[i]);
      AppendAssoc(base, done, cs[i].upserts);
      if stop.Some? {
        return;
      }
      done := done + cs[i].upserts;
    }
    assert cs[|roots|..] == [];
    stop := None;
  }

  /**
   * `tick_once`: ensures the collection, scans the project and indexes each repository root.
   * The collections afterwards are those `ensure_collection` leaves; the outcome and the upserts
   * are those of `Tick` given its result.
   */
  method TickOnce(rules: Rules, schema: QdrantSchema.QdrantSchema, qdrant: QdrantClient, env: Env, root: string, collection: string,
                  getInterference: Option<QdrantSchema.GetReply>, putInterference: Option<QdrantSchema.PutReply>)
    returns (stop: Option<Stop>)
    modifies schema, qdrant
    ensures var e := QdrantSchema.EnsureResult(old(schema.collections), collection, VectorSize, CollectionDistance,
                                               old(schema.GetReplyFor(collection, getInterference)),
                                               putInterference.GetOr(QdrantSchema.CreatedReply));
      && schema.collections == e.1
      && var c := Tick(rules, env, qdrant.upload, root, collection, e.0);
         stop == c.stop && qdrant.upserted == old(qdrant.upserted) + c.upserts
  {
    var ensured := schema.EnsureCollection(collection, VectorSize, CollectionDistance, getInterference, putInterference);
    if ensured.Err? {
      return Some(EnsureFailed(ensured.error));
    }
    var roots;
    match env.scanProject(root)
    case Err(message) =>
      return Some(ScanProjectFailed(message));
    case Ok(v) =>
      roots := v;
    stop := IndexRepoRoots(rules, env, qdrant, collection, roots);
  }

  /**
   * `index`: names the collection after the root, builds the schema client on `QdrantUrl`, the
   * points client on `upload` and the embedder `IndexEmbedder` (which takes the place of
   * `env.embedder`), then runs one cycle into the collection. `existing` is what the Qdrant
   * server holds. Every vector upserted has `VectorSize` components, the size the collection
   * is ensured with.
   */
  method Index(rules: Rules, env: Env, upload: Uploader, existing: QdrantSchema.Store, root: string,
               getInterference: Option<QdrantSchema.GetReply>, putInterference: Option<QdrantSchema.PutReply>)
    returns (collection: string, stop: Option<Stop>, schema: QdrantSchema.QdrantSchema, qdrant: QdrantClient)
    ensures collection == RepoName(root)
    ensures fresh(schema) && fresh(qdrant) && schema.baseUrl == QdrantUrl && qdrant.upload == upload
    ensures var e := QdrantSchema.EnsureResult(existing, collection, VectorSize, CollectionDistance,
                                               getInterference.GetOr(QdrantSchema.StoreReply(existing, collection)),
                                               putInterference.GetOr(QdrantSchema.CreatedReply));
      && schema.collections == e.1
      && var c := Tick(rules, env.(embedder := IndexEmbedder), upload, root, collection, e.0);
         stop == c.stop && qdrant.upserted == c.upserts
    ensures VectorsOfSize(qdrant.upserted, VectorSize)
  {
    collection := RepoName(root);
    schema := new QdrantSchema.QdrantSchema(QdrantUrl, existing);
    qdrant := new QdrantClient(upload);
    var embedderEnv := env.(embedder := IndexEmbedder);
    ghost var e := QdrantSchema.EnsureResult(existing, collection, VectorSize, CollectionDistance,
                                             getInterference.GetOr(QdrantSchema.StoreReply(existing, collection)),
                                             putInterference.GetOr(QdrantSchema.CreatedReply));
    stop := TickOnce(rules, schema, qdrant, embedderEnv, root, collection, getInterference, putInterference);
    assert qdrant.upserted == [] + Tick(rules, embedderEnv, upload, root, collection, e.0).upserts;
    TickVectorsOfSize(rules, embedderEnv, upload, root, collection, e.0);
  }
}
