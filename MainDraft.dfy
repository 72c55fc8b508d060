/**
 * The earlier indexing cycle kept in src/main.rs. Its collection name, embedding text, windows
 * and points are those of src/indexing.rs (the two files define them identically), but it
 * differs in three ways: it creates two `RustParser`s (the Rust and the Kotlin grammar) and
 * parses with the document extractor of src/ingest/rust_parser.rs; it dispatches on the
 * suffixes "rs" and "kt" only; and a repository without files ends the whole cycle instead of
 * being passed over.
 *
 * Tree-sitter itself is an input (`Grammar`): the tree it builds for a file, or none when
 * parsing fails.
 */
module MainDraft {
  import opened Wrappers
  import opened Strings
  import opened SyntaxTree
  import opened RustParser
  import Indexing
  import QdrantSchema

  /**
   * What tree-sitter answers for a file under a grammar. Only the `Rust` and `Kotlin` values of
   * `Indexing.ParseLanguage` are ever asked, the two variants of rust_parser.rs's `Language`.
   */
  type Grammar = (Indexing.ParseLanguage, Indexing.ScannedFile) -> Option<Node>

  /** What tree-sitter guarantees: every tree it returns spans the text it parsed. */
  ghost predicate TreesFit(grammar: Grammar) {
    forall l, f :: grammar(l, f).Some? ==> WellFormed(grammar(l, f).value, |f.source|)
  }

  // ---------------------------------------------------------------- parsing a repository

  /**
   * `parse_file` of the parser created for a language, on a scanned file, with the filename
   * document included: a failed parse is `ParseFailed`, and a parsed file yields its filename
   * document first.
   */
  function ParseWith(rules: Rules, grammar: Grammar, l: Indexing.ParseLanguage, f: Indexing.ScannedFile)
    : (r: Result<seq<Document>, ParserError>)
    requires TreesFit(grammar)
    ensures r.Err? <==> grammar(l, f).None?
    ensures r.Err? ==> r.error == ParseFailed
    ensures r.Ok? ==> r.value != [] && r.value[0] == FilenameDocument(f.repo, f.filePath, f.source)
    ensures r.Ok? ==> forall i :: 0 <= i < |r.value| ==> (r.value[i].kind == Filename <==> i == 0)
  {
    match grammar(l, f)
    case None => Err(ParseFailed)
    case Some(t) =>
      FileDocumentsFilenameFirst(rules, f.repo, f.filePath, f.source, Indexing.IncludeFilenameDoc, t);
      Ok(FileDocuments(rules, f.repo, f.filePath, f.source, Indexing.IncludeFilenameDoc, t))
  }

  /** The two extractors as the parser the file loop consults. */
  function Extractor(rules: Rules, grammar: Grammar): Indexing.Parser
    requires TreesFit(grammar)
  {
    (l, f) => ParseWith(rules, grammar, l, f)
  }

  /** The parser this version of `tick_once` gives a file: "rs" files the Rust one, "kt" files the Kotlin one, no other. */
  function DraftDispatch(path: string): (r: Option<Indexing.ParseLanguage>)
    ensures r == Some(Indexing.Rust) <==> EndsWith(path, "rs")
    ensures r == Some(Indexing.Kotlin) <==> !EndsWith(path, "rs") && EndsWith(path, "kt")
    ensures r.None? <==> !EndsWith(path, "rs") && !EndsWith(path, "kt")
  {
    if EndsWith(path, "rs") then Some(Indexing.Rust)
    else if EndsWith(path, "kt") then Some(Indexing.Kotlin)
    else None
  }

  /** The draft hands a file to the same parser as the later dispatch, but hands TypeScript and JavaScript files to none. */
  lemma {:induction false} DraftDispatchAgrees(path: string)
    ensures DraftDispatch(path).Some? ==> DraftDispatch(path) == Indexing.Dispatch(path)
    ensures DraftDispatch(path).None? <==>
      Indexing.Dispatch(path).None? || Indexing.Dispatch(path) == Some(Indexing.TypeScript)
      || Indexing.Dispatch(path) == Some(Indexing.JavaScript)
  {
  }

  /** A TypeScript file is parsed by neither draft parser. */
  lemma {:induction false} DraftIgnoresScripts()
    ensures DraftDispatch("web/app.ts").None?
    ensures Indexing.Dispatch("web/app.ts") == Some(Indexing.TypeScript)
  {
    Indexing.TypeScriptToKotlinParser();
  }

  /**
   * A repository yields no documents exactly when none of its files is both dispatched and
   * parsed: every parsed file contributes at least its filename document.
   */
  lemma {:induction false} DraftNoDocumentsIff(rules: Rules, grammar: Grammar, files: seq<Indexing.ScannedFile>)
    requires TreesFit(grammar)
    ensures Indexing.FilesDocs(DraftDispatch, Extractor(rules, grammar), files) == [] <==>
      forall k :: 0 <= k < |files| ==>
        DraftDispatch(files[k].filePath).None? || grammar(DraftDispatch(files[k].filePath).value, files[k]).None?
  {
    var parse := Extractor(rules, grammar);
    Indexing.NoDocumentsIff(DraftDispatch, parse, files);
    forall k | 0 <= k < |files|
      ensures Indexing.FileDocs(DraftDispatch, parse, files[k]) == [] <==>
        DraftDispatch(files[k].filePath).None? || grammar(DraftDispatch(files[k].filePath).value, files[k]).None?
    {
      var f := files[k];
      if DraftDispatch(f.filePath).Some? {
        var r := ParseWith(rules, grammar, DraftDispatch(f.filePath).value, f);
        assert parse(DraftDispatch(f.filePath).value, f) == r;
      }
    }
  }

  /** The parser created for a language parsing one scanned file. */
  method DraftParseFile(rules: Rules, grammar: Grammar, l: Indexing.ParseLanguage, f: Indexing.ScannedFile)
    returns (r: Result<seq<Document>, ParserError>)
    requires TreesFit(grammar)
    ensures r == Extractor(rules, grammar)(l, f)
  {
    var tree := grammar(l, f);
    r := ParseFile(rules, f.repo, f.filePath, f.source, Indexing.IncludeFilenameDoc, tree);
  }

  /**
   * The file loop with its two parsers: each "rs" file is parsed with the Rust grammar, each "kt"
   * file with the Kotlin one, a failed parse is skipped, and the documents are appended in file order.
   */
  method DraftCollectDocuments(rules: Rules, grammar: Grammar, files: seq<Indexing.ScannedFile>) returns (all: seq<Document>)
    requires TreesFit(grammar)
    ensures all == Indexing.FilesDocs(DraftDispatch, Extractor(rules, grammar), files)
  {
    ghost var parse := Extractor(rules, grammar);
    ghost var per := Indexing.PerFile(DraftDispatch, parse, files);
    all := [];
    for i := 0 to |files|
      invariant all == Indexing.Flatten(per[..i])
    {
      var f := files[i];
      assert per[..i + 1][..i] == per[..i];
      assert Indexing.Flatten(per[..i + 1]) == Indexing.Flatten(per[..i]) + per[i];
      var lang := DraftDispatch(f.filePath);
      if lang.Some? {
        var parsed := DraftParseFile(rules, grammar, lang.value, f);
        assert per[i] == if parsed.Ok? then parsed.value else [];
        if parsed.Ok? {
          all := all + parsed.value;
        }
      } else {
        assert per[i] == [];
      }
    }
    assert per[..|files|] == per;
  }

  // ---------------------------------------------------------------- the cycle

  /** The first of the two parsers, in creation order, whose grammar fails to load. */
  function FirstUnreadyDraftParser(ready: Indexing.ParseLanguage -> bool): (r: Option<Indexing.ParseLanguage>)
    ensures r.None? <==> ready(Indexing.Rust) && ready(Indexing.Kotlin)
    ensures r.Some? ==> !ready(r.value) && (r.value == Indexing.Rust || r.value == Indexing.Kotlin)
    ensures r == Some(Indexing.Kotlin) ==> ready(Indexing.Rust)
  {
    if !ready(Indexing.Rust) then Some(Indexing.Rust)
    else if !ready(Indexing.Kotlin) then Some(Indexing.Kotlin)
    else None
  }

  /**
   * One repository root of this version's loop: every outcome but success, an empty repository
   * included, stops the cycle. `env.parserReady` says whether `RustParser::new` loads a grammar;
   * `env.parse` is not read, the files being parsed by the extractor over `grammar`.
   */
  function DraftRoot(env: Indexing.Env, rules: Rules, grammar: Grammar, upload: Indexing.Uploader, collection: string, repoRoot: string)
    : (c: Indexing.Cycle)
    requires TreesFit(grammar)
    ensures c.upserts != [] ==> c.stop.None? || c.stop.value.IndexFailed?
    ensures c.stop.None? ==> env.scanRepo(repoRoot).Ok? && env.scanRepo(repoRoot).value != []
    ensures Indexing.IntoCollection(c, collection)
    ensures env.embedder.expectedDim.Some? ==> Indexing.VectorsOfSize(c.upserts, env.embedder.expectedDim.value)
  {
    match env.scanRepo(repoRoot)
    case Err(message) => Indexing.Cycle(Some(Indexing.ScanRepoFailed(repoRoot, message)), [])
    case Ok(files) =>
      if files == [] then Indexing.Cycle(Some(Indexing.NoFiles(repoRoot)), [])
      else
        match FirstUnreadyDraftParser(env.parserReady)
        case Some(lang) => Indexing.Cycle(Some(Indexing.ParserInitFailed(lang)), [])
        case None =>
          Indexing.IndexDocuments(env, upload, collection, repoRoot, Indexing.FilesDocs(DraftDispatch, Extractor(rules, grammar), files))
  }

  /** One root's part of the cycle, as a function of the root. */
  function DraftRootStep(env: Indexing.Env, rules: Rules, grammar: Grammar, upload: Indexing.Uploader, collection: string): string -> Indexing.Cycle
    requires TreesFit(grammar)
  {
    r => DraftRoot(env, rules, grammar, upload, collection, r)
  }

  /** Each root's part of the cycle, root by root. */
  function DraftPerRoot(env: Indexing.Env, rules: Rules, grammar: Grammar, upload: Indexing.Uploader, collection: string, roots: seq<string>)
    : (cs: seq<Indexing.Cycle>)
    requires TreesFit(grammar)
    ensures |cs| == |roots| && forall i :: 0 <= i < |roots| ==> cs[i] == DraftRoot(env, rules, grammar, upload, collection, roots[i])
  {
    Indexing.Map(DraftRootStep(env, rules, grammar, upload, collection), roots)
  }

  lemma {:induction false} DraftPerRootAppend(env: Indexing.Env, rules: Rules, grammar: Grammar, upload: Indexing.Uploader, collection: string,
                                              a: seq<string>, b: seq<string>)
    requires TreesFit(grammar)
    ensures DraftPerRoot(env, rules, grammar, upload, collection, a + b)
         == DraftPerRoot(env, rules, grammar, upload, collection, a) + DraftPerRoot(env, rules, grammar, upload, collection, b)
  {
    Indexing.MapAppend(DraftRootStep(env, rules, grammar, upload, collection), a, b);
  }

  /** The repository roots in order, until one stops the cycle. */
  function DraftRoots(env: Indexing.Env, rules: Rules, grammar: Grammar, upload: Indexing.Uploader, collection: string, roots: seq<string>)
    : Indexing.Cycle
    requires TreesFit(grammar)
  {
    Indexing.Chain(DraftPerRoot(env, rules, grammar, upload, collection, roots))
  }

  /** This version's `tick_once` once `ensure_collection` has answered. */
  function DraftTick(env: Indexing.Env, rules: Rules, grammar: Grammar, upload: Indexing.Uploader, root: string, collection: string,
                     ensured: Result<(), QdrantSchema.SchemaError>): Indexing.Cycle
    requires TreesFit(grammar)
  {
    match ensured
    case Err(e) => Indexing.Cycle(Some(Indexing.EnsureFailed(e)), [])
    case Ok(_) =>
      match env.scanProject(root)
      case Err(message) => Indexing.Cycle(Some(Indexing.ScanProjectFailed(message)), [])
      case Ok(roots) => DraftRoots(env, rules, grammar, upload, collection, roots)
  }

  /**
   * A repository with no files ends the cycle here: the roots before it keep their upserts, no
   * later root is scanned. (The later cycle passes over such a repository, `Indexing.EmptyRepoSkipped`.)
   */
  lemma {:induction false} DraftEmptyRepoAborts(env: Indexing.Env, rules: Rules, grammar: Grammar, upload: Indexing.Uploader, collection: string,
                                                a: seq<string>, r: string, b: seq<string>)
    requires TreesFit(grammar)
    requires DraftRoots(env, rules, grammar, upload, collection, a).stop.None?
    requires env.scanRepo(r) == Ok([])
    ensures DraftRoots(env, rules, grammar, upload, collection, a + [r] + b)
         == Indexing.Cycle(Some(Indexing.NoFiles(r)), DraftRoots(env, rules, grammar, upload, collection, a).upserts)
  {
    var pa := DraftPerRoot(env, rules, grammar, upload, collection, a);
    var pr := DraftPerRoot(env, rules, grammar, upload, collection, [r]);
    var pb := DraftPerRoot(env, rules, grammar, upload, collection, b);
    DraftPerRootAppend(env, rules, grammar, upload, collection, a + [r], b);
    DraftPerRootAppend(env, rules, grammar, upload, collection, a, [r]);
    assert pr == [Indexing.Cycle(Some(Indexing.NoFiles(r)), [])];
    Indexing.ChainAppend(pa + pr, pb);
    Indexing.ChainAppend(pa, pr);
    assert Indexing.Chain(pr) == pr[0];
  }

  /** Once a root stops the cycle, no later root is scanned, parsed or indexed. */
  lemma {:induction false} DraftStopEndsCycle(env: Indexing.Env, rules: Rules, grammar: Grammar, upload: Indexing.Uploader, collection: string,
                                              a: seq<string>, b: seq<string>)
    requires TreesFit(grammar)
    requires DraftRoots(env, rules, grammar, upload, collection, a).stop.Some?
    ensures DraftRoots(env, rules, grammar, upload, collection, a + b) == DraftRoots(env, rules, grammar, upload, collection, a)
  {
    DraftPerRootAppend(env, rules, grammar, upload, collection, a, b);
    Indexing.ChainAppend(DraftPerRoot(env, rules, grammar, upload, collection, a), DraftPerRoot(env, rules, grammar, upload, collection, b));
  }

  /** A cycle that goes through has found files in every repository root. */
  lemma {:induction false} DraftCompletedMeansFiles(env: Indexing.Env, rules: Rules, grammar: Grammar, upload: Indexing.Uploader,
                                                    collection: string, roots: seq<string>)
    requires TreesFit(grammar)
    requires DraftRoots(env, rules, grammar, upload, collection, roots).stop.None?
    ensures forall i :: 0 <= i < |roots| ==> env.scanRepo(roots[i]).Ok? && env.scanRepo(roots[i]).value != []
    decreases |roots|
  {
    if roots != [] {
      var cs := DraftPerRoot(env, rules, grammar, upload, collection, roots);
      DraftPerRootAppend(env, rules, grammar, upload, collection, [roots[0]], roots[1..]);
      assert [roots[0]] + roots[1..] == roots;
      assert cs[0].stop.None?;
      assert cs[1..] == DraftPerRoot(env, rules, grammar, upload, collection, roots[1..]);
      DraftCompletedMeansFiles(env, rules, grammar, upload, collection, roots[1..]);
      forall i | 0 <= i < |roots| ensures env.scanRepo(roots[i]).Ok? && env.scanRepo(roots[i]).value != [] {
        if i > 0 {
          assert roots[i] == roots[1..][i - 1];
        }
      }
    }
  }

  /** Points only reach the collection after it was ensured and the project scanned, and only that collection. */
  lemma {:induction false} DraftUpsertsOnlyAfterEnsure(env: Indexing.Env, rules: Rules, grammar: Grammar, upload: Indexing.Uploader, root: string,
                                                       collection: string, ensured: Result<(), QdrantSchema.SchemaError>)
    requires TreesFit(grammar)
    ensures var c := DraftTick(env, rules, grammar, upload, root, collection, ensured);
      (c.upserts != [] ==> ensured.Ok? && env.scanProject(root).Ok?) && Indexing.IntoCollection(c, collection)
  {
    if ensured.Ok? && env.scanProject(root).Ok? {
      Indexing.ChainIntoCollection(DraftPerRoot(env, rules, grammar, upload, collection, env.scanProject(root).value), collection);
    }
  }

  /** With an embedder that expects vectors of n components, every vector the cycle upserts has n components. */
  lemma {:induction false} DraftTickVectorsOfSize(env: Indexing.Env, rules: Rules, grammar: Grammar, upload: Indexing.Uploader, root: string,
                                                  collection: string, ensured: Result<(), QdrantSchema.SchemaError>)
    requires TreesFit(grammar) && env.embedder.expectedDim.Some?
    ensures Indexing.VectorsOfSize(DraftTick(env, rules, grammar, upload, root, collection, ensured).upserts, env.embedder.expectedDim.value)
  {
    if ensured.Ok? && env.scanProject(root).Ok? {
      var cs := DraftPerRoot(env, rules, grammar, upload, collection, env.scanProject(root).value);
      forall i | 0 <= i < |cs| ensures Indexing.VectorsOfSize(cs[i].upserts, env.embedder.expectedDim.value) {
      }
      Indexing.ChainVectorsOfSize(cs, env.embedder.expectedDim.value);
    }
  }

  /** One repository root of this version's loop. */
  method DraftRepoRoot(env: Indexing.Env, rules: Rules, grammar: Grammar, qdrant: Indexing.QdrantClient, collection: string, repoRoot: string)
    returns (stop: Option<Indexing.Stop>)
    requires TreesFit(grammar)
    modifies qdrant
    ensures var c := DraftRoot(env, rules, grammar, qdrant.upload, collection, repoRoot);
      stop == c.stop && qdrant.upserted == old(qdrant.upserted) + c.upserts
  {
    var files;
    match env.scanRepo(repoRoot)
    case Err(message) =>
      return Some(Indexing.ScanRepoFailed(repoRoot, message));
    case Ok(v) =>
      files := v;
    if files == [] {
      return Some(Indexing.NoFiles(repoRoot));
    }
    var failed := FirstUnreadyDraftParser(env.parserReady);
    if failed.Some? {
      return Some(Indexing.ParserInitFailed(failed.value));
    }
    var allDocs := DraftCollectDocuments(rules, grammar, files);
    if allDocs == [] {
      return Some(Indexing.NoDocuments(repoRoot));
    }
    var normDocs := Indexing.NormalizeAll(env.crypto, allDocs, env.now);
    if normDocs.None? {
      return Some(Indexing.NormalizePanicked(repoRoot));
    }
    var r := Indexing.EmbedAndUpsert(collection, normDocs.value, Indexing.BackendsOf(env, qdrant.upload), qdrant);
    if r.Err? {
      return Some(Indexing.IndexFailed(r.error));
    }
    stop := None;
  }

  /** The loop over the repository roots, returning at the first that stops the cycle. */
  method DraftRepoRoots(env: Indexing.Env, rules: Rules, grammar: Grammar, qdrant: Indexing.QdrantClient, collection: string, roots: seq<string>)
    returns (stop: Option<Indexing.Stop>)
    requires TreesFit(grammar)
    modifies qdrant
    ensures var c := DraftRoots(env, rules, grammar, qdrant.upload, collection, roots);
      stop == c.stop && qdrant.upserted == old(qdrant.upserted) + c.upserts
  {
    ghost var cs := DraftPerRoot(env, rules, grammar, qdrant.upload, collection, roots);
    ghost var base := qdrant.upserted;
    ghost var done: seq<Indexing.Upsert> := [];
    for i := 0 to |roots|
      invariant qdrant.upserted == base + done
      invariant Indexing.After(done, Indexing.Chain(cs[i..])) == Indexing.Chain(cs)
    {
      Indexing.ChainFrom(cs, i, done);
      stop := DraftRepoRoot(env, rules, grammar, qdrant, collection, roots[i]);
      AppendAssoc(base, done, cs[i].upserts);
      if stop.Some? {
        return;
      }
      done := done + cs[i].upserts;
    }
    assert cs[|roots|..] == [];
    stop := None;
  }

  /**
   * This version's `tick_once`: ensures the collection, scans the project and indexes each
   * repository root. The collections afterwards are those `ensure_collection` leaves; the outcome
   * and the upserts are those of `DraftTick` given its result.
   */
  method DraftTickOnce(schema: QdrantSchema.QdrantSchema, qdrant: Indexing.QdrantClient, env: Indexing.Env, rules: Rules, grammar: Grammar,
                       root: string, collection: string,
                       getInterference: Option<QdrantSchema.GetReply>, putInterference: Option<QdrantSchema.PutReply>)
    returns (stop: Option<Indexing.Stop>)
    requires TreesFit(grammar)
    modifies schema, qdrant
    ensures var e := QdrantSchema.EnsureResult(old(schema.collections), collection, Indexing.VectorSize, Indexing.CollectionDistance,
                                               old(schema.GetReplyFor(collection, getInterference)),
                                               putInterference.GetOr(QdrantSchema.CreatedReply));
      && schema.collections == e.1
      && var c := DraftTick(env, rules, grammar, qdrant.upload, root, collection, e.0);
         stop == c.stop && qdrant.upserted == old(qdrant.upserted) + c.upserts
  {
    var ensured := schema.EnsureCollection(collection, Indexing.VectorSize, Indexing.CollectionDistance, getInterference, putInterference);
    if ensured.Err? {
      return Some(Indexing.EnsureFailed(ensured.error));
    }
    var roots;
    match env.scanProject(root)
    case Err(message) =>
      return Some(Indexing.ScanProjectFailed(message));
    case Ok(v) =>
      roots := v;
    stop := DraftRepoRoots(env, rules, grammar, qdrant, collection, roots);
  }

  /**
   * This version's `index`: names the collection after the root, builds the schema client on
   * `QdrantUrl`, the points client on `upload` and the embedder `IndexEmbedder` (which takes the
   * place of `env.embedder`), then runs one cycle into the collection. `existing` is what the
   * Qdrant server holds. Every vector upserted has `VectorSize` components.
   */
  method DraftIndex(env: Indexing.Env, rules: Rules, grammar: Grammar, upload: Indexing.Uploader, existing: QdrantSchema.Store,
                    root: string, getInterference: Option<QdrantSchema.GetReply>, putInterference: Option<QdrantSchema.PutReply>)
    returns (collection: string, stop: Option<Indexing.Stop>, schema: QdrantSchema.QdrantSchema, qdrant: Indexing.QdrantClient)
    requires TreesFit(grammar)
    ensures collection == Indexing.RepoName(root)
    ensures fresh(schema) && fresh(qdrant) && schema.baseUrl == Indexing.QdrantUrl && qdrant.upload == upload
    ensures var e := QdrantSchema.EnsureResult(existing, collection, Indexing.VectorSize, Indexing.CollectionDistance,
                                               getInterference.GetOr(QdrantSchema.StoreReply(existing, collection)),
                                               putInterference.GetOr(QdrantSchema.CreatedReply));
      && schema.collections == e.1
      && var c := DraftTick(env.(embedder := Indexing.IndexEmbedder), rules, grammar, upload, root, collection, e.0);
         stop == c.stop && qdrant.upserted == c.upserts
    ensures Indexing.VectorsOfSize(qdrant.upserted, Indexing.VectorSize)
  {
    collection := Indexing.RepoName(root);
    schema := new QdrantSchema.QdrantSchema(Indexing.QdrantUrl, existing);
    qdrant := new Indexing.QdrantClient(upload);
    var embedderEnv := env.(embedder := Indexing.IndexEmbedder);
    ghost var e := QdrantSchema.EnsureResult(existing, collection, Indexing.VectorSize, Indexing.CollectionDistance,
                                             getInterference.GetOr(QdrantSchema.StoreReply(existing, collection)),
                                             putInterference.GetOr(QdrantSchema.CreatedReply));
    stop := DraftTickOnce(schema, qdrant, embedderEnv, rules, grammar, root, collection, getInterference, putInterference);
    assert qdrant.upserted == [] + DraftTick(embedderEnv, rules, grammar, upload, root, collection, e.0).upserts;
    DraftTickVectorsOfSize(embedderEnv, rules, grammar, upload, root, collection, e.0);
  }
}
