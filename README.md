# microservices-rag indexer, modelled in Dafny

This project models the code-to-document pipeline of the microservices-rag indexer. The indexer
turns the Rust (and Kotlin) source files of a repository into documents, one per struct, enum,
trait, free function and method, plus one "filename" document per file. It normalises those
documents, gives each a deterministic point id and a content hash, embeds them in windows of 64
through an OpenAI-compatible embeddings endpoint, and upserts them into a Qdrant collection named
after the repository. Before anything is upserted it makes sure the collection exists with the
right vector size and distance.

The model follows the repository's modules:

- `RustParser` (src/ingest/rust_parser.rs). Document extraction over an abstract syntax tree:
  - the stack-based pre-order walk of `parse_file`;
  - the method-versus-function rule;
  - signature cutting;
  - the upward doc-comment scan;
  - the impl target type;
  - the filename document.
- `DocNormalizer` (src/transform/doc_normalizer.rs). `normalize` and `normalize_code`. The
  dedent branch of `normalize_code` is proved dead: the text is trimmed first, so its first
  non-blank line never has any indent.
- `IdGenerator` (src/index/id_generator.rs). The canonical key, the UUIDv5 point id and the
  tagged SHA-256 pre-image of the content hash.
  - `Digests` covers the lowercase hexadecimal encoding (section 8 of RFC 4648). SHA-1 and SHA-256
    themselves are function parameters (`Crypto`).
  - `Uuid` covers `Uuid::new_v5` (section 4.3 of RFC 4122) and the hyphenated text form.
  - `Utf8` covers the UTF-8 encoding (RFC 3629) used for byte lengths and hash inputs.
- `EmbedderClient` (src/client/embedder_client.rs). The post-processing of an embeddings reply:
  - the empty short-circuit;
  - the empty-data and count checks;
  - the stable sort by index;
  - the dimension check;
  - the single-text path, which takes the last datum.

  The HTTP exchange is a function parameter.
- `QdrantSchema` (src/index/qdrant_schema.rs). The collection guard. It is a class whose
  `collections` field is the Qdrant instance's state. A failed request and a 2xx body that does
  not deserialize are both `Http`, as `resp.json()` reports them; a non-2xx status is `Status`.
- `Indexing` (src/indexing.rs). `repo_name`, `build_embedding_input`, `embed_and_upsert` (the
  window loop, point construction and first-failure abort), the extension dispatch, and the early
  exits of `tick_once` and `index`.
  - Scanning, parsing with `CodeParser`, the embedder and the Qdrant point store are parameters of
    an `Env`.
  - The point store is a `QdrantClient` class recording the upserts it accepted.
  - `index` builds its clients the way the source does: the schema client on `QdrantUrl`, and the
    embedder `IndexEmbedder` for `EmbedBaseModel`, which expects `VectorSize` components. Every
    vector a cycle upserts then has `VectorSize` components, the size the collection is ensured
    with.
- `MainDraft` (src/main.rs). The older draft of `tick_once` and `index`. It shares the helpers of
  `Indexing` (`RepoName` for src/main.rs:281-300, `BuildEmbeddingInput` for src/main.rs:251-269 and
  `EmbedAndUpsert` for src/main.rs:191-248), which are the same in both files. It dispatches only "rs" and "kt" files, parses them
  with `RustParser.ParseFile` over the tree a grammar returns, and stops the whole cycle on a
  repository without files.
- `Strings`, `SyntaxTree` and `Wrappers`. Models of the Rust string and slice functions the code
  calls (`trim`, `find`, `split_whitespace`, `split_inclusive`, `trim_matches`, `to_lowercase`
  for ASCII letters, `replace`, `join`), the tree datatype, and `Option`/`Result`.

Three places in the code do not do what its tests and design expect (see "## Findings"): the doc
comment is only right-trimmed, a method inside an impl's `declaration_list` is taken for a free
function, and TypeScript and JavaScript files go to the Kotlin parser. The members that depend on
them take a `RustParser.Rules` value as their first argument: `AsWritten` is the code as it
stands, `Corrected` is the evident intent. Every property of the walk and of the cycle is proved
for both.

Text is `seq<char>`. Offsets into source text are character offsets. Byte lengths, where the code
depends on them (`max_code_chars`, `String::truncate`), are computed through the UTF-8 model.

## Model

| member | source | states |
|---|---|---|
| RustParser.DocumentKind.AsStr | src/ingest/rust_parser.rs:52-63 | every kind's name is a non-empty run of lowercase letters |
| RustParser.AsStrInjective | src/ingest/rust_parser.rs:53-62 | two kinds have the same name exactly when they are the same kind, so the six names are distinct |
| RustParser.Components | src/ingest/rust_parser.rs:179-180 | the components `Path` keeps are non-empty, are never ".", and come from the '/'-separated pieces |
| RustParser.ComponentsAppend | src/ingest/rust_parser.rs:179-180 | the components of joined pieces are the components of each part, in order |
| RustParser.FileName | src/ingest/rust_parser.rs:179-183 | a file name, when there is one, is a normal component without '/' and is one of the path's pieces |
| RustParser.FileNameOfPlain | src/ingest/rust_parser.rs:179-183 | the file name of `dir/name` and of a bare `name` is `name` |
| RustParser.FilenameDocument | src/ingest/rust_parser.rs:178-198 | the filename document has kind Filename, the whole source as code, and no signature, doc comment or parent type; it spans line 1 to 1 + the number of '\n'; its symbol is the path's file name, or the path itself when there is none |
| RustParser.FilenameDocumentSpansFile | src/ingest/rust_parser.rs:184 | the last line equals the number of '\n'-separated lines of the file |
| RustParser.FilenameDocumentExample | src/ingest/rust_parser.rs:540-553 | "src/main.rs" holding "fn x() {}\n" gives symbol "main.rs", lines 1 to 2, and the source as code |
| RustParser.Slice | src/ingest/rust_parser.rs:304-306 | the text of [start, end) when that range lies inside the source, and "" otherwise |
| RustParser.LinesOf | src/ingest/rust_parser.rs:295-302 | the 1-based first line is at least 1 and at most the last line, and the span in lines equals the node's span in rows |
| RustParser.ChildText | src/ingest/rust_parser.rs:308-318 | None exactly when no child has the kind; otherwise the text of the first child that has it |
| RustParser.ChildTextByKind | src/ingest/rust_parser.rs:309-318 | the loop over the children returns `ChildText` |
| RustParser.HasSelfParameter | src/ingest/rust_parser.rs:320-342 | true exactly when some `parameters` child has a `self_parameter` descendant |
| RustParser.ContainsSelfParameter | src/ingest/rust_parser.rs:327-337 | the inner stack search is true exactly when the tree under the root contains a `self_parameter` node |
| RustParser.PopStep | src/ingest/rust_parser.rs:328-336 | popping a node and pushing its children keeps the answer of the stack search and strictly shrinks the stack's node count |
| RustParser.PushAll | src/ingest/rust_parser.rs:332-336 | the children are pushed on top of the stack in order |
| RustParser.FirstBody | src/ingest/rust_parser.rs:350-366 | the index of the first child of a body kind (`block`, `field_declaration_list`, `enum_variant_list`, `declaration_list`); None when there is none |
| RustParser.Head | src/ingest/rust_parser.rs:371-383 | the text a signature is cut from is a prefix of the node's text |
| RustParser.BodyCutoff | src/ingest/rust_parser.rs:349-366 | the loop finds the start of the first body child, or the node's end when there is none |
| RustParser.ExtractItemSignature | src/ingest/rust_parser.rs:347-384 | the signature is always Some, and is the trimmed head of the node's text |
| RustParser.SignatureBeforeBody | src/ingest/rust_parser.rs:372-375 | with a body child starting inside the node, the signature is the trimmed text from the node start to that child |
| RustParser.SignatureAtSemicolon | src/ingest/rust_parser.rs:377-381 | without one, the signature is the trimmed text up to and including the first ';' |
| RustParser.SignatureWhole | src/ingest/rust_parser.rs:383 | failing both, the signature is the whole trimmed node text |
| RustParser.SignatureStartsWithHead | src/ingest/rust_parser.rs:512 | a phrase without ';' that starts the node before its body, and begins and ends with non-whitespace, starts the signature ("fn foo") |
| RustParser.ReadLineOf | src/ingest/rust_parser.rs:428-456 | per line: strip the newline and the indentation, then classify it as a doc line with its content, a blank line, or any other line |
| RustParser.ScanSnoc | src/ingest/rust_parser.rs:427-465 | one step of the upward scan: a doc line is collected and marks a block as seen, a blank line is collected only after that, and any other line ends the scan, aborting if nothing was seen |
| RustParser.ScanLinesUp | src/ingest/rust_parser.rs:424-465 | the loop over the lines from the bottom up computes the upward scan |
| RustParser.ScanFromSeen | src/ingest/rust_parser.rs:427-465 | once a doc line was taken, the scan collects, bottom-up, the rest of the maximal run of doc and blank lines |
| RustParser.ScanMeaning | src/ingest/rust_parser.rs:427-465 | a doc line directly above opens a block that is collected whole; otherwise nothing is collected |
| RustParser.BlockOfMeaning | src/ingest/rust_parser.rs:467-473 | the collected lines, restored top to bottom and joined with '\n', are the block's texts; there is no block when the last line is not a doc line |
| RustParser.JoinedBlockMeaning | src/ingest/rust_parser.rs:408-474 | over the complete lines above the node: the joined block, when the line directly above is a doc line, and None otherwise |
| RustParser.DocCommentOfScan | src/ingest/rust_parser.rs:467-473 | under either reading: an aborted or empty scan gives None; otherwise the comment is the collected lines, reversed and joined with '\n', then right-trimmed as written and trimmed at both ends when corrected |
| RustParser.DocComment | src/ingest/rust_parser.rs:408-474 | the comment is trimmed: it neither starts nor ends with whitespace |
| RustParser.DocCommentIff | src/ingest/rust_parser.rs:408-474 | there is a doc comment, as written and corrected, exactly when the line directly above the node opens a doc block |
| RustParser.DocCommentTrimmedAgrees | src/ingest/rust_parser.rs:471 | the corrected comment is the as-written one without leading whitespace, and the two trim to the same text |
| RustParser.BlankLineAboveDocBlock | src/ingest/rust_parser.rs:452-456 | a blank line above two doc lines stays a leading '\n' as written; the corrected comment is the two lines alone |
| RustParser.DocCommentTestExample | src/ingest/rust_parser.rs:496-513 | the unit test's input gives "\nTop doc\nmore" as written and "Top doc\nmore", which the test expects, corrected |
| RustParser.LeadingDocCommentBlockAbove | src/ingest/rust_parser.rs:408-474 | the method computes the doc comment of its reading: as written the joined block is only right-trimmed (`trim_end`, line 471), corrected it is trimmed at both ends |
| RustParser.NormalizeWs | src/ingest/rust_parser.rs:476-478 | the result is single-spaced (no outer whitespace, no two spaces in a row) and has the same words as the input |
| RustParser.NormalizeWsIdempotent | src/ingest/rust_parser.rs:476-478 | collapsing whitespace twice is collapsing it once |
| RustParser.ImplTargetType | src/ingest/rust_parser.rs:392-403 | Some exactly when "impl" and '{' both occur and the first '{' lies past the end of the first "impl"; the result is single-spaced |
| RustParser.ImplTargetOfHeader | src/ingest/rust_parser.rs:392-403 | an impl text "impl" + gap + "{" + body, with a gap free of '{', has as target the whitespace-collapsed gap |
| RustParser.ImplTargetExample | src/ingest/rust_parser.rs:520-535 | `impl A { .. }` has target type "A" |
| RustParser.NamedKind | src/ingest/rust_parser.rs:208-213 | exactly `struct_item`, `enum_item` and `trait_item` have a document kind, which is Struct, Enum or Trait |
| RustParser.ItemDocument | src/ingest/rust_parser.rs:215-232 | None exactly when the node has no child of the name kind; otherwise a document with the node's code, its signature, the reading's doc comment (right-trimmed as written), the given kind and parent type, and lines `start_row+1 <= end_row+1` |
| RustParser.ExtractItem | src/ingest/rust_parser.rs:215-219 | the shared extraction steps compute `ItemDocument` under the given reading |
| RustParser.ExtractNamedItem | src/ingest/rust_parser.rs:200-233 | `extract_named_item` returns the struct, enum or trait document named by its `type_identifier`, with the reading's doc comment |
| RustParser.ExtractFunctionItem | src/ingest/rust_parser.rs:235-261 | `extract_function_item` returns a Function document named by its `identifier`, with no parent type and the reading's doc comment |
| RustParser.ExtractMethodItem | src/ingest/rust_parser.rs:263-291 | `extract_method_item` returns a Method document whose parent type is the impl's target type, with the reading's doc comment |
| RustParser.ParentImpl | src/ingest/rust_parser.rs:150-154 | the rule as written: a function's impl is its parent, exactly when the parent is an `impl_item` |
| RustParser.EnclosingImpl | src/ingest/rust_parser.rs:150-154 | the corrected rule: the impl is the parent `impl_item`, or the grandparent `impl_item` of a `declaration_list` parent |
| RustParser.VisitNode | src/ingest/rust_parser.rs:140-172 | the `match` on the node kind computes what one visited node contributes; as written a function's impl is its parent when that is an `impl_item` (`ParentImpl`), corrected it is also the grandparent through a `declaration_list` (`EnclosingImpl`) |
| RustParser.StackPop | src/ingest/rust_parser.rs:132 | popping the top hands its subtree's documents and nodes over, leaving the rest of the stack's |
| RustParser.PushChild | src/ingest/rust_parser.rs:134-138 | pushing one more child, in reverse order, keeps the stack standing for the remaining children in source order |
| RustParser.PushChildren | src/ingest/rust_parser.rs:134-138 | after pushing all children in reverse, the stack yields the children's subtrees in source order, then the rest |
| RustParser.Walk | src/ingest/rust_parser.rs:128-173 | the stack-based walk emits the tree's documents in pre-order, under either reading |
| RustParser.ParseFile | src/ingest/rust_parser.rs:109-176 | a failed parse is `ParseFailed`; otherwise the optional filename document followed by the pre-order documents of the tree; with `AsWritten` the impl rule and the trim are those of the code as written |
| RustParser.VisitDocsAreItems | src/ingest/rust_parser.rs:140-172 | under either reading and for any impl, a node yields at most one document, and it is an item document of this file |
| RustParser.TreeDocsAreItems | src/ingest/rust_parser.rs:128-173 | under either reading, every document of a tree comes from an item node; none is a filename document |
| RustParser.ForestDocsAreItems | src/ingest/rust_parser.rs:134-138 | the same for a sequence of subtrees |
| RustParser.FileDocumentsFilenameFirst | src/ingest/rust_parser.rs:124-126 | under either reading: with the filename document requested it is element 0, and it is the only document of kind Filename; without, there is none |
| RustParser.FunctionItemClassified | src/ingest/rust_parser.rs:149-169 | a function item yields nothing without an `identifier`; it is a Method exactly when an impl was found and a parameter holds `self`, with that impl's target as parent type; otherwise it is a Function without parent type |
| RustParser.NamedItemClassified | src/ingest/rust_parser.rs:142-146 | a struct, enum or trait yields nothing without a `type_identifier`, and otherwise a document of its kind without parent type |
| RustParser.OtherNodesIgnored | src/ingest/rust_parser.rs:171 | nodes of any other kind yield nothing |
| RustParser.MethodInDeclarationList | src/ingest/rust_parser.rs:150-168 | a `self` method in a `declaration_list` inside an `impl_item` is emitted as a Function without parent type as written, and as a Method of the impl's target type corrected |
| Strings.Trim | src/ingest/rust_parser.rs:374 | `str::trim`: the result neither starts nor ends with whitespace, and is empty exactly when the input is all whitespace |
| Strings.TrimPadded | src/index/id_generator.rs:25-28 | whitespace around a string does not change its trim |
| Strings.TrimIdempotent | src/transform/doc_normalizer.rs:33-34 | trimming twice is trimming once |
| Strings.TrimStartSplit | src/ingest/rust_parser.rs:429 | `trim_start` keeps a suffix and drops only whitespace |
| Strings.TrimEndSplit | src/ingest/rust_parser.rs:471 | `trim_end` keeps a prefix and drops only whitespace |
| Strings.TrimKeepsPrefix | src/ingest/rust_parser.rs:374 | a prefix that begins and ends with non-whitespace survives `trim` |
| Strings.IndexOf | src/ingest/rust_parser.rs:396 | `find(char)`: the index of the first occurrence, None exactly when there is none |
| Strings.Find | src/ingest/rust_parser.rs:395 | `find(&str)`: the leftmost occurrence, None exactly when there is none |
| Strings.CountChar | src/ingest/rust_parser.rs:480-482 | `byte_count` for a character: the number of its occurrences |
| Strings.SplitOnCount | src/ingest/rust_parser.rs:184 | splitting at c gives one more piece than there are c's |
| Strings.SplitOnJoin | src/ingest/rust_parser.rs:179-180 | joining the pieces of a split with the separator gives back the string |
| Strings.SplitLines | src/ingest/rust_parser.rs:411 | `split_inclusive('\n')`: the lines laid end to end are the string |
| Strings.SplitLinesShape | src/ingest/rust_parser.rs:411 | every line is non-empty, has '\n' at most as its last character, and every line but the last ends with '\n' |
| Strings.TrimStartMatches | src/ingest/rust_parser.rs:434-435 | the result no longer starts with the pattern |
| Strings.TrimEndMatches | src/ingest/rust_parser.rs:428 | the result no longer ends with the character |
| Strings.SplitWhitespace | src/ingest/rust_parser.rs:477 | the pieces are non-empty and whitespace-free |
| Strings.SplitJoin | src/ingest/rust_parser.rs:477 | splitting words joined by single spaces gives back the words |
| Strings.ToLowerAscii | src/index/id_generator.rs:28 | each ASCII capital becomes its lowercase letter and every other character is kept, so no ASCII capital remains (ASCII only, see Left out) |
| Strings.ToLowerAsciiIdempotent | src/index/id_generator.rs:28 | lower-casing twice is lower-casing once |
| Strings.TrimStartLower | src/index/id_generator.rs:28 | lower-casing and `trim_start` commute, since lower-casing keeps whitespace where it is |
| Strings.TrimEndLower | src/index/id_generator.rs:28 | lower-casing and `trim_end` commute |
| Strings.TrimLower | src/index/id_generator.rs:28 | lower-casing and `trim` commute, so `kind.trim().to_lowercase()` does not depend on the order of the two |
| Strings.ReplaceCrlf | src/transform/doc_normalizer.rs:77 | `replace("\r\n", "\n")` never lengthens the text, keeps an empty text empty, keeps the first character unless it is '\r', and leaves text without '\r' unchanged |
| Strings.ReplaceCrlfFirstPair | src/transform/doc_normalizer.rs:77 | the replacement runs left to right: text without a "\r\n" pair is copied, the first pair becomes "\n", and the rest is replaced on its own |
| Strings.NatToString | src/indexing.rs:276-277 | a line number is printed as a non-empty run of decimal digits without leading zero |
| Strings.NatToStringRoundTrip | src/indexing.rs:276-277 | the printed digits denote the number |
| Strings.ReverseReverse | src/ingest/rust_parser.rs:470 | reversing twice restores the sequence |
| Utf8.ByteLen | src/transform/doc_normalizer.rs:78 | `str::len` lies between one and four bytes per character |
| Utf8.EncodeInjective | src/index/id_generator.rs:55 | equal UTF-8 encodings come from equal strings |
| Utf8.EncodeCharRoundTrip | src/index/id_generator.rs:55 | decoding the encoding of a character gives back the character, whatever follows |
| Utf8.EncodeNoNul | src/index/id_generator.rs:55-59 | a string without U+0000 has no zero byte in its encoding |
| Utf8.CapBytes | src/transform/doc_normalizer.rs:78-80 | the longest prefix that fits in the byte budget |
| Utf8.CharBoundaryMeaning | src/transform/doc_normalizer.rs:79 | a byte offset is a character boundary exactly when it is the byte length of some prefix |
| Digests.HexEncode | src/index/id_generator.rs:64 | `hex::encode` gives two characters per byte |
| Digests.HexEncodeLowerHex | src/index/id_generator.rs:64 | every character of the rendering is a lowercase hexadecimal digit |
| Digests.HexValueMeaning | src/index/id_generator.rs:64 | exactly the sixteen lowercase digits have a value, and each value is spelled by its digit |
| Digests.HexRoundTrip | src/index/id_generator.rs:64 | decoding the hex rendering gives back the bytes |
| Digests.HexInjective | src/index/id_generator.rs:64 | distinct byte strings have distinct renderings |
| Uuid.NewV5 | src/index/id_generator.rs:43 | `Uuid::new_v5` has version 5 and variant 0b10, and every other bit comes from SHA-1 of namespace and name |
| Uuid.ToText | src/index/id_generator.rs:44 | 36 characters with hyphens at positions 8, 13, 18 and 23 |
| Uuid.TextRoundTrip | src/index/id_generator.rs:44 | the text form reads back to the UUID |
| Uuid.ToTextInjective | src/index/id_generator.rs:44 | different UUIDs have different text forms |
| Uuid.V5Text | src/index/id_generator.rs:43-44 | a version-5 UUID shows '5' as its version digit and one of 8, 9, a, b as its variant digit |
| IdGenerator.CanonicalKey | src/index/id_generator.rs:17-30 | the key is "repo=R\|path=P\|symbol=S\|type=K" over the trimmed fields, the kind also lower-cased (its ASCII letters); so it starts with "repo=" |
| IdGenerator.KeyInjective | src/index/id_generator.rs:23-29 | with no '\|' in the trimmed repo, path and symbol, two keys are equal only when the trimmed fields and the lower-cased kind agree; a changed symbol changes the key |
| IdGenerator.KeyIgnoresPadding | src/index/id_generator.rs:25-28 | whitespace around any field does not change the key |
| IdGenerator.KeyIgnoresKindCase | src/index/id_generator.rs:28 | kinds that differ only in the case of their ASCII letters give the same key |
| IdGenerator.PointId | src/index/id_generator.rs:36-45 | the id is a hyphenated 36-character UUID with version digit '5' and variant digit 8, 9, a or b |
| IdGenerator.PointIdsEqualIffUuidsEqual | src/index/id_generator.rs:36-45 | two ids are equal exactly when the UUIDv5 of the two keys' bytes are, so equal inputs give equal ids |
| IdGenerator.TagsSpellTheirNames | src/index/id_generator.rs:54-61 | the tag bytes are the encodings of "SIG\0", "DOC\0" and "CODE\0" |
| IdGenerator.HashInput | src/index/id_generator.rs:51-62 | the pre-image always ends with `CODE\0` followed by the code's bytes |
| IdGenerator.HashInputRoundTrip | src/index/id_generator.rs:51-62 | for a signature and doc comment without NUL, the pre-image can be read back into its parts, absent parts as absent |
| IdGenerator.HashInputInjective | src/index/id_generator.rs:51-62 | without NUL in the signature and doc comment, equal pre-images mean equal signature, doc comment and code; an absent part differs from an empty one |
| IdGenerator.EncodeOptInjective | src/index/id_generator.rs:53-60 | an optional part is encoded without loss |
| IdGenerator.ContentHash | src/index/id_generator.rs:51-65 | the hash is 64 characters long |
| IdGenerator.ContentHashLowerHex | src/index/id_generator.rs:63-64 | the hash is all lowercase hexadecimal digits |
| DocNormalizer.Truncate | src/transform/doc_normalizer.rs:79 | `String::truncate` on a boundary keeps exactly that many bytes, as a prefix |
| DocNormalizer.CleanCode | src/transform/doc_normalizer.rs:76-102 | the cleaned code fits in `max_chars` bytes, is the longest such prefix of the trimmed, CRLF-replaced code, and never starts with whitespace |
| DocNormalizer.Lines | src/transform/doc_normalizer.rs:82 | `str::lines` gives as many lines as the text has `split_inclusive('\n')` pieces |
| DocNormalizer.FirstNonBlank | src/transform/doc_normalizer.rs:82 | the first line that is not blank after trimming; None exactly when all lines are blank |
| DocNormalizer.Indent | src/transform/doc_normalizer.rs:83-86 | the count of leading whitespace is zero exactly when the line is empty or starts with non-whitespace |
| DocNormalizer.FirstLineUnindented | src/transform/doc_normalizer.rs:82-87 | text that does not start with whitespace has a first non-blank line with indent 0, so the dedent never fires |
| DocNormalizer.NormalizeCode | src/transform/doc_normalizer.rs:76-102 | `normalize_code`, with its dead dedent branch, returns `CleanCode` |
| DocNormalizer.CleanCodeExample | src/transform/doc_normalizer.rs:118-125 | "    fn foo() {}" is cleaned to "fn foo() {}" |
| DocNormalizer.TrimOpt | src/transform/doc_normalizer.rs:33-34 | None stays None and Some is trimmed |
| DocNormalizer.Normalize | src/transform/doc_normalizer.rs:30-55 | repo, path, symbol, parent type and lines pass through; the kind is its name; signature and doc comment are trimmed; the code is cleaned and within the cap; the hash is `content_hash` of the normalised signature, doc comment and code |
| DocNormalizer.NormalizeIgnoresPadding | src/transform/doc_normalizer.rs:31-37 | whitespace around signature, doc comment or code changes neither the normalised document nor its hash |
| DocNormalizer.HashSeparatesContent | src/transform/doc_normalizer.rs:36-37 | equal hash pre-images of two normalised documents (no NUL) mean equal normalised signature, doc comment and code |
| DocNormalizer.NormalizeExample | src/transform/doc_normalizer.rs:109-126 | the unit test's document normalises to code starting with "fn foo" and a hash longer than 10 characters |
| EmbedderClient.NewClient | src/client/embedder_client.rs:75-86 | a new client has the default base URL, the model and the expected dimension |
| EmbedderClient.EmbeddingsUrl | src/client/embedder_client.rs:97-99 | the base URL followed by "/embeddings" |
| EmbedderClient.DefaultEmbeddingsUrl | src/client/embedder_client.rs:33 | a new client posts to "http://localhost:1234/v1/embeddings" |
| EmbedderClient.RawData | src/client/embedder_client.rs:178-191 | the reply's data exactly on a 2xx with parsed non-empty data; `Status` with code and body exactly on non-2xx; `EmptyResponse` exactly on a 2xx with empty data; `Http` exactly without a response or on a 2xx body that does not deserialize, which `resp.json()` reports as a `reqwest::Error` |
| EmbedderClient.PairsOf | src/client/embedder_client.rs:138-145 | one pair per datum, a missing index counting as 0 |
| EmbedderClient.SortByIndex | src/client/embedder_client.rs:146 | the sort is a permutation of the pairs |
| EmbedderClient.SortLength | src/client/embedder_client.rs:146 | the sort keeps the number of pairs |
| EmbedderClient.SortSorted | src/client/embedder_client.rs:146 | the sorted pairs ascend by index |
| EmbedderClient.SortStable | src/client/embedder_client.rs:146 | for every index, the pairs carrying it keep their relative order |
| EmbedderClient.SortRestoresOrder | src/client/embedder_client.rs:117-119 | with the indices a permutation of 0..n-1, the pair tagged k lands at position k |
| EmbedderClient.FirstWrongDim | src/client/embedder_client.rs:149-157 | the first vector whose length differs from d; None exactly when all have length d |
| EmbedderClient.DimChecked | src/client/embedder_client.rs:148-160 | a successful check returns the vectors unchanged |
| EmbedderClient.CollectChecked | src/client/embedder_client.rs:148-160 | the push loop with its early error return computes the dimension check over the sorted vectors |
| EmbedderClient.EmbedTexts | src/client/embedder_client.rs:120-161 | `embed_texts` sends one request and returns its post-processed outcome |
| EmbedderClient.EmbedTextsOutcome | src/client/embedder_client.rs:124-160 | no texts gives Ok([]); a request error is passed on; a wrong count is `CountMismatch(sent, got)`; success is one vector per text, in sorted order, each of the expected dimension |
| EmbedderClient.EmbedTextsSorted | src/client/embedder_client.rs:137-146 | the vectors come out stably sorted by index |
| EmbedderClient.EmbedTextsDimMismatch | src/client/embedder_client.rs:150-156 | a `DimMismatch` names the expected dimension and the length of the first offending vector in sorted order |
| EmbedderClient.EmbedTextsInInputOrder | src/client/embedder_client.rs:117-119 | with indices 0..n-1 in any order, the vector at position k is the one tagged k |
| EmbedderClient.EmbedText | src/client/embedder_client.rs:101-115 | a request error is passed on; success is the last datum's vector, of the expected dimension; a last vector of another length is `DimMismatch` |
| EmbedderClient.EmbedTextTakesLast | src/client/embedder_client.rs:103-104 | with two data for one text, the second vector is returned |
| QdrantSchema.FromGetResponse | src/index/qdrant_schema.rs:187-199 | the vectors are present exactly when result, config, params and the (single-vector) config are all present, and are then that config's params |
| QdrantSchema.Matches | src/index/qdrant_schema.rs:201-206 | true exactly when the stored vectors are Some with this size and distance |
| QdrantSchema.GetOutcome | src/index/qdrant_schema.rs:87-102 | 404 gives Ok(None); 2xx gives the parsed info; `Http` exactly when there is no response or a 2xx body does not deserialize (`resp.json()` fails with a `reqwest::Error`); any other status gives `Status` with its body; never `Serde` or `IncompatibleCollection` |
| QdrantSchema.CreateOutcome | src/index/qdrant_schema.rs:104-129 | Ok exactly on a 2xx; a non-2xx status gives `Status` with its body; no response gives `Http` |
| QdrantSchema.CreatedEntry | src/index/qdrant_schema.rs:110-116 | a collection created with a single vector configuration reads back with that size and distance |
| QdrantSchema.StoreReply | src/index/qdrant_schema.rs:91-96 | an existing collection answers 200 with its body, and a missing one 404 |
| QdrantSchema.EnsureChangesOnlyName | src/index/qdrant_schema.rs:65-85 | a failed ensure changes nothing, and a changing one created this collection after a 404 |
| QdrantSchema.PutOnlyWhenMissing | src/index/qdrant_schema.rs:71-83 | when the GET did not answer 404, the PUT's reply has no effect |
| QdrantSchema.EnsureAgainstStore | src/index/qdrant_schema.rs:65-85 | a missing collection is created with exactly the requested size and distance; an existing one is unchanged and accepted exactly when it matches, and otherwise refused as `IncompatibleCollection(name)` |
| QdrantSchema.EnsureOkMeansMatching | src/index/qdrant_schema.rs:71-82 | after a successful ensure the collection holds the requested params |
| QdrantSchema.EnsureIdempotent | src/index/qdrant_schema.rs:65-85 | a second ensure with the same arguments succeeds without creating anything and changes nothing |
| QdrantSchema.QdrantSchema.constructor | src/index/qdrant_schema.rs:44-52 | a handle on the instance at the base URL, over its current collections |
| QdrantSchema.QdrantSchema.CollectionsUrl | src/index/qdrant_schema.rs:54-56 | the base URL followed by "/collections" |
| QdrantSchema.QdrantSchema.CollectionUrl | src/index/qdrant_schema.rs:58-60 | base + "/collections/" + name |
| QdrantSchema.QdrantSchema.GetCollection | src/index/qdrant_schema.rs:87-102 | the GET's outcome is `GetOutcome` of the reply, an undeserialisable 2xx body included (`Http`) |
| QdrantSchema.QdrantSchema.CreateCollection | src/index/qdrant_schema.rs:104-129 | the outcome is `CreateOutcome`; on success the collection is added with the requested size and distance, and on failure nothing changes |
| QdrantSchema.QdrantSchema.EnsureCollection | src/index/qdrant_schema.rs:65-85 | the result and the collections afterwards follow the guard: a GET error (`Http` for a failed request or an undeserialisable body, `Status` otherwise) is passed on, then match, create, or refuse |
| Indexing.SlugChar | src/indexing.rs:302-308 | ASCII alphanumerics become themselves lower-cased, and everything else becomes '-' |
| Indexing.Slug | src/indexing.rs:300-309 | the name character by character through `SlugChar` |
| Indexing.TrimDashes | src/indexing.rs:310 | `trim_matches('-')` removes dashes only from the ends, and leaves no dash at either end |
| Indexing.RepoName | src/indexing.rs:292-311 | the collection name is lowercase ASCII alphanumerics and '-', with no leading or trailing '-'; it is the slug of the last path component (or "repo") with its outer dashes removed |
| Indexing.RepoNameFallback | src/indexing.rs:293-296 | a root without a last component is named "repo" |
| Indexing.RepoNameOfSlug | src/indexing.rs:292-311 | a last component that already is a slug without outer dashes is kept |
| Indexing.RepoNameIdempotent | src/indexing.rs:292-311 | a non-empty collection name, used as a root, names itself |
| Indexing.RepoNameExample | src/indexing.rs:292-311 | "/home/u/My_Repo" is indexed into "my-repo" |
| Indexing.EmbeddingInputAbsentAsEmpty | src/indexing.rs:265-267 | an absent parent, signature or doc comment is rendered exactly as an empty one |
| Indexing.EmbeddingInputEndsWithCode | src/indexing.rs:269-281 | the text ends with "\n\n[CODE]\n" followed by the whole code |
| Indexing.EmbeddingInputSeparatesCode | src/indexing.rs:264-282 | documents that differ only in their code are embedded as different texts |
| Indexing.EmbeddingInputs | src/indexing.rs:214 | one input per document of the batch, in order |
| Indexing.ZipPoints | src/indexing.rs:223-248 | the zip has as many points as the shorter of batch and vectors |
| Indexing.ZipPointsAt | src/indexing.rs:223-247 | point i pairs document i with vector i, under the document's id and with its payload |
| Indexing.Points | src/indexing.rs:223-248 | the points of a batch, one per document that has a vector |
| Indexing.PointsOfBatch | src/indexing.rs:223-248 | with one vector per document, point j carries document j's id and payload and vector j |
| Indexing.Windows | src/indexing.rs:208-211 | every window is a non-empty range inside [start, n) of at most 64 documents |
| Indexing.WindowsAt | src/indexing.rs:208-258 | there are ceil((n-start)/64) windows, and window i is [start+64i, min(start+64(i+1), n)) |
| Indexing.WindowOf | src/indexing.rs:208-258 | every document lies in exactly one window, window (k-start)/64 |
| Indexing.WindowsLinked | src/indexing.rs:208-258 | the windows start at start, end at n, follow each other without gap or overlap, and each ends 64 later or at n |
| Indexing.WindowStepErrors | src/indexing.rs:217-256 | a window fails with the embedding error, or with the upsert's message, either way naming its range |
| Indexing.WindowStepPoints | src/indexing.rs:217-256 | a window that succeeds was embedded, and its points, accepted by the upsert, are its documents in order with their vectors |
| Indexing.RunOf | src/indexing.rs:209-260 | a run makes at most one upsert per step, and succeeds exactly when every step did |
| Indexing.WindowStepVectorSize | src/indexing.rs:217-256 | with an embedder that expects vectors of n components, every point of a successful window has a vector of n components |
| Indexing.RunStopsAtFirstFailure | src/indexing.rs:217-256 | the upserts are those of the first steps, in order and into the collection; a failed run ends with the first failing step's error, and nothing after it is attempted |
| Indexing.Steps | src/indexing.rs:209-259 | one result per window |
| Indexing.StepAt | src/indexing.rs:209-259 | step i is window i's |
| Indexing.RunFrom | src/indexing.rs:209-259 | one iteration of the loop: a failing step returns its error, and a succeeding one upserts and goes on |
| Indexing.PointOfDocument | src/indexing.rs:223-256 | document k's point is point k%64 of upsert k/64, with the document's id and payload |
| Indexing.RunIndexesDocuments | src/indexing.rs:202-261 | a successful run over planned windows indexes every document once |
| Indexing.StepsHoldPoints | src/indexing.rs:223-256 | each successful window step holds its window's points |
| Indexing.StepsPlan | src/indexing.rs:208-258 | the windows of all documents have the shape of `WindowsAt`, one step each, every successful step holding its window's points |
| Indexing.EveryDocumentIndexed | src/indexing.rs:202-261 | on success there is one upsert per window, each as long as its window, and document k is point k%64 of upsert k/64 under its id and payload |
| Indexing.QdrantClient.constructor | src/indexing.rs:48 | a point store that has accepted nothing yet |
| Indexing.QdrantClient.UpsertPointsBatched | src/indexing.rs:253-256 | Ok exactly when the upload accepts the points, which are then recorded; otherwise the upload's message, and nothing recorded |
| Indexing.IndexWindow | src/indexing.rs:210-256 | one window of the loop is `WindowStep`, and a success records its upsert |
| Indexing.EmbedAndUpsert | src/indexing.rs:202-261 | `embed_and_upsert` returns the result and makes the upserts of running the windows of all documents in order until the first failure |
| Indexing.DispatchAsWritten | src/indexing.rs:127-165 | as written: "rs" goes to Rust, and "kt", "ts" and "js" all go to the Kotlin parser, by bare suffix |
| Indexing.Dispatch | src/indexing.rs:127-165 | corrected: each suffix goes to its own language's parser, checked in the same order |
| Indexing.DispatchesAgree | src/indexing.rs:127-165 | both dispatch the same files, and agree on all but ts and js files |
| Indexing.TypeScriptToKotlinParser | src/indexing.rs:144-153 | "web/app.ts" goes to the Kotlin parser as written, and to TypeScript's corrected |
| Indexing.SuffixNotExtension | src/indexing.rs:128 | the test is on the suffix: an extensionless file "src/errors" is taken for Rust |
| Indexing.PerFile | src/indexing.rs:127-165 | each file's documents, file by file |
| Indexing.FilesDocsAppend | src/indexing.rs:126-165 | the documents of two runs of files are concatenated in order |
| Indexing.UnparsedFileSkipped | src/indexing.rs:131-132 | a file not dispatched, or whose parse fails, is skipped and the loop goes on |
| Indexing.ParsedFileAppended | src/indexing.rs:131 | a parsed file's documents are appended in its place |
| Indexing.NoDocumentsIff | src/indexing.rs:166-169 | there are no documents exactly when no file contributes any |
| Indexing.CollectDocuments | src/indexing.rs:126-165 | the loop appends, file by file, each file's documents |
| Indexing.ChainAppend | src/indexing.rs:82-199 | the roots in order until the first stop: a stop in the first part ends the cycle there; otherwise the second part's stop follows, after both parts' upserts |
| Indexing.ChainSkipsIdle | src/indexing.rs:90-93 | a part that went through without upserts changes nothing |
| Indexing.ChainIntoCollection | src/indexing.rs:82-199 | if every part upserts only into the collection, so does the chain |
| Indexing.ChainVectorsOfSize | src/indexing.rs:82-199 | if every part upserts only vectors of n components, so does the chain |
| Indexing.FirstUnreadyParser | src/indexing.rs:97-124 | the first parser, in creation order, that fails to initialise; None exactly when all four succeed |
| Indexing.IndexDocuments | src/indexing.rs:166-190 | nothing is upserted without documents that all normalise safely, every upsert goes to the collection, and with an embedder that expects n components every upserted vector has n components |
| Indexing.IndexRoot | src/indexing.rs:83-198 | under either reading's dispatch (`DispatchAsWritten` as written): a root that upserts either goes through or fails while indexing, upserts only into the collection, and, with an embedder that expects n components, only vectors of n components |
| Indexing.PerRoot | src/indexing.rs:82 | each root's part of the cycle, root by root, under the given reading |
| Indexing.PerRootAppend | src/indexing.rs:82 | the parts of two runs of roots are concatenated in order |
| Indexing.EmptyRepoSkipped | src/indexing.rs:90-93 | under either reading, a repository without files is passed over, as if it were absent |
| Indexing.StopEndsCycle | src/indexing.rs:82-199 | under either reading, after a root stops the cycle, no later root is scanned, parsed or indexed |
| Indexing.UpsertsOnlyAfterEnsure | src/indexing.rs:63-80 | points are upserted only after the collection was ensured and the project scanned, and only into that collection |
| Indexing.TickVectorsOfSize | src/indexing.rs:56-80 | with an embedder that expects n components, every vector a cycle upserts has n components |
| Indexing.IndexRepoRoot | src/indexing.rs:83-198 | one root of the loop, with files dispatched by the reading's dispatch: its stop and its upserts are `IndexRoot`'s |
| Indexing.ChainFrom | src/indexing.rs:82-199 | from root i on: root i's part if it stops, otherwise root i's followed by the rest |
| Indexing.IndexRepoRoots | src/indexing.rs:82-199 | the loop over the roots returns at the first stop, with the upserts of the roots before and including it |
| Indexing.TickOnce | src/indexing.rs:56-200 | `tick_once` under a reading: the collections afterwards are those the ensure leaves, and the stop and upserts follow from its result; `AsWritten` hands ts and js files to the Kotlin parser |
| Indexing.Index | src/indexing.rs:36-54 | `index` names the collection `repo_name(root)`, builds a new schema client on `QDRANT_URL`, a new points client and the embedder for `EMBED_BASE_MODEL` that expects `VECTOR_SIZE` components, and runs one cycle with them into the collection; the collections afterwards are those `ensure_collection` leaves, and every upserted vector has `VECTOR_SIZE` components, the size the collection is ensured with |
| MainDraft.ParseWith | src/main.rs:152-159 | under either reading: a parse fails with `ParseFailed` exactly when the grammar returns no tree; a parsed file yields its filename document first, and only there |
| MainDraft.DraftDispatch | src/main.rs:150-162 | "rs" goes to the Rust parser; "kt", when not "rs", to the Kotlin parser; nothing else is parsed |
| MainDraft.DraftDispatchAgrees | src/main.rs:150-162 | where the draft parses a file it picks the later dispatch's parser; it parses none of the TypeScript and JavaScript files |
| MainDraft.DraftIgnoresScripts | src/main.rs:150-162 | "web/app.ts" goes to no parser |
| MainDraft.DraftNoDocumentsIff | src/main.rs:163-166 | no documents exactly when no file is both dispatched and parsed, since each parsed file yields at least its filename document |
| MainDraft.DraftParseFile | src/main.rs:152-159 | `parse_file` of the language's parser on a scanned file, under the given reading |
| MainDraft.DraftCollectDocuments | src/main.rs:149-162 | the loop appends each "rs" and "kt" file's documents, extracted under the given reading, in file order, skipping failed parses |
| MainDraft.FirstUnreadyDraftParser | src/main.rs:133-147 | Rust's parser is created first, then Kotlin's; the first that fails is reported, None exactly when both succeed |
| MainDraft.DraftRoot | src/main.rs:119-188 | a root that upserts goes through or fails while indexing; a root that goes through had files; upserts go only into the collection and, with an embedder that expects n components, have vectors of n components |
| MainDraft.DraftPerRoot | src/main.rs:119 | each root's part of the draft cycle, root by root |
| MainDraft.DraftPerRootAppend | src/main.rs:119 | the parts of two runs of roots are concatenated in order |
| MainDraft.DraftEmptyRepoAborts | src/main.rs:127-130 | a repository without files ends the whole cycle there, keeping the upserts before it |
| MainDraft.DraftStopEndsCycle | src/main.rs:119-188 | after a root stops the cycle, no later root is touched |
| MainDraft.DraftCompletedMeansFiles | src/main.rs:127-130 | a cycle that goes through found files in every root |
| MainDraft.DraftUpsertsOnlyAfterEnsure | src/main.rs:100-117 | points are upserted only after the ensure and the project scan succeeded, and only into the collection |
| MainDraft.DraftTickVectorsOfSize | src/main.rs:93-117 | with an embedder that expects n components, every vector a draft cycle upserts has n components |
| MainDraft.DraftRepoRoot | src/main.rs:119-188 | one root of the draft loop: its stop and upserts are `DraftRoot`'s |
| MainDraft.DraftRepoRoots | src/main.rs:119-188 | the loop over the roots returns at the first stop |
| MainDraft.DraftTickOnce | src/main.rs:93-189 | the draft `tick_once` under a reading: the collections are those the ensure leaves, and the stop and upserts follow from its result |
| MainDraft.DraftIndex | src/main.rs:58-91 | the draft `index` names the collection `repo_name(root)`, builds a new schema client on `QDRANT_URL`, a new points client and the embedder for `EMBED_BASE_MODEL` that expects `VECTOR_SIZE` components, and runs one draft cycle with them; the collections afterwards are those `ensure_collection` leaves, and every upserted vector has `VECTOR_SIZE` components |

## Left out

- Tree-sitter itself (src/ingest/rust_parser.rs:90-101, 116-119): a tree is an abstract `SyntaxTree.Node`. A parse that fails is an absent tree, and a grammar that fails to load is `parserReady`. Node offsets are character offsets, not byte offsets.
- `CodeParser` and `ParseLanguage`, which src/indexing.rs imports, are not part of this model. Their `parse_file` is the `Indexing.Parser` parameter of `Env`. In src/main.rs, which uses `RustParser`, the files are parsed by `RustParser.ParseFile` over the grammar's tree.
- The Kotlin grammar: `RustParser::new(Language::Kotlin)` selects another grammar but the same node-kind tests, so it is the extraction over the tree that grammar returns. `Indexing.ParseLanguage` stands in for the two-variant `Language`.
- `Strings.ToLowerAscii`: `str::to_lowercase` maps every Unicode letter; the model lower-cases only ASCII letters. The kinds the pipeline passes are `DocumentKind::as_str()` names, which are ASCII lowercase already.
- `IdGenerator.CanonicalKey`: the kind is lower-cased with `ToLowerAscii`, so a kind holding non-ASCII capitals keys differently from `to_lowercase`.
- `MainDraft.DraftRoot`: the `env.parse` field is not read. The draft's files are parsed by the extractor over the grammar.
- HTTP, JSON and timeouts (reqwest, serde, per-request timeouts, `with_timeout_secs`): only the mapping from status and body to outcome is modelled. A failed request is `NoResponse`/`GetFailed`/`PutFailed`.
- SHA-1 and SHA-256 internals: they are function parameters (`Crypto`). Hex encoding and the UUID layout are modelled concretely.
- `upsert_points_batched`'s sub-batching into `UPSERT_BATCH` and its `UPSERT_RETRIES` retries: `crate::client::qdrant_client` is not part of this model. It is an upload that accepts or refuses the points of one window.
- The configuration of src/indexing.rs: src/indexing.rs:23-26 imports `EMBED_BATCH`, `VECTOR_SIZE`, `QDRANT_URL`, `EMBED_BASE_MODEL` and the other settings from the crate root, which is not part of this model. `Indexing.EmbedBatch`, `VectorSize`, `QdrantUrl`, `EmbedBaseModel` and `IncludeFilenameDoc` take the values src/main.rs:35-43 declares.
- `Indexing.Index` and `MainDraft.DraftIndex`: building the three clients cannot fail in the model. In the source, `reqwest::Client::builder().build()` can fail, and then `index` returns that error before the cycle. What the Qdrant server already holds is the `existing` parameter, and the points client's upload is the `upload` parameter.
- `QdrantSchema.QdrantSchema.CreateCollection`: an undisturbed instance always accepts the PUT. Other answers come from the `interference` parameter.
- `Indexing.Payload`: `timestamp_indexed` is the `now` parameter, not `Utc::now()`, and is stored as the number `timestamp()` gives.
- f32 vector components are `real` values that are carried, not computed on.
- `DocNormalizer.DedentLine`: it counts `l.len()` in characters, not bytes. The branch is proved unreachable, so this changes no result.
- `DocNormalizer.NormalizeCode`: `String::truncate` panics when `max_chars` is not a character boundary. This is a precondition (`TruncatesOnBoundary`), and in the cycle such a document ends it with `NormalizePanicked`.
- `EmbedderClient.SortByIndex`: the stable sort is modelled on values (an insertion sort defined recursively), not as an in-place sort of a vector.
- `u32` line numbers and `usize` offsets are unbounded naturals: overflow past 2^32 lines is not modelled.
- `to_str()` on a file name fails only for invalid Unicode, which `string` cannot hold.
- `repo_root_from_args`, `query_repo_from_args`, `std::env` and the current directory: the root is a parameter.
- The draft `main()` calls `inference` (src/inference.rs), and its daemon loop is commented out. src/main.rs also imports modules absent from the tree (src/main.rs:22, 27, 29). Only `index` and `tick_once` of the draft are modelled.
- Progress bars, `eprintln!` and `println!` logging.
- src/ingest/repo_scanner.rs (directory walking, .gitignore): `scanProject` and `scanRepo` are parameters.
- src/server.rs, src/inference.rs, src/generative.rs, src/client/llm_client.rs and src/terminal.rs: the search server, LLM streaming and the terminal UI are outside the indexing pipeline.
- The test-only `PartialEq for DocumentKind` (`todo!()`): structural equality is used.

## Findings

| source | as written | input that shows it | evidently intended | confidence | as-written member | corrected member |
|---|---|---|---|---|---|---|
| src/ingest/rust_parser.rs:471 | the joined doc block is only right-trimmed, so a blank line collected above the doc lines stays a leading '\n' | "\n/// Top doc\n/// more\nfn foo() {}\n" gives "\nTop doc\nmore" for `foo` | "Top doc\nmore", which `test_leading_doc_comment` expects | not executed | RustParser.DocCommentTestExample | RustParser.DocComment |
| src/ingest/rust_parser.rs:150-154 | a function is a method only if its parent node is an `impl_item`, but tree-sitter-rust puts an impl's items inside a `declaration_list` child of the `impl_item` | `impl A { fn bar(&self, x: i32) -> i32 { x + 1 } }`: `bar`'s parent is the `declaration_list` | `bar` is a Method with parent type containing "A", as `test_method_detection_and_parent` expects | not executed; relies on the tree-sitter-rust grammar's nesting | RustParser.MethodInDeclarationList | RustParser.EnclosingImpl |
| src/indexing.rs:144-163 | "ts" and "js" files are handed to `kotlin_parser`; the TypeScript and JavaScript parsers created at lines 111-124 are never used | "web/app.ts" is parsed with the Kotlin grammar | each suffix parsed by its own language's parser | not executed | Indexing.TypeScriptToKotlinParser | Indexing.Dispatch |
