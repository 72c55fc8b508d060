/**
 * The document extractor of the Rust parser (src/ingest/rust_parser.rs): a depth-first walk
 * over a syntax tree that turns structs, enums, traits, free functions and methods into
 * documents, plus the whole-file "filename" document.
 *
 * The tree is an input: tree-sitter's parser is not modelled, and `None` stands for a parse
 * that produced no tree. Offsets into the source are character offsets (see README).
 */
module RustParser {
  import opened Wrappers
  import opened Strings
  import opened SyntaxTree

  datatype ParserError = ParseFailed

  datatype DocumentKind = Function | Method | Struct | Enum | Trait | Filename {
    /** `DocumentKind::as_str`, also the serialised (lowercase) name of the kind. */
    function AsStr(): (s: string)
      ensures s != [] && forall i :: 0 <= i < |s| ==> 'a' <= s[i] <= 'z'
    {
      match this
      case Function => "function"
      case Method => "method"
      case Struct => "struct"
      case Enum => "enum"
      case Trait => "trait"
      case Filename => "filename"
    }
  }

  /** The six kinds have six different names. */
  lemma {:induction false} AsStrInjective(a: DocumentKind, b: DocumentKind)
    ensures a.AsStr() == b.AsStr() <==> a == b
  {
    if a != b {
      assert a.AsStr()[0] != b.AsStr()[0] || |a.AsStr()| != |b.AsStr()| || a.AsStr()[1] != b.AsStr()[1];
    }
  }

  datatype Document = Document(
    repo: string,
    filePath: string,
    symbolName: string,
    kind: DocumentKind,
    signature: Option<string>,
    docComment: Option<string>,
    code: string,
    parentType: Option<string>,
    lineStart: nat,
    lineEnd: nat)

  // ---------------------------------------------------------------- the filename document

  /** A path component that names a file or directory (not empty, `.` or `..`). */
  predicate IsNormalComponent(c: string) {
    c != "" && c != "." && c != ".."
  }

  /** The pieces of a '/'-separated path that `Path::components` keeps: empty pieces and `.` are dropped. */
  function Components(pieces: seq<string>): (r: seq<string>)
    ensures forall i :: 0 <= i < |r| ==> r[i] != "" && r[i] != "." && r[i] in pieces
  {
    if pieces == [] then []
    else
      var rest := Components(pieces[1..]);
      if pieces[0] == "" || pieces[0] == "." then rest else [pieces[0]] + rest
  }

  lemma {:induction false} ComponentsAppend(a: seq<string>, b: seq<string>)
    ensures Components(a + b) == Components(a) + Components(b)
  {
    if a == [] {
      assert a + b == b;
    } else {
      assert (a + b)[0] == a[0];
      assert (a + b)[1..] == a[1..] + b;
      ComponentsAppend(a[1..], b);
    }
  }

  /** `Path::file_name` on a '/'-separated path: its last component, unless that is `..` or there is none. */
  function FileName(path: string): (r: Option<string>)
    ensures r.Some? ==> IsNormalComponent(r.value) && '/' !in r.value && r.value in SplitOn(path, '/')
  {
    var cs := Components(SplitOn(path, '/'));
    if cs == [] || cs[|cs| - 1] == ".." then None else Some(cs[|cs| - 1])
  }

  /** The file name of `dir/name`, and of a bare `name`, is `name`. */
  lemma {:induction false} FileNameOfPlain(dir: string, name: string)
    requires IsNormalComponent(name) && '/' !in name
    ensures FileName(dir + "/" + name) == Some(name)
    ensures FileName(name) == Some(name)
  {
    SplitOnAppend(dir, '/', name);
    assert SplitOn(name, '/') == [name];
    ComponentsAppend(SplitOn(dir, '/'), [name]);
    assert Components([name]) == [name];
  }

  /** `build_filename_document`: the whole file as one document. */
  function FilenameDocument(repo: string, path: string, source: string): (d: Document)
    ensures d.kind == Filename && d.code == source
    ensures d.signature.None? && d.docComment.None? && d.parentType.None?
    ensures d.lineStart == 1 && d.lineEnd == multiset(source)['\n'] + 1
    ensures d.symbolName == FileName(path).GetOr(path)
  {
    Document(repo, path, FileName(path).GetOr(path), Filename, None, None, source, None,
             1, 1 + CountChar(source, '\n'))
  }

  /** The filename document's last line is the number of '\n'-separated lines of the file. */
  lemma {:induction false} FilenameDocumentSpansFile(repo: string, path: string, source: string)
    ensures FilenameDocument(repo, path, source).lineEnd == |SplitOn(source, '\n')|
  {
    SplitOnCount(source, '\n');
  }

  /** The filename document of "src/main.rs" holding "fn x() {}\n" is named "main.rs" and spans lines 1 to 2. */
  lemma {:induction false} FilenameDocumentExample(path: string, source: string)
    requires path == "src/main.rs" && source == "fn x() {}\n"
    ensures var d := FilenameDocument("r", path, source);
      d.symbolName == "main.rs" && d.lineStart == 1 && d.lineEnd == 2 && d.code == source
  {
    ExampleFileName(path);
    ExampleNewlines(source);
  }

  lemma {:induction false} ExampleFileName(path: string)
    requires path == "src/main.rs"
    ensures FileName(path) == Some("main.rs")
  {
    var dir, name := "src", "main.rs";
    assert path == dir + "/" + name;
    FileNameOfPlain(dir, name);
  }

  lemma {:induction false} ExampleNewlines(source: string)
    requires source == "fn x() {}\n"
    ensures multiset(source)['\n'] == 1
  {
    var line := "fn x() {}";
    assert source == line + "\n";
    assert '\n' !in line;
    assert multiset(line + "\n") == multiset(line) + multiset("\n");
  }

  // ---------------------------------------------------------------- slices, rows and names

  /** `slice_source`: the text of [start, end), or "" when that range is not inside the source. */
  function Slice(source: string, start: nat, end: nat): (r: string)
    ensures start <= end <= |source| ==> r == source[start..end]
    ensures !(start <= end <= |source|) ==> r == ""
  {
    if start <= end <= |source| then source[start..end] else ""
  }

  /** `lines_of`: the 1-based first and last line of a node. */
  function LinesOf(n: Node): (r: (nat, nat))
    ensures 1 <= r.0 && (n.startRow <= n.endRow ==> r.0 <= r.1)
    ensures r.1 - r.0 == n.endRow - n.startRow
  {
    (n.startRow + 1, n.endRow + 1)
  }

  /** The text of the first child of the given kind, or None when there is no such child. */
  function ChildText(source: string, node: Node, kind: string): (r: Option<string>)
    ensures r.None? <==> kind !in Kinds(node.children)
    ensures r.Some? ==> exists i :: (0 <= i < |node.children| && node.children[i].kind == kind
      && r.value == Slice(source, node.children[i].start, node.children[i].end)
      && kind !in Kinds(node.children)[..i])
  {
    match IndexOf(Kinds(node.children), kind)
    case None => None
    case Some(i) => Some(Slice(source, node.children[i].start, node.children[i].end))
  }

  /** `child_text_by_kind`: scans the children in order for the first one of the given kind. */
  method ChildTextByKind(source: string, node: Node, kind: string) returns (r: Option<string>)
    ensures r == ChildText(source, node, kind)
  {
    var i := 0;
    while i < |node.children|
      invariant 0 <= i <= |node.children|
      invariant kind !in Kinds(node.children)[..i]
    {
      var ch := node.children[i];
      if ch.kind == kind {
        assert Kinds(node.children)[..i + 1] == Kinds(node.children)[..i] + [kind];
        IndexOfAfter(Kinds(node.children)[..i], kind, Kinds(node.children)[i + 1..]);
        assert Kinds(node.children) == Kinds(node.children)[..i] + [kind] + Kinds(node.children)[i + 1..];
        return Some(Slice(source, ch.start, ch.end));
      }
      assert Kinds(node.children)[..i + 1] == Kinds(node.children)[..i] + [ch.kind];
      i := i + 1;
    }
    assert Kinds(node.children)[..i] == Kinds(node.children);
    return None;
  }

  // ---------------------------------------------------------------- method detection

  /** Some `parameters` child of the function has a `self_parameter` among its descendants. */
  predicate HasSelfReceiver(func: Node) {
    exists i :: 0 <= i < |func.children| && func.children[i].kind == "parameters"
      && ContainsKind(func.children[i], "self_parameter")
  }

  /** `has_self_parameter`: a stack-based search under each `parameters` child. */
  method HasSelfParameter(func: Node) returns (b: bool)
    ensures b == HasSelfReceiver(func)
  {
    var i := 0;
    while i < |func.children|
      invariant 0 <= i <= |func.children|
      invariant forall j :: (0 <= j < i && func.children[j].kind == "parameters"
        ==> !ContainsKind(func.children[j], "self_parameter"))
    {
      var ch := func.children[i];
      if ch.kind == "parameters" {
        var found := ContainsSelfParameter(ch);
        if found {
          return true;
        }
      }
      i := i + 1;
    }
    return false;
  }

  /** The inner loop of `has_self_parameter`: a depth-first search of the tree under root. */
  method ContainsSelfParameter(root: Node) returns (b: bool)
    ensures b == ContainsKind(root, "self_parameter")
  {
    var stack := [root];
    assert stack[0] == root;
    while stack != []
      invariant ContainsKind(root, "self_parameter") <==> AnyContains(stack, "self_parameter")
      decreases SizeList(stack)
    {
      var n := stack[|stack| - 1];
      var rest := stack[..|stack| - 1];
      assert stack == rest + [n];
      PopStep(rest, n, "self_parameter");
      if n.kind == "self_parameter" {
        return true;
      }
      stack := PushAll(rest, n.children);
    }
    return false;
  }

  /** Popping n and pushing its children keeps the question the stack answers, and shrinks the stack. */
  lemma {:induction false} PopStep(rest: seq<Node>, n: Node, kind: string)
    ensures AnyContains(rest + [n], kind) <==> n.kind == kind || AnyContains(rest + n.children, kind)
    ensures SizeList(rest + n.children) < SizeList(rest + [n])
  {
    AnyContainsAppend(rest, [n], kind);
    AnyContainsAppend(rest, n.children, kind);
    SizeListAppend(rest, [n]);
    SizeListAppend(rest, n.children);
    assert [n][0] == n && [n][1..] == [];
  }

  /** The children pushed in order on top of the stack. */
  method PushAll(stack: seq<Node>, children: seq<Node>) returns (s: seq<Node>)
    ensures s == stack + children
  {
    s := stack;
    for j := 0 to |children|
      invariant s == stack + children[..j]
    {
      assert children[..j + 1] == children[..j] + [children[j]];
      s := s + [children[j]];
    }
    assert children[..|children|] == children;
  }

  // ---------------------------------------------------------------- signatures

  /** The child kinds that hold an item's body. */
  predicate IsBodyKind(k: string) {
    k == "block" || k == "field_declaration_list" || k == "enum_variant_list" || k == "declaration_list"
  }

  /** The index of the first body child. */
  function FirstBody(cs: seq<Node>): (r: Option<nat>)
    ensures r.Some? ==> r.value < |cs| && IsBodyKind(cs[r.value].kind)
    ensures r.Some? ==> forall j :: 0 <= j < r.value ==> !IsBodyKind(cs[j].kind)
    ensures r.None? ==> forall j :: 0 <= j < |cs| ==> !IsBodyKind(cs[j].kind)
  {
    if cs == [] then None
    else if IsBodyKind(cs[0].kind) then Some(0)
    else
      match FirstBody(cs[1..])
      case None => None
      case Some(k) => Some(k + 1)
  }

  /** Where the signature is cut: the start of the first body child, or the end of the node. */
  function Cutoff(node: Node): nat {
    match FirstBody(node.children)
    case Some(i) => node.children[i].start
    case None => node.end
  }

  /**
   * The part of a node's text the signature is taken from, with cut the offset of the first
   * body child (or the text's length when there is none): the text before the body, or else
   * the text up to and including its first ';', or else all of it.
   */
  function Head(text: string, cut: nat): (h: string)
    requires cut <= |text|
    ensures |h| <= |text| && h == text[..|h|]
  {
    if cut < |text| then text[..cut]
    else
      match IndexOf(text, ';')
      case Some(idx) => text[..idx + 1]
      case None => text
  }

  /** `extract_item_signature`'s text: the head of the node's text, trimmed. */
  function Signature(source: string, node: Node): string
    requires Spans(node, |source|)
  {
    CutoffWithin(node, |source|);
    Trim(Head(source[node.start..node.end], Cutoff(node) - node.start))
  }

  lemma {:induction false} CutoffWithin(node: Node, len: nat)
    requires Spans(node, len)
    ensures node.start <= Cutoff(node) <= node.end
  {
  }

  /** `extract_item_signature`: finds the cut with a scan over the children; the result is never None. */
  method ExtractItemSignature(source: string, node: Node) returns (r: Option<string>)
    requires Spans(node, |source|)
    ensures r == Some(Signature(source, node))
  {
    var cutoff := BodyCutoff(node);
    CutoffWithin(node, |source|);
    var textFull := Slice(source, node.start, node.end);
    if cutoff < node.end {
      var head := source[node.start..cutoff];
      assert head == textFull[..cutoff - node.start];
      return Some(Trim(head));
    }
    var semicolon := IndexOf(textFull, ';');
    if semicolon.Some? {
      var head := textFull[..semicolon.value + 1];
      return Some(Trim(head));
    }
    return Some(Trim(textFull));
  }

  /** The start of the first body child, or the node's end when it has none. */
  method BodyCutoff(node: Node) returns (cutoff: nat)
    ensures cutoff == Cutoff(node)
  {
    cutoff := node.end;
    var i := 0;
    while i < |node.children|
      invariant 0 <= i <= |node.children|
      invariant forall j :: 0 <= j < i ==> !IsBodyKind(node.children[j].kind)
      invariant cutoff == node.end
    {
      var ch := node.children[i];
      if IsBodyKind(ch.kind) {
        cutoff := ch.start;
        break;
      }
      i := i + 1;
    }
  }

  /** Before a body child that starts inside the node, the signature is the trimmed text up to that child. */
  lemma {:induction false} SignatureBeforeBody(source: string, node: Node, i: nat)
    requires Spans(node, |source|)
    requires FirstBody(node.children) == Some(i) && node.children[i].start < node.end
    ensures Signature(source, node) == Trim(source[node.start..node.children[i].start])
  {
    assert source[node.start..node.end][..node.children[i].start - node.start] == source[node.start..node.children[i].start];
  }

  /** With no body child inside the node, the signature runs up to and including the first ';'. */
  lemma {:induction false} SignatureAtSemicolon(source: string, node: Node, k: nat)
    requires Spans(node, |source|) && Cutoff(node) == node.end
    requires k < node.end - node.start && source[node.start + k] == ';' && ';' !in source[node.start..node.start + k]
    ensures Signature(source, node) == Trim(source[node.start..node.start + k + 1])
  {
    var text := source[node.start..node.end];
    assert |text| == Cutoff(node) - node.start;
    assert text[k] == ';';
    assert text[..k] == source[node.start..node.start + k];
    HeadAtSemicolon(text, k);
    var head, slice := text[..k + 1], source[node.start..node.start + k + 1];
    forall j | 0 <= j < k + 1 ensures head[j] == slice[j] {
      assert text[j] == source[node.start + j];
    }
    assert head == slice;
    assert Signature(source, node) == Trim(Head(text, |text|));
  }

  lemma {:induction false} HeadAtSemicolon(text: string, k: nat)
    requires k < |text| && text[k] == ';' && ';' !in text[..k]
    ensures Head(text, |text|) == text[..k + 1]
  {
    IndexOfAfter(text[..k], ';', text[k + 1..]);
    assert text == text[..k] + [';'] + text[k + 1..];
  }

  /** With no body child inside and no ';', the signature is the whole trimmed node text. */
  lemma {:induction false} SignatureWhole(source: string, node: Node)
    requires Spans(node, |source|) && Cutoff(node) == node.end && ';' !in source[node.start..node.end]
    ensures Signature(source, node) == Trim(source[node.start..node.end])
  {
  }

  /**
   * What the tests check of a signature: when the node's text starts with a phrase that begins and
   * ends with non-whitespace, contains no ';' and lies before the body, the signature starts with it.
   */
  lemma {:induction false} SignatureStartsWithHead(source: string, node: Node, head: string)
    requires Spans(node, |source|)
    requires head != [] && !IsWhitespace(head[0]) && !IsWhitespace(head[|head| - 1]) && ';' !in head
    requires node.start + |head| <= Cutoff(node) && StartsWith(source[node.start..], head)
    ensures StartsWith(Signature(source, node), head)
  {
    CutoffWithin(node, |source|);
    var text := source[node.start..node.end];
    assert text[..|head|] == source[node.start..][..|head|];
    HeadKeepsPrefix(text, Cutoff(node) - node.start, head);
    TrimKeepsPrefix(Head(text, Cutoff(node) - node.start), head);
  }

  lemma {:induction false} HeadKeepsPrefix(text: string, cut: nat, head: string)
    requires |head| <= cut <= |text| && text[..|head|] == head && ';' !in head
    ensures StartsWith(Head(text, cut), head)
  {
    if cut == |text| {
      match IndexOf(text, ';')
      case Some(idx) =>
        assert idx >= |head|;
        assert text[..idx + 1][..|head|] == head;
      case None =>
    }
  }

  // ---------------------------------------------------------------- doc comments

  /** A line without its terminating '\n' and its indentation. */
  function LineText(raw: string): string {
    TrimStart(TrimEndMatches(raw, '\n'))
  }

  predicate IsLineDoc(t: string) {
    StartsWith(t, "///") || StartsWith(t, "//!")
  }

  // A block-comment opener: `/` followed by `**` or `*!`.
  predicate IsBlockDoc(t: string) {
    StartsWith(t, "/**") || StartsWith(t, "/*!")
  }

  datatype LineKind = DocLine | BlankLine | OtherLine

  /** A line as the upward scan sees it: its kind, and for a doc line what it contributes. */
  datatype Line = Line(kind: LineKind, content: string)

  /** What a `///` or `//!` line contributes: the text after its markers, without leading whitespace. */
  function DocContent(t: string): string {
    TrimStart(TrimStartMatches(TrimStartMatches(t, "///"), "//!"))
  }

  /**
   * How the scan reads a line once its newline and indentation are gone: a `///` or `//!` line
   * contributes its content, a block-comment opener line contributes itself, an empty line is blank.
   */
  function Classify(t: string): Line {
    if IsLineDoc(t) then Line(DocLine, DocContent(t))
    else if IsBlockDoc(t) then Line(DocLine, t)
    else if t == [] then Line(BlankLine, "")
    else Line(OtherLine, "")
  }

  function ReadLine(raw: string): Line {
    Classify(LineText(raw))
  }

  /** Every line read, in order. */
  function ReadLines(lines: seq<string>): (r: seq<Line>)
    ensures |r| == |lines|
  {
    if lines == [] then [] else ReadLines(lines[..|lines| - 1]) + [ReadLine(lines[|lines| - 1])]
  }

  lemma {:induction false} ReadLinesAt(lines: seq<string>, i: nat)
    requires i < |lines|
    ensures ReadLines(lines)[i] == ReadLine(lines[i])
    decreases |lines|
  {
    if i < |lines| - 1 {
      var init := lines[..|lines| - 1];
      assert ReadLines(lines)[i] == ReadLines(init)[i];
      ReadLinesAt(init, i);
      assert init[i] == lines[i];
    }
  }

  lemma {:induction false} ReadLinesPrefix(lines: seq<string>, i: nat)
    requires 0 < i <= |lines|
    ensures ReadLines(lines[..i]) == ReadLines(lines[..i - 1]) + [ReadLine(lines[i - 1])]
  {
    assert lines[..i][..i - 1] == lines[..i - 1];
  }

  /** The complete lines before offset start: the partial line the node starts on is dropped. */
  function LinesAbove(source: string, start: nat): seq<string>
    requires start <= |source|
  {
    var prefix := source[..start];
    var lines := SplitLines(prefix);
    if lines != [] && !EndsWith(prefix, "\n") then lines[..|lines| - 1] else lines
  }

  /** How the upward scan ends: giving up (no doc line right above), or with what it collected, bottom line first. */
  datatype Scan = Abort | Done(collectedRev: seq<string>)

  /**
   * The upward scan, from the last line toward the first: doc lines and, once a doc line has been
   * seen, blank lines are collected; any other line ends the scan.
   */
  function ScanUp(ls: seq<Line>, seen: bool, acc: seq<string>): Scan
    decreases |ls|
  {
    if ls == [] then Done(acc)
    else
      var l := ls[|ls| - 1];
      if l.kind == DocLine then ScanUp(ls[..|ls| - 1], true, acc + [l.content])
      else if seen && l.kind == BlankLine then ScanUp(ls[..|ls| - 1], seen, acc + [""])
      else if !seen then Abort
      else Done(acc)
  }

  /** The collected lines restored to top-to-bottom order and joined with '\n', before trimming. */
  function JoinedBlock(source: string, start: nat): Option<string>
    requires start <= |source|
  {
    BlockOf(ReadLines(LinesAbove(source, start)))
  }

  function BlockOf(ls: seq<Line>): Option<string> {
    match ScanUp(ls, false, [])
    case Abort => None
    case Done(c) => if c == [] then None else Some(Join(Reverse(c), "\n"))
  }

  /** `leading_doc_comment_block_above` as written: the joined block, right-trimmed only. */
  function DocCommentAsWritten(source: string, start: nat): Option<string>
    requires start <= |source|
  {
    match JoinedBlock(source, start)
    case None => None
    case Some(b) => Some(TrimEnd(b))
  }

  /** The doc comment as the test expects it: the joined block trimmed at both ends. */
  function DocComment(source: string, start: nat): (r: Option<string>)
    requires start <= |source|
    ensures r.Some? ==> r.value == [] || (!IsWhitespace(r.value[0]) && !IsWhitespace(r.value[|r.value| - 1]))
  {
    match JoinedBlock(source, start)
    case None => None
    case Some(b) => Some(Trim(b))
  }

  /**
   * The two readings of the indexer: the code as written (`trim_end` on the comment, a
   * function's impl only when it is the parent, TypeScript and JavaScript files handed to the
   * Kotlin parser), and with those findings corrected (`trim` on the comment, the impl found
   * through its `declaration_list`, each suffix handed to its own parser). Every member that
   * depends on one of them takes the reading as its first argument.
   */
  datatype Rules = AsWritten | Corrected

  /** The trim a reading applies to the joined block. */
  function TrimBy(rules: Rules, s: string): string {
    if rules == AsWritten then TrimEnd(s) else Trim(s)
  }

  /** The doc comment above a node under a reading. */
  function DocCommentBy(rules: Rules, source: string, start: nat): Option<string>
    requires start <= |source|
  {
    match JoinedBlock(source, start)
    case None => None
    case Some(b) => Some(TrimBy(rules, b))
  }

  /** The first line of the run of doc and blank lines that ends the sequence. */
  function BlockStart(ls: seq<Line>): (k: nat)
    ensures k <= |ls|
    ensures forall j :: k <= j < |ls| ==> ls[j].kind != OtherLine
    ensures k > 0 ==> ls[k - 1].kind == OtherLine
  {
    if ls == [] then 0
    else if ls[|ls| - 1].kind != OtherLine then BlockStart(ls[..|ls| - 1])
    else |ls|
  }

  /** The text a line of a block stands for: a doc line's content, "" for a blank line. */
  function BlockLineText(l: Line): string {
    if l.kind == DocLine then l.content else ""
  }

  function BlockText(ls: seq<Line>): (r: seq<string>)
    ensures |r| == |ls|
    ensures forall i :: 0 <= i < |ls| ==> r[i] == BlockLineText(ls[i])
  {
    seq(|ls|, i requires 0 <= i < |ls| => BlockLineText(ls[i]))
  }

  lemma {:induction false} BlockTextSnoc(ls: seq<Line>, l: Line)
    ensures BlockText(ls + [l]) == BlockText(ls) + [BlockLineText(l)]
  {
  }

  /** Taking one more block line at the bottom puts its text first in the bottom-up collection. */
  lemma {:induction false} CollectSnoc(acc: seq<string>, ls: seq<Line>, l: Line)
    ensures acc + [BlockLineText(l)] + Reverse(BlockText(ls)) == acc + Reverse(BlockText(ls + [l]))
  {
    var t := BlockLineText(l);
    BlockTextSnoc(ls, l);
    ReverseAppend(BlockText(ls), [t]);
    assert Reverse([t]) == [t];
    AppendAssoc(acc, [t], Reverse(BlockText(ls)));
  }

  /** Once a doc line has been taken, the scan collects, bottom-up, the text of the rest of the block. */
  lemma {:induction false} ScanFromSeen(ls: seq<Line>, acc: seq<string>)
    ensures ScanUp(ls, true, acc) == Done(acc + Reverse(BlockText(ls[BlockStart(ls)..])))
    decreases |ls|
  {
    if ls == [] {
      assert ls[0..] == [];
      assert acc + Reverse<string>([]) == acc;
    } else {
      var l, init := ls[|ls| - 1], ls[..|ls| - 1];
      if l.kind != OtherLine {
        SeenStep(ls, acc);
        ScanFromSeen(init, acc + [BlockLineText(l)]);
        CollectSnoc(acc, init[BlockStart(init)..], l);
      } else {
        assert ls[|ls|..] == [];
        assert acc + Reverse<string>([]) == acc;
      }
    }
  }

  /** A doc or blank line at the bottom, after a doc line was seen, is collected and the block reaches past it. */
  lemma {:induction false} SeenStep(ls: seq<Line>, acc: seq<string>)
    requires ls != [] && ls[|ls| - 1].kind != OtherLine
    ensures var l, init := ls[|ls| - 1], ls[..|ls| - 1];
      && ScanUp(ls, true, acc) == ScanUp(init, true, acc + [BlockLineText(l)])
      && ls[BlockStart(ls)..] == init[BlockStart(init)..] + [l]
  {
    var l, init := ls[|ls| - 1], ls[..|ls| - 1];
    var k := BlockStart(init);
    assert BlockStart(ls) == k;
    assert ls == init + [l];
  }

  /** Whether the line directly above the node (its last complete line) opens a doc block. */
  predicate DocLineAbove(source: string, start: nat)
    requires start <= |source|
  {
    var ls := ReadLines(LinesAbove(source, start));
    ls != [] && ls[|ls| - 1].kind == DocLine
  }

  /**
   * What the scan computes: when the line directly above the node is a doc line, the block is the
   * maximal run of doc and blank lines ending there, joined top to bottom; otherwise there is none.
   */
  lemma {:induction false} JoinedBlockMeaning(source: string, start: nat)
    requires start <= |source|
    ensures var ls := ReadLines(LinesAbove(source, start));
      JoinedBlock(source, start) ==
        if DocLineAbove(source, start) then Some(Join(BlockText(ls[BlockStart(ls)..]), "\n")) else None
  {
    BlockOfMeaning(ReadLines(LinesAbove(source, start)));
  }

  lemma {:induction false} BlockOfMeaning(ls: seq<Line>)
    ensures BlockOf(ls) ==
      if ls != [] && ls[|ls| - 1].kind == DocLine then Some(Join(BlockText(ls[BlockStart(ls)..]), "\n")) else None
  {
    ScanMeaning(ls);
    if ls != [] && ls[|ls| - 1].kind == DocLine {
      ReverseReverse(BlockText(ls[BlockStart(ls)..]));
    }
  }

  /** From the bottom: a doc line opens a block that the scan collects whole; otherwise nothing is collected. */
  lemma {:induction false} ScanMeaning(ls: seq<Line>)
    ensures ls != [] && ls[|ls| - 1].kind == DocLine ==>
      BlockStart(ls) < |ls| && ScanUp(ls, false, []) == Done(Reverse(BlockText(ls[BlockStart(ls)..])))
    ensures !(ls != [] && ls[|ls| - 1].kind == DocLine) ==>
      ScanUp(ls, false, []) == Abort || ScanUp(ls, false, []) == Done([])
  {
    if ls != [] && ls[|ls| - 1].kind == DocLine {
      var l, init := ls[|ls| - 1], ls[..|ls| - 1];
      assert ScanUp(ls, false, []) == ScanUp(init, true, [] + [BlockLineText(l)]);
      assert ScanUp(ls, true, []) == ScanUp(init, true, [] + [BlockLineText(l)]);
      ScanFromSeen(ls, []);
      assert [] + Reverse(BlockText(ls[BlockStart(ls)..])) == Reverse(BlockText(ls[BlockStart(ls)..]));
    }
  }

  /** There is a doc comment exactly when the line directly above the node is a doc line. */
  lemma {:induction false} DocCommentIff(source: string, start: nat)
    requires start <= |source|
    ensures DocComment(source, start).Some? <==> DocLineAbove(source, start)
    ensures DocCommentAsWritten(source, start).Some? <==> DocLineAbove(source, start)
  {
    JoinedBlockMeaning(source, start);
  }

  /**
   * The corrected comment is the as-written one with its leading whitespace removed, and
   * trimming both gives the same text, so the normaliser, which trims, cannot tell them apart.
   */
  lemma {:induction false} DocCommentTrimmedAgrees(source: string, start: nat)
    requires start <= |source|
    ensures DocComment(source, start).Some? <==> DocCommentAsWritten(source, start).Some?
    ensures DocComment(source, start).Some? ==>
      && DocComment(source, start).value == TrimStart(DocCommentAsWritten(source, start).value)
      && Trim(DocComment(source, start).value) == Trim(DocCommentAsWritten(source, start).value)
  {
    if JoinedBlock(source, start).Some? {
      var b := JoinedBlock(source, start).value;
      TrimIdempotent(b);
      TrimAfterTrimEnd(b);
    }
  }

  // A blank line, then two `///` lines, directly above an item: the shape of the source's own test.

  /** Text a `///` line can carry after its one space: it starts with a character that is no marker and no space. */
  predicate DocText(w: string) {
    w != [] && !IsWhitespace(w[0]) && w[0] != '/' && !IsWhitespace(w[|w| - 1])
  }

  /**
   * With a blank line above two doc lines, the as-written extractor keeps the blank line as a
   * leading '\n'; the corrected one returns the two lines alone.
   */
  lemma {:induction false} BlankLineAboveDocBlock(source: string, start: nat, w1: string, w2: string)
    requires start <= |source| && DocText(w1) && DocText(w2)
    requires LinesAbove(source, start) == ["\n", "/// " + w1 + "\n", "/// " + w2 + "\n"]
    ensures DocCommentAsWritten(source, start) == Some("\n" + (w1 + "\n" + w2))
    ensures DocComment(source, start) == Some(w1 + "\n" + w2)
  {
    var raws := LinesAbove(source, start);
    ReadBlankThenDoc(raws, w1, w2);
    BlankThenTwoDocLines(ReadLines(raws), w1, w2);
    TrimLeadingNewline(w1 + "\n" + w2);
  }

  lemma {:induction false} ReadBlankThenDoc(raws: seq<string>, w1: string, w2: string)
    requires DocText(w1) && DocText(w2)
    requires raws == ["\n", "/// " + w1 + "\n", "/// " + w2 + "\n"]
    ensures var ls := ReadLines(raws);
      |ls| == 3 && ls[0] == Line(BlankLine, "") && ls[1] == Line(DocLine, w1) && ls[2] == Line(DocLine, w2)
  {
    ReadBlankLine(raws[0]);
    ReadDocLine(w1, raws[1]);
    ReadDocLine(w2, raws[2]);
    ReadThree(raws, w1, w2);
  }

  lemma {:induction false} ReadThree(raws: seq<string>, w1: string, w2: string)
    requires |raws| == 3 && ReadLine(raws[0]) == Line(BlankLine, "")
    requires ReadLine(raws[1]) == Line(DocLine, w1) && ReadLine(raws[2]) == Line(DocLine, w2)
    ensures var ls := ReadLines(raws);
      |ls| == 3 && ls[0] == Line(BlankLine, "") && ls[1] == Line(DocLine, w1) && ls[2] == Line(DocLine, w2)
  {
    ReadLinesAt(raws, 0);
    ReadLinesAt(raws, 1);
    ReadLinesAt(raws, 2);
  }

  lemma {:induction false} BlankThenTwoDocLines(ls: seq<Line>, w1: string, w2: string)
    requires |ls| == 3 && ls[0] == Line(BlankLine, "")
    requires ls[1] == Line(DocLine, w1) && ls[2] == Line(DocLine, w2)
    ensures BlockOf(ls) == Some("\n" + (w1 + "\n" + w2))
  {
    assert ls[..2][..1] == ls[..1];
    assert ls[..1][..0] == [];
    assert BlockStart(ls[..1]) == 0;
    assert BlockStart(ls[..2]) == 0;
    assert ls[0..] == ls;
    var bt := BlockText(ls);
    assert bt == ["", w1, w2];
    assert bt[1..][1..] == [w2];
    assert Join(bt[1..], "\n") == w1 + "\n" + w2;
    assert Join(bt, "\n") == "" + "\n" + (w1 + "\n" + w2);
    assert "" + "\n" + (w1 + "\n" + w2) == "\n" + (w1 + "\n" + w2);
    BlockOfMeaning(ls);
    assert BlockStart(ls) == 0;
  }

  lemma {:induction false} TrimLeadingNewline(t: string)
    requires t != [] && !IsWhitespace(t[0]) && !IsWhitespace(t[|t| - 1])
    ensures TrimEnd("\n" + t) == "\n" + t && Trim("\n" + t) == t
  {
    TrimEndKeeps("\n" + t);
    TrimStartAfterWhitespace("\n", t);
    TrimStartKeeps(t);
  }

  /**
   * The source's own test input: the as-written extractor returns "\nTop doc\nmore" where the
   * test expects "Top doc\nmore", which the corrected extractor returns.
   */
  lemma {:induction false} DocCommentTestExample(source: string)
    requires source == "\n/// Top doc\n/// more\nfn foo() {}\n"
    ensures DocCommentAsWritten(source, 22) == Some("\nTop doc\nmore")
    ensures DocComment(source, 22) == Some("Top doc\nmore")
  {
    ExampleAbove(source, "\n", "/// Top doc\n", "/// more\n");
    ExampleTexts("Top doc", "more");
    BlankLineAboveDocBlock(source, 22, "Top doc", "more");
  }

  lemma {:induction false} ExampleTexts(w1: string, w2: string)
    requires w1 == "Top doc" && w2 == "more"
    ensures DocText(w1) && DocText(w2)
    ensures "/// " + w1 + "\n" == "/// Top doc\n" && "/// " + w2 + "\n" == "/// more\n"
    ensures "\n" + (w1 + "\n" + w2) == "\nTop doc\nmore" && w1 + "\n" + w2 == "Top doc\nmore"
  {
  }

  lemma {:induction false} ExampleAbove(source: string, l1: string, l2: string, l3: string)
    requires source == "\n/// Top doc\n/// more\nfn foo() {}\n"
    requires l1 == "\n" && l2 == "/// Top doc\n" && l3 == "/// more\n"
    ensures LinesAbove(source, 22) == [l1, l2, l3]
  {
    var above, rest := l1 + (l2 + l3), "fn foo() {}\n";
    ExampleSource(source, l1, l2, l3, rest);
    TakeAppend(above, rest);
    ExampleLines(l1, l2, l3);
    ThreeLinesAbove(source, 22, l1, l2, l3);
  }

  lemma {:induction false} ExampleSource(source: string, l1: string, l2: string, l3: string, rest: string)
    requires source == "\n/// Top doc\n/// more\nfn foo() {}\n"
    requires l1 == "\n" && l2 == "/// Top doc\n" && l3 == "/// more\n" && rest == "fn foo() {}\n"
    ensures source == l1 + (l2 + l3) + rest
  {
  }

  lemma {:induction false} TakeAppend(a: string, b: string)
    ensures (a + b)[..|a|] == a
  {
  }

  lemma {:induction false} ExampleLines(l1: string, l2: string, l3: string)
    requires l1 == "\n" && l2 == "/// Top doc\n" && l3 == "/// more\n"
    ensures CompleteLine(l1) && CompleteLine(l2) && CompleteLine(l3)
  {
    assert l2[..|l2| - 1] == "/// Top doc";
    assert l3[..|l3| - 1] == "/// more";
  }

  /** Three complete lines right before offset start are the lines above it. */
  lemma {:induction false} ThreeLinesAbove(source: string, start: nat, l1: string, l2: string, l3: string)
    requires start <= |source| && source[..start] == l1 + (l2 + l3)
    requires CompleteLine(l1) && CompleteLine(l2) && CompleteLine(l3)
    ensures LinesAbove(source, start) == [l1, l2, l3]
  {
    ThreeLines(l1, l2, l3);
    AppendAssoc(l1, l2, l3);
    EndsWithNewline(l1 + l2, l3);
    LinesAboveWhole(source, start, l1 + (l2 + l3), [l1, l2, l3]);
  }

  /** When the text before start ends with '\n', every one of its lines is above the node. */
  lemma {:induction false} LinesAboveWhole(source: string, start: nat, p: string, lines: seq<string>)
    requires start <= |source| && source[..start] == p
    requires SplitLines(p) == lines && EndsWith(p, "\n")
    ensures LinesAbove(source, start) == lines
  {
  }

  lemma {:induction false} ThreeLines(l1: string, l2: string, l3: string)
    requires CompleteLine(l1) && CompleteLine(l2) && CompleteLine(l3)
    ensures SplitLines(l1 + (l2 + l3)) == [l1, l2, l3]
  {
    SplitLinesCons(l3, []);
    assert l3 + [] == l3;
    SplitLinesCons(l2, l3);
    SplitLinesCons(l1, l2 + l3);
  }

  lemma {:induction false} EndsWithNewline(a: string, l: string)
    requires CompleteLine(l)
    ensures EndsWith(a + l, "\n")
  {
    var p := a + l;
    assert p[|p| - 1] == l[|l| - 1];
    assert p[|p| - 1..] == "\n";
  }

  lemma {:induction false} ReadBlankLine(raw: string)
    requires raw == "\n"
    ensures ReadLine(raw) == Line(BlankLine, "")
  {
    assert raw[..0] == [];
  }

  /** A `///` line whose text starts right after one space reads as that text. */
  lemma {:induction false} ReadDocLine(w: string, raw: string)
    requires w != [] && !IsWhitespace(w[0]) && w[0] != '/' && w[|w| - 1] != '\n'
    requires raw == "/// " + w + "\n"
    ensures ReadLine(raw) == Line(DocLine, w)
  {
    var x := "///" + (" " + w);
    DocLineText(w, raw, x);
    DocLineContent(w, x);
    ReadLineDoc(raw, x, w);
  }

  lemma {:induction false} DocLineText(w: string, raw: string, x: string)
    requires w != [] && w[|w| - 1] != '\n'
    requires raw == "/// " + w + "\n" && x == "///" + (" " + w)
    ensures LineText(raw) == x && IsLineDoc(x)
  {
    assert raw == x + "\n";
    DropNewline(x);
    TrimStartKeeps(x);
    assert x[..3] == "///";
  }

  lemma {:induction false} DocLineContent(w: string, x: string)
    requires w != [] && !IsWhitespace(w[0]) && w[0] != '/'
    requires x == "///" + (" " + w)
    ensures DocContent(x) == w
  {
    var y := " " + w;
    StripMarkers(y);
    TrimStartAfterWhitespace(" ", w);
    TrimStartKeeps(w);
  }

  lemma {:induction false} ReadLineDoc(raw: string, t: string, c: string)
    requires LineText(raw) == t && IsLineDoc(t)
    requires DocContent(t) == c
    ensures ReadLine(raw) == Line(DocLine, c)
  {
  }

  lemma {:induction false} DropNewline(x: string)
    requires x != [] && x[|x| - 1] != '\n'
    ensures TrimEndMatches(x + "\n", '\n') == x
  {
    assert (x + "\n")[..|x|] == x;
  }

  lemma {:induction false} StripMarkers(y: string)
    requires y != [] && y[0] != '/'
    ensures TrimStartMatches("///" + y, "///") == y
    ensures TrimStartMatches(y, "//!") == y
  {
    var x := "///" + y;
    assert x[..3] == "///";
    assert x[3..] == y;
  }

  /** One step of the scan: the last line decides, the ones above it are scanned afterwards. */
  lemma {:induction false} ScanSnoc(init: seq<Line>, l: Line, seen: bool, acc: seq<string>)
    ensures ScanUp(init + [l], seen, acc) ==
      if l.kind == DocLine then ScanUp(init, true, acc + [l.content])
      else if seen && l.kind == BlankLine then ScanUp(init, seen, acc + [""])
      else if !seen then Abort
      else Done(acc)
  {
    assert (init + [l])[..|init|] == init;
  }

  /** The step of the scan over the first i lines that reads line i - 1. */
  lemma {:induction false} ScanStep(lines: seq<string>, i: nat, l: Line, seen: bool, acc: seq<string>)
    requires 0 < i <= |lines| && l == ReadLine(lines[i - 1])
    ensures var ls := ReadLines(lines);
      ScanUp(ls[..i], seen, acc) ==
        if l.kind == DocLine then ScanUp(ls[..i - 1], true, acc + [l.content])
        else if seen && l.kind == BlankLine then ScanUp(ls[..i - 1], seen, acc + [""])
        else if !seen then Abort
        else Done(acc)
  {
    var ls := ReadLines(lines);
    ReadLinesAt(lines, i - 1);
    TakeSnoc(ls, i);
    ScanSnoc(ls[..i - 1], l, seen, acc);
  }

  /** The per-line test of the scan: strip the newline and the indentation, then look at the markers. */
  method ReadLineOf(raw: string) returns (l: Line)
    ensures l == ReadLine(raw)
  {
    var line := TrimEndMatches(raw, '\n');
    var trimmed := TrimStart(line);
    if StartsWith(trimmed, "///") || StartsWith(trimmed, "//!") {
      var content := TrimStart(TrimStartMatches(TrimStartMatches(trimmed, "///"), "//!"));
      assert content == DocContent(trimmed);
      l := Line(DocLine, content);
    } else if StartsWith(trimmed, "/**") || StartsWith(trimmed, "/*!") {
      l := Line(DocLine, trimmed);
    } else if trimmed == [] {
      l := Line(BlankLine, "");
    } else {
      l := Line(OtherLine, "");
    }
  }

  /** How the comment follows from the way the scan ended, under either reading. */
  lemma {:induction false} DocCommentOfScan(rules: Rules, source: string, start: nat, sc: Scan)
    requires start <= |source| && ScanUp(ReadLines(LinesAbove(source, start)), false, []) == sc
    ensures sc.Abort? ==> DocCommentBy(rules, source, start) == None
    ensures sc.Done? ==>
      (DocCommentBy(rules, source, start)
        == if sc.collectedRev == [] then None else Some(TrimBy(rules, Join(Reverse(sc.collectedRev), "\n"))))
  {
  }

  /** The loop of `leading_doc_comment_block_above`: reads the lines from the bottom up, collecting the block. */
  method ScanLinesUp(lines: seq<string>) returns (sc: Scan)
    ensures sc == ScanUp(ReadLines(lines), false, [])
  {
    ghost var ls := ReadLines(lines);
    var collectedRev: seq<string> := [];
    var seenAny := false;
    var i := |lines|;
    assert ls[..i] == ls;
    while i > 0
      invariant 0 <= i <= |lines| == |ls|
      invariant ScanUp(ls, false, []) == ScanUp(ls[..i], seenAny, collectedRev)
    {
      var l := ReadLineOf(lines[i - 1]);
      ScanStep(lines, i, l, seenAny, collectedRev);
      if l.kind == DocLine {
        collectedRev := collectedRev + [l.content];
        seenAny := true;
      } else if seenAny && l.kind == BlankLine {
        collectedRev := collectedRev + [""];
      } else if !seenAny {
        return Abort;
      } else {
        break;
      }
      i := i - 1;
    }
    return Done(collectedRev);
  }

  /**
   * `leading_doc_comment_block_above`: the upward scan over the lines before the node, with the
   * block right-trimmed as written, or trimmed at both ends when corrected.
   */
  method LeadingDocCommentBlockAbove(rules: Rules, source: string, node: Node) returns (r: Option<string>)
    requires node.start <= |source|
    ensures r == DocCommentBy(rules, source, node.start)
  {
    var lines := LinesAbove(source, node.start);
    var sc := ScanLinesUp(lines);
    DocCommentOfScan(rules, source, node.start, sc);
    if sc.Abort? || sc.collectedRev == [] {
      return None;
    }
    var collected := Reverse(sc.collectedRev);
    var block := Join(collected, "\n");
    if rules == AsWritten {
      return Some(TrimEnd(block));
    }
    return Some(Trim(block));
  }

  // ---------------------------------------------------------------- impl headers

  /** `normalize_ws`: the whitespace-separated words of s, joined with single spaces. */
  function NormalizeWs(s: string): (r: string)
    ensures SingleSpaced(r)
    ensures SplitWhitespace(r) == SplitWhitespace(s)
  {
    var words := SplitWhitespace(s);
    JoinWordsSingleSpaced(words);
    SplitJoin(words);
    Join(words, " ")
  }

  /** Collapsing whitespace a second time changes nothing. */
  lemma {:induction false} NormalizeWsIdempotent(s: string)
    ensures NormalizeWs(NormalizeWs(s)) == NormalizeWs(s)
  {
  }

  /**
   * `extract_impl_target_type`: the text between the first "impl" and the first '{' of the impl
   * node, whitespace-collapsed; None when either is missing or the '{' comes no later than the
   * end of that "impl".
   */
  function ImplTargetType(source: string, impl: Node): (r: Option<string>)
    ensures r.Some? ==> SingleSpaced(r.value)
    ensures var text := Slice(source, impl.start, impl.end);
      r.Some? <==> (Find(text, "impl").Some? && IndexOf(text, '{').Some?
        && IndexOf(text, '{').value > Find(text, "impl").value + 4)
  {
    var text := Slice(source, impl.start, impl.end);
    match Find(text, "impl")
    case None => None
    case Some(implPos) =>
      match IndexOf(text, '{')
      case None => None
      case Some(bracePos) =>
        if bracePos <= implPos + 4 then None else Some(NormalizeWs(text[implPos + 4..bracePos]))
  }

  /** An impl whose text is "impl", a gap without '{', then '{': the target is the collapsed gap. */
  lemma {:induction false} ImplTargetOfHeader(source: string, impl: Node, gap: string, body: string)
    requires impl.start <= impl.end <= |source|
    requires source[impl.start..impl.end] == "impl" + gap + "{" + body
    requires gap != [] && '{' !in gap
    ensures ImplTargetType(source, impl) == Some(NormalizeWs(gap))
  {
    var text := source[impl.start..impl.end];
    assert OccursAt(text, "impl", 0) by {
      assert text[0..4] == "impl";
    }
    assert text == ("impl" + gap) + "{" + body;
    assert '{' !in "impl" + gap;
    IndexOfAfter("impl" + gap, '{', body);
    assert text[4..4 + |gap|] == gap;
  }

  /** The impl of the source's method test, `impl A { .. }`, has target type "A". */
  lemma {:induction false} ImplTargetExample(source: string, impl: Node, body: string)
    requires impl.start <= impl.end <= |source|
    requires source[impl.start..impl.end] == "impl A {" + body
    ensures ImplTargetType(source, impl) == Some("A")
  {
    var gap := " A ";
    assert "impl A {" + body == "impl" + gap + "{" + body;
    ImplTargetOfHeader(source, impl, gap, body);
    GapA(gap);
  }

  lemma {:induction false} GapA(gap: string)
    requires gap == " A "
    ensures NormalizeWs(gap) == "A"
  {
    var w := "A";
    assert gap == " " + (w + " ");
    SplitAfterWhitespace(" ", w + " ");
    assert (w + " ")[..1] == w;
    SplitAt(w + " ", 1);
    assert (w + " ")[1..] == " ";
    SplitAfterWhitespace(" ", []);
    assert " " + [] == " ";
  }

  // ---------------------------------------------------------------- item documents

  /** The document kind of a struct, enum or trait item. */
  function NamedKind(k: string): (r: Option<DocumentKind>)
    ensures r.Some? <==> k == "struct_item" || k == "enum_item" || k == "trait_item"
    ensures r.Some? ==> r.value in {Struct, Enum, Trait}
  {
    if k == "struct_item" then Some(Struct)
    else if k == "enum_item" then Some(Enum)
    else if k == "trait_item" then Some(Trait)
    else None
  }

  /**
   * The document for an item node, named by the text of its first child of kind nameKind; there
   * is none when the node has no such child.
   */
  function ItemDocument(rules: Rules, repo: string, path: string, source: string, node: Node, kind: DocumentKind,
                        nameKind: string, parentType: Option<string>): (r: Option<Document>)
    requires Spans(node, |source|)
    ensures r.None? <==> nameKind !in Kinds(node.children)
    ensures r.Some? ==> && r.value.repo == repo && r.value.filePath == path
                        && r.value.kind == kind && r.value.parentType == parentType
                        && r.value.code == source[node.start..node.end]
                        && r.value.signature == Some(Signature(source, node))
                        && r.value.docComment == DocCommentBy(rules, source, node.start)
                        && 1 <= r.value.lineStart <= r.value.lineEnd
                        && r.value.lineStart == node.startRow + 1 && r.value.lineEnd == node.endRow + 1
  {
    match ChildText(source, node, nameKind)
    case None => None
    case Some(name) =>
      var lines := LinesOf(node);
      Some(Document(repo, path, name, kind, Some(Signature(source, node)), DocCommentBy(rules, source, node.start),
                    Slice(source, node.start, node.end), parentType, lines.0, lines.1))
  }

  /** What `extract_named_item` returns. */
  function NamedItem(rules: Rules, repo: string, path: string, source: string, node: Node): Option<Document>
    requires Spans(node, |source|)
  {
    match NamedKind(node.kind)
    case None => None
    case Some(kind) => ItemDocument(rules, repo, path, source, node, kind, "type_identifier", None)
  }

  /** What `extract_function_item` returns. */
  function FunctionItem(rules: Rules, repo: string, path: string, source: string, node: Node): Option<Document>
    requires Spans(node, |source|)
  {
    ItemDocument(rules, repo, path, source, node, Function, "identifier", None)
  }

  /** What `extract_method_item` returns: the impl's target type is the parent type. */
  function MethodItem(rules: Rules, repo: string, path: string, source: string, func: Node, impl: Node): Option<Document>
    requires Spans(func, |source|)
  {
    ItemDocument(rules, repo, path, source, func, Method, "identifier", ImplTargetType(source, impl))
  }

  /** `extract_named_item`. */
  method ExtractNamedItem(rules: Rules, repo: string, path: string, source: string, node: Node) returns (r: Option<Document>)
    requires Spans(node, |source|)
    ensures r == NamedItem(rules, repo, path, source, node)
  {
    var kind: DocumentKind;
    if node.kind == "struct_item" {
      kind := Struct;
    } else if node.kind == "enum_item" {
      kind := Enum;
    } else if node.kind == "trait_item" {
      kind := Trait;
    } else {
      return None;
    }
    r := ExtractItem(rules, repo, path, source, node, kind, "type_identifier", None);
  }

  /** `extract_function_item`. */
  method ExtractFunctionItem(rules: Rules, repo: string, path: string, source: string, node: Node) returns (r: Option<Document>)
    requires Spans(node, |source|)
    ensures r == FunctionItem(rules, repo, path, source, node)
  {
    r := ExtractItem(rules, repo, path, source, node, Function, "identifier", None);
  }

  /** `extract_method_item`. */
  method ExtractMethodItem(rules: Rules, repo: string, path: string, source: string, func: Node, impl: Node)
    returns (r: Option<Document>)
    requires Spans(func, |source|)
    ensures r == MethodItem(rules, repo, path, source, func, impl)
  {
    var parentType := ImplTargetType(source, impl);
    r := ExtractItem(rules, repo, path, source, func, Method, "identifier", parentType);
  }

  /** The steps the three extractors share: name, lines, signature, doc comment and code. */
  method ExtractItem(rules: Rules, repo: string, path: string, source: string, node: Node, kind: DocumentKind,
                     nameKind: string, parentType: Option<string>) returns (r: Option<Document>)
    requires Spans(node, |source|)
    ensures r == ItemDocument(rules, repo, path, source, node, kind, nameKind, parentType)
  {
    var name := ChildTextByKind(source, node, nameKind);
    if name.None? {
      return None;
    }
    var lines := LinesOf(node);
    var signature := ExtractItemSignature(source, node);
    var docComment := LeadingDocCommentBlockAbove(rules, source, node);
    var code := Slice(source, node.start, node.end);
    return Some(Document(repo, path, name.value, kind, signature, docComment, code, parentType, lines.0, lines.1));
  }

  // ---------------------------------------------------------------- the walk

  /** A node as the walk meets it, with its parent and grandparent (`Node::parent`). */
  datatype Visit = Visit(node: Node, parent: Option<Node>, grand: Option<Node>)

  /** The rule `parse_file` applies as written: a function's impl is its parent, if that is an `impl_item`. */
  function ParentImpl(parent: Option<Node>): (r: Option<Node>)
    ensures r.Some? <==> parent.Some? && parent.value.kind == "impl_item"
    ensures r.Some? ==> r == parent
  {
    if parent.Some? && parent.value.kind == "impl_item" then parent else None
  }

  /**
   * The impl a function item is declared in. tree-sitter-rust puts an impl's items in a
   * `declaration_list` child of the `impl_item`, so the impl is the grandparent then.
   */
  function EnclosingImpl(parent: Option<Node>, grand: Option<Node>): (r: Option<Node>)
    ensures r.Some? ==> r.value.kind == "impl_item"
    ensures r.Some? <==> (ParentImpl(parent).Some?
      || (parent.Some? && parent.value.kind == "declaration_list" && ParentImpl(grand).Some?))
  {
    if ParentImpl(parent).Some? then parent
    else if parent.Some? && parent.value.kind == "declaration_list" then ParentImpl(grand)
    else None
  }

  /** What the walk emits for one node, given the impl the classification rule found for it. */
  function VisitDocsWith(rules: Rules, repo: string, path: string, source: string, node: Node, impl: Option<Node>): seq<Document>
    requires Spans(node, |source|)
  {
    if NamedKind(node.kind).Some? then OptionToSeq(NamedItem(rules, repo, path, source, node))
    else if node.kind == "function_item" then
      if impl.Some? && HasSelfReceiver(node) then OptionToSeq(MethodItem(rules, repo, path, source, node, impl.value))
      else OptionToSeq(FunctionItem(rules, repo, path, source, node))
    else []
  }

  /** The impl a reading finds for a function item: the parent as written, the enclosing impl when corrected. */
  function ImplBy(rules: Rules, parent: Option<Node>, grand: Option<Node>): Option<Node> {
    if rules == AsWritten then ParentImpl(parent) else EnclosingImpl(parent, grand)
  }

  /** What the walk emits for one node under a reading. */
  function VisitDocs(rules: Rules, repo: string, path: string, source: string, v: Visit): seq<Document>
    requires Spans(v.node, |source|)
  {
    VisitDocsWith(rules, repo, path, source, v.node, ImplBy(rules, v.parent, v.grand))
  }

  /** The documents of the tree rooted at n in pre-order: the node's own, then each child's tree in order. */
  function TreeDocs(rules: Rules, repo: string, path: string, source: string, n: Node, parent: Option<Node>, grand: Option<Node>)
    : seq<Document>
    requires WellFormed(n, |source|)
    decreases n, 1
  {
    VisitDocs(rules, repo, path, source, Visit(n, parent, grand)) + ForestDocs(rules, repo, path, source, n.children, Some(n), parent)
  }

  function ForestDocs(rules: Rules, repo: string, path: string, source: string, ns: seq<Node>, parent: Option<Node>,
                      grand: Option<Node>): seq<Document>
    requires forall i :: 0 <= i < |ns| ==> WellFormed(ns[i], |source|)
    decreases ns, 0
  {
    if ns == [] then []
    else TreeDocs(rules, repo, path, source, ns[0], parent, grand) + ForestDocs(rules, repo, path, source, ns[1..], parent, grand)
  }

  /** What `parse_file` returns for a parsed tree: the optional filename document, then the tree's documents. */
  function FileDocuments(rules: Rules, repo: string, path: string, source: string, includeFilenameDoc: bool, root: Node)
    : seq<Document>
    requires WellFormed(root, |source|)
  {
    (if includeFilenameDoc then [FilenameDocument(repo, path, source)] else [])
      + TreeDocs(rules, repo, path, source, root, None, None)
  }

  predicate StackWellFormed(stack: seq<Visit>, len: nat) {
    forall k :: 0 <= k < |stack| ==> WellFormed(stack[k].node, len)
  }

  /** The documents still to come from the stack: the top's tree first, then the rest's. */
  function StackDocs(rules: Rules, repo: string, path: string, source: string, stack: seq<Visit>): seq<Document>
    requires StackWellFormed(stack, |source|)
  {
    if stack == [] then []
    else
      var v := stack[|stack| - 1];
      TreeDocs(rules, repo, path, source, v.node, v.parent, v.grand) + StackDocs(rules, repo, path, source, stack[..|stack| - 1])
  }

  /** The number of nodes still to visit. */
  function StackSize(stack: seq<Visit>): nat {
    if stack == [] then 0 else Size(stack[|stack| - 1].node) + StackSize(stack[..|stack| - 1])
  }

  /** Popping the top leaves its tree's documents and nodes to the rest of the stack. */
  lemma {:induction false} StackPop(rules: Rules, repo: string, path: string, source: string, stack: seq<Visit>)
    requires stack != [] && StackWellFormed(stack, |source|)
    ensures var v, rest := stack[|stack| - 1], stack[..|stack| - 1];
      && StackWellFormed(rest, |source|) && WellFormed(v.node, |source|)
      && StackDocs(rules, repo, path, source, stack)
        == TreeDocs(rules, repo, path, source, v.node, v.parent, v.grand) + StackDocs(rules, repo, path, source, rest)
      && StackSize(stack) == Size(v.node) + StackSize(rest)
  {
  }

  /** Pushing child i - 1 after children i.. keeps the stack standing for children i - 1.. and then the rest. */
  lemma {:induction false} PushChild(rules: Rules, repo: string, path: string, source: string, v: Visit, i: nat, stack: seq<Visit>, rest: seq<Visit>)
    requires WellFormed(v.node, |source|) && 0 < i <= |v.node.children|
    requires StackWellFormed(stack, |source|) && StackWellFormed(rest, |source|)
    requires StackDocs(rules, repo, path, source, stack)
      == ForestDocs(rules, repo, path, source, v.node.children[i..], Some(v.node), v.parent) + StackDocs(rules, repo, path, source, rest)
    requires StackSize(stack) == SizeList(v.node.children[i..]) + StackSize(rest)
    ensures var c := Visit(v.node.children[i - 1], Some(v.node), v.parent);
      && StackWellFormed(stack + [c], |source|)
      && StackDocs(rules, repo, path, source, stack + [c])
        == ForestDocs(rules, repo, path, source, v.node.children[i - 1..], Some(v.node), v.parent)
          + StackDocs(rules, repo, path, source, rest)
      && StackSize(stack + [c]) == SizeList(v.node.children[i - 1..]) + StackSize(rest)
  {
    var n := v.node;
    var c := Visit(n.children[i - 1], Some(n), v.parent);
    var s := stack + [c];
    assert s[..|s| - 1] == stack && s[|s| - 1] == c;
    assert forall k :: 0 <= k < |s| ==> s[k] == if k < |stack| then stack[k] else c;
    assert n.children[i - 1..][1..] == n.children[i..];
    AppendAssoc(TreeDocs(rules, repo, path, source, c.node, c.parent, c.grand),
                ForestDocs(rules, repo, path, source, n.children[i..], Some(n), v.parent),
                StackDocs(rules, repo, path, source, rest));
  }

  /** The `match node.kind()` in the loop of `parse_file`: what one visited node contributes. */
  method VisitNode(rules: Rules, repo: string, path: string, source: string, v: Visit) returns (docs: seq<Document>)
    requires Spans(v.node, |source|)
    ensures docs == VisitDocs(rules, repo, path, source, v)
  {
    var node := v.node;
    if node.kind == "struct_item" || node.kind == "enum_item" || node.kind == "trait_item" {
      var doc := ExtractNamedItem(rules, repo, path, source, node);
      return OptionToSeq(doc);
    } else if node.kind == "function_item" {
      var impl := ImplBy(rules, v.parent, v.grand);
      var isMethod := false;
      if impl.Some? {
        isMethod := HasSelfParameter(node);
      }
      if isMethod {
        var doc := ExtractMethodItem(rules, repo, path, source, node, impl.value);
        return OptionToSeq(doc);
      } else {
        var doc := ExtractFunctionItem(rules, repo, path, source, node);
        return OptionToSeq(doc);
      }
    }
    return [];
  }

  /**
   * `parse_file` over the tree the parser produced (None when parsing failed): the filename
   * document if asked for, then the documents of the walk.
   */
  method ParseFile(rules: Rules, repo: string, path: string, source: string, includeFilenameDoc: bool, tree: Option<Node>)
    returns (r: Result<seq<Document>, ParserError>)
    requires tree.Some? ==> WellFormed(tree.value, |source|)
    ensures tree.None? ==> r == Err(ParseFailed)
    ensures tree.Some? ==> r == Ok(FileDocuments(rules, repo, path, source, includeFilenameDoc, tree.value))
  {
    if tree.None? {
      return Err(ParseFailed);
    }
    var out: seq<Document> := [];
    if includeFilenameDoc {
      var fileDoc := FilenameDocument(repo, path, source);
      out := [fileDoc];
    }
    var docs := Walk(rules, repo, path, source, tree.value);
    return Ok(out + docs);
  }

  /**
   * The loop of `parse_file`: a stack-based depth-first walk that pushes each node's children in
   * reverse, so that they are popped, and their documents emitted, in source order.
   */
  method Walk(rules: Rules, repo: string, path: string, source: string, root: Node) returns (out: seq<Document>)
    requires WellFormed(root, |source|)
    ensures out == TreeDocs(rules, repo, path, source, root, None, None)
  {
    ghost var expected := TreeDocs(rules, repo, path, source, root, None, None);
    out := [];
    var stack := [Visit(root, None, None)];
    assert stack[..0] == [];
    assert StackDocs(rules, repo, path, source, stack) == expected + [];
    while stack != []
      invariant StackWellFormed(stack, |source|)
      invariant out + StackDocs(rules, repo, path, source, stack) == expected
      decreases StackSize(stack)
    {
      StackPop(rules, repo, path, source, stack);
      var v := stack[|stack| - 1];
      var rest := stack[..|stack| - 1];
      stack := PushChildren(rules, repo, path, source, v, rest);
      var docs := VisitNode(rules, repo, path, source, v);
      WalkStep(out, docs, TreeDocs(rules, repo, path, source, v.node, v.parent, v.grand),
               ForestDocs(rules, repo, path, source, v.node.children, Some(v.node), v.parent),
               StackDocs(rules, repo, path, source, rest));
      out := out + docs;
    }
    assert out + [] == out;
  }

  /** The inner loop of the walk: pushes the children of v's node, last child first. */
  method PushChildren(rules: Rules, repo: string, path: string, source: string, v: Visit, rest: seq<Visit>)
    returns (stack: seq<Visit>)
    requires WellFormed(v.node, |source|) && StackWellFormed(rest, |source|)
    ensures StackWellFormed(stack, |source|)
    ensures StackDocs(rules, repo, path, source, stack)
      == ForestDocs(rules, repo, path, source, v.node.children, Some(v.node), v.parent) + StackDocs(rules, repo, path, source, rest)
    ensures StackSize(stack) == SizeList(v.node.children) + StackSize(rest)
  {
    stack := rest;
    var i := |v.node.children|;
    assert v.node.children[i..] == [];
    assert StackDocs(rules, repo, path, source, stack) == [] + StackDocs(rules, repo, path, source, rest);
    while i > 0
      invariant 0 <= i <= |v.node.children|
      invariant StackWellFormed(stack, |source|)
      invariant StackDocs(rules, repo, path, source, stack)
        == ForestDocs(rules, repo, path, source, v.node.children[i..], Some(v.node), v.parent)
          + StackDocs(rules, repo, path, source, rest)
      invariant StackSize(stack) == SizeList(v.node.children[i..]) + StackSize(rest)
    {
      PushChild(rules, repo, path, source, v, i, stack, rest);
      stack := stack + [Visit(v.node.children[i - 1], Some(v.node), v.parent)];
      i := i - 1;
    }
    assert v.node.children[0..] == v.node.children;
  }

  /** The bookkeeping of one pass of the walk: the popped node's documents move from the stack to the output. */
  lemma {:induction false} WalkStep<T>(out: seq<T>, docs: seq<T>, tree: seq<T>, forest: seq<T>, rest: seq<T>)
    requires tree == docs + forest
    ensures out + (tree + rest) == (out + docs) + (forest + rest)
  {
  }

  // ---------------------------------------------------------------- what the walk emits

  /** A document extracted from an item node of the file at repo/path. */
  predicate IsItemDocument(d: Document, repo: string, path: string) {
    && d.repo == repo && d.filePath == path && d.kind != Filename
    && d.signature.Some? && 1 <= d.lineStart <= d.lineEnd
  }

  predicate AllItemDocuments(ds: seq<Document>, repo: string, path: string) {
    forall i :: 0 <= i < |ds| ==> IsItemDocument(ds[i], repo, path)
  }

  lemma {:induction false} AllItemDocumentsAppend(a: seq<Document>, b: seq<Document>, repo: string, path: string)
    requires AllItemDocuments(a, repo, path) && AllItemDocuments(b, repo, path)
    ensures AllItemDocuments(a + b, repo, path)
  {
    assert forall i :: 0 <= i < |a + b| ==> (a + b)[i] == if i < |a| then a[i] else b[i - |a|];
  }

  /** One node yields at most one document, and it is an item document. */
  lemma {:induction false} VisitDocsAreItems(rules: Rules, repo: string, path: string, source: string, node: Node, impl: Option<Node>)
    requires Spans(node, |source|)
    ensures var ds := VisitDocsWith(rules, repo, path, source, node, impl);
      |ds| <= 1 && AllItemDocuments(ds, repo, path)
  {
    var ds := VisitDocsWith(rules, repo, path, source, node, impl);
    if NamedKind(node.kind).Some? {
      NamedItemClassified(rules, repo, path, source, node, impl);
      assert ds == OptionToSeq(ItemDocument(rules, repo, path, source, node, NamedKind(node.kind).value, "type_identifier", None));
    } else if node.kind == "function_item" {
      FunctionItemClassified(rules, repo, path, source, node, impl);
      if impl.Some? && HasSelfReceiver(node) {
        assert ds == OptionToSeq(MethodItem(rules, repo, path, source, node, impl.value));
      } else {
        assert ds == OptionToSeq(FunctionItem(rules, repo, path, source, node));
      }
    } else {
      OtherNodesIgnored(rules, repo, path, source, node, impl);
    }
  }

  /** Every document of a tree comes from one of its item nodes: none is a filename document. */
  lemma {:induction false} TreeDocsAreItems(rules: Rules, repo: string, path: string, source: string, n: Node,
                                           parent: Option<Node>, grand: Option<Node>)
    requires WellFormed(n, |source|)
    ensures AllItemDocuments(TreeDocs(rules, repo, path, source, n, parent, grand), repo, path)
    decreases n, 1
  {
    VisitDocsAreItems(rules, repo, path, source, n, ImplBy(rules, parent, grand));
    ForestDocsAreItems(rules, repo, path, source, n.children, Some(n), parent);
    AllItemDocumentsAppend(VisitDocs(rules, repo, path, source, Visit(n, parent, grand)),
                           ForestDocs(rules, repo, path, source, n.children, Some(n), parent), repo, path);
  }

  lemma {:induction false} ForestDocsAreItems(rules: Rules, repo: string, path: string, source: string, ns: seq<Node>,
                                             parent: Option<Node>, grand: Option<Node>)
    requires forall i :: 0 <= i < |ns| ==> WellFormed(ns[i], |source|)
    ensures AllItemDocuments(ForestDocs(rules, repo, path, source, ns, parent, grand), repo, path)
    decreases ns, 0
  {
    if ns != [] {
      TreeDocsAreItems(rules, repo, path, source, ns[0], parent, grand);
      ForestDocsAreItems(rules, repo, path, source, ns[1..], parent, grand);
      AllItemDocumentsAppend(TreeDocs(rules, repo, path, source, ns[0], parent, grand),
                             ForestDocs(rules, repo, path, source, ns[1..], parent, grand), repo, path);
    }
  }

  /**
   * With the filename document asked for, it comes first and is the only one of its kind;
   * without, there is none.
   */
  lemma {:induction false} FileDocumentsFilenameFirst(rules: Rules, repo: string, path: string, source: string, includeFilenameDoc: bool, root: Node)
    requires WellFormed(root, |source|)
    ensures var ds := FileDocuments(rules, repo, path, source, includeFilenameDoc, root);
      && (includeFilenameDoc ==> ds != [] && ds[0] == FilenameDocument(repo, path, source))
      && (forall i :: 0 <= i < |ds| ==> (ds[i].kind == Filename <==> includeFilenameDoc && i == 0))
  {
    var t := TreeDocs(rules, repo, path, source, root, None, None);
    TreeDocsAreItems(rules, repo, path, source, root, None, None);
    if includeFilenameDoc {
      FilenameThenItems(FilenameDocument(repo, path, source), t, repo, path);
    } else {
      assert [] + t == t;
    }
  }

  lemma {:induction false} FilenameThenItems(f: Document, t: seq<Document>, repo: string, path: string)
    requires f.kind == Filename && AllItemDocuments(t, repo, path)
    ensures forall i :: 0 <= i < |[f] + t| ==> (([f] + t)[i].kind == Filename <==> i == 0)
  {
    forall i | 0 <= i < |[f] + t|
      ensures ([f] + t)[i].kind == Filename <==> i == 0
    {
      if i > 0 {
        assert ([f] + t)[i] == t[i - 1];
        assert IsItemDocument(t[i - 1], repo, path);
      }
    }
  }

  /**
   * A function item is a method exactly when the impl rule finds an impl and one of its
   * `parameters` holds a `self_parameter`; a method's parent type is that impl's target type,
   * a free function has none. Without an `identifier` child it yields nothing.
   */
  lemma {:induction false} FunctionItemClassified(rules: Rules, repo: string, path: string, source: string, node: Node, impl: Option<Node>)
    requires Spans(node, |source|) && node.kind == "function_item"
    ensures var ds := VisitDocsWith(rules, repo, path, source, node, impl);
      && (ds == [] <==> "identifier" !in Kinds(node.children))
      && (ds != [] ==> (ds[0].kind == Method <==> impl.Some? && HasSelfReceiver(node)))
      && (ds != [] && ds[0].kind == Method ==> ds[0].parentType == ImplTargetType(source, impl.value))
      && (ds != [] && ds[0].kind != Method ==> ds[0].kind == Function && ds[0].parentType.None?)
  {
    assert NamedKind(node.kind).None?;
  }

  /** A struct, enum or trait item without a `type_identifier` child yields nothing; with one, a document of its kind. */
  lemma {:induction false} NamedItemClassified(rules: Rules, repo: string, path: string, source: string, node: Node, impl: Option<Node>)
    requires Spans(node, |source|) && NamedKind(node.kind).Some?
    ensures var ds := VisitDocsWith(rules, repo, path, source, node, impl);
      && (ds == [] <==> "type_identifier" !in Kinds(node.children))
      && (ds != [] ==> ds[0].kind == NamedKind(node.kind).value && ds[0].parentType.None?)
  {
  }

  /** Nodes of any other kind yield nothing. */
  lemma {:induction false} OtherNodesIgnored(rules: Rules, repo: string, path: string, source: string, node: Node, impl: Option<Node>)
    requires Spans(node, |source|) && NamedKind(node.kind).None? && node.kind != "function_item"
    ensures VisitDocsWith(rules, repo, path, source, node, impl) == []
  {
  }

  /**
   * A method the way tree-sitter-rust nests it (function item in a `declaration_list` in an
   * `impl_item`): as written it is emitted as a free function without parent type; the
   * corrected rule emits a method whose parent type is the impl's target type.
   */
  lemma {:induction false} MethodInDeclarationList(repo: string, path: string, source: string, func: Node, decl: Node, impl: Node)
    requires Spans(func, |source|) && func.kind == "function_item"
    requires decl.kind == "declaration_list" && impl.kind == "impl_item"
    requires HasSelfReceiver(func) && "identifier" in Kinds(func.children)
    ensures var v := Visit(func, Some(decl), Some(impl));
      && |VisitDocs(AsWritten, repo, path, source, v)| == 1
      && VisitDocs(AsWritten, repo, path, source, v)[0].kind == Function
      && VisitDocs(AsWritten, repo, path, source, v)[0].parentType == None
      && |VisitDocs(Corrected, repo, path, source, v)| == 1
      && VisitDocs(Corrected, repo, path, source, v)[0].kind == Method
      && VisitDocs(Corrected, repo, path, source, v)[0].parentType == ImplTargetType(source, impl)
  {
    FunctionItemClassified(AsWritten, repo, path, source, func, ParentImpl(Some(decl)));
    FunctionItemClassified(Corrected, repo, path, source, func, EnclosingImpl(Some(decl), Some(impl)));
  }
}
