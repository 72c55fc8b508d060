/**
 * The concrete syntax tree a tree-sitter grammar produces, reduced to what the document
 * extractor reads: each node's kind, the source range it covers (start inclusive, end
 * exclusive), its first and last rows, and its children in source order.
 */
module SyntaxTree {

  datatype Node = Node(kind: string, start: nat, end: nat, startRow: nat, endRow: nat, children: seq<Node>)

  /** The node's own range lies within the source and contains each child's range. */
  predicate Spans(n: Node, len: nat) {
    && n.start <= n.end <= len
    && n.startRow <= n.endRow
    && forall i :: 0 <= i < |n.children| ==> n.start <= n.children[i].start <= n.children[i].end <= n.end
  }

  /** `Spans` at every node: the shape tree-sitter guarantees for a tree over a source of length len. */
  predicate WellFormed(n: Node, len: nat)
    decreases n
  {
    Spans(n, len) && forall i :: 0 <= i < |n.children| ==> WellFormed(n.children[i], len)
  }

  /** Whether n or one of its descendants has the given kind. */
  predicate ContainsKind(n: Node, kind: string)
    decreases n
  {
    n.kind == kind || exists i :: 0 <= i < |n.children| && ContainsKind(n.children[i], kind)
  }

  /** Whether some node in ns contains a node of the given kind. */
  predicate AnyContains(ns: seq<Node>, kind: string) {
    exists i :: 0 <= i < |ns| && ContainsKind(ns[i], kind)
  }

  lemma {:induction false} AnyContainsAppend(a: seq<Node>, b: seq<Node>, kind: string)
    ensures AnyContains(a + b, kind) <==> AnyContains(a, kind) || AnyContains(b, kind)
  {
    if AnyContains(a + b, kind) {
      var i :| 0 <= i < |a + b| && ContainsKind((a + b)[i], kind);
      if i >= |a| {
        assert b[i - |a|] == (a + b)[i];
      } else {
        assert a[i] == (a + b)[i];
      }
    }
    if AnyContains(a, kind) {
      var i :| 0 <= i < |a| && ContainsKind(a[i], kind);
      assert (a + b)[i] == a[i];
      assert ContainsKind((a + b)[i], kind);
    }
    if AnyContains(b, kind) {
      var i :| 0 <= i < |b| && ContainsKind(b[i], kind);
      assert (a + b)[|a| + i] == b[i];
      assert ContainsKind((a + b)[|a| + i], kind);
    }
  }

  /** The number of nodes in the tree rooted at n. */
  function Size(n: Node): (s: nat)
    ensures s >= 1
    decreases n, 1
  {
    1 + SizeList(n.children)
  }

  /** The number of nodes in the trees rooted at ns. */
  function SizeList(ns: seq<Node>): nat
    decreases ns, 0
  {
    if ns == [] then 0 else Size(ns[0]) + SizeList(ns[1..])
  }

  lemma {:induction false} SizeListAppend(a: seq<Node>, b: seq<Node>)
    ensures SizeList(a + b) == SizeList(a) + SizeList(b)
  {
    if a == [] {
      assert a + b == b;
    } else {
      assert (a + b)[0] == a[0];
      assert (a + b)[1..] == a[1..] + b;
      SizeListAppend(a[1..], b);
    }
  }

  /** The kinds of the nodes in ns, in order. */
  function Kinds(ns: seq<Node>): (ks: seq<string>)
    ensures |ks| == |ns| && forall i :: 0 <= i < |ns| ==> ks[i] == ns[i].kind
  {
    seq(|ns|, i requires 0 <= i < |ns| => ns[i].kind)
  }
}
