/**
 * The client of an OpenAI-compatible embeddings endpoint: the request it sends, the way a
 * reply is turned into data or an error, and the post-processing that puts the returned
 * vectors back into input order and checks their dimension. The endpoint itself is a
 * parameter: a total function from the URL and request to the reply it produces.
 */
module EmbedderClient {
  import opened Wrappers

  /** A vector component (an `f32`); components are carried, never computed on. */
  type Component = real

  type Vector = seq<Component>

  /** `DEFAULT_EMBED_BASE_URL`. */
  const DefaultBaseUrl := "http://localhost:1234/v1"

  /** `DEFAULT_TIMEOUT_SECS`, the request timeout the client is built with. */
  const DefaultTimeoutSecs: nat := 60

  /** `EmbedderClient` without its HTTP handle. */
  datatype Client = Client(baseUrl: string, model: string, expectedDim: Option<nat>)

  /** `EmbedError`; a status carries its numeric code. No step of the client produces `Serde`. */
  datatype EmbedError =
    | Http
    | Status(status: nat, body: string)
    | EmptyResponse
    | CountMismatch(sent: nat, got: nat)
    | DimMismatch(expected: nat, got: nat)
    | Serde

  /** `EmbeddingsRequest` with its input given as an array. */
  datatype Request = Request(model: string, input: seq<string>)

  /** `EmbeddingDatum`: a missing index is None, a missing embedding the empty vector. */
  datatype Datum = Datum(index: Option<nat>, embedding: Vector)

  /**
   * What a POST produced: no response at all (connection, timeout, body read), or a status
   * with its body text and, if the body parsed as an `EmbeddingsResponse`, its data.
   */
  datatype Reply =
    | NoResponse
    | Response(status: nat, body: string, parsed: Option<seq<Datum>>)

  /** The embeddings endpoint, seen from the client. */
  type Server = (string, Request) -> Reply

  /** `EmbedderClient::new`. */
  function NewClient(model: string, expectedDim: Option<nat>): (c: Client)
    ensures c.baseUrl == DefaultBaseUrl && c.model == model && c.expectedDim == expectedDim
  {
    Client(DefaultBaseUrl, model, expectedDim)
  }

  /** `embeddings_url`: the base URL followed by "/embeddings". */
  function EmbeddingsUrl(c: Client): (url: string)
    ensures |url| == |c.baseUrl| + 11 && url[..|c.baseUrl|] == c.baseUrl && url[|c.baseUrl|..] == "/embeddings"
  {
    c.baseUrl + "/embeddings"
  }

  /** A new client posts to "http://localhost:1234/v1/embeddings". */
  lemma {:induction false} DefaultEmbeddingsUrl(model: string, expectedDim: Option<nat>)
    ensures EmbeddingsUrl(NewClient(model, expectedDim)) == "http://localhost:1234/v1/embeddings"
  {
  }

  /** `StatusCode::is_success`. */
  predicate IsSuccess(status: nat) {
    200 <= status < 300
  }

  /**
   * `embed_texts_raw` after the request: a non-2xx status is `Status` with the body, empty data
   * is `EmptyResponse`, and both a failed request and a 2xx body that does not deserialize are
   * `Http`, since `resp.json()` reports the latter as a `reqwest::Error`.
   */
  function RawData(reply: Reply): (r: Result<seq<Datum>, EmbedError>)
    ensures r.Ok? <==> reply.Response? && IsSuccess(reply.status) && reply.parsed.Some? && reply.parsed.value != []
    ensures r.Ok? ==> r.value == reply.parsed.value
    ensures r == Err(Http) <==> reply.NoResponse? || (IsSuccess(reply.status) && reply.parsed.None?)
    ensures r.Err? && r.error.Status? <==> reply.Response? && !IsSuccess(reply.status)
    ensures r.Err? && r.error.Status? ==> r.error == Status(reply.status, reply.body)
    ensures r == Err(EmptyResponse) <==> reply.Response? && IsSuccess(reply.status) && reply.parsed == Some([])
  {
    match reply
    case NoResponse => Err(Http)
    case Response(status, body, parsed) =>
      if !IsSuccess(status) then Err(Status(status, body))
      else if parsed.None? then Err(Http)
      else if parsed.value == [] then Err(EmptyResponse)
      else Ok(parsed.value)
  }

  /** The single request `embed_texts_raw` sends for texts. */
  function Post(c: Client, server: Server, texts: seq<string>): Reply {
    server(EmbeddingsUrl(c), Request(c.model, texts))
  }

  // ---------------------------------------------------------------- restoring input order

  /** A datum as the pair sorted on: its index, 0 when missing, and its vector. */
  datatype Pair = Pair(index: nat, embedding: Vector)

  function PairsOf(data: seq<Datum>): (ps: seq<Pair>)
    ensures |ps| == |data|
    ensures forall i :: 0 <= i < |data| ==> ps[i] == Pair(data[i].index.GetOr(0), data[i].embedding)
  {
    seq(|data|, i requires 0 <= i < |data| => Pair(data[i].index.GetOr(0), data[i].embedding))
  }

  predicate SortedByIndex(ps: seq<Pair>) {
    forall i, j :: 0 <= i < j < |ps| ==> ps[i].index <= ps[j].index
  }

  /** x placed before the first pair whose index is not smaller. */
  function InsertByIndex(x: Pair, ps: seq<Pair>): (r: seq<Pair>)
    ensures multiset(r) == multiset{x} + multiset(ps)
  {
    if ps == [] || x.index <= ps[0].index then [x] + ps
    else
      assert ps == [ps[0]] + ps[1..];
      [ps[0]] + InsertByIndex(x, ps[1..])
  }

  /** `sort_by_key` on the index, a stable sort (see `SortSorted` and `SortStable`). */
  function SortByIndex(ps: seq<Pair>): (r: seq<Pair>)
    ensures multiset(r) == multiset(ps)
  {
    if ps == [] then []
    else
      assert ps == [ps[0]] + ps[1..];
      InsertByIndex(ps[0], SortByIndex(ps[1..]))
  }

  lemma {:induction false} SortLength(ps: seq<Pair>)
    ensures |SortByIndex(ps)| == |ps|
  {
    assert |multiset(SortByIndex(ps))| == |multiset(ps)|;
  }

  /** The first pair after an insertion is x or the old first pair. */
  lemma {:induction false} InsertHead(x: Pair, ps: seq<Pair>)
    ensures InsertByIndex(x, ps) != []
    ensures InsertByIndex(x, ps)[0] == x || (ps != [] && InsertByIndex(x, ps)[0] == ps[0])
  {
  }

  lemma {:induction false} InsertSorted(x: Pair, ps: seq<Pair>)
    requires SortedByIndex(ps)
    ensures SortedByIndex(InsertByIndex(x, ps))
  {
    if ps != [] && x.index > ps[0].index {
      InsertSorted(x, ps[1..]);
      var t := InsertByIndex(x, ps[1..]);
      InsertHead(x, ps[1..]);
      assert ps[0].index <= t[0].index;
      var r := [ps[0]] + t;
      assert forall j :: 1 <= j < |r| ==> r[j] == t[j - 1];
    }
  }

  /** The sorted pairs are in ascending index order. */
  lemma {:induction false} SortSorted(ps: seq<Pair>)
    ensures SortedByIndex(SortByIndex(ps))
  {
    if ps != [] {
      SortSorted(ps[1..]);
      InsertSorted(ps[0], SortByIndex(ps[1..]));
    }
  }

  /** The pairs carrying index k, in their order. */
  function WithIndex(ps: seq<Pair>, k: nat): seq<Pair> {
    if ps == [] then []
    else (if ps[0].index == k then [ps[0]] else []) + WithIndex(ps[1..], k)
  }

  lemma {:induction false} InsertWithIndex(x: Pair, ps: seq<Pair>, k: nat)
    ensures WithIndex(InsertByIndex(x, ps), k) == (if x.index == k then [x] else []) + WithIndex(ps, k)
  {
    if ps == [] || x.index <= ps[0].index {
      assert ([x] + ps)[1..] == ps;
    } else {
      InsertWithIndex(x, ps[1..], k);
      assert ([ps[0]] + InsertByIndex(x, ps[1..]))[1..] == InsertByIndex(x, ps[1..]);
    }
  }

  /** Stability: for every index, the pairs carrying it keep their relative order. */
  lemma {:induction false} SortStable(ps: seq<Pair>, k: nat)
    ensures WithIndex(SortByIndex(ps), k) == WithIndex(ps, k)
  {
    if ps != [] {
      SortStable(ps[1..], k);
      InsertWithIndex(ps[0], SortByIndex(ps[1..]), k);
    }
  }

  /** The indices are 0..n-1 in some order, each once. */
  predicate IndicesPermute(ps: seq<Pair>) {
    && (forall i :: 0 <= i < |ps| ==> ps[i].index < |ps|)
    && (forall i, j :: 0 <= i < j < |ps| ==> ps[i].index != ps[j].index)
  }

  predicate StrictlyIncreasing(ps: seq<Pair>) {
    forall i, j :: 0 <= i < j < |ps| ==> ps[i].index < ps[j].index
  }

  lemma {:induction false} InsertStrict(x: Pair, ps: seq<Pair>)
    requires StrictlyIncreasing(ps) && forall i :: 0 <= i < |ps| ==> ps[i].index != x.index
    ensures StrictlyIncreasing(InsertByIndex(x, ps))
  {
    if ps != [] && x.index > ps[0].index {
      var rest := ps[1..];
      assert forall i :: 0 <= i < |rest| ==> rest[i] == ps[i + 1];
      InsertStrict(x, rest);
      var t := InsertByIndex(x, rest);
      InsertHead(x, rest);
      assert ps[0].index < t[0].index;
      var r := [ps[0]] + t;
      assert forall j :: 1 <= j < |r| ==> r[j] == t[j - 1];
    }
  }

  lemma {:induction false} SortStrict(ps: seq<Pair>)
    requires forall i, j :: 0 <= i < j < |ps| ==> ps[i].index != ps[j].index
    ensures StrictlyIncreasing(SortByIndex(ps))
  {
    if ps != [] {
      var rest := ps[1..];
      assert forall i, j :: 0 <= i < j < |rest| ==> rest[i].index != rest[j].index by {
        assert forall i :: 0 <= i < |rest| ==> rest[i] == ps[i + 1];
      }
      SortStrict(rest);
      var t := SortByIndex(rest);
      forall i | 0 <= i < |t|
        ensures t[i].index != ps[0].index
      {
        assert t[i] in multiset(rest);
        var a :| 0 <= a < |rest| && rest[a] == t[i];
        assert rest[a] == ps[a + 1];
      }
      InsertStrict(ps[0], t);
    }
  }

  lemma {:induction false} GapGrows(s: seq<Pair>, i: nat, j: nat)
    requires StrictlyIncreasing(s) && i <= j < |s|
    ensures s[j].index >= s[i].index + (j - i)
    decreases j - i
  {
    if i < j {
      GapGrows(s, i + 1, j);
    }
  }

  /** n strictly increasing indices below n are exactly 0, 1, ..., n-1. */
  lemma {:induction false} StrictBelowLength(s: seq<Pair>)
    requires StrictlyIncreasing(s) && forall i :: 0 <= i < |s| ==> s[i].index < |s|
    ensures forall i :: 0 <= i < |s| ==> s[i].index == i
  {
    forall i | 0 <= i < |s|
      ensures s[i].index == i
    {
      GapGrows(s, 0, i);
      GapGrows(s, i, |s| - 1);
    }
  }

  /**
   * When the indices are a permutation of 0..n-1, sorting puts the pair tagged k at
   * position k.
   */
  lemma {:induction false} SortRestoresOrder(ps: seq<Pair>)
    requires IndicesPermute(ps)
    ensures |SortByIndex(ps)| == |ps|
    ensures forall j :: 0 <= j < |ps| ==> SortByIndex(ps)[ps[j].index] == ps[j]
  {
    var s := SortByIndex(ps);
    SortLength(ps);
    SortStrict(ps);
    forall i | 0 <= i < |s|
      ensures s[i].index < |s| && s[i] in ps
    {
      assert s[i] in multiset(ps);
    }
    StrictBelowLength(s);
    forall j | 0 <= j < |ps|
      ensures s[ps[j].index] == ps[j]
    {
      var k := ps[j].index;
      assert s[k] in ps;
      var a :| 0 <= a < |ps| && ps[a] == s[k];
      assert a == j;
    }
  }

  // ---------------------------------------------------------------- embed_texts and embed_text

  function Embeddings(ps: seq<Pair>): (vs: seq<Vector>)
    ensures |vs| == |ps| && forall i :: 0 <= i < |ps| ==> vs[i] == ps[i].embedding
  {
    seq(|ps|, i requires 0 <= i < |ps| => ps[i].embedding)
  }

  /** The first vector whose length is not d. */
  function FirstWrongDim(vs: seq<Vector>, d: nat): (r: Option<nat>)
    ensures r.Some? ==> r.value < |vs| && |vs[r.value]| != d
    ensures r.Some? ==> forall j :: 0 <= j < r.value ==> |vs[j]| == d
    ensures r.None? ==> forall j :: 0 <= j < |vs| ==> |vs[j]| == d
  {
    if vs == [] then None
    else if |vs[0]| != d then Some(0)
    else
      match FirstWrongDim(vs[1..], d)
      case None => None
      case Some(k) => Some(k + 1)
  }

  /** The dimension check over vectors in index order: the first of the wrong length is an error. */
  function DimChecked(expectedDim: Option<nat>, vs: seq<Vector>): (r: Result<seq<Vector>, EmbedError>)
    ensures r.Ok? ==> r.value == vs
  {
    if expectedDim.None? then Ok(vs)
    else
      match FirstWrongDim(vs, expectedDim.value)
      case Some(k) => Err(DimMismatch(expectedDim.value, |vs[k]|))
      case None => Ok(vs)
  }

  /**
   * What `embed_texts` returns: nothing to embed is `Ok([])`; otherwise the data of the one
   * request, which must hold one datum per text, sorted by index and dimension-checked.
   */
  function EmbedTextsResult(c: Client, texts: seq<string>, reply: Reply): Result<seq<Vector>, EmbedError> {
    if |texts| == 0 then Ok([])
    else
      match RawData(reply)
      case Err(e) => Err(e)
      case Ok(data) =>
        if |data| != |texts| then Err(CountMismatch(|texts|, |data|))
        else DimChecked(c.expectedDim, Embeddings(SortByIndex(PairsOf(data))))
  }

  /** `embed_texts`: one request, then the count check, the sort and the dimension loop. */
  method EmbedTexts(c: Client, server: Server, texts: seq<string>) returns (r: Result<seq<Vector>, EmbedError>)
    ensures r == EmbedTextsResult(c, texts, Post(c, server, texts))
  {
    var n := |texts|;
    if n == 0 {
      return Ok([]);
    }
    var raw := RawData(Post(c, server, texts));
    if raw.Err? {
      return Err(raw.error);
    }
    var data := raw.value;
    if |data| != n {
      return Err(CountMismatch(n, |data|));
    }
    var pairs := SortByIndex(PairsOf(data));
    r := CollectChecked(c.expectedDim, pairs);
  }

  /** The loop of `embed_texts`: push each vector in order, stopping at the first of the wrong length. */
  method CollectChecked(expectedDim: Option<nat>, pairs: seq<Pair>) returns (r: Result<seq<Vector>, EmbedError>)
    ensures r == DimChecked(expectedDim, Embeddings(pairs))
  {
    ghost var vs := Embeddings(pairs);
    var result: seq<Vector> := [];
    var i := 0;
    while i < |pairs|
      invariant 0 <= i <= |pairs|
      invariant result == vs[..i]
      invariant expectedDim.Some? ==> forall j :: 0 <= j < i ==> |vs[j]| == expectedDim.value
    {
      var emb := pairs[i].embedding;
      if expectedDim.Some? && |emb| != expectedDim.value {
        FirstWrongDimAt(vs, expectedDim.value, i);
        return Err(DimMismatch(expectedDim.value, |emb|));
      }
      result := result + [emb];
      i := i + 1;
    }
    assert result == vs;
    return Ok(result);
  }

  /** The first wrong length found by a left-to-right scan is `FirstWrongDim`. */
  lemma {:induction false} FirstWrongDimAt(vs: seq<Vector>, d: nat, i: nat)
    requires i < |vs| && |vs[i]| != d && forall j :: 0 <= j < i ==> |vs[j]| == d
    ensures FirstWrongDim(vs, d) == Some(i)
  {
    var r := FirstWrongDim(vs, d);
    assert r.Some?;
  }

  /**
   * The outcomes of `embed_texts`: with texts but no usable data it is the error of the
   * request, with the wrong number of data `CountMismatch`, and on success one vector per
   * text in ascending index order, each of the expected dimension.
   */
  lemma {:induction false} EmbedTextsOutcome(c: Client, texts: seq<string>, reply: Reply)
    ensures |texts| == 0 ==> EmbedTextsResult(c, texts, reply) == Ok([])
    ensures |texts| > 0 && RawData(reply).Err? ==> EmbedTextsResult(c, texts, reply) == Err(RawData(reply).error)
    ensures |texts| > 0 && RawData(reply).Ok? && |RawData(reply).value| != |texts| ==>
      EmbedTextsResult(c, texts, reply) == Err(CountMismatch(|texts|, |RawData(reply).value|))
    ensures var r := EmbedTextsResult(c, texts, reply);
      r.Ok? ==> && |r.value| == |texts|
                && (|texts| > 0 ==> r.value == Embeddings(SortByIndex(PairsOf(RawData(reply).value))))
                && (c.expectedDim.Some? ==> forall i :: 0 <= i < |r.value| ==> |r.value[i]| == c.expectedDim.value)
  {
    if |texts| > 0 && RawData(reply).Ok? {
      SortLength(PairsOf(RawData(reply).value));
    }
  }

  /** The vectors come out stably sorted by index, a missing index counting as 0. */
  lemma {:induction false} EmbedTextsSorted(c: Client, texts: seq<string>, reply: Reply)
    requires |texts| > 0 && EmbedTextsResult(c, texts, reply).Ok?
    ensures var ps := SortByIndex(PairsOf(RawData(reply).value));
      && SortedByIndex(ps)
      && (forall k :: WithIndex(ps, k) == WithIndex(PairsOf(RawData(reply).value), k))
      && EmbedTextsResult(c, texts, reply).value == Embeddings(ps)
  {
    var ps := PairsOf(RawData(reply).value);
    SortSorted(ps);
    forall k {
      SortStable(ps, k);
    }
  }

  /** Position k holds the first vector of vs whose length, got, is not d. */
  predicate FirstMismatchAt(vs: seq<Vector>, d: nat, k: nat, got: nat) {
    k < |vs| && |vs[k]| != d && got == |vs[k]| && forall j :: 0 <= j < k ==> |vs[j]| == d
  }

  /**
   * With an expected dimension, a `DimMismatch` names it and the length of the first
   * vector, in index order, that differs from it.
   */
  lemma {:induction false} EmbedTextsDimMismatch(c: Client, texts: seq<string>, reply: Reply)
    requires EmbedTextsResult(c, texts, reply).Err? && EmbedTextsResult(c, texts, reply).error.DimMismatch?
    ensures c.expectedDim.Some? && EmbedTextsResult(c, texts, reply).error.expected == c.expectedDim.value
    ensures exists k :: FirstMismatchAt(Embeddings(SortByIndex(PairsOf(RawData(reply).value))), c.expectedDim.value,
                                        k, EmbedTextsResult(c, texts, reply).error.got)
  {
    assert |texts| > 0 && RawData(reply).Ok? && c.expectedDim.Some?;
    var vs := Embeddings(SortByIndex(PairsOf(RawData(reply).value)));
    var d := c.expectedDim.value;
    assert FirstWrongDim(vs, d).Some?;
    var k := FirstWrongDim(vs, d).value;
    assert EmbedTextsResult(c, texts, reply) == Err(DimMismatch(d, |vs[k]|));
    assert FirstMismatchAt(vs, d, k, |vs[k]|);
  }

  /**
   * When the server tags the data with the indices 0..n-1 in any order, the vector for
   * the text at position k is the one tagged k.
   */
  lemma {:induction false} EmbedTextsInInputOrder(c: Client, texts: seq<string>, reply: Reply)
    requires |texts| > 0 && EmbedTextsResult(c, texts, reply).Ok?
    requires forall i :: 0 <= i < |RawData(reply).value| ==> RawData(reply).value[i].index.Some?
    requires IndicesPermute(PairsOf(RawData(reply).value))
    ensures var data, vs := RawData(reply).value, EmbedTextsResult(c, texts, reply).value;
      forall j :: 0 <= j < |data| ==> data[j].index.value < |vs| && vs[data[j].index.value] == data[j].embedding
  {
    var data := RawData(reply).value;
    var ps := PairsOf(data);
    SortRestoresOrder(ps);
    assert forall j :: 0 <= j < |data| ==> ps[j].index == data[j].index.value;
  }

  /**
   * `embed_text`: the same request with one text; the vector of the LAST datum returned is
   * taken and checked against the expected dimension.
   */
  function EmbedText(c: Client, server: Server, text: string): (r: Result<Vector, EmbedError>)
    ensures var raw := RawData(Post(c, server, [text]));
      && (raw.Err? ==> r == Err(raw.error))
      && (r.Ok? ==> raw.Ok? && r.value == raw.value[|raw.value| - 1].embedding)
      && (r.Ok? && c.expectedDim.Some? ==> |r.value| == c.expectedDim.value)
      && (raw.Ok? && c.expectedDim.Some? && |raw.value[|raw.value| - 1].embedding| != c.expectedDim.value
          ==> r == Err(DimMismatch(c.expectedDim.value, |raw.value[|raw.value| - 1].embedding|)))
  {
    match RawData(Post(c, server, [text]))
    case Err(e) => Err(e)
    case Ok(out) =>
      if out == [] then Err(EmptyResponse)
      else
        var first := out[|out| - 1].embedding;
        if c.expectedDim.Some? && |first| != c.expectedDim.value then
          Err(DimMismatch(c.expectedDim.value, |first|))
        else Ok(first)
  }

  /** A server answering one text with several data has its last vector taken, not its first. */
  lemma {:induction false} EmbedTextTakesLast(c: Client, server: Server, text: string, a: Datum, b: Datum)
    requires c.expectedDim.None?
    requires Post(c, server, [text]) == Response(200, "", Some([a, b]))
    ensures EmbedText(c, server, text) == Ok(b.embedding)
  {
  }
}
