/**
 * The schema guard for the vector store: make sure a collection exists with the vector size
 * and distance the index needs, creating it when it is missing and refusing it when it holds
 * other vector parameters. The Qdrant instance is modelled by its collections, each stored
 * as the body a GET of it returns; any request may instead see a reply supplied by the
 * caller, which stands for transport failures and unexpected statuses.
 */
module QdrantSchema {
  import opened Wrappers

  datatype Distance = Cosine | Dot | Euclid

  datatype VectorParams = VectorParams(size: nat, distance: Distance)

  /**
   * `VectorsConfigRead`, untagged with one variant: a single unnamed vector. A body with any
   * other layout (named or multi-vector) does not deserialize at all.
   */
  datatype VectorsConfigRead = Single(params: VectorParams)

  datatype CollectionParams = CollectionParams(vectors: Option<VectorsConfigRead>)
  datatype CollectionConfig = CollectionConfig(params: Option<CollectionParams>)
  datatype CollectionResult = CollectionResult(config: Option<CollectionConfig>)

  /** `GetCollectionResponse`: the parts of a GET body the guard reads, each of which may be missing. */
  datatype GetCollectionResponse = GetCollectionResponse(result: Option<CollectionResult>)

  /** `CollectionInfo`. */
  datatype CollectionInfo = CollectionInfo(vectors: Option<VectorParams>)

  /** `SchemaError`. `Serde` would come from encoding the PUT's body, which cannot fail. */
  datatype SchemaError =
    | Http
    | Status(status: nat, body: string)
    | IncompatibleCollection(name: string)
    | Serde

  /** The answer to a GET: none at all, or a status with its body text and the body parsed, if it parsed. */
  datatype GetReply = GetFailed | GetAnswer(status: nat, body: string, parsed: Option<GetCollectionResponse>)

  /** The answer to a PUT: none at all, or a status with its body text. */
  datatype PutReply = PutFailed | PutAnswer(status: nat, body: string)

  const NotFound: nat := 404

  /** `StatusCode::is_success`. */
  predicate IsSuccess(status: nat) {
    200 <= status < 300
  }

  /**
   * `CollectionInfo::from_get_response`: the single vector configuration under
   * result.config.params.vectors, or None when any link is missing.
   */
  function FromGetResponse(resp: GetCollectionResponse): (info: CollectionInfo)
    ensures info.vectors.Some? <==>
      && resp.result.Some? && resp.result.value.config.Some?
      && resp.result.value.config.value.params.Some?
      && resp.result.value.config.value.params.value.vectors.Some?
    ensures info.vectors.Some? ==> info.vectors.value == resp.result.value.config.value.params.value.vectors.value.params
  {
    var vectors :=
      match resp.result
      case None => None
      case Some(r) =>
        match r.config
        case None => None
        case Some(c) =>
          match c.params
          case None => None
          case Some(p) =>
            match p.vectors
            case Some(Single(v)) => Some(v)
            case None => None;
    CollectionInfo(vectors)
  }

  /** `CollectionInfo::matches`: the stored single vector has exactly this size and distance. */
  function Matches(info: CollectionInfo, size: nat, distance: Distance): (b: bool)
    ensures b <==> info.vectors == Some(VectorParams(size, distance))
  {
    match info.vectors
    case Some(v) => v.size == size && v.distance == distance
    case None => false
  }

  /**
   * `get_collection` after the request: a 2xx body is the collection's info, 404 means there is
   * none, and any other status is `Status`. A failed request and a 2xx body that does not
   * deserialize are both `Http`: `resp.json()` fails with a `reqwest::Error`, so `Serde` never
   * arises here.
   */
  function GetOutcome(reply: GetReply): (r: Result<Option<CollectionInfo>, SchemaError>)
    ensures r == Ok(None) <==> reply.GetAnswer? && reply.status == NotFound
    ensures r.Ok? && r.value.Some? <==> reply.GetAnswer? && IsSuccess(reply.status) && reply.parsed.Some?
    ensures r.Ok? && r.value.Some? ==> r.value.value == FromGetResponse(reply.parsed.value)
    ensures r == Err(Http) <==> reply.GetFailed? || (IsSuccess(reply.status) && reply.parsed.None?)
    ensures r.Err? && r.error.Status? <==> reply.GetAnswer? && !IsSuccess(reply.status) && reply.status != NotFound
    ensures r.Err? && r.error.Status? ==> r.error == Status(reply.status, reply.body)
    ensures r.Err? ==> !r.error.Serde? && !r.error.IncompatibleCollection?
  {
    match reply
    case GetFailed => Err(Http)
    case GetAnswer(status, body, parsed) =>
      if IsSuccess(status) then
        (if parsed.Some? then Ok(Some(FromGetResponse(parsed.value))) else Err(Http))
      else if status == NotFound then Ok(None)
      else Err(Status(status, body))
  }

  /** `create_collection` after the request: anything but a 2xx status is an error. */
  function CreateOutcome(reply: PutReply): (r: Result<(), SchemaError>)
    ensures r.Ok? <==> reply.PutAnswer? && IsSuccess(reply.status)
    ensures reply.PutFailed? ==> r == Err(Http)
    ensures reply.PutAnswer? && !IsSuccess(reply.status) ==> r == Err(Status(reply.status, reply.body))
  {
    match reply
    case PutFailed => Err(Http)
    case PutAnswer(status, body) => if IsSuccess(status) then Ok(()) else Err(Status(status, body))
  }

  /** What a GET of a collection created with one vector of this size and distance returns. */
  function CreatedEntry(size: nat, distance: Distance): (resp: GetCollectionResponse)
    ensures FromGetResponse(resp).vectors == Some(VectorParams(size, distance))
  {
    GetCollectionResponse(Some(CollectionResult(Some(CollectionConfig(Some(CollectionParams(Some(Single(VectorParams(size, distance))))))))))
  }

  type Store = map<string, GetCollectionResponse>

  /** The answer of an undisturbed Qdrant to a GET of a collection: its body, or 404. */
  function StoreReply(store: Store, name: string): (reply: GetReply)
    ensures reply.GetAnswer?
    ensures name in store ==> reply.status == 200 && reply.parsed == Some(store[name])
    ensures name !in store ==> reply.status == NotFound
  {
    if name in store then GetAnswer(200, "", Some(store[name])) else GetAnswer(NotFound, "", None)
  }

  /** The answer of an undisturbed Qdrant to a PUT that creates a collection. */
  const CreatedReply := PutAnswer(200, "")

  /**
   * `ensure_collection` given the replies its requests get: the result and the collections
   * afterwards. Only a missing collection leads to the PUT, and only its success adds it.
   */
  function EnsureResult(store: Store, name: string, size: nat, distance: Distance, get: GetReply, put: PutReply)
    : (Result<(), SchemaError>, Store)
  {
    match GetOutcome(get)
    case Err(e) => (Err(e), store)
    case Ok(Some(info)) => (if Matches(info, size, distance) then Ok(()) else Err(IncompatibleCollection(name)), store)
    case Ok(None) =>
      match CreateOutcome(put)
      case Err(e) => (Err(e), store)
      case Ok(_) => (Ok(()), store[name := CreatedEntry(size, distance)])
  }

  /**
   * An ensure changes the collections only by creating this one, and only when the GET
   * found none and the PUT succeeded; a failed ensure changes nothing.
   */
  lemma {:induction false} EnsureChangesOnlyName(store: Store, name: string, size: nat, distance: Distance, get: GetReply, put: PutReply)
    ensures var (r, after) := EnsureResult(store, name, size, distance, get, put);
      && (r.Err? ==> after == store)
      && (after != store ==> r.Ok? && GetOutcome(get) == Ok(None) && after == store[name := CreatedEntry(size, distance)])
  {
  }

  /** The PUT is sent only when the GET found no collection: otherwise its reply has no effect. */
  lemma {:induction false} PutOnlyWhenMissing(store: Store, name: string, size: nat, distance: Distance, get: GetReply,
                           put1: PutReply, put2: PutReply)
    requires GetOutcome(get) != Ok(None)
    ensures EnsureResult(store, name, size, distance, get, put1) == EnsureResult(store, name, size, distance, get, put2)
  {
  }

  /**
   * Against an undisturbed Qdrant: a missing collection is created with exactly the
   * requested size and distance, an existing one is left as it is and accepted exactly when
   * it holds them, and otherwise refused as `IncompatibleCollection(name)`, which is also the
   * answer when its body lacks a vector configuration.
   */
  lemma {:induction false} EnsureAgainstStore(store: Store, name: string, size: nat, distance: Distance)
    ensures var (r, after) := EnsureResult(store, name, size, distance, StoreReply(store, name), CreatedReply);
      && (name !in store ==> r == Ok(()) && after == store[name := CreatedEntry(size, distance)])
      && (name in store ==> after == store)
      && (name in store ==> (r == Ok(()) <==> FromGetResponse(store[name]).vectors == Some(VectorParams(size, distance))))
      && (name in store && r.Err? ==> r == Err(IncompatibleCollection(name)))
  {
  }

  /** After a successful ensure the collection holds the requested parameters, whatever the PUT answered. */
  lemma {:induction false} EnsureOkMeansMatching(store: Store, name: string, size: nat, distance: Distance, put: PutReply)
    ensures var (r, after) := EnsureResult(store, name, size, distance, StoreReply(store, name), put);
      r.Ok? ==> name in after && Matches(FromGetResponse(after[name]), size, distance)
  {
  }

  /**
   * Idempotence: once an ensure has succeeded, a second with the same arguments succeeds,
   * sends no PUT (its outcome does not matter) and leaves the collections unchanged.
   */
  lemma {:induction false} EnsureIdempotent(store: Store, name: string, size: nat, distance: Distance, put1: PutReply, put2: PutReply)
    requires EnsureResult(store, name, size, distance, StoreReply(store, name), put1).0.Ok?
    ensures var after := EnsureResult(store, name, size, distance, StoreReply(store, name), put1).1;
      EnsureResult(after, name, size, distance, StoreReply(after, name), put2) == (Ok(()), after)
  {
    EnsureOkMeansMatching(store, name, size, distance, put1);
  }

  /**
   * `QdrantSchema`: a handle on the Qdrant instance at baseUrl. `collections` is that
   * instance's state, which the handle's requests read and change.
   */
  class QdrantSchema {
    const baseUrl: string
    var collections: Store

    /** `QdrantSchema::new` on an instance that holds `existing`. */
    constructor(baseUrl: string, existing: Store)
      ensures this.baseUrl == baseUrl && collections == existing
    {
      this.baseUrl := baseUrl;
      collections := existing;
    }

    /** `collections_url`. */
    function CollectionsUrl(): (url: string)
      ensures |url| == |baseUrl| + 12 && url[..|baseUrl|] == baseUrl && url[|baseUrl|..] == "/collections"
    {
      baseUrl + "/collections"
    }

    /** `collection_url`: one more path segment, the collection's name, below `CollectionsUrl`. */
    function CollectionUrl(name: string): (url: string)
      ensures url == CollectionsUrl() + "/" + name
    {
      baseUrl + "/collections/" + name
    }

    /** The reply a GET of the collection gets: `interference` if given, else the instance's own. */
    function GetReplyFor(name: string, interference: Option<GetReply>): GetReply
      reads this
    {
      interference.GetOr(StoreReply(collections, name))
    }

    /** `get_collection`. */
    method GetCollection(name: string, interference: Option<GetReply>) returns (r: Result<Option<CollectionInfo>, SchemaError>)
      ensures r == GetOutcome(GetReplyFor(name, interference))
    {
      var reply := GetReplyFor(name, interference);
      match reply
      case GetFailed => return Err(Http);
      case GetAnswer(status, body, parsed) =>
        if IsSuccess(status) {
          if parsed.None? {
            return Err(Http);
          }
          return Ok(Some(FromGetResponse(parsed.value)));
        } else if status == NotFound {
          return Ok(None);
        }
        return Err(Status(status, body));
    }

    /** `create_collection`: a PUT of a single vector configuration; the collection exists once it succeeds. */
    method CreateCollection(name: string, size: nat, distance: Distance, interference: Option<PutReply>)
      returns (r: Result<(), SchemaError>)
      modifies this
      ensures r == CreateOutcome(interference.GetOr(CreatedReply))
      ensures r.Ok? ==> collections == old(collections)[name := CreatedEntry(size, distance)]
      ensures r.Err? ==> collections == old(collections)
    {
      r := CreateOutcome(interference.GetOr(CreatedReply));
      if r.Ok? {
        collections := collections[name := CreatedEntry(size, distance)];
      }
    }

    /** `ensure_collection`. */
    method EnsureCollection(name: string, size: nat, distance: Distance,
                            getInterference: Option<GetReply>, putInterference: Option<PutReply>)
      returns (r: Result<(), SchemaError>)
      modifies this
      ensures (r, collections) == EnsureResult(old(collections), name, size, distance,
                                               old(GetReplyFor(name, getInterference)), putInterference.GetOr(CreatedReply))
    {
      var got := GetCollection(name, getInterference);
      match got
      case Ok(Some(info)) =>
        if !Matches(info, size, distance) {
          return Err(IncompatibleCollection(name));
        }
        return Ok(());
      case Ok(None) =>
        r := CreateCollection(name, size, distance, putInterference);
      case Err(err) =>
        return Err(err);
    }
  }
}
