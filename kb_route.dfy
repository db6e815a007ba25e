/** The server route that creates a knowledge base: it checks the caller's
    token and the required fields, then builds the creation payload, filling
    the indexing parameters from defaults.  The upstream POST is a parameter:
    only whether it succeeds. */
module KnowledgeBaseRoute {
  import opened Wrappers

  // ---------------------------------------------------------------------------
  // The request body as it arrives; every optional field may be absent or null

  datatype EmbeddingParamsIn = EmbeddingParamsIn(embeddingModel: Option<string>, apiKey: Option<string>)

  datatype ChunkerParamsIn = ChunkerParamsIn(chunkSize: Option<int>, chunkOverlap: Option<int>, chunker: Option<string>)

  datatype IndexingParamsIn = IndexingParamsIn(
    ocr: Option<bool>,
    unstructured: Option<bool>,
    embeddingParams: Option<EmbeddingParamsIn>,
    chunkerParams: Option<ChunkerParamsIn>)

  datatype RequestBody = RequestBody(
    connectionId: Option<string>,
    connectionSourceIds: Option<seq<string>>,
    name: Option<string>,
    description: Option<string>,
    indexingParams: Option<IndexingParamsIn>)

  /** The `Authorization` header, and the body, `None` when it is not JSON. */
  datatype Request = Request(authorization: Option<string>, body: Option<RequestBody>)

  // ---------------------------------------------------------------------------
  // The payload sent upstream

  datatype EmbeddingParams = EmbeddingParams(embeddingModel: string, apiKey: Option<string>)

  datatype ChunkerParams = ChunkerParams(chunkSize: int, chunkOverlap: int, chunker: string)

  datatype IndexingParams = IndexingParams(
    ocr: bool,
    unstructured: bool,
    embeddingParams: EmbeddingParams,
    chunkerParams: ChunkerParams)

  datatype Payload = Payload(
    connectionId: string,
    connectionSourceIds: seq<string>,
    name: string,
    description: string,
    indexingParams: IndexingParams,
    orgLevelRole: Option<string>,
    cronJobId: Option<string>)

  datatype Response =
    | Failure(status: int, error: string)
    | Created(payload: Payload)

  const DefaultIndexingParams: IndexingParams :=
    IndexingParams(false, true, EmbeddingParams("text-embedding-ada-002", None), ChunkerParams(1500, 500, "sentence"))

  const DefaultDescription: string := "Knowledge base for selected resources"

  /** `v` is what `o ?? d` gives: the value when present, even `false`, `0` or
      `""`, and the default only when absent. */
  predicate Coalesced<T(==)>(o: Option<T>, d: T, v: T)
  {
    (o.Some? ==> v == o.value) && (o.None? ==> v == d)
  }

  /** `indexingParams.embeddingParams?.embeddingModel` and its siblings. */
  function EmbeddingModelIn(p: IndexingParamsIn): Option<string>
  {
    if p.embeddingParams.Some? then p.embeddingParams.value.embeddingModel else None
  }

  function ApiKeyIn(p: IndexingParamsIn): Option<string>
  {
    if p.embeddingParams.Some? then p.embeddingParams.value.apiKey else None
  }

  function ChunkSizeIn(p: IndexingParamsIn): Option<int>
  {
    if p.chunkerParams.Some? then p.chunkerParams.value.chunkSize else None
  }

  function ChunkOverlapIn(p: IndexingParamsIn): Option<int>
  {
    if p.chunkerParams.Some? then p.chunkerParams.value.chunkOverlap else None
  }

  function ChunkerIn(p: IndexingParamsIn): Option<string>
  {
    if p.chunkerParams.Some? then p.chunkerParams.value.chunker else None
  }

  /** `indexing_params`: the defaults without input; with input, each field the
      caller gave, and the default for each one left out. */
  function BuildIndexingParams(p: Option<IndexingParamsIn>): (r: IndexingParams)
    ensures p.None? ==> r == DefaultIndexingParams
    ensures p.Some? ==>
      Coalesced(p.value.ocr, DefaultIndexingParams.ocr, r.ocr) &&
      Coalesced(p.value.unstructured, DefaultIndexingParams.unstructured, r.unstructured) &&
      Coalesced(EmbeddingModelIn(p.value), DefaultIndexingParams.embeddingParams.embeddingModel, r.embeddingParams.embeddingModel) &&
      r.embeddingParams.apiKey == ApiKeyIn(p.value) &&
      Coalesced(ChunkSizeIn(p.value), DefaultIndexingParams.chunkerParams.chunkSize, r.chunkerParams.chunkSize) &&
      Coalesced(ChunkOverlapIn(p.value), DefaultIndexingParams.chunkerParams.chunkOverlap, r.chunkerParams.chunkOverlap) &&
      Coalesced(ChunkerIn(p.value), DefaultIndexingParams.chunkerParams.chunker, r.chunkerParams.chunker)
  {
    if p.None? then DefaultIndexingParams
    else
      var q := p.value;
      IndexingParams(
        q.ocr.GetOr(DefaultIndexingParams.ocr),
        q.unstructured.GetOr(DefaultIndexingParams.unstructured),
        EmbeddingParams(
          EmbeddingModelIn(q).GetOr(DefaultIndexingParams.embeddingParams.embeddingModel),
          ApiKeyIn(q)),
        ChunkerParams(
          ChunkSizeIn(q).GetOr(DefaultIndexingParams.chunkerParams.chunkSize),
          ChunkOverlapIn(q).GetOr(DefaultIndexingParams.chunkerParams.chunkOverlap),
          ChunkerIn(q).GetOr(DefaultIndexingParams.chunkerParams.chunker)))
  }

  /** The required fields are truthy; an array, even an empty one, is truthy. */
  predicate HasRequiredFields(b: RequestBody)
  {
    Truthy(b.connectionId) && b.connectionSourceIds.Some? && Truthy(b.name)
  }

  /** The payload of a body with the required fields: the required fields go
      out as the caller gave them and truthy, and the description is always
      truthy: the caller's when it is truthy, the default otherwise. */
  function BuildPayload(b: RequestBody): (p: Payload)
    requires HasRequiredFields(b)
    ensures Some(p.connectionId) == b.connectionId && Some(p.connectionSourceIds) == b.connectionSourceIds
    ensures Some(p.name) == b.name && p.connectionId != "" && p.name != ""
    ensures p.description != ""
    ensures Some(p.description) == b.description || p.description == DefaultDescription
    ensures Truthy(b.description) ==> p.description == b.description.value
    ensures p.indexingParams == BuildIndexingParams(b.indexingParams)
    ensures p.orgLevelRole == None && p.cronJobId == None
  {
    Payload(
      b.connectionId.value,
      b.connectionSourceIds.value,
      b.name.value,
      if Truthy(b.description) then b.description.value else DefaultDescription,
      BuildIndexingParams(b.indexingParams),
      None,
      None)
  }

  /** `POST /api/knowledge-bases`: 401 without a truthy token, before the body
      is read; 500 when the body is not JSON; 400 when a required field is
      falsy; otherwise the payload goes upstream, and a failed upstream call
      gives 500. */
  function Post(req: Request, upstreamOk: bool): (r: Response)
    ensures !Truthy(req.authorization) ==> r == Failure(401, "Authentication required")
    ensures Truthy(req.authorization) && req.body.None? ==> r == Failure(500, "Failed to create knowledge base")
    ensures Truthy(req.authorization) && req.body.Some? && !HasRequiredFields(req.body.value) ==>
      r == Failure(400, "Required fields missing: connectionId, connectionSourceIds, name")
    ensures r.Created? <==>
      Truthy(req.authorization) && req.body.Some? && HasRequiredFields(req.body.value) && upstreamOk
    ensures Truthy(req.authorization) && req.body.Some? && HasRequiredFields(req.body.value) && !upstreamOk ==>
      r == Failure(500, "Failed to create knowledge base")
    ensures r.Created? ==> r.payload == BuildPayload(req.body.value)
    ensures r.Failure? ==> r.status in {400, 401, 500}
  {
    if !Truthy(req.authorization) then Failure(401, "Authentication required")
    else if req.body.None? then Failure(500, "Failed to create knowledge base")
    else if !HasRequiredFields(req.body.value) then
      Failure(400, "Required fields missing: connectionId, connectionSourceIds, name")
    else if !upstreamOk then Failure(500, "Failed to create knowledge base")
    else Created(BuildPayload(req.body.value))
  }

  /** A payload read back as a request body: every field present. */
  function BodyOf(p: Payload): RequestBody
  {
    var ip := p.indexingParams;
    RequestBody(
      Some(p.connectionId), Some(p.connectionSourceIds), Some(p.name), Some(p.description),
      Some(IndexingParamsIn(
        Some(ip.ocr), Some(ip.unstructured),
        Some(EmbeddingParamsIn(Some(ip.embeddingParams.embeddingModel), ip.embeddingParams.apiKey)),
        Some(ChunkerParamsIn(Some(ip.chunkerParams.chunkSize), Some(ip.chunkerParams.chunkOverlap),
          Some(ip.chunkerParams.chunker))))))
  }

  /** Filling in defaults is idempotent: a payload the route built, sent back
      as a body, builds the same payload. */
  lemma PayloadResent(b: RequestBody)
    requires HasRequiredFields(b)
    ensures HasRequiredFields(BodyOf(BuildPayload(b)))
    ensures BuildPayload(BodyOf(BuildPayload(b))) == BuildPayload(b)
  {
  }

  /** The token is checked first: without it the answer is 401 whatever the
      body holds, even a body that fails to parse. */
  lemma AuthBeforeBody(token: Option<string>, b1: Option<RequestBody>, b2: Option<RequestBody>, ok1: bool, ok2: bool)
    requires !Truthy(token)
    ensures Post(Request(token, b1), ok1) == Post(Request(token, b2), ok2)
  {
  }

  /** An empty list of source ids passes the check and is sent as it is. */
  lemma EmptySourceIdsPass(token: string, b: RequestBody)
    requires token != "" && Truthy(b.connectionId) && Truthy(b.name) && b.connectionSourceIds == Some([])
    ensures Post(Request(Some(token), Some(b)), true).Created?
    ensures Post(Request(Some(token), Some(b)), true).payload.connectionSourceIds == []
  {
  }

  /** `??` and `||` differ on empty strings: an empty chunker name is kept,
      while an empty description is replaced by the default. */
  lemma EmptyStringsDiffer(b: RequestBody, p: IndexingParamsIn)
    requires HasRequiredFields(b) && b.description == Some("") && b.indexingParams == Some(p)
    requires p.chunkerParams == Some(ChunkerParamsIn(None, None, Some("")))
    ensures BuildPayload(b).description == DefaultDescription
    ensures BuildPayload(b).indexingParams.chunkerParams == ChunkerParams(1500, 500, "")
  {
  }

  /** `false` and `0` given by the caller are kept, not replaced by defaults. */
  lemma FalsyValuesKept(p: IndexingParamsIn)
    requires p.ocr == Some(false) && p.unstructured == Some(false)
    requires p.chunkerParams == Some(ChunkerParamsIn(Some(0), Some(0), None))
    ensures BuildIndexingParams(Some(p)) ==
      IndexingParams(false, false, BuildIndexingParams(Some(p)).embeddingParams, ChunkerParams(0, 0, "sentence"))
  {
  }

  /** With parameters given but every field left out, the defaults are sent:
      the two branches of the builder agree. */
  lemma EmptyParamsAreDefaults()
    ensures BuildIndexingParams(Some(IndexingParamsIn(None, None, None, None))) == DefaultIndexingParams
    ensures BuildIndexingParams(Some(IndexingParamsIn(None, None, Some(EmbeddingParamsIn(None, None)),
      Some(ChunkerParamsIn(None, None, None))))) == DefaultIndexingParams
  {
  }
}
