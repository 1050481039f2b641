/**
 * The embedding requests and the response decoding of the in-memory
 * retrieval program (rag/rag.go, getDocumentEmbedding and getQueryEmbedding).
 * Both functions decode the response the same way: they read predictions[0]
 * as a list of numbers, with no check of its shape, so a first prediction
 * of any other kind decodes silently to an empty embedding.
 */
module RagEmbedding {
  import opened Structpb
  import opened Vertex
  import RagPgsql

  /** The request getDocumentEmbedding sends: the text as content, no task type. */
  function DocumentEmbeddingRequest(text: string): (req: PredictRequest)
    ensures req.endpoint == EndpointPrefix + EmbeddingModel
    ensures |req.instances| == 1
    ensures InstanceString(req, "content") == Some(text)
    ensures InstanceString(req, "task_type") == None
    ensures RequestedDimensionality(req) == Some(256.0)
    ensures req.instances[0].StructValue? && req.instances[0].fields.Keys == {"content"}
    ensures req.parameters.StructValue? && req.parameters.fields.Keys == {"outputDimensionality"}
  {
    EmbeddingRequest(map["content" := StringValue(text)])
  }

  /** The request getQueryEmbedding sends: the query as content, task type RETRIEVAL_QUERY. */
  function QueryEmbeddingRequest(query: string): (req: PredictRequest)
    ensures req.endpoint == EndpointPrefix + EmbeddingModel
    ensures |req.instances| == 1
    ensures InstanceString(req, "content") == Some(query)
    ensures InstanceString(req, "task_type") == Some("RETRIEVAL_QUERY")
    ensures RequestedDimensionality(req) == Some(256.0)
    ensures req.instances[0].StructValue? && req.instances[0].fields.Keys == {"content", "task_type"}
    ensures req.parameters.StructValue? && req.parameters.fields.Keys == {"outputDimensionality"}
  {
    EmbeddingRequest(map["content" := StringValue(query), "task_type" := StringValue("RETRIEVAL_QUERY")])
  }

  /**
   * What both functions return for a response: an error when there is no
   * prediction; otherwise the number values of predictions[0] read as a
   * list, which is empty when predictions[0] is not a list.
   */
  function DecodeListEmbedding(resp: PredictResponse): (r: Result<seq<real>>)
    ensures r.Failure? <==> resp.predictions == []
    ensures r.Failure? ==> r.error == EmptyResponse
    ensures r.Success? && resp.predictions[0].ListValue? ==>
              && |r.value| == |resp.predictions[0].values|
              && forall i :: 0 <= i < |r.value| ==> r.value[i] == GetNumberValue(resp.predictions[0].values[i])
    ensures r.Success? && !resp.predictions[0].ListValue? ==> r.value == []
  {
    if |resp.predictions| == 0 then Failure(EmptyResponse)
    else Success(NumbersOf(GetValues(GetListValue(resp.predictions[0]))))
  }

  /**
   * The decoding that getDocumentEmbedding and getQueryEmbedding run after
   * the Predict call: the emptiness check, then the copy of the list.
   */
  method DecodePredictions(resp: PredictResponse) returns (r: Result<seq<real>>)
    ensures r == DecodeListEmbedding(resp)
  {
    if |resp.predictions| == 0 {
      return Failure(EmptyResponse);
    }
    var values := GetValues(GetListValue(resp.predictions[0]));
    var embedding := FillEmbedding(values);
    assert embedding == NumbersOf(values);
    r := Success(embedding);
  }

  /** A first prediction that is a list of numbers decodes to those numbers. */
  lemma DecodeListEmbeddingRoundTrip(embedding: seq<real>, rest: seq<Value>)
    ensures DecodeListEmbedding(PredictResponse([NumberList(embedding)] + rest)) == Success(embedding)
  {
    var values := NumberList(embedding).values;
    assert ([NumberList(embedding)] + rest)[0] == NumberList(embedding);
    assert NumbersOf(values) == embedding;
  }

  /**
   * On the nested response that getEmbedding of rag_pgsql/rag.go decodes,
   * predictions[0].embeddings.values, this decoding yields an empty
   * embedding and no error, while getEmbedding yields the vector.
   */
  lemma NestedResponseDecodesEmpty(embedding: seq<real>)
    requires embedding != []
    ensures DecodeListEmbedding(EmbeddingResponse(embedding)) == Success([])
    ensures RagPgsql.DecodeEmbedding(EmbeddingResponse(embedding)) == Success(embedding)
  {
    RagPgsql.DecodeEmbeddingRoundTrip(embedding);
  }
}
