/**
 * getEmbedding of the database-backed retrieval program (rag_pgsql/rag.go):
 * the request for one text with a caller-chosen task type, and the checked
 * walk predictions[0] -> "embeddings" -> "values" over the response, which
 * reports the first structural mismatch and refuses an empty embedding.
 */
module RagPgsql {
  import opened Structpb
  import opened Vertex

  /** The request getEmbedding sends for `text` with task type `taskType`. */
  function GetEmbeddingRequest(text: string, taskType: string): (req: PredictRequest)
    ensures req.endpoint == EndpointPrefix + EmbeddingModel
    ensures |req.instances| == 1
    ensures InstanceString(req, "content") == Some(text)
    ensures InstanceString(req, "task_type") == Some(taskType)
    ensures RequestedDimensionality(req) == Some(256.0)
    ensures req.instances[0].StructValue? && req.instances[0].fields.Keys == {"content", "task_type"}
    ensures req.parameters.StructValue? && req.parameters.fields.Keys == {"outputDimensionality"}
  {
    EmbeddingRequest(map["content" := StringValue(text), "task_type" := StringValue(taskType)])
  }

  /**
   * The validation chain of getEmbedding: the list under
   * predictions[0].embeddings.values, or the error of the first check that
   * fails, in the order the checks are made.
   */
  function EmbeddingValues(resp: PredictResponse): (r: Result<seq<Value>>)
    ensures r == Failure(EmptyResponse) <==> resp.predictions == []
    ensures r == Failure(NotAStruct) <==>
              resp.predictions != [] && !resp.predictions[0].StructValue?
    ensures r == Failure(NoEmbeddingsField) <==>
              resp.predictions != [] && resp.predictions[0].StructValue?
              && "embeddings" !in resp.predictions[0].fields
    ensures r == Failure(EmbeddingsNotAStruct) <==>
              resp.predictions != [] && resp.predictions[0].StructValue?
              && "embeddings" in resp.predictions[0].fields
              && !resp.predictions[0].fields["embeddings"].StructValue?
    ensures r == Failure(NoValuesField) <==>
              resp.predictions != [] && resp.predictions[0].StructValue?
              && "embeddings" in resp.predictions[0].fields
              && resp.predictions[0].fields["embeddings"].StructValue?
              && "values" !in resp.predictions[0].fields["embeddings"].fields
    ensures r == Failure(ValuesNotAList) <==>
              resp.predictions != [] && resp.predictions[0].StructValue?
              && "embeddings" in resp.predictions[0].fields
              && resp.predictions[0].fields["embeddings"].StructValue?
              && "values" in resp.predictions[0].fields["embeddings"].fields
              && !resp.predictions[0].fields["embeddings"].fields["values"].ListValue?
    ensures r.Success? <==>
              resp.predictions != [] && resp.predictions[0].StructValue?
              && "embeddings" in resp.predictions[0].fields
              && resp.predictions[0].fields["embeddings"].StructValue?
              && "values" in resp.predictions[0].fields["embeddings"].fields
              && resp.predictions[0].fields["embeddings"].fields["values"].ListValue?
              && resp.predictions[0].fields["embeddings"].fields["values"].values != []
    ensures r.Success? ==> r.value == resp.predictions[0].fields["embeddings"].fields["values"].values
  {
    if |resp.predictions| == 0 then Failure(EmptyResponse)
    else match GetStructValue(resp.predictions[0])
      case None => Failure(NotAStruct)
      case Some(prediction) =>
        match Field(prediction, "embeddings")
        case None => Failure(NoEmbeddingsField)
        case Some(embeddingsField) =>
          match GetStructValue(embeddingsField)
          case None => Failure(EmbeddingsNotAStruct)
          case Some(embeddings) =>
            match Field(embeddings, "values")
            case None => Failure(NoValuesField)
            case Some(valuesField) =>
              match GetListValue(valuesField)
              case None => Failure(ValuesNotAList)
              case Some(values) =>
                if |values| == 0 then Failure(EmptyEmbedding) else Success(values)
  }

  /**
   * What getEmbedding returns for a response: the error of the validation
   * chain, or a non-empty vector whose element i is the number value of
   * values[i] (0 for an entry that is not a number).
   */
  function DecodeEmbedding(resp: PredictResponse): (r: Result<seq<real>>)
    ensures r.Failure? <==> EmbeddingValues(resp).Failure?
    ensures r.Failure? ==> r.error == EmbeddingValues(resp).error
    ensures r.Success? ==> |r.value| == |EmbeddingValues(resp).value| > 0
    ensures r.Success? ==> forall i :: 0 <= i < |r.value| ==>
              r.value[i] == GetNumberValue(EmbeddingValues(resp).value[i])
  {
    match EmbeddingValues(resp)
    case Failure(e) => Failure(e)
    case Success(values) => Success(NumbersOf(values))
  }

  /**
   * getEmbedding after the Predict call: the validation chain, then the
   * copy of the list's number values into a fresh slice.
   */
  method GetEmbedding(resp: PredictResponse) returns (r: Result<seq<real>>)
    ensures r == DecodeEmbedding(resp)
    ensures r.Success? ==> |r.value| > 0
  {
    var checked := EmbeddingValues(resp);
    match checked {
      case Failure(e) =>
        r := Failure(e);
      case Success(values) =>
        var embedding := FillEmbedding(values);
        assert embedding == NumbersOf(values);
        r := Success(embedding);
    }
  }

  /** Predictions after the first never change the outcome. */
  lemma OnlyFirstPredictionCounts(first: Value, rest: seq<Value>)
    ensures DecodeEmbedding(PredictResponse([first] + rest)) == DecodeEmbedding(PredictResponse([first]))
  {
    assert ([first] + rest)[0] == first;
  }

  /**
   * Decoding the response the embedding model sends for `embedding` gives
   * `embedding` back, unless it is empty, which getEmbedding refuses.
   */
  lemma DecodeEmbeddingRoundTrip(embedding: seq<real>)
    ensures embedding != [] ==> DecodeEmbedding(EmbeddingResponse(embedding)) == Success(embedding)
    ensures embedding == [] ==> DecodeEmbedding(EmbeddingResponse(embedding)) == Failure(EmptyEmbedding)
  {
    var resp := EmbeddingResponse(embedding);
    var values := NumberList(embedding).values;
    assert resp.predictions[0].fields["embeddings"].fields["values"].values == values;
    if embedding != [] {
      assert NumbersOf(values) == embedding;
    }
  }
}
