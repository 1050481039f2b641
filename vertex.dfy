/**
 * What the two retrieval programs share about the embedding endpoint of the
 * prediction service: its address, the request and response records, the
 * parameters every embedding request carries, the errors a decoder reports,
 * and the copy of a list of number values into a float vector.
 */
module Vertex {
  import opened Structpb

  const ProjectId: string := "metanonia-53f36"
  const Location: string := "us-central1"
  const EmbeddingModel: string := "text-multilingual-embedding-002"
  const EndpointPrefix: string :=
    "projects/" + ProjectId + "/locations/" + Location + "/publishers/google/models/"

  /** The number of dimensions every embedding request asks for. */
  const OutputDimensionality: real := 256.0

  /** A prediction request: the model endpoint, the instances and the parameters. */
  datatype PredictRequest = PredictRequest(endpoint: string, instances: seq<Value>, parameters: Value)

  /** A prediction response: one prediction per instance. */
  datatype PredictResponse = PredictResponse(predictions: seq<Value>)

  /** Why a response could not be turned into an embedding, one case per check. */
  datatype EmbeddingError =
    | EmptyResponse          // no predictions at all
    | NotAStruct             // predictions[0] is not a struct
    | NoEmbeddingsField      // it has no "embeddings" field
    | EmbeddingsNotAStruct   // "embeddings" is not a struct
    | NoValuesField          // it has no "values" field
    | ValuesNotAList         // "values" is not a list
    | EmptyEmbedding         // "values" is an empty list

  datatype Result<T> = Success(value: T) | Failure(error: EmbeddingError)

  /**
   * An embedding request for one instance with the given fields, sent to the
   * embedding model's endpoint and asking for a fixed output dimensionality.
   */
  function EmbeddingRequest(instance: map<string, Value>): PredictRequest {
    PredictRequest(
      EndpointPrefix + EmbeddingModel,
      [StructValue(instance)],
      StructValue(map["outputDimensionality" := NumberValue(OutputDimensionality)]))
  }

  /** The string field `key` of the first instance of a request, read back. */
  function InstanceString(req: PredictRequest, key: string): Option<string> {
    if |req.instances| == 0 then None
    else match GetStructValue(req.instances[0])
      case None => None
      case Some(fields) =>
        match Field(fields, key)
        case Some(StringValue(s)) => Some(s)
        case _ => None
  }

  /** The output dimensionality a request asks for, read back from its parameters. */
  function RequestedDimensionality(req: PredictRequest): Option<real> {
    match GetStructValue(req.parameters)
    case None => None
    case Some(fields) =>
      match Field(fields, "outputDimensionality")
      case Some(NumberValue(n)) => Some(n)
      case _ => None
  }

  /** The vector whose element i is the number value of values[i] (0 for a non-number). */
  function NumbersOf(values: seq<Value>): seq<real> {
    seq(|values|, i requires 0 <= i < |values| => GetNumberValue(values[i]))
  }

  /**
   * Fills a freshly allocated slice of length |values| with the number value
   * of each element, in order (the `make` and `for i, v := range values` loop
   * that closes both decoders).
   */
  method FillEmbedding(values: seq<Value>) returns (embedding: seq<real>)
    ensures |embedding| == |values|
    ensures forall i :: 0 <= i < |values| ==> embedding[i] == GetNumberValue(values[i])
  {
    var buffer := new real[|values|];
    for i := 0 to |values|
      invariant forall k :: 0 <= k < i ==> buffer[k] == GetNumberValue(values[k])
    {
      buffer[i] := GetNumberValue(values[i]);
    }
    embedding := buffer[..];
  }

  /**
   * The response the embedding model sends for one instance:
   * predictions[0] = { "embeddings": { "values": [x0, x1, ...] } }.
   */
  function EmbeddingResponse(embedding: seq<real>): PredictResponse {
    PredictResponse([StructValue(map["embeddings" := StructValue(map["values" := NumberList(embedding)])])])
  }

}
