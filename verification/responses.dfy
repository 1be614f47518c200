/** The dictionary `query_llm` in analysis.py hands back for one prompt: the
    dumped structured result when the model's text parses, or an error marker
    that keeps the raw text when it does not. Parsing itself (markdown
    stripping, JSON decoding, field coercion) belongs to the output-parser
    library and is represented only by its outcome. */
module Responses {
  import opened Values
  import opened Scoring

  /** The structured output the parser validates: an integer rating, the
      reasoning text and the list of evidence. */
  datatype CriterionResult = CriterionResult(rating: int, chainOfThought: string, evidenceList: seq<Value>)

  /** `parsed_result.model_dump()`: one key per field of the result. */
  function ModelDump(c: CriterionResult): (m: map<string, Value>)
    ensures m.Keys == {"rating", "chain_of_thought", "evidence_list"}
    ensures IntOf(m["rating"]) == Some(c.rating)
  {
    map["rating" := VInt(c.rating),
        "chain_of_thought" := VStr(c.chainOfThought),
        "evidence_list" := VList(c.evidenceList)]
  }

  const ParseErrorPrefix := "Could not parse response: "

  /** The marker built when parsing fails: exactly the keys `error` and
      `raw_response`, the latter holding the model's text unchanged. */
  function ParseFailure(reason: string, rawResponse: string): (m: map<string, Value>)
    ensures m.Keys == {"error", "raw_response"}
    ensures "rating" !in m
    ensures m["raw_response"] == VStr(rawResponse)
    ensures m["error"].VStr? && ParseErrorPrefix <= m["error"].s
  {
    map["error" := VStr(ParseErrorPrefix + reason), "raw_response" := VStr(rawResponse)]
  }

  /** What `query_llm` returns once the model answered with `rawResponse`
      and the parser produced `parsed` (a result, or the reason it failed). */
  function QueryResult(parsed: Result<CriterionResult, string>, rawResponse: string): (m: map<string, Value>)
    ensures "rating" in m <==> parsed.Ok?
    ensures "error" in m <==> parsed.Err?
    ensures parsed.Err? ==> "raw_response" in m && m["raw_response"] == VStr(rawResponse)
  {
    match parsed
    case Ok(c) => ModelDump(c)
    case Err(reason) => ParseFailure(reason, rawResponse)
  }

  /** A query's outcome counts towards eligibility exactly when the model's
      text parsed and its rating is at least 6; a parse failure never counts. */
  lemma QueryResultPositive(parsed: Result<CriterionResult, string>, rawResponse: string)
    ensures IsPositive(Returned(QueryResult(parsed, rawResponse)))
            <==> parsed.Ok? && parsed.value.rating >= PositiveRating
    ensures parsed.Err? ==> !IsPositive(Returned(QueryResult(parsed, rawResponse)))
  {
  }
}
