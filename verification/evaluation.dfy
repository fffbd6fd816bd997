/**
 * The evaluation orchestrator (`evaluate_company`): a research pass and an
 * aggregation pass to the language model, merged by "truthy-or-fallback" rules
 * into one canonical analysis.
 *
 * The language model service is an oracle `llm` from request to reply; the
 * evaluation reports the requests it sent, in order, next to its outcome.
 */
module Evaluation {
  import opened Wrappers
  import opened Records
  import opened Rounding
  import opened Sanitizer
  import opened Scoring

  /** What is sent to the model. The aggregation pass carries the research pass's raw data. */
  datatype LlmRequest =
    | ResearchRequest(companyName: string)
    | AggregationRequest(companyName: string, tags: seq<string>, subindices: map<string, RawSubIndex>)

  /**
   * A reply decoded into a JSON object. A field the model left out holds the
   * value the code falls back to for it: "", [], {} or 0.
   */
  datatype LlmAnswer = LlmAnswer(
    companyName: string,
    tags: seq<string>,
    subindices: map<string, RawSubIndex>,
    iai: real)

  /** What a call to the model yields. */
  datatype LlmReply =
    | CallFailed(message: string)    // the client raised (no credential, network failure, ...)
    | EmptyContent                   // the reply had no content
    | Unparsable(message: string)    // `json.loads` raised on the content
    | Answer(answer: LlmAnswer)

  datatype Pass = ResearchPass | AggregationPass

  /** Why an evaluation failed; the message is what `str(exc)` shows. */
  datatype EvaluationError =
    | ServiceError(message: string)
    | EmptyReply(pass: Pass)
    | DecodeError(message: string)
  {
    function Message(): string {
      match this
      case ServiceError(m) => m
      case EmptyReply(ResearchPass) => "Пустой ответ от модели (этап исследования)"
      case EmptyReply(AggregationPass) => "Пустой ответ от модели (агрегация)"
      case DecodeError(m) => m
    }
  }

  /** An evaluation's outcome and the requests it sent to the model, in order. */
  datatype Evaluation = Evaluation(outcome: Result<Analysis, EvaluationError>, requests: seq<LlmRequest>)

  /** The end of `_run_subindex_research` / `_run_final_aggregation`: an answer, or the error raised. */
  function ReadReply(reply: LlmReply, pass: Pass): (r: Result<LlmAnswer, EvaluationError>)
    ensures r.Success? <==> reply.Answer?
  {
    match reply
    case CallFailed(m) => Failure(ServiceError(m))
    case EmptyContent => Failure(EmptyReply(pass))
    case Unparsable(m) => Failure(DecodeError(m))
    case Answer(a) => Success(a)
  }

  /** Python's `a or b` on strings. */
  function OrString(a: string, b: string): string {
    if a != "" then a else b
  }

  /** The sub-indices the merge takes: the aggregation's if it returned any, else the research pass's. */
  function ChosenSubindices(research: LlmAnswer, aggregation: LlmAnswer): map<string, RawSubIndex> {
    if |aggregation.subindices| > 0 then aggregation.subindices else research.subindices
  }

  /**
   * Lines 53-62 of `evaluate_company`: the canonical record built from both answers
   * and the name that was asked for.
   */
  function Merge(companyName: string, research: LlmAnswer, aggregation: LlmAnswer): (analysis: Analysis)
    ensures analysis.subindices.Keys == ChosenSubindices(research, aggregation).Keys
    ensures IsCanonical(analysis.subindices)
    ensures IsTenth(analysis.iai)
    ensures companyName != "" ==> analysis.companyName != ""
  {
    var cleaned := Sanitize(ChosenSubindices(research, aggregation));
    SanitizeIsCanonical(ChosenSubindices(research, aggregation));
    var iaiValue := if aggregation.iai != 0.0 then aggregation.iai else CalculateIai(cleaned);
    Analysis(
      OrString(aggregation.companyName, OrString(research.companyName, companyName)),
      if |aggregation.tags| > 0 then aggregation.tags else research.tags,
      cleaned,
      Round1(iaiValue))
  }

  /**
   * `evaluate_company(company_name)`: always asks for research first, asks for
   * aggregation only after a usable research answer, and never asks a third time.
   */
  function EvaluateCompany(companyName: string, llm: LlmRequest -> LlmReply): (e: Evaluation)
    ensures 1 <= |e.requests| <= 2
    ensures e.requests[0] == ResearchRequest(companyName)
    ensures e.outcome.Success? ==> |e.requests| == 2
  {
    var research := ReadReply(llm(ResearchRequest(companyName)), ResearchPass);
    match research
    case Failure(err) => Evaluation(Failure(err), [ResearchRequest(companyName)])
    case Success(r) =>
      var request := AggregationRequest(companyName, r.tags, r.subindices);
      var requests := [ResearchRequest(companyName), request];
      match ReadReply(llm(request), AggregationPass)
      case Failure(err) => Evaluation(Failure(err), requests)
      case Success(a) => Evaluation(Success(Merge(companyName, r, a)), requests)
  }

  /** A research pass without a usable answer ends the evaluation: it fails, and aggregation is never asked for. */
  lemma FailedResearchStops(companyName: string, llm: LlmRequest -> LlmReply)
    requires !llm(ResearchRequest(companyName)).Answer?
    ensures EvaluateCompany(companyName, llm).requests == [ResearchRequest(companyName)]
    ensures EvaluateCompany(companyName, llm).outcome == Failure(ReadReply(llm(ResearchRequest(companyName)), ResearchPass).error)
  {
  }

  /** The aggregation pass is sent the research answer's tags and sub-indices as they came, unsanitized. */
  lemma AggregationGetsRawResearch(companyName: string, llm: LlmRequest -> LlmReply)
    requires llm(ResearchRequest(companyName)).Answer?
    ensures var r := llm(ResearchRequest(companyName)).answer;
      EvaluateCompany(companyName, llm).requests
        == [ResearchRequest(companyName), AggregationRequest(companyName, r.tags, r.subindices)]
  {
  }

  /**
   * An evaluation succeeds exactly when both passes answer, and then its
   * record is the merge of the two answers; a failed aggregation fails it all.
   */
  lemma EvaluationSucceedsIffBothAnswer(companyName: string, llm: LlmRequest -> LlmReply)
    ensures var e := EvaluateCompany(companyName, llm);
      && (e.outcome.Success? <==>
            && llm(ResearchRequest(companyName)).Answer?
            && var r := llm(ResearchRequest(companyName)).answer;
               llm(AggregationRequest(companyName, r.tags, r.subindices)).Answer?)
      && (e.outcome.Success? ==>
            var r := llm(ResearchRequest(companyName)).answer;
            var a := llm(AggregationRequest(companyName, r.tags, r.subindices)).answer;
            e.outcome.value == Merge(companyName, r, a))
  {
  }

  /**
   * The record's name is the first non-empty one of the aggregation's, the
   * research pass's and the name asked for.
   */
  lemma MergedNamePrecedence(companyName: string, research: LlmAnswer, aggregation: LlmAnswer)
    ensures var name := Merge(companyName, research, aggregation).companyName;
      && (aggregation.companyName != "" ==> name == aggregation.companyName)
      && (aggregation.companyName == "" && research.companyName != "" ==> name == research.companyName)
      && (aggregation.companyName == "" && research.companyName == "" ==> name == companyName)
  {
  }

  /** The tags are the aggregation's when it has any, else the research pass's. */
  lemma MergedTags(companyName: string, research: LlmAnswer, aggregation: LlmAnswer)
    ensures aggregation.tags != [] ==> Merge(companyName, research, aggregation).tags == aggregation.tags
    ensures aggregation.tags == [] ==> Merge(companyName, research, aggregation).tags == research.tags
  {
  }

  /**
   * The record's sub-indices are the aggregation's when it returned any, else
   * the research pass's, sanitized either way.
   */
  lemma MergedSubindices(companyName: string, research: LlmAnswer, aggregation: LlmAnswer)
    ensures |aggregation.subindices| > 0 ==>
      Merge(companyName, research, aggregation).subindices == Sanitize(aggregation.subindices)
    ensures |aggregation.subindices| == 0 ==>
      Merge(companyName, research, aggregation).subindices == Sanitize(research.subindices)
  {
  }

  /**
   * Without an index from the aggregation pass, the record's index is what the
   * aggregator computes from the record's own sub-indices.
   */
  lemma MergedIaiRecomputable(companyName: string, research: LlmAnswer, aggregation: LlmAnswer)
    requires aggregation.iai == 0.0
    ensures var analysis := Merge(companyName, research, aggregation);
      analysis.iai == CalculateIai(analysis.subindices)
  {
    var analysis := Merge(companyName, research, aggregation);
    Round1Idempotent(CalculateIai(analysis.subindices));
    Round1OfTenth(CalculateIai(analysis.subindices));
  }

  /** A non-zero index from the aggregation pass wins over the computed one, rounded to one decimal. */
  lemma MergedIaiFromAggregation(companyName: string, research: LlmAnswer, aggregation: LlmAnswer)
    requires aggregation.iai != 0.0
    ensures Merge(companyName, research, aggregation).iai == Round1(aggregation.iai)
  {
  }

  /** The record's sub-indices survive a store-and-reload followed by another sanitizing unchanged. */
  lemma MergedSubindicesStable(companyName: string, research: LlmAnswer, aggregation: LlmAnswer)
    ensures var cleaned := Merge(companyName, research, aggregation).subindices;
      Sanitize(Unsanitize(cleaned)) == cleaned
  {
    CanonicalIsFixedPoint(Merge(companyName, research, aggregation).subindices);
  }
}
