/**
 * The two request handlers of the web application that touch the company
 * store: `POST /api/analyze`, which evaluates a company at most once per slug,
 * and `GET /company/<slug>`, which shows a stored record or answers 404.
 *
 * The store is a map from slug to stored row; each handler is a pure
 * transition from the store before the request to the store after it.
 */
module App {
  import opened Wrappers
  import opened Text
  import opened Slug
  import opened Records
  import opened Evaluation

  /** A row of the `companies` table: the name and index shown, and the whole analysis. */
  datatype StoredCompany = StoredCompany(name: string, iai: real, analysis: Analysis)

  type Store = map<string, StoredCompany>

  /** The JSON bodies `analyze` answers with; `ServerFault` is the framework's page for an uncaught exception. */
  datatype ApiBody =
    | ErrorBody(message: string)
    | ExistsBody(slug: string)
    | CreatedBody(slug: string)
    | ServerFault

  datatype ApiResponse = ApiResponse(status: int, body: ApiBody)

  const BlankNameMessage: string := "Название не должно быть пустым"

  /** The response, the store after the request, and the requests sent to the model while serving it. */
  datatype AnalyzeResult = AnalyzeResult(response: ApiResponse, store: Store, requests: seq<LlmRequest>)

  /** What the company page shows. */
  datatype CompanyPage = CompanyPage(
    name: string,
    slug: string,
    iai: real,
    subindices: map<string, SubIndex>,
    tags: seq<string>)

  /** Python truthiness of a decoded JSON value. */
  predicate Truthy(v: JsonValue) {
    match v
    case Null => false
    case Bool(b) => b
    case Number(x) => x != 0.0
    case Str(s) => s != ""
    case Array(items) => |items| > 0
    case Object(fields) => |fields| > 0
  }

  /**
   * `(data.get("name") or "")` with `data = request.get_json() or {}`, before
   * trimming. `None` when the handler raises on the way: the body is a
   * non-empty value that is not an object, or the name is a truthy non-string.
   */
  function RequestedName(body: JsonValue): (name: Option<string>)
    ensures !Truthy(body) ==> name == Some("")
    ensures body.Object? && "name" in body.fields && body.fields["name"].Str? ==>
      name == Some(body.fields["name"].text)
    ensures body.Object? && "name" !in body.fields ==> name == Some("")
    ensures name.None? <==>
      Truthy(body) && (!body.Object? ||
        ("name" in body.fields && Truthy(body.fields["name"]) && !body.fields["name"].Str?))
  {
    if !Truthy(body) then Some("")
    else if !body.Object? then None
    else if "name" !in body.fields || !Truthy(body.fields["name"]) then Some("")
    else if body.fields["name"].Str? then Some(body.fields["name"].text)
    else None
  }

  /** The row `insert_company` writes for a fresh analysis. */
  function Row(analysis: Analysis): (row: StoredCompany)
    ensures row.analysis == analysis
    ensures row.name == analysis.companyName && row.iai == analysis.iai
  {
    // The handler's fallbacks for a missing name or index never apply: an analysis always has both.
    StoredCompany(analysis.companyName, analysis.iai, analysis)
  }

  /** A row written by `insert_company` is shown by the company page with the analysis's own fields. */
  lemma RowShownByCompany(store: Store, slug: string, analysis: Analysis)
    ensures Company(store[slug := Row(analysis)], slug)
      == Some(CompanyPage(analysis.companyName, slug, analysis.iai, analysis.subindices, analysis.tags))
  {
  }

  /**
   * The part of `analyze()` after the name check: report a stored slug, or
   * evaluate the name and store the record under the slug on success only.
   */
  function Admit(store: Store, name: string, slug: string, llm: LlmRequest -> LlmReply): (r: AnalyzeResult)
    ensures store.Keys <= r.store.Keys
    ensures forall key :: key in store ==> r.store[key] == store[key]
    ensures r.store != store ==>
      && slug !in store
      && r.response == ApiResponse(200, CreatedBody(slug))
      && r.store.Keys == store.Keys + {slug}
    ensures r.response.status in {200, 500}
    ensures |r.requests| <= 2
  {
    if slug in store then
      AnalyzeResult(ApiResponse(200, ExistsBody(slug)), store, [])
    else
      var e := EvaluateCompany(name, llm);
      match e.outcome
      case Failure(err) => AnalyzeResult(ApiResponse(500, ErrorBody(err.Message())), store, e.requests)
      case Success(analysis) =>
        AnalyzeResult(ApiResponse(200, CreatedBody(slug)), store[slug := Row(analysis)], e.requests)
  }

  /**
   * `analyze()`: reject a blank name, report an existing slug, otherwise
   * evaluate and, on success only, store the record under the slug of the
   * trimmed name that was asked for.
   */
  function Analyze(store: Store, body: JsonValue, llm: LlmRequest -> LlmReply): (r: AnalyzeResult)
    ensures store.Keys <= r.store.Keys
    ensures forall key :: key in store ==> r.store[key] == store[key]
    ensures r.store != store ==>
      && r.response.status == 200
      && r.response.body.CreatedBody?
      && r.response.body.slug !in store
      && r.store.Keys == store.Keys + {r.response.body.slug}
    ensures r.response.status in {200, 400, 500}
    ensures RequestedName(body).None? ==> r == AnalyzeResult(ApiResponse(500, ServerFault), store, [])
    ensures |r.requests| <= 2
  {
    match RequestedName(body)
    case None => AnalyzeResult(ApiResponse(500, ServerFault), store, [])
    case Some(raw) =>
      var name := Strip(raw);
      if name == [] then
        AnalyzeResult(ApiResponse(400, ErrorBody(BlankNameMessage)), store, [])
      else
        Admit(store, name, Slugify(name), llm)
  }

  /** `company(slug)`: the stored record's page, or `None` for the 404 page. */
  function Company(store: Store, slug: string): (page: Option<CompanyPage>)
    ensures page.None? <==> slug !in store
    ensures page.Some? ==>
      && page.value.slug == slug
      && page.value.name == store[slug].name
      && page.value.iai == store[slug].iai
      && page.value.subindices == store[slug].analysis.subindices
      && page.value.tags == store[slug].analysis.tags
  {
    if slug !in store then None
    else
      var row := store[slug];
      Some(CompanyPage(row.name, slug, row.iai, row.analysis.subindices, row.analysis.tags))
  }

  /** The slug of a name does not depend on the whitespace around it. */
  lemma SlugIgnoresOuterSpace(name: string)
    ensures Slugify(Strip(name)) == Slugify(name)
  {
    StripIdempotent(name);
  }

  /** A blank name is refused with 400 before the store or the model is consulted. */
  lemma AnalyzeRejectsBlank(store: Store, body: JsonValue, llm: LlmRequest -> LlmReply, name: string)
    requires RequestedName(body) == Some(name)
    requires IsBlank(name)
    ensures Analyze(store, body, llm) == AnalyzeResult(ApiResponse(400, ErrorBody(BlankNameMessage)), store, [])
  {
  }

  /**
   * A name that is not blank goes on to the store check under the slug of the
   * name asked for (never of the name the model reports), and is evaluated in
   * its trimmed form.
   */
  lemma AnalyzeAdmitsName(store: Store, body: JsonValue, llm: LlmRequest -> LlmReply, name: string)
    requires RequestedName(body) == Some(name)
    requires !IsBlank(name)
    ensures Analyze(store, body, llm) == Admit(store, Strip(name), Slugify(name), llm)
  {
    SlugIgnoresOuterSpace(name);
  }

  /** A stored slug is answered "exists" with that slug; nothing is stored and the model is not asked. */
  lemma AdmitFindsExisting(store: Store, name: string, slug: string, llm: LlmRequest -> LlmReply)
    requires slug in store
    ensures Admit(store, name, slug, llm) == AnalyzeResult(ApiResponse(200, ExistsBody(slug)), store, [])
  {
  }

  /** A failed evaluation is answered 500 with the error's message and leaves the store as it was. */
  lemma AdmitReportsFailure(store: Store, name: string, slug: string, llm: LlmRequest -> LlmReply)
    requires slug !in store
    requires EvaluateCompany(name, llm).outcome.Failure?
    ensures var e := EvaluateCompany(name, llm);
      Admit(store, name, slug, llm)
        == AnalyzeResult(ApiResponse(500, ErrorBody(e.outcome.error.Message())), store, e.requests)
  {
  }

  /**
   * A successful evaluation adds exactly one row, under the slug that was
   * looked up, holding the analysis with its name and index, and is answered
   * "created".
   */
  lemma AdmitCreates(store: Store, name: string, slug: string, llm: LlmRequest -> LlmReply)
    requires slug !in store
    requires EvaluateCompany(name, llm).outcome.Success?
    ensures var e := EvaluateCompany(name, llm);
      var analysis := e.outcome.value;
      && Admit(store, name, slug, llm)
           == AnalyzeResult(ApiResponse(200, CreatedBody(slug)),
                            store[slug := StoredCompany(analysis.companyName, analysis.iai, analysis)],
                            e.requests)
      && (name != "" ==> analysis.companyName != "")
  {
  }

  /** Once a slug has been created, the same request finds it, whatever the model would say. */
  lemma AdmitThenExists(store: Store, name: string, slug: string, llm: LlmRequest -> LlmReply, again: LlmRequest -> LlmReply)
    ensures var r := Admit(store, name, slug, llm);
      r.response.body.CreatedBody? ==>
        Admit(r.store, name, slug, again) == AnalyzeResult(ApiResponse(200, ExistsBody(slug)), r.store, [])
  {
    if slug !in store && EvaluateCompany(name, llm).outcome.Success? {
      AdmitCreates(store, name, slug, llm);
      AdmitFindsExisting(Admit(store, name, slug, llm).store, name, slug, again);
    }
  }

  /** After a successful analysis, asking again for the same name is answered "exists", whatever the model would say. */
  lemma AnalyzeThenExists(store: Store, body: JsonValue, llm: LlmRequest -> LlmReply, again: LlmRequest -> LlmReply, name: string)
    requires RequestedName(body) == Some(name)
    requires !IsBlank(name)
    ensures var r := Analyze(store, body, llm);
      r.response.body.CreatedBody? ==>
        Analyze(r.store, body, again) == AnalyzeResult(ApiResponse(200, ExistsBody(Slugify(name))), r.store, [])
  {
    AnalyzeAdmitsName(store, body, llm, name);
    AnalyzeAdmitsName(Analyze(store, body, llm).store, body, again, name);
    AdmitThenExists(store, Strip(name), Slugify(name), llm, again);
  }

  /** After a successful analysis the company page shows the stored analysis under the new slug. */
  lemma CompanyAfterAdmit(store: Store, name: string, slug: string, llm: LlmRequest -> LlmReply)
    requires slug !in store
    requires EvaluateCompany(name, llm).outcome.Success?
    ensures var analysis := EvaluateCompany(name, llm).outcome.value;
      Company(Admit(store, name, slug, llm).store, slug)
        == Some(CompanyPage(analysis.companyName, slug, analysis.iai, analysis.subindices, analysis.tags))
  {
    AdmitCreates(store, name, slug, llm);
  }
}
