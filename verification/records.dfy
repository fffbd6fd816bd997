/**
 * The data the application handles: JSON values as the language model returns
 * them, the raw and the sanitized sub-index blocks, and the analysis record
 * that is persisted.
 */
module Records {
  import opened Wrappers

  /** A decoded JSON value (what `json.loads` hands back). */
  datatype JsonValue =
    | Null
    | Bool(flag: bool)
    | Number(number: real)
    | Str(text: string)
    | Array(items: seq<JsonValue>)
    | Object(fields: map<string, JsonValue>)

  /**
   * One fact of a sub-index as the model returned it. An absent `title` or
   * `description` is `None`; an absent `sources` list is the empty list.
   */
  datatype RawFact = RawFact(title: Option<string>, description: Option<string>, sources: seq<JsonValue>)

  /** One sub-index block as returned: `score` is any JSON value, or absent. */
  datatype RawSubIndex = RawSubIndex(score: Option<JsonValue>, facts: seq<RawFact>)

  /** A fact after sanitizing: both texts present, only HTTP(S) source URLs. */
  datatype Fact = Fact(title: string, description: string, sources: seq<string>)

  /** A sub-index block after sanitizing: the score is kept as the JSON value it was. */
  datatype SubIndex = SubIndex(score: JsonValue, facts: seq<Fact>)

  /** What `evaluate_company` returns, and what is stored as the record's JSON blob. */
  datatype Analysis = Analysis(
    companyName: string,
    tags: seq<string>,
    subindices: map<string, SubIndex>,
    iai: real)
}
