/**
 * The response sanitizer (`_sanitize_subindices` and `_is_http_url`): turns the
 * language model's sub-index blocks into the canonical form that is scored,
 * returned and stored.
 */
module Sanitizer {
  import opened Wrappers
  import opened Text
  import opened Records
  import opened Seqs

  /** Starts with "http://" or "https://", ignoring case. */
  predicate HasHttpScheme(text: string) {
    StartsWithIgnoringCase(text, "http://") || StartsWithIgnoringCase(text, "https://")
  }

  /**
   * `_is_http_url(value)`: a string whose trimmed, lower-cased form starts with
   * "http://" or "https://". Anything that is not a string is refused.
   */
  predicate IsHttpUrl(value: JsonValue) {
    value.Str? && HasHttpScheme(Strip(value.text))
  }

  /** `_is_http_url` lower-cases the stripped string and tests its prefix: the two tests agree. */
  lemma IsHttpUrlSpec(value: JsonValue)
    ensures IsHttpUrl(value) <==>
      value.Str? && (StartsWith(Lower(Strip(value.text)), "http://") || StartsWith(Lower(Strip(value.text)), "https://"))
  {
    if value.Str? {
      StartsWithIgnoringCaseIsLowerPrefix(Strip(value.text), "http://");
      StartsWithIgnoringCaseIsLowerPrefix(Strip(value.text), "https://");
    }
  }

  /**
   * The scheme test ignores case: a string that starts with "http://" or
   * "https://" in any mix of capitals is accepted, whatever follows.
   */
  lemma AcceptsAnyCaseScheme(scheme: string, rest: string)
    requires Lower(scheme) == "http://" || Lower(scheme) == "https://"
    ensures IsHttpUrl(Str(scheme + rest))
  {
    SchemeIsTrimmed(scheme, Lower(scheme));
    StripKeepsPrefix(scheme, rest);
    PrefixIgnoringCase(Strip(scheme + rest), scheme, Lower(scheme));
  }

  lemma SchemeIsTrimmed(scheme: string, target: string)
    requires Lower(scheme) == target && |target| >= 1
    requires !IsSpace(target[0]) && !IsSpace(target[|target| - 1])
    ensures scheme != [] && IsTrimmed(scheme)
  {
    LowerSpec(scheme);
  }

  /** "HTTPS://" in capitals is accepted as a URL scheme. */
  lemma AcceptsCapitalScheme(rest: string)
    ensures IsHttpUrl(Str("HTTPS://" + rest))
  {
    assert Lower("HTTPS://") == "https://";
    AcceptsAnyCaseScheme("HTTPS://", rest);
  }

  /** A source as the sanitizer leaves it: an HTTP(S) URL with no outer whitespace. */
  predicate IsCleanSource(url: string) {
    HasHttpScheme(url) && IsTrimmed(url)
  }

  /** A clean source is one `_is_http_url` accepts and stripping leaves alone. */
  lemma CleanSourceAccepted(url: string)
    requires IsCleanSource(url)
    ensures IsHttpUrl(Str(url)) && Strip(url) == url
  {
    StripTrimmed(url);
  }

  /** The stripped text of a string source; only ever applied to accepted sources. */
  function SourceUrl(value: JsonValue): string {
    if value.Str? then Strip(value.text) else ""
  }

  /**
   * `[src.strip() for src in sources if _is_http_url(src)]`: the accepted
   * sources, stripped, in their original order.
   */
  function CleanSources(sources: seq<JsonValue>): (urls: seq<string>)
    ensures |urls| <= |sources|
  {
    FilterMap(sources, IsHttpUrl, SourceUrl)
  }

  /** Every URL of the list is clean. */
  predicate AllClean(urls: seq<string>) {
    forall i :: 0 <= i < |urls| ==> IsCleanSource(urls[i])
  }

  /** Stripping an accepted source yields a clean one. */
  lemma AcceptedSourceIsClean(value: JsonValue)
    requires IsHttpUrl(value)
    ensures IsCleanSource(SourceUrl(value))
  {
  }

  /** Every URL the filter keeps is an HTTP(S) URL with no outer whitespace. */
  lemma CleanSourcesAreClean(sources: seq<JsonValue>)
    ensures AllClean(CleanSources(sources))
  {
    forall v | IsHttpUrl(v) ensures IsCleanSource(SourceUrl(v)) {
      AcceptedSourceIsClean(v);
    }
    FilterMapEvery(sources, IsHttpUrl, SourceUrl, IsCleanSource);
  }

  /** One fact: absent title and description become "", sources are cleaned. */
  function SanitizeFact(fact: RawFact): Fact {
    Fact(fact.title.GetOr(""), fact.description.GetOr(""), CleanSources(fact.sources))
  }

  /** One block: the score copied as it is (0 when absent), the facts sanitized one by one. */
  function SanitizeBlock(block: RawSubIndex): SubIndex {
    SubIndex(
      block.score.GetOr(Number(0.0)),
      seq(|block.facts|, i requires 0 <= i < |block.facts| => SanitizeFact(block.facts[i])))
  }

  /**
   * `_sanitize_subindices(subindices)`: the same keys, unknown codes included,
   * each score verbatim (unclamped) and each block's facts kept in number and order.
   */
  function Sanitize(raw: map<string, RawSubIndex>): (cleaned: map<string, SubIndex>)
    ensures cleaned.Keys == raw.Keys
    ensures forall key :: key in raw ==> cleaned[key].score == raw[key].score.GetOr(Number(0.0))
    ensures forall key :: key in raw ==> |cleaned[key].facts| == |raw[key].facts|
  {
    map key | key in raw :: SanitizeBlock(raw[key])
  }

  /** The canonical form the sanitizer produces: every source URL of every fact is clean. */
  predicate IsCanonical(subindices: map<string, SubIndex>) {
    forall key, i :: key in subindices && 0 <= i < |subindices[key].facts| ==>
      AllClean(subindices[key].facts[i].sources)
  }

  /**
   * A sanitized map read back as raw input: what the stored JSON blob decodes
   * to. Every field is present and every source is a string.
   */
  function Unsanitize(cleaned: map<string, SubIndex>): (raw: map<string, RawSubIndex>)
    ensures raw.Keys == cleaned.Keys
  {
    map key | key in cleaned :: RawBlockOf(cleaned[key])
  }

  function RawBlockOf(block: SubIndex): RawSubIndex {
    RawSubIndex(Some(block.score), seq(|block.facts|, i requires 0 <= i < |block.facts| => RawFactOf(block.facts[i])))
  }

  function RawFactOf(fact: Fact): RawFact {
    RawFact(Some(fact.title), Some(fact.description), StrValues(fact.sources))
  }

  /** Strings as JSON string values. */
  function StrValues(texts: seq<string>): (values: seq<JsonValue>)
    ensures |values| == |texts|
    ensures forall i :: 0 <= i < |texts| ==> values[i] == Str(texts[i])
  {
    seq(|texts|, i requires 0 <= i < |texts| => Str(texts[i]))
  }

  /** The source filter distributes over concatenation: kept URLs stay in their original order. */
  lemma CleanSourcesAppend(a: seq<JsonValue>, b: seq<JsonValue>)
    ensures CleanSources(a + b) == CleanSources(a) + CleanSources(b)
  {
    FilterMapAppend(a, b, IsHttpUrl, SourceUrl);
  }

  /** Sources that are not strings, or not HTTP(S) URLs, are dropped without a trace. */
  lemma CleanSourcesDropsRejected(sources: seq<JsonValue>)
    requires forall i :: 0 <= i < |sources| ==> !IsHttpUrl(sources[i])
    ensures CleanSources(sources) == []
  {
    FilterMapNoneKept(sources, IsHttpUrl, SourceUrl);
  }

  /** Sources that are all accepted are all kept, each stripped, in order. */
  lemma CleanSourcesKeepsAccepted(sources: seq<JsonValue>)
    requires forall i :: 0 <= i < |sources| ==> IsHttpUrl(sources[i])
    ensures |CleanSources(sources)| == |sources|
    ensures forall i :: 0 <= i < |sources| ==> CleanSources(sources)[i] == SourceUrl(sources[i])
  {
    FilterMapAllKept(sources, IsHttpUrl, SourceUrl);
  }

  /** Clean URLs pass the filter unchanged. */
  lemma CleanSourcesOfClean(urls: seq<string>)
    requires AllClean(urls)
    ensures CleanSources(StrValues(urls)) == urls
  {
    var values := StrValues(urls);
    forall i | 0 <= i < |values| ensures IsHttpUrl(values[i]) && SourceUrl(values[i]) == urls[i] {
      CleanSourceAccepted(urls[i]);
    }
    CleanSourcesKeepsAccepted(values);
  }

  /** What the sanitizer makes of one fact. */
  lemma SanitizedFact(raw: map<string, RawSubIndex>, key: string, i: int)
    requires key in raw && 0 <= i < |raw[key].facts|
    ensures Sanitize(raw)[key].facts[i].title == raw[key].facts[i].title.GetOr("")
    ensures Sanitize(raw)[key].facts[i].description == raw[key].facts[i].description.GetOr("")
    ensures Sanitize(raw)[key].facts[i].sources == CleanSources(raw[key].facts[i].sources)
  {
  }

  /** The sanitizer's output is canonical. */
  lemma SanitizeIsCanonical(raw: map<string, RawSubIndex>)
    ensures IsCanonical(Sanitize(raw))
  {
    forall key, i | key in raw && 0 <= i < |raw[key].facts|
      ensures AllClean(Sanitize(raw)[key].facts[i].sources)
    {
      CleanSourcesAreClean(raw[key].facts[i].sources);
    }
  }

  /** A canonical map is a fixed point: re-sanitizing it, as read back, gives it back. */
  lemma CanonicalIsFixedPoint(cleaned: map<string, SubIndex>)
    requires IsCanonical(cleaned)
    ensures Sanitize(Unsanitize(cleaned)) == cleaned
  {
    var again := Sanitize(Unsanitize(cleaned));
    forall key | key in cleaned ensures again[key] == cleaned[key] {
      var block := cleaned[key];
      var facts := again[key].facts;
      assert |facts| == |block.facts|;
      forall i | 0 <= i < |block.facts| ensures facts[i] == block.facts[i] {
        CleanSourcesOfClean(block.facts[i].sources);
      }
      assert facts == block.facts;
    }
  }

  /** Sanitizing twice is sanitizing once. */
  lemma SanitizeIdempotent(raw: map<string, RawSubIndex>)
    ensures Sanitize(Unsanitize(Sanitize(raw))) == Sanitize(raw)
  {
    SanitizeIsCanonical(raw);
    CanonicalIsFixedPoint(Sanitize(raw));
  }
}
