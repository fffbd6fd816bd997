# IAI core: slugs, scoring, sanitizing and the analyze flow

The IAI service rates companies on an Investment Attractiveness Index. The
index is built from six sub-indices, each a score with supporting facts:

| code | weight |
|---|---|
| FSI | 0.30 |
| MPI | 0.25 |
| PTI | 0.20 |
| TMI | 0.15 |
| RRI | 0.10 |
| PI | 0.05 |

A language model is asked twice: a research pass, then an aggregation pass.
The two answers are merged into one analysis record, sanitized, scored and
stored under a slug made from the company name.

This project models that deterministic core as pure Dafny functions:

- `Text`: the pieces of Python's `str` the core relies on. These are
  `isspace`, `strip`, `lower` and the case-insensitive prefix test.
- `Slug`: `slugify`. It trims, lower-cases and filters to a whitelist, turns
  whitespace runs into `-`, makes one `--` → `-` pass, and falls back to
  `"company"`.
- `FloatSpace`: the whitespace `float()` skips around a number. This is the
  `isspace` set without the information separators U+001C–U+001F, which
  `strip()` removes but `float()` does not.
- `Coercion`: Python's `float()` applied to a JSON score. A `None` result
  stands for the exception that `calculate_iai` catches.
- `Rounding`: `round(x, 1)`.
- `Scoring`: `WEIGHTS_IAI` and `calculate_iai`. This is the weighted mean of
  the positive scores, re-normalised by their weights, rounded to one decimal.
- `Seqs` and `Sanitizer`: `_is_http_url` and `_sanitize_subindices`. These
  keep the HTTP(S) sources, stripped and in order. They fill in missing
  titles and descriptions, and default a missing score to 0.
- `Evaluation`: `evaluate_company`.
  - The language model is a parameter `llm` that maps a request to a reply.
  - An evaluation returns its outcome together with the requests it sent, so
    "the aggregation pass is never asked for" is a statement about the result.
  - A decoded answer is a typed record. A field the model left out holds the
    value the code falls back to for it: `""`, `[]`, `{}` or `0`.
- `App`: the `POST /api/analyze` handler and the `GET /company/<slug>` page.
  Both work over a store that is a map from slug to row. Each request is a
  pure transition from the store before it to the store after it.

Python floats are modelled as exact reals.

Where the documentation and the code differ, the model follows the code:

- The weights sum to 1.05, not 1.0. `calculate_iai` divides by the weights
  actually used, so the index is still a weighted mean.
- The slug is made with a single `replace("--", "-")` pass, not a full
  collapse of repeated hyphens.
  - `Slug.HalveHyphenRun`: a run of `k` hyphens becomes `(k + 1) / 2` hyphens.
  - `Slug.SlugOfSpacedHyphen`: `"a - b"` gives the slug `"a--b"`.
  - `Slug.SlugOfHyphens`: the slug of `"---"` is `"--"`, and the slug of
    `"--"` is `"-"`, so applying `slugify` to a slug can change it.
- The index is not confined to 0–10. Scores above 10 pass through, so
  `Scoring.IaiOffNominalScale` shows a lone FSI score of 15 giving 15.0.
  `Scoring.IaiOnNominalScale` proves the 0–10 bound only when every score is
  at most 10.
- Sources are kept as a list, in order, with duplicates, not as a set.
- The stored table has no revision column. There is no update path and no
  re-evaluation of stale rows. A row is only ever inserted, once per slug.

## Model

| member | source | states |
|---|---|---|
| Text.TrimStart | iai_app/iai_logic.py:22 | the result is a suffix of the input, everything dropped before it is whitespace, and it does not start with whitespace |
| Text.TrimEnd | iai_app/iai_logic.py:22 | the result is a prefix of the input, everything dropped after it is whitespace, and it does not end with whitespace |
| Text.Strip | iai_app/iai_logic.py:22 | `strip()` leaves no outer whitespace, never lengthens the text, and gives "" exactly when the text is all whitespace |
| Text.StripIsMiddle | iai_app/iai_logic.py:22 | the stripped text is a contiguous piece of the input with only whitespace before it and only whitespace after it |
| Text.StripTrimmed | iai_app/iai_logic.py:146 | a text with no outer whitespace is left unchanged by `strip()` |
| Text.StripIdempotent | iai_app/app.py:135 | stripping an already stripped name changes nothing |
| Text.StripKeepsPrefix | iai_app/iai_logic.py:162 | a text that starts with a prefix without outer whitespace still starts with that prefix after `strip()` |
| Text.LowerCharSpec | iai_app/iai_logic.py:22 | `lower()` changes a character exactly when it is a capital, leaves no capital, and neither creates nor removes whitespace |
| Text.LowerCharOfCapital | iai_app/iai_logic.py:22 | `lower()` sends each capital to the small letter whose upper case it is, so 'A' becomes 'a' and 'Д' becomes 'д', and sends the Kelvin sign to 'k' |
| Text.LowerOfUpperChar | iai_app/iai_logic.py:22 | every small letter is the lower case of exactly its own upper case |
| Text.LowerSpec | iai_app/iai_logic.py:22 | a lower-cased text has no capital left, has whitespace exactly where the input had it, and keeps every other character in place |
| Text.LowerOfLowercase | iai_app/iai_logic.py:22 | a text without capitals is unchanged by `lower()` |
| Text.LowerIdempotent | iai_app/iai_logic.py:22 | lower-casing twice is the same as lower-casing once |
| Text.TrimStartLower | iai_app/iai_logic.py:22 | lower-casing and then `lstrip()` gives the same text as `lstrip()` and then lower-casing |
| Text.TrimEndLower | iai_app/iai_logic.py:22 | lower-casing and then `rstrip()` gives the same text as `rstrip()` and then lower-casing |
| Text.StripLower | iai_app/iai_logic.py:22 | lower-casing and then `strip()` gives the same text as `strip()` and then lower-casing |
| Text.StartsWithIgnoringCaseIsLowerPrefix | iai_app/iai_logic.py:162 | the case-insensitive prefix test holds exactly when the lower-cased text starts with the prefix, in both directions |
| Text.PrefixIgnoringCase | iai_app/iai_logic.py:162 | a text that starts with some prefix starts, ignoring case, with that prefix's lower case |
| Slug.KeepSlugChars | iai_app/iai_logic.py:23 | the filter never lengthens the text, keeps only whitelisted characters and whitespace, and leaves a text with nothing to drop unchanged |
| Slug.KeepSlugCharsAppend | iai_app/iai_logic.py:23 | the filter works character by character: filtering a concatenation concatenates the filtered parts |
| Slug.KeepSlugCharsDrops | iai_app/iai_logic.py:23 | a character that is neither whitelisted nor whitespace is removed |
| Slug.DashSpaceRuns | iai_app/iai_logic.py:24 | the result is empty exactly when the input is |
| Slug.DashSpaceRunsNoSpace | iai_app/iai_logic.py:24 | no whitespace is left after the run replacement |
| Slug.DashNoSpace | iai_app/iai_logic.py:24 | a text without whitespace is left unchanged by the run replacement |
| Slug.DashBlank | iai_app/iai_logic.py:24 | a non-empty run of whitespace on its own becomes exactly one hyphen |
| Slug.DashRunBetween | iai_app/iai_logic.py:24 | a maximal run of whitespace between two pieces becomes exactly one hyphen, and the pieces are replaced on their own |
| Slug.DashSpaceRunsAppend | iai_app/iai_logic.py:24 | the run replacement can be applied separately on both sides of any cut that does not split a run of whitespace |
| Slug.DashSpaceRunsSlugChars | iai_app/iai_logic.py:23-24 | after the filter, replacing whitespace runs introduces no character outside the whitelist |
| Slug.HalveDoubleHyphensLength | iai_app/iai_logic.py:25 | the replace pass never lengthens the text and empties only the empty text |
| Slug.HalveNoHyphen | iai_app/iai_logic.py:25 | a text without hyphens is left unchanged by the replace pass |
| Slug.HalveAfterNoHyphen | iai_app/iai_logic.py:25 | a prefix without hyphens passes the replace pass unchanged, whatever follows it |
| Slug.HalveDoubleHyphensSlugChars | iai_app/iai_logic.py:25 | the replace pass introduces no character outside the whitelist |
| Slug.HalveHyphenRun | iai_app/iai_logic.py:25 | `HalveDoubleHyphens`, the model of `replace("--", "-")`, turns a run of k hyphens into a run of (k + 1) / 2 in one pass, so runs are shortened, not collapsed |
| Slug.ThreeHyphensLeaveTwo | iai_app/iai_logic.py:25 | "---" becomes "--", so a double hyphen can survive the pass |
| Slug.Slugify | iai_app/iai_logic.py:21-26 | a slug is never empty and is made only of whitelisted characters, and it is "company" whenever the filter leaves nothing |
| Slug.SlugKeepsContent | iai_app/iai_logic.py:21-26 | hyphens and whitespace aside, the slug holds exactly the filtered name's characters, in order |
| Slug.SlugOfBlank | iai_app/iai_logic.py:22-26 | a name that is all whitespace gets the fallback slug "company" |
| Slug.CleanedOfLower | iai_app/iai_logic.py:22-23 | lower-casing a name first does not change its trimmed, lower-cased and filtered form |
| Slug.SlugIgnoresCase | iai_app/iai_logic.py:21-26 | a name and its lower case get the same slug |
| Slug.SlugOfSameLower | iai_app/iai_logic.py:21-26 | two names that differ only in case get the same slug |
| Slug.SlugOfAcme | iai_app/iai_logic.py:21-26 | "ACME" and "acme" get the same slug |
| Slug.SlugHasNoSpace | iai_app/iai_logic.py:24 | no whitespace character is left in any slug |
| Slug.CleanedHyphens | iai_app/iai_logic.py:22-23 | a run of hyphens is left unchanged by trimming, lower-casing and the whitelist filter |
| Slug.SlugOfHyphens | iai_app/iai_logic.py:21-26 | a name that cleans to k hyphens gets the slug of (k + 1) / 2 hyphens, so the slug of "---" is "--" and the slug of "--" is "-" |
| Slug.SlugOfSpacedHyphen | iai_app/iai_logic.py:21-26 | for any two words a and b of whitelisted characters other than the hyphen, the name "a - b" gets the slug "a--b" |
| Coercion.ParseUnsigned | iai_app/iai_logic.py:35 | an unsigned decimal converts to a value that is never negative |
| Coercion.UnsignedRefusesStray | iai_app/iai_logic.py:35 | an unsigned decimal that holds a character other than a digit or the point is refused |
| Coercion.UnsignedRefusesTwoDots | iai_app/iai_logic.py:35 | an unsigned decimal with a second point is refused |
| Coercion.UnsignedNeedsDigit | iai_app/iai_logic.py:35 | a text without a single digit is refused as an unsigned decimal |
| Coercion.ParseUnsignedOfDecimal | iai_app/iai_logic.py:35 | the text str(n) + "." + str(d), read as an unsigned decimal, gives n plus d divided by 10 to the number of digits of d |
| Coercion.ParseFloatOfDecimal | iai_app/iai_logic.py:35 | a score string such as "7.5" converts to its decimal value |
| Coercion.DecimalValueExample | iai_app/iai_logic.py:35 | the whole part 7 and the fraction digits 5 make the value 7.5 |
| Coercion.ParseFloat | iai_app/iai_logic.py:35 | a text that is all whitespace never converts, and a negative value needs a leading minus sign after stripping |
| Coercion.ParseFloatRefusesSeparator | iai_app/iai_logic.py:34-37 | `float()` refuses a string holding an information separator U+001C–U+001F anywhere, even at an end where `strip()` would have removed it |
| Coercion.SeparatorScoreRefused | iai_app/iai_logic.py:34-37 | the score string "\x1c5" is refused, although stripping it would leave "5" |
| Coercion.ParseFloatIgnoresStrip | iai_app/iai_logic.py:35 | for a string without information separators, `float(text.strip()) == float(text)` |
| FloatSpace.FloatStrip | iai_app/iai_logic.py:35 | the text `float()` reads is never longer than the input and has none of `float()`'s whitespace at either end |
| FloatSpace.FloatStripTrimmed | iai_app/iai_logic.py:35 | a text with none of `float()`'s whitespace at either end is read whole |
| FloatSpace.FloatStripIsMiddle | iai_app/iai_logic.py:35 | the text `float()` reads is a contiguous piece of the input with only the whitespace `float()` skips on either side |
| FloatSpace.SeparatorIsRead | iai_app/iai_logic.py:35 | an information separator is never skipped by `float()`: it stays inside the text that is read |
| FloatSpace.FloatStripIdempotent | iai_app/iai_logic.py:35 | skipping `float()`'s whitespace a second time changes nothing |
| FloatSpace.FloatStripIsStrip | iai_app/iai_logic.py:35 | without information separators, the text `float()` reads is exactly the `strip()`ped text |
| FloatSpace.FloatStripStartsStrip | iai_app/iai_logic.py:35 | when the text `float()` reads starts with a character that is not whitespace, the `strip()`ped text starts with the same character |
| Text.StripStartsAt | iai_app/iai_logic.py:35 | a text whose first non-whitespace character is `s[k]` keeps `s[k]` as the first character after `strip()` |
| Coercion.ParseFloatRefusesStray | iai_app/iai_logic.py:34-37 | `float()` refuses a string whose text, once its outer whitespace is skipped, holds a character other than a digit or the point, except a sign in first place |
| Coercion.ParseFloatRefusesTwoDots | iai_app/iai_logic.py:34-37 | `float()` refuses a string with two decimal points |
| Coercion.ParseFloatNeedsDigit | iai_app/iai_logic.py:34-37 | `float()` refuses a string without a digit, such as "", "." or "-" |
| Coercion.ParseFloatOfNoData | iai_app/iai_logic.py:34-37 | `float()` refuses the string "нет данных" |
| Coercion.ParseFloatIgnoresOuterSpace | iai_app/iai_logic.py:35 | the whitespace `float()` skips around a string score makes no difference to its value |
| Coercion.ToFloat | iai_app/iai_logic.py:35 | `float()` refuses null, lists and objects, and only strings besides them; a number converts to itself, and a boolean to 1 when true and 0 when false |
| Coercion.ParseUnsignedOfDigits | iai_app/iai_logic.py:35 | the decimal digits of n, read as an unsigned decimal, give n back |
| Coercion.DigitsValueOfDigits | iai_app/iai_logic.py:35 | the value of the decimal digits of n is n |
| Coercion.ParseFloatOfDigits | iai_app/iai_logic.py:35 | a score given as the string of a whole number converts to that number, so `float(str(n)) == n` |
| Coercion.ParseFloatOfNegativeDigits | iai_app/iai_logic.py:35 | a leading minus sign negates the value, so `float("-" + str(n)) == -n` |
| Rounding.Round1 | iai_app/iai_logic.py:43 | `round(x, 1)` is a whole number of tenths, and is within 0.05 of x |
| Rounding.Round1OfTenth | iai_app/iai_logic.py:62 | a value that already has one decimal is unchanged by rounding |
| Rounding.Round1Idempotent | iai_app/iai_logic.py:62 | rounding the already rounded index again changes nothing |
| Rounding.Round1Monotone | iai_app/iai_logic.py:43 | rounding preserves order |
| Rounding.Round1NonNegative | iai_app/iai_logic.py:43 | rounding a non-negative mean gives a non-negative index |
| Scoring.ScoreOf | iai_app/iai_logic.py:33-37 | a missing block or a score that does not convert reads as 0, a score that converts reads as its converted value, and any score other than 0 comes from a block whose score converts to it |
| Scoring.ScoreOfNumber | iai_app/iai_logic.py:33-37 | a score given as a JSON number counts as that number, whatever its sign |
| Scoring.ScoreOfSeparatorString | iai_app/iai_logic.py:33-37 | a string score holding an information separator U+001C–U+001F counts as 0 |
| Scoring.ScoreOfDigitString | iai_app/iai_logic.py:33-37 | a score given as the string of a whole number counts as that number |
| Scoring.ScoreOfBool | iai_app/iai_logic.py:33-37 | a boolean score counts as 1 when true and as 0 when false |
| Scoring.ScoreOfNonNumericString | iai_app/iai_logic.py:33-37 | a string score with a character other than a digit or the point (a leading sign aside) counts as 0 |
| Scoring.ScoreOfNoData | iai_app/iai_logic.py:33-37 | the score "нет данных" counts as 0 |
| Scoring.TotalWeightSignal | iai_app/iai_logic.py:38-41 | the total weight is never negative, and it is positive exactly when some score is positive |
| Scoring.WeightedSumAtLeast | iai_app/iai_logic.py:38-40 | if every positive score is at least lo, then the weighted sum is at least lo times the total weight |
| Scoring.WeightedSumAtMost | iai_app/iai_logic.py:38-40 | if every positive score is at most hi, then the weighted sum is at most hi times the total weight |
| Scoring.CodeTerms | iai_app/iai_logic.py:8-15 | every weight is positive, and some term has a positive score exactly when some code does |
| Scoring.MeanAtLeast | iai_app/iai_logic.py:43 | a weighted mean is at least any lower bound of the positive scores |
| Scoring.MeanAtMost | iai_app/iai_logic.py:43 | a weighted mean is at most any upper bound of the positive scores |
| Scoring.MeanNonNegative | iai_app/iai_logic.py:38-43 | the unrounded index is never negative |
| Scoring.CalculateIai | iai_app/iai_logic.py:29-43 | the index is never negative, has one decimal, and is exactly 0 when no code has a positive score |
| Scoring.IaiBetweenScores | iai_app/iai_logic.py:29-43 | with some positive score, the unrounded index lies between the least and the greatest positive score, and the index between their roundings |
| Scoring.IaiOfUniformScores | iai_app/iai_logic.py:29-43 | when all six codes share one positive score s, the index is s rounded |
| Scoring.IaiOnNominalScale | iai_app/iai_logic.py:29-43 | when no score exceeds 10, the index lies in [0, 10] |
| Scoring.IaiOffNominalScale | iai_app/iai_logic.py:29-43 | a lone FSI score of 15 gives an index of 15.0, outside the nominal scale |
| Scoring.IaiDependsOnlyOnCodeScores | iai_app/iai_logic.py:32-37 | two maps whose six coerced scores agree have the same index |
| Scoring.IaiIgnoresOtherKeys | iai_app/iai_logic.py:32-33 | adding or replacing a block under a key outside the six codes leaves the index unchanged |
| Scoring.IaiDropsSilentCode | iai_app/iai_logic.py:33-38 | a block whose score is missing, non-numeric or at most 0 counts exactly as if the code were absent |
| Scoring.DropSilentTerms | iai_app/iai_logic.py:38-40 | terms that differ only in scores at most 0 give the same weighted sum and total weight |
| Scoring.IaiWorkedExample | iai_app/iai_logic.py:8-43 | FSI 8, MPI 0 and PTI 6 give (8·0.30 + 6·0.20) / 0.50 = 7.2 |
| Seqs.FilterMapAppend | iai_app/iai_logic.py:146 | filtering a concatenation is the concatenation of the filtered parts, so order is kept |
| Seqs.FilterMapNoneKept | iai_app/iai_logic.py:146 | when nothing passes the filter, the result is empty |
| Seqs.FilterMapAllKept | iai_app/iai_logic.py:146 | when everything passes the filter, the result is the element-by-element image |
| Sanitizer.IsHttpUrlSpec | iai_app/iai_logic.py:161-162 | `IsHttpUrl`, the model of `_is_http_url`, accepts a value as a URL exactly when it is a string whose stripped, lower-cased form starts with "http://" or "https://" |
| Sanitizer.AcceptsAnyCaseScheme | iai_app/iai_logic.py:161-162 | a string starting with "http://" or "https://" in any mix of capitals is accepted, whatever follows |
| Sanitizer.AcceptsCapitalScheme | iai_app/iai_logic.py:161-162 | a string starting with "HTTPS://" is accepted, whatever follows |
| Sanitizer.CleanSourceAccepted | iai_app/iai_logic.py:161-162 | a stripped HTTP(S) URL is accepted by `_is_http_url` and left alone by `strip()` |
| Sanitizer.AcceptedSourceIsClean | iai_app/iai_logic.py:146 | stripping a source that `_is_http_url` accepts yields a clean HTTP(S) URL |
| Sanitizer.CleanSources | iai_app/iai_logic.py:146 | a fact never ends up with more sources than it came with |
| Sanitizer.CleanSourcesAreClean | iai_app/iai_logic.py:146 | every source left after sanitizing is an HTTP(S) URL with no outer whitespace |
| Sanitizer.CleanSourcesAppend | iai_app/iai_logic.py:146 | sources are filtered piecewise, so the kept ones keep their relative order |
| Sanitizer.CleanSourcesDropsRejected | iai_app/iai_logic.py:146 | when no source is an HTTP(S) URL, none is kept |
| Sanitizer.CleanSourcesKeepsAccepted | iai_app/iai_logic.py:146 | when every source is an HTTP(S) URL, all are kept, each stripped, in order |
| Sanitizer.CleanSourcesOfClean | iai_app/iai_logic.py:146 | clean URLs pass through the source filter unchanged |
| Sanitizer.Sanitize | iai_app/iai_logic.py:141-158 | the keys are kept, each score is kept as given or defaults to 0, and each block keeps its number of facts |
| Sanitizer.SanitizedFact | iai_app/iai_logic.py:145-153 | each fact gets its title and description, or "" when absent, and its sources filtered |
| Sanitizer.SanitizeIsCanonical | iai_app/iai_logic.py:141-158 | every source in a sanitized map is a clean HTTP(S) URL |
| Sanitizer.CanonicalIsFixedPoint | iai_app/iai_logic.py:141-158 | a map in sanitized form comes back unchanged from sanitizing |
| Sanitizer.SanitizeIdempotent | iai_app/iai_logic.py:141-158 | sanitizing a sanitized map again changes nothing |
| Evaluation.ReadReply | iai_app/iai_logic.py:98-102 | a pass yields an answer exactly when the model's reply decodes |
| Evaluation.Merge | iai_app/iai_logic.py:53-63 | the record keeps the chosen sub-indices' keys, is in sanitized form, has a one-decimal index, and never has an empty name when a name was given |
| Evaluation.EvaluateCompany | iai_app/iai_logic.py:46-51 | research is always asked for first, and at most two requests are sent; a success needs both |
| Evaluation.FailedResearchStops | iai_app/iai_logic.py:46-51 | an empty or unusable research reply fails the evaluation with its error, and the aggregation pass is never asked for |
| Evaluation.AggregationGetsRawResearch | iai_app/iai_logic.py:47-51 | the aggregation pass is sent the research answer's tags and sub-indices as they came, unsanitized |
| Evaluation.EvaluationSucceedsIffBothAnswer | iai_app/iai_logic.py:46-63 | an evaluation succeeds exactly when both passes answer, and its record is then the merge of the two answers |
| Evaluation.MergedNamePrecedence | iai_app/iai_logic.py:59 | the record's name is the aggregation's if non-empty, else the research pass's if non-empty, else the name asked for |
| Evaluation.MergedTags | iai_app/iai_logic.py:60 | the tags are the aggregation's when it has any, else the research pass's |
| Evaluation.MergedSubindices | iai_app/iai_logic.py:53-54 | the sub-indices are the aggregation's if it returned any, else the research pass's, sanitized either way |
| Evaluation.MergedIaiRecomputable | iai_app/iai_logic.py:56-62 | without an index from the aggregation, the record's index equals `calculate_iai` of the record's own sub-indices |
| Evaluation.MergedIaiFromAggregation | iai_app/iai_logic.py:56-62 | a non-zero index from the aggregation wins over the computed one, rounded to one decimal |
| Evaluation.MergedSubindicesStable | iai_app/iai_logic.py:54-61 | the record's sub-indices, read back as raw input and sanitized again, come out unchanged |
| App.RequestedName | iai_app/app.py:134-135 | a missing or falsy body or name reads as "", a string name is taken as is, and the handler fails exactly on a non-object body or a truthy non-string name |
| App.Row | iai_app/app.py:149 | the row stores the analysis's own name and index, and the whole analysis |
| App.RowShownByCompany | iai_app/app.py:149 | a row written for an analysis is shown by the company page with the analysis's name, index, sub-indices and tags |
| App.Admit | iai_app/app.py:139-150 | an existing slug or a failed evaluation leaves the store as it was; otherwise exactly one new row is added, under the slug |
| App.Analyze | iai_app/app.py:132-150 | no stored row is ever changed or removed; a changed store means a "created" answer and exactly one new slug; the status is 200, 400 or 500 |
| App.Company | iai_app/app.py:110-124 | the page is not found exactly when the slug is not stored; otherwise it shows the stored name, index, sub-indices and tags |
| App.SlugIgnoresOuterSpace | iai_app/app.py:135-139 | the slug of the trimmed name equals the slug of the name as given |
| App.AnalyzeRejectsBlank | iai_app/app.py:134-137 | a blank name gets 400 with the fixed message; nothing is stored and the model is not asked |
| App.AnalyzeAdmitsName | iai_app/app.py:135-140 | a name that is not blank is looked up and stored under the slug of the name asked for, never the model's name, and is evaluated in its trimmed form |
| App.AdmitFindsExisting | iai_app/app.py:139-142 | a stored slug gets "exists" with that slug; nothing is stored and the model is not asked |
| App.AdmitReportsFailure | iai_app/app.py:144-147 | a failed evaluation gets 500 with the error's message, and the store is unchanged |
| App.AdmitCreates | iai_app/app.py:144-150 | a successful evaluation adds exactly one row, under the slug that was looked up, holding the analysis with its name and index, and answers "created" |
| App.AdmitThenExists | iai_app/app.py:139-150 | once a slug has been created, the same request gets "exists", whatever the model would answer |
| App.AnalyzeThenExists | iai_app/app.py:139-150 | after a successful analysis, the same request gets "exists", whatever the model would answer |
| App.CompanyAfterAdmit | iai_app/app.py:110-122 | after a successful analysis, the company page under the new slug shows the analysis |

## Left out

- The language-model client and prompts (`_run_subindex_research`, `_run_final_aggregation`, iai_app/iai_logic.py:66-97 and 105-133). The model is the `llm` parameter. A failed call, an empty reply and an undecodable reply are the three error replies.
- `json.loads` of the model's content. Replies are typed records. A reply of the wrong shape is not modelled: a non-object `subindices`, a non-list `facts`, a non-string title, or a `null` field where a value is expected. The source would raise on some of these and pass others through to the page. When the research reply has a wrong shape, the source may still send the aggregation request before it fails.
- Evaluation.Merge: the aggregation's `iai` is taken as a number. The source passes it through `float()`, so a numeric string also works there, and a non-numeric string raises.
- Rounding.Round1: ties (an exact half-tenth) round up. Python rounds the binary double, which can land either way, and exact reals stand in for floats throughout.
- Coercion.ParseFloatIgnoresOuterSpace: states that the whitespace `float()` itself skips makes no difference. It does not promise `float(text.strip()) == float(text)` for every text, because `strip()` also removes U+001C–U+001F and `float()` does not; `Coercion.ParseFloatIgnoresStrip` states that equation for texts without those characters.
- Coercion.ParseFloat: accepts an optional sign and `ddd`, `ddd.ddd`, `ddd.` or `.ddd`. It rejects exponents, `_` separators, `inf` and `nan`, and non-ASCII digits, all of which Python's `float()` accepts.
- Text.LowerChar: lower-cases ASCII, the Cyrillic capitals U+0400–U+042F and the Kelvin sign. Other letters are left unchanged. This covers every character the slug whitelist and the URL test can tell apart, except U+0130, whose Python lower case is two characters long.
- App.Analyze: the request body is taken as an already decoded JSON value. The framework's own rejection of a missing or malformed JSON body is left out.
- App.Row: the handler's fallbacks to the input name and to an index of 0 (iai_app/app.py:149) cannot apply, because every analysis has both fields.
- iai_app/db.py is not part of this model beyond a map from slug to row. Connections, table creation, `created_at` timestamps and the listing order of the index page are out of scope.
- Concurrent requests are not modelled. Two requests racing to insert the same slug, guarded only by the table's `UNIQUE` constraint, would raise outside the handler's `try`.
- The JSON round trip of the stored analysis (`json.dumps` on insert, `json.loads` on the company page) is taken as the identity.
- The index page, the methodology page, the 404 template and the static methodology text are presentation only.
