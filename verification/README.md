# Visa eligibility checker — a Dafny model

This project models the decision logic of an O-1A visa eligibility checker.
The checker sends a CV, together with each criterion of the visa catalogue,
to a language model. It turns the model's answers into a per-criterion
result dictionary and an overall tier: "low", "medium" or "high". A single
outstanding award (the "super-criteria") decides the run on its own. The
service also cleans the text extracted from the uploaded CV. It chooses
the text extractor from the file extension, and it strips the model's
reasoning from the response unless `verbose` is set.

The modules follow the source files:

- `values.dfy` (`Values`): Python values (`None`, `bool`, `int`, `str`,
  `list`, `dict`), `isinstance(x, int)` including `bool`, truthiness, and
  `dict.get`.
- `scoring.dfy` (`Scoring`): `score_eligibility`. It is an imperative loop
  proved against the counting function `PositiveCount` and the threshold
  table `TierOf`.
- `responses.dfy` (`Responses`): the dictionary `query_llm` returns. This is
  either the dumped structured result or the parse-failure marker.
- `prompts.dfy` (`Prompts`): the two prompt builders and the space-join of
  the general instructions.
- `analysis.dfy` (`Analysis`): `perform_analysis` from the gathered outcomes
  on. It covers the task schedule (each task is the coroutine call with its
  arguments, and `Prompt` gives the prompt that call sends), the results loop (an imperative method
  proved against `CollectResults`, inside `PerformAnalysis`, which is proved
  against `Analyze`), the super-criteria short-circuit and the
  fallback to scoring.
- `endpoint.dfy` (`Endpoint`): the extension dispatch of
  `process_cv_and_analysis`, and `filter_analysis_results` (an imperative
  method proved against `Filter`). It also covers the `verbose` choice of
  `analyze_cv_endpoint`.
- `cleanser.dfy` (`Cleanser`): `clean_text`, one function per pass. The
  email pass is modelled as the regex engine's left-to-right scan and
  proved equal to a token-by-token description.
- `strings.dfy` (`Strings`): keeping the characters that pass a test, and
  joining and splitting on a one-character separator. Prompts and cleaner
  share these operations.

The outcomes of `asyncio.gather(..., return_exceptions=True)` are an input
to the model. They are a `seq<Outcome>` in scheduling order, and each entry
is either a returned dictionary or a raised exception, kept as its message.
Two points where the code is looser than its own wording:

- The prompts ask for a rating from 1 to 10 (analysis.py:41 and 82), but
  the structured result declares `rating` as a plain `int`
  (analysis.py:21), so any integer is accepted and counted.
  `Responses.CriterionResult` takes any `int`.
- A super-criteria task that raised is not isolated the way a standard one
  is (analysis.py:219 and 231-234). `"rating" in super_result`
  (analysis.py:239) raises `TypeError` on the exception object, so the
  whole analysis fails. This is `Err(SuperResultNotIterable)` in
  `Analysis.Analyze`.

## Model

| member | source | states |
|---|---|---|
| Values.IntOf | analysis.py:176 | `isinstance(x, int)` holds exactly for ints and bools; an int reads as itself, a bool as 0 or 1 |
| Scoring.Tier.Name | analysis.py:178-183 | the rendered tier is always one of "low", "medium", "high" |
| Scoring.IsPositive | analysis.py:174-176 | a response counts only when it is a returned dict that has a `rating` key (the default 0 never counts) |
| Scoring.TierOf | analysis.py:178-183 | the threshold table: "high" iff the count is >= 6, "medium" iff it is 3..5, "low" iff it is < 3 |
| Scoring.PositiveCount | analysis.py:172-177 | the positive count never exceeds the number of responses |
| Scoring.PositiveCountExtremes | analysis.py:172-177 | the count equals the number of responses only when every response is positive, and is 0 only when none is |
| Scoring.ScoreEligibility | analysis.py:164-183 | the loop's result is the threshold table applied to the positive count: "high" iff count >= 6, "medium" iff 3 <= count <= 5, "low" iff count < 3 |
| Scoring.PositiveCountAppend | analysis.py:172-177 | the count of a concatenation is the sum of the counts |
| Scoring.PositiveCountIsCardinality | analysis.py:173-177 | the count equals the number of positions holding a dict whose rating is an int >= 6, whatever the order |
| Scoring.InsertNeverLowersTier | analysis.py:173-183 | inserting a response anywhere raises the count by one exactly when it is positive, and never lowers the tier |
| Scoring.ErrorsNeverCount | analysis.py:174-175 | captured exceptions and dicts without `rating` (default 0) never count; a list of only those scores "low" |
| Scoring.TierMonotone | analysis.py:178-183 | a larger positive count never yields a lower tier |
| Responses.ModelDump | analysis.py:121 | the dump of a parsed result has exactly the keys rating, chain_of_thought, evidence_list, and its rating reads back as the parsed int |
| Responses.ParseFailure | analysis.py:122-123 | the failure marker has exactly the keys `error` and `raw_response`, no `rating`, the raw text verbatim and an error text starting with "Could not parse response: " |
| Responses.QueryResult | analysis.py:117-123 | the result has `rating` iff the model's text parsed and `error` iff it did not, and on failure it keeps the raw text |
| Responses.QueryResultPositive | analysis.py:117-123 | a query result counts as positive iff the text parsed and its rating is >= 6; a parse failure never counts |
| Prompts.BuildCriterionPrompt | analysis.py:28-67 | the criterion prompt holds its five tagged sections (instructions, criterion, resume, general instructions, comparable evidence) in template order |
| Prompts.BuildSuperCriteriaPrompt | analysis.py:69-103 | the super-criteria prompt holds its four tagged sections (instructions, award examples, resume, general instructions) in template order |
| Prompts.CriterionPromptContainsInputs | analysis.py:34-66 | every input of the criterion prompt, and every start and end tag, occurs in it verbatim |
| Prompts.SuperPromptContainsInputs | analysis.py:75-102 | every input of the super-criteria prompt, and every start and end tag, occurs in it verbatim |
| Prompts.JoinInOrder | analysis.py:131 | the space-joined instructions contain every instruction, in list order |
| Prompts.JoinWithSpaces | analysis.py:131 | `" ".join(general_instructions)` holds every instruction, in list order |
| Prompts.CriterionPromptFor | analysis.py:126-138 | the prompt `evaluate_criterion` sends carries the CV text, the criterion's full text, the comparable evidence and every general instruction verbatim |
| Prompts.SuperPromptFor | analysis.py:140-162 | the prompt `evaluate_super_criteria` sends carries the CV text, the ten-award catalogue and every general instruction verbatim |
| Strings.SplitJoin | data_cleanser.py:47 | the "\n"-join is reversible: splitting a join of separator-free parts on the separator gives back the parts |
| Analysis.Schedule | analysis.py:203-216 | one task per criterion, plus one when the super-criteria flag is truthy |
| Analysis.CriterionTasks | analysis.py:211-215 | one `evaluate_criterion` task per criterion, in catalogue order, each on its own criterion with the run's instructions and comparable evidence |
| Analysis.ScheduleOrder | analysis.py:205-216 | the super task is scheduled iff `super_criteria` is truthy, and then it is first; all other tasks are criterion tasks |
| Analysis.ScheduleAtCriterion | analysis.py:211-215 | task offset+i is `evaluate_criterion` on the CV text, criterion i, the run's general instructions and comparable evidence |
| Analysis.ScheduleAtSuper | analysis.py:205-209 | when the super-criteria are set, task 0 is `evaluate_super_criteria` on the CV text and the run's general instructions |
| Analysis.Prompt | analysis.py:126-162 | every scheduled task's prompt carries the CV text and every general instruction; a criterion task's prompt also carries the criterion's text and the comparable evidence, the super task's the award catalogue |
| Analysis.CollectResults | analysis.py:231-236 | the results loop stores at most one entry per visited outcome (a repeated name overwrites) |
| Analysis.Entry | analysis.py:233-236 | a returned dict is stored as is; an exception becomes `{"error": message}` |
| Analysis.CollectResultsKeys | analysis.py:231-236 | the result keys are exactly the names of the criteria whose outcomes were visited |
| Analysis.CollectResultsAreDicts | analysis.py:231-236 | every collected entry is a dict |
| Analysis.CollectResultsCorrelates | analysis.py:231-236 | each name holds the outcome at the index of the last criterion with that name, matched by position |
| Analysis.SuperDecides | analysis.py:239 | the test fails (raises) exactly when the super task raised; it passes exactly for a returned dict whose `rating` is an int (or bool) >= 9 |
| Analysis.Analyze | analysis.py:221-243 | the analysis after `gather` fails exactly when the super task was scheduled and raised |
| Analysis.ToDict | analysis.py:245-248 | the returned dict has exactly the keys `criteria_results` and `eligibility_rating` |
| Analysis.AnalyzeEntriesAreDicts | analysis.py:221-243 | every entry of a successful run's `criteria_results` is a dict |
| Analysis.ProcessStandardResponses | analysis.py:231-236 | the loop over the standard responses computes `CollectResults`: each outcome under its criterion's name, an exception as its error marker |
| Analysis.PerformAnalysis | analysis.py:199-248 | the split of the outcomes, the results loop and the final choice compute `Analyze` for every list of outcomes, including the raising case |
| Analysis.ShortCircuit | analysis.py:231-241 | a super result with an int rating >= 9 makes the run "high" and is stored under "super_criteria", whatever the standard ratings; every criterion name stays a key, and the last criterion of each name keeps its own entry, except a criterion named "super_criteria", whose entry the super result overwrites |
| Analysis.ScoredWithoutSuper | analysis.py:242-243 | otherwise the tier is the scoring of the standard outcomes alone, and the result keys are exactly the criterion names: no super-criteria entry is added |
| Analysis.SuperRaisedFails | analysis.py:239 | a super task that raised makes the whole analysis fail |
| Analysis.PartialFailureIsolated | analysis.py:231-243 | a standard task that raised is stored as its error marker, and the tier is what the other outcomes alone give |
| Endpoint.AfterLastDotSpec | main.py:24 | the extension is dot-free, a suffix of the name, and either the whole name or preceded by a dot |
| Endpoint.AfterLastDotOfSuffix | main.py:24 | for any prefix and a dot-free extension, the extension of prefix + "." + extension is that extension |
| Endpoint.AfterLastDot | main.py:24 | `split('.')[-1]` is dot-free and never longer than the name (its full characterisation: Endpoint.AfterLastDotSpec) |
| Endpoint.Lower | main.py:24 | `.lower()` keeps the length and maps each character on its own, A-Z to a-z and every other character to itself |
| Endpoint.KindOf | main.py:26-33 | "pdf" selects the PDF extractor, "docx" the Word extractor, "txt" or "text" the text reader, each exactly; anything else is the 400 "Unsupported file type." |
| Endpoint.Classify | main.py:24-33 | the file-type rule rejects an upload only with the 400 "Unsupported file type." |
| Endpoint.ClassifyByExtension | main.py:24-33 | only the last extension matters; pdf, docx and txt/text in any letter case select their extractor, and anything else is a 400 "Unsupported file type." |
| Endpoint.ClassifyIgnoresCase | main.py:24 | lower-casing the file name first does not change the decision |
| Endpoint.LowerCommutes | main.py:24 | lower-casing and taking the last extension commute |
| Endpoint.FilterAnalysisResults | main.py:38-63 | the entry-by-entry loop computes `Filter`, including the failure when `criteria_results` is not a dict |
| Endpoint.Filter | main.py:50-63 | filtering fails exactly when `criteria_results` is present and not a dict; otherwise the output has exactly the keys `criteria_results` and `eligibility_rating` |
| Endpoint.Project | main.py:52-58 | a dict entry becomes a dict with exactly `rating` and `evidence_list`, each the entry's own value or None when absent; any other entry is kept unchanged |
| Endpoint.SelectOutput | main.py:78-81 | with `verbose` the full result comes back unchanged; without it the filtered result, with exactly its two keys, and the choice fails exactly when filtering raises |
| Endpoint.FilterContract | main.py:50-63 | filtering fails only on a non-dict `criteria_results`; otherwise the same criterion keys come out, each dict entry is reduced to exactly `rating` and `evidence_list` (None when absent, no `chain_of_thought`), other entries are copied unchanged, and `eligibility_rating` is copied |
| Endpoint.AnalyzeCv | main.py:66-83 | the endpoint succeeds exactly when the file type is supported, the analysis did not raise and, without `verbose`, filtering succeeds; a supported upload whose analysis raised gets a 500; with `verbose` it returns the run's full dict, without it the filtered dict |
| Endpoint.EndpointChoosesOutput | main.py:66-83 | an unsupported upload gets 400 whatever the analysis did; a supported upload whose analysis raised gets 500; otherwise `verbose` gets the full result unchanged, and its absence the filtered result, or 500 when filtering raises |
| Endpoint.FilterRun | main.py:50-63 | filtering a run's dict never fails, keeps every criterion, rating and the tier, and drops every chain-of-thought |
| Endpoint.EndpointHidesReasoning | main.py:78-79 | without `verbose`, a supported upload's response has no chain-of-thought, and every criterion and its rating are kept |
| Cleanser.AsciiOnly | data_cleanser.py:20 | the ASCII pass never lengthens the text and leaves only ASCII characters |
| Cleanser.AsciiOnlyExact | data_cleanser.py:20 | only ASCII characters remain, and each ASCII character is kept as often as it occurs |
| Cleanser.EmailMatchIsToken | data_cleanser.py:23 | the pattern matches at a position iff the whitespace-free token starting there has an '@' with a character on each side |
| Cleanser.RemoveEmails | data_cleanser.py:23 | the email pass never lengthens the text (what it deletes: Cleanser.RemoveEmailsByToken) |
| Cleanser.RemoveEmailsPreserves | data_cleanser.py:23 | the email pass only deletes: whatever holds of every input character holds of every output character |
| Cleanser.RemoveEmailsByToken | data_cleanser.py:23 | the regex scan equals the token-wise rule: each whitespace-free token with an inner '@' is deleted whole, every other token and all whitespace are kept |
| Cleanser.RemoveEmailsFacts | data_cleanser.py:23 | the email pass keeps all whitespace in order and is idempotent, so no address survives it |
| Cleanser.CollapseSpaces | data_cleanser.py:37-38 | after the collapse no two spaces are adjacent; the first character and emptiness are preserved, and the text does not grow |
| Cleanser.CollapseDropsRepeatedSpaces | data_cleanser.py:38 | the collapse equals an independent character-by-character filter that drops a space exactly when the character before it is a space, so each run of two or more spaces becomes exactly one space |
| Cleanser.CollapsePreserves | data_cleanser.py:38 | the collapse writes only characters of its input: whatever holds of every input character holds of every output character |
| Cleanser.CollapseKeepsText | data_cleanser.py:37-38 | the collapse keeps every character other than a space, newlines and tabs included, in order |
| Cleanser.CollapseFixpoint | data_cleanser.py:38 | the collapse leaves a text unchanged iff it has no two adjacent spaces |
| Cleanser.KeepAllowed | data_cleanser.py:41-42 | the filter never lengthens the text and leaves only allowed characters |
| Cleanser.KeepAllowedExact | data_cleanser.py:41-42 | only allowed characters remain (so no '@'), and each allowed character is kept as often as it occurs |
| Cleanser.SplitLines | data_cleanser.py:45 | no line holds a line break, and the empty text has no lines |
| Cleanser.SplitLinesJoin | data_cleanser.py:45 | splitting lines joined with "\n" gives them back when the last is non-empty |
| Cleanser.Strip | data_cleanser.py:46 | the result is the piece of the line left after cutting the whitespace at both ends: it neither starts nor ends with whitespace, only whitespace lies before and after it, and an already stripped line is unchanged |
| Cleanser.StripKeepsText | data_cleanser.py:46 | stripping removes only whitespace |
| Cleanser.CleanLines | data_cleanser.py:45-47 | the empty text stays empty (its other properties are the CleanLines rows below) |
| Cleanser.StripEach | data_cleanser.py:46 | one stripped line per input line, each `Strip` of the line at the same position |
| Cleanser.CleanLinesShorter | data_cleanser.py:45-47 | splitting, stripping and re-joining never lengthens the text |
| Cleanser.CleanLinesKeeps | data_cleanser.py:45-47 | every output character is "\n" or a non-break character of the input |
| Cleanser.CleanLinesNoDoubleSpace | data_cleanser.py:45-47 | the line pass creates no adjacent spaces where there were none |
| Cleanser.CleanLinesStripped | data_cleanser.py:45-47 | read back line by line, no output line starts or ends with whitespace |
| Cleanser.CleanLinesCleans | data_cleanser.py:45-47 | on ASCII, allowed text the line pass yields a cleaned text |
| Cleanser.CleanText | data_cleanser.py:9-49 | the cleaned text is never longer than the input (its full contract: Cleanser.CleanTextFacts) |
| Cleanser.CleanTextFacts | data_cleanser.py:9-49 | the result is no longer than the input, ASCII and allowed only (no '@'), breaks only with "\n", and has no line with whitespace at either end |
| Cleanser.CleanTextLeavesDoubleSpace | data_cleanser.py:37-42 | as written, "R & D" becomes "R  D": two adjacent spaces survive |
| Cleanser.CleanTextCollapsingLastFacts | data_cleanser.py:37-42 | with the collapse after the filter, the result is still cleaned and has no two adjacent spaces anywhere |

## Left out

- The language-model client is left out: the `ChatOpenAI` setup and the call in `query_llm`. Its output is an input to the model: the outcomes of the gathered tasks, or the parser's result for `Responses.QueryResult`.
- Concurrency is left out: `asyncio.create_task`, `gather` and the 60-second `wait_for` with its 504 response. `gather` is represented by its result, the outcomes in scheduling order.
- Analysis.PerformAnalysis: a captured exception that is not an `Exception` subclass (such as a cancellation) would be stored as the exception object itself rather than as an error marker; the model treats every captured failure as an `Exception`.
- The output-parser library is left out: markdown stripping, JSON decoding and pydantic's coercion of values such as "8" to 8. Only the shape of its success or failure is modelled.
- Prompts.BuildCriterionPrompt: the text the prompt-template library renders (message prefix, exact whitespace) is its own. The model lays sections out with the template's line breaks and indentation, and proves only the containment and order of fragments.
- Cleanser.CleanText: the phone-number and street-address passes (data_cleanser.py:26 and 30-35) are omitted. Their word boundaries and case-insensitive alternatives are not modelled, so both passes act as the identity here.
- Endpoint.Lower: only ASCII letters are lower-cased. Python's `str.lower` also maps non-ASCII letters, but no non-ASCII character lower-cases to a letter of pdf, docx, txt or text (the Kelvin sign gives 'k', the dotted capital I gives 'i' plus a combining dot), so the accept-or-400 decision is the same; only the lower-cased text of an unsupported extension can differ.
- Analysis.ToDict: Dafny maps are unordered, so the key order of the returned dictionaries is not modelled.
- The missing `await` on `perform_analysis` in `process_cv_and_analysis` (main.py:35) is not modelled; the endpoint is modelled as if the analysis result were awaited.
- Endpoint.Classify: the extractors' own 400 responses (an empty or unreadable PDF, a PDF without text, in file_processing.py) are not modelled; the model covers only the file-type rule.
- Text extraction, the file reads, configuration and catalogue loading, the database loader, and the FastAPI routing are not part of this model: file_processing.py, config.py, data_loader.py, data/loadCriteria.py.
- The live-model tests, and the test of `process_text` that expects cleaning it does not perform, are not modelled.

## Findings

| source | as written | input that shows it | evidently intended | confidence | as-written member | corrected member |
|---|---|---|---|---|---|---|
| data_cleanser.py:37-42 | spaces are collapsed before the disallowed characters are deleted, so deleting a character that stood between two spaces leaves two adjacent spaces | "R & D" gives "R  D" | no run of two spaces in the cleaned text, as the comment at line 37 and the "no double space" expectation of tests/test_data_cleanser.py:8 say; collapsing after the filter achieves it | high; not executed | Cleanser.CleanTextLeavesDoubleSpace | Cleanser.CleanTextCollapsingLastFacts |
