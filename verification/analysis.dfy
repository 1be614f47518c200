/** `perform_analysis` of analysis.py after its concurrent fan-out: which tasks
    are scheduled, and how the list of outcomes that `asyncio.gather` returns
    (in scheduling order, exceptions captured as values) becomes the mapping
    from criterion name to result and the overall eligibility tier. The model
    calls themselves are not part of this module: their outcomes are an input. */
module Analysis {
  import opened Values
  import opened Scoring
  import Prompts

  /** One criterion of the loaded catalogue. */
  datatype Criterion = Criterion(name: string, fullText: string)

  /** The evaluation context (`visa_info`). A missing key reads as the
      default that `visa_info.get` supplies: no criteria, no instructions, an
      empty comparable-evidence text and `None` for the super-criteria. */
  datatype VisaInfo = VisaInfo(
    criteria: seq<Criterion>,
    generalInstructions: seq<string>,
    comparableEvidence: string,
    superCriteria: Value)

  /** A scheduled evaluation: the coroutine call `evaluate_super_criteria(cv_text,
      general_instructions)` or `evaluate_criterion(cv_text, criterion,
      general_instructions, comparable_evidence)`, with its arguments. */
  datatype Task =
    | SuperTask(cvText: string, generalInstructions: seq<string>)
    | CriterionTask(cvText: string, criterionFullText: string, generalInstructions: seq<string>, comparableEvidence: string)

  /** The task's prompt carries what its coroutine passes to the template:
      the CV text and every general instruction, plus the criterion's text
      and the comparable evidence for a criterion task, or the award
      catalogue for the super task. */
  ghost predicate CarriesInputs(p: string, task: Task) {
    match task
    case SuperTask(cvText, instructions) => Prompts.CarriesSuperInputs(p, cvText, instructions)
    case CriterionTask(cvText, fullText, instructions, evidence) =>
      Prompts.CarriesCriterionInputs(p, cvText, fullText, instructions, evidence)
  }

  /** The prompt a task sends to the model. */
  function Prompt(task: Task): (p: string)
    ensures CarriesInputs(p, task)
  {
    match task
    case SuperTask(cvText, instructions) => Prompts.SuperPromptFor(cvText, instructions)
    case CriterionTask(cvText, fullText, instructions, evidence) =>
      Prompts.CriterionPromptFor(cvText, fullText, instructions, evidence)
  }

  /** The overall result of one run: `criteria_results` and `eligibility_rating`. */
  datatype Run = Run(criteriaResults: map<string, Value>, eligibility: Tier)

  /** Reading `"rating" in super_result` when the super task raised is a
      `TypeError`, so `perform_analysis` itself raises. */
  datatype AnalysisError = SuperResultNotIterable

  /** The key under which a decisive super-criteria result is stored. */
  const SuperKey := "super_criteria"

  /** A super-criteria rating at or above this value decides the run. */
  const SuperRating := 9

  /** Whether the super-criteria task is scheduled. */
  predicate SchedulesSuper(visa: VisaInfo) {
    Truthy(visa.superCriteria)
  }

  /** Position of the first standard outcome in the gathered list. */
  function StandardOffset(visa: VisaInfo): nat {
    if SchedulesSuper(visa) then 1 else 0
  }

  /** The task evaluating the super-criteria. */
  function SuperTaskFor(cvText: string, visa: VisaInfo): Task {
    SuperTask(cvText, visa.generalInstructions)
  }

  /** The task evaluating one standard criterion. */
  function CriterionTaskFor(cvText: string, visa: VisaInfo, c: Criterion): Task {
    CriterionTask(cvText, c.fullText, visa.generalInstructions, visa.comparableEvidence)
  }

  /** The tasks of one run, in the order they are handed to `gather`. */
  function Schedule(cvText: string, visa: VisaInfo): (tasks: seq<Task>)
    ensures |tasks| == StandardOffset(visa) + |visa.criteria|
  {
    var superTasks := if SchedulesSuper(visa) then [SuperTaskFor(cvText, visa)] else [];
    superTasks + CriterionTasks(cvText, visa)
  }

  /** One task per standard criterion, in the catalogue's order. */
  function CriterionTasks(cvText: string, visa: VisaInfo): (tasks: seq<Task>)
    ensures |tasks| == |visa.criteria|
    ensures forall i :: 0 <= i < |visa.criteria| ==> tasks[i] == CriterionTaskFor(cvText, visa, visa.criteria[i])
  {
    seq(|visa.criteria|, i requires 0 <= i < |visa.criteria| => CriterionTaskFor(cvText, visa, visa.criteria[i]))
  }

  /** Task `StandardOffset + i` evaluates criterion `i`. */
  lemma ScheduleAtCriterion(cvText: string, visa: VisaInfo, i: nat)
    requires i < |visa.criteria|
    ensures Schedule(cvText, visa)[StandardOffset(visa) + i] == CriterionTaskFor(cvText, visa, visa.criteria[i])
  {
    var superTasks := if SchedulesSuper(visa) then [SuperTaskFor(cvText, visa)] else [];
    var rest := CriterionTasks(cvText, visa);
    assert Schedule(cvText, visa) == superTasks + rest;
    assert (superTasks + rest)[StandardOffset(visa) + i] == rest[i];
  }

  /** When the super-criteria are set, the first task evaluates them. */
  lemma ScheduleAtSuper(cvText: string, visa: VisaInfo)
    requires SchedulesSuper(visa)
    ensures Schedule(cvText, visa)[0] == SuperTaskFor(cvText, visa)
  {
  }

  /** The super task is scheduled exactly when the flag is truthy, and then
      it comes first; every other task evaluates a standard criterion. */
  lemma ScheduleOrder(cvText: string, visa: VisaInfo)
    ensures var tasks := Schedule(cvText, visa);
      forall k :: 0 <= k < |tasks| ==> (tasks[k].SuperTask? <==> k == 0 && SchedulesSuper(visa))
  {
    var tasks := Schedule(cvText, visa);
    forall k | 0 <= k < |tasks|
      ensures tasks[k].SuperTask? <==> k == 0 && SchedulesSuper(visa)
    {
      if k >= StandardOffset(visa) {
        assert tasks[StandardOffset(visa) + (k - StandardOffset(visa))] == tasks[k];
      }
    }
  }

  /** `{"error": str(e)}`: the entry recorded for a task that raised. */
  function ErrorEntry(message: string): Value {
    VDict(map["error" := VStr(message)])
  }

  /** The entry recorded for one standard outcome. */
  function Entry(o: Outcome): (v: Value)
    ensures v.VDict?
    ensures o.Returned? ==> v == VDict(o.fields)
    ensures o.Raised? ==> v == ErrorEntry(o.message)
  {
    match o
    case Returned(fields) => VDict(fields)
    case Raised(message) => ErrorEntry(message)
  }

  /** The `results` dictionary after the loop has visited the first
      `|outcomes|` standard outcomes: each is stored under the name of the
      criterion at the same index, a later name overwriting an earlier one. */
  function CollectResults(criteria: seq<Criterion>, outcomes: seq<Outcome>): (results: map<string, Value>)
    requires |outcomes| <= |criteria|
    ensures |results| <= |outcomes|
  {
    if outcomes == [] then map[]
    else
      var n := |outcomes| - 1;
      CollectResults(criteria, outcomes[..n])[criteria[n].name := Entry(outcomes[n])]
  }

  /** No criterion after index `i` (and before `n`) shares criterion `i`'s name. */
  predicate LastWithName(criteria: seq<Criterion>, n: nat, i: nat)
    requires i < n <= |criteria|
  {
    forall j :: i < j < n ==> criteria[j].name != criteria[i].name
  }

  /** The collected names are exactly the names of the visited criteria. */
  lemma {:induction false} CollectResultsKeys(criteria: seq<Criterion>, outcomes: seq<Outcome>)
    requires |outcomes| <= |criteria|
    ensures CollectResults(criteria, outcomes).Keys == set i | 0 <= i < |outcomes| :: criteria[i].name
    decreases |outcomes|
  {
    if outcomes != [] {
      var n := |outcomes| - 1;
      CollectResultsKeys(criteria, outcomes[..n]);
      NamesStep(criteria, n);
    }
  }

  /** The names of the first `n + 1` criteria are those of the first `n`
      and one more. */
  lemma NamesStep(criteria: seq<Criterion>, n: nat)
    requires n < |criteria|
    ensures (set i | 0 <= i < n + 1 :: criteria[i].name)
            == (set i | 0 <= i < n :: criteria[i].name) + {criteria[n].name}
  {
  }

  /** Every collected entry is a dictionary. */
  lemma {:induction false} CollectResultsAreDicts(criteria: seq<Criterion>, outcomes: seq<Outcome>)
    requires |outcomes| <= |criteria|
    ensures forall k :: k in CollectResults(criteria, outcomes) ==> CollectResults(criteria, outcomes)[k].VDict?
    decreases |outcomes|
  {
    if outcomes != [] {
      CollectResultsAreDicts(criteria, outcomes[..|outcomes| - 1]);
    }
  }

  /** Each name holds the outcome at the index of the last criterion carrying
      it, recovered by position and not by completion order. */
  lemma {:induction false} CollectResultsCorrelates(criteria: seq<Criterion>, outcomes: seq<Outcome>, i: nat)
    requires |outcomes| <= |criteria|
    requires i < |outcomes| && LastWithName(criteria, |outcomes|, i)
    ensures criteria[i].name in CollectResults(criteria, outcomes)
    ensures CollectResults(criteria, outcomes)[criteria[i].name] == Entry(outcomes[i])
    decreases |outcomes|
  {
    var n := |outcomes| - 1;
    if i < n {
      assert LastWithName(criteria, n, i);
      CollectResultsCorrelates(criteria, outcomes[..n], i);
      assert outcomes[..n][i] == outcomes[i];
    }
  }

  /** The short-circuit test on the super result: a non-empty dictionary whose
      `rating` is an `int` of at least 9. A captured exception makes the
      membership test on it raise instead. */
  function SuperDecides(superResult: Outcome): (r: Result<bool, AnalysisError>)
    ensures r.Err? <==> superResult.Raised?
    ensures r == Ok(true) <==>
      && superResult.Returned?
      && "rating" in superResult.fields
      && IntOf(superResult.fields["rating"]).Some?
      && IntOf(superResult.fields["rating"]).value >= SuperRating
  {
    match superResult
    case Raised(_) => Err(SuperResultNotIterable)
    case Returned(fields) =>
      Ok(fields != map[] && "rating" in fields &&
         match IntOf(fields["rating"])
         case Some(rating) => rating >= SuperRating
         case None => false)
  }

  /** The part of `perform_analysis` after `gather`, as a function of the
      gathered outcomes (one per scheduled task, in scheduling order). */
  function Analyze(visa: VisaInfo, responses: seq<Outcome>): (r: Result<Run, AnalysisError>)
    requires |responses| == StandardOffset(visa) + |visa.criteria|
    ensures r.Err? <==> SchedulesSuper(visa) && responses[0].Raised?
  {
    var standard := responses[StandardOffset(visa)..];
    var results := CollectResults(visa.criteria, standard);
    var scored := Ok(Run(results, TierOf(PositiveCount(standard))));
    if !SchedulesSuper(visa) then scored
    else match SuperDecides(responses[0])
      case Err(e) => Err(e)
      case Ok(decides) =>
        if decides then Ok(Run(results[SuperKey := VDict(responses[0].fields)], High)) else scored
  }

  /** The dictionary `perform_analysis` returns. */
  function ToDict(run: Run): (d: map<string, Value>)
    ensures d.Keys == {"criteria_results", "eligibility_rating"}
  {
    map["criteria_results" := VDict(run.criteriaResults),
        "eligibility_rating" := VStr(run.eligibility.Name())]
  }

  /** Every entry of a run's `criteria_results` is a dictionary. */
  predicate EntriesAreDicts(run: Run) {
    forall k :: k in run.criteriaResults ==> run.criteriaResults[k].VDict?
  }

  /** Whatever the outcomes, every entry of a successful run is a dictionary:
      a returned one, an error marker, or the super result. */
  lemma AnalyzeEntriesAreDicts(visa: VisaInfo, responses: seq<Outcome>)
    requires |responses| == StandardOffset(visa) + |visa.criteria|
    requires Analyze(visa, responses).Ok?
    ensures EntriesAreDicts(Analyze(visa, responses).value)
  {
    CollectResultsAreDicts(visa.criteria, responses[StandardOffset(visa)..]);
  }

  /** The loop of `perform_analysis` over the standard responses: each is
      stored under the name of the criterion at its index, an exception as
      its error marker. */
  method ProcessStandardResponses(criteria: seq<Criterion>, standard: seq<Outcome>) returns (results: map<string, Value>)
    requires |standard| <= |criteria|
    ensures results == CollectResults(criteria, standard)
  {
    results := map[];
    var idx := 0;
    while idx < |standard|
      invariant 0 <= idx <= |standard|
      invariant results == CollectResults(criteria, standard[..idx])
    {
      CollectResultsStep(criteria, standard, idx);
      var name := criteria[idx].name;
      match standard[idx] {
        case Raised(message) =>
          results := results[name := VDict(map["error" := VStr(message)])];
        case Returned(fields) =>
          results := results[name := VDict(fields)];
      }
      idx := idx + 1;
    }
    assert standard[..idx] == standard;
  }

  /** One more visited outcome adds its entry under its criterion's name. */
  lemma CollectResultsStep(criteria: seq<Criterion>, outcomes: seq<Outcome>, k: nat)
    requires k < |outcomes| <= |criteria|
    ensures CollectResults(criteria, outcomes[..k + 1])
            == CollectResults(criteria, outcomes[..k])[criteria[k].name := Entry(outcomes[k])]
  {
    assert outcomes[..k + 1][..k] == outcomes[..k];
  }

  /** `perform_analysis` from the gathered outcomes on: split off the super
      result, fill `results` in a loop, then apply the short-circuit or the
      scoring policy. */
  method PerformAnalysis(visa: VisaInfo, responses: seq<Outcome>) returns (r: Result<Run, AnalysisError>)
    requires |responses| == StandardOffset(visa) + |visa.criteria|
    ensures r == Analyze(visa, responses)
  {
    var superResult: Option<Outcome>;
    var standard: seq<Outcome>;
    if SchedulesSuper(visa) {
      superResult := Some(responses[0]);
      standard := responses[1..];
    } else {
      superResult := None;
      standard := responses;
    }

    var results := ProcessStandardResponses(visa.criteria, standard);

    if superResult.Some? && superResult.value.Raised? {
      return Err(SuperResultNotIterable);
    }
    var overall: Tier;
    if superResult.Some? && superResult.value.fields != map[] && "rating" in superResult.value.fields
       && IntOf(superResult.value.fields["rating"]).Some? && IntOf(superResult.value.fields["rating"]).value >= SuperRating
    {
      results := results[SuperKey := VDict(superResult.value.fields)];
      overall := High;
    } else {
      overall := ScoreEligibility(standard);
    }
    r := Ok(Run(results, overall));
  }

  /** A super-criteria result with an integer rating of at least 9 makes the
      run "high" and is stored under "super_criteria", whatever the standard
      outcomes are. Every standard criterion keeps its key, and the last
      criterion of each name keeps its own entry unless that name is
      "super_criteria", which the super result overwrites. */
  lemma ShortCircuit(visa: VisaInfo, responses: seq<Outcome>)
    requires |responses| == StandardOffset(visa) + |visa.criteria|
    requires SchedulesSuper(visa) && responses[0].Returned?
    requires "rating" in responses[0].fields
    requires IntOf(responses[0].fields["rating"]).Some? && IntOf(responses[0].fields["rating"]).value >= SuperRating
    ensures Analyze(visa, responses).Ok?
    ensures Analyze(visa, responses).value.eligibility == High
    ensures Analyze(visa, responses).value.criteriaResults[SuperKey] == VDict(responses[0].fields)
    ensures forall i :: 0 <= i < |visa.criteria| ==> visa.criteria[i].name in Analyze(visa, responses).value.criteriaResults
    ensures forall i | 0 <= i < |visa.criteria| && LastWithName(visa.criteria, |visa.criteria|, i) && visa.criteria[i].name != SuperKey ::
      Analyze(visa, responses).value.criteriaResults[visa.criteria[i].name] == Entry(responses[1 + i])
  {
    var standard := responses[1..];
    CollectResultsKeys(visa.criteria, standard);
    assert responses[0].fields != map[];
    var results := CollectResults(visa.criteria, standard);
    assert SuperDecides(responses[0]) == Ok(true);
    assert Analyze(visa, responses) == Ok(Run(results[SuperKey := VDict(responses[0].fields)], High));
    forall i | 0 <= i < |visa.criteria|
      ensures visa.criteria[i].name in results
    {
      assert visa.criteria[i].name in (set j | 0 <= j < |standard| :: visa.criteria[j].name);
    }
    forall i | 0 <= i < |visa.criteria| && LastWithName(visa.criteria, |visa.criteria|, i)
      ensures results[visa.criteria[i].name] == Entry(responses[1 + i])
    {
      CollectResultsCorrelates(visa.criteria, standard, i);
      assert standard[i] == responses[1 + i];
    }
  }

  /** Without a decisive super result the tier is the scoring policy applied
      to the standard outcomes only, and the result keys are exactly the
      criterion names. */
  lemma ScoredWithoutSuper(visa: VisaInfo, responses: seq<Outcome>)
    requires |responses| == StandardOffset(visa) + |visa.criteria|
    requires SchedulesSuper(visa) ==> SuperDecides(responses[0]) == Ok(false)
    ensures Analyze(visa, responses).Ok?
    ensures Analyze(visa, responses).value.eligibility
            == TierOf(PositiveCount(responses[StandardOffset(visa)..]))
    ensures Analyze(visa, responses).value.criteriaResults.Keys
            == set i | 0 <= i < |visa.criteria| :: visa.criteria[i].name
  {
    AnalyzeScored(visa, responses);
    CollectResultsKeys(visa.criteria, responses[StandardOffset(visa)..]);
  }

  /** A super task that raised makes `perform_analysis` raise. */
  lemma SuperRaisedFails(visa: VisaInfo, responses: seq<Outcome>)
    requires |responses| == StandardOffset(visa) + |visa.criteria|
    requires SchedulesSuper(visa) && responses[0].Raised?
    ensures Analyze(visa, responses) == Err(SuperResultNotIterable)
  {
  }

  /** A standard task that raised is recorded as `{"error": message}` under
      its criterion's name, and, unless the super result decides the run, the
      tier is computed as if that task were absent. */
  lemma PartialFailureIsolated(visa: VisaInfo, responses: seq<Outcome>, i: nat)
    requires |responses| == StandardOffset(visa) + |visa.criteria|
    requires SchedulesSuper(visa) ==> SuperDecides(responses[0]) == Ok(false)
    requires i < |visa.criteria| && LastWithName(visa.criteria, |visa.criteria|, i)
    requires responses[StandardOffset(visa) + i].Raised?
    ensures Analyze(visa, responses).Ok?
    ensures var results := Analyze(visa, responses).value.criteriaResults;
      visa.criteria[i].name in results
      && results[visa.criteria[i].name] == ErrorEntry(responses[StandardOffset(visa) + i].message)
    ensures var standard := responses[StandardOffset(visa)..];
      Analyze(visa, responses).value.eligibility == TierOf(PositiveCount(standard[..i] + standard[i + 1..]))
  {
    PartialFailureEntry(visa, responses, i);
    PartialFailureTier(visa, responses, i);
  }

  lemma PartialFailureEntry(visa: VisaInfo, responses: seq<Outcome>, i: nat)
    requires |responses| == StandardOffset(visa) + |visa.criteria|
    requires SchedulesSuper(visa) ==> SuperDecides(responses[0]) == Ok(false)
    requires i < |visa.criteria| && LastWithName(visa.criteria, |visa.criteria|, i)
    requires responses[StandardOffset(visa) + i].Raised?
    ensures Analyze(visa, responses).Ok?
    ensures var results := Analyze(visa, responses).value.criteriaResults;
      visa.criteria[i].name in results
      && results[visa.criteria[i].name] == ErrorEntry(responses[StandardOffset(visa) + i].message)
  {
    var standard := responses[StandardOffset(visa)..];
    AnalyzeScored(visa, responses);
    CollectResultsCorrelates(visa.criteria, standard, i);
    assert standard[i] == responses[StandardOffset(visa) + i];
  }

  lemma PartialFailureTier(visa: VisaInfo, responses: seq<Outcome>, i: nat)
    requires |responses| == StandardOffset(visa) + |visa.criteria|
    requires SchedulesSuper(visa) ==> SuperDecides(responses[0]) == Ok(false)
    requires i < |visa.criteria|
    requires responses[StandardOffset(visa) + i].Raised?
    ensures Analyze(visa, responses).Ok?
    ensures var standard := responses[StandardOffset(visa)..];
      Analyze(visa, responses).value.eligibility == TierOf(PositiveCount(standard[..i] + standard[i + 1..]))
  {
    var standard := responses[StandardOffset(visa)..];
    AnalyzeScored(visa, responses);
    PositiveCountRemove(standard, i);
  }

  /** Without a decisive super result the run is the collected results with
      the scored tier. */
  lemma AnalyzeScored(visa: VisaInfo, responses: seq<Outcome>)
    requires |responses| == StandardOffset(visa) + |visa.criteria|
    requires SchedulesSuper(visa) ==> SuperDecides(responses[0]) == Ok(false)
    ensures var standard := responses[StandardOffset(visa)..];
      Analyze(visa, responses) == Ok(Run(CollectResults(visa.criteria, standard), TierOf(PositiveCount(standard))))
  {
  }
}
