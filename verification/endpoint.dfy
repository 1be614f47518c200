/** The request handling of main.py around the analysis: the upload's file
    type decides which text extractor runs (or rejects the upload), and the
    `verbose` flag decides whether the chain-of-thought reasoning is removed
    from every criterion result before it is returned. */
module Endpoint {
  import opened Values
  import Analysis

  /** The three extraction paths. */
  datatype FileKind = Pdf | Docx | Text

  /** An HTTP error response: status code and detail text. */
  datatype HttpError = HttpError(status: int, detail: string)

  const UnsupportedFileType := HttpError(400, "Unsupported file type.")

  /** An unhandled exception inside the handler becomes a server error. */
  const InternalServerError := HttpError(500, "Internal Server Error")

  /** `criteria_results` is present but is not a dictionary, so calling
      `.items()` on it raises `AttributeError`. */
  datatype FilterError = CriteriaResultsNotDict

  // ---------------------------------------------------------------------
  // The file-type rule of `process_cv_and_analysis`.

  /** `filename.split('.')[-1]`: the longest suffix without a dot, that is,
      the text after the last dot, or the whole name when there is none. */
  function AfterLastDot(name: string): (ext: string)
    ensures |ext| <= |name|
    ensures '.' !in ext
  {
    if name == [] then []
    else if name[|name| - 1] == '.' then []
    else AfterLastDot(name[..|name| - 1]) + [name[|name| - 1]]
  }

  /** The extension is dot-free, ends the name, and is either the whole name
      or preceded by a dot. */
  lemma {:induction false} AfterLastDotSpec(name: string)
    ensures var ext := AfterLastDot(name);
      && '.' !in ext
      && |ext| <= |name| && name[|name| - |ext|..] == ext
      && (ext == name || name[|name| - |ext| - 1] == '.')
  {
    if name != [] && name[|name| - 1] != '.' {
      var n := |name| - 1;
      AfterLastDotSpec(name[..n]);
      var e := AfterLastDot(name[..n]);
      var ext := e + [name[n]];
      assert name[..n][n - |e|..] == e;
      assert name[|name| - |ext|..] == name[..n][n - |e|..] + [name[n]];
      if e != name[..n] {
        assert name[|name| - |ext| - 1] == name[..n][n - |e| - 1];
      }
    }
  }

  function LowerChar(c: char): char {
    if 'A' <= c <= 'Z' then (c as int - 'A' as int + 'a' as int) as char else c
  }

  /** `str.lower()` on the letters that matter here (see README). */
  function Lower(s: string): (r: string)
    ensures |r| == |s|
    ensures forall i :: 0 <= i < |s| ==> r[i] == LowerChar(s[i])
  {
    seq(|s|, i requires 0 <= i < |s| => LowerChar(s[i]))
  }

  /** The extraction path for a lower-cased file type. */
  function KindOf(fileType: string): (r: Result<FileKind, HttpError>)
    ensures r == Ok(Pdf) <==> fileType == "pdf"
    ensures r == Ok(Docx) <==> fileType == "docx"
    ensures r == Ok(Text) <==> fileType in {"txt", "text"}
    ensures r.Err? ==> r.error == UnsupportedFileType
  {
    if fileType == "pdf" then Ok(Pdf)
    else if fileType == "docx" then Ok(Docx)
    else if fileType == "txt" || fileType == "text" then Ok(Text)
    else Err(UnsupportedFileType)
  }

  /** The extraction path chosen for an uploaded file name. */
  function Classify(filename: string): (r: Result<FileKind, HttpError>)
    ensures r.Err? ==> r.error == UnsupportedFileType
  {
    KindOf(Lower(AfterLastDot(filename)))
  }

  /** Only the text after the last dot matters: any prefix ending in a dot
      can be put in front of a dot-free extension. */
  lemma {:induction false} AfterLastDotOfSuffix(prefix: string, ext: string)
    requires '.' !in ext
    ensures AfterLastDot(prefix + "." + ext) == ext
    decreases |ext|
  {
    var name := prefix + "." + ext;
    if ext == [] {
      assert name[|name| - 1] == '.';
    } else {
      var n := |ext| - 1;
      assert name[..|name| - 1] == prefix + "." + ext[..n];
      AfterLastDotOfSuffix(prefix, ext[..n]);
      assert ext[..n] + [ext[n]] == ext;
    }
  }

  /** Classification looks at the last extension only, and the upload is
      accepted exactly for the extensions pdf, docx, txt and text in any
      letter case; everything else is a 400 "Unsupported file type.". */
  lemma ClassifyByExtension(prefix: string, ext: string)
    requires '.' !in ext
    ensures Classify(prefix + "." + ext) == Classify(ext)
    ensures Classify(ext) == Ok(Pdf) <==> Lower(ext) == "pdf"
    ensures Classify(ext) == Ok(Docx) <==> Lower(ext) == "docx"
    ensures Classify(ext) == Ok(Text) <==> Lower(ext) == "txt" || Lower(ext) == "text"
    ensures Classify(ext).Err? <==> Lower(ext) !in {"pdf", "docx", "txt", "text"}
    ensures Classify(ext).Err? ==> Classify(ext).error == UnsupportedFileType
  {
    AfterLastDotOfSuffix(prefix, ext);
    AfterLastDotSpec(ext);
  }

  /** Lower-casing the whole name first changes nothing: the rule is
      case-insensitive. */
  lemma {:induction false} ClassifyIgnoresCase(filename: string)
    ensures Classify(Lower(filename)) == Classify(filename)
  {
    LowerCommutes(filename);
    var ext := AfterLastDot(filename);
    LowerIdempotent(ext);
    calc {
      Classify(Lower(filename));
      KindOf(Lower(AfterLastDot(Lower(filename))));
      KindOf(Lower(Lower(ext)));
      KindOf(Lower(ext));
    }
  }

  /** Lower-casing distributes over concatenation. */
  lemma LowerAppend(a: string, b: string)
    ensures Lower(a + b) == Lower(a) + Lower(b)
  {
  }

  /** Lower-casing twice is lower-casing once. */
  lemma LowerIdempotent(s: string)
    ensures Lower(Lower(s)) == Lower(s)
  {
    forall i | 0 <= i < |s|
      ensures Lower(Lower(s))[i] == Lower(s)[i]
    {
      assert Lower(s)[i] == LowerChar(s[i]);
    }
  }

  /** Lower-casing commutes with taking the last extension. */
  lemma {:induction false} LowerCommutes(name: string)
    ensures AfterLastDot(Lower(name)) == Lower(AfterLastDot(name))
    decreases |name|
  {
    if name != [] {
      var n := |name| - 1;
      var low := Lower(name);
      assert low[n] == LowerChar(name[n]);
      if name[n] != '.' {
        var ext := AfterLastDot(name[..n]);
        calc {
          AfterLastDot(low);
          AfterLastDot(low[..n]) + [low[n]];
          { assert low[..n] == Lower(name[..n]); }
          AfterLastDot(Lower(name[..n])) + [low[n]];
          { LowerCommutes(name[..n]); }
          Lower(ext) + [LowerChar(name[n])];
          { LowerAppend(ext, [name[n]]); }
          Lower(ext + [name[n]]);
          Lower(AfterLastDot(name));
        }
      }
    }
  }

  // ---------------------------------------------------------------------
  // `filter_analysis_results` and the `verbose` choice.

  /** One criterion entry after filtering: a dictionary is reduced to its
      `rating` and `evidence_list` (None when absent); anything else is kept. */
  function Project(details: Value): (r: Value)
    ensures !details.VDict? ==> r == details
    ensures details.VDict? ==>
      && r.VDict? && r.entries.Keys == {"rating", "evidence_list"}
      && ("rating" in details.entries ==> r.entries["rating"] == details.entries["rating"])
      && ("rating" !in details.entries ==> r.entries["rating"] == VNone)
      && ("evidence_list" in details.entries ==> r.entries["evidence_list"] == details.entries["evidence_list"])
      && ("evidence_list" !in details.entries ==> r.entries["evidence_list"] == VNone)
  {
    if details.VDict? then
      VDict(map["rating" := GetOr(details.entries, "rating", VNone),
                "evidence_list" := GetOr(details.entries, "evidence_list", VNone)])
    else details
  }

  /** The result of `filter_analysis_results`, or the error it raises. */
  function Filter(full: map<string, Value>): (r: Result<map<string, Value>, FilterError>)
    ensures r.Err? <==> "criteria_results" in full && !full["criteria_results"].VDict?
    ensures r.Ok? ==> r.value.Keys == {"criteria_results", "eligibility_rating"}
  {
    var source := GetOr(full, "criteria_results", VDict(map[]));
    if !source.VDict? then Err(CriteriaResultsNotDict)
    else
      Ok(map["criteria_results" := VDict(map k | k in source.entries :: Project(source.entries[k])),
             "eligibility_rating" := GetOr(full, "eligibility_rating", VNone)])
  }

  /** `filter_analysis_results`: fill the filtered dictionary entry by entry. */
  method FilterAnalysisResults(full: map<string, Value>) returns (r: Result<map<string, Value>, FilterError>)
    ensures r == Filter(full)
  {
    var source := if "criteria_results" in full then full["criteria_results"] else VDict(map[]);
    if !source.VDict? {
      return Err(CriteriaResultsNotDict);
    }
    var entries := source.entries;
    var filtered: map<string, Value> := map[];
    var remaining := entries.Keys;
    while remaining != {}
      invariant remaining <= entries.Keys
      invariant filtered.Keys == entries.Keys - remaining
      invariant forall k :: k in filtered ==> filtered[k] == Project(entries[k])
      decreases remaining
    {
      var criterion :| criterion in remaining;
      var details := entries[criterion];
      if details.VDict? {
        filtered := filtered[criterion := VDict(map[
          "rating" := if "rating" in details.entries then details.entries["rating"] else VNone,
          "evidence_list" := if "evidence_list" in details.entries then details.entries["evidence_list"] else VNone])];
      } else {
        filtered := filtered[criterion := details];
      }
      remaining := remaining - {criterion};
    }
    assert filtered == map k | k in entries :: Project(entries[k]);
    var rating := if "eligibility_rating" in full then full["eligibility_rating"] else VNone;
    r := Ok(map["criteria_results" := VDict(filtered), "eligibility_rating" := rating]);
  }

  /** What filtering promises: it fails only when `criteria_results` is
      present and not a dictionary; otherwise the output has the same
      criterion keys as the input (none when `criteria_results` is missing),
      every dictionary entry keeps exactly `rating` and `evidence_list` (None
      when absent) so `chain_of_thought` never survives, other entries are
      copied unchanged, and `eligibility_rating` is copied. */
  lemma FilterContract(full: map<string, Value>)
    ensures Filter(full).Err? <==> "criteria_results" in full && !full["criteria_results"].VDict?
    ensures Filter(full).Ok? ==>
      var out := Filter(full).value;
      var source := GetOr(full, "criteria_results", VDict(map[]));
      && out.Keys == {"criteria_results", "eligibility_rating"}
      && out["eligibility_rating"] == GetOr(full, "eligibility_rating", VNone)
      && out["criteria_results"].VDict?
      && out["criteria_results"].entries.Keys == source.entries.Keys
      && ("criteria_results" !in full ==> out["criteria_results"].entries == map[])
      && (forall k :: k in source.entries && source.entries[k].VDict? ==>
            && out["criteria_results"].entries[k].VDict?
            && out["criteria_results"].entries[k].entries.Keys == {"rating", "evidence_list"}
            && "chain_of_thought" !in out["criteria_results"].entries[k].entries
            && out["criteria_results"].entries[k].entries["rating"] == GetOr(source.entries[k].entries, "rating", VNone)
            && out["criteria_results"].entries[k].entries["evidence_list"] == GetOr(source.entries[k].entries, "evidence_list", VNone))
      && (forall k :: k in source.entries && !source.entries[k].VDict? ==>
            out["criteria_results"].entries[k] == source.entries[k])
  {
  }

  /** The `verbose` choice of `analyze_cv_endpoint`. */
  function SelectOutput(full: map<string, Value>, verbose: bool): (r: Result<map<string, Value>, FilterError>)
    ensures r.Err? <==> !verbose && "criteria_results" in full && !full["criteria_results"].VDict?
    ensures r.Ok? && verbose ==> r.value == full
    ensures r.Ok? && !verbose ==> r.value.Keys == {"criteria_results", "eligibility_rating"}
  {
    if verbose then Ok(full) else Filter(full)
  }

  /** The endpoint once the analysis has run: reject unsupported uploads
      with 400 before anything else; an analysis that raised, or a filter
      that raised, escapes the endpoint as a 500; otherwise return the full
      or the filtered result. */
  function AnalyzeCv(filename: string, verbose: bool, analysis: Result<Analysis.Run, Analysis.AnalysisError>): (r: Result<map<string, Value>, HttpError>)
    ensures r.Ok? <==>
      && Classify(filename).Ok?
      && analysis.Ok?
      && (verbose || Filter(Analysis.ToDict(analysis.value)).Ok?)
    ensures Classify(filename).Ok? && analysis.Err? ==> r == Err(InternalServerError)
    ensures r.Ok? && verbose ==> r.value == Analysis.ToDict(analysis.value)
    ensures r.Ok? && !verbose ==> r.value == Filter(Analysis.ToDict(analysis.value)).value
  {
    match Classify(filename)
    case Err(e) => Err(e)
    case Ok(_) =>
      match analysis
      case Err(_) => Err(InternalServerError)
      case Ok(run) =>
        match SelectOutput(Analysis.ToDict(run), verbose)
        case Ok(output) => Ok(output)
        case Err(_) => Err(InternalServerError)
  }

  /** The endpoint's four outcomes: an unsupported upload gets 400 whatever
      the analysis did; a supported upload whose analysis raised gets 500;
      otherwise `verbose` gets the full result and its absence the filtered
      one. */
  lemma EndpointChoosesOutput(filename: string, verbose: bool, analysis: Result<Analysis.Run, Analysis.AnalysisError>)
    ensures Classify(filename).Err? ==> AnalyzeCv(filename, verbose, analysis) == Err(UnsupportedFileType)
    ensures Classify(filename).Ok? && analysis.Err? ==> AnalyzeCv(filename, verbose, analysis) == Err(InternalServerError)
    ensures Classify(filename).Ok? && analysis.Ok? && verbose
            ==> AnalyzeCv(filename, verbose, analysis) == Ok(Analysis.ToDict(analysis.value))
    ensures Classify(filename).Ok? && analysis.Ok? && !verbose && Filter(Analysis.ToDict(analysis.value)).Ok?
            ==> AnalyzeCv(filename, verbose, analysis) == Ok(Filter(Analysis.ToDict(analysis.value)).value)
    ensures Classify(filename).Ok? && analysis.Ok? && !verbose && Filter(Analysis.ToDict(analysis.value)).Err?
            ==> AnalyzeCv(filename, verbose, analysis) == Err(InternalServerError)
  {
    if Classify(filename).Err? {
      assert Classify(filename) == KindOf(Lower(AfterLastDot(filename)));
    }
  }

  /** The output of filtering a run's dictionary, entry by entry. */
  predicate HidesReasoning(run: Analysis.Run, out: map<string, Value>)
    requires Analysis.EntriesAreDicts(run)
  {
    && "eligibility_rating" in out && "criteria_results" in out
    && out["eligibility_rating"] == VStr(run.eligibility.Name())
    && out["criteria_results"].VDict?
    && out["criteria_results"].entries.Keys == run.criteriaResults.Keys
    && (forall k :: k in run.criteriaResults ==>
          && out["criteria_results"].entries[k].VDict?
          && "chain_of_thought" !in out["criteria_results"].entries[k].entries
          && "rating" in out["criteria_results"].entries[k].entries
          && out["criteria_results"].entries[k].entries["rating"]
             == GetOr(run.criteriaResults[k].entries, "rating", VNone))
  }

  /** Filtering the dictionary of a run never fails: it keeps every
      criterion and the tier, keeps each rating, and drops every
      chain-of-thought. */
  lemma FilterRun(run: Analysis.Run)
    requires Analysis.EntriesAreDicts(run)
    ensures Filter(Analysis.ToDict(run)).Ok?
    ensures HidesReasoning(run, Filter(Analysis.ToDict(run)).value)
  {
    var full := Analysis.ToDict(run);
    var results := run.criteriaResults;
    var filtered := map k | k in results :: Project(results[k]);
    var out := map["criteria_results" := VDict(filtered), "eligibility_rating" := VStr(run.eligibility.Name())];
    assert GetOr(full, "criteria_results", VDict(map[])) == VDict(results);
    assert Filter(full) == Ok(out);
    forall k | k in results
      ensures filtered[k].VDict? && "chain_of_thought" !in filtered[k].entries
      ensures "rating" in filtered[k].entries && filtered[k].entries["rating"] == GetOr(results[k].entries, "rating", VNone)
    {
      assert filtered[k] == Project(results[k]);
    }
  }

  /** For a supported upload, the non-verbose response is the filtered run:
      no chain-of-thought anywhere, every criterion and rating kept. */
  lemma EndpointHidesReasoning(filename: string, run: Analysis.Run)
    requires Analysis.EntriesAreDicts(run)
    requires Classify(filename).Ok?
    ensures AnalyzeCv(filename, false, Ok(run)).Ok?
    ensures HidesReasoning(run, AnalyzeCv(filename, false, Ok(run)).value)
  {
    FilterRun(run);
    assert AnalyzeCv(filename, false, Ok(run)) == Ok(Filter(Analysis.ToDict(run)).value);
  }
}
