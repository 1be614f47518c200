/** The two prompt builders of analysis.py and the join of the general
    instructions. Each prompt is a fixed template whose lines are indented by
    twelve spaces; every input is placed, verbatim, on its own line between a
    `<start_NAME>` and an `<end_NAME>` tag. */
module Prompts {
  import Strings

  /** A line break followed by the template's twelve-space indentation. */
  const NL := "\n            "

  /** One section of a template: the body on its own line between a start
      tag and an end tag. */
  function Tagged(open: string, body: string, close: string): string {
    open + NL + body + NL + close
  }

  /** A template made of sections: each on its own indented line, with a
      line break before the first and after the last. */
  function Layout(sections: seq<string>): string {
    if sections == [] then NL else NL + sections[0] + Layout(sections[1..])
  }

  /** `x` occurs in `s` starting at position `i`. */
  predicate Occurs(x: string, s: string, i: nat) {
    i + |x| <= |s| && s[i..i + |x|] == x
  }

  /** Python's `x in s` for strings. */
  ghost predicate Contains(s: string, x: string) {
    exists i: nat :: Occurs(x, s, i)
  }

  /** The parts occur in `s` in the given order, without overlapping. */
  ghost predicate AppearInOrder(s: string, parts: seq<string>)
    decreases |parts|
  {
    parts == [] ||
    exists i: nat :: Occurs(parts[0], s, i) && AppearInOrder(s[i + |parts[0]|..], parts[1..])
  }

  const CriterionInstructions :=
    "You are a USCIS officer evaluating an O-1A visa petition. Follow these instructions:" + NL +
    "1. Analyze the applicant's resume content for the given criterion." + NL +
    "2. Provide detailed chain-of-thought reasoning." + NL +
    "3. Assign a rating from 1 (no evidence) to 10 (overwhelming evidence)." + NL +
    "4. List specific supporting evidence from the resume that justify your rating." + NL +
    "Return your output as a valid JSON object with keys \"rating\", \"chain_of_thought\", and \"evidence_list\". Do not include any extra text."

  const SuperInstructions :=
    "You are a USCIS officer evaluating an O-1A visa petition. Follow these instructions:" + NL +
    "1. Analyze the applicant's resume for evidence of a major internationally recognized award." + NL +
    "2. Provide detailed chain-of-thought reasoning for your evaluation." + NL +
    "3. Assign a rating from 1 to 10, where 1 indicates no evidence and 10 indicates overwhelming evidence." + NL +
    "4. List specific supporting evidence from the resume that justify your rating." + NL +
    "Return your output as a valid JSON object with keys \"rating\", \"chain_of_thought\", and \"evidence_list\". Do not include any extra text."

  /** The fixed catalogue of exemplar awards given to the super-criteria prompt. */
  const SuperAwardExamples :=
    "Examples of major internationally recognized awards include:\n" +
    "- Nobel Prize\n" +
    "- Fields Medal\n" +
    "- Turing Award\n" +
    "- Abel Prize\n" +
    "- Breakthrough Prize\n" +
    "- Lasker Award\n" +
    "- Kavli Prize\n" +
    "- Shaw Prize\n" +
    "- Wolf Prize\n" +
    "- Kyoto Prize"

  /** The sections of the criterion prompt, in template order, with its
      instruction text. */
  function CriterionSections(instructions: string, criterionText: string, cvText: string, generalInstructions: string, comparableEvidence: string): seq<string> {
    [Tagged("<start_instructions>", instructions, "<end_instructions>"),
     Tagged("<start_criterion>", criterionText, "<end_criterion>"),
     Tagged("<start_resume>", cvText, "<end_resume>"),
     Tagged("<start_general_instructions>", generalInstructions, "<end_general_instructions>"),
     Tagged("<start_comparable_evidence>", comparableEvidence, "<end_comparable_evidence>")]
  }

  /** The sections of the super-criteria prompt, in template order, with its
      instruction text. */
  function SuperSections(instructions: string, cvText: string, generalInstructions: string, superAwardExamples: string): seq<string> {
    [Tagged("<start_instructions>", instructions, "<end_instructions>"),
     Tagged("<start_super_examples>", superAwardExamples, "<end_super_examples>"),
     Tagged("<start_resume>", cvText, "<end_resume>"),
     Tagged("<start_general_instructions>", generalInstructions, "<end_general_instructions>")]
  }

  /** `build_criterion_prompt`. */
  function BuildCriterionPrompt(criterionText: string, cvText: string, generalInstructions: string, comparableEvidence: string): (p: string)
    ensures AppearInOrder(p, CriterionSections(CriterionInstructions, criterionText, cvText, generalInstructions, comparableEvidence))
  {
    var sections := CriterionSections(CriterionInstructions, criterionText, cvText, generalInstructions, comparableEvidence);
    LayoutInOrder(sections);
    Layout(sections)
  }

  /** `build_super_criteria_prompt`. */
  function BuildSuperCriteriaPrompt(cvText: string, generalInstructions: string, superAwardExamples: string): (p: string)
    ensures AppearInOrder(p, SuperSections(SuperInstructions, cvText, generalInstructions, superAwardExamples))
  {
    var sections := SuperSections(SuperInstructions, cvText, generalInstructions, superAwardExamples);
    LayoutInOrder(sections);
    Layout(sections)
  }

  /** Every section of a template occurs in it, in order. */
  lemma {:induction false} LayoutInOrder(sections: seq<string>)
    ensures AppearInOrder(Layout(sections), sections)
    decreases |sections|
  {
    if sections != [] {
      var s := Layout(sections);
      var k := |NL|;
      assert Occurs(sections[0], s, k);
      assert s[k + |sections[0]|..] == Layout(sections[1..]);
      LayoutInOrder(sections[1..]);
    }
  }

  /** A string that occurs in a suffix of `s` occurs in `s`. */
  lemma ContainsFromSuffix(s: string, j: nat, x: string)
    requires j <= |s|
    requires Contains(s[j..], x)
    ensures Contains(s, x)
  {
    var i: nat :| Occurs(x, s[j..], i);
    assert s[j + i..j + i + |x|] == s[j..][i..i + |x|];
    assert Occurs(x, s, j + i);
  }

  /** A string that occurs in a part of `s` occurs in `s`. */
  lemma ContainsTransitive(s: string, part: string, x: string)
    requires Contains(s, part)
    requires Contains(part, x)
    ensures Contains(s, x)
  {
    var i: nat :| Occurs(part, s, i);
    var j: nat :| Occurs(x, part, j);
    forall k | 0 <= k < |x|
      ensures s[i + j + k] == x[k]
    {
      assert x[k] == part[j + k];
      assert part[j + k] == s[i..i + |part|][j + k];
    }
    assert s[i + j..i + j + |x|] == x;
    assert Occurs(x, s, i + j);
  }

  /** Each of the parts occurs in a string where they appear in order. */
  lemma {:induction false} InOrderContains(s: string, parts: seq<string>, k: nat)
    requires AppearInOrder(s, parts)
    requires k < |parts|
    ensures Contains(s, parts[k])
    decreases |parts|
  {
    var i: nat :| Occurs(parts[0], s, i) && AppearInOrder(s[i + |parts[0]|..], parts[1..]);
    if k == 0 {
      assert Occurs(parts[0], s, i);
    } else {
      InOrderContains(s[i + |parts[0]|..], parts[1..], k - 1);
      ContainsFromSuffix(s, i + |parts[0]|, parts[k]);
    }
  }

  /** A tagged section holds its start tag, its body and its end tag. */
  lemma TaggedContains(s: string, open: string, body: string, close: string)
    requires Contains(s, Tagged(open, body, close))
    ensures Contains(s, open) && Contains(s, body) && Contains(s, close)
  {
    var t := Tagged(open, body, close);
    var a := |open| + |NL|;
    var b := a + |body| + |NL|;
    assert Occurs(open, t, 0);
    assert Occurs(body, t, a);
    assert t[b..] == close;
    assert Occurs(close, t, b);
    ContainsTransitive(s, t, open);
    ContainsTransitive(s, t, body);
    ContainsTransitive(s, t, close);
  }

  /** Section `k` of a prompt built from `sections` holds its tags and body. */
  lemma SectionContains(s: string, sections: seq<string>, k: nat, open: string, body: string, close: string)
    requires AppearInOrder(s, sections)
    requires k < |sections| && sections[k] == Tagged(open, body, close)
    ensures Contains(s, open) && Contains(s, body) && Contains(s, close)
  {
    InOrderContains(s, sections, k);
    TaggedContains(s, open, body, close);
  }

  /** A text holding the criterion sections in order holds each of its
      inputs and every start and end tag. */
  lemma CriterionSectionsContain(p: string, instructions: string, criterionText: string, cvText: string, generalInstructions: string, comparableEvidence: string)
    requires AppearInOrder(p, CriterionSections(instructions, criterionText, cvText, generalInstructions, comparableEvidence))
    ensures Contains(p, criterionText) && Contains(p, cvText)
      && Contains(p, generalInstructions) && Contains(p, comparableEvidence)
    ensures Contains(p, "<start_instructions>") && Contains(p, "<end_instructions>")
      && Contains(p, "<start_criterion>") && Contains(p, "<end_criterion>")
      && Contains(p, "<start_resume>") && Contains(p, "<end_resume>")
      && Contains(p, "<start_general_instructions>") && Contains(p, "<end_general_instructions>")
      && Contains(p, "<start_comparable_evidence>") && Contains(p, "<end_comparable_evidence>")
  {
    var sections := CriterionSections(instructions, criterionText, cvText, generalInstructions, comparableEvidence);
    SectionContains(p, sections, 0, "<start_instructions>", instructions, "<end_instructions>");
    SectionContains(p, sections, 1, "<start_criterion>", criterionText, "<end_criterion>");
    SectionContains(p, sections, 2, "<start_resume>", cvText, "<end_resume>");
    SectionContains(p, sections, 3, "<start_general_instructions>", generalInstructions, "<end_general_instructions>");
    SectionContains(p, sections, 4, "<start_comparable_evidence>", comparableEvidence, "<end_comparable_evidence>");
  }

  /** A text holding the super-criteria sections in order holds each of its
      inputs and every start and end tag. */
  lemma SuperSectionsContain(p: string, instructions: string, cvText: string, generalInstructions: string, superAwardExamples: string)
    requires AppearInOrder(p, SuperSections(instructions, cvText, generalInstructions, superAwardExamples))
    ensures Contains(p, cvText) && Contains(p, generalInstructions) && Contains(p, superAwardExamples)
    ensures Contains(p, "<start_instructions>") && Contains(p, "<end_instructions>")
      && Contains(p, "<start_super_examples>") && Contains(p, "<end_super_examples>")
      && Contains(p, "<start_resume>") && Contains(p, "<end_resume>")
      && Contains(p, "<start_general_instructions>") && Contains(p, "<end_general_instructions>")
  {
    var sections := SuperSections(instructions, cvText, generalInstructions, superAwardExamples);
    SectionContains(p, sections, 0, "<start_instructions>", instructions, "<end_instructions>");
    SectionContains(p, sections, 1, "<start_super_examples>", superAwardExamples, "<end_super_examples>");
    SectionContains(p, sections, 2, "<start_resume>", cvText, "<end_resume>");
    SectionContains(p, sections, 3, "<start_general_instructions>", generalInstructions, "<end_general_instructions>");
  }

  /** The criterion prompt contains each of its inputs verbatim, and every
      start and end tag of its template. */
  lemma CriterionPromptContainsInputs(criterionText: string, cvText: string, generalInstructions: string, comparableEvidence: string)
    ensures var p := BuildCriterionPrompt(criterionText, cvText, generalInstructions, comparableEvidence);
      && Contains(p, criterionText) && Contains(p, cvText)
      && Contains(p, generalInstructions) && Contains(p, comparableEvidence)
      && Contains(p, "<start_instructions>") && Contains(p, "<end_instructions>")
      && Contains(p, "<start_criterion>") && Contains(p, "<end_criterion>")
      && Contains(p, "<start_resume>") && Contains(p, "<end_resume>")
      && Contains(p, "<start_general_instructions>") && Contains(p, "<end_general_instructions>")
      && Contains(p, "<start_comparable_evidence>") && Contains(p, "<end_comparable_evidence>")
  {
    var p := BuildCriterionPrompt(criterionText, cvText, generalInstructions, comparableEvidence);
    CriterionSectionsContain(p, CriterionInstructions, criterionText, cvText, generalInstructions, comparableEvidence);
  }

  /** The super-criteria prompt contains each of its inputs verbatim, and
      every start and end tag of its template. */
  lemma SuperPromptContainsInputs(cvText: string, generalInstructions: string, superAwardExamples: string)
    ensures var p := BuildSuperCriteriaPrompt(cvText, generalInstructions, superAwardExamples);
      && Contains(p, cvText) && Contains(p, generalInstructions) && Contains(p, superAwardExamples)
      && Contains(p, "<start_instructions>") && Contains(p, "<end_instructions>")
      && Contains(p, "<start_super_examples>") && Contains(p, "<end_super_examples>")
      && Contains(p, "<start_resume>") && Contains(p, "<end_resume>")
      && Contains(p, "<start_general_instructions>") && Contains(p, "<end_general_instructions>")
  {
    var p := BuildSuperCriteriaPrompt(cvText, generalInstructions, superAwardExamples);
    SuperSectionsContain(p, SuperInstructions, cvText, generalInstructions, superAwardExamples);
  }

  // ---------------------------------------------------------------------
  // `" ".join(general_instructions)`.

  /** The general instructions as one line, separated by single spaces:
      every instruction occurs in it, in list order. */
  function JoinWithSpaces(parts: seq<string>): (r: string)
    ensures AppearInOrder(r, parts)
  {
    JoinInOrder(parts);
    Strings.JoinWith(parts, ' ')
  }

  /** The space-join holds every part, in list order. */
  lemma {:induction false} JoinInOrder(parts: seq<string>)
    ensures AppearInOrder(Strings.JoinWith(parts, ' '), parts)
    decreases |parts|
  {
    if parts != [] {
      var s := Strings.JoinWith(parts, ' ');
      assert Occurs(parts[0], s, 0);
      if |parts| == 1 {
        assert AppearInOrder(s[|parts[0]|..], parts[1..]);
      } else {
        JoinInOrder(parts[1..]);
        var rest := Strings.JoinWith(parts[1..], ' ');
        assert s == parts[0] + " " + rest;
        assert s[|parts[0]|..] == " " + rest;
        InOrderAfterPrefix(" ", rest, parts[1..]);
        assert AppearInOrder(s[|parts[0]|..], parts[1..]);
      }
    }
  }

  /** Prefixing a string keeps its parts in order. */
  lemma {:induction false} InOrderAfterPrefix(prefix: string, s: string, parts: seq<string>)
    requires AppearInOrder(s, parts)
    ensures AppearInOrder(prefix + s, parts)
  {
    if parts != [] {
      var i: nat :| Occurs(parts[0], s, i) && AppearInOrder(s[i + |parts[0]|..], parts[1..]);
      var t := prefix + s;
      var j := |prefix| + i;
      assert t[j..j + |parts[0]|] == s[i..i + |parts[0]|];
      assert t[j + |parts[0]|..] == s[i + |parts[0]|..];
      assert Occurs(parts[0], t, j);
    }
  }

  /** Every part of `joined` reaches a text that contains `joined`. */
  lemma PartsReach(p: string, joined: string, parts: seq<string>)
    requires AppearInOrder(joined, parts)
    requires Contains(p, joined)
    ensures forall k :: 0 <= k < |parts| ==> Contains(p, parts[k])
  {
    forall k | 0 <= k < |parts|
      ensures Contains(p, parts[k])
    {
      InOrderContains(joined, parts, k);
      ContainsTransitive(p, joined, parts[k]);
    }
  }

  /** `p` carries the document, the criterion's text, the comparable
      evidence and every general instruction verbatim. */
  ghost predicate CarriesCriterionInputs(p: string, cvText: string, criterionFullText: string, generalInstructions: seq<string>, comparableEvidence: string) {
    && Contains(p, cvText) && Contains(p, criterionFullText) && Contains(p, comparableEvidence)
    && forall k :: 0 <= k < |generalInstructions| ==> Contains(p, generalInstructions[k])
  }

  /** `p` carries the document, the award catalogue and every general
      instruction verbatim. */
  ghost predicate CarriesSuperInputs(p: string, cvText: string, generalInstructions: seq<string>) {
    && Contains(p, cvText) && Contains(p, SuperAwardExamples)
    && forall k :: 0 <= k < |generalInstructions| ==> Contains(p, generalInstructions[k])
  }

  /** The criterion prompt built from the joined instructions carries its inputs. */
  lemma CriterionPromptForFacts(cvText: string, criterionFullText: string, generalInstructions: seq<string>, comparableEvidence: string)
    ensures CarriesCriterionInputs(BuildCriterionPrompt(criterionFullText, cvText, JoinWithSpaces(generalInstructions), comparableEvidence),
                                   cvText, criterionFullText, generalInstructions, comparableEvidence)
  {
    var joined := JoinWithSpaces(generalInstructions);
    CriterionPromptContainsInputs(criterionFullText, cvText, joined, comparableEvidence);
    PartsReach(BuildCriterionPrompt(criterionFullText, cvText, joined, comparableEvidence), joined, generalInstructions);
  }

  /** The super-criteria prompt built from the joined instructions carries its inputs. */
  lemma SuperPromptForFacts(cvText: string, generalInstructions: seq<string>)
    ensures CarriesSuperInputs(BuildSuperCriteriaPrompt(cvText, JoinWithSpaces(generalInstructions), SuperAwardExamples),
                               cvText, generalInstructions)
  {
    var joined := JoinWithSpaces(generalInstructions);
    SuperPromptContainsInputs(cvText, joined, SuperAwardExamples);
    PartsReach(BuildSuperCriteriaPrompt(cvText, joined, SuperAwardExamples), joined, generalInstructions);
  }

  /** The prompt `evaluate_criterion` sends: it carries the document, the
      criterion's text, the comparable evidence and every general
      instruction verbatim. */
  function CriterionPromptFor(cvText: string, criterionFullText: string, generalInstructions: seq<string>, comparableEvidence: string): (p: string)
    ensures CarriesCriterionInputs(p, cvText, criterionFullText, generalInstructions, comparableEvidence)
  {
    CriterionPromptForFacts(cvText, criterionFullText, generalInstructions, comparableEvidence);
    BuildCriterionPrompt(criterionFullText, cvText, JoinWithSpaces(generalInstructions), comparableEvidence)
  }

  /** The prompt `evaluate_super_criteria` sends: it carries the document,
      the award catalogue and every general instruction verbatim. */
  function SuperPromptFor(cvText: string, generalInstructions: seq<string>): (p: string)
    ensures CarriesSuperInputs(p, cvText, generalInstructions)
  {
    SuperPromptForFacts(cvText, generalInstructions);
    BuildSuperCriteriaPrompt(cvText, JoinWithSpaces(generalInstructions), SuperAwardExamples)
  }
}
