/**
 * The "Smart Resume Analyzer" page of `main`: once a resume, a job
 * description and at least one analysis type are given and the button is
 * pressed, the resume text is extracted, every selected analysis is asked of
 * the backend and shown when it comes back non-empty, and a download bundle
 * holds every selected analysis under its own heading.
 */
module AnalysisPage {
  import opened Wrappers
  import opened Text
  import opened AiBackends
  import opened DocumentText

  const CompleteAnalysis: string := "Complete Analysis"
  const AtsOptimization: string := "ATS Optimization"
  const SkillsGapAnalysis: string := "Skills Gap Analysis"
  const QuickSummary: string := "Quick Summary"

  /**
   * `ATSAnalyzer.ANALYSIS_TYPES`: each analysis type and the prompt sent for
   * it. The prompts are long instructions to the model; they are stood in
   * for here by short non-empty texts.
   */
  const AnalysisTypes: map<string, string> := map[
    CompleteAnalysis := "Evaluate the resume against the job description.",
    AtsOptimization := "Optimise the resume for applicant tracking systems.",
    SkillsGapAnalysis := "Analyse the candidate's skills against the role.",
    QuickSummary := "Give a brief overview of the match."
  ]

  /** What was uploaded: the file name and what the libraries make of its bytes. */
  datatype Upload = Upload(name: string, parsers: Parsers)

  /**
   * What one press of the analyze button leaves behind: the responses shown
   * on the page in order, the download bundle (`None` when no button is
   * offered), and the analysis type of every `get_ai_response` call in call order.
   */
  datatype Run = Run(shown: seq<string>, bundle: Option<string>, asked: seq<string>)

  /** Python truthiness of an optional string: `None` and `""` are false. */
  predicate Truthy(r: Option<string>) {
    r.Some? && r.value != ""
  }

  /** Every selected type is a key of the table, as the multiselect offers only those. */
  predicate Known(types: seq<string>) {
    forall k :: 0 <= k < |types| ==> types[k] in AnalysisTypes
  }

  /** The response for one analysis type. */
  function Response(b: Backends, modelChoice: string, t: string, docText: string, jobDescription: string,
                    language: string): Option<string>
    requires t in AnalysisTypes
  {
    GetAiResponse(b, modelChoice, AnalysisTypes[t], docText, jobDescription, language)
  }

  /** The response for each selected type, in selection order. */
  function Responses(b: Backends, modelChoice: string, types: seq<string>, docText: string,
                     jobDescription: string, language: string): (rs: seq<Option<string>>)
    requires Known(types)
  {
    seq(|types|, k requires 0 <= k < |types| => Response(b, modelChoice, types[k], docText, jobDescription, language))
  }

  /** The responses the page shows: the truthy ones, in order. */
  function ShownOf(rs: seq<Option<string>>): seq<string>
    decreases |rs|
  {
    if rs == [] then []
    else ShownOf(rs[..|rs| - 1]) + (if Truthy(rs[|rs| - 1]) then [rs[|rs| - 1].value] else [])
  }

  /** `f"{response}"`: a missing response is written as `None`. */
  function Render(r: Option<string>): string {
    if r.Some? then r.value else "None"
  }

  /** The heading a bundle section opens with: `=== {at} ===` on a line of its own. */
  function Heading(t: string): (h: string)
    ensures |h| == |t| + 9 && h[4..|h| - 5] == t
    ensures h[..4] == "=== " && h[|h| - 5..] == " ===\n"
  {
    var h := "=== " + t + " ===\n";
    assert h[..4] == "=== ";
    assert h[|h| - 5..] == " ===\n";
    h
  }

  /** `f"=== {at} ===\n{response}"`: one analysis in the download bundle. */
  function Section(t: string, r: Option<string>): string {
    Heading(t) + Render(r)
  }

  /** The sections of the bundle, one per selected type and in selection order. */
  function Sections(types: seq<string>, rs: seq<Option<string>>): seq<string>
    requires |rs| == |types|
  {
    seq(|types|, k requires 0 <= k < |types| => Section(types[k], rs[k]))
  }

  /** The separator `"\n\n".join(...)` puts between the sections. */
  const BundleSeparator: string := "\n\n"

  /** What one press of the analyze button does, as a function of the page's inputs. */
  function Outcome(b: Backends, modelChoice: string, upload: Option<Upload>, jobDescription: string,
                   types: seq<string>, language: string): (run: Run)
    requires Known(types)
    ensures run.asked != [] <==> run.bundle.Some?
    ensures run.asked != [] ==>
              && upload.Some? && jobDescription != [] && types != []
              && Truthy(ExtractedText(upload.value.name, upload.value.parsers))
              && run.asked == types + types
    ensures upload.Some? && jobDescription != [] && types != []
            && Truthy(ExtractedText(upload.value.name, upload.value.parsers)) ==>
              run.asked == types + types && run.bundle.Some?
    ensures |run.shown| <= |types|
  {
    if upload.None? || jobDescription == "" || types == [] then Run([], None, [])
    else
      var docText := ExtractedText(upload.value.name, upload.value.parsers);
      if !Truthy(docText) then Run([], None, [])
      else
        var rs := Responses(b, modelChoice, types, docText.value, jobDescription, language);
        ShownBound(rs);
        Run(ShownOf(rs), Some(Join(BundleSeparator, Sections(types, rs))), types + types)
  }

  /** The page shows at most one response per selected type. */
  lemma {:induction false} ShownBound(rs: seq<Option<string>>)
    ensures |ShownOf(rs)| <= |rs|
    decreases |rs|
  {
    if rs != [] {
      ShownBound(rs[..|rs| - 1]);
    }
  }

  /**
   * The analyze step of `main`: the gate on the upload, the job description
   * and the selection, the text extraction, then the loop that shows each
   * analysis and the download bundle, which asks for every analysis again.
   */
  method Analyze(b: Backends, modelChoice: string, upload: Option<Upload>, jobDescription: string,
                 types: seq<string>, language: string) returns (run: Run)
    requires Known(types)
    ensures run == Outcome(b, modelChoice, upload, jobDescription, types, language)
  {
    if upload.None? || jobDescription == "" || types == [] {
      return Run([], None, []);
    }
    var docText := ExtractText(upload.value.name, upload.value.parsers);
    if docText.None? || docText.value == "" {
      return Run([], None, []);
    }
    var shown, asked := ShowAnalyses(b, modelChoice, types, docText.value, jobDescription, language);
    var bundle, askedAgain := DownloadBundle(b, modelChoice, types, docText.value, jobDescription, language);
    run := Run(shown, Some(bundle), asked + askedAgain);
  }

  /**
   * `for analysis_type in analysis_types`: ask for each analysis in
   * selection order and show the response when it is truthy. Returns what
   * was shown and the type of each call made.
   */
  method ShowAnalyses(b: Backends, modelChoice: string, types: seq<string>, docText: string,
                      jobDescription: string, language: string) returns (shown: seq<string>, asked: seq<string>)
    requires Known(types)
    ensures shown == ShownOf(Responses(b, modelChoice, types, docText, jobDescription, language))
    ensures asked == types
  {
    ghost var rs := Responses(b, modelChoice, types, docText, jobDescription, language);
    shown := [];
    asked := [];
    for i := 0 to |types|
      invariant shown == ShownOf(rs[..i])
      invariant asked == types[..i]
    {
      var t := types[i];
      var response := GetAiResponse(b, modelChoice, AnalysisTypes[t], docText, jobDescription, language);
      asked := asked + [t];
      assert rs[..i + 1][..i] == rs[..i];
      assert response == rs[i];
      if response.Some? && response.value != "" {
        shown := shown + [response.value];
      }
      assert types[..i + 1] == types[..i] + [t];
    }
    assert rs[..|types|] == rs;
  }

  /**
   * The download bundle: `"\n\n".join` over a list comprehension that asks
   * for each selected analysis again and writes it under its heading.
   * Returns the bundle and the type of each call made.
   */
  method DownloadBundle(b: Backends, modelChoice: string, types: seq<string>, docText: string,
                        jobDescription: string, language: string) returns (bundle: string, asked: seq<string>)
    requires Known(types)
    ensures bundle == Join(BundleSeparator, Sections(types, Responses(b, modelChoice, types, docText, jobDescription, language)))
    ensures asked == types
  {
    ghost var all := Sections(types, Responses(b, modelChoice, types, docText, jobDescription, language));
    var sections := [];
    asked := [];
    for i := 0 to |types|
      invariant sections == all[..i]
      invariant asked == types[..i]
    {
      var t := types[i];
      var response := GetAiResponse(b, modelChoice, AnalysisTypes[t], docText, jobDescription, language);
      asked := asked + [t];
      sections := sections + [Section(t, response)];
      assert types[..i + 1] == types[..i] + [t];
      assert all[..i + 1] == all[..i] + [Section(t, response)];
    }
    assert all[..|types|] == all;
    bundle := Join(BundleSeparator, sections);
  }

  /** With no analysis type selected the button is not offered and no backend is asked. */
  lemma EmptySelectionMakesNoCalls(b: Backends, modelChoice: string, upload: Option<Upload>,
                                   jobDescription: string, language: string)
    ensures Outcome(b, modelChoice, upload, jobDescription, [], language) == Run([], None, [])
  {
  }

  /**
   * A resume whose type is neither PDF nor Word gives no text, so no backend
   * is asked: `"resume.txt"` stops the analysis before any call.
   */
  lemma UnsupportedFileMakesNoCalls(b: Backends, modelChoice: string, parsers: Parsers, jobDescription: string,
                                    types: seq<string>, language: string)
    requires Known(types)
    ensures Outcome(b, modelChoice, Some(Upload("resume.txt", parsers)), jobDescription, types, language).asked == []
  {
    FileTypeOfDotted("resume", "txt");
    assert "resume" + "." + "txt" == "resume.txt";
    assert ExtractedText("resume.txt", parsers) == None;
  }

  /**
   * The download bundle holds the selected analyses in selection order: the
   * section of the `k`-th type starts at its offset, opens with the type's
   * heading and carries that type's response, and from the second section on
   * a blank line comes before it.
   */
  lemma BundleLayout(types: seq<string>, rs: seq<Option<string>>, k: nat)
    requires |rs| == |types| && k < |types|
    ensures var bundle := Join(BundleSeparator, Sections(types, rs));
            var offset := JoinOffset(BundleSeparator, Sections(types, rs), k);
            && OccursAt(bundle, Heading(types[k]), offset)
            && OccursAt(bundle, Render(rs[k]), offset + |Heading(types[k])|)
            && (k > 0 ==> OccursAt(bundle, BundleSeparator, offset - |BundleSeparator|))
  {
    JoinPartSplit(BundleSeparator, Sections(types, rs), k, Heading(types[k]), Render(rs[k]));
    JoinAt(BundleSeparator, Sections(types, rs), k);
  }

  /** The page's filter works response by response: filtering a concatenation filters each half. */
  lemma {:induction false} ShownOfAppend(a: seq<Option<string>>, b: seq<Option<string>>)
    ensures ShownOf(a + b) == ShownOf(a) + ShownOf(b)
    decreases |b|
  {
    if b == [] {
      assert a + b == a;
    } else {
      var init := b[..|b| - 1];
      assert (a + b)[..|a + b| - 1] == a + init;
      ShownOfAppend(a, init);
    }
  }

  /** A single response is shown exactly when it is truthy. */
  lemma ShownOfOne(r: Option<string>)
    ensures ShownOf([r]) == if Truthy(r) then [r.value] else []
  {
    assert [r][..0] == [];
  }

  /**
   * No truthy response is lost: the `k`-th response, when truthy, is shown
   * right after the responses shown for the types before it.
   */
  lemma ShownInOrder(rs: seq<Option<string>>, k: nat)
    requires k < |rs| && Truthy(rs[k])
    ensures |ShownOf(rs[..k])| < |ShownOf(rs)|
    ensures ShownOf(rs)[|ShownOf(rs[..k])|] == rs[k].value
  {
    assert rs == rs[..k] + [rs[k]] + rs[k + 1..];
    ShownOfAppend(rs[..k], [rs[k]]);
    ShownOfAppend(rs[..k] + [rs[k]], rs[k + 1..]);
    ShownOfOne(rs[k]);
  }

  /** Every response on the page is a non-empty response to one of the selected types. */
  lemma {:induction false} ShownAreAnswers(rs: seq<Option<string>>, x: string)
    requires x in ShownOf(rs)
    ensures x != "" && Some(x) in rs
    decreases |rs|
  {
    var init := rs[..|rs| - 1];
    if x in ShownOf(init) {
      ShownAreAnswers(init, x);
      assert Some(x) in init;
    } else {
      assert rs[|rs| - 1] == Some(x);
    }
  }

  /** When every analysis comes back non-empty, the page shows all of them in selection order. */
  lemma {:induction false} AllAnsweredAllShown(rs: seq<Option<string>>)
    requires forall k :: 0 <= k < |rs| ==> Truthy(rs[k])
    ensures |ShownOf(rs)| == |rs|
    ensures forall k :: 0 <= k < |rs| ==> rs[k] == Some(ShownOf(rs)[k])
    decreases |rs|
  {
    if rs != [] {
      AllAnsweredAllShown(rs[..|rs| - 1]);
    }
  }

  /**
   * A failed Gemini call is not shown on the page, but the bundle still
   * lists the analysis, with the text `None` under its heading.
   */
  lemma FailedAnalysisBundledAsNone(b: Backends, modelChoice: string, t: string, docText: string,
                                    jobDescription: string, language: string)
    requires t in AnalysisTypes && UsesGemini(b, modelChoice)
    requires b.gemini(GeminiAnalysisRequest(AnalysisTypes[t], docText, jobDescription, language)) == None
    ensures ShownOf([Response(b, modelChoice, t, docText, jobDescription, language)]) == []
    ensures Section(t, Response(b, modelChoice, t, docText, jobDescription, language)) == Heading(t) + "None"
  {
  }
}
