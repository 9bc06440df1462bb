/**
 * `ATSAnalyzer.get_ai_response`, `get_gemini_response` and
 * `format_groq_messages`: which backend answers an analysis request, what it is
 * sent, and how a Groq reply is checked and decorated. The two services are
 * oracles: each maps the request it is sent to `Some(reply)` or to `None` when
 * the call raises (or, for Groq, when the reply has no content).
 */
module AiBackends {
  import opened Wrappers
  import opened Text
  import opened Localization

  /** One `{"role": ..., "content": ...}` entry of a chat request. */
  datatype Message = Message(role: string, content: string)

  /** `genai.GenerativeModel(model).generate_content(parts)`. */
  datatype GeminiRequest = GeminiRequest(model: string, parts: seq<string>)

  /** `groq_client.chat.completions.create(messages=..., model=...)`; sampling parameters are not modelled. */
  datatype GroqRequest = GroqRequest(model: string, messages: seq<Message>)

  /**
   * The outside world as the analyzer sees it: whether a Groq client was
   * configured, and what each service answers to a request.
   */
  datatype Backends = Backends(
    groqAvailable: bool,
    gemini: GeminiRequest -> Option<string>,
    groq: GroqRequest -> Option<string>)

  /** The model choice that selects Gemini; every other choice means Groq. */
  const GeminiChoice: string := "Google Gemini"
  const AnalysisGeminiModel: string := "gemini-2.0-flash-exp"
  const GroqModel: string := "mixtral-8x7b-32768"

  /** The fixed headings of the Groq user message. */
  const RequirementsHeading: string := "\n\nAnalysis Requirements:\n"
  const JobHeading: string := "\n\nJob Description:\n"
  const ResumeHeading: string := "\n\nResume Content:\n"
  const ReminderHead: string := "\n\nRemember to:\n1. Keep the analysis in "
  const ReminderTail: string :=
    "\n2. Follow the exact format specified\n3. Provide clear, actionable feedback\n4. Include a numerical match score"

  /** The prompt `get_gemini_response` sends first: `f"Analyze in {language}. {input_prompt}"`. */
  function GeminiPrompt(language: string, inputPrompt: string): (r: string)
    ensures |r| == |"Analyze in "| + |language| + |". "| + |inputPrompt|
    ensures r[..|"Analyze in "|] == "Analyze in "
    ensures OccursAt(r, language, |"Analyze in "|)
    ensures OccursAt(r, ". ", |"Analyze in "| + |language|)
    ensures r[|r| - |inputPrompt|..] == inputPrompt
  {
    var r := "Analyze in " + language + ". " + inputPrompt;
    assert r[..|"Analyze in "|] == "Analyze in ";
    assert r[|"Analyze in "|..|"Analyze in "| + |language|] == language;
    assert r[|"Analyze in "| + |language|..|"Analyze in "| + |language| + 2] == ". ";
    r
  }

  /** The prompt keeps the analysis request: for one language, different requests give different prompts. */
  lemma GeminiPromptInjective(language: string, x: string, y: string)
    requires GeminiPrompt(language, x) == GeminiPrompt(language, y)
    ensures x == y
  {
    var r := GeminiPrompt(language, x);
    assert x == r[|r| - |x|..];
  }

  /** What `get_gemini_response` sends: the prompt, then the resume text, then the job description. */
  function GeminiAnalysisRequest(inputPrompt: string, pdfText: string, jobDescription: string, language: string)
    : (q: GeminiRequest)
    ensures q.model == AnalysisGeminiModel
    ensures q.parts == [GeminiPrompt(language, inputPrompt), pdfText, jobDescription]
  {
    GeminiRequest(AnalysisGeminiModel, [GeminiPrompt(language, inputPrompt), pdfText, jobDescription])
  }

  /** The text of the Groq user message. */
  function GroqUserContent(p: Prompts, inputPrompt: string, jobDescription: string, pdfText: string, language: string)
    : string
  {
    p.userMsg + RequirementsHeading + inputPrompt + JobHeading + jobDescription + ResumeHeading + pdfText
      + ReminderHead + language + ReminderTail
  }

  /**
   * `format_groq_messages`: the system message carrying the language's system
   * prompt, then one user message that opens with the user prompt and carries
   * the analysis request, the job description and the resume, in that order,
   * each right after its heading, and ends by naming the language.
   */
  function FormatGroqMessages(p: Prompts, inputPrompt: string, jobDescription: string, pdfText: string, language: string)
    : (r: seq<Message>)
    ensures |r| == 2
    ensures r[0] == Message("system", p.systemMsg)
    ensures r[1].role == "user"
    ensures Layout(r[1].content, p.userMsg, RequirementsHeading, inputPrompt, JobHeading, jobDescription,
                   ResumeHeading, pdfText, ReminderHead, language, ReminderTail)
  {
    var c := GroqUserContent(p, inputPrompt, jobDescription, pdfText, language);
    ContentLayout(p.userMsg, RequirementsHeading, inputPrompt, JobHeading, jobDescription, ResumeHeading, pdfText,
                  ReminderHead, language, ReminderTail);
    [Message("system", p.systemMsg), Message("user", c)]
  }

  /**
   * `c` is made of `u`, `h1`, `x1`, ..., `x4`, `h5` laid end to end: it opens
   * with `u`, each later piece starts where the previous one ends, and nothing
   * follows `h5`. This is the shape of the Groq user message.
   */
  ghost predicate Layout(c: string, u: string, h1: string, x1: string, h2: string, x2: string, h3: string,
                         x3: string, h4: string, x4: string, h5: string)
  {
    var o1 := |u| + |h1|;
    var o2 := o1 + |x1| + |h2|;
    var o3 := o2 + |x2| + |h3|;
    var o4 := o3 + |x3| + |h4|;
    && |u| <= |c| && c[..|u|] == u
    && OccursAt(c, h1, |u|) && OccursAt(c, x1, o1)
    && OccursAt(c, h2, o1 + |x1|) && OccursAt(c, x2, o2)
    && OccursAt(c, h3, o2 + |x2|) && OccursAt(c, x3, o3)
    && OccursAt(c, h4, o3 + |x3|) && OccursAt(c, x4, o4)
    && OccursAt(c, h5, o4 + |x4|) && |c| == o4 + |x4| + |h5|
  }

  /** Concatenating ten pieces lays them out end to end, for any pieces. */
  lemma ContentLayout(u: string, h1: string, x1: string, h2: string, x2: string, h3: string, x3: string,
                      h4: string, x4: string, h5: string)
    ensures Layout(u + h1 + x1 + h2 + x2 + h3 + x3 + h4 + x4 + h5, u, h1, x1, h2, x2, h3, x3, h4, x4, h5)
  {
    var c4 := u + h1 + x1 + h2 + x2;
    var c := c4 + h3 + x3 + h4 + x4 + h5;
    FrontLayout(u, h1, x1, h2, x2);
    BackLayout(c4, h3, x3, h4, x4, h5);
    assert c[..|c4|] == c4;
    assert c[..|u|] == u;
    assert OccursAt(c, h1, |u|);
    assert OccursAt(c, x1, |u|+|h1|);
    assert OccursAt(c, h2, |u|+|h1|+|x1|);
    assert OccursAt(c, x2, |u|+|h1|+|x1|+|h2|);
    assert OccursAt(c, h3, |c4|);
    assert |c| == |c4| + |h3| + |x3| + |h4| + |x4| + |h5|;
    assert OccursAt(c, x3, |c4| + |h3|);
    assert OccursAt(c, h4, |c4| + |h3| + |x3|);
    assert OccursAt(c, x4, |c4| + |h3| + |x3| + |h4|);
    assert OccursAt(c, h5, |c4| + |h3| + |x3| + |h4| + |x4|);
  }

  /** The first five pieces, laid end to end. */
  lemma FrontLayout(u: string, h1: string, x1: string, h2: string, x2: string)
    ensures var c := u + h1 + x1 + h2 + x2;
            && c[..|u|] == u
            && OccursAt(c, h1, |u|) && OccursAt(c, x1, |u| + |h1|)
            && OccursAt(c, h2, |u| + |h1| + |x1|) && OccursAt(c, x2, |u| + |h1| + |x1| + |h2|)
  {
    var c1 := u + h1;
    var c2 := c1 + x1;
    var c3 := c2 + h2;
    var c := c3 + x2;
    AppendedOccurrence(u, h1);
    AppendedOccurrence(c1, x1);
    AppendedOccurrence(c2, h2);
    AppendedOccurrence(c3, x2);
    OccursInLonger(c1, c, h1, |u|);
    OccursInLonger(c2, c, x1, |c1|);
    OccursInLonger(c3, c, h2, |c2|);
  }

  /** The last five pieces, laid end to end after a text `a` that is kept as a prefix. */
  lemma BackLayout(a: string, h3: string, x3: string, h4: string, x4: string, h5: string)
    ensures var c := a + h3 + x3 + h4 + x4 + h5;
            && c[..|a|] == a
            && OccursAt(c, h3, |a|) && OccursAt(c, x3, |a| + |h3|)
            && OccursAt(c, h4, |a| + |h3| + |x3|) && OccursAt(c, x4, |a| + |h3| + |x3| + |h4|)
            && OccursAt(c, h5, |a| + |h3| + |x3| + |h4| + |x4|)
            && |c| == |a| + |h3| + |x3| + |h4| + |x4| + |h5|
  {
    var c5 := a + h3;
    var c6 := c5 + x3;
    var c7 := c6 + h4;
    var c8 := c7 + x4;
    var c := c8 + h5;
    AppendedOccurrence(a, h3);
    AppendedOccurrence(c5, x3);
    AppendedOccurrence(c6, h4);
    AppendedOccurrence(c7, x4);
    AppendedOccurrence(c8, h5);
    assert c[..|a|] == a;
    OccursInLonger(c5, c, h3, |a|);
    OccursInLonger(c6, c, x3, |c5|);
    OccursInLonger(c7, c, h4, |c6|);
    OccursInLonger(c8, c, x4, |c7|);
  }

  lemma OccursInLonger(a: string, c: string, t: string, i: nat)
    requires OccursAt(a, t, i) && |a| <= |c| && c[..|a|] == a
    ensures OccursAt(c, t, i)
  {
    assert c[i..i + |t|] == a[i..i + |t|];
  }

  /** A Groq reply is used only when it is non-empty and has at least 10 characters once stripped. */
  predicate AcceptableReply(reply: string) {
    reply != [] && |Strip(reply)| >= 10
  }

  /** Whether `get_ai_response` asks Gemini: when it is chosen, or when no Groq client exists. */
  predicate UsesGemini(b: Backends, modelChoice: string) {
    modelChoice == GeminiChoice || !b.groqAvailable
  }

  /** `get_ai_response(model_choice, input_prompt, pdf_text, job_description, language)`. */
  function GetAiResponse(b: Backends, modelChoice: string, inputPrompt: string, pdfText: string,
                         jobDescription: string, language: string): (r: Option<string>)
    ensures UsesGemini(b, modelChoice) ==>
              r == b.gemini(GeminiAnalysisRequest(inputPrompt, pdfText, jobDescription, language))
    ensures !UsesGemini(b, modelChoice) ==>
              && r.Some?
              && (r.value == GetErrorMessage(language)
                  || exists reply :: AcceptableReply(reply) && r.value == GetPrompts(language).resultPrefix + reply)
  {
    var p := GetPrompts(language);
    if UsesGemini(b, modelChoice) then
      b.gemini(GeminiAnalysisRequest(inputPrompt, pdfText, jobDescription, language))
    else
      match b.groq(GroqRequest(GroqModel, FormatGroqMessages(p, inputPrompt, jobDescription, pdfText, language)))
      case Some(reply) =>
        if AcceptableReply(reply) then Some(p.resultPrefix + reply) else Some(GetErrorMessage(language))
      case None => Some(GetErrorMessage(language))
  }

  /** The request `get_ai_response` sends to Groq. */
  function GroqAnalysisRequest(inputPrompt: string, pdfText: string, jobDescription: string, language: string)
    : (q: GroqRequest)
    ensures q.model == GroqModel && |q.messages| == 2
    ensures q.messages == FormatGroqMessages(GetPrompts(language), inputPrompt, jobDescription, pdfText, language)
  {
    GroqRequest(GroqModel, FormatGroqMessages(GetPrompts(language), inputPrompt, jobDescription, pdfText, language))
  }

  /**
   * On the Groq path the result is decided by Groq's reply alone: an
   * acceptable reply comes back behind the language's result prefix, and a
   * failed call, a missing content or a short reply gives the language's
   * error message.
   */
  lemma GroqOutcome(b: Backends, modelChoice: string, inputPrompt: string, pdfText: string,
                    jobDescription: string, language: string)
    requires !UsesGemini(b, modelChoice)
    ensures var reply := b.groq(GroqAnalysisRequest(inputPrompt, pdfText, jobDescription, language));
            var r := GetAiResponse(b, modelChoice, inputPrompt, pdfText, jobDescription, language);
            && (reply.Some? && AcceptableReply(reply.value) ==> r == Some(GetPrompts(language).resultPrefix + reply.value))
            && (reply.None? || !AcceptableReply(reply.value) ==> r == Some(GetErrorMessage(language)))
  {
  }

  /** Groq failing never leads to asking Gemini: on the Groq path the Gemini oracle plays no part. */
  lemma NoGeminiRetry(b1: Backends, b2: Backends, modelChoice: string, inputPrompt: string, pdfText: string,
                      jobDescription: string, language: string)
    requires b1.groqAvailable == b2.groqAvailable && b1.groq == b2.groq
    requires !UsesGemini(b1, modelChoice)
    ensures GetAiResponse(b1, modelChoice, inputPrompt, pdfText, jobDescription, language)
         == GetAiResponse(b2, modelChoice, inputPrompt, pdfText, jobDescription, language)
  {
  }

  /** On the Gemini path the Groq oracle plays no part, and Gemini's reply is not prefixed. */
  lemma GeminiIgnoresGroq(b1: Backends, b2: Backends, modelChoice: string, inputPrompt: string, pdfText: string,
                          jobDescription: string, language: string)
    requires b1.gemini == b2.gemini && UsesGemini(b1, modelChoice) && UsesGemini(b2, modelChoice)
    ensures GetAiResponse(b1, modelChoice, inputPrompt, pdfText, jobDescription, language)
         == GetAiResponse(b2, modelChoice, inputPrompt, pdfText, jobDescription, language)
  {
  }

  /** A Groq reply of only whitespace is rejected, however long it is. */
  lemma BlankReplyRejected(reply: string)
    requires forall k :: 0 <= k < |reply| ==> IsSpace(reply[k])
    ensures !AcceptableReply(reply)
  {
  }

  /**
   * With Groq configured but failing, and Gemini answering, the analyzer
   * reports the English error message and not Gemini's answer.
   */
  lemma FailingGroqGivesErrorNotGemini(b: Backends)
    requires b.groqAvailable
    requires forall q :: b.groq(q) == None
    requires forall q :: b.gemini(q) == Some("Gemini analysis")
    ensures GetAiResponse(b, "Groq", "Summarize", "resume", "job", English) == Some(EnglishError)
    ensures GetAiResponse(b, "Groq", "Summarize", "resume", "job", English)
         != b.gemini(GeminiAnalysisRequest("Summarize", "resume", "job", English))
  {
    assert "Groq" != GeminiChoice;
    assert |EnglishError| != |"Gemini analysis"|;
  }
}
