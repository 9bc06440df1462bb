/**
 * `ATSAnalyzer.generate_cold_mail`: one backend writes the mail from the
 * chosen template, the resume text and the job description, and six
 * `str.replace` calls then fill in the applicant's details, in a fixed order,
 * each with a default for a missing key.
 */
module ColdMail {
  import opened Wrappers
  import opened Text
  import opened AiBackends

  const NameToken: string := "[Your Name]"
  const EmailToken: string := "[Your Email Address]"
  const PhoneToken: string := "[Your Phone Number]"
  const UniversityToken: string := "[Your College/University Name]"
  const LinkedInToken: string := "[LinkedIn Profile or Portfolio link]"
  const DegreeToken: string := "[Your Degree]"

  /** One line of the placeholder block: the token, the `personal_info` key and the default value. */
  datatype Placeholder = Placeholder(token: string, key: string, default: string)

  /** The six lines of the block, in the order they run. */
  const Placeholders: seq<Placeholder> := [
    Placeholder(NameToken, "name", NameToken),
    Placeholder(EmailToken, "email", "[Your Email]"),
    Placeholder(PhoneToken, "phone", "[Your Phone]"),
    Placeholder(UniversityToken, "university", "[Your University]"),
    Placeholder(LinkedInToken, "linkedin", "[Your LinkedIn]"),
    Placeholder(DegreeToken, "degree", DegreeToken)]

  /** `personal_info.get(key, default)`. */
  function Get(info: map<string, string>, key: string, default: string): (v: string)
    ensures key in info ==> v == info[key]
    ensures key !in info ==> v == default
  {
    if key in info then info[key] else default
  }

  /** The text after the first `n` lines of the block have run, each on the previous one's output. */
  function SubstituteFirst(text: string, info: map<string, string>, n: nat): string
    requires n <= |Placeholders|
  {
    if n == 0 then text
    else
      var p := Placeholders[n - 1];
      Replace(SubstituteFirst(text, info, n - 1), p.token, Get(info, p.key, p.default))
  }

  /** The mail once the whole block has run. */
  function Substitute(text: string, info: map<string, string>): string {
    SubstituteFirst(text, info, |Placeholders|)
  }

  /**
   * The placeholder block of `generate_cold_mail`: six reassignments of the
   * generated content, one per token.
   */
  method FillPlaceholders(generated: string, info: map<string, string>) returns (content: string)
    ensures content == Substitute(generated, info)
  {
    content := generated;
    content := Replace(content, NameToken, Get(info, "name", NameToken));
    assert content == SubstituteFirst(generated, info, 1);
    content := Replace(content, EmailToken, Get(info, "email", "[Your Email]"));
    assert content == SubstituteFirst(generated, info, 2);
    content := Replace(content, PhoneToken, Get(info, "phone", "[Your Phone]"));
    assert content == SubstituteFirst(generated, info, 3);
    content := Replace(content, UniversityToken, Get(info, "university", "[Your University]"));
    assert content == SubstituteFirst(generated, info, 4);
    content := Replace(content, LinkedInToken, Get(info, "linkedin", "[Your LinkedIn]"));
    assert content == SubstituteFirst(generated, info, 5);
    content := Replace(content, DegreeToken, Get(info, "degree", DegreeToken));
  }

  /** A text holding none of the six tokens goes through the block unchanged, whatever the details. */
  lemma {:induction false} UntouchedWithoutTokens(text: string, info: map<string, string>, n: nat)
    requires n <= |Placeholders|
    requires forall i :: 0 <= i < |Placeholders| ==> !Occurs(text, Placeholders[i].token)
    ensures SubstituteFirst(text, info, n) == text
  {
    if n > 0 {
      UntouchedWithoutTokens(text, info, n - 1);
      var p := Placeholders[n - 1];
      assert !Occurs(text, p.token);
      ReplaceWithoutOccurrence(text, p.token, Get(info, p.key, p.default));
    }
  }

  /** Only the name and the degree default to their own token; the other four default to a shorter text. */
  lemma DefaultsDifferFromTokens()
    ensures forall i :: 0 <= i < |Placeholders| ==>
              (Placeholders[i].default == Placeholders[i].token <==> i == 0 || i == 5)
  {
    forall i | 0 <= i < |Placeholders|
      ensures Placeholders[i].default == Placeholders[i].token <==> i == 0 || i == 5
    {
      if 1 <= i <= 4 {
        assert |Placeholders[i].default| < |Placeholders[i].token|;
      }
    }
  }

  /**
   * Called without any details, the block leaves `[Your Name]` and
   * `[Your Degree]` as they are: only the four tokens whose default differs
   * are rewritten.
   */
  lemma EmptyInfoRewritesOnlyFour(text: string)
    ensures Substitute(text, map[]) ==
            Replace(Replace(Replace(Replace(text, EmailToken, "[Your Email]"), PhoneToken, "[Your Phone]"),
                            UniversityToken, "[Your University]"),
                    LinkedInToken, "[Your LinkedIn]")
  {
    var m: map<string, string> := map[];
    ReplaceIdentity(text, NameToken);
    assert SubstituteFirst(text, m, 1) == text;
    var t2 := Replace(text, EmailToken, "[Your Email]");
    assert SubstituteFirst(text, m, 2) == t2;
    var t3 := Replace(t2, PhoneToken, "[Your Phone]");
    assert SubstituteFirst(text, m, 3) == t3;
    var t4 := Replace(t3, UniversityToken, "[Your University]");
    assert SubstituteFirst(text, m, 4) == t4;
    var t5 := Replace(t4, LinkedInToken, "[Your LinkedIn]");
    assert SubstituteFirst(text, m, 5) == t5;
    ReplaceIdentity(t5, DegreeToken);
  }

  /** A text that is exactly `token` becomes exactly the replacement. */
  lemma ReplaceWhole(token: string, replacement: string)
    requires token != []
    ensures Replace(token, token, replacement) == replacement
  {
    ReplaceAtStart(token, token, replacement);
    assert token[|token|..] == [];
  }

  /**
   * A missing email does not leave `[Your Email Address]` in place: it
   * becomes `[Your Email]`, which no later line touches.
   */
  lemma MissingEmailUsesDefault()
    ensures Substitute(EmailToken, map[]) == "[Your Email]"
  {
    EmptyInfoRewritesOnlyFour(EmailToken);
    ReplaceWhole(EmailToken, "[Your Email]");
    var e := "[Your Email]";
    ShorterExcludes(e, PhoneToken);
    ReplaceWithoutOccurrence(e, PhoneToken, "[Your Phone]");
    ShorterExcludes(e, UniversityToken);
    ReplaceWithoutOccurrence(e, UniversityToken, "[Your University]");
    ShorterExcludes(e, LinkedInToken);
    ReplaceWithoutOccurrence(e, LinkedInToken, "[Your LinkedIn]");
  }

  /** The details the page passes: all six keys, each an input field that may be left empty. */
  function PageInfo(name: string, email: string, phone: string, university: string, linkedin: string,
                    degree: string): (info: map<string, string>)
    ensures forall i :: 0 <= i < |Placeholders| ==> Placeholders[i].key in info
    ensures Get(info, "name", NameToken) == name && Get(info, "email", "[Your Email]") == email
    ensures Get(info, "phone", "[Your Phone]") == phone && Get(info, "university", "[Your University]") == university
    ensures Get(info, "linkedin", "[Your LinkedIn]") == linkedin && Get(info, "degree", DegreeToken) == degree
  {
    map["name" := name, "email" := email, "phone" := phone, "university" := university,
        "linkedin" := linkedin, "degree" := degree]
  }

  /**
   * From the page an empty field is passed as `""`, so its token is erased
   * rather than kept or defaulted.
   */
  lemma EmptyFieldErasesToken(name: string, phone: string, university: string, linkedin: string, degree: string)
    ensures Substitute(EmailToken, PageInfo(name, "", phone, university, linkedin, degree)) == ""
  {
    var info := PageInfo(name, "", phone, university, linkedin, degree);
    NameLineKeepsEmailToken(name);
    assert Placeholders[0] == Placeholder(NameToken, "name", NameToken);
    assert SubstituteFirst(EmailToken, info, 1) == EmailToken;
    ReplaceWhole(EmailToken, "");
    assert Placeholders[1] == Placeholder(EmailToken, "email", "[Your Email]");
    assert SubstituteFirst(EmailToken, info, 2) == "";
    EmptyStaysEmpty(EmailToken, info, 2);
  }

  /** Once a line has emptied the mail, the later lines have nothing to rewrite. */
  lemma {:induction false} EmptyStaysEmpty(text: string, info: map<string, string>, n: nat)
    requires n <= |Placeholders| && SubstituteFirst(text, info, n) == ""
    ensures Substitute(text, info) == ""
    decreases |Placeholders| - n
  {
    if n < |Placeholders| {
      assert SubstituteFirst(text, info, n + 1) == "";
      EmptyStaysEmpty(text, info, n + 1);
    }
  }

  /** The name line does not touch the email token: `[Your Name]` does not occur in it. */
  lemma NameLineKeepsEmailToken(name: string)
    ensures Replace(EmailToken, NameToken, name) == EmailToken
  {
    MissingCharExcludes(EmailToken, NameToken, 'N');
    ReplaceWithoutOccurrence(EmailToken, NameToken, name);
  }

  /**
   * Each line works on the output of the lines before it: a name that
   * itself reads `[Your Degree]` is later replaced by the degree.
   */
  lemma LaterLinesSeeEarlierValues(degree: string)
    ensures Substitute(NameToken, map["name" := DegreeToken, "degree" := degree]) == degree
  {
    var info := map["name" := DegreeToken, "degree" := degree];
    ReplaceWhole(NameToken, DegreeToken);
    assert SubstituteFirst(NameToken, info, 1) == DegreeToken;
    ShorterExcludes(DegreeToken, EmailToken);
    ReplaceWithoutOccurrence(DegreeToken, EmailToken, "[Your Email]");
    assert SubstituteFirst(NameToken, info, 2) == DegreeToken;
    ShorterExcludes(DegreeToken, PhoneToken);
    ReplaceWithoutOccurrence(DegreeToken, PhoneToken, "[Your Phone]");
    assert SubstituteFirst(NameToken, info, 3) == DegreeToken;
    ShorterExcludes(DegreeToken, UniversityToken);
    ReplaceWithoutOccurrence(DegreeToken, UniversityToken, "[Your University]");
    assert SubstituteFirst(NameToken, info, 4) == DegreeToken;
    ShorterExcludes(DegreeToken, LinkedInToken);
    ReplaceWithoutOccurrence(DegreeToken, LinkedInToken, "[Your LinkedIn]");
    assert SubstituteFirst(NameToken, info, 5) == DegreeToken;
    ReplaceWhole(DegreeToken, degree);
  }

  /** The model used for Gemini cold mails. */
  const MailGeminiModel: string := "gemini-pro"

  /** What Gemini is sent: the template, the resume text and the job description. */
  function GeminiMailRequest(prompt: string, resumeText: string, jobDescription: string): (q: GeminiRequest)
    ensures q.model == MailGeminiModel && q.parts == [prompt, resumeText, jobDescription]
  {
    GeminiRequest(MailGeminiModel, [prompt, resumeText, jobDescription])
  }

  /** The heading before the resume in the Groq cold-mail message; the job description follows `JobHeading`. */
  const MailResumeHeading: string := "\n\nResume:\n"

  /**
   * What Groq is sent: one user message that opens with the template and
   * carries the resume text and then the job description, each right after
   * its heading, with nothing after the job description.
   */
  function GroqMailRequest(prompt: string, resumeText: string, jobDescription: string): (q: GroqRequest)
    ensures q.model == GroqModel && |q.messages| == 1 && q.messages[0].role == "user"
    ensures var c := q.messages[0].content;
            var o1 := |prompt| + |MailResumeHeading|;
            var o2 := o1 + |resumeText| + |JobHeading|;
            && |c| == o2 + |jobDescription|
            && c[..|prompt|] == prompt
            && OccursAt(c, MailResumeHeading, |prompt|)
            && OccursAt(c, resumeText, o1)
            && OccursAt(c, JobHeading, o1 + |resumeText|)
            && OccursAt(c, jobDescription, o2)
            && c[|c| - |jobDescription|..] == jobDescription
  {
    var c := prompt + MailResumeHeading + resumeText + JobHeading + jobDescription;
    FrontLayout(prompt, MailResumeHeading, resumeText, JobHeading, jobDescription);
    assert c[|c| - |jobDescription|..] == jobDescription;
    GroqRequest(GroqModel, [Message("user", c)])
  }

  /** The text the chosen backend writes, or `None` when the call raises or returns no content. */
  function GeneratedContent(b: Backends, modelChoice: string, prompt: string, resumeText: string,
                            jobDescription: string): Option<string>
  {
    if UsesGemini(b, modelChoice) then b.gemini(GeminiMailRequest(prompt, resumeText, jobDescription))
    else b.groq(GroqMailRequest(prompt, resumeText, jobDescription))
  }

  /**
   * `generate_cold_mail(model_choice, prompt, resume_text, job_description,
   * personal_info)`: the generated text with the details filled in, or
   * `None` when the backend fails. Unlike the analysis path, a Groq reply is
   * neither checked for length nor prefixed.
   */
  method GenerateColdMail(b: Backends, modelChoice: string, prompt: string, resumeText: string,
                          jobDescription: string, info: map<string, string>) returns (mail: Option<string>)
    ensures var g := GeneratedContent(b, modelChoice, prompt, resumeText, jobDescription);
            && (g.None? ==> mail.None?)
            && (g.Some? ==> mail == Some(Substitute(g.value, info)))
  {
    var generated := GeneratedContent(b, modelChoice, prompt, resumeText, jobDescription);
    if generated.None? {
      return None;
    }
    var content := FillPlaceholders(generated.value, info);
    mail := Some(content);
  }
}
