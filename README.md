# Smart Job Assistant: a Dafny model of `ATSAnalyzer`

This project models the core of the Smart Job Assistant, a Streamlit app with two pages.

- **Smart Resume Analyzer.** Compares an uploaded resume with a job description using a large language model.
- **Smart Cold Mail Generator.** Writes an application e-mail from the resume and fills in the applicant's details.

The model covers the logic of the `ATSAnalyzer` class in `app.py` and the two page flows of `main` that drive it:

- **Language tables** (`localization.dfy`, module `Localization`). `get_prompts` and `get_error_message`: three languages (English, हिंदी, తెలుగు), with the English entry as the fallback for any other key.
- **Backends** (`backends.dfy`, module `AiBackends`).
  - `get_ai_response` chooses between Google Gemini and Groq.
  - `get_gemini_response` builds the Gemini prompt.
  - `format_groq_messages` lays out the Groq chat request.
  - A Groq reply is validated (non-empty, at least 10 characters once stripped) and then prefixed.
  - Gemini and Groq are oracles. Each maps the exact request it is sent to `Some(reply)`, or to `None` when the call raises.
- **Text extraction** (`extraction.dfy`, module `DocumentText`). `extract_text` dispatches on the lower-cased part of the file name after the last dot. For a PDF, it accumulates the page texts in a loop.
- **Score extraction** (`score.dfy`, module `ScoreExtraction`). `extract_data_from_response` reads the match score with `re.search(r'Match Score:?\s*(\d+)%', response)`.
  - The regex is modelled twice: by a greedy scanner, and by a predicate stating what a match is.
  - Lemmas prove that the scanner finds exactly the regex's leftmost match.
- **Cold mail** (`coldmail.dfy`, module `ColdMail`). `generate_cold_mail` sends its request to one backend. Six `str.replace` calls then fill in the applicant's details, in a fixed order and each with a default.
- **Analysis page** (`analysis.dfy`, module `AnalysisPage`). The analysis flow of `main`:
  - It runs only with an upload, a job description and a non-empty selection.
  - One loop asks for each selected analysis and shows the truthy responses.
  - The download bundle asks for every analysis a second time. It writes each response under a `=== type ===` heading and joins them with a blank line.

Shared string operations are in `text.dfy` (module `Text`):

- `str.replace`, `str.strip`, `str.lower` and `split('.')[-1]`.
- `str.join` and `+=` accumulation.

Some behaviours of the code are easy to miss. The model keeps them as the code has them:

- **The score regex is case-sensitive.** `"match score: 82%"` scores 0 (`ScoreExtraction.LowerCaseLabelScoresZero`).
- **A failing Groq call is not retried on Gemini.** It yields the localized error message (`AiBackends.NoGeminiRetry`, `AiBackends.FailingGroqGivesErrorNotGemini`). Gemini is used for a non-Gemini choice only when no Groq client exists.
- **The score is not clamped to 0–100.** `"Match Score 150%"` scores 150 (`ScoreExtraction.ScoreNotClamped`).
- **Missing details have defaults that differ from their tokens.** A missing email, phone, university or LinkedIn becomes `[Your Email]`, `[Your Phone]`, `[Your University]` or `[Your LinkedIn]`, not the token itself (`ColdMail.DefaultsDifferFromTokens`).
- **The page always passes all six details.** An empty field therefore erases its token (`ColdMail.EmptyFieldErasesToken`).

The cold-mail templates (app.py:170-235) write the LinkedIn placeholder as `[LinkedIn Profile link or Portfolio]` or `[LinkedIn Profile Link or Portfolio]`. The code replaces `[LinkedIn Profile or Portfolio link]`. The templates also use `[Your Full Name]`, which no line replaces. Whether such tokens reach the mail depends on what the model writes, so the model records the replacement code as it is.

## Model

| member | source | states |
|---|---|---|
| Localization.GetPrompts | app.py:237-271 | A supported language gets its own table entry; any other key gets exactly the English entry; all three texts of the entry are non-empty |
| Localization.GetErrorMessage | app.py:274-280 | A supported language gets its own message; any other key gets exactly the English message, which is non-empty |
| Localization.TablesCoverSameLanguages | app.py:237-280 | The prompt table and the error table have exactly the same three keys, and a key is in the table exactly when it is a supported language |
| Localization.FallbackExactlyForOtherKeys | app.py:237-280 | Both lookups give the English entry if and only if the key is neither हिंदी nor తెలుగు |
| Localization.LookupsAgreeOnLanguage | app.py:303-337 | The prompts and the error message used by one call always come from the same language's entries |
| Text.ReplaceWithoutOccurrence | app.py:406-411 | `str.replace` on a text that does not contain the target returns the text unchanged |
| Text.ReplaceIdentity | app.py:406-411 | Replacing a token by itself changes nothing (the name and degree defaults) |
| Text.ReplaceAtStart | app.py:406-411 | A target at the start is replaced and the scan resumes after it, without rescanning the inserted text |
| Text.ReplaceKeepsFirst | app.py:406-411 | A first character that does not start the target is kept and the scan moves on |
| Text.ReplaceAtLeftmost | app.py:406-411 | The leftmost occurrence is replaced and the rest of the text after it is processed the same way; with ReplaceWithoutOccurrence this fixes `str.replace` completely |
| Text.Replace | app.py:406-411 | Definition without a contract of its own: `str.replace` as a left-to-right scan that replaces each non-overlapping occurrence and never rescans inserted text. Its behaviour is stated by the five lemmas below |
| Text.Strip | app.py:329 | `str.strip()` is a slice of the text with only whitespace before and after it, and it starts and ends with a non-whitespace character; it is empty exactly when the text is all whitespace |
| Text.StripIsSlice | app.py:329 | Trimming the front and then the back leaves a slice of the text with only whitespace around it |
| Text.Lower | app.py:353 | `str.lower()` keeps the length and lower-cases each character |
| Text.AfterLastDot | app.py:353 | `split('.')[-1]` is the longest dot-free suffix, preceded by a dot unless it is the whole name |
| Text.Join | app.py:1239 | Definition without a contract of its own: `sep.join(parts)`, built one part at a time. JoinAt and JoinLength state where every part and separator lies |
| Text.JoinAt | app.py:1239 | In `sep.join(parts)` every part occurs at the offset given by the lengths of the earlier parts and separators, and a separator comes before every part but the first |
| Text.JoinLength | app.py:1239 | The joined text ends right after its last part |
| Text.JoinPartSplit | app.py:1239 | A part made of a heading and a body places the heading at the part's offset and the body right after it |
| Text.Concat | app.py:356-359 | Definition without a contract of its own: `text += part` over the parts, from `""`. ConcatIsJoin and ConcatLayout state what it builds |
| Text.ConcatIsJoin | app.py:356-359 | Accumulating with `+=` from `""` equals joining with the empty separator |
| Text.ConcatLayout | app.py:356-359 | Every accumulated part sits at the total length of the parts before it, and the text ends after the last part |
| ScoreExtraction.SpaceRun | app.py:374 | `\s*` is read greedily: the run is all whitespace and is followed by a non-whitespace character or the end |
| ScoreExtraction.DigitRun | app.py:374 | `\d+` is read greedily: the run is all digits and is followed by a non-digit or the end |
| ScoreExtraction.SpaceRunUnique | app.py:374 | A whitespace run that ends at a non-whitespace character is the one the scanner reads |
| ScoreExtraction.DigitRunUnique | app.py:374 | A digit run that ends at a non-digit is the one the scanner reads |
| ScoreExtraction.DigitsValue | app.py:376 | Definition without a contract of its own: the exact decimal value of a digit run, most significant digit first. ScoreOfLeftmostMatch and LabelledPercentage use it |
| ScoreExtraction.ColonLength | app.py:374 | `:?` takes the colon exactly when one is there |
| ScoreExtraction.DigitsThenPercent | app.py:374 | `(\d+)%` captures a non-empty digit run starting at the position and followed by `%` |
| ScoreExtraction.MatchAt | app.py:374-375 | A match at a position captures a non-empty digit run inside the response |
| ScoreExtraction.CaptureSound | app.py:374 | What the scanner reads after the label satisfies `:?\s*(\d+)%`, with the capture at the digit run |
| ScoreExtraction.CaptureComplete | app.py:374 | Any way `:?\s*(\d+)%` can match after the label is the scanner's reading, with the same capture |
| ScoreExtraction.MatchAtSound | app.py:374-375 | A scanner match at `i` is a match of the whole pattern at `i`, with the capture at its digit run |
| ScoreExtraction.MatchAtComplete | app.py:374-375 | Every way the regex can match at `i`, backtracking included, gives the scanner's capture |
| ScoreExtraction.NoMatchAt | app.py:374-375 | The scanner fails at `i` if and only if the pattern cannot match at `i` |
| ScoreExtraction.Leftmost | app.py:375 | A reported position lies in the searched range and satisfies the search condition |
| ScoreExtraction.LeftmostIsLeftmost | app.py:375 | Nothing before the reported position satisfies the condition, and nothing in the range does when none is reported |
| ScoreExtraction.LeftmostIs | app.py:375 | A satisfying position with none before it is the position reported |
| ScoreExtraction.FirstMatchFrom | app.py:375 | `re.search` reports a position in range where the pattern matches |
| ScoreExtraction.FirstMatchLeftmost | app.py:375 | `re.search` reports the leftmost match, and reports none only when there is no match anywhere |
| ScoreExtraction.FirstMatchIs | app.py:375 | The first position where the scanner succeeds is the one the search reports |
| ScoreExtraction.ScannerFailsBefore | app.py:375 | Where the regex cannot match, the scanner fails too |
| ScoreExtraction.ExtractData | app.py:370-378 | `raw_response` is the response unchanged |
| ScoreExtraction.ScoreOfLeftmostMatch | app.py:374-376 | When the pattern matches at `i` and nowhere earlier, the score is the value of the digits captured at `i` |
| ScoreExtraction.ScoreAtFirstMatch | app.py:375-376 | The score is the value of the digits captured at the position the search reports |
| ScoreExtraction.ScoreZeroWithoutMatch | app.py:376 | A response that matches the pattern nowhere scores 0 |
| ScoreExtraction.ScoreZeroWithoutLabel | app.py:374-376 | A response without the exact label `Match Score` scores 0 |
| ScoreExtraction.LowerCaseLabelScoresZero | app.py:374-376 | The match is case-sensitive: `"match score: 82%"` scores 0 |
| ScoreExtraction.LabelledPercentage | app.py:374-376 | `"Match Score: 82%"` scores 82 |
| ScoreExtraction.ScoreNotClamped | app.py:374-376 | `"Match Score 150%"` scores 150: the score is not limited to 100 |
| AiBackends.GeminiPrompt | app.py:343 | The prompt is `"Analyze in "`, the language, `". "` and the analysis prompt, end to end: each piece at its offset, and the length is the sum of theirs |
| AiBackends.GeminiPromptInjective | app.py:343 | For one language, different analysis prompts give different Gemini prompts |
| AiBackends.GeminiAnalysisRequest | app.py:340-345 | Gemini is sent model `gemini-2.0-flash-exp` and the parts prompt, resume text and job description, in that order |
| AiBackends.FormatGroqMessages | app.py:283-300 | Exactly two messages: the system message with the language's system prompt, then a user message that opens with the user prompt and carries the analysis request, job description and resume text in order, each after its heading, then the reminder naming the language, with nothing after the reminder's last line |
| AiBackends.ContentLayout | app.py:285-300 | Ten pieces concatenated lie end to end: each starts where the previous one ends, and the text ends with the last one |
| AiBackends.AcceptableReply | app.py:329 | Definition without a contract of its own: a Groq reply is used only when it is non-empty and at least 10 characters long once stripped. BlankReplyRejected and GroqOutcome use it |
| AiBackends.UsesGemini | app.py:308-314 | Definition without a contract of its own: Gemini answers when it is chosen or when no Groq client exists. GetAiResponse, NoGeminiRetry and GeminiIgnoresGroq use it |
| AiBackends.GetAiResponse | app.py:303-337 | On the Gemini path (Gemini chosen, or no Groq client) the result is Gemini's reply, unprefixed and possibly `None`; otherwise it is always a text: either the error message or the result prefix followed by an acceptable reply |
| AiBackends.GroqAnalysisRequest | app.py:316-326 | Groq is sent model `mixtral-8x7b-32768` and exactly the two messages `format_groq_messages` lays out for the language's prompts |
| AiBackends.GroqOutcome | app.py:319-337 | On the Groq path an acceptable reply is returned behind the language's result prefix, and a failed call, missing content or short reply gives the language's error message |
| AiBackends.NoGeminiRetry | app.py:335-337 | On the Groq path the result does not depend on the Gemini oracle: a Groq failure is not retried on Gemini |
| AiBackends.GeminiIgnoresGroq | app.py:308-314 | On the Gemini path the result does not depend on the Groq oracle |
| AiBackends.BlankReplyRejected | app.py:329-330 | A Groq reply made only of whitespace is rejected, however long it is |
| AiBackends.FailingGroqGivesErrorNotGemini | app.py:312-337 | With Groq configured but failing and Gemini answering, the result is the English error message and not Gemini's answer |
| DocumentText.FileType | app.py:353 | The file type is the lower-cased dot-free suffix of the name, which follows a dot unless it is the whole name |
| DocumentText.KindOf | app.py:354-364 | The PDF branch is taken exactly for `pdf`, the Word branch exactly for `doc` or `docx` |
| DocumentText.ExtractedText | app.py:351-367 | An unsupported type gives `None`, a Word file the Word text, and a PDF the page texts concatenated (`None` when the reader fails) |
| DocumentText.ExtractText | app.py:351-367 | The page loop `text += page.extract_text()` and the dispatch return exactly the extracted text |
| DocumentText.AfterLastDotOfDotted | app.py:353 | For `stem + "." + ext` with a dot-free `ext`, the last segment is `ext`, whatever the stem holds |
| DocumentText.AfterLastDotWithoutDot | app.py:353 | A name without a dot is its own last segment |
| DocumentText.FileTypeOfDotted | app.py:353 | The type of `stem.ext` is the lower-cased extension |
| DocumentText.FileTypeWithoutDot | app.py:353 | The type of a dot-free name is the whole name lower-cased |
| DocumentText.DoubleExtensionUnsupported | app.py:353-364 | `"resume.pdf.txt"` is not read: only the last extension counts |
| DocumentText.UpperCaseWordRecognised | app.py:353-361 | `"CV.DOCX"` is read as a Word document |
| DocumentText.PdfTextLayout | app.py:356-359 | The PDF text holds every page's text in page order at the offset of the pages before it, and nothing after the last page |
| DocumentText.PdfWithoutPagesIsEmpty | app.py:356-359 | A PDF without pages gives the empty text |
| ColdMail.Get | app.py:406-411 | `personal_info.get(key, default)`: the value when the key is present, the default otherwise |
| ColdMail.Substitute | app.py:405-411 | Definition without a contract of its own: the text after all six replacement lines have run in order. FillPlaceholders and the lemmas below state what it does |
| ColdMail.FillPlaceholders | app.py:405-411 | The six reassignments leave exactly the text after all six replacement lines have run in order |
| ColdMail.UntouchedWithoutTokens | app.py:406-411 | A text with none of the six tokens comes out unchanged, whatever the details |
| ColdMail.DefaultsDifferFromTokens | app.py:406-411 | Exactly the name and degree lines default to their own token |
| ColdMail.EmptyInfoRewritesOnlyFour | app.py:406-411 | With no details, the name and degree tokens stay and only the other four are rewritten, to their defaults, in order |
| ColdMail.ReplaceWhole | app.py:406-411 | A text that is exactly the token becomes exactly the replacement |
| ColdMail.MissingEmailUsesDefault | app.py:407-411 | A missing email turns `[Your Email Address]` into `[Your Email]`, which no later line touches |
| ColdMail.PageInfo | app.py:1309-1314 | The page passes all six keys, so each line uses the typed field value |
| ColdMail.EmptyFieldErasesToken | app.py:406-411 | An email field left empty on the page erases `[Your Email Address]` |
| ColdMail.EmptyStaysEmpty | app.py:406-411 | Once a line has emptied the text, the later lines leave it empty |
| ColdMail.NameLineKeepsEmailToken | app.py:406-407 | The name line does not touch the email token, whatever the name |
| ColdMail.LaterLinesSeeEarlierValues | app.py:406-411 | The lines run on each other's output: a name that is itself `[Your Degree]` ends up replaced by the degree |
| ColdMail.GeminiMailRequest | app.py:387-390 | Gemini is sent model `gemini-pro` and the template, resume text and job description, in order |
| ColdMail.GroqMailRequest | app.py:398-403 | Groq is sent model `mixtral-8x7b-32768` and one user message: the template, `Resume:` after a blank line, the resume text, `Job Description:` after a blank line and the job description, end to end and nothing after it |
| ColdMail.GeneratedContent | app.py:387-403 | Definition without a contract of its own: Gemini's or Groq's text for the mail request, by the same choice as the analysis path, with no check on the reply. GenerateColdMail uses it |
| ColdMail.GenerateColdMail | app.py:384-417 | A failed backend call gives `None`; otherwise the result is the generated text with the placeholders filled in |
| AnalysisPage.Truthy | app.py:1218-1227 | Definition without a contract of its own: Python truthiness of an optional text, false for `None` and for `""` |
| AnalysisPage.ShownOf | app.py:1219-1235 | Definition without a contract of its own: the truthy responses, in order. ShownOfAppend, ShownOfOne, ShownInOrder, ShownBound, ShownAreAnswers and AllAnsweredAllShown state what it keeps |
| AnalysisPage.Render | app.py:1239 | Definition without a contract of its own: `f"{response}"`, a present response as itself and a missing one as `None`. FailedAnalysisBundledAsNone uses it |
| AnalysisPage.Heading | app.py:1239 | The section heading is `=== `, the type's name and ` ===` and a line break, in that order |
| AnalysisPage.Outcome | app.py:1214-1241 | Backends are called if and only if there is an upload, a job description, a non-empty selection and truthy extracted text, and then exactly twice per selected type, in selection order. A bundle is offered exactly when calls were made. At most one response per type is shown |
| AnalysisPage.ShownBound | app.py:1219-1235 | The page shows at most one response per selected type |
| AnalysisPage.Analyze | app.py:1214-1241 | The gate, the extraction, the display loop and the bundle give exactly the outcome above |
| AnalysisPage.ShowAnalyses | app.py:1219-1235 | The display loop shows the truthy responses in selection order and calls the backend once per type |
| AnalysisPage.DownloadBundle | app.py:1238-1239 | The bundle is the sections, one per type in selection order, joined by a blank line; the backend is called once more per type |
| AnalysisPage.EmptySelectionMakesNoCalls | app.py:1214 | With no analysis type selected, nothing is shown, no bundle is offered and no backend is called |
| AnalysisPage.UnsupportedFileMakesNoCalls | app.py:1216-1218 | A resume named `resume.txt` stops the analysis before any backend call |
| AnalysisPage.BundleLayout | app.py:1239 | Section `k` of the bundle opens at its offset with the `k`-th type's heading, followed by that type's response (or `None`), with a blank line before every section but the first |
| AnalysisPage.ShownOfAppend | app.py:1219-1235 | Filtering the responses of a concatenation filters each half and concatenates the results |
| AnalysisPage.ShownOfOne | app.py:1227 | A single response is shown exactly when it is truthy, as its text |
| AnalysisPage.ShownInOrder | app.py:1219-1235 | No truthy response is lost: the `k`-th response, when truthy, is shown right after those shown for the earlier types |
| AnalysisPage.ShownAreAnswers | app.py:1227-1235 | Every shown text is a non-empty response to one of the selected types |
| AnalysisPage.AllAnsweredAllShown | app.py:1227-1235 | When every response is truthy, all are shown, in selection order |
| AnalysisPage.FailedAnalysisBundledAsNone | app.py:1239 | A failed Gemini call is not shown, but its bundle section reads `None` under the type's heading |

## Left out

- Streamlit page setup, styling, the sidebar and every widget are left out: they are UI only. The button press is taken as given, and what the page shows is represented by the list of shown responses.
- Loading credentials and configuring the clients is left out because it is environment I/O. It is reduced to whether a Groq client exists (`Backends.groqAvailable`).
- The network calls to Gemini and Groq are oracles, and their sampling parameters are not modelled. The oracles are deterministic functions of the request, so the bundle's second call per type returns the same reply as the first. `Run.asked` records the calls.
- `PdfReader` and `docx2txt.process` are library calls. Their results are given as the page texts and the Word text (`Parsers`). A reader that raises is `None`.
- Logging, `st.error` messages and the timestamped file name of the download are left out (I/O and the clock).
- Python's `\s`, `\d`, `str.strip` and `str.lower` also act on non-ASCII characters. The model handles ASCII only.
- ScoreExtraction.ExtractData: `match_score` is `float()` of the captured digits. That value is exact only below 2^53. Above it Python rounds to the nearest double, and beyond about 309 digits it is `inf`. The model keeps the exact value of the digits (`DigitsValue`) as a `nat`, so it does not model the rounding or the overflow.
- The analysis prompts of `ANALYSIS_TYPES` (app.py:110-164) and the cold-mail templates (app.py:170-235) are long instructions to the model. The analysis prompts are stood in for by short non-empty texts. The templates are an input of `GenerateColdMail`.
- The system and user messages of `get_prompts` (app.py:240-269) are several lines of instructions. Each is stood in for by its first sentence. The result prefixes, the error messages and the language keys are exact.
- AiBackends.GetAiResponse: its own contract states the Groq path only as "the error message or the prefix followed by some acceptable reply". The exact outcome is stated by `AiBackends.GroqOutcome`.
- The language selector's labels and the cold-mail page's own gate (app.py:1294-1298) are not modelled beyond `GenerateColdMail` and `PageInfo`. That gate is the same as the analysis page's gate, without the selection.
