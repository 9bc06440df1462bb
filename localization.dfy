/**
 * The per-language tables of the analyzer (`ATSAnalyzer.get_prompts` and
 * `ATSAnalyzer.get_error_message`): three supported languages, and a lookup
 * that falls back to the English entry for any other key, as Python's
 * `dict.get(language, table["English"])` does.
 */
module Localization {

  /**
   * One language's entry of the `get_prompts` table. The system and user
   * messages are several lines of instructions to the model; each is stood in
   * for by its first sentence. The result prefixes are exact.
   */
  datatype Prompts = Prompts(systemMsg: string, userMsg: string, resultPrefix: string)

  const English: string := "English"
  const Hindi: string := "हिंदी"
  const Telugu: string := "తెలుగు"

  const EnglishPrompts: Prompts := Prompts(
    "You are a professional resume analyzer.",
    "Please analyze this resume against the job description in English.",
    "Analysis Results:\n\n")

  const HindiPrompts: Prompts := Prompts(
    "आप एक पेशेवर रिज्यूमे विश्लेषक हैं।",
    "कृपया इस रिज्यूमे का विश्लेषण नौकरी के विवरण के अनुसार हिंदी में करें।",
    "विश्लेषण परिणाम:\n\n")

  const TeluguPrompts: Prompts := Prompts(
    "మీరు ఒక వృత్తిపరమైన రెస్యూమ్ విశ్లేషకులు.",
    "దయచేసి ఈ రెస్యూమ్‌ని ఉద్యోగ వివరణతో పోల్చి తెలుగులో విశ్లేషించండి.",
    "విశ్లేషణ ఫలితాలు:\n\n")

  const PromptTable: map<string, Prompts> :=
    map[English := EnglishPrompts, Hindi := HindiPrompts, Telugu := TeluguPrompts]

  const EnglishError: string := "Error in analysis. Please try again or contact support."
  const HindiError: string := "विश्लेषण में त्रुटि हुई। कृपया पुनः प्रयास करें या सहायता से संपर्क करें।"
  const TeluguError: string := "విశ్లేషణలో లోపం. దయచేసి మళ్లీ ప్రయత్నించండి లేదా సహాయం కోసం సంప్రదించండి."

  const ErrorTable: map<string, string> :=
    map[English := EnglishError, Hindi := HindiError, Telugu := TeluguError]

  /** The languages both tables list. */
  predicate Supported(language: string) {
    language == English || language == Hindi || language == Telugu
  }

  /** `get_prompts(language)`: the entry for a supported language, otherwise the English one. */
  function GetPrompts(language: string): (p: Prompts)
    ensures Supported(language) ==> p == PromptTable[language]
    ensures !Supported(language) ==> p == EnglishPrompts
    ensures p.systemMsg != [] && p.userMsg != [] && p.resultPrefix != []
  {
    if language in PromptTable then PromptTable[language] else PromptTable[English]
  }

  /** `get_error_message(language)`: the message for a supported language, otherwise the English one. */
  function GetErrorMessage(language: string): (m: string)
    ensures Supported(language) ==> m == ErrorTable[language]
    ensures !Supported(language) ==> m == EnglishError
    ensures m != []
  {
    if language in ErrorTable then ErrorTable[language] else ErrorTable[English]
  }

  /** Both tables cover exactly the same three languages. */
  lemma TablesCoverSameLanguages()
    ensures PromptTable.Keys == ErrorTable.Keys == {English, Hindi, Telugu}
    ensures forall l :: l in PromptTable <==> Supported(l)
  {
  }

  /**
   * A lookup yields the English entry exactly when the key is neither of the
   * other two languages: the fallback is taken for every unknown key and for
   * nothing else.
   */
  lemma FallbackExactlyForOtherKeys(language: string)
    ensures GetPrompts(language) == EnglishPrompts <==> language != Hindi && language != Telugu
    ensures GetErrorMessage(language) == EnglishError <==> language != Hindi && language != Telugu
  {
    assert HindiPrompts.resultPrefix[0] != EnglishPrompts.resultPrefix[0];
    assert TeluguPrompts.resultPrefix[0] != EnglishPrompts.resultPrefix[0];
    assert |HindiError| != |EnglishError|;
    assert |TeluguError| != |EnglishError|;
  }

  /** The prompts and the error message of one lookup always come from the same language entry. */
  lemma LookupsAgreeOnLanguage(language: string)
    ensures exists l :: Supported(l) && GetPrompts(language) == PromptTable[l]
                        && GetErrorMessage(language) == ErrorTable[l]
  {
    var l := if Supported(language) then language else English;
    assert GetPrompts(language) == PromptTable[l] && GetErrorMessage(language) == ErrorTable[l];
  }
}
