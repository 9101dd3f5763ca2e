/** The submit workflow of the home page (frontend/src/pages/Home.jsx): `handleSubmit` awaits
    the analysis, records the parsed result, and starts a fix exactly when some issue is an
    error. Each `await` becomes an event method; the field `pending` says which `await` the
    suspended handler sits at, with the code and language its closure captured. */
module Workflow {
  import opened Wrappers
  import opened Text
  import opened Classifier
  import opened ResultCard

  /** What a rejected `await` throws: an `Error` with its message, or any other value. */
  datatype Thrown = ErrorObject(message: string) | OtherValue

  const AnalyzeFailedMessage := "Failed to analyze code. Please try again."

  /** `err instanceof Error ? err.message : "Failed to analyze code. Please try again."` */
  function ErrorMessage(thrown: Thrown): (message: string)
    ensures thrown.ErrorObject? ==> message == thrown.message
    ensures thrown.OtherValue? ==> message == AnalyzeFailedMessage && message != ""
  {
    match thrown
    case ErrorObject(m) => m
    case OtherValue => AnalyzeFailedMessage
  }

  /** `response.analysis || ''`: a missing analysis, or an empty one, is the empty text. */
  function AnalysisText(analysis: Option<string>): (text: string)
    ensures analysis.Some? ==> text == analysis.value
    ensures analysis.None? ==> text == ""
  {
    if analysis.Some? then analysis.value else ""
  }

  /** Where the handler is suspended. */
  datatype Pending =
    | Idle
    | AwaitingAnalysis(code: string, language: string)
    | AwaitingFix(code: string, language: string)

  /** The state of the home page. */
  class Home {
    var isLoading: bool
    var isFixing: bool
    var result: Option<AnalysisResult>
    var fixedCode: Option<FixResponse>
    var error: Option<string>
    var currentLanguage: Option<string>
    var pending: Pending

    /** The invariant of the page: the two flags are never both set, each says which call
        is in flight, a fix is only ever in flight or recorded for a result with an error
        issue, the summary and the analysis of a result are the same text, and an error
        comes with no result. */
    predicate Valid()
      reads this
    {
      !(isLoading && isFixing)
      && (pending.Idle? ==> !isLoading && !isFixing)
      && (pending.AwaitingAnalysis? ==>
            isLoading && result.None? && fixedCode.None? && error.None?
            && currentLanguage == Some(pending.language))
      && (pending.AwaitingFix? ==>
            isFixing && result.Some? && HasErrors(result.value.issues) && fixedCode.None? && error.None?
            && currentLanguage == Some(pending.language))
      && (result.Some? ==> result.value.summary == result.value.analysis)
      && (fixedCode.Some? ==> result.Some? && HasErrors(result.value.issues))
      && (error.Some? ==> result.None? && fixedCode.None?)
    }

    /** The loader is shown while either call is in flight. */
    predicate ShowsLoader()
      reads this
    {
      isLoading || isFixing
    }

    /** The error panel is shown for an error once nothing is in flight. */
    predicate ShowsError()
      reads this
    {
      error.Some? && error.value != "" && !isLoading && !isFixing
    }

    /** The result card is shown for a result once the analysis is back. */
    predicate ShowsResultCard()
      reads this
    {
      result.Some? && !isLoading
    }

    /** The initial `useState` values. */
    constructor ()
      ensures Valid() && pending == Idle
      ensures !isLoading && !isFixing
      ensures result == None && fixedCode == None && error == None && currentLanguage == None
    {
      isLoading := false;
      isFixing := false;
      result := None;
      fixedCode := None;
      error := None;
      currentLanguage := None;
      pending := Idle;
    }

    /** The synchronous start of `handleSubmit(code, language)`, up to the `await` of the
        analysis. The form only submits while neither call is in flight. */
    method Submit(code: string, language: string)
      requires Valid() && !isLoading && !isFixing
      modifies this
      ensures Valid()
      ensures pending == AwaitingAnalysis(code, language)
      ensures isLoading && !isFixing
      ensures result == None && fixedCode == None && error == None
      ensures currentLanguage == Some(language)
      ensures ShowsLoader() && !ShowsError() && !ShowsResultCard()
    {
      isLoading := true;
      result := None;
      fixedCode := None;
      error := None;
      currentLanguage := Some(language);
      pending := AwaitingAnalysis(code, language);
    }

    /** The analysis call resolved with a body whose `analysis` field is `analysis`: the
        text is classified, recorded as both summary and analysis, loading ends, and a fix
        starts exactly when some issue's severity is `error`, which happens exactly when the
        code failed the precheck or an error rule fired on the text. */
    method AnalyzeSucceeded(analysis: Option<string>) returns (fixStarted: bool)
      requires Valid() && pending.AwaitingAnalysis?
      modifies this
      ensures Valid()
      ensures var text := AnalysisText(analysis);
        result == Some(AnalysisResult(
          Classify(Catalogue, text, old(pending).code, Some(old(pending).language)), text, text))
      ensures fixStarted <==> HasErrors(result.value.issues)
      ensures fixStarted <==>
        !IsCodeLikelyValid(old(pending).code, Some(old(pending).language))
        || AnyRuleFires(Catalogue, AnalysisText(analysis), ErrorRuleCount)
      ensures !isLoading && isFixing == fixStarted
      ensures pending == if fixStarted then AwaitingFix(old(pending).code, old(pending).language) else Idle
      ensures fixedCode == None && error == None && currentLanguage == old(currentLanguage)
      ensures ShowsResultCard() && !ShowsError()
    {
      var code := pending.code;
      var language := pending.language;
      var analysisText := AnalysisText(analysis);
      var parsedIssues := ParseAnalysisToIssues(analysisText, code, Some(language));
      result := Some(AnalysisResult(parsedIssues, analysisText, analysisText));
      var hasErrors := SomeError(parsedIssues);
      isLoading := false;
      PageHasErrors(analysisText, code, Some(language));
      if hasErrors {
        isFixing := true;
        pending := AwaitingFix(code, language);
      } else {
        pending := Idle;
      }
      fixStarted := hasErrors;
    }

    /** The analysis call rejected with `thrown`: its message is recorded and both flags
        are cleared; no result is kept. */
    method AnalyzeFailed(thrown: Thrown)
      requires Valid() && pending.AwaitingAnalysis?
      modifies this
      ensures Valid() && pending == Idle
      ensures error == Some(ErrorMessage(thrown))
      ensures result == None && fixedCode == None
      ensures !isLoading && !isFixing
      ensures currentLanguage == old(currentLanguage)
      ensures !ShowsResultCard() && !ShowsLoader()
      ensures ErrorMessage(thrown) != "" ==> ShowsError()
    {
      var errorMessage := ErrorMessage(thrown);
      error := Some(errorMessage);
      isLoading := false;
      isFixing := false;
      pending := Idle;
    }

    /** The fix call resolved with `response`: it is recorded and fixing ends; the card then
        shows its fixed-code section unless the response is an empty string. */
    method FixSucceeded(response: FixResponse)
      requires Valid() && pending.AwaitingFix?
      modifies this
      ensures Valid() && pending == Idle
      ensures fixedCode == Some(response)
      ensures result == old(result) && error == None && currentLanguage == old(currentLanguage)
      ensures !isLoading && !isFixing
      ensures response != FixText("") ==> ShowsFixedCode(result.value, fixedCode, isFixing)
      ensures ShowsResultCard()
    {
      fixedCode := Some(response);
      isFixing := false;
      pending := Idle;
    }

    /** The fix call rejected: only fixing ends; the analysis stays on screen. */
    method FixFailed()
      requires Valid() && pending.AwaitingFix?
      modifies this
      ensures Valid() && pending == Idle
      ensures result == old(result) && fixedCode == None && error == None
      ensures currentLanguage == old(currentLanguage)
      ensures !isLoading && !isFixing
      ensures ShowsResultCard() && !ShowsError()
    {
      isFixing := false;
      pending := Idle;
    }
  }

}
