/** The helpers of the result card (frontend/src/components/ResultCard.jsx): cleaning the
    fixed code of its Markdown fence, the severity styles, the error test, the summary
    fallback and the choice of the fixed code to show. */
module ResultCard {
  import opened Wrappers
  import opened Text
  import opened Classifier

  /** What the home page hands to the card after an analysis. */
  datatype AnalysisResult = AnalysisResult(issues: seq<Issue>, summary: string, analysis: string)

  /** The JSON body of a successful fix call: an object whose `fixed_code` may be missing,
      or a bare string. */
  datatype FixResponse = FixObject(fixedCode: Option<string>) | FixText(text: string)

  // ---------------------------------------------------------------------------
  // cleanCodeBlock

  const Fence := "```"

  /** The end of the run of word characters that starts at `i`. */
  function WordRunEnd(s: string, i: nat): (j: nat)
    requires i <= |s|
    ensures i <= j <= |s|
    ensures forall k :: i <= k < j ==> IsWordChar(s[k])
    ensures j == |s| || !IsWordChar(s[j])
    decreases |s| - i
  {
    if i < |s| && IsWordChar(s[i]) then WordRunEnd(s, i + 1) else i
  }

  /** The length of the prefix `/^```[\w]*\n?/` matches, or 0 when it does not match:
      without the `m` flag `^` only matches at the start, and the match takes the fence,
      every word character after it, and one newline if one follows. */
  function OpeningFenceLength(s: string): (n: nat)
    ensures n <= |s|
    ensures n == 0 <==> !StartsWith(s, Fence)
    ensures n > 0 ==>
      exists m :: 3 <= m <= n <= m + 1 && (forall k :: 3 <= k < m ==> IsWordChar(s[k]))
                  && (m == |s| || !IsWordChar(s[m])) && (n == m + 1 <==> m < |s| && s[m] == '\n')
  {
    if StartsWith(s, Fence) then
      var w := WordRunEnd(s, 3);
      var n := if w < |s| && s[w] == '\n' then w + 1 else w;
      assert 3 <= w <= n <= w + 1 && (forall k :: 3 <= k < w ==> IsWordChar(s[k]))
        && (w == |s| || !IsWordChar(s[w])) && (n == w + 1 <==> w < |s| && s[w] == '\n');
      n
    else 0
  }

  /** `s.replace(/^```[\w]*\n?/g, '')`. */
  function StripOpeningFence(s: string): (r: string)
    ensures |r| <= |s| && r == s[|s| - |r|..]
    ensures !StartsWith(s, Fence) ==> r == s
    ensures StartsWith(s, Fence) ==> |r| <= |s| - 3
  {
    s[OpeningFenceLength(s)..]
  }

  /** `s.replace(/\n?```$/g, '')`: a match must end where the string ends, and the leftmost
      one starts at the newline before the fence when there is one. */
  function StripClosingFence(s: string): (r: string)
    ensures !EndsWith(s, Fence) ==> r == s
    ensures EndsWith(s, Fence) && EndsWith(s, "\n" + Fence) ==> r == s[..|s| - 4]
    ensures EndsWith(s, Fence) && !EndsWith(s, "\n" + Fence) ==> r == s[..|s| - 3]
  {
    if EndsWith(s, "\n" + Fence) then s[..|s| - 4]
    else if EndsWith(s, Fence) then s[..|s| - 3]
    else s
  }

  /** `cleanCodeBlock(code)` for a string, null or undefined: nothing becomes the empty
      string; otherwise the trimmed text loses an opening and a closing fence and is
      trimmed again. */
  function CleanCodeBlock(code: Option<string>): (cleaned: string)
    ensures IsTrimmed(cleaned)
    ensures code == None || code == Some("") ==> cleaned == ""
    ensures code.Some? ==> |cleaned| <= |code.value|
  {
    match code
    case None => ""
    case Some(c) =>
      if c == "" then ""
      else
        var trimmed := Trim(c);
        Trim(StripClosingFence(StripOpeningFence(trimmed)))
  }

  /** Text with no fence at either end of its trimmed form comes back trimmed, and
      nothing else changes. */
  lemma UnfencedIsTrimmed(code: string)
    requires !StartsWith(Trim(code), Fence) && !EndsWith(Trim(code), Fence)
    ensures CleanCodeBlock(Some(code)) == Trim(code)
  {
    if code != "" {
      TrimIdempotent(code);
    }
  }

  /** A fenced block as a language model writes it, "```lang\n" + body + "\n```", comes
      back as the trimmed body, whatever the body holds. */
  lemma FencedBlockUnwrapped(language: string, body: string)
    requires forall k :: 0 <= k < |language| ==> IsWordChar(language[k])
    ensures CleanCodeBlock(Some(Fence + language + "\n" + body + "\n" + Fence)) == Trim(body)
  {
    var rest := body + "\n" + Fence;
    FencedBlockTrimmed(language, body);
    OpeningOfFencedBlock(language, rest);
    ClosingOfFencedBlock(body);
  }

  /** A fenced block starts and ends with a backtick, so `trim` leaves it alone. */
  lemma FencedBlockTrimmed(language: string, body: string)
    ensures var block := Fence + language + "\n" + body + "\n" + Fence;
      block == Fence + language + "\n" + (body + "\n" + Fence) && Trim(block) == block
  {
    var block := Fence + language + "\n" + body + "\n" + Fence;
    assert block[0] == '`' && block[|block| - 1] == '`';
    TrimmedIsFixedPoint(block);
  }

  /** The closing "\n```" goes, and nothing before it. */
  lemma ClosingOfFencedBlock(body: string)
    ensures StripClosingFence(body + "\n" + Fence) == body
  {
    var rest := body + "\n" + Fence;
    assert rest[|rest| - 4..] == "\n" + Fence;
    assert rest[..|rest| - 4] == body;
  }

  /** The opening "```lang\n" goes, and nothing after it. */
  lemma OpeningOfFencedBlock(language: string, rest: string)
    requires forall k :: 0 <= k < |language| ==> IsWordChar(language[k])
    ensures StripOpeningFence(Fence + language + "\n" + rest) == rest
  {
    var s := Fence + language + "\n" + rest;
    assert StartsWith(s, Fence);
    forall k | 3 <= k < 3 + |language| ensures IsWordChar(s[k]) {
      assert s[k] == language[k - 3];
    }
    assert s[3 + |language|] == '\n';
    WordRunStops(s, 3, 3 + |language|);
    assert s[4 + |language|..] == rest;
  }

  /** A run of word characters followed by a non-word character ends there. */
  lemma {:induction false} WordRunStops(s: string, i: nat, j: nat)
    requires i <= j < |s|
    requires forall k :: i <= k < j ==> IsWordChar(s[k])
    requires !IsWordChar(s[j])
    ensures WordRunEnd(s, i) == j
    decreases j - i
  {
    if i < j {
      WordRunStops(s, i + 1, j);
    }
  }

  // ---------------------------------------------------------------------------
  // Severity styles

  const ErrorClass := "border-destructive/30 bg-destructive/5"
  const WarningClass := "border-warning/30 bg-warning/5"
  const InfoClass := "border-primary/30 bg-primary/5"

  /** `getSeverityClass`: an exact, case-sensitive switch whose default is the `info` style. */
  function SeverityClass(severity: string): (style: string)
    ensures style == ErrorClass <==> severity == "error"
    ensures style == WarningClass <==> severity == "warning"
    ensures severity != "error" && severity != "warning" ==> style == InfoClass
  {
    if severity == "error" then ErrorClass
    else if severity == "warning" then WarningClass
    else InfoClass
  }

  datatype Shape = AlertCircle | InfoCircle
  datatype Tone = Destructive | Warning | Primary
  datatype Icon = Icon(shape: Shape, tone: Tone)

  /** `getSeverityIcon`: the same switch, giving a shape and a colour. */
  function SeverityIcon(severity: string): (icon: Icon)
    ensures icon.shape == AlertCircle <==> severity == "error" || severity == "warning"
    ensures icon.tone == Destructive <==> severity == "error"
    ensures icon.tone == Warning <==> severity == "warning"
    ensures severity != "error" && severity != "warning" ==> icon == Icon(InfoCircle, Primary)
  {
    if severity == "error" then Icon(AlertCircle, Destructive)
    else if severity == "warning" then Icon(AlertCircle, Warning)
    else Icon(InfoCircle, Primary)
  }

  /** The three named severities have three different styles, and an unknown value,
      including a differently cased one, looks like `info`. */
  lemma SeverityStylesDistinct(other: string)
    requires other !in {"error", "warning"}
    ensures |{SeverityClass("error"), SeverityClass("warning"), SeverityClass("info")}| == 3
    ensures SeverityClass(other) == SeverityClass("info") && SeverityIcon(other) == SeverityIcon("info")
  {
    assert ErrorClass[8] != WarningClass[8];
    assert ErrorClass[8] != InfoClass[8] && WarningClass[8] != InfoClass[8];
  }

  // ---------------------------------------------------------------------------
  // The card's own decisions

  /** `result?.issues?.some(...) || false`: missing issues count as no error. */
  function CardHasErrors(issues: Option<seq<Issue>>): (hasErrors: bool)
    ensures hasErrors <==> issues.Some? && exists k :: 0 <= k < |issues.value| && Lower(issues.value[k].severity) == "error"
  {
    match issues
    case None => false
    case Some(list) => SomeError(list)
  }

  const DefaultSummary := "Code analysis complete."

  /** `result?.summary || result?.analysis || 'Code analysis complete.'`, where only the
      empty string is falsy among strings. */
  function DisplayedSummary(result: AnalysisResult): (summary: string)
    ensures summary != ""
    ensures result.summary != "" ==> summary == result.summary
    ensures result.summary == "" && result.analysis != "" ==> summary == result.analysis
    ensures result.summary == "" && result.analysis == "" ==> summary == DefaultSummary
  {
    if result.summary != "" then result.summary
    else if result.analysis != "" then result.analysis
    else DefaultSummary
  }

  /** The card's fixed-code section is rendered when there are errors, a truthy fix
      response and no fix in flight. */
  predicate ShowsFixedCode(result: AnalysisResult, fixedCode: Option<FixResponse>, isFixing: bool)
    ensures ShowsFixedCode(result, fixedCode, isFixing) ==>
      fixedCode.Some? && !isFixing && exists k :: 0 <= k < |result.issues| && Lower(result.issues[k].severity) == "error"
    ensures fixedCode == Some(FixText("")) || fixedCode.None? || isFixing ==> !ShowsFixedCode(result, fixedCode, isFixing)
    ensures ((exists k :: 0 <= k < |result.issues| && Lower(result.issues[k].severity) == "error")
             && fixedCode.Some? && fixedCode.value != FixText("") && !isFixing)
      ==> ShowsFixedCode(result, fixedCode, isFixing)
  {
    CardHasErrors(Some(result.issues)) && fixedCode.Some? && fixedCode.value != FixText("") && !isFixing
  }

  /** `cleanCodeBlock(fixedCode?.fixed_code || fixedCode)` as written, for a response the
      section renders: a non-empty `fixed_code` is cleaned; otherwise the object itself
      reaches `code.trim()`, which throws (`None` here); a bare string is cleaned. */
  function FixedCodeAsWritten(response: FixResponse): (shown: Option<string>)
    ensures response.FixObject? ==> (shown.Some? <==> response.fixedCode.Some? && response.fixedCode.value != "")
    ensures response.FixObject? && shown.Some? ==> shown.value == CleanCodeBlock(response.fixedCode)
    ensures response.FixText? ==> shown == Some(CleanCodeBlock(Some(response.text)))
    ensures shown.Some? ==> IsTrimmed(shown.value)
  {
    match response
    case FixObject(field) =>
      if field.Some? && field.value != "" then Some(CleanCodeBlock(field)) else None
    case FixText(text) => Some(CleanCodeBlock(Some(text)))
  }

  /** An empty `fixed_code`, which the backend's response model allows, makes the card throw
      while rendering. */
  lemma EmptyFixCrashes()
    ensures FixedCodeAsWritten(FixObject(Some(""))) == None
    ensures FixedCodeAsWritten(FixObject(None)) == None
  {
  }

  /** The code the section evidently means to show: the cleaned `fixed_code` of an object
      (empty when it is empty or missing), or the cleaned bare string. */
  function FixedCodeShown(response: FixResponse): (shown: string)
    ensures IsTrimmed(shown)
    ensures response.FixObject? ==> shown == CleanCodeBlock(response.fixedCode)
    ensures response.FixText? ==> shown == CleanCodeBlock(Some(response.text))
    ensures FixedCodeAsWritten(response).Some? ==> shown == FixedCodeAsWritten(response).value
    ensures response.FixObject? && (response.fixedCode == None || response.fixedCode == Some("")) ==> shown == ""
  {
    match response
    case FixObject(field) => CleanCodeBlock(field)
    case FixText(text) => CleanCodeBlock(Some(text))
  }

}
