# CodeReviewAI frontend core, in Dafny

This project models the part of the CodeReviewAI web frontend that decides what the user sees after
submitting code for review. It has three parts.

- **The home page** (`frontend/src/pages/Home.jsx`). The free-form analysis text returned by the
  review service goes through a classifier, `parseAnalysisToIssues`, which produces a list of issues:
  1. a signature precheck of the submitted code, `isCodeLikelyValid`;
  2. an ordered catalogue of 23 case-insensitive problem patterns, de-duplicated by message;
  3. a positive-indicator override;
  4. a keyword fallback for short texts.

  The submit handler, `handleSubmit`, records the analysis and starts an automatic fix exactly when
  some issue is an error.
- **The Markdown renderer** (`frontend/src/components/MarkdownRenderer.jsx`). It splits the analysis
  into lines, toggles on code fences, and classifies every other line as a heading, numbered item,
  bullet, spacer or paragraph. An inline tokenizer repeatedly takes the earliest bold, italic or code
  span.
- **The result card** (`frontend/src/components/ResultCard.jsx`). It strips Markdown fences from the
  fixed code, maps severities to styles, tests for errors, picks the summary and chooses the fixed
  code to show.

The files:
- `text.dfy` (module `Text`): the JavaScript string primitives used. This covers `trim` and the `\s`
  class (ECMAScript WhiteSpace and LineTerminator), `\w`, ASCII case folding, `startsWith`/`endsWith`,
  `split` and `join`.
- `regex.dfy` (module `Regex`): the few regular expressions, compiled by hand into alternatives of
  literal, `\s+`, `\w+` and `[\s-]` pieces. Groups are multiplied out into alternatives.
- `classifier.dfy` (module `Classifier`): the precheck and the classifier. The classifier is a
  specification function `Classify` over any rule table, and the method `ParseAnalysisToIssues` is
  proved equal to it on the page's `Catalogue`.
- `workflow.dfy` (module `Workflow`): the page state as the class `Workflow.Home`. Each `await` of
  `handleSubmit` becomes an event method. The invariant `Valid` is kept by every event.
- `markdown.dfy` (module `MarkdownRenderer`): the two loops as methods. Each is proved equal to a
  functional specification (`Run`, `Tokenize`), with lemmas about that specification.
- `resultcard.dfy` (module `ResultCard`): the card's helpers.
- `wrappers.dfy` (module `Wrappers`): `Option`.

## Model

| member | source | states |
|---|---|---|
| Text.Trim | frontend/src/pages/Home.jsx:13 | the result is an infix of the input with only whitespace cut at each end, has no whitespace at either end, and is empty exactly when the input is all whitespace |
| Text.TrimIdempotent | frontend/src/components/ResultCard.jsx:10-18 | trimming an already trimmed text changes nothing |
| Text.Split | frontend/src/components/MarkdownRenderer.jsx:9 | `split('\n')` gives at least one piece, no piece holds a newline, and joining the pieces with newlines gives the text back |
| Classifier.Signature | frontend/src/pages/Home.jsx:16-22 | a signature exists exactly for `java`, `python` and `javascript` in any letter case; any other or missing language has none |
| Classifier.SignatureNeedsText | frontend/src/pages/Home.jsx:16-20 | no signature pattern matches the empty text |
| Classifier.IsCodeLikelyValid | frontend/src/pages/Home.jsx:12-25 | blank code is rejected for every language; a language without a signature accepts exactly the non-blank code; otherwise the code is accepted exactly when the signature occurs in the trimmed code |
| Classifier.PositiveIndicatorsIgnoreCase | frontend/src/pages/Home.jsx:42-55 | the `i` flag: the text has a positive indicator exactly when its lower-cased form has one |
| Classifier.ProblemKeywordsIgnoreCase | frontend/src/pages/Home.jsx:100-101 | the `i` flag: the text holds a problem keyword as a whole word exactly when its lower-cased form does |
| Regex.TestIgnoresCase | frontend/src/pages/Home.jsx:17-19 | a case-insensitive pattern matches a text exactly when it matches the lower-cased text |
| Regex.WholeWordIgnoresCase | frontend/src/pages/Home.jsx:101 | `\b${keyword}\b` with the `i` flag finds the keyword in a text exactly when it finds it in the lower-cased text |
| Classifier.Sentences | frontend/src/pages/Home.jsx:61 | `split(/[.!?]+/)` gives at least one piece and no piece holds `.`, `!` or `?` |
| Classifier.SentencesRoundTrip | frontend/src/pages/Home.jsx:61 | the pieces, with a non-empty run of `.`, `!` and `?` put back between each pair, give the text back: `t == pieces[0] + seps[0] + pieces[1] + ...` |
| Classifier.SentencesMaximal | frontend/src/pages/Home.jsx:61 | the `+` makes each separator a maximal run: no piece between two separators is empty, so only the first and the last piece can be |
| Classifier.FirstMatching | frontend/src/pages/Home.jsx:61 | `find` returns the first piece the pattern matches, with no match before it, or nothing when no piece matches |
| Classifier.SentenceMessage | frontend/src/pages/Home.jsx:61 | the syntax-error rule's message is the first matching sentence, trimmed, unless that sentence is empty (falsy), when the canned message is used; the canned message is also used when no sentence matches |
| Classifier.MessageSource | frontend/src/pages/Home.jsx:59-81 | each rule's message is its canned text, or for the syntax-error rule either its fallback or a non-empty sentence of the analysis that the rule's pattern matches, trimmed |
| Classifier.CatalogueSeverities | frontend/src/pages/Home.jsx:58-82 | the catalogue has 23 rules; the first 19 have severity `error`, the last 4 `warning` |
| Classifier.Collect | frontend/src/pages/Home.jsx:84-92 | the pattern phase gives at most one issue per rule, with pairwise distinct messages; every issue has no line and the "See detailed analysis below" suggestion |
| Classifier.CollectExtends | frontend/src/pages/Home.jsx:84-92 | later rules only append: the issues after fewer rules are a prefix of the issues after more |
| Classifier.CollectOrigins | frontend/src/pages/Home.jsx:84-92 | each issue is the flag of a rule that fires, and issues appear in catalogue order |
| Classifier.CollectComplete | frontend/src/pages/Home.jsx:84-92 | every rule that fires has its message among the issues; only duplicates are dropped |
| Classifier.CollectEmpty | frontend/src/pages/Home.jsx:84-92 | the pattern phase gives no issue exactly when no rule fires |
| Classifier.FirstFiringRuleLeads | frontend/src/pages/Home.jsx:84-92 | the first rule that fires always gives the first issue |
| Classifier.SomeError | frontend/src/pages/Home.jsx:144 | the front-to-back `some` agrees with "some issue's severity, lower-cased, is `error`" |
| Classifier.CollectHasErrors | frontend/src/pages/Home.jsx:59-81 | for a table of error rules followed by warning rules, the pattern phase gives an `error` issue exactly when an error rule fires |
| Classifier.CollectSeverities | frontend/src/pages/Home.jsx:59-81 | every pattern-phase issue carries the severity of some rule, so the phase never invents a severity such as `info` |
| Classifier.ClassifyPhases | frontend/src/pages/Home.jsx:28-111 | a failed precheck gives exactly the invalid-input error, whatever the text; otherwise firing rules win over a positive indicator; otherwise a positive indicator gives `[]`; otherwise the single keyword warning appears exactly when a whole-word problem keyword occurs and the text is shorter than 500, and `[]` otherwise |
| Classifier.Classify | frontend/src/pages/Home.jsx:28-111 | the invalid-input issue appears exactly when the precheck fails, and is then the only issue; the keyword warning appears only alone, for a text under 500 characters with a problem keyword and no positive indicator; no issue has a line number |
| Classifier.ClassifyShape | frontend/src/pages/Home.jsx:28-111 | for rules whose severities are `error` or `warning`, no issue has a line number or any other severity |
| Classifier.ClassifyHasErrors | frontend/src/pages/Home.jsx:97-111 | the final list holds an `error` issue exactly when the precheck failed or an error rule fired; the keyword warning never counts |
| Classifier.MatchProblemPatterns | frontend/src/pages/Home.jsx:84-92 | the loop over the table computes exactly the pattern phase `Collect` |
| Classifier.ParseAnalysisToIssues | frontend/src/pages/Home.jsx:28-111 | the method computes exactly `Classify` on the page's catalogue |
| Classifier.PageHasErrors | frontend/src/pages/Home.jsx:144 | on the page's catalogue, an `error` issue appears exactly when the precheck failed or one of the 19 error rules fires |
| Workflow.ErrorMessage | frontend/src/pages/Home.jsx:179 | an `Error` gives its own message; any other thrown value gives the fixed "Failed to analyze code" text |
| Workflow.AnalysisText | frontend/src/pages/Home.jsx:132 | a missing analysis becomes the empty text; a present one is kept |
| Workflow.Home.constructor | frontend/src/pages/Home.jsx:115-120 | the page starts with both flags off and no result, fix, error or language, satisfying the invariant |
| Workflow.Home.Submit | frontend/src/pages/Home.jsx:122-127 | submitting sets loading and clears result, fixed code and error, and records the language; the invariant holds; only the loader shows |
| Workflow.Home.AnalyzeSucceeded | frontend/src/pages/Home.jsx:129-157 | the result is the classified text with summary and analysis both equal to `analysis \|\| ''`; loading ends; a fix starts exactly when some issue is an `error`, which is exactly when the precheck failed or an error rule fired; the invariant, including "never loading and fixing at once", holds |
| Workflow.Home.AnalyzeFailed | frontend/src/pages/Home.jsx:178-187 | the error message is recorded, no result is kept, both flags are off, and the error panel shows |
| Workflow.Home.FixSucceeded | frontend/src/pages/Home.jsx:158-176 | the response is recorded, fixing ends, the result is kept, and the card shows its fixed-code section unless the response is an empty string |
| Workflow.Home.FixFailed | frontend/src/pages/Home.jsx:167-176 | fixing ends; the result is kept, and fixed code and error stay null |
| ResultCard.OpeningFenceLength | frontend/src/components/ResultCard.jsx:13 | `/^```[\w]*\n?/` matches at the start exactly when the text starts with a fence, and then removes the fence, the maximal run of word characters after it, and one newline exactly when a newline follows that run |
| ResultCard.StripOpeningFence | frontend/src/components/ResultCard.jsx:13 | the result is a suffix of the text; text without an opening fence is unchanged, and with one at least the three backquotes are removed |
| ResultCard.StripClosingFence | frontend/src/components/ResultCard.jsx:16 | a trailing fence is removed together with the newline before it when there is one; text without a trailing fence is unchanged |
| ResultCard.CleanCodeBlock | frontend/src/components/ResultCard.jsx:6-19 | null, undefined or empty code gives `''`; the result never has whitespace at either end and is never longer than the input |
| ResultCard.UnfencedIsTrimmed | frontend/src/components/ResultCard.jsx:6-19 | code with no fence at either end of its trimmed form comes back just trimmed |
| ResultCard.FencedBlockUnwrapped | frontend/src/components/ResultCard.jsx:10-18 | "```lang\n" + body + "\n```" comes back as the trimmed body, whatever the body holds |
| ResultCard.OpeningOfFencedBlock | frontend/src/components/ResultCard.jsx:13 | the opening fence, its word-character language and one newline are removed, and nothing after them |
| ResultCard.SeverityClass | frontend/src/components/ResultCard.jsx:34-45 | `error` and `warning` get their own classes, exactly and case-sensitively; every other value gets the `info` class |
| ResultCard.SeverityIcon | frontend/src/components/ResultCard.jsx:21-32 | the alert shape is used exactly for `error` and `warning`, in the destructive and warning tones; everything else gets the info icon |
| ResultCard.SeverityStylesDistinct | frontend/src/components/ResultCard.jsx:21-45 | `error`, `warning` and `info` have three distinct classes, and any other value is styled like `info` |
| ResultCard.CardHasErrors | frontend/src/components/ResultCard.jsx:51-53 | true exactly when some issue's severity, lower-cased, is `error`; false for missing issues |
| ResultCard.DisplayedSummary | frontend/src/components/ResultCard.jsx:56 | the summary when non-empty, else the analysis when non-empty, else "Code analysis complete."; never empty |
| ResultCard.FixedCodeAsWritten | frontend/src/components/ResultCard.jsx:171 | for an object response, a value exists exactly when `fixed_code` is present and non-empty, and it is the cleaned `fixed_code`; otherwise the object reaches `trim` and rendering throws; a bare string response shows the cleaned string |
| ResultCard.EmptyFixCrashes | frontend/src/components/ResultCard.jsx:171 | an empty or missing `fixed_code` makes the section throw |
| ResultCard.FixedCodeShown | frontend/src/components/ResultCard.jsx:171 | an object response shows its cleaned `fixed_code` (empty when that is empty or missing), a bare string response shows the cleaned string; agrees with the code as written wherever that renders and is always trimmed |
| ResultCard.ShowsFixedCode | frontend/src/components/ResultCard.jsx:160 | the fixed-code section renders exactly when some issue is an error, a fix response is present and not the empty string, and no fix is running |
| MarkdownRenderer.Rank | frontend/src/components/MarkdownRenderer.jsx:125-129 | the patterns are tried in the order bold, italic, code |
| MarkdownRenderer.Delimiter | frontend/src/components/MarkdownRenderer.jsx:126-128 | a delimiter is one or two copies of its style's mark |
| MarkdownRenderer.SpanClose | frontend/src/components/MarkdownRenderer.jsx:126-128 | a pattern matches at a start exactly when a span starts there, closing at the first mark after the opening delimiter |
| MarkdownRenderer.SpanClosesAtFirstMark | frontend/src/components/MarkdownRenderer.jsx:126-128 | `[^*]+` cannot cross a mark, so a span closes at the first mark after its opening |
| MarkdownRenderer.FindSpan | frontend/src/components/MarkdownRenderer.jsx:138-139 | `exec` from index 0 finds the leftmost start where the pattern matches, or reports that none does |
| MarkdownRenderer.EarliestAmong | frontend/src/components/MarkdownRenderer.jsx:137-144 | the choice is a match of one of the patterns tried so far |
| MarkdownRenderer.EarliestAmongIsLeftmost | frontend/src/components/MarkdownRenderer.jsx:140 | no tried pattern matches left of the choice; on equal starts the pattern tried first wins, because the comparison is strict |
| MarkdownRenderer.EarliestIsLeftmost | frontend/src/components/MarkdownRenderer.jsx:137-144 | whenever any pattern matches, a match is chosen, and it is leftmost, with ties going to bold, then italic, then code |
| MarkdownRenderer.EarliestMatch | frontend/src/components/MarkdownRenderer.jsx:137-144 | the `forEach` loop computes exactly the earliest match |
| MarkdownRenderer.PushMatch | frontend/src/components/MarkdownRenderer.jsx:152-169 | the plain text before the match, if any, then the span's content, are appended |
| MarkdownRenderer.TokenizeNoSpan | frontend/src/components/MarkdownRenderer.jsx:132-150 | empty text gives no part; text with no match gives one plain part equal to it |
| MarkdownRenderer.Tokenize | frontend/src/components/MarkdownRenderer.jsx:132-173 | the loop gives no part exactly for empty text, and never more parts than the text has characters |
| MarkdownRenderer.LeadSource | frontend/src/components/MarkdownRenderer.jsx:152-172 | one step's parts, with delimiters put back, are exactly the text it consumed |
| MarkdownRenderer.SpanSource | frontend/src/components/MarkdownRenderer.jsx:158 | a span's content with its delimiters put back is the matched text |
| MarkdownRenderer.LeadThen | frontend/src/components/MarkdownRenderer.jsx:152-172 | one step's parts, followed by parts that rebuild the rest, rebuild the whole text |
| MarkdownRenderer.TokenizeRoundTrip | frontend/src/components/MarkdownRenderer.jsx:132-173 | concatenating the plain parts and each span re-wrapped in its delimiters reproduces the input exactly |
| MarkdownRenderer.WellFormedAppend | frontend/src/components/MarkdownRenderer.jsx:132-173 | well-formed parts stay well formed when joined after a span |
| MarkdownRenderer.LeadWellFormed | frontend/src/components/MarkdownRenderer.jsx:152-169 | one step's parts are non-empty and end with a span whose content holds no mark |
| MarkdownRenderer.TokenizeWellFormed | frontend/src/components/MarkdownRenderer.jsx:132-173 | no part is empty, a span's content never holds its own mark, and two plain parts are never adjacent |
| MarkdownRenderer.TokenizeTurn | frontend/src/components/MarkdownRenderer.jsx:133-172 | one turn keeps "parts so far + parts of the rest" unchanged, and either ends the loop or consumes at least 3 characters |
| MarkdownRenderer.ParseInlineMarkdown | frontend/src/components/MarkdownRenderer.jsx:119-176 | the loop computes exactly the tokenizer specification `Tokenize` |
| MarkdownRenderer.FenceLabel | frontend/src/components/MarkdownRenderer.jsx:31 | a block's header is never empty: its language when that is non-empty, `code` when it is empty |
| MarkdownRenderer.HeadingLevel | frontend/src/components/MarkdownRenderer.jsx:52-77 | a level is found only when the untrimmed line starts with that level's marker (`# `, `## ` or `### `); level 0 exactly when none of the three starts it |
| MarkdownRenderer.NumberPrefix | frontend/src/components/MarkdownRenderer.jsx:80-81 | the length of a `^\d+\.\s` match: digits, a dot and a whitespace character; a line that matches with its dot at `d` gives exactly `d + 2`, and 0 means no match |
| MarkdownRenderer.ClassifyLine | frontend/src/components/MarkdownRenderer.jsx:51-112 | a line outside a block never gives a code block; the cases are tried in order: headings, then numbered items, then bullets on the trimmed line, and each case's text is as removed; a spacer appears exactly for a blank line |
| MarkdownRenderer.RenderLine | frontend/src/components/MarkdownRenderer.jsx:51-112 | the if-chain gives exactly `ClassifyLine` |
| MarkdownRenderer.Step | frontend/src/components/MarkdownRenderer.jsx:15-113 | one line pushes at most one element; a fence toggles between inside and outside a block and any other line keeps the mode; inside a block only the closing fence pushes, and a code element is pushed exactly by a closing fence |
| MarkdownRenderer.Run | frontend/src/components/MarkdownRenderer.jsx:15-113 | the line loop never pushes more elements than there are lines |
| MarkdownRenderer.RunAppend | frontend/src/components/MarkdownRenderer.jsx:15-113 | walking two stretches of lines is walking the first, then the second from the mode the first left |
| MarkdownRenderer.OutsideLines | frontend/src/components/MarkdownRenderer.jsx:46-112 | outside a block, every non-fence line gives exactly one element, its classification |
| MarkdownRenderer.InsideLines | frontend/src/components/MarkdownRenderer.jsx:46-49 | inside a block, lines give no element and are collected in order |
| MarkdownRenderer.ClosedBlock | frontend/src/components/MarkdownRenderer.jsx:19-44 | a fence, lines and a fence give exactly one code element, with language = the opening fence's trimmed text minus ```` ``` ````, content = the lines joined by newlines, and the mode back outside |
| MarkdownRenderer.UnclosedBlockDropped | frontend/src/components/MarkdownRenderer.jsx:15-49 | a block still open when the lines run out is dropped with everything in it |
| MarkdownRenderer.ElementCount | frontend/src/components/MarkdownRenderer.jsx:15-113 | the element count is the non-fence lines outside blocks plus the closed blocks |
| MarkdownRenderer.ParseMarkdown | frontend/src/components/MarkdownRenderer.jsx:7-116 | the line loop computes exactly the line-walk specification `Run` over `split('\n')` |
| MarkdownRenderer.Render | frontend/src/components/MarkdownRenderer.jsx:3-4 | the component renders nothing exactly when the content is missing or empty |

## Left out

- Rendering is not modelled: JSX markup, React keys, the toasts, `console.error`, the loader and the
  typing animation. The elements and parts are datatypes. The only class names modelled are the
  severity styles of the result card (`ResultCard.SeverityClass`); all other class names are left out.
- The network calls in `frontend/src/services/api.js` are not part of this model. Their outcomes are
  the arguments of the event methods.
  - The message of a rejected analysis call is the `message` of an `ErrorObject`.
  - The fix response is a `FixResponse`: an object whose `fixed_code` may be missing, or a bare string.
- Workflow.Home.AnalyzeSucceeded: an analysis body whose `analysis` is a non-string truthy value is
  not modelled; `analysis` is a string or missing.
- Workflow.Home.AnalyzeFailed: an exception thrown after the analysis resolved is not modelled, for
  example one from the toast. Such an exception would also reach the outer `catch`.
- Workflow.Home.Submit: re-entrant submits while a call is in flight are excluded by the
  precondition. The form at `frontend/src/components/CodeInput.jsx:24` prevents them, and the handler
  has no guard against stale responses. The form's blank-code guard is not required; blank code is
  handled by the precheck.
- Classifier.Classify: the text length compared with 500 counts Unicode code points. JavaScript
  counts UTF-16 code units, so texts with characters outside the Basic Multilingual Plane can differ.
- Classifier.Signature: language names such as `constructor`, which JavaScript objects inherit,
  would make `patterns[...]` return a function, and `pattern.test` would then throw. This is not
  modelled; the form offers only python, java and javascript.
- Case-insensitive matching and `toLowerCase` fold ASCII letters only (`Text.Lower`). For the regular
  expressions this is exact: the `i` flag without `u` folds no non-ASCII character onto an ASCII
  letter. `toLowerCase` does: it maps U+212A KELVIN SIGN to ASCII `k`, and U+0130 to `i` followed by
  a combining dot. The model is still exact where `toLowerCase` is used, because its result is only
  compared with `java`, `python`, `javascript` and `error`. None of these contains a `k`, and none
  contains the combining dot.
- Classifier.ClassifyHasErrors, Classifier.ClassifyShape: these are proved for any rule table with
  the stated severity layout. `Classifier.PageHasErrors` instantiates the first for the page's own
  catalogue.
- The result card's second fixed-code section (`frontend/src/components/ResultCard.jsx:178`) reads
  `result.fixedCode`. The page never sets that field, so the section never renders, and it is not
  modelled.
- The card's `language || 'javascript'` default for the typing display is not modelled.
- The `Error` panel's constant hint about the backend address is not modelled.

## Findings

| source | as written | input that shows it | evidently intended | confidence | as-written member | corrected member |
|---|---|---|---|---|---|---|
| frontend/src/components/ResultCard.jsx:171 | `cleanCodeBlock(fixedCode?.fixed_code \|\| fixedCode)` passes the whole response object to `cleanCodeBlock` when `fixed_code` is empty or missing, and `code.trim()` then throws a TypeError while rendering. The backend's response model (`ai-agent-python/src/models/response_model.py:7`) allows an empty `fixed_code`. | a fix response `{ "fixed_code": "" }` for code whose analysis has an error issue | show the cleaned `fixed_code`, empty when it is empty or missing | not executed | ResultCard.FixedCodeAsWritten, ResultCard.EmptyFixCrashes | ResultCard.FixedCodeShown |
