/** The analysis-to-issues classifier of the home page (frontend/src/pages/Home.jsx):
    a signature precheck on the submitted code, then an ordered catalogue of problem
    patterns over the service's free-form analysis text, then a positive-indicator
    override and a keyword fallback. */
module Classifier {
  import opened Wrappers
  import opened Text
  import opened Regex

  /** One finding shown to the user. */
  datatype Issue = Issue(severity: string, message: string, line: Option<int>, suggestion: string)

  const InvalidInput := Issue(
    "error",
    "Input does not appear to be valid code in the selected language",
    None,
    "Please enter actual code for analysis")

  const PotentialIssues := Issue(
    "warning",
    "Potential issues detected - review the analysis for details",
    None,
    "Check the detailed analysis section below")

  /** The suggestion every catalogue issue carries. */
  const SeeBelow := "See detailed analysis below for more information"

  // ---------------------------------------------------------------------------
  // Signature precheck

  const JavaSignature: Pattern := [
    [Lit("class"), Spaces, Word],
    Phrase(["public", "static", "void"]),
    [Lit("System.out.print")],
    [Lit("import"), Spaces, Word]
  ]

  const PythonSignature: Pattern := [
    [Lit("def"), Spaces, Word],
    [Lit("import"), Spaces, Word],
    [Lit("print(")]
  ]

  const JavaScriptSignature: Pattern := [
    [Lit("function"), Spaces, Word],
    [Lit("const"), Spaces, Word],
    [Lit("let"), Spaces, Word],
    [Lit("console.log")]
  ]

  /** The signature configured for a language (`patterns[language?.toLowerCase()]`). */
  function Signature(language: Option<string>): (sig: Option<Pattern>)
    ensures sig.Some? <==> language.Some? && Lower(language.value) in {"java", "python", "javascript"}
  {
    match language
    case None => None
    case Some(l) =>
      var key := Lower(l);
      if key == "java" then Some(JavaSignature)
      else if key == "python" then Some(PythonSignature)
      else if key == "javascript" then Some(JavaScriptSignature)
      else None
  }

  /** Every signature alternative begins with a non-empty literal, so none matches the
      empty string. */
  lemma SignatureNeedsText(language: Option<string>)
    ensures Signature(language).Some? ==> !Test(Signature(language).value, "")
  {
    if Signature(language).Some? {
      var sig := Signature(language).value;
      forall a | 0 <= a < |sig| ensures !MatchesFrom(sig[a], "", 0) {
        assert sig[a][0].Lit? && |sig[a][0].word| > 0;
      }
    }
  }

  /** `isCodeLikelyValid`: blank code is never valid; a language without a signature
      accepts any other code; otherwise the signature must occur in the trimmed code. */
  function IsCodeLikelyValid(code: string, language: Option<string>): (valid: bool)
    ensures AllSpace(code) ==> !valid
    ensures Signature(language).None? ==> (valid <==> !AllSpace(code))
    ensures Signature(language).Some? ==> (valid <==> Test(Signature(language).value, Trim(code)))
  {
    var trimmed := Trim(code);
    if trimmed == "" then
      SignatureNeedsText(language);
      false
    else
      match Signature(language)
      case None => true
      case Some(sig) => Test(sig, trimmed)
  }

  // ---------------------------------------------------------------------------
  // Positive indicators

  const PositiveIndicators: seq<Pattern> := [
    Choice(["no", "critical"], ["issue", "issues"], ["found"]) + Choice(["no"], ["issue", "issues"], ["found"]),
    [Phrase(["code", "is", "syntactically", "correct"]), Phrase(["code", "is", "correct"])],
    [Phrase(["will", "run", "without", "errors"])],
    [Phrase(["looks", "good"])],
    Choice(["perfectly"], ["fine", "valid"], []),
    Choice(["no"], ["problem", "problems"], ["detected"]),
    [Phrase(["code", "is", "valid"])],
    Choice(["no"], ["bug", "bugs"], ["found"])
  ]

  predicate HasPositiveIndicator(t: string) {
    exists k :: 0 <= k < |PositiveIndicators| && Test(PositiveIndicators[k], t)
  }

  /** The indicators carry the `i` flag: the letter case of the analysis does not matter. */
  lemma PositiveIndicatorsIgnoreCase(t: string)
    ensures HasPositiveIndicator(t) <==> HasPositiveIndicator(Lower(t))
  {
    forall k | 0 <= k < |PositiveIndicators|
      ensures Test(PositiveIndicators[k], t) == Test(PositiveIndicators[k], Lower(t))
    {
      TestIgnoresCase(PositiveIndicators[k], t);
    }
  }

  // ---------------------------------------------------------------------------
  // Problem-pattern catalogue

  /** How a rule words its issue: a canned message, or the first sentence of the analysis
      that matches the rule's own pattern (trimmed), with a canned message when none does. */
  datatype Extract = Fixed(message: string) | SentenceOrElse(fallback: string)

  datatype Rule = Rule(pattern: Pattern, severity: string, extract: Extract)

  const Languages: seq<string> :=
    ["python", "java", "javascript", "c++", "ruby", "go", "rust", "php", "swift", "kotlin", "typescript"]

  /** The rules before this index have severity `error`, the rest `warning`. */
  const ErrorRuleCount := 19

  const Catalogue: seq<Rule> := [
    Rule([Phrase(["language", "mismatch"])], "error",
      Fixed("Language Mismatch: The submitted code language does not match the selected language")),
    Rule(Choice(["is", "not"], Languages, ["code"]) + Choice(["not", "valid"], Languages, ["code"]), "error",
      Fixed("Wrong Language: The code appears to be in a different language than selected")),
    Rule([Phrase(["syntax", "error"])], "error",
      SentenceOrElse("Syntax Error detected in the code")),
    Rule([Phrase(["parsing", "error"])], "error",
      Fixed("Parsing Error: Unable to parse the code structure")),
    Rule([Phrase(["compilation", "error"])], "error",
      Fixed("Compilation Error: The code will not compile")),
    Rule([Phrase(["runtime", "error"])], "error",
      Fixed("Runtime Error: The code may crash during execution")),
    Rule([Phrase(["logic", "error"])], "error",
      Fixed("Logic Error: The code logic appears to be incorrect")),
    Rule([Phrase(["infinite", "loop"])], "error",
      Fixed("Infinite Loop: Code contains a loop that may never terminate")),
    Rule([Phrase(["null", "pointer"]), Phrase(["nullptr"]), Phrase(["nullpointerexception"])], "error",
      Fixed("Null Reference: Potential null pointer/reference access detected")),
    Rule([Phrase(["memory", "leak"])], "error",
      Fixed("Memory Leak: Code may not properly release memory")),
    Rule([Phrase(["buffer", "overflow"])], "error",
      Fixed("Buffer Overflow: Potential buffer overflow vulnerability")),
    Rule([Phrase(["race", "condition"])], "error",
      Fixed("Race Condition: Potential concurrency issue detected")),
    Rule([Phrase(["deadlock"])], "error",
      Fixed("Deadlock: Potential deadlock situation in concurrent code")),
    Rule(Choice(["security"], ["vulnerability", "issue", "risk"], []), "error",
      Fixed("Security Vulnerability: Code contains potential security risks")),
    Rule([Phrase(["sql", "injection"])], "error",
      Fixed("SQL Injection: Code is vulnerable to SQL injection attacks")),
    Rule([Phrase(["xss"]), [Lit("cross"), SpaceOrHyphen, Lit("site"), Spaces, Lit("scripting")]], "error",
      Fixed("XSS Vulnerability: Code is vulnerable to cross-site scripting")),
    Rule([Phrase(["type", "error"]), Phrase(["type", "mismatch"])], "error",
      Fixed("Type Error: Incompatible types detected")),
    Rule(Choice(["undefined"], ["variable", "function", "method"], []), "error",
      Fixed("Undefined Reference: Using undefined variable or function")),
    Rule(Choice(["missing"], ["import", "include", "require"], []), "error",
      Fixed("Missing Import: Required module or library not imported")),
    Rule([Phrase(["deprecated"])], "warning",
      Fixed("Deprecated Code: Using deprecated features or methods")),
    Rule(Choice(["unused"], ["variable", "function", "import"], []), "warning",
      Fixed("Unused Code: Declared but never used")),
    Rule([Phrase(["potential", "bug"])], "warning",
      Fixed("Potential Bug: Code may cause unexpected behavior")),
    Rule([Phrase(["performance", "issue"])], "warning",
      Fixed("Performance Issue: Code may be inefficient"))
  ]

  lemma CatalogueSeverities()
    ensures |Catalogue| == 23
    ensures forall k :: 0 <= k < ErrorRuleCount ==> Catalogue[k].severity == "error"
    ensures forall k :: ErrorRuleCount <= k < |Catalogue| ==> Catalogue[k].severity == "warning"
  {
  }

  // ---------------------------------------------------------------------------
  // Sentences (`text.split(/[.!?]+/)`)

  predicate IsSentenceEnd(c: char) {
    c == '.' || c == '!' || c == '?'
  }

  /** The first index at or after `i` holding a sentence end, or `|t|`. */
  function NextSentenceEnd(t: string, i: nat): (j: nat)
    requires i <= |t|
    ensures i <= j <= |t|
    ensures forall k :: i <= k < j ==> !IsSentenceEnd(t[k])
    ensures j == |t| || IsSentenceEnd(t[j])
    decreases |t| - i
  {
    if i < |t| && !IsSentenceEnd(t[i]) then NextSentenceEnd(t, i + 1) else i
  }

  /** The first index at or after `i` that does not hold a sentence end. */
  function SkipSentenceEnds(t: string, i: nat): (j: nat)
    requires i <= |t|
    ensures i <= j <= |t|
    ensures forall k :: i <= k < j ==> IsSentenceEnd(t[k])
    ensures j == |t| || !IsSentenceEnd(t[j])
    decreases |t| - i
  {
    if i < |t| && IsSentenceEnd(t[i]) then SkipSentenceEnds(t, i + 1) else i
  }

  /** The pieces of `t` between maximal runs of `.`, `!` and `?`, in order, including the
      empty pieces before a leading run and after a trailing one. */
  function Sentences(t: string): (pieces: seq<string>)
    ensures |pieces| >= 1
    ensures forall p, k :: 0 <= p < |pieces| && 0 <= k < |pieces[p]| ==> !IsSentenceEnd(pieces[p][k])
    decreases |t|
  {
    var i := NextSentenceEnd(t, 0);
    if i == |t| then [t]
    else [t[..i]] + Sentences(t[SkipSentenceEnds(t, i + 1)..])
  }

  /** A non-empty run of sentence ends. */
  predicate EndRun(s: string) {
    s != [] && forall k :: 0 <= k < |s| ==> IsSentenceEnd(s[k])
  }

  /** `pieces[0] + seps[0] + pieces[1] + ... + pieces[|seps|]`. */
  function Weave(pieces: seq<string>, seps: seq<string>): string
    requires |pieces| == |seps| + 1
    decreases |seps|
  {
    if seps == [] then pieces[0] else pieces[0] + seps[0] + Weave(pieces[1..], seps[1..])
  }

  /** `split(/[.!?]+/)` cut `t` into `pieces` at the runs `seps`. */
  predicate SplitsAt(t: string, pieces: seq<string>, seps: seq<string>) {
    |pieces| == |seps| + 1 && (forall k :: 0 <= k < |seps| ==> EndRun(seps[k])) && Weave(pieces, seps) == t
  }

  /** The pieces, with a run of sentence ends put back between each pair, give the text.
      That the runs are maximal is `SentencesMaximal`. */
  lemma {:induction false} SentencesRoundTrip(t: string)
    ensures exists seps :: SplitsAt(t, Sentences(t), seps)
    decreases |t|
  {
    var i := NextSentenceEnd(t, 0);
    if i == |t| {
      assert Sentences(t) == [t];
      assert Weave([t], []) == t;
      assert SplitsAt(t, [t], []);
    } else {
      var j := SkipSentenceEnds(t, i + 1);
      var rest := t[j..];
      SentencesRoundTrip(rest);
      var seps :| SplitsAt(rest, Sentences(rest), seps);
      var sep := t[i..j];
      assert EndRun(sep);
      Rejoin(t, i, j);
      SplitsAtCons(t, t[..i], sep, rest, Sentences(rest), seps);
      assert Sentences(t) == [t[..i]] + Sentences(rest);
    }
  }

  /** One more piece and separator in front of a split. */
  lemma SplitsAtCons(t: string, piece: string, sep: string, rest: string, pieces: seq<string>, seps: seq<string>)
    requires t == piece + sep + rest && EndRun(sep) && SplitsAt(rest, pieces, seps)
    ensures SplitsAt(t, [piece] + pieces, [sep] + seps)
  {
    var allSeps := [sep] + seps;
    forall k | 0 < k < |allSeps|
      ensures EndRun(allSeps[k])
    {
      assert allSeps[k] == seps[k - 1];
    }
    assert ([piece] + pieces)[1..] == pieces;
    assert allSeps[1..] == seps;
  }

  /** The `+` of `/[.!?]+/`: a whole run of sentence ends is one separator, so only the
      first and the last piece can be empty (before a leading run, after a trailing one). */
  lemma {:induction false} SentencesMaximal(t: string)
    ensures forall k :: 0 < k < |Sentences(t)| - 1 ==> Sentences(t)[k] != ""
    decreases |t|
  {
    var i := NextSentenceEnd(t, 0);
    if i < |t| {
      var rest := t[SkipSentenceEnds(t, i + 1)..];
      SentencesMaximal(rest);
      assert Sentences(t) == [t[..i]] + Sentences(rest);
      if |Sentences(rest)| > 1 {
        assert rest != [] && !IsSentenceEnd(rest[0]);
        assert Sentences(rest)[0] == rest[..NextSentenceEnd(rest, 0)];
      }
    }
  }

  lemma Rejoin(t: string, i: nat, j: nat)
    requires i <= j <= |t|
    ensures t[..i] + t[i..j] + t[j..] == t
  {
  }

  /** The index of the first piece that the pattern matches (`Array.prototype.find`). */
  function FirstMatching(pattern: Pattern, pieces: seq<string>, from: nat): (r: Option<nat>)
    requires from <= |pieces|
    ensures r.Some? ==> from <= r.value < |pieces| && Test(pattern, pieces[r.value])
    ensures r.Some? ==> forall j :: from <= j < r.value ==> !Test(pattern, pieces[j])
    ensures r.None? ==> forall j :: from <= j < |pieces| ==> !Test(pattern, pieces[j])
    decreases |pieces| - from
  {
    if from == |pieces| then None
    else if Test(pattern, pieces[from]) then Some(from)
    else FirstMatching(pattern, pieces, from + 1)
  }

  /** The message a rule gives for the analysis text `t`. */
  function Message(rule: Rule, t: string): string {
    match rule.extract
    case Fixed(m) => m
    case SentenceOrElse(fallback) =>
      var pieces := Sentences(t);
      match FirstMatching(rule.pattern, pieces, 0)
      case Some(k) => if pieces[k] == "" then fallback else Trim(pieces[k])
      case None => fallback
  }

  predicate Fires(rule: Rule, t: string) {
    Test(rule.pattern, t)
  }

  function Flag(rule: Rule, t: string): Issue {
    Issue(rule.severity, Message(rule, t), None, SeeBelow)
  }

  /** A rule that words its issue from the text (the `syntax error` rule) gives the first
      sentence its pattern matches, trimmed, and its canned message when no sentence
      matches or the first matching one is empty (the `? :` tests the untrimmed piece's
      truthiness). */
  lemma SentenceMessage(rule: Rule, t: string, k: nat)
    requires rule.extract.SentenceOrElse?
    ensures k < |Sentences(t)| && Test(rule.pattern, Sentences(t)[k])
      && (forall j :: 0 <= j < k ==> !Test(rule.pattern, Sentences(t)[j]))
      ==> Message(rule, t) == (if Sentences(t)[k] == "" then rule.extract.fallback else Trim(Sentences(t)[k]))
    ensures (forall j :: 0 <= j < |Sentences(t)| ==> !Test(rule.pattern, Sentences(t)[j]))
      ==> Message(rule, t) == rule.extract.fallback
  {
    var pieces := Sentences(t);
    if k < |pieces| && Test(rule.pattern, pieces[k]) && (forall j :: 0 <= j < k ==> !Test(rule.pattern, pieces[j])) {
      FirstMatchingIsFirst(rule.pattern, pieces, k);
    }
  }

  /** Every message comes from the rule: its canned text, or some sentence of `t` that
      the rule's pattern matches, non-empty and then trimmed, or else its fallback. */
  lemma MessageSource(rule: Rule, t: string)
    ensures rule.extract.Fixed? ==> Message(rule, t) == rule.extract.message
    ensures rule.extract.SentenceOrElse? ==>
      Message(rule, t) == rule.extract.fallback
      || exists k ::
           0 <= k < |Sentences(t)| && Sentences(t)[k] != "" && Test(rule.pattern, Sentences(t)[k])
           && Message(rule, t) == Trim(Sentences(t)[k])
  {
    if rule.extract.SentenceOrElse? {
      var r := FirstMatching(rule.pattern, Sentences(t), 0);
      if r.Some? && Sentences(t)[r.value] != "" {
        assert Message(rule, t) == Trim(Sentences(t)[r.value]);
      }
    }
  }

  /** A piece the pattern matches, with no match before it, is the one `find` returns. */
  lemma FirstMatchingIsFirst(pattern: Pattern, pieces: seq<string>, k: nat)
    requires k < |pieces| && Test(pattern, pieces[k])
    requires forall j :: 0 <= j < k ==> !Test(pattern, pieces[j])
    ensures FirstMatching(pattern, pieces, 0) == Some(k)
  {
    var r := FirstMatching(pattern, pieces, 0);
    assert r.Some? && r.value <= k;
  }

  predicate HasMessage(issues: seq<Issue>, message: string) {
    exists k :: 0 <= k < |issues| && issues[k].message == message
  }

  /** The issues after the first `n` rules have been tried in order: a firing rule adds
      its issue unless an issue with the same message is already there. */
  function Collect(rules: seq<Rule>, t: string, n: nat): (issues: seq<Issue>)
    requires n <= |rules|
    ensures |issues| <= n
    ensures forall a, b :: 0 <= a < b < |issues| ==> issues[a].message != issues[b].message
    ensures forall k :: 0 <= k < |issues| ==> issues[k].line.None? && issues[k].suggestion == SeeBelow
    decreases n
  {
    if n == 0 then []
    else
      var earlier := Collect(rules, t, n - 1);
      var rule := rules[n - 1];
      if Fires(rule, t) && !HasMessage(earlier, Message(rule, t)) then earlier + [Flag(rule, t)]
      else earlier
  }

  predicate AnyRuleFires(rules: seq<Rule>, t: string, n: nat)
    requires n <= |rules|
  {
    exists k :: 0 <= k < n && Fires(rules[k], t)
  }

  lemma SeverityCase()
    ensures Lower("error") == "error" && Lower("warning") != "error"
  {
    assert Lower("error") == "error";
  }

  /** `issues.some(issue => issue.severity?.toLowerCase() === 'error')`. */
  predicate HasErrors(issues: seq<Issue>) {
    exists k :: 0 <= k < |issues| && Lower(issues[k].severity) == "error"
  }

  /** `issues.some(issue => issue.severity?.toLowerCase() === 'error')`, walked from the
      front: it agrees with the existential reading of `HasErrors`. */
  function SomeError(issues: seq<Issue>): (found: bool)
    ensures found <==> HasErrors(issues)
  {
    if issues == [] then false
    else Lower(issues[0].severity) == "error" || SomeError(issues[1..])
  }

  /** The issues after `n` rules extend the issues after fewer rules. */
  lemma {:induction false} CollectExtends(rules: seq<Rule>, t: string, m: nat, n: nat)
    requires m <= n <= |rules|
    ensures Collect(rules, t, m) <= Collect(rules, t, n)
    decreases n - m
  {
    if m < n {
      CollectExtends(rules, t, m, n - 1);
    }
  }

  /** Rule order: each issue comes from its own firing rule, and the rules behind the
      issues appear in strictly increasing position. */
  lemma {:induction false} CollectOrigins(rules: seq<Rule>, t: string, n: nat) returns (origin: seq<nat>)
    requires n <= |rules|
    ensures |origin| == |Collect(rules, t, n)|
    ensures forall k :: 0 <= k < |origin| ==>
      origin[k] < n && Fires(rules[origin[k]], t) && Collect(rules, t, n)[k] == Flag(rules[origin[k]], t)
    ensures forall a, b :: 0 <= a < b < |origin| ==> origin[a] < origin[b]
    decreases n
  {
    if n == 0 {
      origin := [];
    } else {
      var earlier := CollectOrigins(rules, t, n - 1);
      var rule := rules[n - 1];
      if Fires(rule, t) && !HasMessage(Collect(rules, t, n - 1), Message(rule, t)) {
        origin := earlier + [n - 1];
      } else {
        origin := earlier;
      }
    }
  }

  /** Nothing is lost but duplicates: every rule that fires has its message among the issues. */
  lemma {:induction false} CollectComplete(rules: seq<Rule>, t: string, n: nat, k: nat)
    requires k < n <= |rules|
    requires Fires(rules[k], t)
    ensures HasMessage(Collect(rules, t, n), Message(rules[k], t))
    decreases n
  {
    var m := Message(rules[k], t);
    var before := Collect(rules, t, n - 1);
    if n == k + 1 {
      if HasMessage(before, m) {
        var j :| 0 <= j < |before| && before[j].message == m;
        assert Collect(rules, t, n)[j] == before[j];
      } else {
        assert Collect(rules, t, n)[|before|] == Flag(rules[k], t);
      }
    } else {
      CollectComplete(rules, t, n - 1, k);
      var j :| 0 <= j < |before| && before[j].message == m;
      assert Collect(rules, t, n)[j] == before[j];
    }
  }

  /** The first `n` rules contribute no issue exactly when none of them fires. */
  lemma {:induction false} CollectEmpty(rules: seq<Rule>, t: string, n: nat)
    requires n <= |rules|
    ensures Collect(rules, t, n) == [] <==> !AnyRuleFires(rules, t, n)
    decreases n
  {
    if n > 0 {
      CollectEmpty(rules, t, n - 1);
      CollectExtends(rules, t, n - 1, n);
    }
  }

  /** The first rule that fires always contributes the first issue. */
  lemma {:induction false} FirstFiringRuleLeads(rules: seq<Rule>, t: string, n: nat, f: nat)
    requires f < n <= |rules|
    requires Fires(rules[f], t)
    requires forall j :: 0 <= j < f ==> !Fires(rules[j], t)
    ensures Collect(rules, t, n) != [] && Collect(rules, t, n)[0] == Flag(rules[f], t)
  {
    CollectEmpty(rules, t, f);
    assert Collect(rules, t, f + 1) == [Flag(rules[f], t)];
    CollectExtends(rules, t, f + 1, n);
  }

  /** The first rule below `n` that fires. */
  lemma LeastFiring(rules: seq<Rule>, t: string, n: nat) returns (f: nat)
    requires n <= |rules| && AnyRuleFires(rules, t, n)
    ensures f < n && Fires(rules[f], t)
    ensures forall j :: 0 <= j < f ==> !Fires(rules[j], t)
  {
    f := 0;
    while !Fires(rules[f], t)
      invariant f < n
      invariant forall j :: 0 <= j < f ==> !Fires(rules[j], t)
      decreases n - f
    {
      f := f + 1;
    }
  }

  /** For a table whose first `e` rules have severity `error` and the rest `warning`, an
      issue of severity `error` is present exactly when one of the first `e` rules fires. */
  lemma CollectHasErrors(rules: seq<Rule>, t: string, e: nat)
    requires e <= |rules|
    requires forall k :: 0 <= k < e ==> rules[k].severity == "error"
    requires forall k :: e <= k < |rules| ==> rules[k].severity == "warning"
    ensures HasErrors(Collect(rules, t, |rules|)) <==> AnyRuleFires(rules, t, e)
  {
    var issues := Collect(rules, t, |rules|);
    SeverityCase();
    if HasErrors(issues) {
      var origin := CollectOrigins(rules, t, |rules|);
      var k :| 0 <= k < |issues| && Lower(issues[k].severity) == "error";
      assert issues[k].severity == rules[origin[k]].severity;
      assert origin[k] < e;
    }
    if AnyRuleFires(rules, t, e) {
      var f := LeastFiring(rules, t, e);
      FirstFiringRuleLeads(rules, t, |rules|, f);
      assert issues[0].severity == "error";
    }
  }

  /** Every issue of the table carries the severity of one of its rules. */
  lemma CollectSeverities(rules: seq<Rule>, t: string, severities: set<string>)
    requires forall k :: 0 <= k < |rules| ==> rules[k].severity in severities
    ensures forall k :: 0 <= k < |Collect(rules, t, |rules|)| ==> Collect(rules, t, |rules|)[k].severity in severities
  {
    var origin := CollectOrigins(rules, t, |rules|);
  }

  // ---------------------------------------------------------------------------
  // Fallback

  const ProblemKeywords: seq<string> := ["error", "bug", "issue", "problem", "incorrect", "invalid", "wrong"]

  predicate HasProblemKeyword(t: string) {
    exists k :: 0 <= k < |ProblemKeywords| && HasWholeWord(ProblemKeywords[k], t)
  }

  /** The keyword expressions are built with the `i` flag: the letter case of the analysis
      does not matter. */
  lemma ProblemKeywordsIgnoreCase(t: string)
    ensures HasProblemKeyword(t) <==> HasProblemKeyword(Lower(t))
  {
    forall k | 0 <= k < |ProblemKeywords|
      ensures HasWholeWord(ProblemKeywords[k], t) == HasWholeWord(ProblemKeywords[k], Lower(t))
    {
      WholeWordIgnoresCase(ProblemKeywords[k], t);
    }
  }

  /** The length below which a keyword alone yields a warning. */
  const FallbackLimit := 500

  // ---------------------------------------------------------------------------
  // The whole classifier

  /** `parseAnalysisToIssues` as a value, over a table of rules (the page uses
      `Catalogue`): the invalid-input short-circuit, then the table's issues when there
      are any, then nothing when the text says there is nothing wrong, then at most one
      keyword warning for a short text. */
  function Classify(rules: seq<Rule>, t: string, code: string, language: Option<string>): (r: seq<Issue>)
    ensures InvalidInput in r <==> !IsCodeLikelyValid(code, language)
    ensures !IsCodeLikelyValid(code, language) ==> r == [InvalidInput]
    ensures PotentialIssues in r ==>
      r == [PotentialIssues] && HasProblemKeyword(t) && |t| < FallbackLimit && !HasPositiveIndicator(t)
    ensures forall k :: 0 <= k < |r| ==> r[k].line.None?
  {
    if !IsCodeLikelyValid(code, language) then [InvalidInput]
    else
      var issues := Collect(rules, t, |rules|);
      if |issues| > 0 then issues
      else if HasPositiveIndicator(t) then []
      else if HasProblemKeyword(t) && |t| < FallbackLimit && !HasPositiveIndicator(t) then [PotentialIssues]
      else []
  }

  /** The four phases in priority order. When the precheck fails, the analysis text is
      ignored. When any rule fires, its issues are the answer even if the text also holds
      a positive indicator. Otherwise a positive indicator yields no issue, and without
      one the answer is a single warning exactly when a problem keyword occurs in a text
      shorter than the limit. */
  lemma ClassifyPhases(rules: seq<Rule>, t: string, code: string, language: Option<string>)
    ensures !IsCodeLikelyValid(code, language) ==> Classify(rules, t, code, language) == [InvalidInput]
    ensures IsCodeLikelyValid(code, language) && AnyRuleFires(rules, t, |rules|) ==>
      Classify(rules, t, code, language) != [] && Classify(rules, t, code, language) == Collect(rules, t, |rules|)
    ensures IsCodeLikelyValid(code, language) && !AnyRuleFires(rules, t, |rules|) && HasPositiveIndicator(t) ==>
      Classify(rules, t, code, language) == []
    ensures IsCodeLikelyValid(code, language) && !AnyRuleFires(rules, t, |rules|) && !HasPositiveIndicator(t) ==>
      Classify(rules, t, code, language) == (if HasProblemKeyword(t) && |t| < FallbackLimit then [PotentialIssues] else [])
  {
    CollectEmpty(rules, t, |rules|);
  }

  /** At most one issue per rule (or the single canned issue), none with a line number,
      and, for a table of `error` and `warning` rules, none of any other severity. */
  lemma ClassifyShape(rules: seq<Rule>, t: string, code: string, language: Option<string>)
    requires forall k :: 0 <= k < |rules| ==> rules[k].severity in {"error", "warning"}
    ensures |Classify(rules, t, code, language)| <= 1 || |Classify(rules, t, code, language)| <= |rules|
    ensures forall k :: 0 <= k < |Classify(rules, t, code, language)| ==>
      Classify(rules, t, code, language)[k].line.None? && Classify(rules, t, code, language)[k].severity in {"error", "warning"}
  {
    CollectSeverities(rules, t, {"error", "warning"});
  }

  /** For a table whose first `e` rules are errors and the rest warnings, the result
      holds an `error` issue exactly when the precheck failed or one of the first `e`
      rules fires. */
  lemma ClassifyHasErrors(rules: seq<Rule>, t: string, code: string, language: Option<string>, e: nat)
    requires e <= |rules|
    requires forall k :: 0 <= k < e ==> rules[k].severity == "error"
    requires forall k :: e <= k < |rules| ==> rules[k].severity == "warning"
    ensures HasErrors(Classify(rules, t, code, language)) <==>
      !IsCodeLikelyValid(code, language) || AnyRuleFires(rules, t, e)
  {
    SeverityCase();
    var issues := Classify(rules, t, code, language);
    if !IsCodeLikelyValid(code, language) {
      assert issues[0] == InvalidInput;
    } else {
      CollectHasErrors(rules, t, e);
      CollectEmpty(rules, t, |rules|);
      if Collect(rules, t, |rules|) == [] {
        assert issues == [] || issues == [PotentialIssues];
        if issues == [PotentialIssues] {
          assert !HasErrors(issues) by { assert issues[0].severity == "warning"; }
        }
      }
    }
  }

  /** The problem-pattern loop of `parseAnalysisToIssues`: the table is walked in order,
      pushing each firing rule's issue unless its message is already present. */
  method MatchProblemPatterns(rules: seq<Rule>, analysisText: string) returns (issues: seq<Issue>)
    ensures issues == Collect(rules, analysisText, |rules|)
  {
    issues := [];
    for i := 0 to |rules|
      invariant issues == Collect(rules, analysisText, i)
    {
      var rule := rules[i];
      if Test(rule.pattern, analysisText) {
        var message := Message(rule, analysisText);
        if !HasMessage(issues, message) {
          issues := issues + [Issue(rule.severity, message, None, SeeBelow)];
        }
      }
    }
  }

  /** `parseAnalysisToIssues(analysisText, code, language)`. */
  method ParseAnalysisToIssues(analysisText: string, code: string, language: Option<string>)
    returns (issues: seq<Issue>)
    ensures issues == Classify(Catalogue, analysisText, code, language)
  {
    if !IsCodeLikelyValid(code, language) {
      return [InvalidInput];
    }
    var hasPositiveIndicator := HasPositiveIndicator(analysisText);
    issues := MatchProblemPatterns(Catalogue, analysisText);
    if |issues| > 0 {
      return issues;
    }
    if hasPositiveIndicator {
      return [];
    }
    var hasProblemKeywords := HasProblemKeyword(analysisText);
    if hasProblemKeywords && |analysisText| < FallbackLimit && !hasPositiveIndicator {
      return [PotentialIssues];
    }
    return [];
  }

  /** On the page's own catalogue: an `error` issue is shown exactly when the precheck
      failed or one of the nineteen error rules fires. */
  lemma PageHasErrors(t: string, code: string, language: Option<string>)
    ensures HasErrors(Classify(Catalogue, t, code, language)) <==>
      !IsCodeLikelyValid(code, language) || AnyRuleFires(Catalogue, t, ErrorRuleCount)
  {
    CatalogueSeverities();
    ClassifyHasErrors(Catalogue, t, code, language, ErrorRuleCount);
  }

}
