/** The Markdown renderer of the analysis text (frontend/src/components/MarkdownRenderer.jsx):
    a line-by-line pass that toggles on code fences and classifies every other line, and
    an inline tokenizer that repeatedly takes the earliest bold, italic or code span. The
    React elements become the `Element` and `Inline` datatypes. */
module MarkdownRenderer {
  import opened Wrappers
  import opened Text

  // ---------------------------------------------------------------------------
  // Inline spans

  /** The three inline patterns, `\*\*([^*]+)\*\*`, `\*([^*]+)\*` and `` `([^`]+)` ``. */
  datatype Style = Strong | Emphasis | Mono

  /** The order in which the patterns are tried. */
  const Styles: seq<Style> := [Strong, Emphasis, Mono]

  function Rank(style: Style): (r: nat)
    ensures r < |Styles| && Styles[r] == style
  {
    match style
    case Strong => 0
    case Emphasis => 1
    case Mono => 2
  }

  /** The character a style's delimiters are made of. */
  function Mark(style: Style): char {
    if style == Mono then '`' else '*'
  }

  /** How many marks make one delimiter. */
  function Width(style: Style): nat {
    if style == Strong then 2 else 1
  }

  /** The delimiter written on each side of a span. */
  function Delimiter(style: Style): (d: string)
    ensures |d| == Width(style)
    ensures forall k :: 0 <= k < |d| ==> d[k] == Mark(style)
  {
    if style == Strong then "**" else [Mark(style)]
  }

  /** One rendered piece of a line: a plain `<span>`, or a `<strong>`, `<em>` or `<code>`. */
  datatype Inline = Plain(text: string) | Styled(style: Style, text: string)

  /** A delimiter of `style` starts at index `i`. */
  predicate DelimiterAt(t: string, style: Style, i: nat) {
    i + Width(style) <= |t| && t[i] == Mark(style) && (style == Strong ==> t[i + 1] == Mark(style))
  }

  /** The pattern of `style` matches at `start`, with its closing delimiter at `close`: the
      opening delimiter, one or more characters other than the mark, the closing one. */
  predicate IsSpan(t: string, style: Style, start: nat, close: nat) {
    start + Width(style) < close && DelimiterAt(t, style, start) && DelimiterAt(t, style, close)
    && forall k :: start + Width(style) <= k < close ==> t[k] != Mark(style)
  }

  /** The text of a delimiter found in `t` is the delimiter. */
  lemma DelimiterText(t: string, style: Style, i: nat)
    requires DelimiterAt(t, style, i)
    ensures t[i..i + Width(style)] == Delimiter(style)
  {
  }

  /** The first index at or after `i` holding `c`, or `|t|`. */
  function IndexOf(t: string, c: char, i: nat): (j: nat)
    requires i <= |t|
    ensures i <= j <= |t|
    ensures forall k :: i <= k < j ==> t[k] != c
    ensures j == |t| || t[j] == c
    decreases |t| - i
  {
    if i < |t| && t[i] != c then IndexOf(t, c, i + 1) else i
  }

  /** Whether the pattern of `style` matches at `start`, and where it closes: the content
      runs up to the first mark after the opening delimiter, since `[^*]+` cannot cross one. */
  function SpanClose(t: string, style: Style, start: nat): (close: Option<nat>)
    ensures close.Some? ==> IsSpan(t, style, start, close.value)
    ensures close.None? ==> forall p :: !IsSpan(t, style, start, p)
  {
    if DelimiterAt(t, style, start) then
      var p := IndexOf(t, Mark(style), start + Width(style));
      if p > start + Width(style) && DelimiterAt(t, style, p) then Some(p)
      else
        forall q: nat | IsSpan(t, style, start, q) ensures q == p {
          SpanClosesAtFirstMark(t, style, start, q);
        }
        None
    else None
  }

  /** The content of a span cannot hold its mark, so the closing delimiter begins at the
      first mark after the opening one. */
  lemma SpanClosesAtFirstMark(t: string, style: Style, start: nat, close: nat)
    requires IsSpan(t, style, start, close)
    ensures close == IndexOf(t, Mark(style), start + Width(style))
  {
  }

  /** A match of one pattern: where it starts and where its closing delimiter begins. */
  datatype Match = Match(style: Style, start: nat, close: nat)

  /** `regex.exec(t)` from index `from` on: the leftmost start of a match. */
  function FindSpan(t: string, style: Style, from: nat): (m: Option<Match>)
    requires from <= |t|
    ensures m.Some? ==> m.value.style == style && from <= m.value.start <= |t|
    ensures m.Some? ==> SpanClose(t, style, m.value.start) == Some(m.value.close)
    ensures m.Some? ==> forall i :: from <= i < m.value.start ==> SpanClose(t, style, i).None?
    ensures m.None? ==> forall i :: from <= i <= |t| ==> SpanClose(t, style, i).None?
    decreases |t| - from
  {
    match SpanClose(t, style, from)
    case Some(p) => Some(Match(style, from, p))
    case None => if from == |t| then None else FindSpan(t, style, from + 1)
  }

  /** The comparison of the `forEach`: a candidate replaces the best so far only when it
      starts strictly earlier. */
  function Pick(best: Option<Match>, candidate: Option<Match>): Option<Match> {
    if candidate.Some? && (best.None? || candidate.value.start < best.value.start) then candidate else best
  }

  /** The earliest match among the first `n` patterns, folding `Pick` over them in order. */
  function EarliestAmong(t: string, n: nat): (m: Option<Match>)
    requires n <= |Styles|
    ensures m.Some? ==> Rank(m.value.style) < n && m.value.start <= |t|
    ensures m.Some? ==> SpanClose(t, m.value.style, m.value.start) == Some(m.value.close)
  {
    if n == 0 then None
    else Pick(EarliestAmong(t, n - 1), FindSpan(t, Styles[n - 1], 0))
  }

  /** No pattern among the first `n` matches left of the chosen match, and on a tie the
      pattern tried first wins; with no choice, none of them matches anywhere. */
  lemma {:induction false} EarliestAmongIsLeftmost(t: string, n: nat, r: nat, i: nat)
    requires r < n <= |Styles| && i <= |t| && SpanClose(t, Styles[r], i).Some?
    ensures EarliestAmong(t, n).Some?
    ensures EarliestAmong(t, n).value.start < i
      || (EarliestAmong(t, n).value.start == i && Rank(EarliestAmong(t, n).value.style) <= r)
  {
    var candidate := FindSpan(t, Styles[n - 1], 0);
    var best := EarliestAmong(t, n - 1);
    assert EarliestAmong(t, n) == Pick(best, candidate);
    if r < n - 1 {
      EarliestAmongIsLeftmost(t, n - 1, r, i);
    } else {
      assert candidate.Some? && candidate.value.start <= i;
      if best.Some? && best.value.start == i {
        assert Rank(best.value.style) < n - 1;
      }
    }
  }

  function Earliest(t: string): Option<Match> {
    EarliestAmong(t, |Styles|)
  }

  /** What one step of the tokenizer emits for the match `m`: the plain text before it,
      when there is any, and the span. */
  function Lead(t: string, m: Match): seq<Inline>
    requires IsSpan(t, m.style, m.start, m.close)
  {
    var w := Width(m.style);
    (if m.start > 0 then [Plain(t[..m.start])] else []) + [Styled(m.style, t[m.start + w..m.close])]
  }

  /** The parts of `t`: plain text up to the earliest span, the span's content, and the
      parts of what follows; text with no span left is one plain part. */
  function Tokenize(t: string): (parts: seq<Inline>)
    ensures parts == [] <==> t == []
    ensures |parts| <= |t|
    decreases |t|
  {
    if t == [] then []
    else match Earliest(t)
      case None => [Plain(t)]
      case Some(m) => Lead(t, m) + Tokenize(t[m.close + Width(m.style)..])
  }

  /** The source text a part was cut from. */
  function Source(part: Inline): string {
    match part
    case Plain(s) => s
    case Styled(style, s) => Delimiter(style) + s + Delimiter(style)
  }

  function Unparse(parts: seq<Inline>): string
    decreases |parts|
  {
    if parts == [] then "" else Source(parts[0]) + Unparse(parts[1..])
  }

  lemma {:induction false} UnparseAppend(a: seq<Inline>, b: seq<Inline>)
    ensures Unparse(a + b) == Unparse(a) + Unparse(b)
    decreases |a|
  {
    if a != [] {
      TailOfAppend(a, b);
      UnparseAppend(a[1..], b);
      Associative(Source(a[0]), Unparse(a[1..]), Unparse(b));
    } else {
      EmptyAppend(b);
    }
  }

  /** Unfolding one step of `Tokenize`. */
  lemma TokenizeStep(t: string, m: Match)
    requires t != [] && Earliest(t) == Some(m)
    ensures Tokenize(t) == Lead(t, m) + Tokenize(t[m.close + Width(m.style)..])
  {
  }

  /** The parts of one step, with their delimiters back, are the text up to the end of
      the span. */
  lemma LeadSource(t: string, m: Match)
    requires IsSpan(t, m.style, m.start, m.close)
    ensures Unparse(Lead(t, m)) == t[..m.close + Width(m.style)]
  {
    var w := Width(m.style);
    var span := Styled(m.style, t[m.start + w..m.close]);
    SpanSource(t, m);
    assert Unparse([span]) == Source(span) + Unparse([]);
    AppendNothing(Source(span));
    if m.start == 0 {
      EmptyAppend([span]);
      TakeSplit(t, 0, m.close + w);
      EmptyAppend(t[0..m.close + w]);
    } else {
      var pre := [Plain(t[..m.start])];
      UnparseAppend(pre, [span]);
      assert Unparse(pre) == t[..m.start] + Unparse([]);
      AppendNothing(t[..m.start]);
      TakeSplit(t, m.start, m.close + w);
    }
  }

  lemma SpanSource(t: string, m: Match)
    requires m.start + Width(m.style) < m.close
    requires DelimiterAt(t, m.style, m.start) && DelimiterAt(t, m.style, m.close)
    ensures Source(Styled(m.style, t[m.start + Width(m.style)..m.close])) == t[m.start..m.close + Width(m.style)]
  {
    var w := Width(m.style);
    var d := Delimiter(m.style);
    var content := t[m.start + w..m.close];
    assert Source(Styled(m.style, content)) == d + content + d;
    DelimiterText(t, m.style, m.start);
    DelimiterText(t, m.style, m.close);
    Rewrap(t, m.start, m.start + w, m.close, m.close + w, d, content);
  }

  /** Putting the delimiters back around every span and concatenating gives the input. */
  lemma {:induction false} TokenizeRoundTrip(t: string)
    ensures Unparse(Tokenize(t)) == t
    decreases |t|
  {
    if t == [] {
    } else if Earliest(t).None? {
      assert Unparse([Plain(t)]) == t + Unparse([]);
    } else {
      var m := Earliest(t).value;
      TokenizeStep(t, m);
      TokenizeRoundTrip(t[m.close + Width(m.style)..]);
      LeadThen(t, m, Tokenize(t[m.close + Width(m.style)..]));
    }
  }

  /** The parts of one step, followed by parts that give back the rest of the text, give
      back the whole text. */
  lemma LeadThen(t: string, m: Match, rest: seq<Inline>)
    requires IsSpan(t, m.style, m.start, m.close)
    requires Unparse(rest) == t[m.close + Width(m.style)..]
    ensures Unparse(Lead(t, m) + rest) == t
  {
    UnparseAppend(Lead(t, m), rest);
    LeadSource(t, m);
    SplitAt(t, m.close + Width(m.style));
  }

  /** No part is empty, no two plain parts are adjacent, and a span's content never holds
      its own mark. */
  predicate WellFormed(parts: seq<Inline>) {
    (forall k :: 0 <= k < |parts| ==> parts[k].text != [])
    && (forall k :: 0 <= k < |parts| && parts[k].Styled? ==> Mark(parts[k].style) !in parts[k].text)
    && (forall k :: 0 < k < |parts| && parts[k].Plain? ==> parts[k - 1].Styled?)
  }

  /** Two well-formed runs of parts stay well formed when joined, unless a plain part
      would follow a plain part. */
  lemma WellFormedAppend(a: seq<Inline>, b: seq<Inline>)
    requires WellFormed(a) && WellFormed(b)
    requires a != [] && a[|a| - 1].Styled?
    ensures WellFormed(a + b)
  {
    forall k | 0 < k < |a + b| && (a + b)[k].Plain? ensures (a + b)[k - 1].Styled? {
      if k >= |a| + 1 {
        assert (a + b)[k] == b[k - |a|] && (a + b)[k - 1] == b[k - 1 - |a|];
      }
    }
  }

  /** Text with no span left is one plain part; no text is no part. */
  lemma TokenizeNoSpan(t: string)
    requires Earliest(t).None?
    ensures Tokenize(t) == if t == [] then [] else [Plain(t)]
  {
  }

  lemma {:induction false} TokenizeWellFormed(t: string)
    ensures WellFormed(Tokenize(t))
    decreases |t|
  {
    if t == [] {
    } else if Earliest(t).None? {
      assert Tokenize(t) == [Plain(t)];
    } else {
      var m := Earliest(t).value;
      var after := t[m.close + Width(m.style)..];
      TokenizeStep(t, m);
      TokenizeWellFormed(after);
      LeadWellFormed(t, m);
      WellFormedAppend(Lead(t, m), Tokenize(after));
    }
  }

  /** One step's parts are well formed and end with the span. */
  lemma LeadWellFormed(t: string, m: Match)
    requires IsSpan(t, m.style, m.start, m.close)
    ensures WellFormed(Lead(t, m)) && Lead(t, m)[|Lead(t, m)| - 1].Styled?
  {
    var lead := Lead(t, m);
    assert lead[|lead| - 1] == Styled(m.style, t[m.start + Width(m.style)..m.close]);
  }

  /** A step never starts a span to the left of another pattern's match, and on equal
      starts the pattern tried first wins; with no match the whole text is plain. */
  lemma EarliestIsLeftmost(t: string, style: Style, i: nat)
    requires i <= |t| && SpanClose(t, style, i).Some?
    ensures Earliest(t).Some?
    ensures Earliest(t).value.start < i || (Earliest(t).value.start == i && Rank(Earliest(t).value.style) <= Rank(style))
  {
    EarliestAmongIsLeftmost(t, |Styles|, Rank(style), i);
  }

  /** The `forEach` over the three patterns: run each from the start of the text and keep
      the strictly earliest. */
  method EarliestMatch(currentText: string) returns (earliestMatch: Option<Match>)
    ensures earliestMatch == Earliest(currentText)
  {
    earliestMatch := None;
    for k := 0 to |Styles|
      invariant earliestMatch == EarliestAmong(currentText, k)
    {
      var found := FindSpan(currentText, Styles[k], 0);
      assert EarliestAmong(currentText, k + 1) == Pick(earliestMatch, found);
      if found.Some? && (earliestMatch.None? || found.value.start < earliestMatch.value.start) {
        earliestMatch := found;
      }
    }
  }

  /** The pushes of one turn of the tokenizer loop: the plain text before the match, if
      any, then the span. */
  method PushMatch(parts: seq<Inline>, currentText: string, m: Match) returns (extended: seq<Inline>)
    requires IsSpan(currentText, m.style, m.start, m.close)
    ensures extended == parts + Lead(currentText, m)
  {
    var w := Width(m.style);
    extended := parts;
    if m.start > 0 {
      extended := extended + [Plain(currentText[..m.start])];
    }
    extended := extended + [Styled(m.style, currentText[m.start + w..m.close])];
  }

  /** One turn of the tokenizer loop: find the earliest match; without one the rest of
      the text is pushed as plain text and the loop ends, with one the text before it and
      the span are pushed and the text after it is left. */
  method TokenizeTurn(parts: seq<Inline>, currentText: string) returns (extended: seq<Inline>, rest: string, done: bool)
    requires currentText != []
    ensures extended + Tokenize(rest) == parts + Tokenize(currentText)
    ensures done ==> rest == []
    ensures !done ==> |rest| + 3 <= |currentText|
  {
    var earliestMatch := EarliestMatch(currentText);
    if earliestMatch.None? {
      TokenizeNoSpan(currentText);
      extended, rest, done := parts + [Plain(currentText)], [], true;
      assert Tokenize(rest) == [];
      assert extended + Tokenize(rest) == parts + Tokenize(currentText);
    } else {
      var m := earliestMatch.value;
      rest := currentText[m.close + Width(m.style)..];
      done := false;
      TokenizeStep(currentText, m);
      extended := PushMatch(parts, currentText, m);
      Associative(parts, Lead(currentText, m), Tokenize(rest));
    }
  }

  lemma Associative<T>(a: seq<T>, b: seq<T>, c: seq<T>)
    ensures (a + b) + c == a + (b + c)
  {
  }

  lemma AppendNothing<T>(a: seq<T>)
    ensures a + [] == a
  {
  }

  lemma EmptyAppend<T>(a: seq<T>)
    ensures [] + a == a
  {
  }

  lemma TailOfAppend<T>(a: seq<T>, b: seq<T>)
    requires a != []
    ensures (a + b)[0] == a[0] && (a + b)[1..] == a[1..] + b
  {
  }

  lemma SplitAt<T>(s: seq<T>, j: nat)
    requires j <= |s|
    ensures s[..j] + s[j..] == s
  {
  }

  lemma TakeSplit<T>(s: seq<T>, i: nat, k: nat)
    requires i <= k <= |s|
    ensures s[..i] + s[i..k] == s[..k]
  {
  }

  lemma Rewrap<T>(s: seq<T>, i: nat, j: nat, k: nat, l: nat, d: seq<T>, x: seq<T>)
    requires i <= j <= k <= l <= |s|
    requires s[i..j] == d && s[j..k] == x && s[k..l] == d
    ensures d + x + d == s[i..l]
  {
    assert s[i..l] == s[i..j] + s[j..l];
    assert s[j..l] == s[j..k] + s[k..l];
  }

  /** `parseInlineMarkdown(text)`. */
  method ParseInlineMarkdown(text: string) returns (parts: seq<Inline>)
    ensures parts == Tokenize(text)
  {
    parts := [];
    var currentText := text;
    while |currentText| > 0
      invariant parts + Tokenize(currentText) == Tokenize(text)
      decreases |currentText|
    {
      var done;
      parts, currentText, done := TokenizeTurn(parts, currentText);
      if done {
        break;
      }
    }
    assert currentText == [] && Tokenize(currentText) == [];
    assert parts + [] == parts;
  }

  // ---------------------------------------------------------------------------
  // Lines

  /** One rendered block. */
  datatype Element =
    | CodeBlock(language: string, content: string)
    | Heading(level: nat, text: string)
    | NumberedItem(parts: seq<Inline>)
    | BulletItem(parts: seq<Inline>)
    | Spacer
    | Paragraph(parts: seq<Inline>)

  const Fence := "```"

  /** A line whose trimmed form starts with a fence opens or closes a code block. */
  predicate IsFence(line: string) {
    StartsWith(Trim(line), Fence)
  }

  /** The header shown above a code block: its language, or `code`. */
  function FenceLabel(language: string): (shown: string)
    ensures shown != ""
    ensures language != "" ==> shown == language
    ensures language == "" ==> shown == "code"
  {
    if language == "" then "code" else language
  }

  function HeadingMarker(level: nat): string
    requires 1 <= level <= 3
  {
    if level == 1 then "# " else if level == 2 then "## " else "### "
  }

  /** The heading level of a line, trying `### ` before `## ` before `# ` on the untrimmed
      line, or 0. */
  function HeadingLevel(line: string): (level: nat)
    ensures level <= 3
    ensures level > 0 ==> StartsWith(line, HeadingMarker(level))
    ensures level == 0 <==> forall l :: 1 <= l <= 3 ==> !StartsWith(line, HeadingMarker(l))
  {
    if StartsWith(line, "### ") then 3
    else if StartsWith(line, "## ") then 2
    else if StartsWith(line, "# ") then 1
    else 0
  }

  /** The end of the run of decimal digits that starts at `i`. */
  function DigitRunEnd(s: string, i: nat): (j: nat)
    requires i <= |s|
    ensures i <= j <= |s|
    ensures forall k :: i <= k < j ==> IsDigit(s[k])
    ensures j == |s| || !IsDigit(s[j])
    decreases |s| - i
  {
    if i < |s| && IsDigit(s[i]) then DigitRunEnd(s, i + 1) else i
  }

  /** `^\d+\.\s` matches the line with its dot at index `d`. */
  predicate NumberedAt(line: string, d: nat) {
    1 <= d && d + 1 < |line| && (forall k :: 0 <= k < d ==> IsDigit(line[k]))
    && line[d] == '.' && IsSpace(line[d + 1])
  }

  /** The length of the match of `^\d+\.\s` on the line, or 0. */
  function NumberPrefix(line: string): (n: nat)
    ensures n == 0 || (3 <= n <= |line| && line[n - 2] == '.' && IsSpace(line[n - 1])
      && forall k :: 0 <= k < n - 2 ==> IsDigit(line[k]))
    ensures forall d: nat :: NumberedAt(line, d) ==> n == d + 2
  {
    var d := DigitRunEnd(line, 0);
    if d > 0 && d + 1 < |line| && line[d] == '.' && IsSpace(line[d + 1]) then d + 2 else 0
  }

  /** The trimmed line starts with `- ` or `* `. */
  predicate IsBullet(line: string) {
    StartsWith(Trim(line), "- ") || StartsWith(Trim(line), "* ")
  }

  /** The element of a line outside any code block that is not a fence, in the order the
      cases are tried: heading, numbered item, bullet, blank line, paragraph. */
  function ClassifyLine(line: string): (e: Element)
    ensures !e.CodeBlock?
    ensures e.Heading? <==> HeadingLevel(line) > 0
    ensures e.Heading? ==> e.level == HeadingLevel(line) && e.text == line[e.level + 1..]
    ensures e.NumberedItem? <==> HeadingLevel(line) == 0 && NumberPrefix(line) > 0
    ensures e.BulletItem? <==> HeadingLevel(line) == 0 && NumberPrefix(line) == 0 && IsBullet(line)
    ensures e.Spacer? <==> AllSpace(line)
    ensures e.Paragraph? ==> e.parts == Tokenize(line)
    ensures e.NumberedItem? ==> e.parts == Tokenize(line[NumberPrefix(line)..])
    ensures e.BulletItem? ==> e.parts == Tokenize(Trim(line)[2..])
  {
    var level := HeadingLevel(line);
    if level > 0 then
      assert line[0] == line[..level + 1][0];
      assert !IsSpace(line[0]);
      Heading(level, line[level + 1..])
    else if NumberPrefix(line) > 0 then
      assert IsDigit(line[0]) && !IsSpace(line[0]);
      NumberedItem(Tokenize(line[NumberPrefix(line)..]))
    else if IsBullet(line) then
      assert Trim(line) != "";
      BulletItem(Tokenize(Trim(line)[2..]))
    else if Trim(line) == "" then Spacer
    else Paragraph(Tokenize(line))
  }

  /** Where the line loop is: outside a code block, or inside one with its language and
      the lines collected so far. */
  datatype Mode = Outside | Inside(language: string, body: seq<string>)

  /** One turn of the line loop: the new mode and the elements pushed. */
  function Step(mode: Mode, line: string): (r: (Mode, seq<Element>))
    ensures |r.1| <= 1
    ensures IsFence(line) ==> (r.0.Inside? <==> mode.Outside?)
    ensures !IsFence(line) ==> (r.0.Inside? <==> mode.Inside?)
    ensures mode.Inside? ==> (r.1 == [] <==> !IsFence(line))
    ensures (r.1 != [] && r.1[0].CodeBlock?) <==> IsFence(line) && mode.Inside?
  {
    if IsFence(line) then
      match mode
      case Outside => (Inside(Trim(line)[3..], []), [])
      case Inside(language, body) => (Outside, [CodeBlock(language, Join(body, "\n"))])
    else
      match mode
      case Inside(language, body) => (Inside(language, body + [line]), [])
      case Outside => (Outside, [ClassifyLine(line)])
  }

  /** The elements pushed while the loop walks `lines` from `mode`; a block still open when
      the lines run out is never pushed. */
  function Run(mode: Mode, lines: seq<string>): (elements: seq<Element>)
    ensures |elements| <= |lines|
    decreases |lines|
  {
    if lines == [] then []
    else Step(mode, lines[0]).1 + Run(Step(mode, lines[0]).0, lines[1..])
  }

  /** The mode after walking `lines`. */
  function After(mode: Mode, lines: seq<string>): Mode
    decreases |lines|
  {
    if lines == [] then mode else After(Step(mode, lines[0]).0, lines[1..])
  }

  /** Walking two stretches of lines is walking the first, then the second from where the
      first left off. */
  lemma {:induction false} RunAppend(mode: Mode, a: seq<string>, b: seq<string>)
    ensures Run(mode, a + b) == Run(mode, a) + Run(After(mode, a), b)
    ensures After(mode, a + b) == After(After(mode, a), b)
    decreases |a|
  {
    if a != [] {
      var step := Step(mode, a[0]);
      assert (a + b)[0] == a[0] && (a + b)[1..] == a[1..] + b;
      RunAppend(step.0, a[1..], b);
      assert Run(mode, a + b) == step.1 + Run(step.0, a[1..] + b);
      Associative(step.1, Run(step.0, a[1..]), Run(After(step.0, a[1..]), b));
    } else {
      assert a + b == b;
    }
  }

  predicate NoFence(lines: seq<string>) {
    forall k :: 0 <= k < |lines| ==> !IsFence(lines[k])
  }

  /** Outside a code block every line that is not a fence gives exactly one element, the
      one `ClassifyLine` gives it. */
  lemma {:induction false} OutsideLines(lines: seq<string>)
    requires NoFence(lines)
    ensures |Run(Outside, lines)| == |lines|
    ensures forall k :: 0 <= k < |lines| ==> Run(Outside, lines)[k] == ClassifyLine(lines[k])
    ensures After(Outside, lines) == Outside
    decreases |lines|
  {
    if lines != [] {
      OutsideLines(lines[1..]);
    }
  }

  /** Inside a code block lines give nothing; they are collected. */
  lemma {:induction false} InsideLines(language: string, body: seq<string>, lines: seq<string>)
    requires NoFence(lines)
    ensures Run(Inside(language, body), lines) == []
    ensures After(Inside(language, body), lines) == Inside(language, body + lines)
    decreases |lines|
  {
    if lines != [] {
      var grown := body + [lines[0]];
      assert Step(Inside(language, body), lines[0]) == (Inside(language, grown), []);
      InsideLines(language, grown, lines[1..]);
      assert Run(Inside(language, body), lines) == [] + Run(Inside(language, grown), lines[1..]);
      Associative(body, [lines[0]], lines[1..]);
      assert [lines[0]] + lines[1..] == lines;
    }
  }

  /** A closed block gives one code element: the opening fence's trimmed text without its
      first three backquotes as the language, and the enclosed lines joined by newlines. */
  lemma ClosedBlock(open: string, body: seq<string>, close: string)
    requires IsFence(open) && IsFence(close) && NoFence(body)
    ensures Run(Outside, [open] + body + [close]) == [CodeBlock(Trim(open)[3..], Join(body, "\n"))]
    ensures After(Outside, [open] + body + [close]) == Outside
  {
    var language := Trim(open)[3..];
    Associative([open], body, [close]);
    RunAppend(Outside, [open], body + [close]);
    assert Run(Outside, [open]) == [] && After(Outside, [open]) == Inside(language, []);
    RunAppend(Inside(language, []), body, [close]);
    InsideLines(language, [], body);
    EmptyAppend(body);
    assert Run(Inside(language, body), [close]) == [CodeBlock(language, Join(body, "\n"))];
  }

  /** A block still open at the end of the text is dropped with everything in it. */
  lemma UnclosedBlockDropped(open: string, body: seq<string>)
    requires IsFence(open) && NoFence(body)
    ensures Run(Outside, [open] + body) == []
  {
    RunAppend(Outside, [open], body);
    InsideLines(Trim(open)[3..], [], body);
  }

  /** The number of lines that are neither fences nor inside a block, and the number of
      blocks closed, counted with the fence toggle alone. */
  function CountOutside(inside: bool, lines: seq<string>): nat
    decreases |lines|
  {
    if lines == [] then 0
    else if IsFence(lines[0]) then CountOutside(!inside, lines[1..])
    else (if inside then 0 else 1) + CountOutside(inside, lines[1..])
  }

  function CountClosed(inside: bool, lines: seq<string>): nat
    decreases |lines|
  {
    if lines == [] then 0
    else if IsFence(lines[0]) then (if inside then 1 else 0) + CountClosed(!inside, lines[1..])
    else CountClosed(inside, lines[1..])
  }

  /** One element per line outside the blocks plus one per closed block. */
  lemma {:induction false} ElementCount(mode: Mode, lines: seq<string>)
    ensures |Run(mode, lines)| == CountOutside(mode.Inside?, lines) + CountClosed(mode.Inside?, lines)
    decreases |lines|
  {
    if lines != [] {
      ElementCount(Step(mode, lines[0]).0, lines[1..]);
    }
  }

  /** The rendering of one line outside a code block that is not a fence, trying the
      cases in the order the loop does. */
  method RenderLine(line: string, trimmed: string) returns (e: Element)
    requires trimmed == Trim(line)
    ensures e == ClassifyLine(line)
  {
    if StartsWith(line, "### ") {
      e := Heading(3, line[4..]);
    } else if StartsWith(line, "## ") {
      e := Heading(2, line[3..]);
    } else if StartsWith(line, "# ") {
      e := Heading(1, line[2..]);
    } else if NumberPrefix(line) > 0 {
      var parts := ParseInlineMarkdown(line[NumberPrefix(line)..]);
      e := NumberedItem(parts);
    } else if StartsWith(trimmed, "- ") || StartsWith(trimmed, "* ") {
      var parts := ParseInlineMarkdown(trimmed[2..]);
      e := BulletItem(parts);
    } else if trimmed == "" {
      e := Spacer;
    } else {
      var parts := ParseInlineMarkdown(line);
      e := Paragraph(parts);
    }
  }

  /** The loop's three variables as a mode. */
  function ModeOf(inCodeBlock: bool, codeBlockLanguage: string, codeBlockContent: seq<string>): Mode {
    if inCodeBlock then Inside(codeBlockLanguage, codeBlockContent) else Outside
  }

  /** Walking the lines from index `i` is one step, then walking from `i + 1`. */
  lemma RunFrom(mode: Mode, lines: seq<string>, i: nat)
    requires i < |lines|
    ensures Run(mode, lines[i..]) == Step(mode, lines[i]).1 + Run(Step(mode, lines[i]).0, lines[i + 1..])
  {
    assert lines[i..][1..] == lines[i + 1..];
  }

  /** `parseMarkdown(text)`. */
  method ParseMarkdown(text: string) returns (elements: seq<Element>)
    ensures elements == Run(Outside, Split(text, '\n'))
  {
    elements := [];
    var lines := Split(text, '\n');
    var inCodeBlock := false;
    var codeBlockContent: seq<string> := [];
    var codeBlockLanguage := "";
    for i := 0 to |lines|
      invariant elements + Run(ModeOf(inCodeBlock, codeBlockLanguage, codeBlockContent), lines[i..]) == Run(Outside, lines)
    {
      var line := lines[i];
      ghost var mode := ModeOf(inCodeBlock, codeBlockLanguage, codeBlockContent);
      ghost var next := Step(mode, line).0;
      RunFrom(mode, lines, i);
      Associative(elements, Step(mode, line).1, Run(next, lines[i + 1..]));
      ghost var before := elements;
      var trimmed := Trim(line);
      if StartsWith(trimmed, Fence) {
        if !inCodeBlock {
          AppendNothing(elements);
          inCodeBlock := true;
          codeBlockLanguage := trimmed[3..];
          codeBlockContent := [];
        } else {
          inCodeBlock := false;
          elements := elements + [CodeBlock(codeBlockLanguage, Join(codeBlockContent, "\n"))];
          codeBlockContent := [];
          codeBlockLanguage := "";
        }
      } else if inCodeBlock {
        AppendNothing(elements);
        codeBlockContent := codeBlockContent + [line];
      } else {
        var e := RenderLine(line, trimmed);
        elements := elements + [e];
      }
      assert ModeOf(inCodeBlock, codeBlockLanguage, codeBlockContent) == next;
      assert elements == before + Step(mode, line).1;
    }
  }

  /** The component: nothing at all for a missing or empty text, else the elements. */
  function Render(content: Option<string>): (rendered: Option<seq<Element>>)
    ensures rendered.None? <==> content.None? || content.value == ""
  {
    match content
    case None => None
    case Some(text) => if text == "" then None else Some(Run(Outside, Split(text, '\n')))
  }

}
