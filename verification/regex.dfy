/** The handful of JavaScript regular expressions the classifier uses, written out by hand.
    Every one of them carries the `i` flag and no other, and is used only for a yes/no
    test (`RegExp.prototype.test`, or `String.prototype.match` read as a truth value). */
module Regex {
  import opened Text

  /** One element of a pattern. */
  datatype Piece =
    | Lit(word: string)   // the characters of `word`, ASCII letters compared case-insensitively
    | Spaces              // \s+
    | Word                // \w+
    | SpaceOrHyphen       // [\s-]

  /** A sequence of pieces, matched left to right. */
  type Alternative = seq<Piece>

  /** The alternatives of a pattern; a parenthesised group `(a|b)` or `x?` inside a
      pattern is multiplied out into one alternative per choice. */
  type Pattern = seq<Alternative>

  /** The words of `words`, separated by `\s+`. */
  function Phrase(words: seq<string>): Alternative
    decreases |words|
  {
    if |words| <= 1 then (if words == [] then [] else [Lit(words[0])])
    else [Lit(words[0]), Spaces] + Phrase(words[1..])
  }

  /** `pre(w1|w2|...)post`, one alternative per word. */
  function Choice(pre: seq<string>, words: seq<string>, post: seq<string>): Pattern {
    seq(|words|, k requires 0 <= k < |words| => Phrase(pre + [words[k]] + post))
  }

  /** `word` occurs at index `i` of `t`, ignoring the case of ASCII letters (the `i` flag
      without `u` never folds a non-ASCII character onto an ASCII one). */
  predicate LitAt(word: string, t: string, i: nat) {
    i + |word| <= |t| && forall k :: 0 <= k < |word| ==> AsciiLower(t[i + k]) == AsciiLower(word[k])
  }

  predicate InRun(spaces: bool, c: char) {
    if spaces then IsSpace(c) else IsWordChar(c)
  }

  /** Some match of `p` starts at index `i` of `t`. */
  predicate MatchesFrom(p: Alternative, t: string, i: nat)
    requires i <= |t|
    decreases |p|, |t| - i
  {
    if p == [] then true
    else match p[0]
      case Lit(w) => LitAt(w, t, i) && MatchesFrom(p[1..], t, i + |w|)
      case Spaces => RunThen(true, p[1..], t, i)
      case Word => RunThen(false, p[1..], t, i)
      case SpaceOrHyphen => i < |t| && (IsSpace(t[i]) || t[i] == '-') && MatchesFrom(p[1..], t, i + 1)
  }

  /** One or more characters of the run (`\s` when `spaces`, `\w` otherwise) start at `i`
      and `rest` matches right after some of them. */
  predicate RunThen(spaces: bool, rest: Alternative, t: string, i: nat)
    requires i <= |t|
    decreases |rest|, |t| - i
  {
    i < |t| && InRun(spaces, t[i]) && (MatchesFrom(rest, t, i + 1) || RunThen(spaces, rest, t, i + 1))
  }

  /** `pattern.test(t)`: some alternative matches somewhere in `t`. */
  predicate Test(pattern: Pattern, t: string) {
    exists a, i :: 0 <= a < |pattern| && 0 <= i <= |t| && MatchesFrom(pattern[a], t, i)
  }

  /** `new RegExp("\\b" + word + "\\b", "i").test(t)` for a word made of word characters:
      the word occurs with no word character immediately before or after it. */
  predicate WholeWordAt(word: string, t: string, i: nat) {
    LitAt(word, t, i)
    && (i == 0 || !IsWordChar(t[i - 1]))
    && (i + |word| == |t| || !IsWordChar(t[i + |word|]))
  }

  predicate HasWholeWord(word: string, t: string) {
    exists i :: 0 <= i <= |t| && WholeWordAt(word, t, i)
  }

  /** `word` occurs at `i` in `t` exactly when it occurs there in the lower-cased `t`. */
  lemma LitAtIgnoresCase(word: string, t: string, i: nat)
    ensures LitAt(word, t, i) == LitAt(word, Lower(t), i)
  {
    if i + |word| <= |t| {
      forall k | 0 <= k < |word|
        ensures (AsciiLower(Lower(t)[i + k]) == AsciiLower(word[k])) == (AsciiLower(t[i + k]) == AsciiLower(word[k]))
      {
        AsciiLowerKeepsClasses(t[i + k]);
      }
    }
  }

  lemma {:induction false} MatchesFromIgnoresCase(p: Alternative, t: string, i: nat)
    requires i <= |t|
    ensures MatchesFrom(p, t, i) == MatchesFrom(p, Lower(t), i)
    decreases |p|, |t| - i
  {
    if p != [] {
      match p[0]
      case Lit(w) =>
        LitAtIgnoresCase(w, t, i);
        if LitAt(w, t, i) {
          MatchesFromIgnoresCase(p[1..], t, i + |w|);
        }
      case Spaces => RunThenIgnoresCase(true, p[1..], t, i);
      case Word => RunThenIgnoresCase(false, p[1..], t, i);
      case SpaceOrHyphen =>
        if i < |t| {
          AsciiLowerKeepsClasses(t[i]);
          MatchesFromIgnoresCase(p[1..], t, i + 1);
        }
    }
  }

  lemma {:induction false} RunThenIgnoresCase(spaces: bool, rest: Alternative, t: string, i: nat)
    requires i <= |t|
    ensures RunThen(spaces, rest, t, i) == RunThen(spaces, rest, Lower(t), i)
    decreases |rest|, |t| - i
  {
    if i < |t| {
      AsciiLowerKeepsClasses(t[i]);
      MatchesFromIgnoresCase(rest, t, i + 1);
      RunThenIgnoresCase(spaces, rest, t, i + 1);
    }
  }

  /** The `i` flag: a pattern matches a text exactly when it matches the text lower-cased. */
  lemma TestIgnoresCase(pattern: Pattern, t: string)
    ensures Test(pattern, t) == Test(pattern, Lower(t))
  {
    forall a, i | 0 <= a < |pattern| && 0 <= i <= |t|
      ensures MatchesFrom(pattern[a], t, i) == MatchesFrom(pattern[a], Lower(t), i)
    {
      MatchesFromIgnoresCase(pattern[a], t, i);
    }
  }

  /** The `i` flag of the whole-word test: a word occurs whole in a text exactly when it
      occurs whole in the text lower-cased. */
  lemma WholeWordIgnoresCase(word: string, t: string)
    ensures HasWholeWord(word, t) == HasWholeWord(word, Lower(t))
  {
    forall i | 0 <= i <= |t| ensures WholeWordAt(word, t, i) == WholeWordAt(word, Lower(t), i) {
      LitAtIgnoresCase(word, t, i);
      if i > 0 {
        AsciiLowerKeepsClasses(t[i - 1]);
      }
      if i + |word| < |t| {
        AsciiLowerKeepsClasses(t[i + |word|]);
      }
    }
  }
}
