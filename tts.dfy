/**
 * `processForTTS` of VoiceCommandApp.js: the fixed, ordered chain of global
 * regular-expression replacements that turns an assistant reply into text for
 * speech synthesis.
 *
 * Each `.replace(re, x)` with the `g` flag is a scan over the string it is
 * applied to: at index i the expression is tried; on a match the replacement is
 * emitted and the scan resumes after the match, otherwise s[i] is copied and the
 * scan resumes at i + 1. Every `...From(s, ..., i)` function below is that scan
 * from index i; look-behind (`\b`) reads the original string `s`.
 */
module Tts {
  import opened Text
  import opened Wrappers

  predicate StartsAt(s: string, i: nat, p: string) {
    i + |p| <= |s| && forall m :: 0 <= m < |p| ==> s[i + m] == p[m]
  }

  lemma AppendAssoc(a: string, b: string, c: string)
    ensures a + (b + c) == (a + b) + c
  {
  }

  lemma AppendEmpty(a: string, b: string)
    requires a == []
    ensures a + b == b
  {
  }

  predicate IsDot(c: char) { c == '.' }
  predicate IsBang(c: char) { c == '!' }
  predicate IsQuestion(c: char) { c == '?' }
  predicate IsClauseMark(c: char) { c == ',' || c == ';' || c == ':' }
  predicate IsNewline(c: char) { c == '\n' }

  /** No two neighbouring characters of `s` both satisfy `p`. */
  predicate NoAdjacent(s: string, p: char -> bool) {
    forall k :: 0 <= k < |s| - 1 ==> !(p(s[k]) && p(s[k + 1]))
  }

  /** Every whitespace character is a plain space and none is followed by another. */
  predicate SingleSpaced(s: string) {
    && (forall k :: 0 <= k < |s| && IsSpace(s[k]) ==> s[k] == ' ')
    && NoAdjacent(s, IsSpace)
  }

  /** What speech synthesis receives: single-spaced, no whitespace at either end. */
  predicate Speakable(s: string) {
    SingleSpaced(s) && (s != [] ==> !IsSpace(s[0]) && !IsSpace(s[|s| - 1]))
  }

  /** The characters of the markdown syntax of lines 747-755, other than '\n'. */
  predicate IsMarkupChar(c: char) { c == '*' || c == '`' || c == '[' || c == ']' || c == '#' || c == '~' }

  /** The characters the punctuation steps (lines 771-781) act on. */
  predicate IsMark(c: char) { IsDot(c) || IsBang(c) || IsQuestion(c) || IsClauseMark(c) }

  /** No markdown character and no line terminator. */
  predicate Unmarked(s: string) {
    forall k :: 0 <= k < |s| ==> !IsMarkupChar(s[k]) && !IsLineTerminator(s[k])
  }

  /** No '.' directly before a word character: no abbreviation of lines 759-768 can match. */
  predicate NoDotBeforeWord(s: string) {
    forall k :: 0 <= k < |s| - 1 ==> !(IsDot(s[k]) && IsWordChar(s[k + 1]))
  }

  /** No whitespace directly before `mark`: the spacing step for `mark` has nothing to move. */
  predicate NoSpaceBefore(s: string, mark: char) {
    forall k :: 0 <= k < |s| - 1 ==> !(IsSpace(s[k]) && s[k + 1] == mark)
  }

  /**
   * Ordinary prose: no markdown character, speakable, no two marks of one kind
   * side by side, no whitespace directly before a mark and no '.' directly
   * before a word character. Such text passes every step of lines 747-786
   * unchanged (`ProseSpokenAsIs`).
   */
  predicate Prose(s: string) {
    && (forall k :: 0 <= k < |s| ==> !IsMarkupChar(s[k]))
    && Speakable(s)
    && NoAdjacent(s, IsDot) && NoAdjacent(s, IsBang) && NoAdjacent(s, IsQuestion)
    && NoAdjacent(s, IsClauseMark)
    && (forall k :: 0 <= k < |s| - 1 ==> !(IsSpace(s[k]) && IsMark(s[k + 1])))
    && NoDotBeforeWord(s)
  }

  // ---------------------------------------------------------------------------
  // Scanning primitives

  /**
   * The lazy part `(.*?)close` of a delimited expression, started at j: the
   * first index at which `d` occurs, provided no character passed over is a
   * line terminator (`.` refuses those; `[\s\S]` accepts everything: `dotAll`).
   */
  function FindClose(s: string, d: string, j: nat, dotAll: bool): (r: Option<nat>)
    requires j <= |s|
    ensures r.Some? ==> j <= r.value && r.value + |d| <= |s|
    decreases |s| - j
  {
    if StartsAt(s, j, d) then Some(j)
    else if j == |s| || (!dotAll && IsLineTerminator(s[j])) then None
    else FindClose(s, d, j + 1, dotAll)
  }

  /**
   * `FindClose` finds the first occurrence of `d` from j that is reached
   * without passing a line terminator (or any occurrence when `dotAll`), and
   * reports none exactly when there is no such occurrence.
   */
  lemma {:induction false} FindCloseSpec(s: string, d: string, j: nat, dotAll: bool)
    requires j <= |s|
    ensures var r := FindClose(s, d, j, dotAll);
      && (r.Some? ==> StartsAt(s, r.value, d))
      && (r.Some? ==> forall k :: j <= k < r.value ==> !StartsAt(s, k, d))
      && (r.Some? && !dotAll ==> forall k :: j <= k < r.value ==> !IsLineTerminator(s[k]))
      && (r.None? ==> forall k :: j <= k <= |s| && (dotAll || forall m :: j <= m < k ==> !IsLineTerminator(s[m])) ==> !StartsAt(s, k, d))
    decreases |s| - j
  {
    if !StartsAt(s, j, d) && j < |s| && (dotAll || !IsLineTerminator(s[j])) {
      FindCloseSpec(s, d, j + 1, dotAll);
    }
  }

  /** The end of the run of `cls` characters that starts at i. */
  function RunEnd(s: string, i: nat, cls: char -> bool): (j: nat)
    requires i <= |s|
    ensures i <= j <= |s|
    ensures forall k :: i <= k < j ==> cls(s[k])
    ensures j < |s| ==> !cls(s[j])
    decreases |s| - i
  {
    if i < |s| && cls(s[i]) then RunEnd(s, i + 1, cls) else i
  }

  /** What replaces a span: its inner text, or nothing. */
  function Kept(keepInner: bool, w: string): (r: string)
    ensures r == [] || r == w
  {
    if keepInner then w else ""
  }

  /** `/d(.*?)d/g` replaced by the inner text (`keepInner`) or by nothing. */
  function StripDelimitedFrom(s: string, d: string, keepInner: bool, dotAll: bool, i: nat): (r: string)
    requires |d| > 0 && i <= |s|
    ensures |r| <= |s| - i
    decreases |s| - i
  {
    if i == |s| then ""
    else if StartsAt(s, i, d) && FindClose(s, d, i + |d|, dotAll).Some? then
      var j := FindClose(s, d, i + |d|, dotAll).value;
      Kept(keepInner, s[i + |d|..j]) + StripDelimitedFrom(s, d, keepInner, dotAll, j + |d|)
    else
      [s[i]] + StripDelimitedFrom(s, d, keepInner, dotAll, i + 1)
  }

  function StripDelimited(s: string, d: string, keepInner: bool, dotAll: bool): (r: string)
    requires |d| > 0
    ensures |r| <= |s|
  {
    StripDelimitedFrom(s, d, keepInner, dotAll, 0)
  }

  /**
   * `/\[(.*?)\]\(.*?\)/g` replaced by the label. The first lazy group stops at
   * the first "](" ; if no ")" follows it on the same line, extending the group
   * to a later "](" cannot help (that later "](" lies before the same line end,
   * with no ")" in between), so the match at i fails outright.
   */
  function StripLinksFrom(s: string, i: nat): (r: string)
    requires i <= |s|
    ensures |r| <= |s| - i
    decreases |s| - i
  {
    if i == |s| then ""
    else
      var link := LinkAt(s, i);
      if link.Some? then
        s[i + 1..link.value.0] + StripLinksFrom(s, link.value.1 + 1)
      else
        [s[i]] + StripLinksFrom(s, i + 1)
  }

  /** A link opening at i: the indices of its "](" and of its closing ")". */
  function LinkAt(s: string, i: nat): (r: Option<(nat, nat)>)
    requires i < |s|
    ensures r.Some? ==> s[i] == '[' && i + 1 <= r.value.0 && r.value.0 + 2 <= r.value.1 < |s|
  {
    if s[i] != '[' then None
    else
      var bracket := FindClose(s, "](", i + 1, false);
      if bracket.None? then None
      else
        var target := FindClose(s, ")", bracket.value + 2, false);
        if target.None? then None else Some((bracket.value, target.value))
  }

  function StripLinks(s: string): string
  {
    StripLinksFrom(s, 0)
  }

  /** The index after at most `limit` '#' characters starting at i (the greedy `#{1,6}`). */
  function HashesEnd(s: string, i: nat, limit: nat): (j: nat)
    requires i <= |s|
    ensures i <= j <= |s| && j <= i + limit
    ensures forall k :: i <= k < j ==> s[k] == '#'
    ensures j == i + limit || j == |s| || s[j] != '#'
    decreases limit
  {
    if limit == 0 || i == |s| || s[i] != '#' then i else HashesEnd(s, i + 1, limit - 1)
  }

  /** `/#{1,6}\s?/g` replaced by nothing. */
  function StripHeadingsFrom(s: string, i: nat): (r: string)
    requires i <= |s|
    ensures |r| <= |s| - i
    decreases |s| - i
  {
    if i == |s| then ""
    else if s[i] == '#' then
      var k := HashesEnd(s, i, 6);
      StripHeadingsFrom(s, if k < |s| && IsSpace(s[k]) then k + 1 else k)
    else
      [s[i]] + StripHeadingsFrom(s, i + 1)
  }

  function StripHeadings(s: string): string
  {
    StripHeadingsFrom(s, 0)
  }

  /** A run of two or more characters of `cls` starts at i. */
  predicate RunStartsAt(s: string, cls: char -> bool, i: nat)
    requires i < |s|
  {
    cls(s[i]) && i + 1 < |s| && cls(s[i + 1])
  }

  /** `/c{2,}/g` (a class of characters `cls`) replaced by `rep`. */
  function CollapseRunsFrom(s: string, cls: char -> bool, rep: string, i: nat): (r: string)
    requires |rep| > 0 && i <= |s|
    ensures i == |s| <==> r == []
    ensures i < |s| ==> r[0] == s[i] || (cls(s[i]) && r[0] == rep[0])
    decreases |s| - i
  {
    if i == |s| then ""
    else if RunStartsAt(s, cls, i) then
      rep + CollapseRunsFrom(s, cls, rep, RunEnd(s, i, cls))
    else
      [s[i]] + CollapseRunsFrom(s, cls, rep, i + 1)
  }

  function CollapseRuns(s: string, cls: char -> bool, rep: string): string
    requires |rep| > 0
  {
    CollapseRunsFrom(s, cls, rep, 0)
  }

  /** `\b(abbr)\b` under the `i` flag: ASCII case folding, ASCII word characters. */
  predicate AbbreviationAt(s: string, abbr: string, i: nat) {
    && i + |abbr| < |s|
    && (i == 0 || !IsWordChar(s[i - 1]))
    && Lower(s[i..i + |abbr|]) == abbr
    && IsWordChar(s[i + |abbr|])
  }

  /** `/\b(abbr)\b/gi` replaced by `word`; `abbr` is given in lower case. */
  function ExpandFrom(s: string, abbr: string, word: string, i: nat): (r: string)
    requires |abbr| > 0 && i <= |s|
    decreases |s| - i
  {
    if i == |s| then ""
    else if AbbreviationAt(s, abbr, i) then word + ExpandFrom(s, abbr, word, i + |abbr|)
    else [s[i]] + ExpandFrom(s, abbr, word, i + 1)
  }

  function Expand(s: string, abbr: string, word: string): string
    requires |abbr| > 0
  {
    ExpandFrom(s, abbr, word, 0)
  }

  /** `/\s+m/g` replaced by "m ". */
  function SpaceBeforeFrom(s: string, mark: char, i: nat): (r: string)
    requires i <= |s|
    decreases |s| - i
  {
    if i == |s| then ""
    else if IsSpace(s[i]) && RunEnd(s, i, IsSpace) < |s| && s[RunEnd(s, i, IsSpace)] == mark then
      [mark, ' '] + SpaceBeforeFrom(s, mark, RunEnd(s, i, IsSpace) + 1)
    else
      [s[i]] + SpaceBeforeFrom(s, mark, i + 1)
  }

  function SpaceBefore(s: string, mark: char): string
  {
    SpaceBeforeFrom(s, mark, 0)
  }

  /** `/\s+/g` replaced by " ". */
  function CollapseWhitespaceFrom(s: string, i: nat): (r: string)
    requires i <= |s|
    ensures i == |s| <==> r == []
    ensures i < |s| ==> r[0] == (if IsSpace(s[i]) then ' ' else s[i])
    decreases |s| - i
  {
    if i == |s| then ""
    else if IsSpace(s[i]) then " " + CollapseWhitespaceFrom(s, RunEnd(s, i, IsSpace))
    else [s[i]] + CollapseWhitespaceFrom(s, i + 1)
  }

  // ---------------------------------------------------------------------------
  // The pipeline, one step per source line

  /** Markdown removal, lines 747-755 in source order (inline code before fenced code). */
  function StripMarkdown(s: string): string {
    var bold := StripDelimited(s, "**", true, false);
    var italic := StripDelimited(bold, "*", true, false);
    var code := StripDelimited(italic, "`", true, false);
    var links := StripLinks(code);
    var headings := StripHeadings(links);
    var breaks := CollapseRuns(headings, IsNewline, "\n\n");
    var fences := StripDelimited(breaks, "```", false, true);
    StripDelimited(fences, "~~", true, false)
  }

  /** Abbreviation expansion, lines 758-768 in source order. */
  function ExpandAbbreviations(s: string): string {
    var s1 := Expand(s, "e.g.", "for example");
    var s2 := Expand(s1, "i.e.", "that is");
    var s3 := Expand(s2, "vs.", "versus");
    var s4 := Expand(s3, "etc.", "and so on");
    var s5 := Expand(s4, "approx.", "approximately");
    var s6 := Expand(s5, "no.", "number");
    var s7 := Expand(s6, "dr.", "Doctor");
    var s8 := Expand(s7, "mr.", "Mister");
    var s9 := Expand(s8, "mrs.", "Missus");
    Expand(s9, "ms.", "Miss")
  }

  /** Lines 772-775: runs of '.', '!', '?' to one mark, runs of ",;:" to ','. */
  function CollapsePunctuation(s: string): string {
    var dots := CollapseRuns(s, IsDot, ".");
    var bangs := CollapseRuns(dots, IsBang, "!");
    var questions := CollapseRuns(bangs, IsQuestion, "?");
    CollapseRuns(questions, IsClauseMark, ",")
  }

  /** Lines 776-781: whitespace before a mark moves behind it. */
  function SpacePunctuation(s: string): string {
    var s1 := SpaceBefore(s, '.');
    var s2 := SpaceBefore(s1, '?');
    var s3 := SpaceBefore(s2, '!');
    var s4 := SpaceBefore(s3, ',');
    var s5 := SpaceBefore(s4, ';');
    SpaceBefore(s5, ':')
  }

  /** Lines 771-781 as written. */
  function SimplifyPunctuation(s: string): string {
    SpacePunctuation(CollapsePunctuation(s))
  }

  /** Lines 784-786. */
  function NormalizeWhitespace(s: string): (r: string)
    ensures Speakable(r)
  {
    var c := CollapseWhitespaceFrom(s, 0);
    CollapseWhitespaceSingleSpaced(s, 0);
    TrimSpeakable(c);
    Trim(c)
  }

  /** `processForTTS` as written (lines 741-789). */
  function ProcessForTts(text: string): (r: string)
    ensures text == "" ==> r == ""
    ensures Speakable(r)
  {
    if text == "" then ""
    else NormalizeWhitespace(SimplifyPunctuation(ExpandAbbreviations(StripMarkdown(text))))
  }

  /**
   * Lines 771-781 with the collapse of lines 772-775 applied once more after the
   * spacing, so that marks the spacing brings together are collapsed as the
   * comments at lines 772-774 intend.
   */
  function SimplifyPunctuationCorrected(s: string): string {
    CollapsePunctuation(SpacePunctuation(CollapsePunctuation(s)))
  }

  /**
   * Lines 747-755 with the code-block step moved first, so that a fenced block
   * is removed before the inline-code step can take its backticks.
   */
  function StripMarkdownCorrected(s: string): string {
    var fences := StripDelimited(s, "```", false, true);
    var bold := StripDelimited(fences, "**", true, false);
    var italic := StripDelimited(bold, "*", true, false);
    var code := StripDelimited(italic, "`", true, false);
    var links := StripLinks(code);
    var headings := StripHeadings(links);
    var breaks := CollapseRuns(headings, IsNewline, "\n\n");
    StripDelimited(breaks, "~~", true, false)
  }

  /** `processForTTS` with the corrected markdown and punctuation steps. */
  function ProcessForTtsCorrected(text: string): (r: string)
    ensures text == "" ==> r == ""
    ensures Speakable(r)
    ensures NoAdjacent(r, IsDot) && NoAdjacent(r, IsBang) && NoAdjacent(r, IsQuestion)
    ensures NoAdjacent(r, IsClauseMark)
  {
    if text == "" then ""
    else
      var spaced := SpacePunctuation(CollapsePunctuation(ExpandAbbreviations(StripMarkdownCorrected(text))));
      CollapsedStaysSeparated(spaced, IsDot);
      CollapsedStaysSeparated(spaced, IsBang);
      CollapsedStaysSeparated(spaced, IsQuestion);
      CollapsedStaysSeparated(spaced, IsClauseMark);
      NormalizeWhitespace(CollapsePunctuation(spaced))
  }

  // ---------------------------------------------------------------------------
  // Lemmas

  /** A slice keeps the separation of `p` characters. */
  lemma SliceKeepsApart(s: string, r: string, a: nat, p: char -> bool)
    requires a + |r| <= |s| && r == s[a..a + |r|] && NoAdjacent(s, p)
    ensures NoAdjacent(r, p)
  {
    forall k | 0 <= k < |r| - 1 ensures !(p(r[k]) && p(r[k + 1])) {
      assert r[k] == s[a + k] && r[k + 1] == s[a + k + 1];
    }
  }

  /** Trimming a single-spaced string leaves it speakable. */
  lemma TrimSpeakable(s: string)
    requires SingleSpaced(s)
    ensures Speakable(Trim(s))
  {
    var a, b := TrimSpec(s);
    var r := Trim(s);
    SliceKeepsApart(s, r, a, IsSpace);
    forall k | 0 <= k < |r| && IsSpace(r[k]) ensures r[k] == ' ' {
      assert r[k] == s[a + k];
    }
  }

  lemma ConcatKeepsApart(a: string, b: string, p: char -> bool)
    requires NoAdjacent(a, p) && NoAdjacent(b, p)
    requires a != [] && b != [] ==> !(p(a[|a| - 1]) && p(b[0]))
    ensures NoAdjacent(a + b, p)
  {
    var ab := a + b;
    forall k | 0 <= k < |ab| - 1 ensures !(p(ab[k]) && p(ab[k + 1])) {
      if k + 1 < |a| {
        assert ab[k] == a[k] && ab[k + 1] == a[k + 1];
      } else if k >= |a| {
        assert ab[k] == b[k - |a|] && ab[k + 1] == b[k - |a| + 1];
      }
    }
  }

  /** Collapsing the runs of a class into one member leaves no two members side by side. */
  lemma {:induction false} CollapseRunsSeparates(s: string, cls: char -> bool, rep: string, i: nat)
    requires |rep| == 1 && cls(rep[0]) && i <= |s|
    ensures NoAdjacent(CollapseRunsFrom(s, cls, rep, i), cls)
    decreases |s| - i
  {
    if i < |s| {
      if RunStartsAt(s, cls, i) {
        var j := RunEnd(s, i, cls);
        CollapseRunsSeparates(s, cls, rep, j);
        ConcatKeepsApart(rep, CollapseRunsFrom(s, cls, rep, j), cls);
      } else {
        CollapseRunsSeparates(s, cls, rep, i + 1);
        ConcatKeepsApart([s[i]], CollapseRunsFrom(s, cls, rep, i + 1), cls);
      }
    }
  }

  /** Collapsing the runs of a class keeps apart the characters of a disjoint class. */
  lemma {:induction false} CollapseRunsKeepsApart(s: string, cls: char -> bool, rep: string, i: nat, p: char -> bool)
    requires |rep| == 1 && cls(rep[0]) && i <= |s|
    requires forall c :: cls(c) ==> !p(c)
    requires NoAdjacent(s, p)
    ensures NoAdjacent(CollapseRunsFrom(s, cls, rep, i), p)
    decreases |s| - i
  {
    if i < |s| {
      if RunStartsAt(s, cls, i) {
        var j := RunEnd(s, i, cls);
        CollapseRunsKeepsApart(s, cls, rep, j, p);
        ConcatKeepsApart(rep, CollapseRunsFrom(s, cls, rep, j), p);
      } else {
        CollapseRunsKeepsApart(s, cls, rep, i + 1, p);
        ConcatKeepsApart([s[i]], CollapseRunsFrom(s, cls, rep, i + 1), p);
      }
    }
  }

  /** Line 785 leaves every whitespace run as one plain space. */
  lemma {:induction false} CollapseWhitespaceSingleSpaced(s: string, i: nat)
    requires i <= |s|
    ensures SingleSpaced(CollapseWhitespaceFrom(s, i))
    decreases |s| - i
  {
    if i < |s| {
      if IsSpace(s[i]) {
        CollapseWhitespaceSingleSpaced(s, RunEnd(s, i, IsSpace));
      } else {
        CollapseWhitespaceSingleSpaced(s, i + 1);
      }
    }
  }

  /** Collapsing whitespace keeps apart the characters of a non-whitespace class. */
  lemma {:induction false} CollapseWhitespaceKeepsApart(s: string, i: nat, p: char -> bool)
    requires i <= |s|
    requires forall c :: p(c) ==> !IsSpace(c)
    requires NoAdjacent(s, p)
    ensures NoAdjacent(CollapseWhitespaceFrom(s, i), p)
    decreases |s| - i
  {
    if i < |s| {
      if IsSpace(s[i]) {
        var j := RunEnd(s, i, IsSpace);
        CollapseWhitespaceKeepsApart(s, j, p);
        ConcatKeepsApart(" ", CollapseWhitespaceFrom(s, j), p);
      } else {
        CollapseWhitespaceKeepsApart(s, i + 1, p);
        ConcatKeepsApart([s[i]], CollapseWhitespaceFrom(s, i + 1), p);
      }
    }
  }

  /** After lines 772-775 no two dots, bangs, question marks or clause marks touch. */
  lemma CollapsePunctuationSeparates(s: string)
    ensures var r := CollapsePunctuation(s);
      NoAdjacent(r, IsDot) && NoAdjacent(r, IsBang) && NoAdjacent(r, IsQuestion) && NoAdjacent(r, IsClauseMark)
  {
    var dots := CollapseRuns(s, IsDot, ".");
    CollapseRunsSeparates(s, IsDot, ".", 0);
    var bangs := CollapseRuns(dots, IsBang, "!");
    CollapseRunsSeparates(dots, IsBang, "!", 0);
    CollapseRunsKeepsApart(dots, IsBang, "!", 0, IsDot);
    var questions := CollapseRuns(bangs, IsQuestion, "?");
    CollapseRunsSeparates(bangs, IsQuestion, "?", 0);
    CollapseRunsKeepsApart(bangs, IsQuestion, "?", 0, IsDot);
    CollapseRunsKeepsApart(bangs, IsQuestion, "?", 0, IsBang);
    CollapseRunsSeparates(questions, IsClauseMark, ",", 0);
    CollapseRunsKeepsApart(questions, IsClauseMark, ",", 0, IsDot);
    CollapseRunsKeepsApart(questions, IsClauseMark, ",", 0, IsBang);
    CollapseRunsKeepsApart(questions, IsClauseMark, ",", 0, IsQuestion);
  }

  /** Lines 784-786 never bring two characters of a non-whitespace class together. */
  lemma NormalizeKeepsApart(s: string, p: char -> bool)
    requires forall c :: p(c) ==> !IsSpace(c)
    requires NoAdjacent(s, p)
    ensures NoAdjacent(NormalizeWhitespace(s), p)
  {
    var c := CollapseWhitespaceFrom(s, 0);
    CollapseWhitespaceKeepsApart(s, 0, p);
    var a, b := TrimSpec(c);
    SliceKeepsApart(c, Trim(c), a, p);
  }

  /** Lines 772-775 followed by lines 784-786 leave no two marks of one kind side by side. */
  lemma CollapsedStaysSeparated(s: string, p: char -> bool)
    requires p == IsDot || p == IsBang || p == IsQuestion || p == IsClauseMark
    ensures NoAdjacent(NormalizeWhitespace(CollapsePunctuation(s)), p)
  {
    CollapsePunctuationSeparates(s);
    NormalizeKeepsApart(CollapsePunctuation(s), p);
  }

  /** Text without markdown characters passes each of lines 747-755 unchanged, in either order. */
  lemma PlainTextKeepsMarkdown(s: string)
    requires forall k :: 0 <= k < |s| ==> !IsMarkupChar(s[k]) && s[k] != '\n'
    ensures StripDelimited(s, "**", true, false) == s && StripDelimited(s, "*", true, false) == s
    ensures StripDelimited(s, "`", true, false) == s && StripLinks(s) == s && StripHeadings(s) == s
    ensures CollapseRuns(s, IsNewline, "\n\n") == s
    ensures StripDelimited(s, "```", false, true) == s && StripDelimited(s, "~~", true, false) == s
    ensures StripMarkdown(s) == s && StripMarkdownCorrected(s) == s
  {
    StripDelimitedKeepsPlain(s, "**", true, false);
    StripDelimitedKeepsPlain(s, "*", true, false);
    StripDelimitedKeepsPlain(s, "`", true, false);
    StripLinksKeepsPlain(s);
    StripHeadingsKeepsPlain(s);
    CollapseRunsKeepsPlain(s, IsNewline, "\n\n");
    StripDelimitedKeepsPlain(s, "```", false, true);
    StripDelimitedKeepsPlain(s, "~~", true, false);
  }

  /** Every abbreviation ends in '.' and needs a word character right after it. */
  lemma NoAbbreviationWithout(s: string, abbr: string, word: string)
    requires |abbr| > 0 && abbr[|abbr| - 1] == '.' && NoDotBeforeWord(s)
    ensures Expand(s, abbr, word) == s
  {
    forall k | 0 <= k < |s| ensures !AbbreviationAt(s, abbr, k) {
      var n := |abbr|;
      if k + n < |s| {
        assert Lower(s[k..k + n])[n - 1] == LowerChar(s[k + n - 1]);
        assert !(IsDot(s[k + n - 1]) && IsWordChar(s[k + n]));
      }
    }
    ExpandKeepsPlain(s, abbr, word);
  }

  /** Text with no '.' directly before a word character passes lines 758-768 unchanged. */
  lemma PlainTextKeepsAbbreviations(s: string)
    requires NoDotBeforeWord(s)
    ensures ExpandAbbreviations(s) == s
  {
    NoAbbreviationWithout(s, "e.g.", "for example");
    NoAbbreviationWithout(s, "i.e.", "that is");
    NoAbbreviationWithout(s, "vs.", "versus");
    NoAbbreviationWithout(s, "etc.", "and so on");
    NoAbbreviationWithout(s, "approx.", "approximately");
    NoAbbreviationWithout(s, "no.", "number");
    NoAbbreviationWithout(s, "dr.", "Doctor");
    NoAbbreviationWithout(s, "mr.", "Mister");
    NoAbbreviationWithout(s, "mrs.", "Missus");
    NoAbbreviationWithout(s, "ms.", "Miss");
  }

  // ---------------------------------------------------------------------------
  // What each replacement does. A `...Plain` lemma says that characters at which
  // no match starts are copied; a `...At` lemma says what a match at index i of
  // the scan becomes; the lemma without suffix says it for a whole text. The
  // `...Step` lemmas are single steps of the scans.

  /** The pieces of a text made of three parts. */
  lemma Split3(a: string, m: string, b: string)
    ensures var s := a + m + b;
      && s[0..|a|] == a && s[|a|..|a| + |m|] == m && s[|a| + |m|..|s|] == b
  {
  }

  /** The pieces of a text made of four parts. */
  lemma Split4(a: string, m: string, n: string, b: string)
    ensures var s := a + m + n + b;
      && s[0..|a|] == a && s[|a|..|a| + |m|] == m && s[|a| + |m|..|a| + |m| + |n|] == n
      && s[|a| + |m| + |n|..|s|] == b
  {
  }

  /** The pieces of a text made of five parts. */
  lemma Split5(a: string, m: string, n: string, o: string, b: string)
    ensures var s := a + m + n + o + b;
      && s[0..|a|] == a && s[|a|..|a| + |m|] == m && s[|a| + |m|..|a| + |m| + |n|] == n
      && s[|a| + |m| + |n|..|a| + |m| + |n| + |o|] == o && s[|a| + |m| + |n| + |o|..|s|] == b
  {
    Split4(a, m, n, o + b);
    assert a + m + n + o + b == a + m + n + (o + b);
  }

  /** The pieces of a text made of seven parts. */
  lemma Split7(a: string, m: string, n: string, o: string, p: string, q: string, b: string)
    ensures var s := a + m + n + o + p + q + b;
      && s[0..|a|] == a && s[|a|..|a| + |m|] == m && s[|a| + |m|..|a| + |m| + |n|] == n
      && s[|a| + |m| + |n|..|a| + |m| + |n| + |o|] == o
      && s[|a| + |m| + |n| + |o|..|a| + |m| + |n| + |o| + |p|] == p
      && s[|a| + |m| + |n| + |o| + |p|..|a| + |m| + |n| + |o| + |p| + |q|] == q
      && s[|a| + |m| + |n| + |o| + |p| + |q|..|s|] == b
  {
    Split5(a + m + n, o, p, q, b);
    Split3(a, m, n);
    var s := a + m + n + o + p + q + b;
    var h := |a| + |m| + |n|;
    assert s[0..h] == a + m + n;
    assert s[0..|a|] == s[0..h][0..|a|];
    assert s[|a|..|a| + |m|] == s[0..h][|a|..|a| + |m|];
    assert s[|a| + |m|..h] == s[0..h][|a| + |m|..h];
  }

  lemma Assemble(a: string, x: string, b: string, t: string)
    requires t == []
    ensures a + (x + (b + t)) == a + x + b
  {
  }

  /** Three pieces output one after another, with nothing after them. */
  lemma Chain3(a: string, x: string, b: string, r0: string, r1: string, r2: string, r3: string)
    requires r0 == a + r1 && r1 == x + r2 && r2 == b + r3 && r3 == []
    ensures r0 == a + x + b
  {
    Assemble(a, x, b, r3);
  }

  lemma Assemble2(a: string, b: string, t: string)
    requires t == []
    ensures a + (b + t) == a + b
  {
  }

  lemma SliceStartsAt(s: string, i: nat, p: string)
    requires i + |p| <= |s| && s[i..i + |p|] == p
    ensures StartsAt(s, i, p)
  {
    forall m | 0 <= m < |p| ensures s[i + m] == p[m] {
      assert s[i..i + |p|][m] == s[i + m];
    }
  }

  /** The first character of a non-empty slice, and the slice after it. */
  lemma SliceHead(s: string, i: nat, x: string)
    requires x != [] && i + |x| <= |s| && s[i..i + |x|] == x
    ensures s[i] == x[0] && s[i + 1..i + 1 + |x[1..]|] == x[1..]
  {
    assert s[i..i + |x|][0] == s[i];
  }

  /** A non-empty text is its first character followed by the rest. */
  lemma HeadTail(x: string, z: string)
    requires x != []
    ensures x + z == [x[0]] + (x[1..] + z)
  {
    assert x == [x[0]] + x[1..];
    AppendAssoc([x[0]], x[1..], z);
  }

  /** A character missing from a slice is missing at each of its indices. */
  lemma SliceExcludes(s: string, i: nat, j: nat, x: string, c: char)
    requires i <= j <= |s| && s[i..j] == x && c !in x
    ensures forall k :: i <= k < j ==> s[k] != c
  {
    forall k | i <= k < j ensures s[k] != c {
      assert s[k] == x[k - i];
    }
  }

  lemma SuffixCons(s: string, i: nat)
    requires i < |s|
    ensures s[i..] == [s[i]] + s[i + 1..]
  {
  }

  lemma SuffixSplit(s: string, i: nat, j: nat)
    requires i <= j <= |s|
    ensures s[i..] == s[i..j] + s[j..]
  {
  }

  /** The lazy group stops at a line terminator when no delimiter comes first. */
  lemma {:induction false} FindCloseStopsAtLine(s: string, d: string, j: nat, m: nat)
    requires j <= m < |s| && IsLineTerminator(s[m])
    requires forall k :: j <= k <= m ==> !StartsAt(s, k, d)
    ensures FindClose(s, d, j, false) == None
    decreases m - j
  {
    if j < m && !IsLineTerminator(s[j]) {
      FindCloseStopsAtLine(s, d, j + 1, m);
    }
  }

  /**
   * The lazy group from j ends at a delimiter at e when no character before e
   * starts the delimiter or, without `dotAll`, ends the line.
   */
  lemma {:induction false} FindCloseOver(s: string, d: string, j: nat, e: nat, dotAll: bool)
    requires |d| > 0 && j <= e && StartsAt(s, e, d)
    requires forall k :: j <= k < e ==> s[k] != d[0] && (dotAll || !IsLineTerminator(s[k]))
    ensures FindClose(s, d, j, dotAll) == Some(e)
    decreases e - j
  {
    if j < e {
      assert !StartsAt(s, j, d) by {
        assert s[j + 0] != d[0];
      }
      FindCloseOver(s, d, j + 1, e, dotAll);
    }
  }

  lemma StripDelimitedCopyStep(s: string, d: string, keepInner: bool, dotAll: bool, i: nat)
    requires |d| > 0 && i < |s| && !(StartsAt(s, i, d) && FindClose(s, d, i + |d|, dotAll).Some?)
    ensures StripDelimitedFrom(s, d, keepInner, dotAll, i) == [s[i]] + StripDelimitedFrom(s, d, keepInner, dotAll, i + 1)
  {
  }

  lemma StripDelimitedSpanStep(s: string, d: string, keepInner: bool, dotAll: bool, i: nat, w: string)
    requires |d| > 0 && StartsAt(s, i, d) && FindClose(s, d, i + |d|, dotAll) == Some(i + |d| + |w|)
    requires s[i + |d|..i + |d| + |w|] == w
    ensures StripDelimitedFrom(s, d, keepInner, dotAll, i) == Kept(keepInner, w) + StripDelimitedFrom(s, d, keepInner, dotAll, i + |d| + |w| + |d|)
  {
    var j := FindClose(s, d, i + |d|, dotAll).value;
    assert j + |d| == i + |d| + |w| + |d| && s[i + |d|..j] == w;
  }

  lemma StripDelimitedCopyAt(s: string, d: string, keepInner: bool, dotAll: bool, i: nat)
    requires |d| > 0 && i < |s| && s[i] != d[0]
    ensures StripDelimitedFrom(s, d, keepInner, dotAll, i) == [s[i]] + StripDelimitedFrom(s, d, keepInner, dotAll, i + 1)
  {
    assert !StartsAt(s, i, d) by {
      assert s[i + 0] != d[0];
    }
    StripDelimitedCopyStep(s, d, keepInner, dotAll, i);
  }

  lemma SliceCons(s: string, i: nat, j: nat)
    requires i < j <= |s|
    ensures s[i..j] == [s[i]] + s[i + 1..j]
  {
  }

  /** One copied character followed by a copied slice is the longer slice. */
  lemma ConsPrefix(s: string, i: nat, n: nat, x: string, y: string, z: string)
    requires 0 < n && i + n <= |s|
    requires x == [s[i]] + y
    requires y == s[i + 1..i + n] + z
    ensures x == s[i..i + n] + z
  {
    SliceCons(s, i, i + n);
    AppendAssoc([s[i]], s[i + 1..i + n], z);
  }

  /** An output that starts with a copy of `x` starts with `x`. */
  lemma ReplacePrefix(r: string, p: string, x: string, z: string)
    requires r == p + z && p == x
    ensures r == x + z
  {
  }

  lemma EmptyPrefix(s: string, i: nat, n: nat, z: string)
    requires n == 0 && i <= |s|
    ensures s[i..i + n] + z == z
  {
    AppendEmpty(s[i..i + n], z);
  }

  lemma {:induction false} StripDelimitedPlain(s: string, d: string, keepInner: bool, dotAll: bool, i: nat, n: nat)
    requires |d| > 0 && i + n <= |s|
    requires forall k :: i <= k < i + n ==> s[k] != d[0]
    ensures StripDelimitedFrom(s, d, keepInner, dotAll, i) == s[i..i + n] + StripDelimitedFrom(s, d, keepInner, dotAll, i + n)
    decreases n
  {
    if n > 0 {
      StripDelimitedCopyAt(s, d, keepInner, dotAll, i);
      StripDelimitedPlain(s, d, keepInner, dotAll, i + 1, n - 1);
      ConsPrefix(s, i, n, StripDelimitedFrom(s, d, keepInner, dotAll, i), StripDelimitedFrom(s, d, keepInner, dotAll, i + 1), StripDelimitedFrom(s, d, keepInner, dotAll, i + n));
    } else {
      EmptyPrefix(s, i, n, StripDelimitedFrom(s, d, keepInner, dotAll, i + n));
    }
  }

  /** Characters without the opening character of the delimiter are copied. */
  lemma {:induction false} StripDelimitedPiece(s: string, d: string, keepInner: bool, dotAll: bool, i: nat, x: string)
    requires |d| > 0 && d[0] !in x && i + |x| <= |s| && s[i..i + |x|] == x
    ensures StripDelimitedFrom(s, d, keepInner, dotAll, i) == x + StripDelimitedFrom(s, d, keepInner, dotAll, i + |x|)
    decreases |x|
  {
    if x != [] {
      SliceHead(s, i, x);
      StripDelimitedCopyAt(s, d, keepInner, dotAll, i);
      StripDelimitedPiece(s, d, keepInner, dotAll, i + 1, x[1..]);
      var z := StripDelimitedFrom(s, d, keepInner, dotAll, i + |x|);
      assert StripDelimitedFrom(s, d, keepInner, dotAll, i + 1) == x[1..] + z;
      HeadTail(x, z);
    }
  }

  /** For a span `d + w + d` at i the lazy group closes at the second `d`. */
  lemma StripDelimitedCloses(s: string, d: string, dotAll: bool, i: nat, w: string)
    requires |d| > 0 && d[0] !in w
    requires !dotAll ==> forall k :: 0 <= k < |w| ==> !IsLineTerminator(w[k])
    requires i + |d| + |w| + |d| <= |s|
    requires s[i..i + |d|] == d && s[i + |d|..i + |d| + |w|] == w
    requires s[i + |d| + |w|..i + |d| + |w| + |d|] == d
    ensures StartsAt(s, i, d) && FindClose(s, d, i + |d|, dotAll) == Some(i + |d| + |w|)
  {
    var b := i + |d|;
    var e := b + |w|;
    SliceStartsAt(s, i, d);
    SliceStartsAt(s, e, d);
    forall k | b <= k < e ensures s[k] != d[0] && (dotAll || !IsLineTerminator(s[k])) {
      assert s[k] == w[k - b];
    }
    FindCloseOver(s, d, b, e, dotAll);
  }

  /** A span `d + w + d` at i becomes `w` (or nothing) and the scan resumes after it. */
  lemma StripDelimitedSpanAt(s: string, d: string, keepInner: bool, dotAll: bool, i: nat, w: string)
    requires |d| > 0 && d[0] !in w
    requires !dotAll ==> forall k :: 0 <= k < |w| ==> !IsLineTerminator(w[k])
    requires i + |d| + |w| + |d| <= |s|
    requires s[i..i + |d|] == d && s[i + |d|..i + |d| + |w|] == w
    requires s[i + |d| + |w|..i + |d| + |w| + |d|] == d
    ensures StripDelimitedFrom(s, d, keepInner, dotAll, i) == Kept(keepInner, w) + StripDelimitedFrom(s, d, keepInner, dotAll, i + |d| + |w| + |d|)
  {
    StripDelimitedCloses(s, d, dotAll, i, w);
    StripDelimitedSpanStep(s, d, keepInner, dotAll, i, w);
  }

  /**
   * In a text with one span `d + w + d`, the span becomes `w` (bold, italic,
   * inline code, strikethrough: lines 748-750, 755) or nothing (fenced code:
   * line 754), and everything else is kept.
   */
  lemma StripDelimitedSpan(a: string, w: string, b: string, d: string, keepInner: bool, dotAll: bool)
    requires |d| > 0 && d[0] !in a && d[0] !in w && d[0] !in b
    requires !dotAll ==> forall k :: 0 <= k < |w| ==> !IsLineTerminator(w[k])
    ensures StripDelimited(a + d + w + d + b, d, keepInner, dotAll) == a + Kept(keepInner, w) + b
  {
    var s := a + d + w + d + b;
    var i := |a|;
    var e := i + |d| + |w| + |d|;
    var x := Kept(keepInner, w);
    var z := e + |b|;
    Split5(a, d, w, d, b);
    assert z == |s|;
    calc {
      StripDelimited(s, d, keepInner, dotAll);
      StripDelimitedFrom(s, d, keepInner, dotAll, 0);
      { StripDelimitedPiece(s, d, keepInner, dotAll, 0, a); }
      a + StripDelimitedFrom(s, d, keepInner, dotAll, i);
      { StripDelimitedSpanAt(s, d, keepInner, dotAll, i, w); }
      a + (x + StripDelimitedFrom(s, d, keepInner, dotAll, e));
      { StripDelimitedPiece(s, d, keepInner, dotAll, e, b); }
      a + (x + (b + StripDelimitedFrom(s, d, keepInner, dotAll, z)));
      { Assemble(a, x, b, StripDelimitedFrom(s, d, keepInner, dotAll, z)); }
      a + x + b;
    }
  }

  lemma StripLinksCopyStep(s: string, i: nat)
    requires i < |s| && s[i] != '['
    ensures StripLinksFrom(s, i) == [s[i]] + StripLinksFrom(s, i + 1)
  {
  }

  lemma LinkFound(s: string, i: nat, e: nat, t: nat)
    requires i < |s| && s[i] == '['
    requires FindClose(s, "](", i + 1, false) == Some(e) && FindClose(s, ")", e + 2, false) == Some(t)
    ensures LinkAt(s, i) == Some((e, t))
  {
  }

  lemma StripLinksLabelStep(s: string, i: nat, e: nat, t: nat)
    requires i < |s| && LinkAt(s, i) == Some((e, t))
    ensures StripLinksFrom(s, i) == s[i + 1..e] + StripLinksFrom(s, t + 1)
  {
    var link := LinkAt(s, i);
    assert link.value.0 == e && link.value.1 + 1 == t + 1;
  }

  lemma {:induction false} StripLinksPlain(s: string, i: nat, n: nat)
    requires i + n <= |s|
    requires forall k :: i <= k < i + n ==> s[k] != '['
    ensures StripLinksFrom(s, i) == s[i..i + n] + StripLinksFrom(s, i + n)
    decreases n
  {
    if n > 0 {
      StripLinksCopyStep(s, i);
      StripLinksPlain(s, i + 1, n - 1);
      ConsPrefix(s, i, n, StripLinksFrom(s, i), StripLinksFrom(s, i + 1), StripLinksFrom(s, i + n));
    } else {
      EmptyPrefix(s, i, n, StripLinksFrom(s, i + n));
    }
  }

  /** Characters other than '[' are copied. */
  lemma {:induction false} StripLinksPiece(s: string, i: nat, x: string)
    requires '[' !in x && i + |x| <= |s| && s[i..i + |x|] == x
    ensures StripLinksFrom(s, i) == x + StripLinksFrom(s, i + |x|)
    decreases |x|
  {
    if x != [] {
      SliceHead(s, i, x);
      StripLinksCopyStep(s, i);
      StripLinksPiece(s, i + 1, x[1..]);
      var z := StripLinksFrom(s, i + |x|);
      assert StripLinksFrom(s, i + 1) == x[1..] + z;
      HeadTail(x, z);
    }
  }

  /** For a link `[l](u)` at i, with "](" at e and ")" at t, both lazy groups close there. */
  lemma StripLinksCloses(s: string, i: nat, e: nat, t: nat, l: string, u: string)
    requires ']' !in l && ')' !in u
    requires forall k :: 0 <= k < |l| ==> !IsLineTerminator(l[k])
    requires forall k :: 0 <= k < |u| ==> !IsLineTerminator(u[k])
    requires e == i + 1 + |l| && t == e + 2 + |u| && t + 1 <= |s|
    requires s[i + 1..e] == l && s[e..e + 2] == "](" && s[e + 2..t] == u && s[t..t + 1] == ")"
    ensures FindClose(s, "](", i + 1, false) == Some(e)
    ensures FindClose(s, ")", e + 2, false) == Some(t)
  {
    assert FindClose(s, "](", i + 1, false) == Some(e) by {
      SliceStartsAt(s, e, "](");
      forall k | i + 1 <= k < e ensures s[k] != ']' && !IsLineTerminator(s[k]) {
        assert s[k] == l[k - (i + 1)];
      }
      FindCloseOver(s, "](", i + 1, e, false);
    }
    SliceStartsAt(s, t, ")");
    forall k | e + 2 <= k < t ensures s[k] != ')' && !IsLineTerminator(s[k]) {
      assert s[k] == u[k - (e + 2)];
    }
    FindCloseOver(s, ")", e + 2, t, false);
  }

  /** A link `[l](u)` at i, on one line, `l` without ']' and `u` without ')', becomes `l`. */
  lemma StripLinksLabelAt(s: string, i: nat, e: nat, t: nat, l: string, u: string)
    requires ']' !in l && ')' !in u
    requires forall k :: 0 <= k < |l| ==> !IsLineTerminator(l[k])
    requires forall k :: 0 <= k < |u| ==> !IsLineTerminator(u[k])
    requires e == i + 1 + |l| && t == e + 2 + |u| && t + 1 <= |s|
    requires s[i] == '[' && s[i + 1..e] == l && s[e..e + 2] == "](" && s[e + 2..t] == u && s[t..t + 1] == ")"
    ensures StripLinksFrom(s, i) == l + StripLinksFrom(s, t + 1)
  {
    assert StripLinksFrom(s, i) == s[i + 1..e] + StripLinksFrom(s, t + 1) by {
      StripLinksCloses(s, i, e, t, l, u);
      LinkFound(s, i, e, t);
      StripLinksLabelStep(s, i, e, t);
    }
    ReplacePrefix(StripLinksFrom(s, i), s[i + 1..e], l, StripLinksFrom(s, t + 1));
  }

  /** In a text with one link `[l](u)` and no other '[', the link becomes its label (line 751). */
  lemma StripLinksLabel(a: string, l: string, u: string, b: string)
    requires '[' !in a && '[' !in b && ']' !in l && ')' !in u
    requires forall k :: 0 <= k < |l| ==> !IsLineTerminator(l[k])
    requires forall k :: 0 <= k < |u| ==> !IsLineTerminator(u[k])
    ensures StripLinks(a + "[" + l + "](" + u + ")" + b) == a + l + b
  {
    var s := a + "[" + l + "](" + u + ")" + b;
    var i := |a|;
    var e := i + 1 + |l|;
    var t := e + 2 + |u|;
    var z := t + 1 + |b|;
    Split7(a, "[", l, "](", u, ")", b);
    assert z == |s|;
    assert s[i] == s[i..i + 1][0];
    calc {
      StripLinks(s);
      StripLinksFrom(s, 0);
      { StripLinksPiece(s, 0, a); }
      a + StripLinksFrom(s, i);
      { StripLinksLabelAt(s, i, e, t, l, u); }
      a + (l + StripLinksFrom(s, t + 1));
      { StripLinksPiece(s, t + 1, b); }
      a + (l + (b + StripLinksFrom(s, z)));
      { Assemble(a, l, b, StripLinksFrom(s, z)); }
      a + l + b;
    }
  }

  lemma StripHeadingsCopyStep(s: string, i: nat)
    requires i < |s| && s[i] != '#'
    ensures StripHeadingsFrom(s, i) == [s[i]] + StripHeadingsFrom(s, i + 1)
  {
  }

  lemma {:induction false} StripHeadingsPlain(s: string, i: nat, n: nat)
    requires i + n <= |s|
    requires forall k :: i <= k < i + n ==> s[k] != '#'
    ensures StripHeadingsFrom(s, i) == s[i..i + n] + StripHeadingsFrom(s, i + n)
    decreases n
  {
    if n > 0 {
      StripHeadingsCopyStep(s, i);
      StripHeadingsPlain(s, i + 1, n - 1);
      ConsPrefix(s, i, n, StripHeadingsFrom(s, i), StripHeadingsFrom(s, i + 1), StripHeadingsFrom(s, i + n));
    } else {
      EmptyPrefix(s, i, n, StripHeadingsFrom(s, i + n));
    }
  }

  /** One to six '#' at i are removed together with one whitespace character after them. */
  lemma StripHeadingMarkerAt(s: string, i: nat, n: nat)
    requires 1 <= n <= 6 && i + n <= |s|
    requires forall k :: i <= k < i + n ==> s[k] == '#'
    requires i + n == |s| || s[i + n] != '#'
    ensures StripHeadingsFrom(s, i) == StripHeadingsFrom(s, if i + n < |s| && IsSpace(s[i + n]) then i + n + 1 else i + n)
  {
    assert s[i] == '#';
    var j := HashesEnd(s, i, 6);
    assert j == i + n;
  }

  function Hashes(n: nat): (r: string)
    ensures |r| == n && forall k :: 0 <= k < n ==> r[k] == '#'
  {
    seq(n, _ => '#')
  }

  /** What follows a heading marker once line 752 has taken one whitespace character. */
  function AfterMarker(b: string): string {
    if b != [] && IsSpace(b[0]) then b[1..] else b
  }

  /** Characters other than '#' are copied. */
  lemma {:induction false} StripHeadingsPiece(s: string, i: nat, x: string)
    requires '#' !in x && i + |x| <= |s| && s[i..i + |x|] == x
    ensures StripHeadingsFrom(s, i) == x + StripHeadingsFrom(s, i + |x|)
    decreases |x|
  {
    if x != [] {
      SliceHead(s, i, x);
      StripHeadingsCopyStep(s, i);
      StripHeadingsPiece(s, i + 1, x[1..]);
      var z := StripHeadingsFrom(s, i + |x|);
      assert StripHeadingsFrom(s, i + 1) == x[1..] + z;
      HeadTail(x, z);
    }
  }

  /** A marker `Hashes(n)` at i, followed by `b`, is dropped with one whitespace character of `b`. */
  lemma StripHeadingMarkerBefore(s: string, i: nat, n: nat, b: string)
    requires 1 <= n <= 6 && '#' !in b && i + n + |b| == |s|
    requires s[i..i + n] == Hashes(n) && s[i + n..|s|] == b
    ensures StripHeadingsFrom(s, i) == AfterMarker(b) + StripHeadingsFrom(s, |s|)
  {
    var e := i + n;
    forall k | i <= k < e ensures s[k] == '#' {
      assert s[k] == Hashes(n)[k - i];
    }
    if e < |s| {
      assert s[e] == s[e..|s|][0] == b[0];
    }
    StripHeadingMarkerAt(s, i, n);
    var r := if e < |s| && IsSpace(s[e]) then e + 1 else e;
    assert s[r..|s|] == AfterMarker(b) by {
      if r == e + 1 {
        assert s[e + 1..|s|] == s[e..|s|][1..];
      }
    }
    StripHeadingsPiece(s, r, AfterMarker(b));
  }

  /**
   * In a text with one heading marker of one to six '#' and no other '#', the
   * marker and one whitespace character after it are removed (line 752).
   */
  lemma StripHeading(a: string, n: nat, b: string)
    requires 1 <= n <= 6 && '#' !in a && '#' !in b
    ensures StripHeadings(a + Hashes(n) + b) == a + AfterMarker(b)
  {
    var s := a + Hashes(n) + b;
    var i := |a|;
    Split3(a, Hashes(n), b);
    StripHeadingsPiece(s, 0, a);
    StripHeadingMarkerBefore(s, i, n, b);
    Assemble2(a, AfterMarker(b), StripHeadingsFrom(s, |s|));
  }

  lemma CollapseRunsCopyStep(s: string, cls: char -> bool, rep: string, i: nat)
    requires |rep| > 0 && i < |s| && !RunStartsAt(s, cls, i)
    ensures CollapseRunsFrom(s, cls, rep, i) == [s[i]] + CollapseRunsFrom(s, cls, rep, i + 1)
  {
  }

  lemma CollapseRunsRunStep(s: string, cls: char -> bool, rep: string, i: nat)
    requires |rep| > 0 && i + 1 < |s| && cls(s[i]) && cls(s[i + 1])
    ensures CollapseRunsFrom(s, cls, rep, i) == rep + CollapseRunsFrom(s, cls, rep, RunEnd(s, i, cls))
  {
  }

  lemma {:induction false} CollapseRunsPlain(s: string, cls: char -> bool, rep: string, i: nat, n: nat)
    requires |rep| > 0 && i + n <= |s|
    requires forall k :: i <= k < i + n ==> !RunStartsAt(s, cls, k)
    ensures CollapseRunsFrom(s, cls, rep, i) == s[i..i + n] + CollapseRunsFrom(s, cls, rep, i + n)
    decreases n
  {
    if n > 0 {
      CollapseRunsCopyStep(s, cls, rep, i);
      CollapseRunsPlain(s, cls, rep, i + 1, n - 1);
      ConsPrefix(s, i, n, CollapseRunsFrom(s, cls, rep, i), CollapseRunsFrom(s, cls, rep, i + 1), CollapseRunsFrom(s, cls, rep, i + n));
    } else {
      EmptyPrefix(s, i, n, CollapseRunsFrom(s, cls, rep, i + n));
    }
  }

  /** Characters outside the class are copied. */
  lemma CollapseRunsPiece(s: string, cls: char -> bool, rep: string, i: nat, x: string)
    requires |rep| > 0 && i + |x| <= |s| && s[i..i + |x|] == x
    requires forall k :: 0 <= k < |x| ==> !cls(x[k])
    ensures CollapseRunsFrom(s, cls, rep, i) == x + CollapseRunsFrom(s, cls, rep, i + |x|)
  {
    assert CollapseRunsFrom(s, cls, rep, i) == s[i..i + |x|] + CollapseRunsFrom(s, cls, rep, i + |x|) by {
      forall k | i <= k < i + |x| ensures !cls(s[k]) {
        assert s[k] == x[k - i];
      }
      CollapseRunsPlain(s, cls, rep, i, |x|);
    }
    ReplacePrefix(CollapseRunsFrom(s, cls, rep, i), s[i..i + |x|], x, CollapseRunsFrom(s, cls, rep, i + |x|));
  }

  /** A run of two or more characters of the class, from i up to j, becomes `rep`. */
  lemma CollapseRunsRunAt(s: string, cls: char -> bool, rep: string, i: nat, j: nat)
    requires |rep| > 0 && i + 2 <= j <= |s|
    requires forall k :: i <= k < j ==> cls(s[k])
    requires j == |s| || !cls(s[j])
    ensures CollapseRunsFrom(s, cls, rep, i) == rep + CollapseRunsFrom(s, cls, rep, j)
  {
    CollapseRunsRunStep(s, cls, rep, i);
    assert RunEnd(s, i, cls) == j;
  }

  /**
   * In a text with one run of two or more characters of the class and no other
   * character of it, the run becomes `rep` (lines 753, 772-775).
   */
  lemma CollapseRunsRun(a: string, run: string, b: string, cls: char -> bool, rep: string)
    requires |rep| > 0 && |run| >= 2
    requires forall k :: 0 <= k < |run| ==> cls(run[k])
    requires forall k :: 0 <= k < |a| ==> !cls(a[k])
    requires forall k :: 0 <= k < |b| ==> !cls(b[k])
    ensures CollapseRuns(a + run + b, cls, rep) == a + rep + b
  {
    var s := a + run + b;
    var i := |a|;
    var e := i + |run|;
    Split3(a, run, b);
    CollapseRunsPiece(s, cls, rep, 0, a);
    forall k | i <= k < e ensures cls(s[k]) {
      assert s[k] == run[k - i];
    }
    if e < |s| {
      assert s[e] == s[e..|s|][0];
    }
    CollapseRunsRunAt(s, cls, rep, i, e);
    CollapseRunsPiece(s, cls, rep, e, b);
    Assemble(a, rep, b, CollapseRunsFrom(s, cls, rep, |s|));
  }

  lemma ExpandCopyStep(s: string, abbr: string, word: string, i: nat)
    requires |abbr| > 0 && i < |s| && !AbbreviationAt(s, abbr, i)
    ensures ExpandFrom(s, abbr, word, i) == [s[i]] + ExpandFrom(s, abbr, word, i + 1)
  {
  }

  lemma ExpandMatchStep(s: string, abbr: string, word: string, i: nat, e: nat)
    requires |abbr| > 0 && AbbreviationAt(s, abbr, i) && e == i + |abbr|
    ensures ExpandFrom(s, abbr, word, i) == word + ExpandFrom(s, abbr, word, e)
  {
  }

  lemma {:induction false} ExpandPlain(s: string, abbr: string, word: string, i: nat, n: nat)
    requires |abbr| > 0 && i + n <= |s|
    requires forall k :: i <= k < i + n ==> !AbbreviationAt(s, abbr, k)
    ensures ExpandFrom(s, abbr, word, i) == s[i..i + n] + ExpandFrom(s, abbr, word, i + n)
    decreases n
  {
    if n > 0 {
      ExpandCopyStep(s, abbr, word, i);
      ExpandPlain(s, abbr, word, i + 1, n - 1);
      ConsPrefix(s, i, n, ExpandFrom(s, abbr, word, i), ExpandFrom(s, abbr, word, i + 1), ExpandFrom(s, abbr, word, i + n));
    } else {
      EmptyPrefix(s, i, n, ExpandFrom(s, abbr, word, i + n));
    }
  }

  /** The shape of the abbreviations of lines 759-768: word characters and '.', ending in '.'. */
  predicate AbbreviationShape(abbr: string) {
    && |abbr| > 0 && abbr[|abbr| - 1] == '.'
    && forall k :: 0 <= k < |abbr| ==> IsWordChar(abbr[k]) || abbr[k] == '.'
  }

  /** No abbreviation ending in '.' ends at a character other than '.'. */
  lemma NoAbbreviationBeforeNonDot(s: string, abbr: string, k: nat)
    requires |abbr| > 0 && abbr[|abbr| - 1] == '.' && k + |abbr| <= |s| && s[k + |abbr| - 1] != '.'
    ensures !AbbreviationAt(s, abbr, k)
  {
    if k + |abbr| < |s| {
      assert Lower(s[k..k + |abbr|])[|abbr| - 1] == LowerChar(s[k + |abbr| - 1]);
    }
  }

  /**
   * No abbreviation starts before m when no '.' comes before m and the
   * character at m - 1 is neither a word character nor '.': a match would
   * either end in a '.' before m or cover m - 1.
   */
  lemma NoAbbreviationBefore(s: string, abbr: string, k: nat, m: nat)
    requires AbbreviationShape(abbr) && k < m <= |s|
    requires forall j :: 0 <= j < m ==> s[j] != '.'
    requires !IsWordChar(s[m - 1])
    ensures !AbbreviationAt(s, abbr, k)
  {
    var n := |abbr|;
    if k + n < |s| {
      var l := Lower(s[k..k + n]);
      if k + n <= m {
        assert l[n - 1] == LowerChar(s[k + n - 1]);
      } else {
        assert l[m - 1 - k] == LowerChar(s[m - 1]);
        assert !IsWordChar(l[m - 1 - k]) && l[m - 1 - k] != '.';
      }
    }
  }

  /** The text before m is copied when it has no '.' and ends at a word boundary. */
  lemma ExpandPieceBefore(s: string, abbr: string, word: string, m: nat)
    requires AbbreviationShape(abbr) && m <= |s|
    requires forall j :: 0 <= j < m ==> s[j] != '.'
    requires m == 0 || !IsWordChar(s[m - 1])
    ensures ExpandFrom(s, abbr, word, 0) == s[0..m] + ExpandFrom(s, abbr, word, m)
  {
    forall k | 0 <= k < m ensures !AbbreviationAt(s, abbr, k) {
      NoAbbreviationBefore(s, abbr, k, m);
    }
    ExpandPlain(s, abbr, word, 0, m);
  }

  /** A text at the end of `s` without '.' is copied. */
  lemma ExpandPieceNoDot(s: string, abbr: string, word: string, i: nat, x: string)
    requires |abbr| > 0 && abbr[|abbr| - 1] == '.' && i + |x| == |s| && s[i..|s|] == x && '.' !in x
    ensures ExpandFrom(s, abbr, word, i) == x + ExpandFrom(s, abbr, word, |s|)
  {
    assert ExpandFrom(s, abbr, word, i) == s[i..i + |x|] + ExpandFrom(s, abbr, word, i + |x|) by {
      forall k | i <= k < |s| ensures s[k] != '.' {
        assert s[k] == x[k - i];
      }
      forall k | i <= k < |s| ensures !AbbreviationAt(s, abbr, k) {
        if k + |abbr| <= |s| {
          NoAbbreviationBeforeNonDot(s, abbr, k);
        }
      }
      ExpandPlain(s, abbr, word, i, |x|);
    }
    ReplacePrefix(ExpandFrom(s, abbr, word, i), s[i..i + |x|], x, ExpandFrom(s, abbr, word, i + |x|));
  }

  /** The abbreviation after a word boundary and before a word character matches. */
  lemma ExpandJoinMatches(a: string, x: string, b: string, abbr: string)
    requires |abbr| > 0 && Lower(x) == abbr
    requires a == [] || !IsWordChar(a[|a| - 1])
    requires b != [] && IsWordChar(b[0])
    ensures AbbreviationAt(a + x + b, abbr, |a|)
  {
    var s := a + x + b;
    var i := |a|;
    Split3(a, x, b);
    assert s[i + |x|] == b[0];
    if i > 0 {
      assert s[i - 1] == a[i - 1];
    }
  }

  /** The chaining behind `ExpandReplaces`, on positions in `s`. */
  lemma ExpandAround(s: string, a: string, b: string, abbr: string, word: string, i: nat, e: nat)
    requires AbbreviationShape(abbr)
    requires i == |a| && e == i + |abbr| && e + |b| == |s|
    requires s[0..i] == a && s[e..|s|] == b
    requires a == [] || !IsWordChar(a[|a| - 1])
    requires '.' !in a && '.' !in b && AbbreviationAt(s, abbr, i)
    ensures ExpandFrom(s, abbr, word, 0) == a + word + b
  {
    assert ExpandFrom(s, abbr, word, 0) == a + ExpandFrom(s, abbr, word, i) by {
      forall j | 0 <= j < i ensures s[j] != '.' {
        assert s[j] == a[j];
      }
      if i > 0 {
        assert s[i - 1] == a[i - 1];
      }
      ExpandPieceBefore(s, abbr, word, i);
    }
    assert ExpandFrom(s, abbr, word, i) == word + ExpandFrom(s, abbr, word, e) by {
      ExpandMatchStep(s, abbr, word, i, e);
    }
    assert ExpandFrom(s, abbr, word, e) == b + ExpandFrom(s, abbr, word, |s|) by {
      ExpandPieceNoDot(s, abbr, word, e, b);
    }
    Chain3(a, word, b, ExpandFrom(s, abbr, word, 0), ExpandFrom(s, abbr, word, i),
      ExpandFrom(s, abbr, word, e), ExpandFrom(s, abbr, word, |s|));
  }

  /**
   * An abbreviation in any letter case, at a word boundary on its left and
   * before a word character, becomes its word, and the text around it is kept
   * (lines 758-768). The text before it has no '.', so that no other
   * abbreviation ends there, and the text after it has no '.', so that no
   * other abbreviation starts there.
   */
  lemma ExpandReplaces(a: string, x: string, b: string, abbr: string, word: string)
    requires AbbreviationShape(abbr) && Lower(x) == abbr
    requires (a == [] || !IsWordChar(a[|a| - 1])) && '.' !in a
    requires b != [] && IsWordChar(b[0]) && '.' !in b
    ensures Expand(a + x + b, abbr, word) == a + word + b
  {
    var s := a + x + b;
    ExpandJoinMatches(a, x, b, abbr);
    assert |x| == |abbr|;
    Split3(a, x, b);
    ExpandAround(s, a, b, abbr, word, |a|, |a| + |x|);
  }

  /** "see Dr.Smith" is spoken as "see DoctorSmith": the match needs no space after it. */
  lemma DoctorAfterWord()
    ensures Expand("see Dr.Smith", "dr.", "Doctor") == "see DoctorSmith"
  {
    assert Lower("Dr.") == "dr." by {
      assert LowerChar('D') == 'd';
    }
    assert "see " + "Dr." + "Smith" == "see Dr.Smith";
    assert "see " + "Doctor" + "Smith" == "see DoctorSmith";
    ExpandReplaces("see ", "Dr.", "Smith", "dr.", "Doctor");
  }

  lemma SpaceBeforeCopyStep(s: string, mark: char, i: nat)
    requires i < |s| && !(IsSpace(s[i]) && RunEnd(s, i, IsSpace) < |s| && s[RunEnd(s, i, IsSpace)] == mark)
    ensures SpaceBeforeFrom(s, mark, i) == [s[i]] + SpaceBeforeFrom(s, mark, i + 1)
  {
  }

  lemma SpaceBeforeMoveStep(s: string, mark: char, i: nat)
    requires i < |s| && IsSpace(s[i]) && RunEnd(s, i, IsSpace) < |s| && s[RunEnd(s, i, IsSpace)] == mark
    ensures SpaceBeforeFrom(s, mark, i) == [mark, ' '] + SpaceBeforeFrom(s, mark, RunEnd(s, i, IsSpace) + 1)
  {
  }

  lemma {:induction false} SpaceBeforePlain(s: string, mark: char, i: nat, n: nat)
    requires i + n <= |s|
    requires forall k :: i <= k < i + n ==> !IsSpace(s[k])
    ensures SpaceBeforeFrom(s, mark, i) == s[i..i + n] + SpaceBeforeFrom(s, mark, i + n)
    decreases n
  {
    if n > 0 {
      SpaceBeforeCopyStep(s, mark, i);
      SpaceBeforePlain(s, mark, i + 1, n - 1);
      ConsPrefix(s, i, n, SpaceBeforeFrom(s, mark, i), SpaceBeforeFrom(s, mark, i + 1), SpaceBeforeFrom(s, mark, i + n));
    } else {
      EmptyPrefix(s, i, n, SpaceBeforeFrom(s, mark, i + n));
    }
  }

  /** Text with no whitespace directly before the mark is copied, whitespace included. */
  lemma {:induction false} SpaceBeforeNoMark(s: string, mark: char, i: nat)
    requires i <= |s|
    requires forall k :: i <= k < |s| - 1 ==> !(IsSpace(s[k]) && s[k + 1] == mark)
    ensures SpaceBeforeFrom(s, mark, i) == s[i..]
    decreases |s| - i
  {
    if i < |s| {
      var j := RunEnd(s, i, IsSpace);
      if IsSpace(s[i]) && j < |s| {
        assert IsSpace(s[j - 1]);
        assert s[j] != mark;
      }
      calc {
        SpaceBeforeFrom(s, mark, i);
        { SpaceBeforeCopyStep(s, mark, i); }
        [s[i]] + SpaceBeforeFrom(s, mark, i + 1);
        { SpaceBeforeNoMark(s, mark, i + 1); }
        [s[i]] + s[i + 1..];
        { SuffixCons(s, i); }
        s[i..];
      }
    }
  }

  /** Text without whitespace is copied. */
  lemma SpaceBeforePiece(s: string, mark: char, i: nat, x: string)
    requires i + |x| <= |s| && s[i..i + |x|] == x
    requires forall k :: 0 <= k < |x| ==> !IsSpace(x[k])
    ensures SpaceBeforeFrom(s, mark, i) == x + SpaceBeforeFrom(s, mark, i + |x|)
  {
    assert SpaceBeforeFrom(s, mark, i) == s[i..i + |x|] + SpaceBeforeFrom(s, mark, i + |x|) by {
      forall k | i <= k < i + |x| ensures !IsSpace(s[k]) {
        assert s[k] == x[k - i];
      }
      SpaceBeforePlain(s, mark, i, |x|);
    }
    ReplacePrefix(SpaceBeforeFrom(s, mark, i), s[i..i + |x|], x, SpaceBeforeFrom(s, mark, i + |x|));
  }

  /** Whitespace from i up to a mark at j becomes the mark and one space. */
  lemma SpaceBeforeMovesAt(s: string, mark: char, i: nat, j: nat)
    requires i < j < |s| && s[j] == mark && !IsSpace(mark)
    requires forall k :: i <= k < j ==> IsSpace(s[k])
    ensures SpaceBeforeFrom(s, mark, i) == [mark, ' '] + SpaceBeforeFrom(s, mark, j + 1)
  {
    assert RunEnd(s, i, IsSpace) == j;
    SpaceBeforeMoveStep(s, mark, i);
  }

  /** A whitespace run from i to the mark at e, then `b` up to the end. */
  lemma SpaceBeforeRest(s: string, b: string, mark: char, i: nat, e: nat)
    requires !IsSpace(mark) && i < e && |s| == e + 1 + |b|
    requires s[e] == mark && s[e + 1..e + 1 + |b|] == b
    requires forall k :: i <= k < e ==> IsSpace(s[k])
    requires forall k :: 0 <= k < |b| ==> !IsSpace(b[k])
    ensures SpaceBeforeFrom(s, mark, i) == [mark, ' '] + b
  {
    SpaceBeforeMovesAt(s, mark, i, e);
    SpaceBeforePiece(s, mark, e + 1, b);
    Assemble2([mark, ' '], b, SpaceBeforeFrom(s, mark, e + 1 + |b|));
  }

  /** The chaining behind `SpaceBeforeMoves`, on positions in `s`. */
  lemma SpaceBeforeAround(s: string, a: string, b: string, mark: char, i: nat, e: nat)
    requires !IsSpace(mark) && i == |a| && i < e && |s| == e + 1 + |b|
    requires s[0..0 + |a|] == a && s[e] == mark && s[e + 1..e + 1 + |b|] == b
    requires forall k :: i <= k < e ==> IsSpace(s[k])
    requires forall k :: 0 <= k < |a| ==> !IsSpace(a[k])
    requires forall k :: 0 <= k < |b| ==> !IsSpace(b[k])
    ensures SpaceBeforeFrom(s, mark, 0) == a + [mark, ' '] + b
  {
    SpaceBeforePiece(s, mark, 0, a);
    SpaceBeforeRest(s, b, mark, i, e);
    AppendAssoc(a, [mark, ' '], b);
  }

  /**
   * In a text whose only whitespace is one run before the mark, the run
   * becomes the mark followed by one space (lines 776-781).
   */
  lemma SpaceBeforeMoves(a: string, ws: string, b: string, mark: char)
    requires !IsSpace(mark) && ws != []
    requires forall k :: 0 <= k < |ws| ==> IsSpace(ws[k])
    requires forall k :: 0 <= k < |a| ==> !IsSpace(a[k])
    requires forall k :: 0 <= k < |b| ==> !IsSpace(b[k])
    ensures SpaceBefore(a + ws + [mark] + b, mark) == a + [mark, ' '] + b
  {
    var s := a + ws + [mark] + b;
    var i := |a|;
    var e := i + |ws|;
    Split4(a, ws, [mark], b);
    forall k | i <= k < e ensures IsSpace(s[k]) {
      assert s[k] == ws[k - i];
    }
    assert s[e] == s[e..e + 1][0];
    SpaceBeforeAround(s, a, b, mark, i, e);
  }

  lemma CollapseWhitespaceCopyStep(s: string, i: nat)
    requires i < |s| && !IsSpace(s[i])
    ensures CollapseWhitespaceFrom(s, i) == [s[i]] + CollapseWhitespaceFrom(s, i + 1)
  {
  }

  lemma CollapseWhitespaceRunStep(s: string, i: nat)
    requires i < |s| && IsSpace(s[i])
    ensures CollapseWhitespaceFrom(s, i) == " " + CollapseWhitespaceFrom(s, RunEnd(s, i, IsSpace))
  {
  }

  lemma {:induction false} CollapseWhitespacePlain(s: string, i: nat, n: nat)
    requires i + n <= |s|
    requires forall k :: i <= k < i + n ==> !IsSpace(s[k])
    ensures CollapseWhitespaceFrom(s, i) == s[i..i + n] + CollapseWhitespaceFrom(s, i + n)
    decreases n
  {
    if n > 0 {
      CollapseWhitespaceCopyStep(s, i);
      CollapseWhitespacePlain(s, i + 1, n - 1);
      ConsPrefix(s, i, n, CollapseWhitespaceFrom(s, i), CollapseWhitespaceFrom(s, i + 1), CollapseWhitespaceFrom(s, i + n));
    } else {
      EmptyPrefix(s, i, n, CollapseWhitespaceFrom(s, i + n));
    }
  }

  /** Text without whitespace is copied. */
  lemma CollapseWhitespacePiece(s: string, i: nat, x: string)
    requires i + |x| <= |s| && s[i..i + |x|] == x
    requires forall k :: 0 <= k < |x| ==> !IsSpace(x[k])
    ensures CollapseWhitespaceFrom(s, i) == x + CollapseWhitespaceFrom(s, i + |x|)
  {
    assert CollapseWhitespaceFrom(s, i) == s[i..i + |x|] + CollapseWhitespaceFrom(s, i + |x|) by {
      forall k | i <= k < i + |x| ensures !IsSpace(s[k]) {
        assert s[k] == x[k - i];
      }
      CollapseWhitespacePlain(s, i, |x|);
    }
    ReplacePrefix(CollapseWhitespaceFrom(s, i), s[i..i + |x|], x, CollapseWhitespaceFrom(s, i + |x|));
  }

  /** A run of whitespace from i up to j becomes one space (line 785). */
  lemma CollapseWhitespaceRunAt(s: string, i: nat, j: nat)
    requires i < j <= |s|
    requires forall k :: i <= k < j ==> IsSpace(s[k])
    requires j == |s| || !IsSpace(s[j])
    ensures CollapseWhitespaceFrom(s, i) == " " + CollapseWhitespaceFrom(s, j)
  {
    CollapseWhitespaceRunStep(s, i);
    assert RunEnd(s, i, IsSpace) == j;
  }

  /** The chaining behind `CollapseWhitespaceRun`, on positions in `s`. */
  lemma CollapseWhitespaceAround(s: string, a: string, b: string, i: nat, e: nat)
    requires i == |a| && i < e && |s| == e + |b|
    requires s[0..0 + |a|] == a && s[e..e + |b|] == b
    requires forall k :: i <= k < e ==> IsSpace(s[k])
    requires forall k :: 0 <= k < |a| ==> !IsSpace(a[k])
    requires forall k :: 0 <= k < |b| ==> !IsSpace(b[k])
    ensures CollapseWhitespaceFrom(s, 0) == a + " " + b
  {
    assert CollapseWhitespaceFrom(s, 0) == a + CollapseWhitespaceFrom(s, 0 + |a|) by {
      CollapseWhitespacePiece(s, 0, a);
    }
    assert CollapseWhitespaceFrom(s, i) == " " + CollapseWhitespaceFrom(s, e) by {
      if e < |s| {
        assert s[e] == s[e..e + |b|][0];
      }
      CollapseWhitespaceRunAt(s, i, e);
    }
    assert CollapseWhitespaceFrom(s, e) == b + CollapseWhitespaceFrom(s, e + |b|) by {
      CollapseWhitespacePiece(s, e, b);
    }
    Chain3(a, " ", b, CollapseWhitespaceFrom(s, 0), CollapseWhitespaceFrom(s, i),
      CollapseWhitespaceFrom(s, e), CollapseWhitespaceFrom(s, e + |b|));
  }

  /** In a text with one run of whitespace, the run becomes one space (line 785). */
  lemma CollapseWhitespaceRun(a: string, ws: string, b: string)
    requires ws != [] && forall k :: 0 <= k < |ws| ==> IsSpace(ws[k])
    requires forall k :: 0 <= k < |a| ==> !IsSpace(a[k])
    requires forall k :: 0 <= k < |b| ==> !IsSpace(b[k])
    ensures CollapseWhitespaceFrom(a + ws + b, 0) == a + " " + b
  {
    var s := a + ws + b;
    Split3(a, ws, b);
    forall k | |a| <= k < |a| + |ws| ensures IsSpace(s[k]) {
      assert s[k] == ws[k - |a|];
    }
    CollapseWhitespaceAround(s, a, b, |a|, |a| + |ws|);
  }

  /** The characters of `s` other than whitespace, in order. */
  function Visible(s: string): (r: string)
    ensures |r| <= |s|
  {
    if s == [] then [] else (if IsSpace(s[0]) then [] else [s[0]]) + Visible(s[1..])
  }

  lemma {:induction false} VisibleConcat(a: string, b: string)
    ensures Visible(a + b) == Visible(a) + Visible(b)
  {
    if a == [] {
      assert a + b == b;
    } else {
      assert (a + b)[0] == a[0];
      assert (a + b)[1..] == a[1..] + b;
      VisibleConcat(a[1..], b);
    }
  }

  lemma {:induction false} VisibleOfSpace(ws: string)
    requires forall k :: 0 <= k < |ws| ==> IsSpace(ws[k])
    ensures Visible(ws) == []
  {
    if ws != [] {
      VisibleOfSpace(ws[1..]);
    }
  }

  /** Whitespace in front of a text adds nothing visible. */
  lemma VisibleAfterSpace(ws: string, x: string)
    requires forall k :: 0 <= k < |ws| ==> IsSpace(ws[k])
    ensures Visible(ws + x) == Visible(x)
  {
    VisibleConcat(ws, x);
    VisibleOfSpace(ws);
    AppendEmpty(Visible(ws), Visible(x));
  }

  lemma VisibleCons(c: char, x: string)
    requires !IsSpace(c)
    ensures Visible([c] + x) == [c] + Visible(x)
  {
    assert ([c] + x)[0] == c;
    assert ([c] + x)[1..] == x;
  }

  /** Line 785 keeps every character other than whitespace, in order. */
  lemma {:induction false} CollapseWhitespaceVisible(s: string, i: nat)
    requires i <= |s|
    ensures Visible(CollapseWhitespaceFrom(s, i)) == Visible(s[i..])
    decreases |s| - i
  {
    if i == |s| {
      assert s[i..] == [];
    } else if IsSpace(s[i]) {
      var j := RunEnd(s, i, IsSpace);
      forall k | 0 <= k < j - i ensures IsSpace(s[i..j][k]) {
        assert s[i..j][k] == s[i + k];
      }
      calc {
        Visible(CollapseWhitespaceFrom(s, i));
        { CollapseWhitespaceRunStep(s, i); }
        Visible(" " + CollapseWhitespaceFrom(s, j));
        { VisibleAfterSpace(" ", CollapseWhitespaceFrom(s, j)); }
        Visible(CollapseWhitespaceFrom(s, j));
        { CollapseWhitespaceVisible(s, j); }
        Visible(s[j..]);
        { VisibleAfterSpace(s[i..j], s[j..]); }
        Visible(s[i..j] + s[j..]);
        { SuffixSplit(s, i, j); }
        Visible(s[i..]);
      }
    } else {
      calc {
        Visible(CollapseWhitespaceFrom(s, i));
        { CollapseWhitespaceCopyStep(s, i); }
        Visible([s[i]] + CollapseWhitespaceFrom(s, i + 1));
        { VisibleCons(s[i], CollapseWhitespaceFrom(s, i + 1)); }
        [s[i]] + Visible(CollapseWhitespaceFrom(s, i + 1));
        { CollapseWhitespaceVisible(s, i + 1); }
        [s[i]] + Visible(s[i + 1..]);
        { VisibleCons(s[i], s[i + 1..]); }
        Visible([s[i]] + s[i + 1..]);
        { SuffixCons(s, i); }
        Visible(s[i..]);
      }
    }
  }

  /** Lines 784-786 keep every character other than whitespace, in order. */
  lemma NormalizeKeepsVisible(s: string)
    ensures Visible(NormalizeWhitespace(s)) == Visible(s)
  {
    var c := CollapseWhitespaceFrom(s, 0);
    var a, b := TrimSpec(c);
    forall k | 0 <= k < a ensures IsSpace(c[..a][k]) {
      assert c[..a][k] == c[k];
    }
    forall k | 0 <= k < |c| - b ensures IsSpace(c[b..][k]) {
      assert c[b..][k] == c[b + k];
    }
    calc {
      Visible(s);
      { assert s[0..] == s; CollapseWhitespaceVisible(s, 0); }
      Visible(c);
      { assert c == c[..a] + (c[a..b] + c[b..]); }
      Visible(c[..a] + (c[a..b] + c[b..]));
      { VisibleAfterSpace(c[..a], c[a..b] + c[b..]); }
      Visible(c[a..b] + c[b..]);
      { VisibleConcat(c[a..b], c[b..]); VisibleOfSpace(c[b..]); }
      Visible(c[a..b]) + [];
      { assert Visible(c[a..b]) + [] == Visible(c[a..b]); }
      Visible(NormalizeWhitespace(s));
    }
  }

  /** Single-spaced text passes line 785 unchanged. */
  lemma {:induction false} CollapseSingleSpaced(s: string, i: nat)
    requires i <= |s| && SingleSpaced(s)
    ensures CollapseWhitespaceFrom(s, i) == s[i..]
    decreases |s| - i
  {
    if i == |s| {
      assert s[i..] == [];
    } else if IsSpace(s[i]) {
      assert s[i] == ' ';
      assert RunEnd(s, i, IsSpace) == i + 1 by {
        assert i + 1 < |s| ==> !(IsSpace(s[i]) && IsSpace(s[i + 1]));
      }
      calc {
        CollapseWhitespaceFrom(s, i);
        { CollapseWhitespaceRunStep(s, i); }
        " " + CollapseWhitespaceFrom(s, i + 1);
        { CollapseSingleSpaced(s, i + 1); }
        [s[i]] + s[i + 1..];
        { SuffixCons(s, i); }
        s[i..];
      }
    } else {
      calc {
        CollapseWhitespaceFrom(s, i);
        { CollapseWhitespaceCopyStep(s, i); }
        [s[i]] + CollapseWhitespaceFrom(s, i + 1);
        { CollapseSingleSpaced(s, i + 1); }
        [s[i]] + s[i + 1..];
        { SuffixCons(s, i); }
        s[i..];
      }
    }
  }

  /** Text that is already speakable passes lines 784-786 unchanged. */
  lemma NormalizeSpeakable(s: string)
    requires Speakable(s)
    ensures NormalizeWhitespace(s) == s
  {
    CollapseSingleSpaced(s, 0);
    assert s[0..] == s;
    TrimNoEdges(s);
  }

  /** Text with no opening character of a span passes the span step unchanged. */
  lemma StripDelimitedKeepsPlain(s: string, d: string, keepInner: bool, dotAll: bool)
    requires |d| > 0 && d[0] !in s
    ensures StripDelimited(s, d, keepInner, dotAll) == s
  {
    StripDelimitedPlain(s, d, keepInner, dotAll, 0, |s|);
    assert s[0..|s|] == s;
  }

  /** Text without '[' passes line 751 unchanged. */
  lemma StripLinksKeepsPlain(s: string)
    requires '[' !in s
    ensures StripLinks(s) == s
  {
    StripLinksPlain(s, 0, |s|);
    assert s[0..|s|] == s;
  }

  /** Text without '#' passes line 752 unchanged. */
  lemma StripHeadingsKeepsPlain(s: string)
    requires '#' !in s
    ensures StripHeadings(s) == s
  {
    StripHeadingsPlain(s, 0, |s|);
    assert s[0..|s|] == s;
  }

  /** Text with no two neighbouring characters of the class passes the run step unchanged. */
  lemma CollapseRunsKeepsPlain(s: string, cls: char -> bool, rep: string)
    requires |rep| > 0 && NoAdjacent(s, cls)
    ensures CollapseRuns(s, cls, rep) == s
  {
    forall k | 0 <= k < |s| ensures !RunStartsAt(s, cls, k) {
      if k + 1 < |s| {
        assert !(cls(s[k]) && cls(s[k + 1]));
      }
    }
    CollapseRunsPlain(s, cls, rep, 0, |s|);
    assert s[0..|s|] == s;
  }

  /** Text where no abbreviation starts passes its expansion unchanged. */
  lemma ExpandKeepsPlain(s: string, abbr: string, word: string)
    requires |abbr| > 0 && forall k :: 0 <= k < |s| ==> !AbbreviationAt(s, abbr, k)
    ensures Expand(s, abbr, word) == s
  {
    ExpandPlain(s, abbr, word, 0, |s|);
    assert s[0..|s|] == s;
  }

  /** Text with no whitespace directly before the mark passes its spacing step unchanged. */
  lemma SpaceBeforeKeepsPlain(s: string, mark: char)
    requires NoSpaceBefore(s, mark)
    ensures SpaceBefore(s, mark) == s
  {
    SpaceBeforeNoMark(s, mark, 0);
    assert s[0..] == s;
  }

  // ---------------------------------------------------------------------------
  // The whole of lines 741-789 on plain text and on single markdown constructs

  lemma UnmarkedConcat(a: string, b: string)
    requires Unmarked(a) && Unmarked(b)
    ensures Unmarked(a + b)
  {
    forall k | 0 <= k < |a + b| ensures !IsMarkupChar((a + b)[k]) && !IsLineTerminator((a + b)[k]) {
      if k < |a| {
        assert (a + b)[k] == a[k];
      } else {
        assert (a + b)[k] == b[k - |a|];
      }
    }
  }

  lemma UnmarkedParts(a: string, b: string)
    requires Unmarked(a + b)
    ensures Unmarked(a) && Unmarked(b)
  {
    forall k | 0 <= k < |a| ensures !IsMarkupChar(a[k]) && !IsLineTerminator(a[k]) {
      assert (a + b)[k] == a[k];
    }
    forall k | 0 <= k < |b| ensures !IsMarkupChar(b[k]) && !IsLineTerminator(b[k]) {
      assert (a + b)[|a| + k] == b[k];
    }
  }

  /** Unmarked text has none of the characters the markdown steps look for. */
  lemma UnmarkedHasNoMarkup(s: string)
    requires Unmarked(s)
    ensures forall k :: 0 <= k < |s| ==> !IsMarkupChar(s[k]) && s[k] != '\n'
    ensures '*' !in s && '`' !in s && '[' !in s && '#' !in s && '~' !in s && ']' !in s
  {
    forall k | 0 <= k < |s| ensures s[k] != '\n' {
      assert !IsLineTerminator(s[k]);
    }
  }

  /** Prose holds no markup and, being single-spaced, no line terminator. */
  lemma ProseUnmarked(s: string)
    requires Prose(s)
    ensures Unmarked(s)
  {
    forall k | 0 <= k < |s| ensures !IsLineTerminator(s[k]) {
      if IsLineTerminator(s[k]) {
        assert IsSpace(s[k]);
      }
    }
  }

  /** Prose passes lines 758-786 unchanged. */
  lemma ProseAfterMarkdown(t: string)
    requires Prose(t)
    ensures NormalizeWhitespace(SimplifyPunctuation(ExpandAbbreviations(t))) == t
  {
    PlainTextKeepsAbbreviations(t);
    CollapseRunsKeepsPlain(t, IsDot, ".");
    CollapseRunsKeepsPlain(t, IsBang, "!");
    CollapseRunsKeepsPlain(t, IsQuestion, "?");
    CollapseRunsKeepsPlain(t, IsClauseMark, ",");
    SpaceBeforeKeepsPlain(t, '.');
    SpaceBeforeKeepsPlain(t, '?');
    SpaceBeforeKeepsPlain(t, '!');
    SpaceBeforeKeepsPlain(t, ',');
    SpaceBeforeKeepsPlain(t, ';');
    SpaceBeforeKeepsPlain(t, ':');
    NormalizeSpeakable(t);
  }

  /** Prose is spoken exactly as written (lines 741-789). */
  lemma ProseSpokenAsIs(s: string)
    requires Prose(s)
    ensures ProcessForTts(s) == s
  {
    if s != "" {
      ProseUnmarked(s);
      UnmarkedHasNoMarkup(s);
      PlainTextKeepsMarkdown(s);
      ProseAfterMarkdown(s);
    }
  }

  lemma WordCharIsPlain(c: char)
    requires IsWordChar(c)
    ensures !IsMarkupChar(c) && !IsSpace(c) && !IsMark(c)
  {
  }

  /** A word followed by one punctuation mark is prose. */
  lemma WordAndMarkProse(w: string, m: char)
    requires forall k :: 0 <= k < |w| ==> IsWordChar(w[k])
    requires IsMark(m)
    ensures Prose(w + [m])
  {
    var s := w + [m];
    var n := |w|;
    forall k | 0 <= k < n ensures !IsMarkupChar(s[k]) && !IsSpace(s[k]) && !IsMark(s[k]) {
      assert s[k] == w[k];
      WordCharIsPlain(w[k]);
    }
    assert s[n] == m && !IsMarkupChar(m) && !IsSpace(m);
  }

  /** "Done!" is prose. */
  lemma DoneIsProse()
    ensures Prose("Done!")
  {
    var w := "Done";
    assert IsWordChar(w[0]) && IsWordChar(w[1]) && IsWordChar(w[2]) && IsWordChar(w[3]);
    WordAndMarkProse(w, '!');
    assert w + ['!'] == "Done!";
  }

  /** A pair condition holding inside `a` and inside `b` and at the joins holds in `a + " " + b`. */
  lemma JoinPairs(a: string, b: string, p: char -> bool, q: char -> bool)
    requires a != [] && b != []
    requires forall k :: 0 <= k < |a| - 1 ==> !(p(a[k]) && q(a[k + 1]))
    requires forall k :: 0 <= k < |b| - 1 ==> !(p(b[k]) && q(b[k + 1]))
    requires !(p(a[|a| - 1]) && q(' ')) && !(p(' ') && q(b[0]))
    ensures forall k :: 0 <= k < |a + " " + b| - 1 ==> !(p((a + " " + b)[k]) && q((a + " " + b)[k + 1]))
  {
    var s := a + " " + b;
    var n := |a|;
    forall k | 0 <= k < |s| - 1 ensures !(p(s[k]) && q(s[k + 1])) {
      if k < n - 1 {
        assert s[k] == a[k] && s[k + 1] == a[k + 1];
      } else if k == n - 1 {
        assert s[k] == a[n - 1] && s[k + 1] == ' ';
      } else if k == n {
        assert s[k] == ' ' && s[k + 1] == b[0];
      } else {
        assert s[k] == b[k - n - 1] && s[k + 1] == b[k - n];
      }
    }
  }

  /** Two pieces of prose joined by one space are prose, unless the second starts with a mark. */
  lemma ProseJoin(a: string, b: string)
    requires Prose(a) && Prose(b) && a != [] && b != [] && !IsMark(b[0])
    ensures Prose(a + " " + b)
  {
    var s := a + " " + b;
    var n := |a|;
    assert forall k :: 0 <= k < |s| ==> !IsMarkupChar(s[k]) && (IsSpace(s[k]) ==> s[k] == ' ') by {
      forall k | 0 <= k < |s| ensures !IsMarkupChar(s[k]) && (IsSpace(s[k]) ==> s[k] == ' ') {
        if k < n {
          assert s[k] == a[k];
        } else if k > n {
          assert s[k] == b[k - n - 1];
        }
      }
    }
    assert s[0] == a[0] && s[|s| - 1] == b[|b| - 1];
    JoinPairs(a, b, IsSpace, IsSpace);
    JoinPairs(a, b, IsDot, IsDot);
    JoinPairs(a, b, IsBang, IsBang);
    JoinPairs(a, b, IsQuestion, IsQuestion);
    JoinPairs(a, b, IsClauseMark, IsClauseMark);
    JoinPairs(a, b, IsSpace, IsMark);
    JoinPairs(a, b, IsDot, IsWordChar);
  }

  /** Three words, each followed by a mark, joined by single spaces, are prose. */
  lemma ThreeWordsProse(x: string, y: string, z: string, m1: char, m2: char, m3: char)
    requires forall k :: 0 <= k < |x| ==> IsWordChar(x[k])
    requires forall k :: 0 <= k < |y| ==> IsWordChar(y[k])
    requires forall k :: 0 <= k < |z| ==> IsWordChar(z[k])
    requires y != [] && z != [] && IsMark(m1) && IsMark(m2) && IsMark(m3)
    ensures Prose(x + [m1] + " " + (y + [m2] + " " + (z + [m3])))
  {
    var p1, p2, p3 := x + [m1], y + [m2], z + [m3];
    WordAndMarkProse(x, m1);
    WordAndMarkProse(y, m2);
    WordAndMarkProse(z, m3);
    assert p3[0] == z[0] && IsWordChar(z[0]);
    WordCharIsPlain(z[0]);
    ProseJoin(p2, p3);
    assert (p2 + " " + p3)[0] == y[0] && IsWordChar(y[0]);
    WordCharIsPlain(y[0]);
    ProseJoin(p1, p2 + " " + p3);
  }

  /** "Yes, done. Thanks!" is prose. */
  lemma SentencesAreProse()
    ensures Prose("Yes, done. Thanks!")
  {
    var yes, done, thanks := "Yes", "done", "Thanks";
    assert forall k :: 0 <= k < |yes| ==> IsWordChar(yes[k]) by {
      assert yes[0] == 'Y' && yes[1] == 'e' && yes[2] == 's';
    }
    assert forall k :: 0 <= k < |done| ==> IsWordChar(done[k]) by {
      assert done[0] == 'd' && done[1] == 'o' && done[2] == 'n' && done[3] == 'e';
    }
    assert forall k :: 0 <= k < |thanks| ==> IsWordChar(thanks[k]) by {
      assert thanks[0] == 'T' && thanks[1] == 'h' && thanks[2] == 'a';
      assert thanks[3] == 'n' && thanks[4] == 'k' && thanks[5] == 's';
    }
    SentenceSplits();
    ThreeWordsProse(yes, done, thanks, ',', '.', '!');
  }

  lemma SentenceSplits()
    ensures "Yes" + [','] + " " + ("done" + ['.'] + " " + ("Thanks" + ['!'])) == "Yes, done. Thanks!"
  {
  }

  /** A reply in ordinary sentences, "Yes, done. Thanks!", is spoken unchanged. */
  lemma SentencesSpokenAsIs()
    ensures ProcessForTts("Yes, done. Thanks!") == "Yes, done. Thanks!"
  {
    SentencesAreProse();
    ProseSpokenAsIs("Yes, done. Thanks!");
  }

  /** `a**w**b` is spoken as `a w b` joined: the bold markers go, the text stays (line 748). */
  lemma BoldSpokenAsText(a: string, w: string, b: string)
    requires Prose(a + w + b)
    ensures ProcessForTts(a + "**" + w + "**" + b) == a + w + b
  {
    var t := a + w + b;
    ProseUnmarked(t);
    UnmarkedParts(a + w, b);
    UnmarkedParts(a, w);
    UnmarkedHasNoMarkup(a);
    UnmarkedHasNoMarkup(w);
    UnmarkedHasNoMarkup(b);
    StripDelimitedSpan(a, w, b, "**", true, false);
    assert Kept(true, w) == w;
    UnmarkedHasNoMarkup(t);
    PlainTextKeepsMarkdown(t);
    ProseAfterMarkdown(t);
  }

  /** The reply "**Done!**" is spoken as "Done!". */
  lemma BoldDoneSpoken()
    ensures ProcessForTts("**Done!**") == "Done!"
  {
    var w := "Done!";
    assert "" + w + "" == w;
    assert "" + "**" + w + "**" + "" == "**Done!**";
    DoneIsProse();
    BoldSpokenAsText("", w, "");
  }

  /** `a`w`b` is spoken with the backticks gone (line 750). */
  lemma InlineCodeSpokenAsText(a: string, w: string, b: string)
    requires Prose(a + w + b)
    ensures ProcessForTts(a + "`" + w + "`" + b) == a + w + b
  {
    var s := a + "`" + w + "`" + b;
    var t := a + w + b;
    ProseUnmarked(t);
    UnmarkedParts(a + w, b);
    UnmarkedParts(a, w);
    UnmarkedHasNoMarkup(a);
    UnmarkedHasNoMarkup(w);
    UnmarkedHasNoMarkup(b);
    StripDelimitedKeepsPlain(s, "**", true, false);
    StripDelimitedKeepsPlain(s, "*", true, false);
    StripDelimitedSpan(a, w, b, "`", true, false);
    assert Kept(true, w) == w;
    UnmarkedHasNoMarkup(t);
    PlainTextKeepsMarkdown(t);
    ProseAfterMarkdown(t);
  }

  /** `a~~w~~b` is spoken with the strikethrough markers gone and the text kept (line 755). */
  lemma StrikeSpokenAsText(a: string, w: string, b: string)
    requires Prose(a + w + b)
    ensures ProcessForTts(a + "~~" + w + "~~" + b) == a + w + b
  {
    var s := a + "~~" + w + "~~" + b;
    var t := a + w + b;
    ProseUnmarked(t);
    UnmarkedParts(a + w, b);
    UnmarkedParts(a, w);
    UnmarkedHasNoMarkup(a);
    UnmarkedHasNoMarkup(w);
    UnmarkedHasNoMarkup(b);
    StripDelimitedKeepsPlain(s, "**", true, false);
    StripDelimitedKeepsPlain(s, "*", true, false);
    StripDelimitedKeepsPlain(s, "`", true, false);
    StripLinksKeepsPlain(s);
    StripHeadingsKeepsPlain(s);
    NewlineFreeNoAdjacent(s);
    CollapseRunsKeepsPlain(s, IsNewline, "\n\n");
    StripDelimitedKeepsPlain(s, "```", false, true);
    StripDelimitedSpan(a, w, b, "~~", true, false);
    assert Kept(true, w) == w;
    ProseAfterMarkdown(t);
  }

  lemma NewlineFreeNoAdjacent(s: string)
    requires '\n' !in s
    ensures NoAdjacent(s, IsNewline)
  {
    forall k | 0 <= k < |s| - 1 ensures !IsNewline(s[k]) {
      assert s[k] in s;
    }
  }

  /**
   * `a[l](u)b` is spoken as `a l b` joined: the link keeps its label and loses
   * its target (line 751); the target may hold any character but '*', '`',
   * ')' and line terminators.
   */
  lemma LinkSpokenAsLabel(a: string, l: string, u: string, b: string)
    requires Prose(a + l + b)
    requires forall k :: 0 <= k < |u| ==> u[k] != '*' && u[k] != '`' && u[k] != ')' && !IsLineTerminator(u[k])
    ensures ProcessForTts(a + "[" + l + "](" + u + ")" + b) == a + l + b
  {
    var s := a + "[" + l + "](" + u + ")" + b;
    var t := a + l + b;
    ProseUnmarked(t);
    UnmarkedParts(a + l, b);
    UnmarkedParts(a, l);
    UnmarkedHasNoMarkup(a);
    UnmarkedHasNoMarkup(l);
    UnmarkedHasNoMarkup(b);
    assert '*' !in u && '`' !in u && ')' !in u;
    StripDelimitedKeepsPlain(s, "**", true, false);
    StripDelimitedKeepsPlain(s, "*", true, false);
    StripDelimitedKeepsPlain(s, "`", true, false);
    StripLinksLabel(a, l, u, b);
    UnmarkedHasNoMarkup(t);
    PlainTextKeepsMarkdown(t);
    ProseAfterMarkdown(t);
  }

  /** The characters of `b` are the whitespace the heading step takes, then those of `AfterMarker(b)`. */
  lemma AfterMarkerUnmarked(b: string)
    requires Unmarked(AfterMarker(b))
    ensures '*' !in b && '`' !in b && '[' !in b && '#' !in b
  {
    forall k | 0 <= k < |b| ensures !IsMarkupChar(b[k]) {
      if b != [] && IsSpace(b[0]) {
        if k > 0 {
          assert b[k] == AfterMarker(b)[k - 1];
        }
      } else {
        assert b[k] == AfterMarker(b)[k];
      }
    }
  }

  /**
   * A heading marker of one to six '#' is removed with one whitespace
   * character after it, and the heading text is spoken (line 752).
   */
  lemma HeadingSpokenAsText(a: string, n: nat, b: string)
    requires 1 <= n <= 6 && Prose(a + AfterMarker(b))
    ensures ProcessForTts(a + Hashes(n) + b) == a + AfterMarker(b)
  {
    var s := a + Hashes(n) + b;
    var t := a + AfterMarker(b);
    ProseUnmarked(t);
    UnmarkedParts(a, AfterMarker(b));
    UnmarkedHasNoMarkup(a);
    AfterMarkerUnmarked(b);
    assert '*' !in Hashes(n) && '`' !in Hashes(n) && '[' !in Hashes(n);
    StripDelimitedKeepsPlain(s, "**", true, false);
    StripDelimitedKeepsPlain(s, "*", true, false);
    StripDelimitedKeepsPlain(s, "`", true, false);
    StripLinksKeepsPlain(s);
    StripHeading(a, n, b);
    UnmarkedHasNoMarkup(t);
    PlainTextKeepsMarkdown(t);
    ProseAfterMarkdown(t);
  }

  // ---------------------------------------------------------------------------
  // Fenced code blocks (lines 750 and 754)

  /** The shape of "```" + w + "```" as indices. */
  predicate Fenced(s: string, w: string) {
    && |s| == |w| + 6 && s[3..|w| + 3] == w
    && s[0] == '`' && s[1] == '`' && s[2] == '`'
    && s[|w| + 3] == '`' && s[|w| + 4] == '`' && s[|w| + 5] == '`'
  }

  lemma FencedShape(w: string)
    ensures Fenced("```" + w + "```", w)
  {
    var s := "```" + w + "```";
    Split3("```", w, "```");
    assert s[|w| + 3..|s|] == "```";
    assert s[|w| + 3] == s[|w| + 3..|s|][0];
    assert s[|w| + 4] == s[|w| + 3..|s|][1];
    assert s[|w| + 5] == s[|w| + 3..|s|][2];
  }

  /** Line 750 at "``": an empty inline span, dropped. */
  lemma InlineCodeEmptyAt(s: string, i: nat)
    requires i + 2 <= |s| && s[i] == '`' && s[i + 1] == '`'
    ensures StripDelimitedFrom(s, "`", true, false, i) == StripDelimitedFrom(s, "`", true, false, i + 2)
  {
    assert StartsAt(s, i + 1, "`");
    assert FindClose(s, "`", i + 1, false) == Some(i + 1);
    StripDelimitedSpanStep(s, "`", true, false, i, []);
  }

  /** Line 750 at a backtick with a line end before any further backtick: copied. */
  lemma InlineCodeUnclosedAt(s: string, i: nat, m: nat)
    requires i < m < |s| && s[i] == '`' && IsLineTerminator(s[m])
    requires forall k :: i < k <= m ==> s[k] != '`'
    ensures StripDelimitedFrom(s, "`", true, false, i) == "`" + StripDelimitedFrom(s, "`", true, false, i + 1)
  {
    forall k | i + 1 <= k <= m ensures !StartsAt(s, k, "`") {
      assert s[k + 0] != "`"[0];
    }
    FindCloseStopsAtLine(s, "`", i + 1, m);
    StripDelimitedCopyStep(s, "`", true, false, i);
  }

  /** Line 750 at a last backtick: nothing closes it. */
  lemma InlineCodeLastAt(s: string)
    requires |s| > 0 && s[|s| - 1] == '`'
    ensures StripDelimitedFrom(s, "`", true, false, |s| - 1) == "`"
  {
    assert FindClose(s, "`", |s|, false) == None;
    StripDelimitedCopyStep(s, "`", true, false, |s| - 1);
  }

  /** Line 750 copies the third backtick of a block whose body has a line end. */
  lemma InlineCodeAfterOpening(s: string, w: string, m: nat)
    requires Fenced(s, w) && '`' !in w && m < |w| && IsLineTerminator(w[m])
    ensures StripDelimitedFrom(s, "`", true, false, 2) == "`" + StripDelimitedFrom(s, "`", true, false, 3)
  {
    forall k | 2 < k <= m + 3 ensures s[k] != '`' {
      assert s[3..|w| + 3][k - 3] == s[k];
    }
    assert s[m + 3] == s[3..|w| + 3][m];
    InlineCodeUnclosedAt(s, 2, m + 3);
  }

  /** As written, line 750 turns a block whose body spans lines into the body between single backticks. */
  lemma InlineCodeOnFence(s: string, w: string, m: nat)
    requires Fenced(s, w) && '`' !in w && m < |w| && IsLineTerminator(w[m])
    ensures StripDelimited(s, "`", true, false) == "`" + w + "`"
  {
    var n := |w|;
    calc {
      StripDelimited(s, "`", true, false);
      StripDelimitedFrom(s, "`", true, false, 0);
      { InlineCodeEmptyAt(s, 0); }
      StripDelimitedFrom(s, "`", true, false, 2);
      { InlineCodeAfterOpening(s, w, m); }
      "`" + StripDelimitedFrom(s, "`", true, false, 3);
      { StripDelimitedPiece(s, "`", true, false, 3, w); }
      "`" + (w + StripDelimitedFrom(s, "`", true, false, n + 3));
      { InlineCodeEmptyAt(s, n + 3); }
      "`" + (w + StripDelimitedFrom(s, "`", true, false, n + 5));
      { InlineCodeLastAt(s); }
      "`" + (w + "`");
      { AppendAssoc("`", w, "`"); }
      "`" + w + "`";
    }
  }

  /** Line 754 finds no "```" in the body between single backticks. */
  lemma FenceStepKeepsBackticks(w: string)
    requires w != [] && '`' !in w
    ensures StripDelimited("`" + w + "`", "```", false, true) == "`" + w + "`"
  {
    var t := "`" + w + "`";
    var n := |w|;
    Split3("`", w, "`");
    assert t[1] == w[0];
    assert !StartsAt(t, 0, "```") by {
      assert t[0 + 1] != "```"[1];
    }
    StripDelimitedCopyStep(t, "```", false, true, 0);
    StripDelimitedPiece(t, "```", false, true, 1, w);
    assert !StartsAt(t, n + 1, "```");
    StripDelimitedCopyStep(t, "```", false, true, n + 1);
    assert t[0] == '`' && t[n + 1] == '`';
    calc {
      StripDelimited(t, "```", false, true);
      "`" + (w + ("`" + StripDelimitedFrom(t, "```", false, true, n + 2)));
      { Assemble("`", w, "`", StripDelimitedFrom(t, "```", false, true, n + 2)); }
      t;
    }
  }

  /**
   * As written, a fenced code block whose body spans lines is not removed:
   * line 750 takes "``" at each end as an empty inline span, and line 754 then
   * finds no fence; the body is kept between two single backticks.
   */
  lemma FencedCodeKept(w: string, m: nat)
    requires m < |w| && IsLineTerminator(w[m]) && NoAdjacent(w, IsNewline)
    requires forall k :: 0 <= k < |w| ==> !IsMarkupChar(w[k])
    ensures StripMarkdown("```" + w + "```") == "`" + w + "`"
  {
    var s := "```" + w + "```";
    var t := "`" + w + "`";
    assert '*' !in w && '`' !in w && '[' !in w && '#' !in w && '~' !in w;
    StripDelimitedKeepsPlain(s, "**", true, false);
    StripDelimitedKeepsPlain(s, "*", true, false);
    FencedShape(w);
    InlineCodeOnFence(s, w, m);
    StripLinksKeepsPlain(t);
    StripHeadingsKeepsPlain(t);
    ConcatKeepsApart("`", w, IsNewline);
    ConcatKeepsApart("`" + w, "`", IsNewline);
    CollapseRunsKeepsPlain(t, IsNewline, "\n\n");
    FenceStepKeepsBackticks(w);
    StripDelimitedKeepsPlain(t, "~~", true, false);
  }

  /**
   * With the code-block step first, a fenced block is removed whole, whatever
   * its body holds besides backticks, and the text around it is kept.
   */
  lemma FencedCodeRemoved(a: string, w: string, b: string)
    requires Unmarked(a) && Unmarked(b) && '`' !in w
    ensures StripMarkdownCorrected(a + "```" + w + "```" + b) == a + b
  {
    UnmarkedHasNoMarkup(a);
    UnmarkedHasNoMarkup(b);
    StripDelimitedSpan(a, w, b, "```", false, true);
    assert Kept(false, w) == [];
    assert a + [] + b == a + b;
    UnmarkedConcat(a, b);
    UnmarkedHasNoMarkup(a + b);
    PlainTextKeepsMarkdown(a + b);
  }

  // ---------------------------------------------------------------------------
  // Marks brought together by the spacing steps (lines 776-781)

  /** Dots and spaces pass the markdown and abbreviation steps unchanged. */
  lemma DotsAndSpacesArePlain(s: string)
    requires forall k :: 0 <= k < |s| ==> s[k] == '.' || s[k] == ' '
    ensures StripMarkdown(s) == s && StripMarkdownCorrected(s) == s && ExpandAbbreviations(s) == s
  {
    PlainTextKeepsMarkdown(s);
    PlainTextKeepsAbbreviations(s);
  }

  /** For dots and spaces only the punctuation and whitespace steps act. */
  lemma DotsAndSpacesProcessed(s: string)
    requires s != [] && forall k :: 0 <= k < |s| ==> s[k] == '.' || s[k] == ' '
    ensures ProcessForTts(s) == NormalizeWhitespace(SimplifyPunctuation(s))
  {
    DotsAndSpacesArePlain(s);
  }

  lemma DotsAndSpacesProcessedCorrected(s: string)
    requires s != [] && forall k :: 0 <= k < |s| ==> s[k] == '.' || s[k] == ' '
    ensures ProcessForTtsCorrected(s) == NormalizeWhitespace(SimplifyPunctuationCorrected(s))
  {
    DotsAndSpacesArePlain(s);
  }

  /** Lines 772-775 see no run in ". .": the two dots are apart. */
  lemma SpacedDotsNotCollapsed()
    ensures CollapsePunctuation(". .") == ". ."
  {
    var s := ". .";
    assert forall k :: 0 <= k < |s| - 1 ==> s[k] == ' ' || s[k + 1] == ' ';
    CollapseRunsKeepsPlain(s, IsDot, ".");
    CollapseRunsKeepsPlain(s, IsBang, "!");
    CollapseRunsKeepsPlain(s, IsQuestion, "?");
    CollapseRunsKeepsPlain(s, IsClauseMark, ",");
  }

  /** Line 776 moves the space behind the second dot, joining the two dots. */
  lemma SpaceBeforeDotJoins()
    ensures SpaceBefore(". .", '.') == ".. "
  {
    assert RunEnd(". .", 1, IsSpace) == 2;
    assert SpaceBeforeFrom(". .", '.', 3) == "";
  }

  lemma SpacingJoinsDots()
    ensures SpacePunctuation(". .") == ".. "
  {
    SpaceBeforeDotJoins();
    var s := ".. ";
    assert forall k :: 0 <= k < |s| ==> s[k] == '.' || s[k] == ' ';
    SpaceBeforeKeepsPlain(s, '?');
    SpaceBeforeKeepsPlain(s, '!');
    SpaceBeforeKeepsPlain(s, ',');
    SpaceBeforeKeepsPlain(s, ';');
    SpaceBeforeKeepsPlain(s, ':');
  }

  lemma SimplifyJoinsDots()
    ensures SimplifyPunctuation(". .") == ".. "
  {
    SpacedDotsNotCollapsed();
    SpacingJoinsDots();
  }

  lemma TrailingSpaceTrimmed()
    ensures NormalizeWhitespace(".. ") == ".."
  {
    assert RunEnd(".. ", 2, IsSpace) == 3;
    assert CollapseWhitespaceFrom(".. ", 2) == " ";
    assert TrimEnd(".. ") == "..";
  }

  /** As written, ". ." is spoken as "..": two adjacent dots survive lines 770-786. */
  lemma ProcessJoinsDots()
    ensures ProcessForTts(". .") == ".."
  {
    DotsAndSpacesProcessed(". .");
    SimplifyJoinsDots();
    TrailingSpaceTrimmed();
  }

  lemma DoubleDotSimplified()
    ensures SimplifyPunctuation("..") == "."
  {
    assert RunEnd("..", 0, IsDot) == 2;
    assert CollapsePunctuation("..") == ".";
  }

  lemma SingleDotNormalized()
    ensures NormalizeWhitespace(".") == "."
  {
    assert CollapseWhitespaceFrom(".", 0) == ".";
    assert TrimStart(".") == "." && TrimEnd(".") == ".";
  }

  lemma DoubleDotCollapsed()
    ensures ProcessForTts("..") == "."
  {
    DotsAndSpacesProcessed("..");
    DoubleDotSimplified();
    SingleDotNormalized();
  }

  /** As written, a second pass changes the output again: the function is not idempotent. */
  lemma ProcessNotIdempotent()
    ensures ProcessForTts(ProcessForTts(". .")) != ProcessForTts(". .")
  {
    ProcessJoinsDots();
    DoubleDotCollapsed();
  }

  lemma JoinedDotsCollapsed()
    ensures CollapsePunctuation(".. ") == ". "
  {
    assert RunEnd(".. ", 0, IsDot) == 2;
    var s := ". ";
    assert s[1] == ' ';
    CollapseRunsKeepsPlain(s, IsBang, "!");
    CollapseRunsKeepsPlain(s, IsQuestion, "?");
    CollapseRunsKeepsPlain(s, IsClauseMark, ",");
  }

  lemma CorrectedSimplifyCollapses()
    ensures SimplifyPunctuationCorrected(". .") == ". "
  {
    SpacedDotsNotCollapsed();
    SpacingJoinsDots();
    JoinedDotsCollapsed();
  }

  lemma TrailingSpaceAfterDotTrimmed()
    ensures NormalizeWhitespace(". ") == "."
  {
    assert RunEnd(". ", 1, IsSpace) == 2;
    assert CollapseWhitespaceFrom(". ", 1) == " ";
    assert TrimEnd(". ") == ".";
  }

  /** With the collapse repeated after the spacing, ". ." is spoken as a single dot. */
  lemma CorrectedCollapsesJoinedDots()
    ensures ProcessForTtsCorrected(". .") == "."
  {
    DotsAndSpacesProcessedCorrected(". .");
    CorrectedSimplifyCollapses();
    TrailingSpaceAfterDotTrimmed();
  }
}
