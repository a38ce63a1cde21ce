/** Reading-time estimation (app/composables/useReadingTime.ts): markup is
    stripped in a fixed order, the remaining white-space separated tokens
    are counted, and the count is divided by the reading speed, rounding
    up. Also the word counting and ceiling shared with the cruder estimator
    of app/utils/blog.ts. */
module ReadingTime {
  import opened Strings
  import opened Patterns
  import opened Wrappers

  const DefaultWordsPerMinute: nat := 200

  /** `Math.ceil(a / b)` for a non-negative count and a positive divisor. */
  function CeilDiv(a: nat, b: nat): (r: nat)
    requires b > 0
    ensures r * b >= a
    ensures r > 0 ==> (r - 1) * b < a
    ensures r == 0 <==> a == 0
  {
    (a + b - 1) / b
  }

  // ---------------------------------------------------------------------
  // Counting words

  /** Reference word count: the number of places where a non-space
      character follows a space or the start of the text (`prevSpace`
      says whether the text so far ended in space). */
  function WordsAfter(s: String, prevSpace: bool): nat {
    if s == [] then 0
    else (if prevSpace && !IsSpace(s[0]) then 1 else 0) + WordsAfter(s[1..], IsSpace(s[0]))
  }

  /** The number of maximal runs of non-white-space characters. */
  function WordCount(s: String): nat {
    WordsAfter(s, true)
  }

  /** Whether the text `a`, read after a text ending in space when
      `prevSpace`, ends in space. */
  function EndsInSpace(a: String, prevSpace: bool): bool {
    if a == [] then prevSpace else IsSpace(a[|a| - 1])
  }

  lemma {:induction false} WordsAfterAppend(a: String, b: String, p: bool)
    ensures WordsAfter(a + b, p) == WordsAfter(a, p) + WordsAfter(b, EndsInSpace(a, p))
  {
    if a == [] {
      assert a + b == b;
    } else {
      assert (a + b)[1..] == a[1..] + b;
      WordsAfterAppend(a[1..], b, IsSpace(a[0]));
      if |a| > 1 {
        assert a[1..][|a[1..]| - 1] == a[|a| - 1];
      }
    }
  }

  lemma {:induction false} WordsAfterAllSpace(a: String, p: bool)
    requires forall i :: 0 <= i < |a| ==> IsSpace(a[i])
    ensures WordsAfter(a, p) == 0
  {
    if a != [] {
      WordsAfterAllSpace(a[1..], true);
    }
  }

  lemma {:induction false} WordsAfterNoSpace(a: String, p: bool)
    requires forall i :: 0 <= i < |a| ==> !IsSpace(a[i])
    ensures WordsAfter(a, p) == (if a != [] && p then 1 else 0)
  {
    if a != [] {
      WordsAfterNoSpace(a[1..], false);
    }
  }

  /** Index of the first white-space character. */
  function FirstSpace(s: String): (i: nat)
    requires exists k :: 0 <= k < |s| && IsSpace(s[k])
    ensures i < |s| && IsSpace(s[i])
    ensures forall k :: 0 <= k < i ==> !IsSpace(s[k])
  {
    if IsSpace(s[0]) then 0
    else
      assert exists k :: 0 <= k < |s[1..]| && IsSpace(s[1..][k]) by {
        var k :| 0 <= k < |s| && IsSpace(s[k]);
        assert s[1..][k - 1] == s[k];
      }
      1 + FirstSpace(s[1..])
  }

  predicate HasSpace(s: String) {
    exists k :: 0 <= k < |s| && IsSpace(s[k])
  }

  /** `s.split(/\s+/)`: the pieces between maximal white-space runs,
      including an empty piece before a leading run and after a trailing
      one. */
  function SplitSpaces(s: String): (r: seq<String>)
    ensures |r| >= 1
    ensures forall j :: 0 <= j < |r| ==> forall k :: 0 <= k < |r[j]| ==> !IsSpace(r[j][k])
    decreases |s|
  {
    if !HasSpace(s) then [s]
    else
      var i := FirstSpace(s);
      var j := i + LeadingSpaces(s[i..]);
      [s[..i]] + SplitSpaces(s[j..])
  }

  /** One step of the split: a space-free head, a white-space run, and the
      rest of the text. */
  lemma {:induction false} WordsOfSplitStep(a: String, w: String, b: String)
    requires forall k :: 0 <= k < |a| ==> !IsSpace(a[k])
    requires w != [] && forall k :: 0 <= k < |w| ==> IsSpace(w[k])
    ensures WordCount(a + w + b) == (if a != [] then 1 else 0) + WordCount(b)
  {
    WordsAfterAppend(a + w, b, true);
    WordsAfterAppend(a, w, true);
    WordsAfterNoSpace(a, true);
    WordsAfterAllSpace(w, EndsInSpace(a, true));
    assert EndsInSpace(a + w, true);
  }

  /** The first step of a split of a text with white space: its head
      before the first white-space run, the run, and the rest. */
  lemma {:induction false} SplitStep(s: String)
    requires HasSpace(s)
    ensures var i := FirstSpace(s);
            var j := i + LeadingSpaces(s[i..]);
            && i < j <= |s|
            && (forall k :: i <= k < j ==> IsSpace(s[k]))
            && (j < |s| ==> !IsSpace(s[j]))
  {
    var i := FirstSpace(s);
    var t := s[i..];
    var n := LeadingSpaces(t);
    assert t[0] == s[i];
    forall k | i <= k < i + n
      ensures IsSpace(s[k])
    {
      assert s[k] == t[k - i];
    }
    if i + n < |s| {
      assert s[i + n] == t[n];
    }
  }

  lemma {:induction false} SplitSpacesStep(s: String)
    requires HasSpace(s)
    ensures var i := FirstSpace(s);
            SplitSpaces(s) == [s[..i]] + SplitSpaces(s[i + LeadingSpaces(s[i..])..])
  {
  }

  /** The first piece of a split and the run after it. */
  lemma {:induction false} SplitStepParts(s: String)
    requires HasSpace(s)
    ensures var i := FirstSpace(s);
            var j := i + LeadingSpaces(s[i..]);
            && i < j <= |s|
            && s == s[..i] + s[i..j] + s[j..]
            && (forall k :: 0 <= k < |s[i..j]| ==> IsSpace(s[i..j][k]))
            && SplitSpaces(s) == [s[..i]] + SplitSpaces(s[j..])
  {
    SplitStep(s);
    SplitSpacesStep(s);
    var i := FirstSpace(s);
    var j := i + LeadingSpaces(s[i..]);
    var w := s[i..j];
    forall k | 0 <= k < |w|
      ensures IsSpace(w[k])
    {
      assert w[k] == s[i + k];
    }
    assert s == s[..i] + w + s[j..];
  }

  /** The split-and-filter count the source computes is the reference
      word count. */
  lemma {:induction false} SplitCountsWords(s: String)
    ensures |NonEmpty(SplitSpaces(s))| == WordCount(s)
    decreases |s|
  {
    if !HasSpace(s) {
      WordsAfterNoSpace(s, true);
    } else {
      SplitStepParts(s);
      var i := FirstSpace(s);
      var j := i + LeadingSpaces(s[i..]);
      var a, w, b := s[..i], s[i..j], s[j..];
      WordsOfSplitStep(a, w, b);
      SplitCountsWords(b);
      NonEmptyAppend([a], SplitSpaces(b));
    }
  }

  /** White space around a text adds no words. */
  lemma {:induction false} WordsPadded(lead: String, t: String, trail: String)
    requires forall k :: 0 <= k < |lead| ==> IsSpace(lead[k])
    requires forall k :: 0 <= k < |trail| ==> IsSpace(trail[k])
    ensures WordCount(lead + t + trail) == WordCount(t)
  {
    WordsAfterAppend(lead + t, trail, true);
    WordsAfterAppend(lead, t, true);
    WordsAfterAllSpace(lead, true);
    WordsAfterAllSpace(trail, EndsInSpace(lead + t, true));
  }

  /** Trimming does not change the word count. */
  lemma {:induction false} TrimKeepsWords(s: String)
    ensures WordCount(Trim(s)) == WordCount(s)
  {
    var t := Trim(s);
    var a := LeadingSpaces(s);
    assert s == s[..a] + t + s[a + |t|..];
    WordsPadded(s[..a], t, s[a + |t|..]);
  }

  /** A text with no white space at either end splits into exactly its
      words: no empty piece at either end. */
  lemma {:induction false} SplitTrimmedCountsWords(t: String)
    requires t != [] && !IsSpace(t[0]) && !IsSpace(t[|t| - 1])
    ensures |SplitSpaces(t)| == WordCount(t)
    decreases |t|
  {
    if HasSpace(t) {
      SplitStepParts(t);
      var i := FirstSpace(t);
      var j := i + LeadingSpaces(t[i..]);
      SplitStep(t);
      TrimmedRest(t, j);
      SplitTrimmedCountsWords(t[j..]);
      WordsOfSplitStep(t[..i], t[i..j], t[j..]);
    } else {
      WordsAfterNoSpace(t, true);
    }
  }

  lemma {:induction false} TrimmedRest(t: String, j: nat)
    requires j < |t| && !IsSpace(t[j]) && !IsSpace(t[|t| - 1])
    ensures t[j..] != [] && !IsSpace(t[j..][0]) && !IsSpace(t[j..][|t[j..]| - 1])
  {
    assert t[j..][|t[j..]| - 1] == t[|t| - 1];
  }

  // ---------------------------------------------------------------------
  // Cleaning markup

  /** The cleaning passes, in the source's order: fenced code blocks,
      inline code spans, HTML-like tags, markdown punctuation, newline
      runs to one space, then trimming. */
  function CleanText(content: String): String {
    var noFences := ReplaceAll(CodeFence, content, "");
    var noInline := ReplaceAll(InlineCode, noFences, "");
    var noTags := ReplaceAll(HtmlTag, noInline, "");
    var noMarks := ReplaceAll(MarkdownMark, noTags, "");
    var spaced := ReplaceAll(NewlineRun, noMarks, " ");
    Trim(spaced)
  }

  /** `calculateReadingTime`: the ceiling of the word count of the cleaned
      text over the reading speed; empty content takes no time. */
  function CalculateReadingTime(content: String, wordsPerMinute: nat): (r: nat)
    requires wordsPerMinute > 0
    ensures content == [] ==> r == 0
    ensures r * wordsPerMinute >= WordCount(CleanText(content))
    ensures r > 0 ==> (r - 1) * wordsPerMinute < WordCount(CleanText(content))
    ensures r == 0 <==> WordCount(CleanText(content)) == 0
  {
    if content == [] then 0
    else
      var words := |NonEmpty(SplitSpaces(CleanText(content)))|;
      SplitCountsWords(CleanText(content));
      CeilDiv(words, wordsPerMinute)
  }

  /** `formatReadingTime`: under one minute reads `< 1 min read`; otherwise
      the minute count followed by ` min read`. */
  function FormatReadingTime(minutes: int): (r: String)
    ensures minutes < 1 ==> r == "< 1 min read"
    ensures minutes >= 1 ==> r == NatToString(minutes) + " min read"
    ensures minutes >= 1 ==>
      EndsWith(r, " min read") && AllDigits(r[..|r| - 9]) && DigitsValue(r[..|r| - 9]) == minutes
  {
    if minutes < 1 then "< 1 min read"
    else if minutes == 1 then "1 min read"
    else
      var r := NatToString(minutes) + " min read";
      assert r[..|r| - 9] == NatToString(minutes);
      DigitsValueOfNatToString(minutes);
      r
  }

  // ---------------------------------------------------------------------
  // What the cleaned text no longer contains

  /** No `<` has a `>` anywhere after it: no tag survives. */
  predicate TagFree(s: String) {
    forall i, j :: 0 <= i < j < |s| && s[i] == '<' ==> s[j] != '>'
  }

  predicate MarkFree(s: String) {
    forall i :: 0 <= i < |s| ==> !IsMarkdownMark(s[i])
  }

  lemma {:induction false} ReplaceAllChars(p: Pattern, s: String, rep: String, c: char)
    requires c in ReplaceAll(p, s, rep)
    ensures c in s || c in rep
    decreases |s|
  {
    if MatchAt(p, s).Some? {
      var n := MatchAt(p, s).value;
      if c !in rep {
        ReplaceAllChars(p, s[n..], rep, c);
      }
    } else if c != s[0] {
      ReplaceAllChars(p, s[1..], rep, c);
    }
  }

  lemma {:induction false} CountReplaceAll(p: Pattern, s: String, rep: String, c: char)
    requires c !in rep
    ensures CountChar(ReplaceAll(p, s, rep), c) <= CountChar(s, c)
    decreases |s|
  {
    if s != [] {
      CountCharZero(rep, c);
      if MatchAt(p, s).Some? {
        var n := MatchAt(p, s).value;
        CountReplaceAll(p, s[n..], rep, c);
        CountCharAppend(rep, ReplaceAll(p, s[n..], rep), c);
        assert s == s[..n] + s[n..];
        CountCharAppend(s[..n], s[n..], c);
      } else {
        CountReplaceAll(p, s[1..], rep, c);
        CountCharAppend([s[0]], ReplaceAll(p, s[1..], rep), c);
      }
    }
  }

  /** The markdown-punctuation pass leaves none of `#*_~[]()`. */
  lemma {:induction false} RemoveMarksIsMarkFree(s: String)
    ensures MarkFree(ReplaceAll(MarkdownMark, s, ""))
    decreases |s|
  {
    if s != [] {
      if MatchAt(MarkdownMark, s).Some? {
        RemoveMarksIsMarkFree(s[1..]);
      } else {
        RemoveMarksIsMarkFree(s[1..]);
        assert ReplaceAll(MarkdownMark, s, "") == [s[0]] + ReplaceAll(MarkdownMark, s[1..], "");
      }
    }
  }

  /** Replacing newline runs by a space keeps a text free of marks. */
  lemma {:induction false} SpacingKeepsMarkFree(s: String)
    requires MarkFree(s)
    ensures MarkFree(ReplaceAll(NewlineRun, s, " "))
  {
    var r := ReplaceAll(NewlineRun, s, " ");
    forall i | 0 <= i < |r|
      ensures !IsMarkdownMark(r[i])
    {
      ReplaceAllChars(NewlineRun, s, " ", r[i]);
    }
  }

  /** The newline pass leaves no newline. */
  lemma {:induction false} SpacingIsNewlineFree(s: String)
    ensures '\n' !in ReplaceAll(NewlineRun, s, " ")
    decreases |s|
  {
    if s != [] {
      if MatchAt(NewlineRun, s).Some? {
        SpacingIsNewlineFree(s[MatchAt(NewlineRun, s).value..]);
      } else {
        SpacingIsNewlineFree(s[1..]);
      }
    }
  }

  /** The inline-code pass leaves at most one backtick. */
  lemma {:induction false} RemoveInlineLeavesOneBacktick(s: String)
    ensures CountChar(ReplaceAll(InlineCode, s, ""), '`') <= 1
    decreases |s|
  {
    if s != [] {
      if MatchAt(InlineCode, s).Some? {
        var n := MatchAt(InlineCode, s).value;
        RemoveInlineLeavesOneBacktick(s[n..]);
        assert ReplaceAll(InlineCode, s, "") == ReplaceAll(InlineCode, s[n..], "");
      } else if s[0] == '`' {
        var rest := ReplaceAll(InlineCode, s[1..], "");
        if '`' in rest {
          ReplaceAllChars(InlineCode, s[1..], "", '`');
        }
        CountCharZero(rest, '`');
        CountCharAppend([s[0]], rest, '`');
      } else {
        RemoveInlineLeavesOneBacktick(s[1..]);
        CountCharAppend([s[0]], ReplaceAll(InlineCode, s[1..], ""), '`');
      }
    }
  }

  lemma {:induction false} TagFreeCons(c: char, t: String)
    requires TagFree(t)
    requires c == '<' ==> '>' !in t
    ensures TagFree([c] + t)
  {
    var s := [c] + t;
    forall i, j | 0 <= i < j < |s| && s[i] == '<'
      ensures s[j] != '>'
    {
      assert s[j] == t[j - 1];
      if i > 0 {
        assert s[i] == t[i - 1];
      }
    }
  }

  lemma {:induction false} TagFreeAppend(a: String, b: String)
    requires TagFree(a) && TagFree(b)
    requires '<' in a ==> '>' !in b
    ensures TagFree(a + b)
  {
    var s := a + b;
    forall i, j | 0 <= i < j < |s| && s[i] == '<'
      ensures s[j] != '>'
    {
      if j < |a| {
        assert s[i] == a[i] && s[j] == a[j];
      } else if i >= |a| {
        assert s[i] == b[i - |a|] && s[j] == b[j - |a|];
      } else {
        assert s[i] == a[i] && s[j] == b[j - |a|];
      }
    }
  }

  lemma {:induction false} TagFreeSlice(s: String, a: nat, b: nat)
    requires a <= b <= |s| && TagFree(s)
    ensures TagFree(s[a..b])
  {
    var t := s[a..b];
    forall i, j | 0 <= i < j < |t| && t[i] == '<'
      ensures t[j] != '>'
    {
      assert t[i] == s[a + i] && t[j] == s[a + j];
    }
  }

  lemma {:induction false} TagFreeSuffix(s: String, k: nat)
    requires k <= |s| && TagFree(s)
    ensures TagFree(s[k..])
  {
    TagFreeSlice(s, k, |s|);
    assert s[k..|s|] == s[k..];
  }

  /** The tag pass leaves no `<` followed later by `>`. */
  lemma {:induction false} RemoveTagsIsTagFree(s: String)
    ensures TagFree(ReplaceAll(HtmlTag, s, ""))
    decreases |s|
  {
    if s != [] {
      if MatchAt(HtmlTag, s).Some? {
        RemoveTagsIsTagFree(s[MatchAt(HtmlTag, s).value..]);
      } else {
        var rest := ReplaceAll(HtmlTag, s[1..], "");
        RemoveTagsIsTagFree(s[1..]);
        if s[0] == '<' && '>' in rest {
          ReplaceAllChars(HtmlTag, s[1..], "", '>');
        }
        TagFreeCons(s[0], rest);
      }
    }
  }

  /** A pass that never matches at `<` and writes neither `<` nor `>`
      keeps a text tag free. */
  lemma {:induction false} ReplaceKeepsTagFree(p: Pattern, s: String, rep: String)
    requires p == MarkdownMark || p == NewlineRun
    requires '<' !in rep && '>' !in rep
    requires TagFree(s)
    ensures TagFree(ReplaceAll(p, s, rep))
    decreases |s|
  {
    if s != [] {
      if MatchAt(p, s).Some? {
        var n := MatchAt(p, s).value;
        TagFreeSuffix(s, n);
        ReplaceKeepsTagFree(p, s[n..], rep);
        TagFreeAppend(rep, ReplaceAll(p, s[n..], rep));
      } else {
        var rest := ReplaceAll(p, s[1..], rep);
        TagFreeSuffix(s, 1);
        ReplaceKeepsTagFree(p, s[1..], rep);
        if s[0] == '<' && '>' in rest {
          ReplaceAllChars(p, s[1..], rep, '>');
        }
        TagFreeCons(s[0], rest);
      }
    }
  }

  lemma {:induction false} CountSlice(s: String, a: nat, b: nat, c: char)
    requires a <= b <= |s|
    ensures CountChar(s[a..b], c) <= CountChar(s, c)
  {
    assert s == s[..a] + s[a..b] + s[b..];
    CountCharAppend(s[..a] + s[a..b], s[b..], c);
    CountCharAppend(s[..a], s[a..b], c);
  }

  /** The properties cleaning establishes. */
  predicate MarkupFree(t: String) {
    MarkFree(t) && '\n' !in t && TagFree(t) && CountChar(t, '`') <= 1
  }

  lemma {:induction false} MarkupFreeSlice(s: String, a: nat, b: nat)
    requires a <= b <= |s| && MarkupFree(s)
    ensures MarkupFree(s[a..b])
  {
    assert forall x :: x in s[a..b] ==> x in s;
    TagFreeSlice(s, a, b);
    CountSlice(s, a, b, '`');
  }

  /** The passes before trimming leave a markup-free text. */
  lemma {:induction false} PassesStripMarkup(content: String)
    ensures MarkupFree(ReplaceAll(NewlineRun, ReplaceAll(MarkdownMark, ReplaceAll(HtmlTag,
              ReplaceAll(InlineCode, ReplaceAll(CodeFence, content, ""), ""), ""), ""), " "))
  {
    var noFences := ReplaceAll(CodeFence, content, "");
    var noInline := ReplaceAll(InlineCode, noFences, "");
    var noTags := ReplaceAll(HtmlTag, noInline, "");
    var noMarks := ReplaceAll(MarkdownMark, noTags, "");
    RemoveMarksIsMarkFree(noTags);
    SpacingKeepsMarkFree(noMarks);
    SpacingIsNewlineFree(noMarks);
    RemoveTagsIsTagFree(noInline);
    ReplaceKeepsTagFree(MarkdownMark, noTags, "");
    ReplaceKeepsTagFree(NewlineRun, noMarks, " ");
    RemoveInlineLeavesOneBacktick(noFences);
    CountReplaceAll(HtmlTag, noInline, "", '`');
    CountReplaceAll(MarkdownMark, noTags, "", '`');
    CountReplaceAll(NewlineRun, noMarks, " ", '`');
  }

  /** What survives cleaning: no markdown punctuation, no newline, no
      `<` followed later by `>`, and at most one backtick, so nothing of
      a code span, a tag or the punctuation `#*_~[]()` is counted. */
  lemma {:induction false} CleanTextStripsMarkup(content: String)
    ensures MarkFree(CleanText(content))
    ensures '\n' !in CleanText(content)
    ensures TagFree(CleanText(content))
    ensures CountChar(CleanText(content), '`') <= 1
  {
    var spaced := ReplaceAll(NewlineRun, ReplaceAll(MarkdownMark, ReplaceAll(HtmlTag,
                    ReplaceAll(InlineCode, ReplaceAll(CodeFence, content, ""), ""), ""), ""), " ");
    PassesStripMarkup(content);
    TrimKeepsMarkupFree(spaced);
    assert Trim(spaced) == CleanText(content);
  }

  lemma {:induction false} TrimKeepsMarkupFree(s: String)
    requires MarkupFree(s)
    ensures MarkupFree(Trim(s))
  {
    var t := Trim(s);
    var a := LeadingSpaces(s);
    assert a + |t| <= |s| && t == s[a..a + |t|];
    MarkupFreeSlice(s, a, a + |t|);
  }

  // ---------------------------------------------------------------------
  // What cleaning removes

  /** Fences and code spans start at a backtick, tags at `<`. */
  predicate CannotStart(p: Pattern, a: String) {
    ((p == CodeFence || p == InlineCode) && '`' !in a) || (p == HtmlTag && '<' !in a)
  }

  /** No match of a fence, code span or tag starts at a character other
      than its opening one. */
  lemma {:induction false} NoMatchStart(p: Pattern, t: String)
    requires t != [] && CannotStart(p, [t[0]])
    ensures MatchAt(p, t).None?
  {
    if p == CodeFence && |t| >= 3 {
      assert t[..3][0] == t[0];
    }
  }

  /** A global pass copies a prefix in which none of its matches can
      start. */
  lemma {:induction false} ReplaceAllSkip(p: Pattern, a: String, s: String, rep: String)
    requires CannotStart(p, a)
    ensures ReplaceAll(p, a + s, rep) == a + ReplaceAll(p, s, rep)
    decreases |a|
  {
    if a == [] {
      assert a + s == s;
    } else {
      var t := a + s;
      assert t[0] == a[0] && [t[0]] == a[..1];
      NoMatchStart(p, t);
      ReplaceAllNone(p, t, rep);
      assert t[1..] == a[1..] + s;
      assert CannotStart(p, a[1..]) by {
        assert forall c :: c in a[1..] ==> c in a;
      }
      ReplaceAllSkip(p, a[1..], s, rep);
    }
  }

  /** A text without backticks passes the two code passes unchanged. */
  lemma {:induction false} NoTicksKept(s: String)
    requires '`' !in s
    ensures ReplaceAll(CodeFence, s, "") == s
    ensures ReplaceAll(InlineCode, s, "") == s
  {
    assert s + [] == s;
    ReplaceAllSkip(CodeFence, s, [], "");
    ReplaceAllSkip(InlineCode, s, [], "");
  }

  /** Where the global scan reaches a match: the replacement, then the
      scan of what follows the match. */
  lemma {:induction false} ReplaceAllAtMatch(p: Pattern, a: String, m: String, b: String, rep: String)
    requires CannotStart(p, a)
    requires MatchAt(p, m + b) == Some(|m|)
    ensures ReplaceAll(p, a + m + b, rep) == a + rep + ReplaceAll(p, b, rep)
  {
    ReplaceAllSkip(p, a, m + b, rep);
    assert a + m + b == a + (m + b);
    assert ReplaceAll(p, m + b, rep) == rep + ReplaceAll(p, b, rep) by {
      assert (m + b)[|m|..] == b;
    }
  }

  /** No three backticks in a row: the fence pass changes nothing. */
  lemma {:induction false} NoFenceRunKept(s: String)
    requires forall k :: 0 <= k && k + 2 < |s| && s[k] == '`' && s[k + 1] == '`' ==> s[k + 2] != '`'
    ensures ReplaceAll(CodeFence, s, "") == s
  {
    forall i | 0 <= i < |s|
      ensures MatchAt(CodeFence, s[i..]).None?
    {
      assert !StartsWith(s[i..], Fence) by {
        if i + 3 <= |s| {
          assert s[i..][..3] == [s[i], s[i + 1], s[i + 2]];
        }
      }
    }
    ReplaceAllNoMatch(CodeFence, s, "");
  }

  /** A code span with a backtick-free body matches as a whole. */
  lemma {:induction false} InlineMatchOf(x: String, b: String)
    requires '`' !in x
    ensures MatchAt(InlineCode, "`" + x + "`" + b) == Some(|x| + 2)
  {
    var t := "`" + x + "`" + b;
    assert t[1..] == x + "`" + b;
    assert t[1..][|x|] == '`';
    assert t[1..][..|x|] == x;
  }

  /** A fenced block with a backtick-free body matches as a whole. */
  lemma {:induction false} FenceMatchOf(x: String, b: String)
    requires '`' !in x
    ensures MatchAt(CodeFence, Fence + x + Fence + b) == Some(|x| + 6)
  {
    var t := Fence + x + Fence + b;
    assert StartsWith(t, Fence) by {
      assert t[..3] == Fence;
    }
    assert OccursAt(t, Fence, 3 + |x|) by {
      assert t[3 + |x|..6 + |x|] == Fence;
    }
    forall k | 3 <= k < 3 + |x|
      ensures !OccursAt(t, Fence, k)
    {
      assert t[k] == x[k - 3];
    }
  }

  /** The only backticks around a backtick-free span body are its two
      delimiters. */
  lemma {:induction false} SpanTicks(a: String, x: String, b: String)
    requires '`' !in a && '`' !in x && '`' !in b
    ensures var s := a + "`" + x + "`" + b;
            forall k :: 0 <= k < |s| && s[k] == '`' ==> k == |a| || k == |a| + |x| + 1
  {
    var s := a + "`" + x + "`" + b;
    var p, q := |a|, |a| + |x| + 1;
    forall k | 0 <= k < |s| && k != p && k != q
      ensures s[k] != '`'
    {
      if k < p {
        assert s[k] == a[k];
      } else if k < q {
        assert s[k] == x[k - p - 1];
      } else {
        assert s[k] == b[k - q - 1];
      }
    }
  }

  /** A code span has no run of three backticks: the fence pass keeps it. */
  lemma {:induction false} FencePassKeepsSpan(a: String, x: String, b: String)
    requires '`' !in a && '`' !in x && '`' !in b
    ensures var s := a + "`" + x + "`" + b;
            ReplaceAll(CodeFence, s, "") == s
  {
    SpanTicks(a, x, b);
    NoFenceRunKept(a + "`" + x + "`" + b);
  }

  /** The code-span pass turns `a`, a code span and `b` into `a` and `b`. */
  lemma {:induction false} InlinePassRemovesSpan(a: String, x: String, b: String)
    requires '`' !in a && '`' !in x && '`' !in b
    ensures ReplaceAll(InlineCode, a + "`" + x + "`" + b, "") == a + b
  {
    var m := "`" + x + "`";
    assert a + "`" + x + "`" + b == a + m + b;
    assert MatchAt(InlineCode, m + b) == Some(|m|) by {
      InlineMatchOf(x, b);
    }
    ReplaceAllAtMatch(InlineCode, a, m, b, "");
    NoTicksKept(b);
    assert a + "" == a;
  }

  /** The two code passes turn `a`, a code span and `b` into `a` and `b`. */
  lemma {:induction false} InlineSpanRemoved(a: String, x: String, b: String)
    requires '`' !in a && '`' !in x && '`' !in b
    ensures var s := a + "`" + x + "`" + b;
            ReplaceAll(InlineCode, ReplaceAll(CodeFence, s, ""), "") == a + b
  {
    FencePassKeepsSpan(a, x, b);
    InlinePassRemovesSpan(a, x, b);
  }

  /** The fence pass removes a whole match between backtick-free text. */
  lemma {:induction false} FenceMatchRemoved(a: String, m: String, b: String)
    requires '`' !in a && '`' !in b
    requires MatchAt(CodeFence, m + b) == Some(|m|)
    ensures ReplaceAll(CodeFence, a + m + b, "") == a + b
  {
    ReplaceAllAtMatch(CodeFence, a, m, b, "");
    NoTicksKept(b);
    assert a + "" == a;
  }

  /** The fence pass turns `a`, a fenced block and `b` into `a` and `b`. */
  lemma {:induction false} FenceRemoved(a: String, x: String, b: String)
    requires '`' !in a && '`' !in x && '`' !in b
    ensures ReplaceAll(CodeFence, a + Fence + x + Fence + b, "") == a + b
  {
    var m := Fence + x + Fence;
    assert a + Fence + x + Fence + b == a + m + b;
    assert MatchAt(CodeFence, m + b) == Some(|m|) by {
      FenceMatchOf(x, b);
    }
    FenceMatchRemoved(a, m, b);
  }

  /** The tag pass turns `a`, a tag and `b` into `a` and the pass over `b`. */
  lemma {:induction false} TagRemoved(a: String, x: String, b: String)
    requires '<' !in a && '>' !in x
    ensures ReplaceAll(HtmlTag, a + "<" + x + ">" + b, "") == a + ReplaceAll(HtmlTag, b, "")
  {
    var m := "<" + x + ">";
    assert a + "<" + x + ">" + b == a + m + b;
    assert MatchAt(HtmlTag, m + b) == Some(|m|) by {
      var t := m + b;
      assert t[1..] == x + ">" + b;
      assert t[1..][|x|] == '>';
      assert t[1..][..|x|] == x;
    }
    ReplaceAllAtMatch(HtmlTag, a, m, b, "");
    assert a + "" == a;
  }

  /** A code span in backtick-free text is not read: the text cleans as
      if the span were not there. */
  lemma {:induction false} InlineCodeNotCounted(a: String, x: String, b: String)
    requires '`' !in a && '`' !in x && '`' !in b
    ensures CleanText(a + "`" + x + "`" + b) == CleanText(a + b)
  {
    InlineSpanRemoved(a, x, b);
    NoTicksKept(a + b);
  }

  /** A fenced block in otherwise backtick-free text is not read. */
  lemma {:induction false} FencedCodeNotCounted(a: String, x: String, b: String)
    requires '`' !in a && '`' !in x && '`' !in b
    ensures CleanText(a + Fence + x + Fence + b) == CleanText(a + b)
  {
    FenceRemoved(a, x, b);
    NoTicksKept(a + b);
  }

  /** A tag is not read: with no `<` before it and no backtick around, the
      text cleans as if the tag were not there. */
  lemma {:induction false} TagNotCounted(a: String, x: String, b: String)
    requires '`' !in a && '`' !in x && '`' !in b && '<' !in a && '>' !in x
    ensures CleanText(a + "<" + x + ">" + b) == CleanText(a + b)
  {
    var s := a + "<" + x + ">" + b;
    assert '`' !in s;
    NoTicksKept(s);
    NoTicksKept(a + b);
    TagRemoved(a, x, b);
    ReplaceAllSkip(HtmlTag, a, b, "");
  }

  /** A code span or fenced block in backtick-free text adds no reading
      time. */
  lemma {:induction false} CodeAddsNoTime(a: String, x: String, b: String, wordsPerMinute: nat)
    requires wordsPerMinute > 0
    requires '`' !in a && '`' !in x && '`' !in b
    ensures CalculateReadingTime(a + "`" + x + "`" + b, wordsPerMinute) == CalculateReadingTime(a + b, wordsPerMinute)
    ensures CalculateReadingTime(a + Fence + x + Fence + b, wordsPerMinute) == CalculateReadingTime(a + b, wordsPerMinute)
  {
    InlineCodeNotCounted(a, x, b);
    FencedCodeNotCounted(a, x, b);
  }

  /** A tag adds no reading time. */
  lemma {:induction false} TagAddsNoTime(a: String, x: String, b: String, wordsPerMinute: nat)
    requires wordsPerMinute > 0
    requires '`' !in a && '`' !in x && '`' !in b && '<' !in a && '>' !in x
    ensures CalculateReadingTime(a + "<" + x + ">" + b, wordsPerMinute) == CalculateReadingTime(a + b, wordsPerMinute)
  {
    TagNotCounted(a, x, b);
  }

  /** Text made of one fenced code block takes no reading time. */
  lemma {:induction false} FencedBlockReadsInNoTime(body: String, wordsPerMinute: nat)
    requires wordsPerMinute > 0
    requires '`' !in body
    ensures CalculateReadingTime(Fence + body + Fence, wordsPerMinute) == 0
  {
    var s := Fence + body + Fence;
    assert StartsWith(s, Fence);
    assert OccursAt(s, Fence, 3 + |body|);
    forall k | 3 <= k < 3 + |body|
      ensures !OccursAt(s, Fence, k)
    {
      assert s[k] == body[k - 3];
    }
    assert MatchAt(CodeFence, s) == Some(|s|);
    assert s[|s|..] == [];
    assert ReplaceAll(CodeFence, s, "") == [];
    assert CleanText(s) == [];
  }
}
