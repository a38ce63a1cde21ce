/** The regular expressions the blog utilities use, each given by what a
    backtracking engine matches when it is started at the first character
    of a string, and JavaScript's `replace` (first match) and global
    `replace` scans built on them.

    None of the patterns has an anchor or a look-behind, so the match found
    at index `i` of `s` is the match found at the start of `s[i..]`; none
    matches the empty string. */
module Patterns {
  import opened Wrappers
  import opened Strings

  datatype Pattern =
    | CodeFence       // /```[\s\S]*?```/
    | InlineCode      // /`[^`]*`/
    | HtmlTag         // /<[^>]*>/
    | MarkdownMark    // /[#*_~[\]()]/
    | NewlineRun      // /\n+/
    | BlogNumberDash  // /\/blog\/\d+-/
    | BlogNumberSep   // /\/blog\/\d+[-_]?/

  const Fence: String := "```"
  const BlogSlash: String := "/blog/"

  /** The markdown punctuation the reading-time cleaner strips. */
  predicate IsMarkdownMark(c: char) {
    c in "#*_~[]()"
  }

  /** Length of the maximal run of `c` at the start of `t`. */
  function RunOf(t: String, c: char): (k: nat)
    ensures k <= |t|
    ensures forall i :: 0 <= i < k ==> t[i] == c
    ensures k < |t| ==> t[k] != c
  {
    if t == [] || t[0] != c then 0 else 1 + RunOf(t[1..], c)
  }

  /** Length of the match of `p` starting at the first character of `t`,
      or None when the engine finds no match there. */
  function MatchAt(p: Pattern, t: String): (r: Option<nat>)
    ensures r.Some? ==> 1 <= r.value <= |t|
  {
    match p
    case CodeFence =>
      // lazy body: the closing fence is the first one after the opening
      if StartsWith(t, Fence) then
        match IndexOfFrom(t, Fence, 3)
        case Some(j) => Some(j + 3)
        case None => None
      else None
    case InlineCode =>
      if t != [] && t[0] == '`' && '`' in t[1..] then Some(IndexOfChar(t[1..], '`') + 2) else None
    case HtmlTag =>
      if t != [] && t[0] == '<' && '>' in t[1..] then Some(IndexOfChar(t[1..], '>') + 2) else None
    case MarkdownMark =>
      if t != [] && IsMarkdownMark(t[0]) then Some(1) else None
    case NewlineRun =>
      if t != [] && t[0] == '\n' then Some(RunOf(t, '\n')) else None
    case BlogNumberDash =>
      // `\d+` backtracking to a shorter run only meets another digit, never `-`
      if StartsWith(t, BlogSlash) then
        var k := LeadingDigits(t[6..]);
        if k >= 1 && 6 + k < |t| && t[6 + k] == '-' then Some(7 + k) else None
      else None
    case BlogNumberSep =>
      if StartsWith(t, BlogSlash) then
        var k := LeadingDigits(t[6..]);
        if k == 0 then None
        else if 6 + k < |t| && t[6 + k] in "-_" then Some(7 + k)
        else Some(6 + k)
      else None
  }

  /** What each of the five markup patterns matches, as its regular
      expression reads. */
  lemma {:induction false} MatchedText(p: Pattern, t: String)
    // a fenced block runs from its opening fence to the first fence after it
    ensures p == CodeFence && MatchAt(p, t).Some? ==>
      var n := MatchAt(p, t).value;
      && 6 <= n && StartsWith(t, Fence) && OccursAt(t, Fence, n - 3)
      && forall k :: 3 <= k < n - 3 ==> !OccursAt(t, Fence, k)
    // a code span or a tag has no closing character before its last one
    ensures p == InlineCode && MatchAt(p, t).Some? ==>
      var n := MatchAt(p, t).value;
      2 <= n && t[0] == '`' && t[n - 1] == '`' && '`' !in t[1..n - 1]
    ensures p == HtmlTag && MatchAt(p, t).Some? ==>
      var n := MatchAt(p, t).value;
      2 <= n && t[0] == '<' && t[n - 1] == '>' && '>' !in t[1..n - 1]
    ensures p == MarkdownMark && MatchAt(p, t).Some? ==>
      MatchAt(p, t).value == 1 && IsMarkdownMark(t[0])
    // `\n+` is greedy: the whole run of newlines
    ensures p == NewlineRun && MatchAt(p, t).Some? ==>
      var n := MatchAt(p, t).value;
      (forall i :: 0 <= i < n ==> t[i] == '\n') && (n < |t| ==> t[n] != '\n')
  {
  }

  /** `s.replace(/p/g, rep)`: scans left to right, replacing every match
      and resuming after it. */
  function ReplaceAll(p: Pattern, s: String, rep: String): (r: String)
    // deleting the matches never lengthens the text
    ensures rep == [] ==> |r| <= |s|
    decreases |s|
  {
    if s == [] then []
    else
      match MatchAt(p, s)
      case Some(n) => rep + ReplaceAll(p, s[n..], rep)
      case None => [s[0]] + ReplaceAll(p, s[1..], rep)
  }

  /** Index of the leftmost match of `p` in `s`. */
  function FirstMatch(p: Pattern, s: String): (r: Option<nat>)
    ensures r.Some? ==> r.value < |s| && MatchAt(p, s[r.value..]).Some?
    ensures r.Some? ==> forall i :: 0 <= i < r.value ==> MatchAt(p, s[i..]).None?
    ensures r.None? ==> forall i :: 0 <= i < |s| ==> MatchAt(p, s[i..]).None?
    decreases |s|
  {
    if s == [] then None
    else if MatchAt(p, s).Some? then Some(0)
    else
      var r := FirstMatch(p, s[1..]);
      assert forall i :: 1 <= i <= |s| ==> s[1..][i - 1..] == s[i..];
      match r
      case None => None
      case Some(k) => Some(k + 1)
  }

  /** `s.replace(/p/, rep)`: replaces the leftmost match only. */
  function ReplaceFirst(p: Pattern, s: String, rep: String): (r: String)
    ensures FirstMatch(p, s).None? ==> r == s
    ensures FirstMatch(p, s).Some? ==>
      var i := FirstMatch(p, s).value;
      var n := MatchAt(p, s[i..]).value;
      r == s[..i] + rep + s[i + n..]
  {
    match FirstMatch(p, s)
    case None => s
    case Some(i) => s[..i] + rep + s[i + MatchAt(p, s[i..]).value..]
  }

  /** Removing matches only ever deletes characters. */
  lemma {:induction false} RemoveAllChars(p: Pattern, s: String, c: char)
    requires c in ReplaceAll(p, s, "")
    ensures c in s
    decreases |s|
  {
    var n := if MatchAt(p, s).Some? then MatchAt(p, s).value else 1;
    if MatchAt(p, s).Some? {
      RemoveAllChars(p, s[n..], c);
    } else if c != s[0] {
      RemoveAllChars(p, s[1..], c);
    }
  }

  /** Deleting the matches shortens the text exactly when there is a match
      somewhere. */
  lemma {:induction false} RemoveAllShortens(p: Pattern, s: String)
    ensures |ReplaceAll(p, s, "")| == |s| <==> forall i :: 0 <= i < |s| ==> MatchAt(p, s[i..]).None?
    decreases |s|
  {
    if s != [] {
      assert s[0..] == s;
      assert forall i :: 1 <= i <= |s| ==> s[1..][i - 1..] == s[i..];
      if MatchAt(p, s).None? {
        RemoveAllShortens(p, s[1..]);
      } else {
        var n := MatchAt(p, s).value;
        assert |ReplaceAll(p, s[n..], "")| <= |s[n..]|;
      }
    }
  }

  /** A string with no match at any index is left unchanged by the global scan. */
  lemma {:induction false} ReplaceAllNoMatch(p: Pattern, s: String, rep: String)
    requires forall i :: 0 <= i < |s| ==> MatchAt(p, s[i..]).None?
    ensures ReplaceAll(p, s, rep) == s
    decreases |s|
  {
    if s != [] {
      assert s[0..] == s;
      assert forall i :: 1 <= i < |s| ==> s[1..][i - 1..] == s[i..];
      ReplaceAllNoMatch(p, s[1..], rep);
    }
  }

  /** One step of the global scan where no match starts. */
  lemma ReplaceAllNone(p: Pattern, t: String, rep: String)
    requires t != [] && MatchAt(p, t).None?
    ensures ReplaceAll(p, t, rep) == [t[0]] + ReplaceAll(p, t[1..], rep)
  {
  }
}
