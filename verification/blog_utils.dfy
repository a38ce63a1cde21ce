/** The content helpers of app/utils/blog.ts: the regex path cleaner, the
    crude reading-time estimate and the related-posts ranking. */
module BlogUtils {
  import opened Wrappers
  import opened Strings
  import opened Patterns
  import opened Sorting
  import ReadingTime

  // ---------------------------------------------------------------------
  // transformBlogPath

  /** What a match of `/\/blog\/\d+-/` at the start of `t` consists of. */
  lemma {:induction false} DashMatchShape(t: String)
    requires MatchAt(BlogNumberDash, t).Some?
    ensures var n := MatchAt(BlogNumberDash, t).value;
            && n >= 8
            && t[..6] == BlogSlash
            && AllDigits(t[6..n - 1])
            && t[n - 1] == '-'
  {
    var k := LeadingDigits(t[6..]);
    assert t[6..][..k] == t[6..6 + k];
  }

  /** Conversely, `/blog/`, a digit run and `-` is matched in full. */
  lemma {:induction false} DashMatchOf(digits: String, rest: String)
    requires |digits| >= 1 && AllDigits(digits)
    ensures MatchAt(BlogNumberDash, BlogSlash + digits + "-" + rest) == Some(7 + |digits|)
  {
    var t := BlogSlash + digits + "-" + rest;
    assert t[..6] == BlogSlash;
    assert t[6..] == digits + ("-" + rest);
    LeadingDigitsOf(digits, "-" + rest);
    assert t[6 + |digits|] == '-';
  }

  /** The text `replace(/\/blog\/\d+-/, '/blog/')` removes, when there is
      a match: the digits and the dash after the leftmost `/blog/` that is
      followed by them. */
  predicate ReplacesDashedNumber(s: String, r: String) {
    && FirstMatch(BlogNumberDash, s).Some?
    && var i := FirstMatch(BlogNumberDash, s).value;
       var t := s[i..];
       var n := MatchAt(BlogNumberDash, t).value;
       && n >= 8
       && t[..6] == BlogSlash
       && AllDigits(t[6..n - 1])
       && t[n - 1] == '-'
       && r == s[..i] + BlogSlash + s[i + n..]
  }

  lemma {:induction false} ReplaceDashShape(s: String)
    requires FirstMatch(BlogNumberDash, s).Some?
    ensures ReplacesDashedNumber(s, ReplaceFirst(BlogNumberDash, s, BlogSlash))
  {
    var i := FirstMatch(BlogNumberDash, s).value;
    var t := s[i..];
    DashMatchShape(t);
    var n := MatchAt(BlogNumberDash, t).value;
    assert ReplaceFirst(BlogNumberDash, s, BlogSlash) == s[..i] + BlogSlash + s[i + n..];
  }

  /** `transformBlogPath`: an absent or empty path is returned as it is;
      otherwise the leftmost `/blog/<digits>-` is replaced by `/blog/` and
      nothing else changes, so the path never grows. */
  function TransformBlogPath(path: Option<String>): (r: Option<String>)
    ensures r.None? <==> path.None?
    ensures path == Some([]) ==> r == path
    ensures path.Some? ==> |r.value| <= |path.value|
    ensures path.Some? && FirstMatch(BlogNumberDash, path.value).None? ==> r == path
    ensures path.Some? && FirstMatch(BlogNumberDash, path.value).Some? ==>
      ReplacesDashedNumber(path.value, r.value)
  {
    match path
    case None => None
    case Some(s) =>
      if s == [] then path
      else if FirstMatch(BlogNumberDash, s).None? then path
      else
        ReplaceDashShape(s);
        Some(ReplaceFirst(BlogNumberDash, s, BlogSlash))
  }

  /** A path that starts with `/blog/<digits>-` loses exactly that prefix's
      number and dash. */
  lemma {:induction false} TransformLeadingNumber(digits: String, rest: String)
    requires |digits| >= 1 && AllDigits(digits)
    ensures TransformBlogPath(Some(BlogSlash + digits + "-" + rest)) == Some(BlogSlash + rest)
  {
    var s := BlogSlash + digits + "-" + rest;
    DashMatchOf(digits, rest);
    assert s[0..] == s;
    assert FirstMatch(BlogNumberDash, s) == Some(0);
    ReplaceDashShape(s);
    assert s[7 + |digits|..] == rest;
    assert s[..0] == [];
    var r := TransformBlogPath(Some(s));
    assert ReplacesDashedNumber(s, r.value);
    assert MatchAt(BlogNumberDash, s[0..]).value == 7 + |digits|;
    assert r.value == s[..0] + BlogSlash + s[7 + |digits|..];
    assert s[..0] + BlogSlash + rest == BlogSlash + rest;
    assert r == Some(r.value);
  }

  /** The documented example: `/blog/1-my-post` becomes `/blog/my-post`. */
  lemma {:induction false} TransformExample(number: String, slug: String)
    requires number == "1" && slug == "my-post"
    ensures TransformBlogPath(Some("/blog/" + number + "-" + slug)) == Some("/blog/" + slug)
  {
    assert AllDigits(number) by {
      assert IsDigit(number[0]);
    }
    TransformLeadingNumber(number, slug);
  }

  // ---------------------------------------------------------------------
  // calculateReadingTime, string branch

  /** The number of pieces `text.trim().split(/\s+/)` yields: the word
      count, except that a text without words still gives one (empty)
      piece. */
  lemma {:induction false} TrimmedSplitLength(s: String)
    ensures |ReadingTime.SplitSpaces(Trim(s))|
            == if ReadingTime.WordCount(s) == 0 then 1 else ReadingTime.WordCount(s)
  {
    var t := Trim(s);
    ReadingTime.TrimKeepsWords(s);
    ReadingTime.SplitCountsWords(t);
    if t == [] {
      assert !ReadingTime.HasSpace(t);
    } else {
      ReadingTime.SplitTrimmedCountsWords(t);
    }
  }

  /** The string branch of `calculateReadingTime` in app/utils/blog.ts: no
      markup is stripped and empty pieces are not filtered, so absent or
      empty content reads in 0 minutes and any other text, even white space
      only, in at least 1: the ceiling of the word count (at least one)
      over 200. */
  function CrudeReadingTime(content: Option<String>): (r: nat)
    ensures content.None? || content == Some([]) ==> r == 0
    ensures content.Some? && content.value != [] ==>
      var w := ReadingTime.WordCount(content.value);
      var pieces := if w == 0 then 1 else w;
      && r >= 1
      && r * ReadingTime.DefaultWordsPerMinute >= pieces
      && (r - 1) * ReadingTime.DefaultWordsPerMinute < pieces
  {
    match content
    case None => 0
    case Some(s) =>
      if s == [] then 0
      else
        TrimmedSplitLength(s);
        ReadingTime.CeilDiv(|ReadingTime.SplitSpaces(Trim(s))|, ReadingTime.DefaultWordsPerMinute)
  }

  // ---------------------------------------------------------------------
  // getRelatedPosts

  /** The fields of a post the ranking reads. `time` is what `new
      Date(post.date).getTime()` gives, None when that is NaN. */
  datatype RelPost = RelPost(
    path: Option<String>,
    category: Option<String>,
    tags: Option<seq<String>>,
    time: Option<int>)

  /** A post with its score (`{ ...post, score }`). */
  datatype Scored = Scored(post: RelPost, score: int)

  function ScoreOf(x: Scored): int {
    x.score
  }

  const MillisPerDay: int := 1000 * 60 * 60 * 24
  const RecentDays: int := 90

  /** How many of `mine`, counted with repetition, occur in `theirs`. */
  function SharedTags(mine: seq<String>, theirs: seq<String>): nat {
    if mine == [] then 0
    else (if mine[0] in theirs then 1 else 0) + SharedTags(mine[1..], theirs)
  }

  lemma {:induction false} SharedTagsBounds(mine: seq<String>, theirs: seq<String>)
    ensures SharedTags(mine, theirs) <= |mine|
    ensures (forall t :: t in mine ==> t in theirs) ==> SharedTags(mine, theirs) == |mine|
    ensures (forall t :: t in mine ==> t !in theirs) ==> SharedTags(mine, theirs) == 0
  {
    if mine != [] {
      SharedTagsBounds(mine[1..], theirs);
      assert forall t :: t in mine[1..] ==> t in mine;
    }
  }

  function CategoryPoints(post: RelPost, current: RelPost): int {
    if post.category == current.category then 3 else 0
  }

  function TagPoints(post: RelPost, current: RelPost): int {
    if current.tags.Some? && post.tags.Some? then 2 * SharedTags(current.tags.value, post.tags.value)
    else 0
  }

  /** Within 90 days: `|Δms| / 86400000 < 90`, which for whole milliseconds
      is `|Δms| < 90 * 86400000`; a NaN date is never recent. */
  predicate Recent(post: RelPost, current: RelPost) {
    && post.time.Some? && current.time.Some?
    && var d := current.time.value - post.time.value;
       (if d < 0 then -d else d) < RecentDays * MillisPerDay
  }

  /** The relatedness score of `post` to `current`. */
  function Score(post: RelPost, current: RelPost): (r: int)
    ensures 0 <= r
    ensures post.category == current.category ==> r >= 3
    // shared tags add an even amount, so the score is odd exactly when one
    // of "same category" and "recent" holds
    ensures r % 2 == 1 <==> (post.category == current.category) != Recent(post, current)
  {
    CategoryPoints(post, current) + TagPoints(post, current) + (if Recent(post, current) then 1 else 0)
  }

  /** The most a post can score against `current`, reached by a post with
      the same category, tags and date. */
  function MaxScore(current: RelPost): int {
    4 + (if current.tags.Some? then 2 * |current.tags.value| else 0)
  }

  lemma {:induction false} ScoreRange(post: RelPost, current: RelPost)
    ensures 0 <= Score(post, current) <= MaxScore(current)
    ensures post.category == current.category && post.tags == current.tags
            && post.time == current.time && post.time.Some?
            ==> Score(post, current) == MaxScore(current)
  {
    if current.tags.Some? && post.tags.Some? {
      SharedTagsBounds(current.tags.value, post.tags.value);
    }
  }

  /** A post unrelated in every respect scores nothing. */
  lemma {:induction false} ScoreOfUnrelated(post: RelPost, current: RelPost)
    requires post.category != current.category
    requires current.tags.Some? && post.tags.Some? ==>
             forall t :: t in current.tags.value ==> t !in post.tags.value
    requires !Recent(post, current)
    ensures Score(post, current) == 0
  {
    if current.tags.Some? && post.tags.Some? {
      SharedTagsBounds(current.tags.value, post.tags.value);
    }
  }

  /** `allPosts.filter(post => post.path !== currentPath)`. */
  function OtherPosts(all: seq<RelPost>, currentPath: Option<String>): (r: seq<RelPost>)
    ensures |r| <= |all|
    ensures forall p :: p in r <==> p in all && p.path != currentPath
    ensures forall p: RelPost :: p.path != currentPath ==> multiset(r)[p] == multiset(all)[p]
  {
    if all == [] then []
    else
      var rest := OtherPosts(all[1..], currentPath);
      assert all == [all[0]] + all[1..];
      if all[0].path != currentPath then [all[0]] + rest else rest
  }

  /** Filtering distributes over concatenation: the candidates keep the
      order of the post list. */
  lemma {:induction false} OtherPostsAppend(a: seq<RelPost>, b: seq<RelPost>, currentPath: Option<String>)
    ensures OtherPosts(a + b, currentPath) == OtherPosts(a, currentPath) + OtherPosts(b, currentPath)
  {
    if a == [] {
      assert a + b == b;
    } else {
      assert (a + b)[1..] == a[1..] + b;
      OtherPostsAppend(a[1..], b, currentPath);
    }
  }

  function ScoreAll(posts: seq<RelPost>, current: RelPost): (r: seq<Scored>)
    ensures |r| == |posts|
    ensures forall i :: 0 <= i < |r| ==> r[i] == Scored(posts[i], Score(posts[i], current))
  {
    if posts == [] then [] else [Scored(posts[0], Score(posts[0], current))] + ScoreAll(posts[1..], current)
  }

  /** The candidates ranked: the other posts, scored, in stable descending
      score order. */
  function Ranked(current: RelPost, all: seq<RelPost>): seq<Scored> {
    SortDesc(ScoreAll(OtherPosts(all, current.path), current), ScoreOf)
  }

  lemma {:induction false} RankedMembers(current: RelPost, all: seq<RelPost>)
    ensures forall x :: x in Ranked(current, all) <==>
      x.post in all && x.post.path != current.path && x.score == Score(x.post, current)
  {
    var others := OtherPosts(all, current.path);
    var scored := ScoreAll(others, current);
    var ranked := Ranked(current, all);
    assert multiset(ranked) == multiset(scored);
    forall x
      ensures x in ranked <==> x.post in all && x.post.path != current.path && x.score == Score(x.post, current)
    {
      if x in ranked {
        assert x in multiset(scored);
        var i :| 0 <= i < |scored| && scored[i] == x;
      }
      if x.post in all && x.post.path != current.path && x.score == Score(x.post, current) {
        assert x.post in others;
        var i :| 0 <= i < |others| && others[i] == x.post;
        assert scored[i] == x;
        assert x in multiset(scored);
      }
    }
  }

  /** `getRelatedPosts`: no current post or no posts gives nothing;
      otherwise the posts with a path other than the current one, scored,
      ranked by score highest first and cut to `limit` with the semantics
      of `slice(0, limit)`. The result holds only other posts with their
      true scores, in non-increasing score order, at most `limit` of them
      (all candidates when `limit` allows), and no candidate left out
      outscores one kept. */
  function GetRelatedPosts(current: Option<RelPost>, all: seq<RelPost>, limit: int): (r: seq<Scored>)
    ensures current.None? || all == [] ==> r == []
    ensures current.Some? ==> forall x :: x in r ==>
      x.post in all && x.post.path != current.value.path && x.score == Score(x.post, current.value)
    ensures limit >= 0 ==> |r| <= limit
    ensures current.Some? && all != [] ==>
      |r| == SliceEnd(|OtherPosts(all, current.value.path)|, limit)
    ensures SortedDesc(r, ScoreOf)
    ensures current.Some? ==>
      forall i, p ::
        (0 <= i < |r| && p in all && p.path != current.value.path && Scored(p, Score(p, current.value)) !in r)
        ==> r[i].score >= Score(p, current.value)
    ensures current.Some? ==>
      multiset(r) <= multiset(ScoreAll(OtherPosts(all, current.value.path), current.value))
    ensures current.Some? ==> forall k ::
      WithKey(r, ScoreOf, k) <= WithKey(ScoreAll(OtherPosts(all, current.value.path), current.value), ScoreOf, k)
    ensures current.Some? ==>
      var scored := ScoreAll(OtherPosts(all, current.value.path), current.value);
      forall x, i :: 0 <= i < |r| && multiset(r)[x] < multiset(scored)[x] ==> r[i].score >= x.score
  {
    if current.None? || all == [] then []
    else
      var c := current.value;
      var ranked := Ranked(c, all);
      RankedFacts(c, all, limit);
      RankedPrefix(c, all, limit);
      RankedOutranksRest(c, all, limit);
      Take(ranked, limit)
  }

  /** The limit `getRelatedPosts` uses when the caller gives none. */
  const DefaultRelatedLimit := 3

  /** `getRelatedPosts(current, all)` with the limit left out: at most three
      posts, and the start of what any larger limit would return. */
  function GetRelatedPostsDefault(current: Option<RelPost>, all: seq<RelPost>): (r: seq<Scored>)
    ensures |r| <= DefaultRelatedLimit
    ensures forall limit :: limit >= DefaultRelatedLimit ==>
      r <= GetRelatedPosts(current, all, limit)
  {
    var r := GetRelatedPosts(current, all, DefaultRelatedLimit);
    DefaultIsPrefix(current, all);
    r
  }

  lemma {:induction false} DefaultIsPrefix(current: Option<RelPost>, all: seq<RelPost>)
    ensures forall limit :: limit >= DefaultRelatedLimit ==>
      GetRelatedPosts(current, all, DefaultRelatedLimit) <= GetRelatedPosts(current, all, limit)
  {
    forall limit | limit >= DefaultRelatedLimit
      ensures GetRelatedPosts(current, all, DefaultRelatedLimit) <= GetRelatedPosts(current, all, limit)
    {
      LargerLimitExtends(current, all, limit);
    }
  }

  lemma {:induction false} LargerLimitExtends(current: Option<RelPost>, all: seq<RelPost>, limit: int)
    requires limit >= DefaultRelatedLimit
    ensures GetRelatedPosts(current, all, DefaultRelatedLimit) <= GetRelatedPosts(current, all, limit)
  {
    if current.Some? && all != [] {
      TakeLonger(Ranked(current.value, all), DefaultRelatedLimit, limit);
    }
  }

  /** The kept posts are a prefix of the stable ranking: no candidate
      appears more often than it occurs, and posts of equal score keep
      their order in the post list. */
  lemma {:induction false} RankedPrefix(c: RelPost, all: seq<RelPost>, limit: int)
    ensures var scored := ScoreAll(OtherPosts(all, c.path), c);
            var r := Take(Ranked(c, all), limit);
            && multiset(r) <= multiset(scored)
            && forall k :: WithKey(r, ScoreOf, k) <= WithKey(scored, ScoreOf, k)
  {
    var ranked := Ranked(c, all);
    var r := Take(ranked, limit);
    PrefixMultiset(ranked, |r|);
    forall k
      ensures WithKey(r, ScoreOf, k) <= WithKey(ranked, ScoreOf, k)
    {
      WithKeyPrefix(ranked, ScoreOf, |r|, k);
    }
  }

  lemma {:induction false} RankedFacts(c: RelPost, all: seq<RelPost>, limit: int)
    ensures var ranked := Ranked(c, all);
            var r := Take(ranked, limit);
            && |ranked| == |OtherPosts(all, c.path)|
            && SortedDesc(r, ScoreOf)
            && (forall x :: x in r ==> x.post in all && x.post.path != c.path && x.score == Score(x.post, c))
            && (forall i, p ::
                  (0 <= i < |r| && p in all && p.path != c.path && Scored(p, Score(p, c)) !in r)
                  ==> r[i].score >= Score(p, c))
  {
    var ranked := Ranked(c, all);
    var scored := ScoreAll(OtherPosts(all, c.path), c);
    assert |ranked| == |multiset(ranked)| == |multiset(scored)| == |scored|;
    var r := Take(ranked, limit);
    PrefixKeepsTop(ranked, ScoreOf, |r|);
    TakenMembers(c, all, limit);
    TakenTop(c, all, limit);
  }

  lemma {:induction false} TakenMembers(c: RelPost, all: seq<RelPost>, limit: int)
    ensures forall x :: x in Take(Ranked(c, all), limit) ==>
              x.post in all && x.post.path != c.path && x.score == Score(x.post, c)
  {
    var ranked := Ranked(c, all);
    var r := Take(ranked, limit);
    RankedMembers(c, all);
    forall x | x in r
      ensures x in ranked
    {
      var k :| 0 <= k < |r| && r[k] == x;
      assert ranked[k] == x;
    }
  }

  lemma {:induction false} TakenTop(c: RelPost, all: seq<RelPost>, limit: int)
    ensures var r := Take(Ranked(c, all), limit);
            forall i, p ::
              (0 <= i < |r| && p in all && p.path != c.path && Scored(p, Score(p, c)) !in r)
              ==> r[i].score >= Score(p, c)
  {
    var ranked := Ranked(c, all);
    var r := Take(ranked, limit);
    RankedMembers(c, all);
    PrefixKeepsTop(ranked, ScoreOf, |r|);
    forall i, p | 0 <= i < |r| && p in all && p.path != c.path && Scored(p, Score(p, c)) !in r
      ensures r[i].score >= Score(p, c)
    {
      var x := Scored(p, Score(p, c));
      assert x in ranked;
      var j :| 0 <= j < |ranked| && ranked[j] == x;
      assert ScoreOf(r[i]) >= ScoreOf(ranked[j]);
    }
  }

  /** A copy of a candidate left out of the kept posts, even when an equal
      copy was kept, scores no higher than any kept post. */
  lemma {:induction false} RankedOutranksRest(c: RelPost, all: seq<RelPost>, limit: int)
    ensures var scored := ScoreAll(OtherPosts(all, c.path), c);
            var r := Take(Ranked(c, all), limit);
            forall x, i :: 0 <= i < |r| && multiset(r)[x] < multiset(scored)[x] ==> r[i].score >= x.score
  {
    var ranked := Ranked(c, all);
    var r := Take(ranked, limit);
    PrefixOutranksRest(ranked, ScoreOf, |r|);
  }
}
