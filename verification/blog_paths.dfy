/** The segment-based blog path cleaner: `stripNumericPrefix` and
    `cleanBlogPath` (app/utils/blogPaths.ts), used by the RSS route and the
    sitemap URL source. */
module BlogPaths {
  import opened Strings

  const Blog: String := "blog"

  /** A numeric ordering prefix such as `12-`: one or more ASCII digits and
      a single hyphen. */
  predicate IsNumericPrefix(p: String) {
    |p| >= 2 && p[|p| - 1] == '-' && AllDigits(p[..|p| - 1])
  }

  /** `slug` begins with a numeric ordering prefix (the regex `^\d+-` matches). */
  predicate HasNumericPrefix(slug: String) {
    exists k :: 0 < k <= |slug| && IsNumericPrefix(slug[..k])
  }

  /** `stripNumericPrefix`: removes a leading `\d+-`, if there is one. */
  function StripNumericPrefix(slug: String): (r: String)
    ensures |r| <= |slug| && r == slug[|slug| - |r|..]
    ensures HasNumericPrefix(slug) ==> IsNumericPrefix(slug[..|slug| - |r|])
    ensures !HasNumericPrefix(slug) ==> r == slug
  {
    var k := LeadingDigits(slug);
    if k >= 1 && k < |slug| && slug[k] == '-' then
      assert slug[..k + 1][..k] == slug[..k];
      assert IsNumericPrefix(slug[..k + 1]);
      slug[k + 1..]
    else
      NoPrefixWhenRunNotDashed(slug);
      slug
  }

  /** When the leading digit run is not followed by `-`, no prefix of the
      slug is a numeric prefix. */
  lemma {:induction false} NoPrefixWhenRunNotDashed(slug: String)
    requires var k := LeadingDigits(slug); !(k >= 1 && k < |slug| && slug[k] == '-')
    ensures !HasNumericPrefix(slug)
  {
    if j :| 0 < j <= |slug| && IsNumericPrefix(slug[..j]) {
      assert slug[..j][..j - 1] == slug[..j - 1];
      assert slug == slug[..j - 1] + slug[j - 1..];
      LeadingDigitsOf(slug[..j - 1], slug[j - 1..]);
    }
  }

  /** Stripping undoes prepending a numeric prefix: exactly one prefix
      goes, and the rest of the slug is kept as is. */
  lemma {:induction false} StripNumericPrefixInverse(digits: String, rest: String)
    requires |digits| >= 1 && AllDigits(digits)
    ensures StripNumericPrefix(digits + "-" + rest) == rest
  {
    var s := digits + "-" + rest;
    assert s == digits + ("-" + rest);
    LeadingDigitsOf(digits, "-" + rest);
    assert s[|digits| + 1..] == rest;
  }

  /** A path segment as the cleaner produces it: non-empty, without a
      separator, query or fragment marker. */
  predicate IsSegment(s: String) {
    s != [] && NoMarkers(s)
  }

  predicate NoMarkers(s: String) {
    '/' !in s && '?' !in s && '#' !in s
  }

  predicate AllSegments(segs: seq<String>) {
    forall i :: 0 <= i < |segs| ==> IsSegment(segs[i])
  }

  /** The non-empty `/`-separated segments of `path` once everything from
      the first `?`, then from the first `#`, is cut off. */
  function PathSegments(path: String): (segs: seq<String>)
    ensures AllSegments(segs)
  {
    var withoutQuery := Split(path, '?')[0];
    var trimmed := Split(withoutQuery, '#')[0];
    assert '?' !in trimmed;
    var parts := Split(trimmed, '/');
    var segs := NonEmpty(parts);
    assert forall i :: 0 <= i < |segs| ==> segs[i] in parts;
    segs
  }

  /** The segments are those of the text before the first `?` or `#`: a
      query or fragment never contributes a segment, whichever comes
      first. */
  lemma {:induction false} PathSegmentsCut(path: String, e: nat)
    requires e <= |path| && '?' !in path[..e] && '#' !in path[..e]
    requires e < |path| ==> path[e] == '?' || path[e] == '#'
    ensures PathSegments(path) == NonEmpty(Split(path[..e], '/'))
  {
    var a := path[..e];
    var w := Split(path, '?')[0];
    if e == |path| {
      assert a == path;
    } else if path[e] == '?' {
      assert path == a + ['?'] + path[e + 1..];
      SplitAfterFirst(a, path[e + 1..], '?');
    } else {
      assert path[..|w|] == w;
      assert '?' !in path[..e + 1] by {
        assert path[..e + 1] == a + [path[e]];
      }
      assert |w| > e;
      assert w[..e] == a && w[e] == '#';
      assert w == a + ['#'] + w[e + 1..];
      SplitAfterFirst(a, w[e + 1..], '#');
    }
  }

  /** Appending a query or a fragment to a marker-free path leaves its
      segments as they are. */
  lemma {:induction false} QueryAndFragmentIgnored(a: String, query: String, fragment: String)
    requires '?' !in a && '#' !in a
    ensures PathSegments(a + "?" + query) == PathSegments(a)
    ensures PathSegments(a + "#" + fragment) == PathSegments(a)
  {
    PathSegmentsCut(a, |a|);
    assert a[..|a|] == a;
    var q := a + "?" + query;
    assert q[..|a|] == a && q[|a|] == '?';
    PathSegmentsCut(q, |a|);
    var f := a + "#" + fragment;
    assert f[..|a|] == a && f[|a|] == '#';
    PathSegmentsCut(f, |a|);
  }

  /** The cleaner rewrites a path exactly when it has at least two segments
      and the first is `blog`. */
  predicate IsBlogPath(path: String) {
    var segs := PathSegments(path);
    |segs| >= 2 && segs[0] == Blog
  }

  /** `blog`, the middle segments in order, and the last one with its
      numeric prefix stripped. */
  function CleanedSegments(segs: seq<String>): (next: seq<String>)
    requires |segs| >= 2 && segs[0] == Blog
    ensures |next| == |segs|
    ensures forall i :: 0 <= i < |segs| - 1 ==> next[i] == segs[i]
    ensures next[|segs| - 1] == StripNumericPrefix(segs[|segs| - 1])
  {
    [Blog] + segs[1..|segs| - 1] + [StripNumericPrefix(segs[|segs| - 1])]
  }

  lemma {:induction false} CleanedSegmentsChars(segs: seq<String>)
    requires |segs| >= 2 && segs[0] == Blog && AllSegments(segs)
    ensures forall i :: 0 <= i < |CleanedSegments(segs)| ==> NoMarkers(CleanedSegments(segs)[i])
    ensures StripNumericPrefix(segs[|segs| - 1]) != [] ==> AllSegments(CleanedSegments(segs))
  {
    var last := segs[|segs| - 1];
    var c := StripNumericPrefix(last);
    assert IsSegment(last);
    SuffixNoMarkers(last, |last| - |c|);
    var next := CleanedSegments(segs);
    forall i | 0 <= i < |next|
      ensures NoMarkers(next[i])
      ensures c != [] ==> IsSegment(next[i])
    {
      if 0 < i < |next| - 1 {
        assert next[i] == segs[i];
        assert IsSegment(segs[i]);
      }
    }
  }

  lemma {:induction false} SuffixNoMarkers(s: String, k: nat)
    requires k <= |s| && NoMarkers(s)
    ensures NoMarkers(s[k..])
  {
    assert forall x :: x in s[k..] ==> x in s;
  }

  /** `cleanBlogPath`: rewrites `/blog/.../<last>` to its canonical form,
      with the numeric prefix of the last segment stripped; any other path
      comes back unchanged, query and fragment included. */
  function CleanBlogPath(path: String): (r: String)
    ensures !IsBlogPath(path) ==> r == path
    ensures IsBlogPath(path) ==> StartsWith(r, "/blog") && '?' !in r && '#' !in r
  {
    var segs := PathSegments(path);
    if |segs| < 2 || segs[0] != Blog then path
    else
      var next := CleanedSegments(segs);
      CleanedSegmentsChars(segs);
      SlashJoinShape(next);
      "/" + Join(next, '/')
  }

  lemma {:induction false} SlashJoinShape(next: seq<String>)
    requires |next| >= 1 && next[0] == Blog
    requires forall i :: 0 <= i < |next| ==> NoMarkers(next[i])
    ensures var r := "/" + Join(next, '/');
            StartsWith(r, "/blog") && '?' !in r && '#' !in r
  {
    NotInJoin(next, '/', '?');
    NotInJoin(next, '/', '#');
    JoinStartsWithFirst(next, '/');
    var j := Join(next, '/');
    assert j[..4] == Blog;
    assert ("/" + j)[..5] == "/" + j[..4];
  }

  lemma {:induction false} JoinStartsWithFirst(parts: seq<String>, sep: char)
    requires |parts| >= 1
    ensures StartsWith(Join(parts, sep), parts[0])
  {
  }

  /** The segments of `/` + the join of clean segments are those segments. */
  lemma {:induction false} SegmentsOfJoined(segs: seq<String>)
    requires |segs| >= 1 && AllSegments(segs)
    ensures PathSegments("/" + Join(segs, '/')) == segs
  {
    var path := "/" + Join(segs, '/');
    NotInJoin(segs, '/', '?');
    NotInJoin(segs, '/', '#');
    assert Split(path, '?')[0] == path;
    assert Split(path, '#')[0] == path;
    var parts := [[]] + segs;
    assert Join(parts, '/') == path;
    SplitJoin(parts, '/');
    NonEmptyOfNonEmpty(segs);
    assert parts[1..] == segs;
  }

  /** On a blog path the cleaned path has the same segments except the last,
      which loses its numeric prefix, so repeated and trailing slashes,
      query and fragment are gone. */
  lemma {:induction false} CleanBlogPathSegments(path: String)
    requires IsBlogPath(path)
    requires StripNumericPrefix(PathSegments(path)[|PathSegments(path)| - 1]) != []
    ensures |PathSegments(CleanBlogPath(path))| == |PathSegments(path)|
    ensures forall i :: 0 <= i < |PathSegments(path)| - 1 ==>
              PathSegments(CleanBlogPath(path))[i] == PathSegments(path)[i]
    ensures PathSegments(CleanBlogPath(path))[|PathSegments(path)| - 1]
              == StripNumericPrefix(PathSegments(path)[|PathSegments(path)| - 1])
  {
    CleanedPathSegments(path);
  }

  lemma {:induction false} CleanedPathSegments(path: String)
    requires IsBlogPath(path)
    requires StripNumericPrefix(PathSegments(path)[|PathSegments(path)| - 1]) != []
    ensures PathSegments(CleanBlogPath(path)) == CleanedSegments(PathSegments(path))
  {
    CleanedSegmentsChars(PathSegments(path));
    SegmentsOfJoined(CleanedSegments(PathSegments(path)));
  }

  /** Cleaning twice equals cleaning once when the cleaned last segment is
      non-empty and carries no further numeric prefix. */
  lemma {:induction false} CleanBlogPathIdempotent(path: String)
    requires IsBlogPath(path)
    requires var segs := PathSegments(path);
             var cleaned := StripNumericPrefix(segs[|segs| - 1]);
             cleaned != [] && !HasNumericPrefix(cleaned)
    ensures CleanBlogPath(CleanBlogPath(path)) == CleanBlogPath(path)
  {
    var segs := PathSegments(path);
    var next := CleanedSegments(segs);
    CleanedSegmentsChars(segs);
    SegmentsOfJoined(next);
    assert next[1..|next| - 1] == segs[1..|segs| - 1];
    assert CleanedSegments(next) == next;
  }

  /** Cleaned segments are the first ones followed by the stripped last. */
  lemma {:induction false} CleanedSegmentsSnoc(segs: seq<String>)
    requires |segs| >= 2 && segs[0] == Blog
    ensures CleanedSegments(segs) == segs[..|segs| - 1] + [StripNumericPrefix(segs[|segs| - 1])]
  {
    assert [Blog] + segs[1..|segs| - 1] == segs[..|segs| - 1];
  }

  /** On a blog path the cleaner joins the cleaned segments. */
  lemma {:induction false} CleanOfBlog(path: String)
    requires IsBlogPath(path)
    ensures CleanBlogPath(path) == "/" + Join(CleanedSegments(PathSegments(path)), '/')
  {
  }

  /** The join of the cleaned segments: the first ones, a slash, and the
      stripped last one. */
  lemma {:induction false} JoinCleaned(segs: seq<String>)
    requires |segs| >= 2 && segs[0] == Blog
    ensures Join(CleanedSegments(segs), '/')
            == Join(segs[..|segs| - 1], '/') + "/" + StripNumericPrefix(segs[|segs| - 1])
  {
    CleanedSegmentsSnoc(segs);
    JoinSnoc(segs[..|segs| - 1], StripNumericPrefix(segs[|segs| - 1]), '/');
  }

  /** A last segment that is nothing but a numeric prefix, as in
      `/blog/12-`, leaves an empty last segment: the cleaned path keeps
      the other segments and ends in a slash. */
  lemma {:induction false} CleanEmptiedLast(path: String)
    requires IsBlogPath(path)
    requires StripNumericPrefix(PathSegments(path)[|PathSegments(path)| - 1]) == []
    ensures var segs := PathSegments(path);
            CleanBlogPath(path) == "/" + Join(segs[..|segs| - 1], '/') + "/"
  {
    var segs := PathSegments(path);
    CleanOfBlog(path);
    JoinCleaned(segs);
  }

  /** The cleaned blog path ends in a slash exactly when the stripped last
      segment is empty. */
  lemma {:induction false} CleanTrailingSlash(path: String)
    requires IsBlogPath(path)
    ensures var segs := PathSegments(path);
            var r := CleanBlogPath(path);
            r[|r| - 1] == '/' <==> StripNumericPrefix(segs[|segs| - 1]) == []
  {
    var segs := PathSegments(path);
    var c := StripNumericPrefix(segs[|segs| - 1]);
    CleanOfBlog(path);
    JoinCleaned(segs);
    CleanedSegmentsChars(segs);
    var r := CleanBlogPath(path);
    if c != [] {
      var next := CleanedSegments(segs);
      assert r[|r| - 1] == c[|c| - 1];
      assert NoMarkers(next[|next| - 1]);
    }
  }

  /** `/blog/12-` cleans to `/blog/`, not to `/blog`. */
  lemma {:induction false} CleanEmptiedExample(digits: String)
    requires digits == "12"
    ensures CleanBlogPath("/blog/" + digits + "-") == "/blog/"
  {
    assert AllDigits(digits) by {
      assert IsDigit(digits[0]) && IsDigit(digits[1]);
    }
    CleanNumberedPost(digits, []);
    assert "/blog/" + digits + "-" + [] == "/blog/" + digits + "-";
  }

  /** Cleaning already cleaned segments again shortens their join when
      the stripped last segment still has a numeric prefix. */
  lemma {:induction false} RecleanedShorter(segs: seq<String>)
    requires |segs| >= 2 && segs[0] == Blog
    requires HasNumericPrefix(StripNumericPrefix(segs[|segs| - 1]))
    ensures |Join(CleanedSegments(CleanedSegments(segs)), '/')| < |Join(CleanedSegments(segs), '/')|
  {
    var next := CleanedSegments(segs);
    var c := StripNumericPrefix(segs[|segs| - 1]);
    var c2 := StripNumericPrefix(c);
    assert |c| - |c2| >= 2;
    JoinCleaned(segs);
    JoinCleaned(next);
    assert next[..|next| - 1] == segs[..|segs| - 1];
  }

  /** When the stripped last segment still has a numeric prefix, cleaning
      again shortens the path: cleaning is then not idempotent. */
  lemma {:induction false} CleanBlogPathShrinks(path: String)
    requires IsBlogPath(path)
    requires var segs := PathSegments(path);
             HasNumericPrefix(StripNumericPrefix(segs[|segs| - 1]))
    ensures |CleanBlogPath(CleanBlogPath(path))| < |CleanBlogPath(path)|
  {
    var segs := PathSegments(path);
    var next := CleanedSegments(segs);
    var r := CleanBlogPath(path);
    CleanedPathSegments(path);
    CleanOfBlog(path);
    CleanOfBlog(r);
    RecleanedShorter(segs);
  }

  /** With a non-empty stripped last segment, cleaning is idempotent on a
      blog path exactly when that segment has no further numeric prefix. */
  lemma {:induction false} CleanIdempotentIff(path: String)
    requires IsBlogPath(path)
    requires var segs := PathSegments(path);
             StripNumericPrefix(segs[|segs| - 1]) != []
    ensures var segs := PathSegments(path);
            CleanBlogPath(CleanBlogPath(path)) == CleanBlogPath(path)
            <==> !HasNumericPrefix(StripNumericPrefix(segs[|segs| - 1]))
  {
    var segs := PathSegments(path);
    var r := CleanBlogPath(path);
    if HasNumericPrefix(StripNumericPrefix(segs[|segs| - 1])) {
      CleanBlogPathShrinks(path);
      assert |CleanBlogPath(r)| != |r|;
    } else {
      CleanBlogPathIdempotent(path);
      assert CleanBlogPath(r) == r;
    }
  }

  /** Cleaning the join of clean segments rewrites only the last one. */
  lemma {:induction false} CleanJoined(segs: seq<String>)
    requires |segs| >= 2 && segs[0] == Blog && AllSegments(segs)
    ensures CleanBlogPath("/" + Join(segs, '/')) == "/" + Join(CleanedSegments(segs), '/')
  {
    SegmentsOfJoined(segs);
  }

  /** `/blog/<slug>` cleans to `/blog/` + the slug without its prefix. */
  lemma {:induction false} CleanPostPath(slug: String)
    requires IsSegment(slug)
    ensures CleanBlogPath("/blog/" + slug) == "/blog/" + StripNumericPrefix(slug)
  {
    var segs := [Blog, slug];
    assert IsSegment(Blog);
    assert AllSegments(segs);
    CleanJoined(segs);
    JoinTwo(Blog, slug);
    var c := StripNumericPrefix(slug);
    assert CleanedSegments(segs) == [Blog, c];
    JoinTwo(Blog, c);
  }

  lemma {:induction false} JoinTwo(a: String, b: String)
    ensures a == Blog ==> "/" + Join([a, b], '/') == "/blog/" + b
  {
    assert [a, b][1..] == [b];
    assert Join([b], '/') == b;
    assert Join([a, b], '/') == a + ['/'] + b;
  }

  /** In `/blog/<dir>/<slug>` only the last segment changes. */
  lemma {:induction false} CleanNestedPostPath(dir: String, slug: String)
    requires IsSegment(dir) && IsSegment(slug)
    ensures CleanBlogPath("/blog/" + dir + "/" + slug) == "/blog/" + dir + "/" + StripNumericPrefix(slug)
  {
    var segs := [Blog, dir, slug];
    assert IsSegment(Blog);
    assert AllSegments(segs);
    CleanJoined(segs);
    JoinThree(Blog, dir, slug);
    var c := StripNumericPrefix(slug);
    assert CleanedSegments(segs) == [Blog, dir, c];
    JoinThree(Blog, dir, c);
  }

  lemma {:induction false} JoinThree(a: String, b: String, c: String)
    ensures "/" + Join([a, b, c], '/') == "/" + a + "/" + b + "/" + c
    ensures a == Blog ==> "/" + Join([a, b, c], '/') == "/blog/" + b + "/" + c
  {
    assert [a, b, c][1..] == [b, c];
    assert [b, c][1..] == [c];
    assert Join([c], '/') == c;
    assert Join([b, c], '/') == b + ['/'] + c;
    assert Join([a, b, c], '/') == a + ['/'] + (b + ['/'] + c);
  }

  /** A numbered post `/blog/<digits>-<rest>` is listed at `/blog/<rest>`. */
  lemma {:induction false} CleanNumberedPost(digits: String, rest: String)
    requires |digits| >= 1 && AllDigits(digits) && NoMarkers(digits) && NoMarkers(rest)
    ensures CleanBlogPath("/blog/" + digits + "-" + rest) == "/blog/" + rest
  {
    var slug := digits + "-" + rest;
    NumberedSegment(digits, rest);
    StripNumericPrefixInverse(digits, rest);
    CleanPostPath(slug);
    assert "/blog/" + digits + "-" + rest == "/blog/" + slug;
  }

  lemma {:induction false} NumberedSegment(digits: String, rest: String)
    requires NoMarkers(digits) && NoMarkers(rest)
    ensures IsSegment(digits + "-" + rest)
  {
    var slug := digits + "-" + rest;
    assert forall x :: x in slug ==> x in digits || x == '-' || x in rest;
  }

  /** `/blog/12-my-post` becomes `/blog/my-post`. */
  lemma {:induction false} CleanNumberedExample(digits: String, rest: String)
    requires digits == "12" && rest == "my-post"
    ensures CleanBlogPath("/blog/" + digits + "-" + rest) == "/blog/" + rest
  {
    assert AllDigits(digits) by {
      assert IsDigit(digits[0]) && IsDigit(digits[1]);
    }
    CleanNumberedPost(digits, rest);
  }

  /** `/blog/my-post` is already clean. */
  lemma {:induction false} CleanPlainExample(slug: String)
    requires slug == "my-post"
    ensures CleanBlogPath("/blog/" + slug) == "/blog/" + slug
  {
    assert LeadingDigits(slug) == 0;
    NoPrefixWhenRunNotDashed(slug);
    assert IsSegment(slug);
    CleanPostPath(slug);
  }

  /** A numbered post in a directory, `/blog/<dir>/<digits>-<rest>`, is
      listed at `/blog/<dir>/<rest>`. */
  lemma {:induction false} CleanNestedNumbered(dir: String, digits: String, rest: String)
    requires IsSegment(dir) && |digits| >= 1 && AllDigits(digits) && NoMarkers(digits) && NoMarkers(rest)
    ensures CleanBlogPath("/blog/" + dir + "/" + digits + "-" + rest) == "/blog/" + dir + "/" + rest
  {
    var slug := digits + "-" + rest;
    NumberedSegment(digits, rest);
    StripNumericPrefixInverse(digits, rest);
    CleanNestedPostPath(dir, slug);
    assert "/blog/" + dir + "/" + digits + "-" + rest == "/blog/" + dir + "/" + slug;
  }

  /** `/blog/2024/07-title` becomes `/blog/2024/title`. */
  lemma {:induction false} CleanNestedExample(dir: String, digits: String, rest: String)
    requires dir == "2024" && digits == "07" && rest == "title"
    ensures CleanBlogPath("/blog/" + dir + "/" + digits + "-" + rest) == "/blog/" + dir + "/" + rest
  {
    assert AllDigits(digits) by {
      assert IsDigit(digits[0]) && IsDigit(digits[1]);
    }
    CleanNestedNumbered(dir, digits, rest);
  }

  /** Cleaning is not idempotent in general: `/blog/12-34-x` becomes
      `/blog/34-x`, which cleans again to `/blog/x`. */
  lemma {:induction false} CleanNotIdempotentExample(first: String, second: String, rest: String)
    requires first == "12" && second == "34" && rest == "x"
    ensures CleanBlogPath("/blog/" + first + "-" + (second + "-" + rest)) == "/blog/" + second + "-" + rest
    ensures CleanBlogPath("/blog/" + second + "-" + rest) == "/blog/x"
  {
    assert AllDigits(first) by {
      assert IsDigit(first[0]) && IsDigit(first[1]);
    }
    assert AllDigits(second) by {
      assert IsDigit(second[0]) && IsDigit(second[1]);
    }
    NumberedSegment(second, rest);
    CleanNumberedPost(first, second + "-" + rest);
    assert "/blog/" + (second + "-" + rest) == "/blog/" + second + "-" + rest;
    CleanNumberedPost(second, rest);
  }
}
