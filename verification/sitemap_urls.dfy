/** The sitemap source handler (server/api/__sitemap__/urls.ts): one
    `{ loc, lastmod }` entry per post with a non-empty path, in query
    order. */
module SitemapUrls {
  import opened Wrappers
  import opened Strings
  import BlogPaths

  datatype SitemapPost = SitemapPost(
    path: Option<String>,
    date: Option<String>,
    dateUpdated: Option<String>)

  datatype UrlEntry = UrlEntry(loc: String, lastmod: Option<String>)

  predicate HasPath(post: SitemapPost) {
    Truthy(post.path)
  }

  /** The entry of one post: the cleaned, decoded path, and the update
      date when it is non-empty, else the publication date, which may be
      missing. `decodeUri` stands for the platform's `decodeURI`. */
  function Entry(post: SitemapPost, decodeUri: String -> String): (e: UrlEntry)
    requires HasPath(post)
    ensures e.loc == BlogPaths.CleanBlogPath(decodeUri(post.path.value))
    ensures Truthy(post.dateUpdated) ==> e.lastmod == post.dateUpdated
    ensures !Truthy(post.dateUpdated) ==> e.lastmod == post.date
  {
    UrlEntry(BlogPaths.CleanBlogPath(decodeUri(post.path.value)), OrElse(post.dateUpdated, post.date))
  }

  /** The handler's result. */
  function Urls(posts: seq<SitemapPost>, decodeUri: String -> String): (r: seq<UrlEntry>)
    ensures |r| <= |posts|
  {
    if posts == [] then []
    else if HasPath(posts[0]) then [Entry(posts[0], decodeUri)] + Urls(posts[1..], decodeUri)
    else Urls(posts[1..], decodeUri)
  }

  /** The posts that get an entry, in order. */
  function WithPath(posts: seq<SitemapPost>): (r: seq<SitemapPost>)
    ensures forall p :: p in r <==> p in posts && HasPath(p)
    ensures forall p :: multiset(r)[p] == if HasPath(p) then multiset(posts)[p] else 0
  {
    if posts == [] then []
    else
      assert posts == [posts[0]] + posts[1..];
      if HasPath(posts[0]) then [posts[0]] + WithPath(posts[1..])
      else WithPath(posts[1..])
  }

  /** Filtering distributes over concatenation: the listed posts keep the
      query's order. */
  lemma {:induction false} WithPathAppend(a: seq<SitemapPost>, b: seq<SitemapPost>)
    ensures WithPath(a + b) == WithPath(a) + WithPath(b)
  {
    if a == [] {
      assert a + b == b;
    } else {
      assert (a + b)[1..] == a[1..] + b;
      WithPathAppend(a[1..], b);
    }
  }

  function Entries(posts: seq<SitemapPost>, decodeUri: String -> String): (r: seq<UrlEntry>)
    requires forall p :: p in posts ==> HasPath(p)
    ensures |r| == |posts|
    ensures forall i :: 0 <= i < |r| ==> r[i] == Entry(posts[i], decodeUri)
  {
    if posts == [] then [] else [Entry(posts[0], decodeUri)] + Entries(posts[1..], decodeUri)
  }

  /** Exactly one entry per post with a path, in input order, and nothing
      else: no static pages are added. */
  lemma {:induction false} UrlsOfPostsWithPath(posts: seq<SitemapPost>, decodeUri: String -> String)
    ensures Urls(posts, decodeUri) == Entries(WithPath(posts), decodeUri)
  {
    if posts != [] {
      UrlsOfPostsWithPath(posts[1..], decodeUri);
      var rest := WithPath(posts[1..]);
      if HasPath(posts[0]) {
        assert ([posts[0]] + rest)[1..] == rest;
      }
    }
  }

  lemma {:induction false} UrlsAppend(a: seq<SitemapPost>, b: seq<SitemapPost>, decodeUri: String -> String)
    ensures Urls(a + b, decodeUri) == Urls(a, decodeUri) + Urls(b, decodeUri)
  {
    if a == [] {
      assert a + b == b;
    } else {
      assert (a + b)[1..] == a[1..] + b;
      UrlsAppend(a[1..], b, decodeUri);
    }
  }

  /** A post stored at `/blog/<slug>` that decodes to itself is listed at
      its slug without the numeric prefix. */
  lemma {:induction false} PostLocation(post: SitemapPost, slug: String, decodeUri: String -> String)
    requires BlogPaths.IsSegment(slug)
    requires post.path == Some("/blog/" + slug)
    requires decodeUri("/blog/" + slug) == "/blog/" + slug
    ensures Entry(post, decodeUri).loc == "/blog/" + BlogPaths.StripNumericPrefix(slug)
  {
    BlogPaths.CleanPostPath(slug);
  }
}
