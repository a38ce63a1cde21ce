/** The client-side feed builder (app/utils/rss.ts): a looser path cleaner
    that also takes `_` or no separator after the number, and `generateRSS`,
    which renders the first 20 posts in the order given, inserting titles,
    descriptions, authors and tags without escaping. */
module AppRss {
  import opened Wrappers
  import opened Strings
  import opened Patterns
  import Sorting
  import BlogPaths
  import Seqs
  import XmlEscape

  const BaseUrl: String := "https://devpy.de"
  const FeedCap: nat := 20

  // ---------------------------------------------------------------------
  // The local transformBlogPath

  /** The match of `/\/blog\/\d+[-_]?/` on `/blog/`, a maximal digit run
      and what follows: the separator is taken when there is one. */
  lemma {:induction false} SepMatchOf(digits: String, rest: String)
    requires |digits| >= 1 && AllDigits(digits)
    requires rest == [] || !IsDigit(rest[0])
    ensures MatchAt(BlogNumberSep, BlogSlash + digits + rest)
            == Some(6 + |digits| + (if rest != [] && rest[0] in "-_" then 1 else 0))
  {
    var t := BlogSlash + digits + rest;
    assert t[..6] == BlogSlash;
    assert t[6..] == digits + rest;
    LeadingDigitsOf(digits, rest);
    if rest != [] {
      assert t[6 + |digits|] == rest[0];
    }
  }

  /** `t` starts with a match of length `n`: `/blog/`, the whole digit run
      after it, and the `-` or `_` right after the run when there is one. */
  predicate SepMatch(t: String, n: int) {
    && 7 <= n <= |t|
    && t[..6] == BlogSlash
    && var e := if t[n - 1] in "-_" then n - 1 else n;
       && 7 <= e
       && AllDigits(t[6..e])
       && (e < |t| ==> !IsDigit(t[e]))
       && (e < |t| && t[e] in "-_" ==> n == e + 1)
  }

  lemma {:induction false} SepMatchShape(t: String)
    requires MatchAt(BlogNumberSep, t).Some?
    ensures SepMatch(t, MatchAt(BlogNumberSep, t).value)
  {
    var k := LeadingDigits(t[6..]);
    assert t[6..][..k] == t[6..6 + k];
    if 6 + k < |t| {
      assert t[6 + k] == t[6..][k];
    }
  }

  /** `r` is `s` with its leftmost `/blog/<digits>`, together with the `-`
      or `_` right after the digit run if there is one, replaced by
      `/blog/`. */
  predicate ReplacesSepNumber(s: String, r: String) {
    && FirstMatch(BlogNumberSep, s).Some?
    && var i := FirstMatch(BlogNumberSep, s).value;
       var n := MatchAt(BlogNumberSep, s[i..]).value;
       && SepMatch(s[i..], n)
       && r == s[..i] + BlogSlash + s[i + n..]
  }

  lemma {:induction false} ReplaceSepShape(s: String)
    ensures FirstMatch(BlogNumberSep, s).Some? ==>
            ReplacesSepNumber(s, ReplaceFirst(BlogNumberSep, s, BlogSlash))
  {
    if FirstMatch(BlogNumberSep, s).Some? {
      var i := FirstMatch(BlogNumberSep, s).value;
      var n := MatchAt(BlogNumberSep, s[i..]).value;
      SepMatchShape(s[i..]);
      assert SepMatch(s[i..], n);
      assert ReplaceFirst(BlogNumberSep, s, BlogSlash) == s[..i] + BlogSlash + s[i + n..];
    }
  }

  /** `path.replace(/\/blog\/\d+[-_]?/, '/blog/')`: a path without a match
      is unchanged; otherwise only its leftmost match is replaced. */
  function TransformPath(path: String): (r: String)
    ensures |r| <= |path|
    ensures FirstMatch(BlogNumberSep, path).None? ==> r == path
    ensures FirstMatch(BlogNumberSep, path).Some? ==> ReplacesSepNumber(path, r)
  {
    ReplaceSepShape(path);
    ReplaceFirst(BlogNumberSep, path, BlogSlash)
  }

  /** A path starting with `/blog/<digits>` loses the digits and one `-`
      or `_` after them, if there is one. */
  lemma {:induction false} TransformLeadingNumber(digits: String, rest: String)
    requires |digits| >= 1 && AllDigits(digits)
    requires rest == [] || !IsDigit(rest[0])
    ensures TransformPath(BlogSlash + digits + rest)
            == BlogSlash + (if rest != [] && rest[0] in "-_" then rest[1..] else rest)
  {
    var s := BlogSlash + digits + rest;
    SepMatchOf(digits, rest);
    assert s[0..] == s;
    assert FirstMatch(BlogNumberSep, s) == Some(0);
    var n := 6 + |digits| + (if rest != [] && rest[0] in "-_" then 1 else 0);
    assert s[n..] == (if rest != [] && rest[0] in "-_" then rest[1..] else rest);
    assert s[..0] == [];
  }

  /** An underscore after the number goes as a dash does. */
  lemma {:induction false} TransformUnderscored(digits: String, rest: String)
    requires |digits| >= 1 && AllDigits(digits)
    ensures TransformPath(BlogSlash + digits + "_" + rest) == BlogSlash + rest
  {
    var tail := "_" + rest;
    assert tail[0] == '_' && !IsDigit(tail[0]) && tail[0] in "-_";
    assert tail[1..] == rest;
    assert BlogSlash + digits + "_" + rest == BlogSlash + digits + tail;
    TransformLeadingNumber(digits, tail);
  }

  /** `/blog/1_post` becomes `/blog/post`. */
  lemma {:induction false} UnderscoreExample(digits: String, rest: String)
    requires digits == "1" && rest == "post"
    ensures TransformPath("/blog/" + digits + "_" + rest) == "/blog/" + rest
  {
    assert AllDigits(digits) by {
      assert IsDigit(digits[0]);
    }
    TransformUnderscored(digits, rest);
  }

  /** `/blog/01-sample-post`, the sample post's path, becomes
      `/blog/sample-post`. */
  lemma {:induction false} SamplePathExample(path: String, slug: String)
    requires slug == "sample-post" && path == "/blog/01-" + slug
    ensures TransformPath(path) == "/blog/" + slug
  {
    assert AllDigits("01") by {
      assert IsDigit("01"[0]) && IsDigit("01"[1]);
    }
    var rest := "-" + slug;
    assert rest[0] == '-' && !IsDigit(rest[0]);
    assert rest[1..] == slug;
    assert path == BlogSlash + "01" + rest;
    TransformLeadingNumber("01", rest);
  }

  /** The variants disagree on nested numbered paths: this one removes the
      directory number and keeps the slug's prefix, while the segment
      cleaner keeps the directory and strips the slug's prefix. */
  lemma {:induction false} NestedPathsDiverge(dir: String, digits: String, rest: String)
    requires |dir| >= 1 && AllDigits(dir)
    requires |digits| >= 1 && AllDigits(digits)
    requires BlogPaths.NoMarkers(dir) && BlogPaths.NoMarkers(digits) && BlogPaths.NoMarkers(rest)
    ensures TransformPath("/blog/" + dir + "/" + digits + "-" + rest) == "/blog/" + "/" + digits + "-" + rest
    ensures BlogPaths.CleanBlogPath("/blog/" + dir + "/" + digits + "-" + rest) == "/blog/" + dir + "/" + rest
  {
    TransformNested(dir, "/" + digits + "-" + rest);
    Regroup(BlogSlash, dir, "/", digits, "-", rest);
    Regroup(BlogSlash, [], "/", digits, "-", rest);
    BlogPaths.CleanNestedNumbered(dir, digits, rest);
  }

  lemma {:induction false} Regroup(a: String, b: String, c: String, d: String, e: String, f: String)
    ensures a + b + (c + d + e + f) == a + b + c + d + e + f
    ensures b == [] ==> a + (c + d + e + f) == a + c + d + e + f
  {
  }

  /** A directory number is removed with nothing after it. */
  lemma {:induction false} TransformNested(dir: String, tail: String)
    requires |dir| >= 1 && AllDigits(dir)
    requires tail != [] && tail[0] == '/'
    ensures TransformPath(BlogSlash + dir + tail) == BlogSlash + tail
  {
    assert !IsDigit(tail[0]) && tail[0] !in "-_";
    TransformLeadingNumber(dir, tail);
  }

  /** `/blog/2024/07-title` becomes `/blog//07-title` here and
      `/blog/2024/title` in the segment cleaner. */
  lemma {:induction false} NestedPathsExample(dir: String, digits: String, rest: String)
    requires dir == "2024" && digits == "07" && rest == "title"
    ensures TransformPath("/blog/" + dir + "/" + digits + "-" + rest) == "/blog/" + "/" + digits + "-" + rest
    ensures BlogPaths.CleanBlogPath("/blog/" + dir + "/" + digits + "-" + rest) == "/blog/" + dir + "/" + rest
  {
    assert AllDigits(dir) by {
      assert IsDigit(dir[0]) && IsDigit(dir[1]) && IsDigit(dir[2]) && IsDigit(dir[3]);
    }
    assert AllDigits(digits) by {
      assert IsDigit(digits[0]) && IsDigit(digits[1]);
    }
    NestedPathsDiverge(dir, digits, rest);
  }

  // ---------------------------------------------------------------------
  // generateRSS

  /** A post as the caller passes it; absent fields are None. */
  datatype AppPost = AppPost(
    title: Option<String>,
    description: Option<String>,
    path: Option<String>,
    date: Option<String>,
    author: Option<String>,
    tags: Option<seq<String>>)

  /** One item as rendered, every text inserted verbatim. */
  datatype AppItem = AppItem(
    title: String,
    description: String,
    link: String,
    guid: String,
    pubDate: String,
    author: Option<String>,
    categories: seq<String>)

  /** The item for one post, or an error when it has no path: calling
      `replace` on `undefined` throws. `utcString` stands for `new
      Date(date).toUTCString()`, which also accepts an absent date. */
  function BuildItem(post: AppPost, utcString: Option<String> -> String): (r: Result<AppItem, String>)
    ensures r.Failure? <==> post.path.None?
    ensures r.Success? ==>
      var item := r.value;
      && item.link == item.guid
      && item.link == BaseUrl + TransformPath(post.path.value)
      && item.title == Interpolate(post.title)
      && item.description == Or(post.description, [])
      && item.pubDate == utcString(post.date)
      && (item.author.Some? <==> Truthy(post.author))
      && (item.author.Some? ==> item.author == post.author)
      && item.categories == (if post.tags.Some? then post.tags.value else [])
  {
    match post.path
    case None => Failure("TypeError: cannot read properties of undefined (reading 'replace')")
    case Some(p) =>
      var link := BaseUrl + TransformPath(p);
      Success(AppItem(
        Interpolate(post.title),
        Or(post.description, []),
        link,
        link,
        utcString(post.date),
        if Truthy(post.author) then post.author else None,
        if post.tags.Some? then post.tags.value else []))
  }

  function BuildItems(posts: seq<AppPost>, utcString: Option<String> -> String): (r: Result<seq<AppItem>, String>)
    ensures r.Failure? <==> exists i :: 0 <= i < |posts| && posts[i].path.None?
    ensures r.Success? ==> |r.value| == |posts|
    ensures r.Success? ==> forall i :: 0 <= i < |posts| ==> BuildItem(posts[i], utcString) == Success(r.value[i])
  {
    if posts == [] then Success([])
    else
      match BuildItem(posts[0], utcString)
      case Failure(e) => Failure(e)
      case Success(item) =>
        var rest := BuildItems(posts[1..], utcString);
        assert forall i :: 1 <= i < |posts| ==> posts[1..][i - 1] == posts[i];
        match rest
        case Failure(e) => Failure(e)
        case Success(items) =>
          assert forall i :: 0 <= i < |posts| && posts[i].path.None? ==> i != 0;
          Success([item] + items)
  }

  /** `generateRSS`'s items: the first 20 posts in the order given, not
      re-sorted, one item each; the build fails when one of them has no
      path. */
  function GenerateItems(posts: seq<AppPost>, utcString: Option<String> -> String): (r: Result<seq<AppItem>, String>)
    ensures var capped := if |posts| <= FeedCap then |posts| else FeedCap;
            && (r.Failure? <==> exists i :: 0 <= i < capped && posts[i].path.None?)
            && (r.Success? ==> |r.value| == capped)
            && (r.Success? ==> forall i :: 0 <= i < capped ==> BuildItem(posts[i], utcString) == Success(r.value[i]))
  {
    var firsts := Sorting.Take(posts, FeedCap);
    assert forall i :: 0 <= i < |firsts| ==> firsts[i] == posts[i];
    BuildItems(firsts, utcString)
  }

  // ---------------------------------------------------------------------
  // Serialisation, whitespace as in the template

  const ItemOpen: String := "\n    <item>\n      <title><![CDATA["
  const ItemClose: String := "    </item>\n    "

  /** One item's text, from the newline before `<item>` to the
      indentation after `</item>`. */
  function SerializeItem(item: AppItem): (r: String)
    ensures StartsWith(r, ItemOpen) && EndsWith(r, ItemClose)
  {
    var body := item.title + "]]></title>\n"
      + "      <description><![CDATA[" + item.description + "]]></description>\n"
      + "      <link>" + item.link + "</link>\n"
      + "      <guid>" + item.guid + "</guid>\n"
      + "      <pubDate>" + item.pubDate + "</pubDate>\n"
      + "      " + (match item.author case None => "" case Some(a) => "<author>" + a + "</author>") + "\n"
      + "      " + CategoryElements(item.categories) + "\n";
    StartsWithAppend(ItemOpen, body + ItemClose);
    EndsWithAppend(body, ItemClose);
    EndsWithPrepend(ItemOpen, body + ItemClose, ItemClose);
    ItemOpen + (body + ItemClose)
  }

  function CategoryElements(tags: seq<String>): String {
    if tags == [] then [] else "<category>" + tags[0] + "</category>" + CategoryElements(tags[1..])
  }

  /** `map(...).join('')` of the item texts. */
  function SerializeItems(items: seq<AppItem>): String {
    Seqs.ConcatMap(items, SerializeItem)
  }

  /** The text of concatenated item lists is the first list's text followed
      by the second's, so the text keeps the items' order. */
  lemma {:induction false} SerializeItemsAppend(a: seq<AppItem>, b: seq<AppItem>)
    ensures SerializeItems(a + b) == SerializeItems(a) + SerializeItems(b)
  {
    Seqs.ConcatMapAppend(a, b, SerializeItem);
  }

  const FeedClose: String := "\n  </channel>\n</rss>"

  /** The template text between the XML declaration and the items: the
      channel's fixed fields around the build time. */
  const HeadBeforeDate: String :=
    "<rss version=\"2.0\" xmlns:atom=\"http://www.w3.org/2005/Atom\">\n"
    + "  <channel>\n"
    + "    <title>Vipin Kumar Madhaan - DevPy Blog</title>\n"
    + "    <description>Latest blog posts from Vipin Kumar Madhaan on web development, technology, and programming.</description>\n"
    + "    <link>" + BaseUrl + "</link>\n"
    + "    <atom:link href=\"" + BaseUrl + "/rss.xml\" rel=\"self\" type=\"application/rss+xml\"/>\n"
    + "    <language>en</language>\n"
    + "    <lastBuildDate>"
  const HeadAfterDate: String :=
    "</lastBuildDate>\n"
    + "    <generator>Nuxt Content</generator>\n"
    + "    "

  function ChannelHead(nowUtc: String): String {
    HeadBeforeDate + nowUtc + HeadAfterDate
  }

  /** The feed text around the given items: the XML declaration, the
      channel head, the items' texts in order, and the closing tags. */
  function FeedText(items: seq<AppItem>, nowUtc: String): (r: String)
    ensures StartsWith(r, XmlEscape.Declaration)
    ensures EndsWith(r, SerializeItems(items) + FeedClose)
  {
    var head := ChannelHead(nowUtc);
    var tail := SerializeItems(items) + FeedClose;
    StartsWithAppend(XmlEscape.Declaration, head + tail);
    EndsWithAppend(head, tail);
    EndsWithPrepend(XmlEscape.Declaration, head + tail, tail);
    XmlEscape.Declaration + (head + tail)
  }

  /** `generateRSS`: the feed text, or the error the item building raises.
      `nowUtc` is the build time as `toUTCString` prints it. */
  function GenerateRss(posts: seq<AppPost>, utcString: Option<String> -> String, nowUtc: String): (r: Result<String, String>)
    ensures var capped := if |posts| <= FeedCap then |posts| else FeedCap;
            r.Failure? <==> exists i :: 0 <= i < capped && posts[i].path.None?
    ensures r.Success? ==> GenerateItems(posts, utcString).Success?
    ensures r.Success? ==> StartsWith(r.value, XmlEscape.Declaration)
    ensures r.Success? ==> EndsWith(r.value, SerializeItems(GenerateItems(posts, utcString).value) + FeedClose)
  {
    Render(GenerateItems(posts, utcString), nowUtc)
  }

  /** The feed text of built items, or the build's error. */
  function Render(built: Result<seq<AppItem>, String>, nowUtc: String): (r: Result<String, String>)
    ensures r.Failure? <==> built.Failure?
    ensures r.Success? ==> StartsWith(r.value, XmlEscape.Declaration)
    ensures r.Success? ==> EndsWith(r.value, SerializeItems(built.value) + FeedClose)
  {
    match built
    case Failure(e) => Failure(e)
    case Success(items) => Success(FeedText(items, nowUtc))
  }

  const SampleSlug: String := "sample-post"

  /** The placeholder post of `generateStaticRSS`, stored at
      `/blog/01-sample-post`; `nowIso` is the build
      time as `toISOString` prints it. */
  function SamplePost(nowIso: String): AppPost {
    AppPost(
      Some("Sample Blog Post"),
      Some("This is a sample blog post for RSS generation."),
      Some("/blog/01-" + SampleSlug),
      Some(nowIso),
      Some("Vipin Kumar Madhaan"),
      Some(["web-development", "technology"]))
  }

  /** The sample post's link and guid are the site URL followed by
      `/blog/sample-post`: the ordering number and its dash are gone. */
  lemma {:induction false} SampleItemLink(nowIso: String, utcString: Option<String> -> String)
    ensures BuildItem(SamplePost(nowIso), utcString).Success?
    ensures BuildItem(SamplePost(nowIso), utcString).value.link == BaseUrl + "/blog/" + SampleSlug
    ensures BuildItem(SamplePost(nowIso), utcString).value.guid == BaseUrl + "/blog/" + SampleSlug
  {
    SamplePathExample("/blog/01-" + SampleSlug, SampleSlug);
  }
}
