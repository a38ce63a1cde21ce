/** The build-time feed generator (scripts/generate-feeds.ts): it reads the
    `.md` files of the blog directory into front-matter objects, sorts them
    newest first, renders the first 20 as RSS items and lists every post,
    after three static pages, in the sitemap. Posts are the parsed objects
    themselves: string keys to string values, with `_path` added from the
    file name. */
module GenerateFeeds {
  import opened Wrappers
  import opened Strings
  import opened Patterns
  import FrontMatter
  import Sorting
  import BlogUtils
  import Seqs
  import XmlEscape

  const BaseUrl: String := "https://devpy.de"
  const FeedCap: nat := 20
  const MdExt: String := ".md"
  const PathKey: String := "_path"
  const UntitledTitle: String := "Untitled"
  const DefaultAuthor: String := "Vipin Kumar Madhaan"

  /** A parsed post. */
  type Post = map<String, String>

  /** A directory entry and its text; None when reading it failed, which
      the generator reports and skips. */
  datatype BlogFile = BlogFile(name: String, content: Option<String>)

  /** The platform time functions: `new Date(date).getTime()`, `new
      Date(date).toUTCString()`, and the build time as `toUTCString` and
      `toISOString` print it. */
  datatype Clock = Clock(
    parse: String -> int,
    utcString: String -> String,
    nowUtc: String,
    nowIso: String)

  /** `post.key`: the value, or None for a key the front matter lacks. */
  function Get(post: Post, key: String): Option<String> {
    FrontMatter.Lookup(post, key)
  }

  // ---------------------------------------------------------------------
  // Reading the blog directory

  /** `/blog/${file.replace('.md', '')}`: only the first `.md` goes. */
  function PostPath(name: String): (r: String)
    ensures StartsWith(r, BlogSlash)
    ensures |r| == |BlogSlash| + |name| - (if IndexOfFrom(name, MdExt, 0).Some? then 3 else 0)
  {
    assert (BlogSlash + ReplaceFirstStr(name, MdExt, []))[..|BlogSlash|] == BlogSlash;
    BlogSlash + ReplaceFirstStr(name, MdExt, [])
  }

  /** A file name is `stem + ".md" + tail` with no earlier `.md`: the path
      keeps the stem and whatever follows the first `.md`. */
  lemma {:induction false} PostPathOfName(stem: String, tail: String)
    requires forall k :: 0 <= k < |stem| ==> !OccursAt(stem + MdExt + tail, MdExt, k)
    ensures PostPath(stem + MdExt + tail) == BlogSlash + stem + tail
  {
    var name := stem + MdExt + tail;
    assert name[|stem|..|stem| + 3] == MdExt;
    assert OccursAt(name, MdExt, |stem|);
    var j := IndexOfFrom(name, MdExt, 0);
    assert j == Some(|stem|);
    assert name[..|stem|] == stem && name[|stem| + 3..] == tail;
  }

  /** The post read from one file: a `.md` file that could be read and
      opens with a front-matter block. Its `_path` comes from the file name
      and replaces any `_path` line of the block. */
  function ReadPost(f: BlogFile): (r: Option<Post>)
    ensures r.Some? <==> EndsWith(f.name, MdExt) && f.content.Some? && FrontMatter.Block(f.content.value).Some?
    ensures r.Some? ==> Get(r.value, PathKey) == Some(PostPath(f.name))
  {
    if !EndsWith(f.name, MdExt) || f.content.None? then None
    else
      match FrontMatter.Block(f.content.value)
      case None => None
      case Some(block) => Some(FrontMatter.ParseFrontMatter(block)[PathKey := PostPath(f.name)])
  }

  /** Every other key of a read post holds the value of its last line in
      the block, and a key with no line is absent. */
  lemma {:induction false} ReadPostFields(f: BlogFile, key: String)
    requires ReadPost(f).Some? && key != PathKey
    ensures var block := FrontMatter.Block(f.content.value).value;
            Get(ReadPost(f).value, key)
            == FrontMatter.LastValue(FrontMatter.ParseLines(Split(block, '\n')), key)
  {
    var block := FrontMatter.Block(f.content.value).value;
    FrontMatter.LastKeyWins(FrontMatter.ParseLines(Split(block, '\n')), key);
  }

  /** The posts of the directory listing, in listing order. */
  function ReadPosts(files: seq<BlogFile>): (r: seq<Post>)
    ensures |r| <= |files|
    ensures forall i :: 0 <= i < |r| ==> Get(r[i], PathKey).Some? && StartsWith(Get(r[i], PathKey).value, BlogSlash)
  {
    if files == [] then []
    else
      var rest := ReadPosts(files[1..]);
      match ReadPost(files[0])
      case None => rest
      case Some(p) => [p] + rest
  }

  /** The files that yield a post, in listing order. */
  function Readable(files: seq<BlogFile>): (r: seq<BlogFile>)
    ensures forall f :: f in r <==> f in files && ReadPost(f).Some?
    ensures forall f :: multiset(r)[f] == if ReadPost(f).Some? then multiset(files)[f] else 0
  {
    if files == [] then []
    else
      assert files == [files[0]] + files[1..];
      if ReadPost(files[0]).Some? then [files[0]] + Readable(files[1..])
      else Readable(files[1..])
  }

  /** Filtering distributes over concatenation: the readable files keep
      the listing order. */
  lemma {:induction false} ReadableAppend(a: seq<BlogFile>, b: seq<BlogFile>)
    ensures Readable(a + b) == Readable(a) + Readable(b)
  {
    if a == [] {
      assert a + b == b;
    } else {
      assert (a + b)[1..] == a[1..] + b;
      ReadableAppend(a[1..], b);
    }
  }

  function PostsOf(files: seq<BlogFile>): (r: seq<Post>)
    requires forall f :: f in files ==> ReadPost(f).Some?
    ensures |r| == |files|
    ensures forall i :: 0 <= i < |r| ==> Some(r[i]) == ReadPost(files[i])
  {
    if files == [] then [] else [ReadPost(files[0]).value] + PostsOf(files[1..])
  }

  /** Exactly one post per readable `.md` file, in listing order, and
      nothing else. */
  lemma {:induction false} ReadPostsOfReadable(files: seq<BlogFile>)
    ensures ReadPosts(files) == PostsOf(Readable(files))
  {
    if files != [] {
      ReadPostsOfReadable(files[1..]);
      var rest := Readable(files[1..]);
      if ReadPost(files[0]).Some? {
        assert ([files[0]] + rest)[1..] == rest;
      }
    }
  }

  lemma {:induction false} ReadPostsAppend(a: seq<BlogFile>, b: seq<BlogFile>)
    ensures ReadPosts(a + b) == ReadPosts(a) + ReadPosts(b)
  {
    if a == [] {
      assert a + b == b;
    } else {
      assert (a + b)[1..] == a[1..] + b;
      ReadPostsAppend(a[1..], b);
    }
  }

  // ---------------------------------------------------------------------
  // Sorting, newest first

  /** The sort key: the date's timestamp, 0 for a post with no date. */
  function DateKey(parse: String -> int): Post -> int {
    post => if Truthy(Get(post, "date")) then parse(Get(post, "date").value) else 0
  }

  /** `posts.sort((a, b) => dateB - dateA)`: newest first, the same posts,
      and posts with equal timestamps in reading order. */
  function SortPosts(posts: seq<Post>, parse: String -> int): (r: seq<Post>)
    ensures Sorting.SortedDesc(r, DateKey(parse))
    ensures multiset(r) == multiset(posts)
    ensures forall k :: Sorting.WithKey(r, DateKey(parse), k) == Sorting.WithKey(posts, DateKey(parse), k)
    ensures |r| == |posts|
  {
    var r := Sorting.SortDesc(posts, DateKey(parse));
    assert |r| == |multiset(r)| == |multiset(posts)| == |posts|;
    r
  }

  /** When every date parses to a time after the epoch, no undated post
      comes before a dated one. */
  lemma {:induction false} UndatedLast(posts: seq<Post>, parse: String -> int)
    requires forall p :: p in posts && Truthy(Get(p, "date")) ==> parse(Get(p, "date").value) > 0
    ensures var r := SortPosts(posts, parse);
            forall i, j :: 0 <= i < j < |r| && Truthy(Get(r[j], "date")) ==> Truthy(Get(r[i], "date"))
  {
    var r := SortPosts(posts, parse);
    forall i, j | 0 <= i < j < |r| && Truthy(Get(r[j], "date"))
      ensures Truthy(Get(r[i], "date"))
    {
      assert r[j] in multiset(posts);
      assert DateKey(parse)(r[j]) > 0;
      assert DateKey(parse)(r[i]) >= DateKey(parse)(r[j]);
    }
  }

  // ---------------------------------------------------------------------
  // RSS items

  /** One item as rendered; texts are inserted verbatim. `tagged` is the
      `tags` field's category, `category` the `category` field's. */
  datatype FeedItem = FeedItem(
    title: String,
    description: String,
    link: String,
    guid: String,
    pubDate: String,
    creator: String,
    tagged: seq<String>,
    category: Option<String>)

  /** The local `transformBlogPath` on the post's path, after the site URL.
      It is the same replace as the shared one. */
  function ItemUrl(post: Post): String {
    BaseUrl + Interpolate(BlogUtils.TransformBlogPath(Get(post, PathKey)))
  }

  /** The item of one post. A front-matter value is always a string, so a
      `tags` line gives one category holding its whole text, never a list. */
  function BuildItem(post: Post, clock: Clock): (item: FeedItem)
    ensures item.link == item.guid == ItemUrl(post)
    ensures item.title != [] && item.creator != []
    ensures Truthy(Get(post, "title")) ==> item.title == Get(post, "title").value
    ensures !Truthy(Get(post, "title")) ==> item.title == UntitledTitle
    ensures Truthy(Get(post, "description")) ==> item.description == Get(post, "description").value
    ensures !Truthy(Get(post, "description")) && Truthy(Get(post, "excerpt")) ==> item.description == Get(post, "excerpt").value
    ensures !Truthy(Get(post, "description")) && !Truthy(Get(post, "excerpt")) ==> item.description == []
    ensures Truthy(Get(post, "date")) ==> item.pubDate == clock.utcString(Get(post, "date").value)
    ensures !Truthy(Get(post, "date")) ==> item.pubDate == clock.nowUtc
    ensures Truthy(Get(post, "author")) ==> item.creator == Get(post, "author").value
    ensures !Truthy(Get(post, "author")) ==> item.creator == DefaultAuthor
    ensures |item.tagged| <= 1 && (item.tagged != [] <==> Truthy(Get(post, "tags")))
    ensures item.tagged != [] ==> item.tagged[0] == Get(post, "tags").value
    ensures item.category.Some? <==> Truthy(Get(post, "category"))
    ensures item.category.Some? ==> item.category == Get(post, "category")
  {
    var date := Get(post, "date");
    var link := ItemUrl(post);
    FeedItem(
      Or(Get(post, "title"), UntitledTitle),
      Or(Get(post, "description"), Or(Get(post, "excerpt"), [])),
      link,
      link,
      if Truthy(date) then clock.utcString(date.value) else clock.nowUtc,
      Or(Get(post, "author"), DefaultAuthor),
      if Truthy(Get(post, "tags")) then [Get(post, "tags").value] else [],
      if Truthy(Get(post, "category")) then Get(post, "category") else None)
  }

  function BuildItems(posts: seq<Post>, clock: Clock): (r: seq<FeedItem>)
    ensures |r| == |posts|
    ensures forall i :: 0 <= i < |r| ==> r[i] == BuildItem(posts[i], clock)
  {
    if posts == [] then [] else [BuildItem(posts[0], clock)] + BuildItems(posts[1..], clock)
  }

  /** `posts.slice(0, 20).map(...)` over the sorted posts. */
  function FeedItems(sorted: seq<Post>, clock: Clock): (r: seq<FeedItem>)
    ensures |r| == if |sorted| <= FeedCap then |sorted| else FeedCap
    ensures forall i :: 0 <= i < |r| ==> r[i] == BuildItem(sorted[i], clock)
  {
    BuildItems(Sorting.Take(sorted, FeedCap), clock)
  }

  /** The feed holds the 20 newest posts: every item's post is at least as
      new as every post left out, and the items come newest first. */
  lemma {:induction false} FeedKeepsNewest(posts: seq<Post>, clock: Clock)
    ensures var sorted := SortPosts(posts, clock.parse);
            var items := FeedItems(sorted, clock);
            && (forall i :: 0 <= i < |items| ==> sorted[i] in posts && items[i] == BuildItem(sorted[i], clock))
            && (forall i, j :: 0 <= i < |items| <= j < |sorted| ==>
                  DateKey(clock.parse)(sorted[i]) >= DateKey(clock.parse)(sorted[j]))
            && (forall i, j :: 0 <= i < j < |items| ==>
                  DateKey(clock.parse)(sorted[i]) >= DateKey(clock.parse)(sorted[j]))
  {
    var sorted := SortPosts(posts, clock.parse);
    var items := FeedItems(sorted, clock);
    forall i | 0 <= i < |items|
      ensures sorted[i] in posts
    {
      assert sorted[i] in multiset(posts);
    }
  }

  // ---------------------------------------------------------------------
  // RSS text, whitespace as in the template

  function ElementsOf(name: String, texts: seq<String>): String {
    if texts == [] then [] else "<" + name + ">" + texts[0] + "</" + name + ">" + ElementsOf(name, texts[1..])
  }

  const ItemOpen: String := "\n    <item>\n      <title><![CDATA["
  const ItemClose: String := "    </item>\n    "

  /** One item's text, from the newline before `<item>` to the
      indentation after `</item>`. */
  function SerializeItem(item: FeedItem): (r: String)
    ensures StartsWith(r, ItemOpen) && EndsWith(r, ItemClose)
  {
    var body := item.title + "]]></title>\n"
      + "      <description><![CDATA[" + item.description + "]]></description>\n"
      + "      <link>" + item.link + "</link>\n"
      + "      <guid>" + item.guid + "</guid>\n"
      + "      <pubDate>" + item.pubDate + "</pubDate>\n"
      + "      <dc:creator>" + item.creator + "</dc:creator>\n"
      + "      " + ElementsOf("category", item.tagged) + "\n"
      + "      " + (match item.category case None => "" case Some(c) => "<category>" + c + "</category>") + "\n";
    StartsWithAppend(ItemOpen, body + ItemClose);
    EndsWithAppend(body, ItemClose);
    EndsWithPrepend(ItemOpen, body + ItemClose, ItemClose);
    ItemOpen + (body + ItemClose)
  }

  /** `map(...).join('')` of the item texts. */
  function SerializeItems(items: seq<FeedItem>): String {
    Seqs.ConcatMap(items, SerializeItem)
  }

  /** The template text between the XML declaration and the items: the
      channel's fixed fields around the build time. */
  const HeadBeforeDate: String :=
    "<rss version=\"2.0\" xmlns:atom=\"http://www.w3.org/2005/Atom\" xmlns:content=\"http://purl.org/rss/1.0/modules/content/\" xmlns:dc=\"http://purl.org/dc/elements/1.1/\">\n"
    + "  <channel>\n"
    + "    <title>Vipin Kumar Madhaan - DevPy Blog</title>\n"
    + "    <description>Latest blog posts from Vipin Kumar Madhaan on web development, technology, and programming. Senior Software Engineer sharing insights on modern web technologies, Vue.js, TypeScript, and full-stack development.</description>\n"
    + "    <link>" + BaseUrl + "</link>\n"
    + "    <atom:link href=\"" + BaseUrl + "/rss.xml\" rel=\"self\" type=\"application/rss+xml\"/>\n"
    + "    <language>en</language>\n"
    + "    <lastBuildDate>"
  const HeadAfterDate: String :=
    "</lastBuildDate>\n"
    + "    <generator>Nuxt 4.1.2</generator>\n"
    + "    <managingEditor>Vipin.Madhaan@gmail.com (Vipin Kumar Madhaan)</managingEditor>\n"
    + "    <webMaster>Vipin.Madhaan@gmail.com (Vipin Kumar Madhaan)</webMaster>\n"
    + "    <image>\n"
    + "      <url>" + BaseUrl + "/vipin.webp</url>\n"
    + "      <title>Vipin Kumar Madhaan - DevPy Blog</title>\n"
    + "      <link>" + BaseUrl + "</link>\n"
    + "      <width>144</width>\n"
    + "      <height>144</height>\n"
    + "    </image>\n"
    + "    "
  const FeedClose: String := "\n  </channel>\n</rss>"

  /** The feed file's text: the XML declaration, the channel head, the
      items' texts in order, and the closing tags. */
  function RssText(items: seq<FeedItem>, nowUtc: String): (r: String)
    ensures StartsWith(r, XmlEscape.Declaration)
    ensures EndsWith(r, SerializeItems(items) + FeedClose)
  {
    var head := HeadBeforeDate + nowUtc + HeadAfterDate;
    var tail := SerializeItems(items) + FeedClose;
    StartsWithAppend(XmlEscape.Declaration, head + tail);
    EndsWithAppend(head, tail);
    EndsWithPrepend(XmlEscape.Declaration, head + tail, tail);
    XmlEscape.Declaration + (head + tail)
  }

  /** What `generateRSSFeed` writes and what it returns: the feed's items,
      whose file text is `RssText(items, clock.nowUtc)`, and the sorted
      posts. */
  datatype FeedOutput = FeedOutput(items: seq<FeedItem>, posts: seq<Post>)

  /** `generateRSSFeed`: the posts read, newest first with ties in listing
      order, for the sitemap, and the feed of the items of the first 20 of
      them, in that order. */
  function GenerateRssFeed(files: seq<BlogFile>, clock: Clock): (out: FeedOutput)
    ensures multiset(out.posts) == multiset(ReadPosts(files))
    ensures Sorting.SortedDesc(out.posts, DateKey(clock.parse))
    ensures forall k :: Sorting.WithKey(out.posts, DateKey(clock.parse), k) == Sorting.WithKey(ReadPosts(files), DateKey(clock.parse), k)
    ensures |out.items| == if |out.posts| <= FeedCap then |out.posts| else FeedCap
    ensures forall i :: 0 <= i < |out.items| ==> out.items[i] == BuildItem(out.posts[i], clock)
  {
    var sorted := SortPosts(ReadPosts(files), clock.parse);
    FeedOutput(FeedItems(sorted, clock), sorted)
  }

  /** In the feed text of `a + b`, the texts of `a`'s items come first,
      then those of `b`'s, then the closing tags. */
  lemma {:induction false} RssTextInOrder(a: seq<FeedItem>, b: seq<FeedItem>, nowUtc: String)
    ensures EndsWith(RssText(a + b, nowUtc), SerializeItems(a) + SerializeItems(b) + FeedClose)
  {
    Seqs.ConcatMapAppend(a, b, SerializeItem);
  }

  /** The feed's file text: it ends with the texts of the returned items,
      in order, and the closing tags. */
  function FeedText(out: FeedOutput, clock: Clock): (r: String)
    ensures StartsWith(r, XmlEscape.Declaration)
    ensures EndsWith(r, SerializeItems(out.items) + FeedClose)
  {
    RssText(out.items, clock.nowUtc)
  }

  /** The posts handed on to the sitemap are the posts read, newest first,
      at most one per file, each with a path under `/blog/`. */
  lemma {:induction false} ReturnedPosts(files: seq<BlogFile>, clock: Clock)
    ensures var posts := GenerateRssFeed(files, clock).posts;
            && |posts| <= |files|
            && (forall i :: 0 <= i < |posts| ==> Get(posts[i], PathKey).Some? && StartsWith(Get(posts[i], PathKey).value, BlogSlash))
  {
    var read := ReadPosts(files);
    var posts := GenerateRssFeed(files, clock).posts;
    assert |posts| == |multiset(posts)| == |multiset(read)| == |read|;
    forall i | 0 <= i < |posts|
      ensures Get(posts[i], PathKey).Some? && StartsWith(Get(posts[i], PathKey).value, BlogSlash)
    {
      assert posts[i] in multiset(read);
      var k :| 0 <= k < |read| && read[k] == posts[i];
    }
  }

  // ---------------------------------------------------------------------
  // Sitemap

  /** One `<url>`; `loc` is None when the post has no `_path`, which the
      template prints as `undefined`. */
  datatype Page = Page(loc: Option<String>, changefreq: String, priority: String, lastmod: Option<String>)

  function StaticPages(): (r: seq<Page>)
    ensures |r| == 3
    ensures forall i :: 0 <= i < 3 ==> r[i].lastmod.None?
  {
    [Page(Some("/"), "weekly", "1.0", None),
     Page(Some("/about"), "monthly", "0.8", None),
     Page(Some("/blog"), "daily", "0.9", None)]
  }

  /** `new Date().toISOString().split('T')[0]`. */
  function Today(nowIso: String): String {
    Split(nowIso, 'T')[0]
  }

  /** For an ISO time stamp, today is its date part. */
  lemma {:induction false} TodayOf(day: String, time: String)
    requires 'T' !in day
    ensures Today(day + "T" + time) == day
  {
    var s := day + "T" + time;
    var r0 := Split(s, 'T')[0];
    assert s[|day|] == 'T';
    assert s[..|day|] == day;
  }

  /** A post's page: the transformed path, monthly, priority 0.7, and the
      update date, else the date, else today. */
  function BlogPage(post: Post, today: String): (page: Page)
    ensures page.loc == BlogUtils.TransformBlogPath(Get(post, PathKey))
    ensures page.changefreq == "monthly" && page.priority == "0.7"
    ensures page.lastmod.Some?
    ensures Truthy(Get(post, "dateUpdated")) ==> page.lastmod == Get(post, "dateUpdated")
    ensures !Truthy(Get(post, "dateUpdated")) && Truthy(Get(post, "date")) ==> page.lastmod == Get(post, "date")
    ensures !Truthy(Get(post, "dateUpdated")) && !Truthy(Get(post, "date")) ==> page.lastmod == Some(today)
  {
    Page(
      BlogUtils.TransformBlogPath(Get(post, PathKey)),
      "monthly",
      "0.7",
      Some(Or(Get(post, "dateUpdated"), Or(Get(post, "date"), today))))
  }

  function BlogPages(posts: seq<Post>, today: String): (r: seq<Page>)
    ensures |r| == |posts|
    ensures forall i :: 0 <= i < |r| ==> r[i] == BlogPage(posts[i], today)
  {
    if posts == [] then [] else [BlogPage(posts[0], today)] + BlogPages(posts[1..], today)
  }

  /** `[...staticPages, ...blogPages]`: the three static pages, then one
      page per post in the order given, 3 + n in all. */
  function AllPages(posts: seq<Post>, nowIso: String): (r: seq<Page>)
    ensures |r| == 3 + |posts|
    ensures r[..3] == StaticPages()
    ensures forall i :: 0 <= i < |posts| ==> r[3 + i] == BlogPage(posts[i], Today(nowIso))
  {
    var blog := BlogPages(posts, Today(nowIso));
    var r := StaticPages() + blog;
    assert forall i :: 0 <= i < |posts| ==> r[3 + i] == blog[i];
    r
  }

  /** The `<lastmod>` line's text: the element when the date is non-empty,
      nothing otherwise. */
  function LastmodElement(lastmod: Option<String>): (r: String)
    ensures r != [] <==> Truthy(lastmod)
  {
    if Truthy(lastmod) then "<lastmod>" + lastmod.value + "</lastmod>" else []
  }

  const PageOpen: String := "\n  <url>\n    <loc>" + BaseUrl
  const PageClose: String := "  </url>\n  "

  /** One page's text, from the newline before `<url>` to the indentation
      after `</url>`. */
  function SerializePage(page: Page): (r: String)
    ensures StartsWith(r, PageOpen) && EndsWith(r, PageClose)
  {
    var body := Interpolate(page.loc) + "</loc>\n"
      + "    <changefreq>" + page.changefreq + "</changefreq>\n"
      + "    <priority>" + page.priority + "</priority>\n"
      + "    " + LastmodElement(page.lastmod) + "\n";
    StartsWithAppend(PageOpen, body + PageClose);
    EndsWithAppend(body, PageClose);
    EndsWithPrepend(PageOpen, body + PageClose, PageClose);
    PageOpen + (body + PageClose)
  }

  /** `map(...).join('')` of the page texts. */
  function SerializePages(pages: seq<Page>): String {
    Seqs.ConcatMap(pages, SerializePage)
  }

  /** The text of concatenated page lists is the first list's text
      followed by the second's. */
  lemma {:induction false} SerializePagesAppend(a: seq<Page>, b: seq<Page>)
    ensures SerializePages(a + b) == SerializePages(a) + SerializePages(b)
  {
    Seqs.ConcatMapAppend(a, b, SerializePage);
  }

  const UrlsetOpen: String := "<urlset xmlns=\"http://www.sitemaps.org/schemas/sitemap/0.9\">\n  "
  const UrlsetClose: String := "\n</urlset>"

  /** `generateSitemap`'s file text: the XML declaration, `<urlset>`, the
      three static pages' texts, then one page text per post in order, and
      the closing tag. */
  function SitemapText(posts: seq<Post>, nowIso: String): (r: String)
    ensures StartsWith(r, XmlEscape.Declaration)
    ensures EndsWith(r, SerializePages(StaticPages()) + SerializePages(BlogPages(posts, Today(nowIso))) + UrlsetClose)
  {
    var blog := BlogPages(posts, Today(nowIso));
    assert AllPages(posts, nowIso) == StaticPages() + blog;
    SerializePagesAppend(StaticPages(), blog);
    var tail := SerializePages(AllPages(posts, nowIso)) + UrlsetClose;
    StartsWithAppend(XmlEscape.Declaration, UrlsetOpen + tail);
    EndsWithAppend(UrlsetOpen, tail);
    EndsWithPrepend(XmlEscape.Declaration, UrlsetOpen + tail, tail);
    XmlEscape.Declaration + (UrlsetOpen + tail)
  }

  /** Every post page carries a `<lastmod>` unless the post has neither
      date and the clock's date part is empty; the static pages never do. */
  lemma {:induction false} LastmodShown(posts: seq<Post>, nowIso: String)
    ensures var pages := AllPages(posts, nowIso);
            && (forall i :: 0 <= i < 3 ==> LastmodElement(pages[i].lastmod) == [])
            && (forall i :: 0 <= i < |posts| ==>
                  (LastmodElement(pages[3 + i].lastmod) != []
                   <==> Truthy(Get(posts[i], "dateUpdated")) || Truthy(Get(posts[i], "date")) || Today(nowIso) != []))
  {
    var pages := AllPages(posts, nowIso);
    assert forall i :: 0 <= i < 3 ==> pages[i] == StaticPages()[i];
  }
}
