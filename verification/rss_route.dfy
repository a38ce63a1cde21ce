/** The RSS 2.0 feed route (server/routes/rss.xml.ts): every post with a
    non-empty path becomes one item, in the order the posts come from the
    content query, with its text fields escaped; the channel carries the
    site settings with their fallbacks. Feeds are built as records and
    then serialised. */
module RssRoute {
  import opened Wrappers
  import Seqs
  import opened Strings
  import opened XmlEscape
  import BlogPaths

  /** A post as the content query returns it; `tags` is None when the
      field is not an array. */
  datatype RoutePost = RoutePost(
    path: Option<String>,
    title: Option<String>,
    description: Option<String>,
    date: Option<String>,
    tags: Option<seq<String>>)

  /** The public runtime configuration. */
  datatype SiteConfig = SiteConfig(
    siteUrl: Option<String>,
    siteName: Option<String>,
    siteDescription: Option<String>)

  /** The platform functions the route calls: `decodeURI`, `new URL(path,
      base).toString()`, `new Date(date).toUTCString()`, and the current
      time as `toUTCString` prints it. */
  datatype Runtime = Runtime(
    decodeUri: String -> String,
    resolveUrl: (String, String) -> String,
    utcString: String -> String,
    nowUtc: String)

  const DefaultSiteUrl: String := "https://devpy.de"
  const DefaultSiteName: String := "Site"
  const UntitledTitle: String := "Untitled"

  /** One `<item>`, every field already escaped. */
  datatype RssItem = RssItem(
    title: String,
    link: String,
    guid: String,
    pubDate: String,
    description: Option<String>,
    categories: seq<String>)

  datatype Channel = Channel(
    title: String,
    link: String,
    description: Option<String>,
    lastBuildDate: String,
    items: seq<RssItem>)

  function SiteUrl(cfg: SiteConfig): String {
    Or(cfg.siteUrl, DefaultSiteUrl)
  }

  /** Posts that yield an item: a string path of length at least one. */
  predicate Routable(post: RoutePost) {
    Truthy(post.path)
  }

  lemma {:induction false} EscapeXmlEmpty(s: String)
    ensures EscapeXml(s) == [] <==> s == []
  {
    var r := EscapeXml(s);
    if s == [] {
      assert Passes(s) == [];
    }
    assert r == [] ==> Unescape(r) == Some([]);
  }

  /** Escapes each tag text, in order. */
  function EscapeEachText(ts: seq<String>): (r: seq<String>)
    ensures |r| == |ts|
    ensures forall i :: 0 <= i < |r| ==> r[i] == EscapeXml(ts[i])
  {
    if ts == [] then [] else [EscapeXml(ts[0])] + EscapeEachText(ts[1..])
  }

  /** The category texts: one per non-empty tag, in order, duplicates
      kept; none when `tags` is not an array. */
  function Categories(tags: Option<seq<String>>): (r: seq<String>)
    ensures tags.None? ==> r == []
    ensures tags.Some? ==> |r| == |NonEmpty(tags.value)|
    ensures tags.Some? ==> forall i :: 0 <= i < |r| ==>
      r[i] != [] && NoRawMarkup(r[i]) && Unescape(r[i]) == Some(NonEmpty(tags.value)[i])
  {
    match tags
    case None => []
    case Some(ts) =>
      var kept := NonEmpty(ts);
      var r := EscapeEachText(kept);
      forall i | 0 <= i < |r|
        ensures r[i] != []
      {
        EscapeXmlEmpty(kept[i]);
      }
      r
  }

  /** The item built for a routable post. Its title reads back as the
      post's title or `Untitled`; its link and guid are the same escaped
      absolute URL of the cleaned, decoded path; the description is
      present exactly when the post has a non-empty one. No field holds a
      raw `<`, `>`, `"` or `'`, so the element structure is the
      serialiser's alone. */
  function BuildItem(post: RoutePost, cfg: SiteConfig, rt: Runtime): (item: RssItem)
    requires Routable(post)
    ensures item.link == item.guid
    ensures Unescape(item.link)
            == Some(rt.resolveUrl(BlogPaths.CleanBlogPath(rt.decodeUri(post.path.value)), SiteUrl(cfg)))
    ensures Unescape(item.title) == Some(if Truthy(post.title) then post.title.value else UntitledTitle)
    ensures item.description.Some? <==> Truthy(post.description)
    ensures item.description.Some? ==> Unescape(item.description.value) == Some(post.description.value)
    ensures Unescape(item.pubDate) == Some(if Truthy(post.date) then rt.utcString(post.date.value) else rt.nowUtc)
    ensures item.categories == Categories(post.tags)
    ensures NoRawMarkup(item.title) && NoRawMarkup(item.link) && NoRawMarkup(item.pubDate)
    ensures item.description.Some? ==> NoRawMarkup(item.description.value)
  {
    var path := BlogPaths.CleanBlogPath(rt.decodeUri(post.path.value));
    var url := rt.resolveUrl(path, SiteUrl(cfg));
    var description := EscapeXml(Or(post.description, []));
    EscapeXmlEmpty(Or(post.description, []));
    var pubDate := if Truthy(post.date) then rt.utcString(post.date.value) else rt.nowUtc;
    RssItem(
      EscapeXml(Or(post.title, UntitledTitle)),
      EscapeXml(url),
      EscapeXml(url),
      EscapeXml(pubDate),
      if description != [] then Some(description) else None,
      Categories(post.tags))
  }

  /** `posts.filter(routable).map(buildItem)`. */
  function Items(posts: seq<RoutePost>, cfg: SiteConfig, rt: Runtime): (r: seq<RssItem>)
    ensures |r| <= |posts|
  {
    if posts == [] then []
    else if Routable(posts[0]) then [BuildItem(posts[0], cfg, rt)] + Items(posts[1..], cfg, rt)
    else Items(posts[1..], cfg, rt)
  }

  /** The posts that yield an item, in order. */
  function RoutablePosts(posts: seq<RoutePost>): (r: seq<RoutePost>)
    ensures forall p :: p in r <==> p in posts && Routable(p)
    ensures forall p :: multiset(r)[p] == if Routable(p) then multiset(posts)[p] else 0
  {
    if posts == [] then []
    else
      assert posts == [posts[0]] + posts[1..];
      if Routable(posts[0]) then [posts[0]] + RoutablePosts(posts[1..])
      else RoutablePosts(posts[1..])
  }

  /** Filtering distributes over concatenation: the routable posts keep
      the query's order. */
  lemma {:induction false} RoutablePostsAppend(a: seq<RoutePost>, b: seq<RoutePost>)
    ensures RoutablePosts(a + b) == RoutablePosts(a) + RoutablePosts(b)
  {
    if a == [] {
      assert a + b == b;
    } else {
      assert (a + b)[1..] == a[1..] + b;
      RoutablePostsAppend(a[1..], b);
    }
  }

  /** One item per post, in order. */
  function BuildItems(posts: seq<RoutePost>, cfg: SiteConfig, rt: Runtime): (r: seq<RssItem>)
    requires forall p :: p in posts ==> Routable(p)
    ensures |r| == |posts|
    ensures forall i :: 0 <= i < |r| ==> r[i] == BuildItem(posts[i], cfg, rt)
  {
    Seqs.Map(posts, (p: RoutePost) requires Routable(p) => BuildItem(p, cfg, rt))
  }

  /** The items are exactly the routable posts, one each, in query order,
      with no cap. */
  lemma {:induction false} ItemsOfRoutable(posts: seq<RoutePost>, cfg: SiteConfig, rt: Runtime)
    ensures Items(posts, cfg, rt) == BuildItems(RoutablePosts(posts), cfg, rt)
  {
    if posts != [] {
      ItemsOfRoutable(posts[1..], cfg, rt);
      var rrest := RoutablePosts(posts[1..]);
      if Routable(posts[0]) {
        Seqs.MapCons(posts[0], rrest, (p: RoutePost) requires Routable(p) => BuildItem(p, cfg, rt));
      }
    }
  }

  /** Item building distributes over concatenation of post lists, so the
      feed keeps the query's order. */
  lemma {:induction false} ItemsAppend(a: seq<RoutePost>, b: seq<RoutePost>, cfg: SiteConfig, rt: Runtime)
    ensures Items(a + b, cfg, rt) == Items(a, cfg, rt) + Items(b, cfg, rt)
  {
    if a == [] {
      assert a + b == b;
    } else {
      assert (a + b)[1..] == a[1..] + b;
      ItemsAppend(a[1..], b, cfg, rt);
    }
  }

  /** The channel: the site name or `Site`, the site URL or the default,
      a description only when the site has one, the build time, and the
      items. */
  function BuildChannel(cfg: SiteConfig, posts: seq<RoutePost>, rt: Runtime): (c: Channel)
    ensures Unescape(c.title) == Some(Or(cfg.siteName, DefaultSiteName))
    ensures Unescape(c.link) == Some(SiteUrl(cfg))
    ensures c.description.Some? <==> Truthy(cfg.siteDescription)
    ensures c.description.Some? ==> Unescape(c.description.value) == Some(cfg.siteDescription.value)
    ensures Unescape(c.lastBuildDate) == Some(rt.nowUtc)
    ensures c.items == Items(posts, cfg, rt)
  {
    var description := Or(cfg.siteDescription, []);
    EscapeXmlEmpty(description);
    Channel(
      EscapeXml(Or(cfg.siteName, DefaultSiteName)),
      EscapeXml(SiteUrl(cfg)),
      if description != [] then Some(EscapeXml(description)) else None,
      EscapeXml(rt.nowUtc),
      Items(posts, cfg, rt))
  }

  // ---------------------------------------------------------------------
  // Serialisation. Empty parts are dropped before joining with "", which
  // leaves the concatenation unchanged.

  function Element(name: String, text: String): String {
    "<" + name + ">" + text + "</" + name + ">"
  }

  function OptionalElement(name: String, text: Option<String>): String {
    match text
    case None => []
    case Some(t) => Element(name, t)
  }

  function CategoryElements(categories: seq<String>): String {
    if categories == [] then [] else Element("category", categories[0]) + CategoryElements(categories[1..])
  }

  /** One `<item>` element, its parts joined with nothing between them. */
  function SerializeItem(item: RssItem): (r: String)
    ensures StartsWith(r, "<item><title>") && EndsWith(r, "</item>")
  {
    var body := item.title + "</title>"
      + Element("link", item.link)
      + "<guid isPermaLink=\"true\">" + item.guid + "</guid>"
      + Element("pubDate", item.pubDate)
      + OptionalElement("description", item.description)
      + CategoryElements(item.categories);
    StartsWithAppend("<item><title>", body + "</item>");
    EndsWithAppend("<item><title>" + body, "</item>");
    "<item><title>" + (body + "</item>")
  }

  /** `items.join("")` of the item texts. */
  function SerializeItems(items: seq<RssItem>): String {
    Seqs.ConcatMap(items, SerializeItem)
  }

  /** What comes before the channel's fields and after its items. */
  const ChannelOpen: String := Declaration + "<rss version=\"2.0\"><channel>"
  const ChannelClose: String := "</channel></rss>\n"

  /** The document: the declaration, `<rss>` and `<channel>`, the channel's
      fields, the item texts in order, and the closing tags. */
  function SerializeChannel(c: Channel): (r: String)
    ensures StartsWith(r, ChannelOpen)
    ensures EndsWith(r, SerializeItems(c.items) + ChannelClose)
  {
    var fields := Element("title", c.title)
      + Element("link", c.link)
      + OptionalElement("description", c.description)
      + Element("lastBuildDate", c.lastBuildDate);
    var tail := SerializeItems(c.items) + ChannelClose;
    StartsWithAppend(ChannelOpen, fields + tail);
    EndsWithAppend(fields, tail);
    EndsWithPrepend(ChannelOpen, fields + tail, tail);
    ChannelOpen + (fields + tail)
  }

  /** The route's response body: the fixed opening, the channel's fields,
      then the text of one item per post with a path, in query order, and
      the fixed closing. */
  function RssXml(cfg: SiteConfig, posts: seq<RoutePost>, rt: Runtime): (r: String)
    ensures StartsWith(r, ChannelOpen)
    ensures EndsWith(r, SerializeItems(Items(posts, cfg, rt)) + ChannelClose)
  {
    SerializeChannel(BuildChannel(cfg, posts, rt))
  }

  /** The items of a later post follow those of an earlier one in the
      response: the body for `a + b` ends with the item texts of `a`, then
      those of `b`, then the closing tags. */
  lemma {:induction false} RssXmlInQueryOrder(cfg: SiteConfig, a: seq<RoutePost>, b: seq<RoutePost>, rt: Runtime)
    ensures EndsWith(RssXml(cfg, a + b, rt), SerializeItems(Items(a, cfg, rt)) + SerializeItems(Items(b, cfg, rt)) + ChannelClose)
  {
    ItemsAppend(a, b, cfg, rt);
    Seqs.ConcatMapAppend(Items(a, cfg, rt), Items(b, cfg, rt), SerializeItem);
  }
}
