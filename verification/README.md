# devpy blog core, modelled in Dafny

This project models the string and sequence logic of the devpy portfolio and blog: a Nuxt site whose posts are Markdown files with front matter.
The logic covers:

- **Path canonicalisation.** There are three variants:
  - the segment-based `cleanBlogPath` / `stripNumericPrefix`;
  - the regex `transformBlogPath` of `app/utils/blog.ts`, which `scripts/generate-feeds.ts` repeats;
  - the looser regex of `app/utils/rss.ts`.
- **Reading time.** `calculateReadingTime` and `formatReadingTime` of the composable, plus the cruder string estimate in `app/utils/blog.ts`.
- **Related posts.** `getRelatedPosts`: scoring, exclusion of the current post, a stable descending sort, and `slice(0, limit)`.
- **The RSS route.** `escapeXml`, the item and channel records with their fallbacks, and their serialisation.
- **The sitemap source handler.** Posts become `{ loc, lastmod }` entries.
- **The build script.** It reads `.md` files and parses their front matter. It sorts posts newest first, builds the RSS text from the 20 newest, and builds the sitemap from three static pages followed by every post.
- **The client-side `generateRSS`.** It builds items and fails on a missing path. It also defines the sample post of `generateStaticRSS`.

Modules follow the source files:

| module | models |
|---|---|
| `BlogPaths` | `app/utils/blogPaths.ts` |
| `ReadingTime` | `app/composables/useReadingTime.ts` |
| `BlogUtils` | `app/utils/blog.ts` |
| `XmlEscape`, `RssRoute` | `server/routes/rss.xml.ts` |
| `SitemapUrls` | `server/api/__sitemap__/urls.ts` |
| `FrontMatter`, `GenerateFeeds` | `scripts/generate-feeds.ts` |
| `AppRss` | `app/utils/rss.ts` |

Shared modules:

- `Strings` holds the JavaScript string built-ins the code relies on:
  - `trim` and `\s`, over the ECMAScript white-space set;
  - `split` on one character, `join`, `filter(Boolean)`;
  - truthiness, `||`, `??`;
  - the `${undefined}` interpolation.
- `Patterns` holds the seven regular expressions as an anchored matcher, with `replace` (first match) and global `replace` built on it.
- `Sorting` holds the stable descending sort behind `sort((a, b) => kb - ka)`, and `slice(0, limit)`.
- `Wrappers` holds `Option` and `Result`.

Platform functions are parameters of the functions that call them:

- `decodeURI`;
- `new URL(path, base).toString()`;
- `new Date(x).getTime()`;
- `toUTCString()` and `toISOString()`;
- the current time.

Feeds are built as records and then serialised. The serialisers follow the template text, whitespace included. Each serialiser's contract fixes how its text opens and closes (`RssRoute.SerializeItem`, `AppRss.FeedText`, `GenerateFeeds.SitemapText` and the others). The `...Append` lemmas show that joining the texts keeps the items' order.

The segment cleaner drops repeated slashes, the query and the fragment on the blog branch (`BlogPaths.CleanBlogPathSegments`). It ends in a slash exactly when the stripped last segment is empty: `/blog/12-` becomes `/blog/` (`BlogPaths.CleanTrailingSlash`, `BlogPaths.CleanEmptiedExample`).

## Model

| member | source | states |
|---|---|---|
| BlogPaths.StripNumericPrefix | app/utils/blogPaths.ts:1-3 | the result is a suffix of the slug, so never longer; when the slug begins with digits and a dash, exactly that prefix is gone; otherwise the slug comes back unchanged |
| BlogPaths.NoPrefixWhenRunNotDashed | app/utils/blogPaths.ts:2 | when the leading digit run is empty or not followed by `-`, no prefix of the slug matches `^\d+-` |
| BlogPaths.StripNumericPrefixInverse | app/utils/blogPaths.ts:2 | stripping undoes prepending one `<digits>-` prefix: one prefix goes, and the rest, even if it starts with another numbered prefix, is kept |
| BlogPaths.PathSegments | app/utils/blogPaths.ts:10-12 | the segments are all non-empty and hold no `/`, `?` or `#` |
| BlogPaths.PathSegmentsCut | app/utils/blogPaths.ts:10-12 | the segments are the non-empty pieces, split at `/`, of the path before its first `?` or `#` |
| BlogPaths.QueryAndFragmentIgnored | app/utils/blogPaths.ts:10-11 | a query or fragment appended to a path does not change its segments |
| BlogPaths.CleanBlogPath | app/utils/blogPaths.ts:5-24 | a path with fewer than two segments, or whose first segment is not `blog`, comes back unchanged, query and fragment included; a blog path becomes one that starts with `/blog` and has no `?` or `#` |
| BlogPaths.SegmentsOfJoined | app/utils/blogPaths.ts:22-23 | `/` followed by the join of clean segments splits back into exactly those segments |
| BlogPaths.CleanedPathSegments | app/utils/blogPaths.ts:18-23 | when the stripped last segment is non-empty, the cleaned path's segments are `blog`, the middle segments and the stripped last segment |
| BlogPaths.CleanBlogPathSegments | app/utils/blogPaths.ts:10-23 | on a blog path the cleaned path has as many segments as the input, every segment but the last unchanged and the last stripped, so repeated or trailing slashes, query and fragment are gone |
| BlogPaths.CleanBlogPathIdempotent | app/utils/blogPaths.ts:20-23 | cleaning twice equals cleaning once whenever the stripped last segment is non-empty and has no numeric prefix left |
| BlogPaths.CleanIdempotentIff | app/utils/blogPaths.ts:18-23 | when the stripped last segment is non-empty, cleaning twice equals cleaning once exactly when it has no numeric prefix left |
| BlogPaths.CleanBlogPathShrinks | app/utils/blogPaths.ts:18-23 | when the stripped last segment still has a numeric prefix, cleaning again makes the path strictly shorter |
| BlogPaths.RecleanedShorter | app/utils/blogPaths.ts:20-22 | the same on segment lists: re-cleaning a last segment with a second prefix shortens the joined path |
| BlogPaths.CleanJoined | app/utils/blogPaths.ts:12-23 | a path written as `/` and the join of blog segments cleans to `/` and the join of the cleaned segments |
| BlogPaths.CleanEmptiedLast | app/utils/blogPaths.ts:20-23 | when the last segment is only a numeric prefix, the cleaned path is the other segments joined, with a trailing `/` |
| BlogPaths.CleanTrailingSlash | app/utils/blogPaths.ts:20-23 | a cleaned blog path ends in `/` exactly when the stripped last segment is empty |
| BlogPaths.CleanPostPath | app/utils/blogPaths.ts:6-9 | `/blog/<slug>` cleans to `/blog/` followed by the slug without its numeric prefix |
| BlogPaths.CleanNestedPostPath | app/utils/blogPaths.ts:20-22 | in `/blog/<dir>/<slug>` the directory is kept and only the slug loses its prefix |
| BlogPaths.CleanNumberedPost | app/utils/blogPaths.ts:6-9 | every numbered post `/blog/<digits>-<rest>` is listed at `/blog/<rest>` |
| BlogPaths.CleanNestedNumbered | app/utils/blogPaths.ts:20-22 | every `/blog/<dir>/<digits>-<rest>` cleans to `/blog/<dir>/<rest>` |
| BlogPaths.CleanNumberedExample | app/utils/blogPaths.ts:7 | `/blog/12-my-post` becomes `/blog/my-post` |
| BlogPaths.CleanPlainExample | app/utils/blogPaths.ts:8 | `/blog/my-post` is already clean |
| BlogPaths.CleanNestedExample | app/utils/blogPaths.ts:20-22 | `/blog/2024/07-title` becomes `/blog/2024/title` |
| BlogPaths.CleanNotIdempotentExample | app/utils/blogPaths.ts:18-23 | `/blog/12-34-x` cleans to `/blog/34-x`, which cleans again to `/blog/x`: the cleaner is not idempotent |
| BlogPaths.CleanEmptiedExample | app/utils/blogPaths.ts:20-23 | `/blog/12-` becomes `/blog/` |
| Strings.Trim | app/composables/useReadingTime.ts:14 | the result has no white space at either end and is the input with only the leading and trailing white space removed |
| Strings.TrimPadded | app/composables/useReadingTime.ts:14 | trimming white space put before an unpadded text gives that text back |
| Strings.Split | app/utils/blogPaths.ts:10-11 | at least one piece, no piece holds the separator, the first piece is the text before the first separator, and a text without the separator is one piece |
| Strings.JoinSplit | app/utils/blogPaths.ts:10-12 | joining the pieces of a split with the separator gives the text back |
| Strings.SplitJoin | app/utils/blogPaths.ts:12-23 | splitting a join of separator-free pieces gives the pieces back |
| Strings.NonEmpty | app/utils/blogPaths.ts:12 | `filter(Boolean)` keeps exactly the non-empty pieces |
| Strings.NonEmptyAppend | app/utils/blogPaths.ts:12 | the filter distributes over concatenation |
| Strings.NatToString | app/composables/useReadingTime.ts:25 | the decimal text of a number is all digits, with no leading zero |
| Strings.DigitsValueOfNatToString | app/composables/useReadingTime.ts:25 | reading the decimal text back gives the number |
| Patterns.MatchAt | app/composables/useReadingTime.ts:9-13 | an anchored match is at least one character long and fits in the text; what each pattern matches is `Patterns.MatchedText`, and the two blog-path patterns are `BlogUtils.DashMatchShape` and `AppRss.SepMatchOf` |
| Patterns.MatchedText | app/composables/useReadingTime.ts:9-13 | a fenced block runs from its opening fence to the first fence after it; a code span or a tag has no closing character before its last; a markdown mark is one character of the class; a newline match is the whole run of newlines |
| Patterns.FirstMatch | app/utils/blog.ts:11 | the index of the leftmost match: a match starts there and none starts earlier; None exactly when no index matches |
| Patterns.ReplaceAll | app/composables/useReadingTime.ts:8-13 | the `/g` scan: deleting the matches never lengthens the text; `Patterns.RemoveAllShortens`, `Patterns.ReplaceAllNoMatch`, `Patterns.RemoveAllChars` and `ReadingTime.ReplaceAllSkip` state the rest |
| Patterns.RemoveAllShortens | app/composables/useReadingTime.ts:9-12 | deleting the matches shortens the text exactly when some index holds a match |
| Patterns.ReplaceFirst | app/utils/blog.ts:11 | without a match the text is unchanged; otherwise the leftmost match alone is replaced |
| Patterns.ReplaceAllNoMatch | app/composables/useReadingTime.ts:9-13 | a global replace on text with no match anywhere changes nothing |
| Patterns.RemoveAllChars | app/composables/useReadingTime.ts:9-12 | a global replace by the empty string only deletes characters |
| ReadingTime.CeilDiv | app/composables/useReadingTime.ts:19 | the least number of minutes that covers the words: `r*b >= a`, `(r-1)*b < a`, and zero only for no words |
| ReadingTime.SplitSpaces | app/composables/useReadingTime.ts:16-17 | `split(/\s+/)` yields at least one piece and no piece holds white space |
| ReadingTime.SplitCountsWords | app/composables/useReadingTime.ts:16-18 | the number of non-empty pieces of the split equals the reference word count (maximal runs of non-white-space) |
| ReadingTime.WordsOfSplitStep | app/composables/useReadingTime.ts:16-18 | a space-free head, a white-space run and a rest hold one word for a non-empty head plus the words of the rest |
| ReadingTime.TrimKeepsWords | app/composables/useReadingTime.ts:14 | trimming does not change the word count |
| ReadingTime.SplitTrimmedCountsWords | app/utils/blog.ts:35 | a non-empty text with no white space at either end splits into exactly its words, with no empty piece |
| ReadingTime.CalculateReadingTime | app/composables/useReadingTime.ts:1-20 | empty content takes 0 minutes; otherwise the ceiling of the cleaned text's word count over the speed, zero exactly when no word survives cleaning |
| ReadingTime.FormatReadingTime | app/composables/useReadingTime.ts:22-26 | below one minute `< 1 min read`; otherwise a digit string whose value is the minutes, followed by ` min read` |
| ReadingTime.RemoveInlineLeavesOneBacktick | app/composables/useReadingTime.ts:10 | after the inline-code pass at most one backtick remains |
| ReadingTime.RemoveTagsIsTagFree | app/composables/useReadingTime.ts:11 | after the tag pass no `<` has a `>` after it |
| ReadingTime.RemoveMarksIsMarkFree | app/composables/useReadingTime.ts:12 | after the punctuation pass none of `#*_~[]()` remains |
| ReadingTime.SpacingIsNewlineFree | app/composables/useReadingTime.ts:13 | after the newline pass no newline remains |
| ReadingTime.SpacingKeepsMarkFree | app/composables/useReadingTime.ts:13 | the newline pass introduces no punctuation |
| ReadingTime.ReplaceKeepsTagFree | app/composables/useReadingTime.ts:12-13 | the later passes keep a text tag-free |
| ReadingTime.PassesStripMarkup | app/composables/useReadingTime.ts:9-13 | the five passes in order leave no markup: no punctuation, no newline, no tag, at most one backtick |
| ReadingTime.TrimKeepsMarkupFree | app/composables/useReadingTime.ts:14 | trimming keeps a text markup-free |
| ReadingTime.CleanTextStripsMarkup | app/composables/useReadingTime.ts:8-14 | the cleaned text holds no punctuation `#*_~[]()`, no newline, no `<` followed by `>`, and at most one backtick |
| ReadingTime.ReplaceAllSkip | app/composables/useReadingTime.ts:9-11 | a global replace passes unchanged over a prefix in which its pattern cannot start: no backtick for the code patterns, no `<` for the tag pattern |
| ReadingTime.FencePassKeepsSpan | app/composables/useReadingTime.ts:9 | the fence pass leaves text with one backtick pair unchanged |
| ReadingTime.InlinePassRemovesSpan | app/composables/useReadingTime.ts:10 | the inline-code pass removes a backtick pair and its contents, and nothing else |
| ReadingTime.InlineSpanRemoved | app/composables/useReadingTime.ts:9-10 | the first two passes remove an inline code span and keep the text around it |
| ReadingTime.FenceRemoved | app/composables/useReadingTime.ts:9 | the fence pass removes a fenced block and keeps the text around it |
| ReadingTime.TagRemoved | app/composables/useReadingTime.ts:11 | the tag pass removes the first tag and keeps the text before it |
| ReadingTime.InlineCodeNotCounted | app/composables/useReadingTime.ts:8-14 | an inline code span in backtick-free text cleans away: the text cleans as if it were absent |
| ReadingTime.FencedCodeNotCounted | app/composables/useReadingTime.ts:8-14 | a fenced block in backtick-free text cleans as if it were absent |
| ReadingTime.TagNotCounted | app/composables/useReadingTime.ts:8-14 | a tag in backtick-free text, with no `<` before it, cleans as if it were absent |
| ReadingTime.CodeAddsNoTime | app/composables/useReadingTime.ts:1-20 | an inline code span or a fenced block in backtick-free text does not change the reading time |
| ReadingTime.TagAddsNoTime | app/composables/useReadingTime.ts:1-20 | such a tag does not change the reading time |
| ReadingTime.FencedBlockReadsInNoTime | app/composables/useReadingTime.ts:9 | text made of one fenced code block takes 0 minutes |
| BlogUtils.DashMatchShape | app/utils/blog.ts:11 | a match of `/\/blog\/\d+-/` is `/blog/`, at least one digit and a dash |
| BlogUtils.DashMatchOf | app/utils/blog.ts:11 | conversely `/blog/`, digits and a dash match in full |
| BlogUtils.ReplaceDashShape | app/utils/blog.ts:11 | the replace removes the digits and dash after the leftmost `/blog/` followed by them, and nothing else |
| BlogUtils.TransformBlogPath | app/utils/blog.ts:8-12 | an absent or empty path is returned as it is; a path without a match is unchanged; otherwise only the leftmost `/blog/<digits>-` becomes `/blog/`; the path never grows |
| BlogUtils.TransformLeadingNumber | app/utils/blog.ts:4-11 | `/blog/<digits>-<rest>` becomes `/blog/<rest>` |
| BlogUtils.TransformExample | app/utils/blog.ts:5-6 | `/blog/1-my-post` becomes `/blog/my-post` |
| BlogUtils.TrimmedSplitLength | app/utils/blog.ts:35 | `trim().split(/\s+/)` yields as many pieces as the text has words, and one piece when it has none |
| BlogUtils.CrudeReadingTime | app/utils/blog.ts:19-39 | absent or empty content reads in 0 minutes; any other text, white space only included, in at least 1, the ceiling of its word count (at least one) over 200 |
| BlogUtils.SharedTagsBounds | app/utils/blog.ts:81-86 | the shared-tag count is at most the current post's tag count, all of them when every tag is shared, none when none is |
| BlogUtils.Score | app/utils/blog.ts:72-98 | never negative, at least 3 for the same category, and odd exactly when one of "same category" and "within 90 days" holds, since shared tags add an even amount; `BlogUtils.ScoreRange` and `BlogUtils.ScoreOfUnrelated` bound it |
| BlogUtils.ScoreRange | app/utils/blog.ts:72-98 | a score lies between 0 and 4 + 2 × the current post's tag count, and a post equal in category, tags and date reaches the maximum |
| BlogUtils.ScoreOfUnrelated | app/utils/blog.ts:72-98 | a post with another category, no shared tag and a date 90 days or more away (or unparsable) scores 0 |
| BlogUtils.OtherPosts | app/utils/blog.ts:69 | exactly the posts whose path differs from the current one's, each as often as in the post list |
| BlogUtils.OtherPostsAppend | app/utils/blog.ts:69 | the filter distributes over concatenation, so candidates keep the post list order |
| BlogUtils.ScoreAll | app/utils/blog.ts:72-98 | one scored copy per post, in order, carrying its true score |
| BlogUtils.RankedMembers | app/utils/blog.ts:69-102 | a scored post is ranked exactly when it is a non-current post with its true score |
| BlogUtils.TakenMembers | app/utils/blog.ts:101-103 | every kept post is a non-current post with its true score |
| BlogUtils.TakenTop | app/utils/blog.ts:101-103 | no candidate left out scores more than one kept |
| BlogUtils.RankedFacts | app/utils/blog.ts:101-103 | the ranking holds every candidate; the cut is sorted, holds only true candidates, and no left-out copy of a candidate, counting equal copies, outscores a kept post |
| BlogUtils.RankedPrefix | app/utils/blog.ts:101-103 | the kept posts hold no post more often than the candidates, and those of equal score are a prefix of the candidates with that score, in order |
| BlogUtils.GetRelatedPosts | app/utils/blog.ts:61-104 | nothing for no current post or no posts; otherwise only non-current posts with their true scores, non-increasing, as many as `slice(0, limit)` allows of the candidates, no post more often than it occurs, posts of equal score in list order, and no left-out copy of a candidate, counting equal copies, outscores a kept post |
| BlogUtils.GetRelatedPostsDefault | app/utils/blog.ts:58-65 | with the limit left out, at most 3 posts, and the start of what any larger limit returns |
| Sorting.InsertSorted | app/utils/blog.ts:101-102 | inserting into a descending sequence keeps it descending |
| Sorting.InsertMultiset | app/utils/blog.ts:101-102 | insertion adds exactly the element |
| Sorting.InsertWithKey | app/utils/blog.ts:101-102 | insertion puts the element before the others of its key; the sort inserts each head into its sorted tail, so equal keys keep their input order |
| Sorting.InsertFirst | app/utils/blog.ts:101-102 | inserting the first element into the sorted rest sorts the whole, stably |
| Sorting.SortDesc | app/utils/blog.ts:101-102 | the result is in non-increasing key order, a permutation of the input, and keeps the input order among equal keys |
| Sorting.SliceEnd | app/utils/blog.ts:103 | where `slice(0, limit)` ends, a negative limit counting back from the end |
| Sorting.Take | app/utils/blog.ts:103 | `slice(0, limit)` is the prefix up to that end |
| Sorting.PrefixKeepsTop | app/utils/blog.ts:101-103 | a prefix of a descending sequence is descending and no later element outscores an element of the prefix |
| Sorting.PrefixMultiset | app/utils/blog.ts:103 | a prefix holds no element more often than the whole |
| Sorting.WithKeyPrefix | app/utils/blog.ts:103 | for each key, the elements of a prefix with that key are a prefix of the whole's, so a cut keeps a stable order stable |
| XmlEscape.PassesAppend | server/routes/rss.xml.ts:15-20 | the five passes distribute over concatenation |
| XmlEscape.PassesOnChar | server/routes/rss.xml.ts:15-20 | a single character passes through to its entity, or stays itself when it is not one of the five |
| XmlEscape.PassesEscapeEach | server/routes/rss.xml.ts:15-20 | because `&` goes first, the chained passes equal escaping each character independently |
| XmlEscape.UnescapeEscapeEach | server/routes/rss.xml.ts:14-21 | decoding the five entities undoes the escape |
| XmlEscape.EscapeEachNoRaw | server/routes/rss.xml.ts:14-21 | the escape leaves no raw `<`, `>`, `"` or `'` |
| XmlEscape.EscapeXml | server/routes/rss.xml.ts:14-21 | the escaped text has no raw `<`, `>`, `"` or `'`, and decoding the five entities gives the input back |
| XmlEscape.EscapeXmlComplete | server/routes/rss.xml.ts:14-21 | a raw-markup-free text that decodes to `s` is the escape of `s`: the escape is the only encoding the decoder accepts |
| XmlEscape.EscapeEachComplete | server/routes/rss.xml.ts:14-21 | the per-character form of that uniqueness |
| RssRoute.EscapeXmlEmpty | server/routes/rss.xml.ts:58 | the escape is empty exactly when its input is, so the description element is dropped exactly for an empty description |
| RssRoute.Categories | server/routes/rss.xml.ts:45-50 | no categories when `tags` is not an array; otherwise one non-empty escaped text per non-empty tag, in order, each decoding to its tag |
| RssRoute.BuildItem | server/routes/rss.xml.ts:35-64 | link and guid are the same escaped URL of the cleaned, decoded path; the title decodes to the post's title or `Untitled`; the description is present exactly for a non-empty one; the date falls back to the build time; no field holds raw markup |
| RssRoute.Items | server/routes/rss.xml.ts:33-65 | at most one item per post |
| RssRoute.RoutablePosts | server/routes/rss.xml.ts:34 | exactly the posts with a non-empty path, each as often as in the query result |
| RssRoute.RoutablePostsAppend | server/routes/rss.xml.ts:34 | the filter distributes over concatenation, so the query order is kept |
| RssRoute.BuildItems | server/routes/rss.xml.ts:35-64 | one item per post, the i-th built from the i-th post |
| RssRoute.ItemsOfRoutable | server/routes/rss.xml.ts:33-65 | the items are exactly one per post with a non-empty path, in query order, with no cap |
| RssRoute.ItemsAppend | server/routes/rss.xml.ts:33-65 | item building distributes over concatenation, so the feed keeps the query order |
| RssRoute.BuildChannel | server/routes/rss.xml.ts:67-77 | the title decodes to the site name or `Site`, the link to the site URL or the default, a description only for a non-empty site description, the build date, and the items |
| RssRoute.SerializeItem | server/routes/rss.xml.ts:52-63 | an item's text opens with `<item><title>` and closes with `</item>`, so the joined texts split back into items |
| RssRoute.SerializeChannel | server/routes/rss.xml.ts:67-79 | the document opens with the XML declaration, `<rss version="2.0">` and `<channel>`, and ends with the channel's item texts in order, `</channel></rss>` and a newline |
| RssRoute.RssXml | server/routes/rss.xml.ts:29-82 | the response opens with the fixed declaration and tags and ends with the texts of the items of the posts with a path, in query order, then the fixed closing |
| RssRoute.RssXmlInQueryOrder | server/routes/rss.xml.ts:33-79 | the response for posts `a + b` ends with the item texts of `a`, then those of `b`, then the closing tags |
| SitemapUrls.Entry | server/api/__sitemap__/urls.ts:16-25 | `loc` is the cleaned decoded path; `lastmod` is `dateUpdated` when non-empty, else `date`, which may be absent |
| SitemapUrls.Urls | server/api/__sitemap__/urls.ts:14-26 | at most one entry per post |
| SitemapUrls.WithPath | server/api/__sitemap__/urls.ts:15 | exactly the posts with a non-empty path, each as often as in the query result |
| SitemapUrls.WithPathAppend | server/api/__sitemap__/urls.ts:15 | the filter distributes over concatenation, so the query order is kept |
| SitemapUrls.Entries | server/api/__sitemap__/urls.ts:16-25 | one entry per post, the i-th built from the i-th post |
| SitemapUrls.UrlsOfPostsWithPath | server/api/__sitemap__/urls.ts:14-26 | exactly one entry per post with a path, in input order, and no static pages |
| SitemapUrls.UrlsAppend | server/api/__sitemap__/urls.ts:14-26 | the entries of concatenated post lists are the concatenated entries |
| SitemapUrls.PostLocation | server/api/__sitemap__/urls.ts:18-19 | a post at `/blog/<slug>` that decodes to itself is listed at the slug without its numeric prefix |
| AppRss.SepMatchOf | app/utils/rss.ts:6 | `/\/blog\/\d+[-_]?/` takes the whole digit run and one `-` or `_` after it when there is one |
| AppRss.ReplaceSepShape | app/utils/rss.ts:6 | the replace puts `/blog/` in place of the leftmost `/blog/<digits>`, with one `-` or `_` after the digits if present, and keeps the rest |
| AppRss.TransformPath | app/utils/rss.ts:5-7 | never longer than the path; unchanged when nothing matches; otherwise the leftmost `/blog/<digits>`, with one `-` or `_` after the digits if present, becomes `/blog/` and nothing else changes |
| AppRss.TransformLeadingNumber | app/utils/rss.ts:5-7 | `/blog/<digits>` loses the digits and one `-` or `_` after them, if there is one |
| AppRss.TransformUnderscored | app/utils/rss.ts:6 | an underscore after the number goes as a dash does |
| AppRss.UnderscoreExample | app/utils/rss.ts:6 | `/blog/1_post` becomes `/blog/post` |
| AppRss.TransformNested | app/utils/rss.ts:6 | a directory number is removed and the `/` after it kept |
| AppRss.NestedPathsDiverge | app/utils/rss.ts:5-7 | on `/blog/<n>/<digits>-<rest>` this variant keeps the slug's prefix and drops the directory number, while the segment cleaner keeps the directory and drops the prefix |
| AppRss.NestedPathsExample | app/utils/rss.ts:5-7 | `/blog/2024/07-title` becomes `/blog//07-title` here and `/blog/2024/title` in the segment cleaner |
| AppRss.SamplePathExample | app/utils/rss.ts:44 | `/blog/01-sample-post` becomes `/blog/sample-post` |
| AppRss.BuildItem | app/utils/rss.ts:19-29 | fails exactly when the post has no path; otherwise link and guid are equal, the title is interpolated verbatim (`undefined` when absent), the description falls back to empty, the author is present exactly when non-empty, and the categories are the tags in order, verbatim |
| AppRss.BuildItems | app/utils/rss.ts:19-29 | fails exactly when some post has no path; otherwise one item per post, in order |
| AppRss.GenerateItems | app/utils/rss.ts:19-29 | the first 20 posts in the order given, not re-sorted, one item each; fails exactly when one of them has no path |
| AppRss.SampleItemLink | app/utils/rss.ts:40-51 | the sample post's link and guid are the site URL followed by `/blog/sample-post` |
| AppRss.SerializeItem | app/utils/rss.ts:19-29 | an item's text runs from the newline and indentation before `<item>` and its `<title><![CDATA[` to `</item>` and the indentation after it |
| AppRss.SerializeItemsAppend | app/utils/rss.ts:19-29 | the joined text of concatenated item lists is the first list's text followed by the second's |
| AppRss.FeedText | app/utils/rss.ts:9-31 | the feed opens with the XML declaration and ends with the item texts in order followed by the closing `</channel>` and `</rss>` lines |
| AppRss.GenerateRss | app/utils/rss.ts:1-33 | fails exactly when one of the first 20 posts has no path; otherwise the text opens with the XML declaration and ends with the texts of the items of the first 20 posts, in order, and the closing lines |
| FrontMatter.SpanFrom | scripts/generate-feeds.ts:18 | a group found by the backtracking search starts after a newline and ends at the first `\n---` after its start |
| FrontMatter.BlockSpan | scripts/generate-feeds.ts:18 | a block exists exactly when the text opens with `---` and some newline in the white-space run after it has a `\n---` later; the group starts after the last such newline and ends at the first `\n---` after its start |
| FrontMatter.SpanFromCandidates | scripts/generate-feeds.ts:18 | the backtracking search tries newlines from the right: it fails exactly when no newline below its start has a `\n---` after it, and otherwise picks the last one that does |
| FrontMatter.SpanCandidates | scripts/generate-feeds.ts:18 | started after the white-space run, the search finds the last newline of the run with a `\n---` after it, or fails when there is none |
| FrontMatter.BlockAt | scripts/generate-feeds.ts:18-22 | after the last such newline, a group reaching the first `\n---` is the block |
| FrontMatter.BlockOf | scripts/generate-feeds.ts:18-22 | a file of `---`, any white space (spaces or `\r` included), a newline, a body that does not start with white space and holds no `\n---`, then `\n---` yields that body |
| FrontMatter.StripPair | scripts/generate-feeds.ts:33-38 | one surrounding pair of the quote is removed, a lone quote gives the empty string, and anything else is unchanged |
| FrontMatter.ParseLine | scripts/generate-feeds.ts:26-38 | a line yields a field exactly when its first `:` is not its first character; the key holds no colon and no surrounding white space |
| FrontMatter.ParseColonLine | scripts/generate-feeds.ts:27-40 | a line of a non-empty colon-free key, `:` and a value yields the trimmed key and the unquoted value |
| FrontMatter.ParseNoKeyLine | scripts/generate-feeds.ts:28 | a line starting with `:` yields nothing |
| FrontMatter.SplitAtColon | scripts/generate-feeds.ts:27-30 | a line `key:value` with a colon-free key splits at that colon |
| FrontMatter.ParseKeyLine | scripts/generate-feeds.ts:27-38 | a line of an unpadded colon-free key, `:` and a value yields that key and the unquoted value: trimmed, then one `"` pair and then one `'` pair removed; later colons stay in the value |
| FrontMatter.ParsePlainLine | scripts/generate-feeds.ts:26-40 | writing `key: value` and parsing it gives the field back, colons in the value included |
| FrontMatter.StripWrapped | scripts/generate-feeds.ts:33-35 | a wrapped value loses exactly its pair |
| FrontMatter.StripLone | scripts/generate-feeds.ts:34 | a lone quote strips to the empty string |
| FrontMatter.TrimQuoted | scripts/generate-feeds.ts:30 | the space after the colon is trimmed off a quoted value |
| FrontMatter.ParseQuotedLine | scripts/generate-feeds.ts:33-38 | a double-quoted value is read without its quotes, inner spaces kept |
| FrontMatter.UnquoteLone | scripts/generate-feeds.ts:33-38 | the value text of a lone `"` unquotes to nothing |
| FrontMatter.UnquotePlain | scripts/generate-feeds.ts:30-38 | a value after one space, with no surrounding white space or quotes, unquotes to itself |
| FrontMatter.ParseLoneQuote | scripts/generate-feeds.ts:33-35 | a lone `"` value reads as the empty value |
| FrontMatter.ParseLines | scripts/generate-feeds.ts:26-41 | at most one field per line |
| FrontMatter.ParseLinesOne | scripts/generate-feeds.ts:26-41 | one line gives its field, or nothing when it yields none |
| FrontMatter.ParseLinesAppend | scripts/generate-feeds.ts:26-41 | parsing concatenated lines gives the concatenated fields, so fields keep line order |
| FrontMatter.LastKeyWins | scripts/generate-feeds.ts:40 | the parsed object holds for each key the value of its last line, and no key without a line |
| GenerateFeeds.PostPath | scripts/generate-feeds.ts:45 | the path starts with `/blog/` and is the prefix plus the name, three characters shorter exactly when the name contains `.md`: one occurrence goes |
| GenerateFeeds.PostPathOfName | scripts/generate-feeds.ts:45 | for a name `stem.md tail` with no earlier `.md`, the path keeps the stem and whatever follows the first `.md` |
| GenerateFeeds.ReadPost | scripts/generate-feeds.ts:14-47 | a file yields a post exactly when it ends in `.md`, could be read and opens with a front-matter block; the post's `_path` is the file-name path |
| GenerateFeeds.ReadPostFields | scripts/generate-feeds.ts:23-42 | every other key of a read post holds the value of its last line in the block, and a key with no line is absent |
| GenerateFeeds.ReadPosts | scripts/generate-feeds.ts:14-52 | at most one post per file, each with a path under `/blog/` |
| GenerateFeeds.Readable | scripts/generate-feeds.ts:15-20 | exactly the files that yield a post, each as often as in the listing |
| GenerateFeeds.ReadableAppend | scripts/generate-feeds.ts:14-20 | the filter distributes over concatenation, so the listing order is kept |
| GenerateFeeds.PostsOf | scripts/generate-feeds.ts:14-52 | one post per readable file, in order |
| GenerateFeeds.ReadPostsOfReadable | scripts/generate-feeds.ts:14-52 | exactly one post per readable `.md` file, in listing order, and nothing else |
| GenerateFeeds.ReadPostsAppend | scripts/generate-feeds.ts:14-52 | reading concatenated listings gives the concatenated posts |
| GenerateFeeds.SortPosts | scripts/generate-feeds.ts:55-59 | newest first, a missing date counting as 0; the same posts; equal timestamps in reading order |
| GenerateFeeds.UndatedLast | scripts/generate-feeds.ts:55-59 | when every date is after the epoch, no undated post precedes a dated one |
| GenerateFeeds.BuildItem | scripts/generate-feeds.ts:87-98 | link equals guid; title falls back to `Untitled`; description to the excerpt, then empty; the date to the build time; the creator to the fixed author; the `tags` line gives one category holding its text; the `category` line a second one when non-empty |
| GenerateFeeds.BuildItems | scripts/generate-feeds.ts:87-98 | one item per post, in order |
| GenerateFeeds.FeedItems | scripts/generate-feeds.ts:87 | at most 20 items, those of the first 20 posts in order |
| GenerateFeeds.FeedKeepsNewest | scripts/generate-feeds.ts:54-98 | the feed's posts are read posts, newest first, and each is at least as new as every post left out |
| GenerateFeeds.GenerateRssFeed | scripts/generate-feeds.ts:5-107 | the returned posts are the read posts, sorted newest first with equal dates in listing order; the feed holds the items of the first 20 of them, the i-th built from the i-th post |
| GenerateFeeds.ReturnedPosts | scripts/generate-feeds.ts:14-107 | the returned posts are at most one per file, the same as those read, newest first, each with a path under `/blog/` |
| GenerateFeeds.StaticPages | scripts/generate-feeds.ts:127-131 | three pages without a `lastmod` |
| GenerateFeeds.TodayOf | scripts/generate-feeds.ts:138 | for an ISO time stamp, today is its date part before `T` |
| GenerateFeeds.BlogPage | scripts/generate-feeds.ts:134-139 | the transformed path, monthly, priority 0.7, and `lastmod` from `dateUpdated`, else `date`, else today |
| GenerateFeeds.BlogPages | scripts/generate-feeds.ts:134-139 | one page per post, in order |
| GenerateFeeds.AllPages | scripts/generate-feeds.ts:141 | the three static pages first, then one page per post in order, 3 + n in all |
| GenerateFeeds.LastmodElement | scripts/generate-feeds.ts:150 | the element is written exactly when the date is non-empty |
| GenerateFeeds.LastmodShown | scripts/generate-feeds.ts:127-150 | static pages never carry `<lastmod>`; a post page does unless it has neither date and today's date part is empty |
| GenerateFeeds.SerializeItem | scripts/generate-feeds.ts:87-98 | an item's text runs from the newline and indentation before `<item>` and its `<title><![CDATA[` to `</item>` and the indentation after it |
| GenerateFeeds.RssTextInOrder | scripts/generate-feeds.ts:86-100 | the feed text for items `a + b` ends with the texts of `a`'s items, then those of `b`'s, then the closing lines |
| GenerateFeeds.RssText | scripts/generate-feeds.ts:67-100 | the feed opens with the XML declaration and ends with the item texts in order followed by the closing `</channel>` and `</rss>` lines |
| GenerateFeeds.FeedText | scripts/generate-feeds.ts:67-104 | the written feed ends with the texts of the returned items, in order, and the closing lines |
| GenerateFeeds.SerializePage | scripts/generate-feeds.ts:145-152 | a page's text runs from the newline before `<url>` and `<loc>` with the site URL to `</url>` and the indentation after it |
| GenerateFeeds.SerializePagesAppend | scripts/generate-feeds.ts:144-152 | the joined text of concatenated page lists is the first list's text followed by the second's |
| GenerateFeeds.SitemapText | scripts/generate-feeds.ts:141-153 | the sitemap opens with the XML declaration and ends with the three static pages' texts, then one text per post in order, then `</urlset>` |

## Left out

- File system and network I/O: `readdir`, `readFile`, `writeFile`, `queryCollection`, the runtime config and `console` output. Posts, files and configuration are inputs, and the written texts are results.
- `decodeURI`, `new URL(...).toString()`, `Date` parsing and printing, and the wall clock are parameters. Their behaviour is not modelled.
- GenerateFeeds.GenerateRssFeed: the `catch` that returns `[]` when the directory cannot be listed is not modelled, because listing is I/O; a failed file read is modelled as a file whose content is None.
- GenerateFeeds.GenerateRssFeed: the written `rss.xml` is `FeedText`, the serialisation of the returned items at the build time; the `writeFile` call itself is I/O.
- The several `new Date()` calls of one run are one clock value (`nowUtc`, `nowIso`), because their millisecond differences are not observable in the model.
- GenerateFeeds.SortPosts: a date that parses to NaN is not modelled, since `parse` returns an integer. `getRelatedPosts` models NaN as None.
- GenerateFeeds.BuildItem: the `Array.isArray(post.tags)` branch is not reachable. The script's parser only yields strings, so `tags` is always wrapped as one category.
- BlogUtils.CrudeReadingTime: the `JSON.stringify` branch for Markdown syntax-tree objects is not modelled. Only string content, or none, is.
- ReadingTime.CalculateReadingTime: requires a positive speed. With zero or a negative speed the source divides into Infinity or NaN, which integers do not model; fractional minutes are not modelled either.
- BlogUtils.GetRelatedPosts: `limit` is an integer; a fractional limit is not modelled. `tags` that are present but not an array are modelled as absent.
- RssRoute.BuildItem: `decodeURI` and `new URL(path, siteUrl)` are total parameters. In the source, a malformed `%` escape in a post's path makes `decodeURI` throw `URIError`, and a `siteUrl` without a scheme makes `new URL` throw `TypeError`. Neither is caught per post, so the whole response fails. `RssRoute.ItemsOfRoutable` and `RssRoute.RssXml` hold only when neither throws.
- SitemapUrls.Entry: `decodeURI` is a total parameter. In the source, a malformed `%` escape throws `URIError` and the whole handler fails. `SitemapUrls.UrlsOfPostsWithPath` holds only when it does not throw.
- FrontMatter.LastKeyWins: a `__proto__` key is stored like any other. In the source, `post['__proto__'] = value` with a string value sets nothing, so that key is absent from the object.
- ReadingTime.FormatReadingTime: takes whole minutes and prints them as decimal digits. The source also accepts a fractional number, e.g. `2.5 min read`. From 10^21 on, JavaScript's number-to-string conversion prints exponent notation, e.g. `1e+21 min read`, where the model's contract promises plain digits. Neither case is modelled.
- The route's post record omits `dateUpdated`, which the route does not read.
- BlogPaths.CleanBlogPath: the `if (!last) return path` guard and the `?? ""` fallbacks cannot fire. Pieces kept by `filter(Boolean)` are non-empty and `split` always yields a first piece, so the model has no branch for them.
- Strings: characters are Unicode scalar values, not UTF-16 code units. White space is the ECMAScript set over those values.
- AppRss and GenerateFeeds: texts are inserted into CDATA sections unescaped. A `]]>` in a title or description breaks the feed, as in the source; well-formedness of the output is not modelled.
- `formatDate` and `generateShareUrls` in `app/utils/blog.ts` are not modelled. They are locale formatting and `encodeURIComponent`.
- The build configuration (`nuxt.config.ts`), content schemas (`content.config.ts`), `useSeo`, the color-mode plugin and the feed build wrapper script are not part of this model.
