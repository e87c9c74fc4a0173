# New Muslim Stories — a verified model of its logic core

New Muslim Stories is a bilingual (English/Arabic) Next.js site of converts' stories,
written as markdown files and served as an installable offline-capable web app. This
project models, in Dafny, the parts of it that carry logic rather than layout:

- **The service worker** (`public/sw.js`). It holds the request classifier and the three
  caching strategies of the `fetch` handler: network first with an offline page,
  cache first with a background refresh, and cache first with an empty-image fallback.
  It also holds the `install`, `activate`, `sync`, `push` and `notificationclick`
  handlers.
  - The origin's named caches are the state of a class, `ServiceWorker.Worker`.
  - Every network result is a parameter.
  - Background refreshes wait in a queue until `CompleteRefresh` settles them, in any
    order.
- **The story file-name codec** (`src/lib/story-parser.ts`). `<slug>-ar.md` is the
  Arabic version of a story and `<slug>.md` the English one. The model covers slug and
  locale extraction, the inverse construction, both round trips, and the record that
  `parseStoryFile` assembles from the front matter.
- **The story queries** (`src/lib/story-service.ts`):
  - locale filter and title sort;
  - single-story lookup and its error mapping;
  - static page parameters;
  - the featured prefix;
  - case-insensitive country filter;
  - the unique, sorted country list.

  The parsed stories are an input sequence.
- **Story text helpers.** These are `useStorySections` (`src/hooks/useStorySections.ts`)
  and the excerpt on the "story of the day" card (`src/components/StoryOfTheDay.tsx`).
  - `useStorySections` splits the HTML with `/<h2>(.*?)<\/h2>/g`. The model spells out
    the lazy, single-line regular expression and `String.prototype.split`.
  - The excerpt applies `replace(/<[^>]*>/g, '')`, then `substring(0, 150)`, then
    appends `...`.

Files:

- `results.dfy` holds `Option` and `Result`.
- `js_string.dfy` holds the JavaScript string built-ins the code relies on:
  - `startsWith`, `endsWith` and `includes`;
  - the `<` order on strings;
  - ASCII `toLowerCase`.
- `js_array.dfy` holds the array built-ins:
  - `sort` with a `-1`/`1` comparator;
  - `new Set` de-duplication;
  - `slice(0, end)`.
- One file per core source file: `service_worker.dfy`, `story_parser.dfy`,
  `story_service.dfy`, `story_sections.dfy` and `story_excerpt.dfy`.

The request tests of the `fetch` handler are substring tests on the request's whole
absolute URL, origin included:

- The static-asset test (`public/sw.js:125-133`) is `url.includes(...)`. So
  `/manifest.json` counts as a static asset through `.js`, on any origin whose name does
  not hold `stories` (`ServiceWorker.ManifestIsStaticAsset`).
- The story test (`public/sw.js:81`) is `url.includes('stories')`. So a stylesheet named
  `stories.css` is served as story data (`ServiceWorker.StoriesStylesheetIsStoryData`).
  On a host whose name holds `stories`, every request that is not a navigation is served
  as story data, whatever its path (`ServiceWorker.StoriesOriginCapturesAll`).

The Cache API matches GET requests only (`ServiceWorker.Match`). `cache.put` rejects a
request of any other method and a partial (206) response (`ServiceWorker.AfterPut`).
Nobody awaits those puts (`public/sw.js:52`, `:93`, `:108`, `:147`). So a request that is
not a GET always misses the cache and never stores anything
(`ServiceWorker.Worker.HandleFetch`). The same rule makes `cache.addAll` fail when one
precache URL answers 206. The worker's origin is a field of the worker: relative paths
given to the Cache API (the precache list, the offline page) are resolved against it, as
the Cache API does (`ServiceWorker.Resolve`, `ServiceWorker.PrecachedPageIsFound`).

## Model

| member | source | states |
|---|---|---|
| ServiceWorker.StoriesPathSubsumed | public/sw.js:81 | a URL containing `/stories/` contains `stories`, so the first half of the story test adds nothing |
| ServiceWorker.StoryUrlTest | public/sw.js:81 | the two-part story test holds exactly when the URL contains `stories` |
| ServiceWorker.Classify | public/sw.js:42-133 | navigation iff navigate mode (whatever the URL); story data iff not navigate and the URL contains `stories`; static asset iff neither and the URL contains one of the seven markers; otherwise unhandled |
| ServiceWorker.ManifestIsStaticAsset | public/sw.js:125-133 | on an origin whose name does not hold `stories`, `<origin>/manifest.json` is not story data and is classified as a static asset because it contains `.js` |
| ServiceWorker.StoriesOriginCapturesAll | public/sw.js:81 | on an origin whose name holds `stories`, every request that is not a navigation is story data, whatever its path |
| ServiceWorker.StoriesStylesheetIsStoryData | public/sw.js:81 | on any origin, `/stories.css` is served by the story-data strategy, not as a static asset |
| ServiceWorker.IsImageUrl | public/sw.js:153 | the `.png`/`.jpg` test of the image fallback passes only URLs that also pass the static-asset test |
| ServiceWorker.ImageUrlIsStaticAsset | public/sw.js:125-153 | a URL passing the image test holds a static marker, so (when it is no story URL) it reaches the static-asset strategy |
| ServiceWorker.SvgHasNoImageFallback | public/sw.js:153 | the offline image fallback tests `.png` and `.jpg` only: an `.svg` URL is a static asset without it |
| ServiceWorker.Match | public/sw.js:59 | `cache.match(request)`: a request that is not a GET misses whatever the bucket holds; a GET hits iff its URL is a key, and a hit is a stored response |
| ServiceWorker.AfterPut | public/sw.js:52 | `cache.put(request, response)`: a non-GET request or a 206 response stores nothing; otherwise the request's URL maps to the response; no other entry changes and no other key appears |
| ServiceWorker.MatchAfterPut | public/sw.js:52-59 | a response put for a GET request (not 206) is what the next `cache.match` of that request finds |
| ServiceWorker.Resolve | public/sw.js:18 | the relative precache paths become the origin followed by each path, in order |
| ServiceWorker.PrecachedPageIsFound | public/sw.js:59 | after a successful precache, a GET of `<origin>/en` (or any precached path) finds the page fetched at install time |
| ServiceWorker.AddAll | public/sw.js:18 | `addAll` succeeds iff every URL fetches an ok response that is not 206; on success the keys become the old keys plus the URLs, each URL maps to its response and other entries are unchanged; on failure nothing is stored |
| ServiceWorker.AddAllKeepsOk | public/sw.js:18 | precaching into a bucket of ok responses leaves only ok responses, and every precache URL is in the bucket |
| ServiceWorker.AddAllIdempotent | public/sw.js:18 | precaching again with the same network results leaves the bucket as the first precache left it |
| ServiceWorker.NotificationClick | public/sw.js:198-206 | the notification always closes; a window opens iff the action is `explore`, and then on `/en` |
| ServiceWorker.PushNotification | public/sw.js:168-195 | the title is fixed; the body is the payload text, or `New story available` without a payload; the actions are `explore` then `close` |
| ServiceWorker.Worker.Open | public/sw.js:17 | `caches.open(CACHE_NAME)` leaves the current bucket in place with its entries unchanged, creating it empty when missing |
| ServiceWorker.Worker.Put | public/sw.js:52 | `cache.put` changes the current bucket exactly as `AfterPut` says, and nothing else |
| ServiceWorker.Worker.Precache | public/sw.js:17-18 | open, then `addAll`: stored iff every URL fetches an ok, non-206 response; then the bucket is `AddAll` of the old bucket and holds every URL; otherwise the bucket is as it was |
| ServiceWorker.Worker.Install | public/sw.js:14-22 | install succeeds iff all five precache paths, resolved against the origin, fetch an ok, non-206 response; then all five resolved URLs are in the current bucket; otherwise the bucket is as it was; only ok responses are ever in the bucket |
| ServiceWorker.Worker.Activate | public/sw.js:25-37 | afterwards the bucket names are the old names intersected with `{CACHE_NAME}`, and the current bucket is untouched |
| ServiceWorker.Worker.NetworkFirst | public/sw.js:43-76 | a received response is returned, and put (GET only, not 206) when ok; on a network error: the cached page for a GET, else a rejection when `Accept` is missing, else the offline page cached under `<origin>/offline` for HTML, else the network error |
| ServiceWorker.Worker.CacheFirst | public/sw.js:82-161 | a GET hit is returned as stored, queuing a refresh for story data; a miss returns the network response and stores it when ok and GET; offline, the strategy's fallback or a rejection |
| ServiceWorker.Worker.HandleFetch | public/sw.js:40-165 | per category and outcome: the response returned, the cache write (only of ok, non-206 network responses to GET requests), the offline-page and `Accept`-header rules, the 503 for story data, the 204 for images, the rejections, and the refresh queued on a story-data hit; a request that is not a GET leaves every entry as it was |
| ServiceWorker.Worker.CompleteRefresh | public/sw.js:90-98 | a queued background refresh settles: an ok response is put for the queued request (so it overwrites the entry unless the request is not a GET or the response is 206); a non-ok response or a network error changes nothing |
| ServiceWorker.Worker.Sync | public/sw.js:209-225 | only `sync-stories` acts; then every cached URL is settled, either to its fetched response or, on a network error, to the request itself; the cache is not written |
| StoryParser.ExtractSlug | src/lib/story-parser.ts:13-18 | the slug is a prefix of the name; exactly `-ar.md` is removed from Arabic names and one `.md` from other markdown names; any other name is returned unchanged |
| StoryParser.ExtractSlugAndLocale | src/lib/story-parser.ts:66-72 | the locale is `ar` iff the name ends with `-ar.md`, and `en` otherwise; the slug is `extractSlug`'s |
| StoryParser.StoryFileName | src/lib/story-parser.ts:78 | the name is `slug-ar.md` for locale `ar` and `slug.md` for any other locale; it ends with `-ar.md` iff the locale is `ar` or the slug ends in `-ar` |
| StoryParser.RoundTripFromSlug | src/lib/story-parser.ts:66-78 | for a slug not ending in `-ar`, building the name and extracting gives back the slug and the normalised locale |
| StoryParser.ArabicLookingSlugIsMisread | src/lib/story-parser.ts:66-78 | an English story whose slug ends in `-ar` reads back as the Arabic story of the shorter slug |
| StoryParser.RoundTripFromFileName | src/lib/story-parser.ts:66-78 | extracting from a markdown name and building again gives the same name |
| StoryParser.AssembleStory | src/lib/story-parser.ts:48-53 | the record has the front-matter keys plus `slug`, `contentHtml` and `language`; front-matter values win; otherwise `slug` comes from the file name, `contentHtml` from the rendered HTML, and `language` is undefined |
| JsString.IncludesAt | public/sw.js:81 | an occurrence at a known position is an inclusion (`includes`) |
| JsString.NotIncludesConcat | public/sw.js:81 | `t` is not included in `a + b` when it is in neither and `b` starts with a character `t` lacks |
| JsString.EndsWithAppended | src/lib/story-parser.ts:14-17 | `s + p` ends with `p`, and a text ending with `p` is its front followed by `p` |
| JsString.LexLessIrreflexive | src/lib/story-service.ts:23 | no string is `<` itself |
| JsString.LexLessAsymmetric | src/lib/story-service.ts:23 | of two strings, at most one is `<` the other |
| JsString.LexLessTransitive | src/lib/story-service.ts:23 | the string `<` used by the comparator is transitive |
| JsString.LexLessTotal | src/lib/story-service.ts:23 | of two different strings, one is `<` the other |
| JsString.LowerChar | src/lib/story-service.ts:80 | an ASCII capital letter moves up by 32 to its small letter; every other character is kept |
| JsString.ToLower | src/lib/story-service.ts:80 | `toLowerCase` keeps the length and lowers each ASCII capital letter, leaving every other character alone |
| JsArray.SortBy | src/lib/story-service.ts:22-28 | the comparator sort returns a permutation of its input, ordered by the key |
| JsArray.SortByDistinct | src/lib/story-service.ts:91 | sorting a duplicate-free list keeps it duplicate-free |
| JsArray.Unique | src/lib/story-service.ts:89 | `Array.from(new Set(s))` holds exactly the elements of `s`, each once |
| JsArray.SliceEnd | src/lib/story-service.ts:70 | `slice(0, limit)` keeps `limit` elements, clamped to the length; a negative limit counts back from the end |
| StoryService.Filter | src/lib/story-service.ts:19 | `filter` keeps exactly the stories meeting the criterion |
| StoryService.FilterCount | src/lib/story-service.ts:19 | `filter` keeps every copy of a matching story and no copy of any other |
| StoryService.FilterSorted | src/lib/story-service.ts:69 | filtering a title-ordered list keeps it title-ordered |
| StoryService.GetSortedStoriesData | src/lib/story-service.ts:11-29 | a permutation of the stories of the locale, ordered by title; a story is in it iff it is a parsed story of that locale |
| StoryService.GetStoryData | src/lib/story-service.ts:34-42 | the file read is `slug-ar.md` iff the locale is `ar`, else `slug.md`; success iff the parse succeeds, with its story; any failure becomes `Story with slug '<slug>' not found` |
| StoryService.GetAllStorySlugs | src/lib/story-service.ts:47-60 | one entry per file name in listing order, each `extractSlugAndLocale` of its name; each markdown file's entry builds that file's name again |
| StoryService.GetFeaturedStories | src/lib/story-service.ts:65-71 | `slice(0, limit)` of the locale's featured stories: drawn from them, title-ordered, and no left-out featured story has an earlier title than a kept one |
| StoryService.GetDefaultFeaturedStories | src/lib/story-service.ts:65-71 | with the default limit of 6: the first six of the locale's featured stories in title order, or all of them when fewer; drawn from them, title-ordered, and no left-out featured story has an earlier title than a kept one |
| StoryService.GetStoriesByCountry | src/lib/story-service.ts:76-82 | a permutation of the locale's stories whose country matches ignoring case, title-ordered; membership iff the locale and the country match |
| StoryService.GetAllCountries | src/lib/story-service.ts:87-92 | strictly increasing, so sorted and duplicate-free; a country is in it iff some story of the locale has it |
| StorySections.CloseFrom | src/hooks/useStorySections.ts:15 | the `(.*?)<\/h2>` part: a found `</h2>` lies at or after the scan start, inside the text |
| StorySections.HeadingAt | src/hooks/useStorySections.ts:15 | a match at a position starts with `<h2>` and ends with a `</h2>` after it; `<h2></h2>` matches with empty text |
| StorySections.CloseFromIsLazy | src/hooks/useStorySections.ts:15 | `(.*?)<\/h2>` stops at the first `</h2>` with no line terminator before it; with no match, a line terminator stands before every later `</h2>` |
| StorySections.HeadingsAreMatches | src/hooks/useStorySections.ts:15 | each heading found is a match of the expression at its start |
| StorySections.SplitIsInterleave | src/hooks/useStorySections.ts:15 | `split` yields the text before each heading, then the heading's captured text, then the text after the last heading |
| StorySections.InterleaveAt | src/hooks/useStorySections.ts:15 | split piece `2i+1` is heading `i`'s text, and piece `2i+2` the text from its `</h2>` to the next heading or the end |
| StorySections.Split | src/hooks/useStorySections.ts:15 | `split` gives `2h + 1` pieces for `h` heading matches, cut along the interleaving of texts between headings and heading texts |
| StorySections.UseStorySections | src/hooks/useStorySections.ts:13-22 | the three fields are the bodies of headings 1, 2 and 3, or `''` when there are fewer headings (the heading list misses no match, by `HeadingsComplete`); the text before the first heading and bodies from the fourth on are dropped; heading text is never consulted |
| StorySections.SectionsAreSubstrings | src/hooks/useStorySections.ts:15-21 | every field is a contiguous piece of the content |
| StorySections.HeadingsComplete | src/hooks/useStorySections.ts:15 | the scan misses no match: every position where the expression matches and that lies inside no earlier listed match starts a listed heading |
| StorySections.BodyHoldsNoMatch | src/hooks/useStorySections.ts:15 | no match of the expression starts inside the body of a heading |
| StorySections.SectionsAvoidHeadings | src/hooks/useStorySections.ts:15-21 | a field is the text between its heading's `</h2>` and the next `<h2>` match, no match of the expression starts inside it (through `HeadingsComplete`), and it overlaps no heading match, so captured heading text never reaches a field |
| StorySections.HeadingsAreLazySingleLine | src/hooks/useStorySections.ts:15 | each heading match starts with `<h2>`, ends at the first `</h2>` after it, and has no line terminator inside |
| StoryExcerpt.StripTags | src/components/StoryOfTheDay.tsx:11 | `replace(/<[^>]*>/g, '')` keeps only characters of the input, is no longer, and leaves no `>` after any `<` |
| StoryExcerpt.StripKeepsFirst | src/components/StoryOfTheDay.tsx:11 | a first character other than `<` is kept |
| StoryExcerpt.StripKeepsText | src/components/StoryOfTheDay.tsx:11 | text holding no `<` is kept as it is, in place, before whatever the rest strips to |
| StoryExcerpt.StripTagsKeepsTagFree | src/components/StoryOfTheDay.tsx:11 | text with no tag passes through unchanged |
| StoryExcerpt.StripTagsIdempotent | src/components/StoryOfTheDay.tsx:11 | stripping twice equals stripping once |
| StoryExcerpt.StripLeadingTag | src/components/StoryOfTheDay.tsx:11 | a complete tag at the front disappears |
| StoryExcerpt.Truncate | src/components/StoryOfTheDay.tsx:11 | `substring(0, n)` is the prefix of length min(n, length) |
| StoryExcerpt.Excerpt | src/components/StoryOfTheDay.tsx:11 | the excerpt ends with `...`, is at most 153 long, and without the `...` is the prefix of length min(150, length) of the stripped text |
| StoryExcerpt.TagsOnlyExcerpt | src/components/StoryOfTheDay.tsx:11 | empty or tags-only content strips to nothing, so its excerpt is exactly `...` |

## Left out

- Platform APIs of the service worker are not modelled. These are `skipWaiting`, `clients.claim`, `clients.openWindow`, `showNotification`, `Date.now`, the vibrate pattern and the notification's `data`. The effects they have are recorded as values (`ClickEffect`, `Notification`) or dropped.
- Concurrency is made sequential. The un-awaited `cache.put` happens at once. The story-data background refresh is a queued step that `CompleteRefresh` settles later, in any order. Interleavings with other events are not modelled.
- URL resolution is only the joining of the worker's origin and a relative path. A request's URL is a plain absolute-URL string, and it is the cache key. URL normalisation (default ports, case of the host, percent-encoding, `..` segments, fragments) is not modelled, so a request URL finds a precached page only when it is written exactly as the origin followed by the path.
- Responses carry no headers. `cache.put` and `cache.addAll` also reject a response with `Vary: *`; that rule is not modelled, and such a response would be stored.
- Request methods are `GET` or some other method. The method-specific options of `cache.match` (`ignoreMethod`, `ignoreSearch`, `ignoreVary`) are not modelled.
- `cache.keys()` order is not modelled, because a bucket is a map. Sync reports its results per URL, not as an ordered array.
- Response bodies are strings. `clone()`, streaming and opaque responses are not modelled.
- The file system, gray-matter and remark-html are inputs:
  - the directory listing is `fileNames`;
  - the parsed stories are `stories`;
  - `parseStoryFile`'s outcome is the `parse` function;
  - the front matter is a map of `Value`s.
- The unchecked `as` cast of front matter to the story type is not modelled. The story service takes stories already of type `StoryData`.
- `getSortedStoriesData` parses every file and rejects as a whole if one parse throws; this is not modelled. The parsed stories are given.
- `JsString.ToLower`: case mapping is ASCII only. Unicode `toLowerCase` is not modelled.
- `JsString.LexLess`: the model compares code points, where JavaScript's string `<` compares UTF-16 code units. The two orders differ only on text outside the Basic Multilingual Plane.
- `StoryExcerpt.Truncate`: the model counts code points, where JavaScript's `substring` counts UTF-16 code units.
- `JsArray.SortBy`: the order among stories with equal titles is left open by the comparator. The model fixes one such order, and its contract promises nothing about that order.
- `StoryService.GetFeaturedStories`: `limit` is an integer. Fractional, `NaN` and infinite limits are not modelled. A caller that omits it gets `GetDefaultFeaturedStories`.
- `StoryParser.Value`: front-matter numbers are integers, and nested values are opaque.
- `StoryContentDisplay.tsx` repeats the `useStorySections` split, and that model covers it. The React components and the framework configuration are not part of this model.
