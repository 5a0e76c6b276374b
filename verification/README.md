# AllManga and AniZone providers: a Dafny model

This project models the core of two streaming-site providers written in
JavaScript for a media-player extension host, and proves properties of it.

**AllManga** (`allmanga.js`) scrapes a site's HTML pages. The model covers:

- the normalisation of scraped URLs (absolute, protocol-relative or
  site-relative);
- the join of a slug to the preferred base URL in `request`;
- the search, popular and latest-update slugs;
- the card listing shared by `searchPage` and `getLatestUpdates`: the
  `seen` set, the name fallbacks, the image URL and the next-page flag;
- `getDetail`: the status table, the title, cover, description and genres,
  and the episode loop with its number and name rules, followed by the
  in-place reverse;
- `getVideoList`: the iframe, video-source and script passes, the script
  URL scanner for `.m3u8` and `.mp4` links, and the de-duplication by URL.

**AniZone** (`anizone.js`) builds its episode pages from a title. The model
covers:

- the page slug of a title (`titleToAniZoneSlug`);
- the episode page URL and the placeholder stream record of `getStreamUrl`;
- the request that the backend-backed `getVideoSource` sends;
- `parseM3U8Playlist`: line parsing into a table of quality variants, the
  `auto` entry for the highest quality, and the fallback record when
  anything throws.

The host's DOM is given to the model as values (`Dom.Element`: text and
attributes). A CSS selection is the sequence of elements the selector
returned. Network fetches are inputs: the fetched page, playlist text or
failure. `encodeURIComponent` and `new URL(url, base)` are function-typed
parameters, and `new URL` throwing is `None`.

Modules:

| module | what it holds |
|---|---|
| `Wrappers` | `Option` and `Result` |
| `Strings` | the JavaScript string operations used: ECMAScript `trim`, ASCII `toLowerCase`, `includes`, `startsWith`, `indexOf`, `split`, the decimal form of numbers |
| `Collect` | the list a `forEach` builds by pushing the outcome of each visit |
| `Dom` | elements and `attr` |
| `AllMangaUrls` | URL normalisation, `request` join, listing slugs, detail slug and link |
| `AllMangaListing` | the card loop of `searchPage` and `getLatestUpdates` |
| `AllMangaDetail` | `getDetail` |
| `AllMangaVideo` | `getVideoList` |
| `AniZoneSlug` | `titleToAniZoneSlug` |
| `AniZoneStream` | episode page URL, placeholder record, backend request |
| `AniZoneM3U8` | `parseM3U8Playlist` |

The loops that push into an array or set are methods. Each method is proved
against a function of its inputs:

- `AllMangaListing.ExtractCards` against `Listing`;
- `AllMangaDetail.ExtractEpisodes` against `Reversed(Pushed(…))`;
- the passes of `AllMangaVideo.GetVideoList` against `IframeStreams`,
  `SourceStreams`, `AllScriptStreams` and `Dedup`;
- `AniZoneM3U8.ParsePlaylist` against `Playlist`.

The properties the code promises are then lemmas about those functions.

## Model

| member | source | states |
|---|---|---|
| AllMangaUrls.Absolutize | allmanga.js:110-112 | the result starts with `http`, ends with the input, and equals the input exactly when the input already starts with `http` |
| AllMangaUrls.AbsolutizeCases | allmanga.js:353-355 | an `http…` URL is unchanged, a `//…` URL becomes `https:` + URL, and any other URL becomes the source base URL + URL |
| AllMangaUrls.AbsolutizeIdempotent | allmanga.js:379-381 | normalising a normalised URL changes nothing |
| AllMangaUrls.NormalizeImage | allmanga.js:109-112 | an empty image URL stays empty; any other result starts with `http` |
| AllMangaUrls.RequestUrl | allmanga.js:40-43 | the fetched URL contains the base URL; a slug that already contains it is fetched as is, otherwise the base URL followed by the whole slug is fetched |
| AllMangaUrls.RequestUrlIdempotent | allmanga.js:40-43 | joining an already joined URL again changes nothing |
| AllMangaUrls.FilterSuffix | allmanga.js:67-70 | the parameters come in the order `&tr=type`, `&cty=country`, `&page=N`, each present exactly when its filter is set (type non-empty, country non-empty, page above 1): the prefix clauses fix each part's place and the length clause excludes anything else; the suffix is empty iff no filter is set |
| AllMangaUrls.SearchSlug | allmanga.js:59-70 | a non-empty query gives `/search?keyword=` + the encoded query, an empty one `/anime`; what follows is exactly the filter suffix, so without a query the filters follow `/anime` with `&` and no `?`, and the slug is `/anime` iff there are no filters |
| AllMangaUrls.PopularSlug | allmanga.js:128-134 | the popular slug is `/anime` followed by the filter suffix of the first preferred type (`sub` when none is preferred), no country and the page; so it starts with `&tr=` and that type when the type is non-empty |
| AllMangaUrls.LatestSlug | allmanga.js:136-141 | the slug is `/search-anime?page=N` followed by `&tr=` + the first preferred type when that type is present and non-empty, and by nothing otherwise; it holds `&tr=` iff the type is there |
| AllMangaUrls.NoTrInPageHead | allmanga.js:138 | the page part of the latest slug never holds `&tr=`, whatever the page number |
| AllMangaUrls.DetailSlug | allmanga.js:219-222 | a URL without the base URL is its own slug; otherwise the slug is the URL with the first occurrence of the base URL cut out |
| AllMangaUrls.DetailLink | allmanga.js:223 | the link starts with the base URL; it is the base URL + the URL when the URL does not contain the base URL, and otherwise the base URL + the URL with its first occurrence of the base URL cut out |
| AllMangaUrls.DetailLinkOfAbsolute | allmanga.js:218-223 | for a URL that starts with the base URL, the slug is the rest of the URL and the link is the URL itself |
| AllMangaUrls.DetailFetchesLink | allmanga.js:40-43 | the page `getDetail` fetches for an absolute URL is the link it reports |
| AllMangaListing.CardName | allmanga.js:89-105 | a card's name is non-empty and trimmed; there is no name exactly when both image names are blank and the link text trims to empty |
| AllMangaListing.CardNameOrder | allmanga.js:92-102 | the name comes from the preferred image attribute, else from `alt` or `title`, else from the link text, each trimmed |
| AllMangaListing.CardImage | allmanga.js:107-113 | no image gives `""`; otherwise a truthy `src` is normalised, else a truthy `data-src` is normalised, else the URL is `""`; a non-empty URL starts with `http` |
| AllMangaListing.CardItem | allmanga.js:99-119 | a card yields an item iff it has a name; the item is that trimmed name, the card's link and `CardImage` of the card |
| AllMangaListing.SeenStep | allmanga.js:85-86 | visiting a card adds its href to `seen` and nothing else |
| AllMangaListing.OffersAt | allmanga.js:81-120 | the visit of card `j` pushes its item iff `j` is the first card with that href, and pushes nothing for a repeated href |
| AllMangaListing.ExtractCards | allmanga.js:78-123 | the loop emits `Listing`; no two items share a link; every name is trimmed and non-empty; `hasNextPage` is true iff at least 20 items were emitted |
| AllMangaListing.ReadCard | allmanga.js:89-119 | the body of the card loop, for a first-seen href, pushes what `OffersAt` says |
| AllMangaListing.ListingSource | allmanga.js:81-120 | every emitted item comes from the first card with its href |
| AllMangaListing.ListingLinksSeen | allmanga.js:85-86 | every emitted link is in `seen` |
| AllMangaListing.ListingDistinct | allmanga.js:85 | no two emitted items share a link |
| AllMangaListing.ListingNames | allmanga.js:105-116 | every emitted name is trimmed and non-empty |
| AllMangaListing.ListingComplete | allmanga.js:81-120 | the first card with an href is emitted whenever it yields a name |
| AllMangaListing.ListingDropsUnnamedHref | allmanga.js:85-105 | if the first card with an href yields no name, no item with that link is emitted, even if later cards with the same href have names |
| AllMangaListing.ListingOfDistinctNamedCards | allmanga.js:81-120 | cards with distinct hrefs that all yield names are all emitted |
| AllMangaListing.LatestUpdates | allmanga.js:136-183 | `getLatestUpdates` fetches `LatestSlug` and returns the card listing and the next-page flag |
| AllMangaListing.SearchPage | allmanga.js:53-125 | `searchPage` fetches `SearchSlug` and returns the card listing and the next-page flag |
| AllMangaListing.BuildSearchSlug | allmanga.js:59-70 | the step-by-step `slug +=` building yields `SearchSlug` |
| AllMangaListing.Popular | allmanga.js:128-134 | `getPopular` is the search page of `PopularSlug` |
| AllMangaDetail.StatusCode | allmanga.js:204-216 | the code is 0, 1, 4 or 5; it is 0 iff the lower-cased text is `ongoing`, `airing` or `releasing`, 1 iff it is `completed` or `finished`, and 4 iff it is `not yet aired` |
| AllMangaDetail.StatusCodeIgnoresCase | allmanga.js:205 | the status code does not depend on letter case |
| AllMangaDetail.StatusCodeExamples | allmanga.js:204-216 | examples: `Ongoing` gives 0, `FINISHED` 1, `Not Yet Aired` 4, the empty text and `Hiatus` 5 |
| AllMangaDetail.StatusCodeAsWritten | allmanga.js:206-215 | the object lookup as written answers with an inherited `Object` member exactly for the lower-cased texts `constructor` and `__proto__` |
| AllMangaDetail.StatusCodeAsWrittenOnConstructor | allmanga.js:206-215 | the status text `Constructor` yields the inherited constructor instead of 5 |
| AllMangaDetail.StatusCodeAgrees | allmanga.js:206-215 | for every other text, the lookup as written gives `StatusCode` |
| AllMangaDetail.DetailTitle | allmanga.js:229-235 | no heading gives the empty title; a `title` preference or a missing `data-jp` gives the trimmed heading text; otherwise `data-jp` is used |
| AllMangaDetail.DetailImage | allmanga.js:238-245 | no cover gives the empty URL; a truthy cover `src` is normalised; a `null` or empty `src` is kept as it is; a non-empty URL starts with `http` |
| AllMangaDetail.Genres | allmanga.js:263-267 | every genre is trimmed and non-empty |
| AllMangaDetail.GenresMembers | allmanga.js:263-267 | a text is a genre iff it is non-empty and is the trimmed text of some genre link |
| AllMangaDetail.Search | allmanga.js:291-293 | a number pattern matches iff it matches at some position |
| AllMangaDetail.SearchFinds | allmanga.js:291-293 | the match found is the leftmost one |
| AllMangaDetail.NoMatchWithout | allmanga.js:291-293 | a text without an `e` or `E`, or shorter than the keyword, has no match |
| AllMangaDetail.EpisodeNumber | allmanga.js:288-297 | the number comes from `episode[-_]?N` in the URL, else from `episode N` in the name, else from `ep N` in the name, else it is the position + 1; each case is stated |
| AllMangaDetail.EpisodeNumberFromUrl | allmanga.js:291 | example: `/watch/x/Episode_12` gives 12 |
| AllMangaDetail.UrlSearchExample | allmanga.js:291 | example: the URL pattern finds 12 in `/watch/x/Episode_12` |
| AllMangaDetail.EpisodeNumberFromText | allmanga.js:293 | example: the name `EP  7` gives 7 |
| AllMangaDetail.EpisodeNumberFromPosition | allmanga.js:288 | example: with no match, the third link gets number 3 |
| AllMangaDetail.EpisodeName | allmanga.js:300-304 | the name always mentions `episode`; an empty or `Watch` text becomes `Episode N`; a text without `episode` becomes `Episode N: text`; any other text is kept |
| AllMangaDetail.Thumbnail | allmanga.js:307-316 | with thumbnails off or no image there is no thumbnail; when neither `src` nor `data-src` is truthy the thumbnail is `data-src` as it is (`null` or empty); a non-empty thumbnail starts with `http` |
| AllMangaDetail.ThumbnailCases | allmanga.js:311-313 | an `http` URL is kept, a `//` URL gets `https:`, and any other URL gives `null` |
| AllMangaDetail.ChapterFor | allmanga.js:318-322 | an episode's URL is its link's href |
| AllMangaDetail.VisitsAt | allmanga.js:283-285 | the visit of link `j` pushes an episode iff the href is present, non-empty and not `#` |
| AllMangaDetail.PushedLength | allmanga.js:283-323 | the loop pushes one episode per kept link |
| AllMangaDetail.PushedAt | allmanga.js:283-323 | the episode of kept link `j` sits after those of the kept links before it |
| AllMangaDetail.Reversed | allmanga.js:326 | the reverse has the same length and holds element `k` at position `n-1-k` |
| AllMangaDetail.ExtractEpisodes | allmanga.js:270-326 | the episode list is the reversed push order; it has one episode per kept link; the episode of kept link `j` sits at the mirrored position |
| AllMangaDetail.ReversedPushedAt | allmanga.js:326 | after the reverse, the episode of each kept link sits at the mirrored position |
| AllMangaDetail.ReadEpisode | allmanga.js:284-322 | the body of the episode loop, for a kept link, pushes that link's episode |
| AllMangaDetail.GetDetail | allmanga.js:203-337 | the slug, link, title, cover, description, genres and reversed episode list of the detail record; the status defaults to 5 and is otherwise the corrected `StatusCode` of the trimmed status text (see Findings) |
| AllMangaVideo.ServerName | allmanga.js:358-363 | the label is that of the first host fragment of the table (`gogoanime`, `vidstreaming`, `streamwish`, `filemoon`, `doodstream`) that the URL contains; it is `Default` iff it contains none of them |
| AllMangaVideo.IframeStreams | allmanga.js:348-371 | at most one stream per iframe; each URL starts with `http` and carries the provider headers |
| AllMangaVideo.IframeStream | allmanga.js:352-369 | the stream of one iframe is at `Absolutize(src)` (also its original URL), labelled `ServerName` of that URL, with the provider headers |
| AllMangaVideo.NonEmptySrcs | allmanga.js:350 | every kept `src` is non-empty and taken from the page; which ones is stated by `NonEmptySrcsMultiset`, in what order by `NonEmptySrcsPrefix` and `NonEmptySrcsAt` |
| AllMangaVideo.NonEmptySrcsMultiset | allmanga.js:350 | the kept values are exactly the non-empty `src` values of the page, each as often as it occurs there |
| AllMangaVideo.NonEmptySrcsPrefix | allmanga.js:348-351 | filtering more iframes only adds to the end of what the earlier ones keep |
| AllMangaVideo.NonEmptySrcsAt | allmanga.js:350 | an iframe with a non-empty `src` is kept, right after the ones kept before it |
| AllMangaVideo.IframeStreamsLength | allmanga.js:348-371 | the iframe pass gives as many streams as `NonEmptySrcs` keeps, which by `NonEmptySrcsMultiset` is the number of iframes with a non-empty `src` |
| AllMangaVideo.IframeStreamsAt | allmanga.js:348-371 | stream `k` of the iframe pass is `IframeStream` of the `k`-th kept `src`: its normalised URL, labelled with its server name |
| AllMangaVideo.IframeStreamOf | allmanga.js:348-371 | iframe `j` with a non-empty `src` gives the stream right after those of the earlier iframes, at `Absolutize(src)` and labelled `ServerName` of that URL |
| AllMangaVideo.SourceQuality | allmanga.js:383 | the quality is never empty: a truthy `label`, else a truthy `data-quality`, else `Direct`; each case is stated |
| AllMangaVideo.SourceStreams | allmanga.js:375-391 | at most one stream per source; each URL starts with `http` and has a non-empty quality |
| AllMangaVideo.SourceStream | allmanga.js:379-390 | the stream of one video source is at `Absolutize(src)` (also its original URL), labelled `SourceQuality` of the source, with the provider headers |
| AllMangaVideo.SourcesWithSrc | allmanga.js:377 | every kept source has a non-empty `src` and is taken from the page; which ones is stated by `SourcesWithSrcMultiset`, in what order by `SourcesWithSrcPrefix` and `SourcesWithSrcAt` |
| AllMangaVideo.SourcesWithSrcMultiset | allmanga.js:377 | the kept sources are exactly the sources with a non-empty `src`, each as often as it occurs on the page |
| AllMangaVideo.SourcesWithSrcPrefix | allmanga.js:375-377 | filtering more sources only adds to the end of what the earlier ones keep |
| AllMangaVideo.SourcesWithSrcAt | allmanga.js:377 | a source with a non-empty `src` is kept, right after the ones kept before it |
| AllMangaVideo.SourceStreamsLength | allmanga.js:375-391 | the source pass gives as many streams as `SourcesWithSrc` keeps, which by `SourcesWithSrcMultiset` is the number of sources with a non-empty `src` |
| AllMangaVideo.SourceStreamsAt | allmanga.js:375-391 | stream `k` of the source pass is `SourceStream` of the `k`-th kept source: its normalised URL, labelled with its quality |
| AllMangaVideo.SourceStreamOf | allmanga.js:375-391 | source `j` with a non-empty `src` gives the stream right after those of the earlier sources, at `Absolutize(src)` and labelled `SourceQuality` of the source |
| AllMangaVideo.ScanShape | allmanga.js:399-415 | every scanned match starts with `http://` or `https://`, contains the extension and holds only URL characters |
| AllMangaVideo.MatchShape | allmanga.js:399 | a single match has the scheme, the extension and only URL characters |
| AllMangaVideo.ScanSkips | allmanga.js:400 | text without an `h` produces no match |
| AllMangaVideo.MatchLoneUrl | allmanga.js:399 | a URL followed by a quote or a space matches up to its end |
| AllMangaVideo.ScanLoneUrl | allmanga.js:399-400 | a script holding one such URL, with no other `h`, yields exactly that URL |
| AllMangaVideo.ScanWithoutExt | allmanga.js:399-400 | a script without the extension yields no URL |
| AllMangaVideo.StripQuotes | allmanga.js:403 | the stripped URL holds no quote or backslash |
| AllMangaVideo.StripQuotesAppend | allmanga.js:403 | stripping distributes over concatenation |
| AllMangaVideo.StripQuotesKeepsScheme | allmanga.js:403 | stripping keeps the `http://` or `https://` scheme |
| AllMangaVideo.StripQuotesKeepsExt | allmanga.js:403-418 | stripping keeps the extension |
| AllMangaVideo.TaggedAt | allmanga.js:402-409 | the `k`-th tagged stream is the `k`-th match, stripped, with the given quality |
| AllMangaVideo.ScriptStreamShape | allmanga.js:395-427 | every script stream has the scheme and only URL characters; an `HLS` one contains `.m3u8` and an `MP4` one contains `.mp4` |
| AllMangaVideo.ScriptStreamsExample | allmanga.js:399-411 | example: a script assigning one quoted `.m3u8` URL yields one `HLS` stream of that URL |
| AllMangaVideo.Dedup | allmanga.js:434-441 | every kept stream is one of the input streams, and there are no more of them than input streams |
| AllMangaVideo.DedupUrls | allmanga.js:434-441 | the same set of URLs survives |
| AllMangaVideo.DedupUnique | allmanga.js:434-441 | no two surviving streams share a URL |
| AllMangaVideo.DedupKeepsFirst | allmanga.js:437-439 | the first stream with a URL survives |
| AllMangaVideo.DedupDropsLater | allmanga.js:437 | a later stream with a seen URL is dropped in favour of an earlier one |
| AllMangaVideo.DedupOfDistinct | allmanga.js:434-441 | streams with distinct URLs are all kept, in order |
| AllMangaVideo.DedupIdempotent | allmanga.js:434-441 | de-duplicating twice changes nothing |
| AllMangaVideo.DedupIndices | allmanga.js:434-441 | the kept streams are a sub-list of the input in input order: kept stream `k` is input stream `idx[k]`, with `idx` strictly increasing |
| AllMangaVideo.DedupPrefix | allmanga.js:434-441 | appending streams never changes what was kept of the earlier ones |
| AllMangaVideo.DedupSameUrl | allmanga.js:437-439 | of two streams with the same URL only the first is kept |
| AllMangaVideo.VideoListIframesFirst | allmanga.js:346-441 | the video list starts with the de-duplicated iframe streams, in their order |
| AllMangaVideo.TaggedClean | allmanga.js:402-409 | a match with no quotes or backslashes gives a stream at exactly that URL |
| AllMangaVideo.BothExtensions | allmanga.js:395-441 | a script URL with both `.m3u8` and `.mp4` in it gives an `HLS` then an `MP4` stream at the same URL, and the de-duplicated list keeps only the `HLS` one |
| AllMangaVideo.GetVideoList | allmanga.js:339-444 | a failed fetch gives the prefixed error; otherwise the result is the de-duplicated iframe, source and script streams, in that order |
| AllMangaVideo.IframePass | allmanga.js:346-371 | the iframe loop pushes `IframeStreams` |
| AllMangaVideo.SourcePass | allmanga.js:374-391 | the source loop appends `SourceStreams` |
| AllMangaVideo.ScriptPass | allmanga.js:394-427 | the script loop appends the streams of every script in order |
| AllMangaVideo.ScanScript | allmanga.js:396-426 | one script appends its `HLS` streams, then its `MP4` streams |
| AllMangaVideo.AppendTagged | allmanga.js:402-410 | the inner loop appends the tagged matches |
| AllMangaVideo.DedupByUrl | allmanga.js:434-441 | the dedup loop gives `Dedup`, keeps every URL and leaves no URL twice |
| AniZoneSlug.SlugLower | anizone.js:160 | no upper-case ASCII letter survives; which characters are kept is stated by `SpaceKept` and `SlugDottedI` |
| AniZoneSlug.RemoveNonWord | anizone.js:161 | only word characters, white space and `-` remain; white space is kept (`SpaceKept`) |
| AniZoneSlug.SpaceKept | anizone.js:160-161 | a white-space character survives lower-casing and the removal of non-word characters, so it reaches the step that turns spaces into hyphens |
| AniZoneSlug.SlugDottedI | anizone.js:160-161 | capital I with dot above slugs to `i`: lower-casing gives `i` and a combining dot, which is not a word character and is removed |
| AniZoneSlug.SlugShape | anizone.js:158-165 | a slug holds only `a-z`, digits, `_` and `-`, no white space, and never two hyphens in a row |
| AniZoneSlug.SlugFixedPoints | anizone.js:158-165 | a text is its own slug iff it is made of slug characters with no double hyphen |
| AniZoneSlug.SlugIdempotent | anizone.js:158-165 | the slug of a slug is itself |
| AniZoneSlug.SlugKeepsEdgeHyphens | anizone.js:162-164 | a title padded by spaces keeps a hyphen at each end, because `trim` runs after the spaces became hyphens |
| AniZoneSlug.SlugSquashesHyphens | anizone.js:161-163 | `A - B` becomes `a-b` |
| AniZoneStream.ParseEpisodeUrl | anizone.js:195 | what reads back from an episode page is a `/`-free slug and an episode number |
| AniZoneStream.EpisodeUrlRoundTrip | anizone.js:195 | the episode page of a `/`-free slug and a number reads back as that slug and number |
| AniZoneStream.ParseEpisodeUrlSound | anizone.js:195 | every URL that reads back as a slug and a number is that episode's page |
| AniZoneStream.EpisodeUrlInjective | anizone.js:195 | two episode pages are equal iff their slugs and numbers are |
| AniZoneStream.NumeralRoundTrip | anizone.js:195 | a numeral without a leading zero, read as a number and written out again, is the same numeral |
| AniZoneStream.EpisodeUrlOfTitle | anizone.js:188-195 | the page of a title's episode reads back as the title's slug and that episode |
| AniZoneStream.StreamRecordPlaceholder | anizone.js:181-220 | the placeholder names the provider, carries the title's slug and its episode page, and is not extracted, with no extraction or expiry time |
| AniZoneStream.PlaceholderStreams | anizone.js:198-204 | the placeholder holds one empty entry per supported quality, in the configured order |
| AniZoneStream.BackendRequestMatchesRecord | anizone.js:445-460 | the backend is asked for the same page, slug and episode number as the placeholder record carries |
| AniZoneM3U8.Find | anizone.js:240-241 | a match captures non-empty digit runs; a resolution has two captures and a bandwidth one |
| AniZoneM3U8.FindLeftmost | anizone.js:240-241 | the match found is the leftmost one |
| AniZoneM3U8.MatchFound | anizone.js:240-241 | the text matched occurs in the line and is not followed by a further digit |
| AniZoneM3U8.FindOfOccurrence | anizone.js:240-241 | the first occurrence of `RESOLUTION=WxH` or `BANDWIDTH=B` is what the regex captures |
| AniZoneM3U8.StepShape | anizone.js:243-257 | a variant's key is its height followed by `p`, its resolution is `WxH`, its bandwidth is the `BANDWIDTH` number of the line or `null`, and it comes from a `#EXT-X-STREAM-INF` line with a resolution |
| AniZoneM3U8.StepUrl | anizone.js:246-251 | the URL is the next line trimmed, kept when it starts with `http` and otherwise resolved against the manifest URL; a failed resolution throws |
| AniZoneM3U8.StepSkips | anizone.js:238-243 | a line is skipped iff it is not a stream tag, has no resolution, or has no non-empty next line |
| AniZoneM3U8.StepsAt | anizone.js:235-260 | the step of line `j` is what the loop body does with line `j` |
| AniZoneM3U8.BestIndex | anizone.js:263-268 | the chosen key has the greatest height, and it is the first key of that height |
| AniZoneM3U8.ReadLine | anizone.js:236-258 | the loop body gives the step of its line |
| AniZoneM3U8.ParsePlaylist | anizone.js:227-277 | the method returns `Playlist` |
| AniZoneM3U8.AddAuto | anizone.js:262-269 | `auto` is added as the best variant only when there is at least one variant |
| AniZoneM3U8.PlaylistOfLoop | anizone.js:233-269 | a loop that does not throw yields a well-formed table, and the result is that table with `auto` |
| AniZoneM3U8.ApplyWellFormed | anizone.js:253 | the variants table keeps each key once (the order of the keys is `ApplyOrder`'s) |
| AniZoneM3U8.FailureIsFinal | anizone.js:273-276 | once a step throws, the rest of the loop does not matter |
| AniZoneM3U8.ApplyFails | anizone.js:228-276 | the loop fails iff some line throws |
| AniZoneM3U8.ApplyKeys | anizone.js:245-253 | every key of the table is a height followed by `p`, so `auto` is never written by the loop |
| AniZoneM3U8.ApplyValues | anizone.js:253 | a key holds the variant of the last line that wrote it |
| AniZoneM3U8.ApplyOrder | anizone.js:253-263 | keys are listed in the order they were first written |
| AniZoneM3U8.FallbackExactly | anizone.js:273-276 | the result is exactly `{auto: {url, "unknown", null}}` iff the fetch failed or some line throws |
| AniZoneM3U8.NoVariantsNoAuto | anizone.js:267-269 | a playlist without variants gives the empty table, without `auto` |
| AniZoneM3U8.AutoIsHighest | anizone.js:262-269 | `auto` is added last; it is the variant of the first key of greatest height; every other entry is unchanged |
| AniZoneM3U8.ResultVariants | anizone.js:253-271 | every quality key other than `auto` holds the variant of the last line that wrote it |
| AniZoneM3U8.WithAutoKeeps | anizone.js:268 | adding `auto` leaves every other entry as it was |
| Strings.Trim | allmanga.js:101 | the trimmed text neither starts nor ends with ECMAScript white space |
| Strings.TrimInfix | allmanga.js:101 | the trimmed text is a piece of the original with only white space before and after it, and it is empty iff the original is all white space |
| Strings.TrimIdempotent | allmanga.js:94 | trimming twice changes nothing |
| Strings.ToLower | allmanga.js:205 | lower-casing keeps the length and works character by character (`ToLowerCases` states what happens to each character) |
| Strings.ToLowerCases | allmanga.js:205 | no `A`-`Z` survives; each `A`-`Z` letter becomes the letter 32 code points later, KELVIN SIGN becomes `k`, and every other character is kept |
| Strings.ToLowerIdempotent | allmanga.js:205 | lower-casing twice is lower-casing once |
| Strings.NatToString | allmanga.js:301 | the decimal form of a number is a digit string with no leading zero that reads back as the number |
| Strings.Split | anizone.js:233 | the pieces of `split` hold no separator, and there is at least one piece |
| Strings.SplitJoin | anizone.js:233 | joining the pieces with the separator gives back the text |
| Strings.JoinSplit | anizone.js:233 | splitting a join of separator-free pieces gives back the pieces |
| Strings.ReplaceFirst | allmanga.js:221 | `replace` with a string pattern leaves a text without the pattern unchanged and otherwise puts the replacement in place of the first occurrence, the rest unchanged |

## Left out

- Network and host I/O: `fetch`, `Client.get`, `Document` and `SharedPreferences`. The fetched page, playlist text or failure and the preference values are parameters.
- The semantics of CSS selectors: the model takes the elements each selector returned.
- The Jikan API functions (`searchAnime`, `getAnimeDetails`, `getEpisodeList`): they copy fetched JSON field by field.
- The provider class wrappers, `getEpisodeData`, the example functions, logging and exports. `AniZoneProvider.getVideoSource` returns the `getStreamUrl` record unchanged, so `GetStreamUrl` covers it.
- The backend response handling in `AniZoneProviderWithBackend.getVideoSource` (anizone.js:463-496). It depends on the fetched JSON, a second fetch of the playlist and `Date.now`; only the request it sends is modelled.
- `navigator.userAgent` is a parameter. `Date`-based timestamps are left out.
- `encodeURIComponent` and `new URL(url, base)` are parameters.
- `getFilterList`, `getSourcePreferences` and the unused `showEpDescription` preference are static configuration, so they are left out.
- The message prefix of `getVideoList` wraps failures of the I/O layer. It is modelled as a failure input.
- Strings.ToLower: besides `A`-`Z`, only KELVIN SIGN is lowered (to `k`); every other character is kept, where JavaScript lowers every cased letter. Each use compares the result with ASCII text (the status table, the word `episode`), and no other character lowers to an ASCII letter, so those outcomes are the same. LATIN CAPITAL LETTER I WITH DOT ABOVE, which JavaScript lowers to `i` and a combining dot, is kept as one character here; the slug's `SlugLower` expands it, because there the `i` survives.
- `parseInt` beyond 2^53 and float rounding are left out: numbers are unbounded naturals.
- Strings are sequences of characters, not UTF-16 code units, so surrogate pairs are single characters here.
- The order of keys in a JavaScript object: the `variants` table keeps insertion order explicitly. Integer-like keys such as `720p` are not array indices, so this matches the language.
- Episode numbers are naturals. A fractional or negative episode number passed to `getStreamUrl` is not modelled.
- AllMangaDetail.ChapterFor: its contract states only the URL; the name and thumbnail are stated by `EpisodeName`, `EpisodeNumber` and `Thumbnail`.

## Findings

| source | as written | input that shows it | evidently intended | confidence | as-written member | corrected member |
|---|---|---|---|---|---|---|
| allmanga.js:206-215 | `{...}[status] ?? 5` looks the lower-cased status up in an object literal, which also answers for members inherited from `Object.prototype` | the status text `Constructor` yields the `Object` constructor function, not a number | any status text outside the table yields 5 | high, not executed | AllMangaDetail.StatusCodeAsWrittenOnConstructor | AllMangaDetail.StatusCode |
