# meme search core, in Dafny

This project models the search core of `meme`, a Go service that searches
several Chinese meme sites for one keyword and merges what they return. It
serves the results as an MCP tool (`search_meme`, `list_sources`) and as a
command-line program.

What is modelled:

- **Shared data.** A `Meme` (title, URL, platform, optional width, height and
  format), the `SearchOptions` (page, limit, per-source timeout) and the
  aggregated `SearchResult`. The result's JSON form uses the Go field tags,
  with `omitempty` on the optional meme fields, and decodes back to the same
  value.
- **Deduplication keys and URL rules** (`internal/core/dedup.go`).
  - The key of a URL is the ID captured by the Douyin pattern
    `/tos-cn-i-[^/]+/([^/~?]+)`, using the leftmost match. When the pattern
    does not match, the key is the MD5 hex digest of the URL.
  - `DeduplicateMemes` keeps the first meme of every key, in input order.
  - `NormalizeURL` rewrites the first `http://` and trims white space.
  - `IsValidImageURL` and `DetectImageFormat` test the lower-cased URL for
    fixed lists of markers.
- **The registry** (`internal/core/registry.go`).
  - Sources are filed by ID, and a later registration replaces an earlier one.
  - `SearchAll` asks every registered source. `SearchSources` asks the
    requested IDs, and an unknown ID is answered "source not found".
  - Answers are collected in completion order. Failures go to `errors`, the
    ID of every success goes to `sources`, and the memes are concatenated
    and deduplicated.
  - A zero timeout means ten seconds.
- **The providers** (`internal/sources`). Each provider is modelled from the
  records it has fetched to the memes it emits:
  - Sougou, Doutub and Douyin read a JSON API.
  - Qudoutu, Doutula and Pdan scrape HTML.

  The model covers each provider's page and offset arithmetic, its order of
  URL and title fallbacks, URL acceptance, default titles, error messages
  and truncation to the limit.
- **Registration.** The four cookie-free providers are always registered.
  Douyin is registered only when a cookie is configured, and Doutub never is.
  `GetAllSourceInfo` lists one summary per source.
- **The front ends.**
  - The MCP handler refuses arguments that do not decode, then an empty
    keyword. It overrides the default page and limit only with positive
    values, and chooses `SearchSources` or `SearchAll` by whether a source
    list was given.
  - The CLI gives `-list` precedence, then stops on an empty `-k`. It splits
    `-s` on commas and trims each piece, and turns `-t` seconds into a
    64-bit nanosecond duration. Long URLs are shown as their first 57 bytes
    and `...`.
  - The logger reads `LOG_LEVEL` and filters messages by level.

How the model stands in for the parts of the program it does not contain:

- **Network and HTML decoding.** Each provider takes a `fetch` function from
  the query it builds to the decoded records, or to an error message.
- **MD5.** The key function takes an `md5Hex` function.
- **Image proxy.** `applyImageProxy` is a `proxy` function, and its
  definition is not part of this model.
- **Concurrency.** `SearchAll` and `SearchSources` take a `Runtime` value.
  It fixes what the program does not control:
  - the order in which Go's map iteration lists the sources;
  - the order in which the goroutines finish, as a permutation;
  - what each provider call answers;
  - the elapsed milliseconds.

  The results about attribution hold for every completion order.

Integers follow Go's 64-bit `int` and `time.Duration`: `(page - 1) *
pageSize` and `seconds * time.Second` wrap around, as in Go.

## Model

| member | source | states |
|---|---|---|
| GoInt.Wrap64 | cmd/cli/main.go:92 | a 64-bit product is the mathematical one when it fits, and congruent to it modulo 2^64 otherwise |
| Text.TrimSpace | internal/core/dedup.go:58 | the trimmed string is a slice of the input, everything cut off on both sides is white space, and it neither starts nor ends with white space |
| Text.TrimSpaceIdempotent | internal/core/dedup.go:58 | trimming a trimmed string changes nothing |
| Text.TrimKeepsPrefix | internal/sources/scrapers.go:167-171 | a prefix that starts and ends with non-space survives trimming |
| Text.IndexOf | internal/core/dedup.go:79 | the index found is an occurrence with none before it, and "not found" means there is no occurrence at all |
| Text.ContainsIff | internal/core/dedup.go:79 | `Contains` holds iff the pattern occurs at some index |
| Text.ReplaceFirst | internal/core/dedup.go:55 | with no occurrence the string is unchanged; otherwise exactly the first occurrence is replaced |
| Text.LowerIdempotent | internal/core/dedup.go:75 | lower-casing twice equals lower-casing once |
| Text.Split | cmd/cli/main.go:82 | there is one more piece than separators, no piece contains the separator, and joining the pieces gives the input back |
| Text.SplitJoin | cmd/cli/main.go:82 | splitting a join of separator-free parts gives the parts back |
| Text.FirstNonEmpty | internal/sources/api.go:114-126 | the result is empty iff every candidate is, and otherwise it is the first non-empty candidate |
| Text.FirstNonEmptyAt | internal/sources/scrapers.go:292-302 | when candidate i is the first non-empty one, the chain yields candidate i |
| Text.Utf8 | cmd/cli/main.go:215 | the encoding has at least one byte per character, and an ASCII string's bytes are its character codes |
| Types.DefaultSearchOptions | internal/core/types.go:26-33 | page 1, limit 20, timeout ten seconds |
| Types.MemeJsonFields | internal/core/types.go:8-17 | each JSON member of a meme carries its field under the tag name, and `width`, `height` and `format` are omitted when zero or empty |
| Types.MemeJsonRoundTrip | internal/core/types.go:8-17 | decoding an encoded meme gives the meme back, omitted fields included |
| Types.MemesJsonRoundTrip | internal/core/types.go:50 | a list of memes survives encoding and decoding |
| Types.StringsJsonRoundTrip | internal/core/types.go:51 | a list of source IDs survives encoding and decoding |
| Types.SearchResultJsonNames | internal/core/types.go:49-56 | the result object has exactly the members memes, sources, errors, total and duration_ms, in that order |
| Types.SearchResultJsonFields | internal/core/types.go:49-56 | each member of the result object holds the encoding of its field |
| Types.SearchResultJsonRoundTrip | internal/core/types.go:49-56 | a search result whose total fits Go's int decodes back to itself |
| Dedup.MatchAtSound | internal/core/dedup.go:21 | an ID the matcher returns at an index is a match of the Douyin pattern there, with a maximal capture |
| Dedup.MatchAtComplete | internal/core/dedup.go:21 | every match of the pattern at an index is found by the matcher |
| Dedup.MatchAtIff | internal/core/dedup.go:21 | the matcher returns an ID at an index iff the pattern matches there with that capture |
| Dedup.FindPattern | internal/core/dedup.go:27 | the match reported is a match, and no match starts before it; "none" means no match anywhere |
| Dedup.ExtractURLKey | internal/core/dedup.go:25-34 | the key is the capture of the leftmost Douyin match when there is one, and the MD5 hex of the whole URL otherwise |
| Dedup.DouyinURLKey | internal/core/dedup.go:20-29 | a URL made of a marker-free prefix, `/tos-cn-i-<segment>/`, an ID and a tail starting with `/`, `~` or `?` has that ID as its key |
| Dedup.MirrorsCollapse | internal/core/dedup.go:24-50 | two Douyin URLs for the same image ID on different CDN hosts deduplicate to the first one |
| Dedup.DedupKeySet | internal/core/dedup.go:37-50 | deduplication loses no key: the output has exactly the keys of the input |
| Dedup.DedupKeysUnique | internal/core/dedup.go:37-50 | no two output memes share a key |
| Dedup.DedupSubsequence | internal/core/dedup.go:37-50 | the output is a subsequence of the input, so relative order is kept and nothing is invented |
| Dedup.DedupRetainsFirstCarriers | internal/core/dedup.go:41-46 | an input element is kept iff it is the first to carry its key |
| Dedup.DedupKeepsFirstCarrier | internal/core/dedup.go:41-46 | for every element, the first element sharing its key is kept in the output |
| Dedup.DedupOfUnique | internal/core/dedup.go:37-50 | input whose keys are already distinct is returned unchanged |
| Dedup.DedupIdempotent | internal/core/dedup.go:37-50 | deduplicating twice equals deduplicating once |
| Dedup.DeduplicateMemes | internal/core/dedup.go:37-50 | the loop with the `seen` set computes the first-of-each-key output, with distinct keys, as a subsequence of the input keeping every key |
| Dedup.DedupPass | internal/core/dedup.go:38-47 | one pass that keeps an element exactly when its key is not yet in the `seen` set computes the first-of-each-key output |
| Dedup.NormalizeURL | internal/core/dedup.go:53-61 | without `http://` the URL is only trimmed; otherwise its first `http://` becomes `https://` before trimming; the result is at most one character longer and neither starts nor ends with white space |
| Dedup.NormalizeForcesHttps | internal/core/dedup.go:53-61 | a URL starting with `http://` comes out starting with `https://` |
| Dedup.NormalizeOnlyTrims | internal/core/dedup.go:53-61 | a URL without `http://` is only trimmed |
| Dedup.NormalizeRewritesEmbeddedScheme | internal/core/dedup.go:55 | the first `http://` is rewritten even when it is not at the start, e.g. inside a query string |
| Dedup.ContainsAny | internal/core/dedup.go:78-90 | some marker of the list occurs iff the scan says so |
| Dedup.ContainsAnyAppend | internal/core/dedup.go:74-90 | scanning the extensions and then the indicators equals scanning the joined list |
| Dedup.IsValidImageURL | internal/core/dedup.go:64-93 | the empty URL is invalid, and a URL is valid iff it starts with `http://` or `https://` and its lower-cased form mentions an extension or indicator |
| Dedup.DetectImageFormat | internal/core/dedup.go:96-111 | gif, then png, then webp/awebp, then jpg/jpeg are looked for in that order on the lower-cased URL; none gives "" |
| Dedup.DetectIgnoresCase | internal/core/dedup.go:97 | the detected format depends only on the lower-cased URL |
| Dedup.DetectedFormatIsValid | internal/core/dedup.go:64-111 | an http(s) URL detected as gif, png or jpg passes `IsValidImageURL` |
| Dedup.AwebpDetectedButNotValid | internal/core/dedup.go:76-105 | `https://a.awebp` is detected as webp but fails `IsValidImageURL`: the two marker lists disagree on `.awebp` |
| Harvest.ClampPage | internal/sources/api.go:52-55 | a page below 1 becomes 1, and other pages stay |
| Harvest.Offset | internal/sources/api.go:58-59 | the offset is (page - 1) * pageSize of the clamped page, wrapped to 64 bits |
| Harvest.OffsetOfFirstPages | internal/sources/api.go:52-59 | examples of `Harvest.Offset`: pages 1, 0 and negative ones start at offset 0, and page 2 starts one page in |
| Harvest.Accept | internal/sources/api.go:124-131 | a raw URL is accepted iff it is non-empty and its normalised form is a valid image URL, which is then the URL used |
| Harvest.OrDefault | internal/sources/api.go:133-136 | the title falls back to the default exactly when it is empty, and is then never empty |
| Harvest.Gather | internal/sources/api.go:112-146 | every emitted meme comes from some record, there are no more memes than records, and when every record builds a meme the i-th meme is the i-th record's |
| Harvest.GatherPicks | internal/sources/api.go:112-146 | the memes are exactly those of the records that build one, one per record and in record order |
| Harvest.PicksSnoc | internal/sources/api.go:112-146 | one more record adds its meme at the end when it builds one, and changes nothing otherwise |
| Harvest.HarvestedGather | internal/sources/api.go:112-150 | a provider's answer is the accepted records' memes, in record order, cut to the limit |
| Harvest.GatherComplete | internal/sources/api.go:112-146 | every record that builds a meme has that meme emitted |
| Harvest.Truncate | internal/sources/api.go:148-150 | the result is a prefix, of length min(len, limit) when the limit is positive, and everything otherwise |
| Harvest.MemeAt | internal/sources/scrapers.go:181-186 | an emitted meme has the URL, title and platform given and the format detected from the URL |
| Harvest.TruncatedAllEmitted | internal/sources/api.go:112-150 | after truncation every meme is still a well-formed emitted one |
| Api.NewSougou | internal/sources/api.go:22-32 | ID `sougou`, its display name, no authentication |
| Api.SougouQueryFor | internal/sources/api.go:51-71 | the query asks 48 results starting at (clamped page - 1) * 48 |
| Api.SougouURL | internal/sources/api.go:114-123 | the URL is the first non-empty of oriPicUrl, picUrl, locImageLink, thumbUrl |
| Api.SougouMeme | internal/sources/api.go:112-146 | an item yields a meme iff its chosen URL is accepted; the meme keeps the item's width and height and falls back to the default title |
| Api.SougouSearch | internal/sources/api.go:51-152 | a fetch error is passed through; every meme is emitted by the provider, at most `limit` of them when the limit is positive |
| Api.SougouSearchContents | internal/sources/api.go:112-152 | the result is the truncation of the accepted items' memes, one each in item order, and with no limit every accepted item is present |
| Api.NewDoutub | internal/sources/api.go:161-171 | ID `doutub`, no authentication |
| Api.DoutubPageSize | internal/sources/api.go:194-199 | the page size is 20 for a non-positive limit, capped at 50, and the limit otherwise |
| Api.DoutubQueryFor | internal/sources/api.go:188-205 | the query carries the keyword, the clamped page and the capped page size |
| Api.DoutubMeme | internal/sources/api.go:246-270 | a row yields a meme iff its normalised path is valid; the meme's URL goes through the proxy with the Doutub referer, while its format comes from the unproxied URL |
| Api.DoutubSearch | internal/sources/api.go:188-272 | a fetch error passes through, an API code other than 1 gives the formatted code/msg error, and success means code 1 with at most one meme per row, each built from some row |
| Api.DoutubSearchContents | internal/sources/api.go:246-272 | with code 1 the result is the accepted rows' memes, one each and in row order, with no truncation |
| Api.DoutubKeepsEveryRow | internal/sources/api.go:246-272 | Doutub does not truncate: every accepted row's meme is in the result |
| Api.NewDouyin | internal/sources/api.go:282-293 | ID `douyin`, requires authentication, carries the cookie |
| Api.SetCookie | internal/sources/api.go:296-298 | only the cookie changes |
| Api.DouyinQueryFor | internal/sources/api.go:319-330 | the cursor is (clamped page - 1) * 10 and the query carries the cookie |
| Api.DouyinMeme | internal/sources/api.go:367-390 | a sticker yields a meme iff it has URLs and its first one is accepted |
| Api.DouyinUsesFirstURL | internal/sources/api.go:368-377 | a sticker whose first URL is rejected yields nothing, whatever its other URLs |
| Api.DouyinSearch | internal/sources/api.go:314-396 | without a cookie the search fails with the configuration error; a fetch error passes through; success emits at most `limit` memes |
| Api.DouyinSearchContents | internal/sources/api.go:367-396 | with a cookie, the result is the accepted stickers' memes, one each in sticker order, cut to the limit |
| Api.DouyinNoCookieNoRequest | internal/sources/api.go:315-317 | without a cookie the result does not depend on the network at all |
| Scrapers.NewQudoutu | internal/sources/scrapers.go:125-135 | ID `qudoutu`, its display name, no authentication |
| Scrapers.QudoutuResults | internal/sources/scrapers.go:154-158 | the grid items are used, unless there are none, in which case the fallback items are |
| Scrapers.Absolute | internal/sources/scrapers.go:167-169 | a src starting with `/` gets the site's origin prepended, and others stay |
| Scrapers.QudoutuRelativeSrc | internal/sources/scrapers.go:166-171 | every relative src ends up as an absolute URL on `https://www.qudoutu.cn/`, including one whose embedded `http://` normalisation rewrites |
| Scrapers.HttpAfterHost | internal/sources/scrapers.go:167-169 | in the absolute form of a relative src, an `http://` can only start after the host and its slash |
| Scrapers.ReplacedKeepsPrefix | internal/core/dedup.go:55-58 | rewriting an `http://` that starts after a prefix, then trimming, keeps the prefix when it neither starts nor ends with white space |
| Scrapers.AbsoluteKeepsHost | internal/sources/scrapers.go:166-171 | trimming a host-relative URL keeps the `https://www.qudoutu.cn/` prefix |
| Scrapers.AbsoluteHasNoHttp | internal/sources/scrapers.go:167-169 | prefixing the https origin to a relative src introduces no `http://` |
| Scrapers.QudoutuMeme | internal/sources/scrapers.go:160-187 | an element yields a meme iff it has a src whose absolute form is accepted; the title is the trimmed text or the default |
| Scrapers.QudoutuSearch | internal/sources/scrapers.go:137-194 | a fetch error passes through; every meme is emitted by Qudoutu; at most `limit` when positive |
| Scrapers.QudoutuSearchContents | internal/sources/scrapers.go:154-194 | the result is the accepted elements' memes of the chosen selection, one each in document order, cut to the limit |
| Scrapers.NewDoutula | internal/sources/scrapers.go:202-212 | ID `doutula`, its display name, no authentication |
| Scrapers.DoutulaMeme | internal/sources/scrapers.go:228-249 | an element yields a meme iff its data-original is present and accepted; the title is the trimmed text or the default |
| Scrapers.DoutulaSearch | internal/sources/scrapers.go:214-256 | a fetch error passes through; every meme is emitted by Doutula; at most `limit` when positive |
| Scrapers.DoutulaSearchContents | internal/sources/scrapers.go:228-256 | the result is the accepted elements' memes, one each in document order, cut to the limit |
| Scrapers.NewPdan | internal/sources/scrapers.go:264-274 | ID `pdan`, its display name, no authentication |
| Scrapers.PdanTitle | internal/sources/scrapers.go:292-302 | the title is the first non-empty of title, alt, trimmed span text and the default, so never empty |
| Scrapers.PdanURL | internal/sources/scrapers.go:304-307 | the URL is data-src, or src when data-src is empty |
| Scrapers.PdanMeme | internal/sources/scrapers.go:290-322 | an element yields a meme iff its URL is accepted |
| Scrapers.PdanSearchContents | internal/sources/scrapers.go:290-329 | the result is the accepted elements' memes, one each in document order, cut to the limit |
| Scrapers.PdanSkipsImageless | internal/sources/scrapers.go:309-311 | an element with neither data-src nor src yields nothing |
| Scrapers.PdanSearch | internal/sources/scrapers.go:276-329 | a fetch error passes through; every meme is emitted by Pdan; at most `limit` when positive |
| Scrapers.ScrapersIgnorePage | internal/sources/scrapers.go:137-142 | the three scrapers always fetch the first result page: their results do not depend on the page option |
| Registry.Register | internal/core/registry.go:23-27 | the source is filed under its ID, the key set grows by that ID only, other entries are unchanged, and a table whose keys are IDs stays so |
| Registry.Get | internal/core/registry.go:30-35 | found iff the ID is registered, and then it is the registered source |
| Registry.RegisterLastWins | internal/core/registry.go:26 | registering two sources with the same ID keeps only the second |
| Registry.GetAfterRegister | internal/core/registry.go:23-35 | after registering, `Get` of that ID returns the new source, and every other ID is answered as before |
| Registry.ListIDs | internal/core/registry.go:49-57 | every registered ID is listed exactly once, in some order |
| Registry.List | internal/core/registry.go:38-46 | one entry per registered source, each a registered source, with every ID listed once |
| Registry.EffectiveTimeout | internal/core/registry.go:91-94 | a zero timeout becomes ten seconds, and any other value, negative included, is used as given |
| Registry.TimeoutFallbackIsDefault | internal/core/registry.go:91-94 | the fallback equals the default options' timeout, and a negative timeout stays negative |
| Registry.Perform | internal/core/registry.go:98-103 | a started source reports under its own ID with its provider's answer, and a missing ID reports "source not found" |
| Registry.Arrivals | internal/core/registry.go:81-118 | the collector sees one outcome per task, in the completion order |
| Registry.Collect | internal/core/registry.go:114-125 | the collected memes are the successful answers concatenated in arrival order, and `sources` lists the successful IDs in that order |
| Registry.SuccessSnoc | internal/core/registry.go:118-124 | one more arrival appends its own memes and ID, if it succeeded |
| Registry.CollectErrorKeys | internal/core/registry.go:118-121 | an ID is in `errors` iff some outcome of that ID failed |
| Registry.CollectLastError | internal/core/registry.go:119-120 | the message kept for an ID is that of its last failing outcome |
| Registry.CollectSources | internal/core/registry.go:121-123 | an ID is in `sources` iff some outcome of that ID succeeded |
| Registry.CollectMemes | internal/core/registry.go:123 | a meme is collected iff some successful outcome carried it |
| Registry.CollectAttribution | internal/core/registry.go:118-125 | when all outcomes of an ID agree, a failure puts it only in `errors` with that message and a success only in `sources` |
| Registry.Assemble | internal/core/registry.go:127-136 | the result holds the deduplicated memes, the collected sources and errors, and `total` is the number of memes |
| Registry.AllTasks | internal/core/registry.go:85-105 | one provider call per listed source, with the effective timeout |
| Registry.SearchAll | internal/core/registry.go:60-137 | the memes are the successful answers concatenated in completion order with later duplicate keys dropped, `sources` lists the successes in that order, `total` counts the memes, and every returned meme was returned by some registered source that succeeded |
| Registry.AllArrivalsOfSource | internal/core/registry.go:85-118 | every registered source has an outcome, and each carries its own provider's answer |
| Registry.SearchAllEmpty | internal/core/registry.go:64-72 | an empty registry gives empty memes, sources and errors and a zero total |
| Registry.SearchAllKeepsEveryKey | internal/core/registry.go:118-128 | every meme a successful source returned is represented in the result by a meme with the same key |
| Registry.SearchAllAttribution | internal/core/registry.go:118-125 | a failing source is in `errors` with its message and not in `sources`; a succeeding one is in `sources` and not in `errors`, for every completion order |
| Registry.SearchAllReportsRegistered | internal/core/registry.go:85-125 | an unregistered ID appears in neither `errors` nor `sources` |
| Registry.SearchAllOrderIndependent | internal/core/registry.go:113-125 | two runs that differ only in listing and completion order report the same errors and the same set of successful sources |
| Registry.SearchAllSameVerdict | internal/core/registry.go:113-125 | under two completion orders one source gets the same verdict: the same error message, or listed as successful in both |
| Registry.SourceTasks | internal/core/registry.go:158-185 | a registered ID becomes a provider call and an unknown one an immediate "source not found" |
| Registry.SearchSources | internal/core/registry.go:140-216 | an empty ID list is exactly `SearchAll`; otherwise the memes are the successful answers concatenated in completion order with later duplicate keys dropped, each found by a requested source, and `sources` lists the successes in that order; `total` counts the memes and their keys are distinct |
| Registry.SourceArrivalsFound | internal/core/registry.go:158-207 | every meme a non-empty `SearchSources` returns was returned by a requested, registered source that succeeded |
| Registry.SearchSourcesKeepsEveryKey | internal/core/registry.go:198-207 | every meme a requested, successful source returned is represented in the result by a meme with the same key |
| Registry.SearchAllUniqueKeys | internal/core/registry.go:128 | `SearchAll` returns memes with pairwise distinct keys |
| Registry.SourceArrivalsOf | internal/core/registry.go:158-185 | every requested ID has an outcome, carrying its provider's answer or "source not found" |
| Registry.SearchSourcesMissing | internal/core/registry.go:159-165 | an unknown requested ID is in `errors` as "source not found" and never in `sources` |
| Registry.SearchSourcesPresent | internal/core/registry.go:168-185 | a registered requested ID is attributed by its provider's answer alone |
| Registry.SearchSourcesReportsRequested | internal/core/registry.go:158-205 | an ID that was not requested appears in neither `errors` nor `sources` |
| Registration.RegisterAllSources | internal/sources/register.go:6-17 | the key set gains the four cookie-free IDs, plus `douyin` exactly when a non-empty cookie is configured |
| Registration.RegisterFreeContents | internal/sources/register.go:8-11 | the four providers are filed under their IDs, and other entries stay |
| Registration.RegisteredProviders | internal/sources/register.go:6-17 | each provider is filed under its ID; Douyin gets the configured cookie, and without one no Douyin is added |
| Registration.RegisterDouyinContents | internal/sources/register.go:13-16 | Douyin, registered after the free providers, is filed under `douyin` and leaves the four free providers and every other entry in place |
| Registration.FreshRegistration | internal/sources/register.go:6-17 | a fresh registry gets four sources without a cookie and five with one, never `doutub`, and each is filed under its ID |
| Registration.InfoOf | internal/sources/register.go:31-36 | a summary copies the source's ID, name, description and authentication flag |
| Registration.GetAllSourceInfo | internal/sources/register.go:26-40 | one summary per registered source, every source summarised, no ID twice |
| Registration.InfosCoverRegistry | internal/sources/register.go:26-40 | the summaries of an enumeration of a well-formed registry name every source, and no ID twice |
| Tools.ToolOptions | internal/tools/tools.go:67-74 | page and limit are overridden only by positive arguments, and otherwise stay 1 and 20; the timeout is always the default |
| Tools.ToolOptionsPositive | internal/tools/tools.go:67-74 | the handler always searches a positive page with a positive limit and a ten-second deadline |
| Tools.Dispatch | internal/tools/tools.go:78-84 | a non-empty source list goes to `SearchSources`, and an empty one to `SearchAll` |
| Tools.DispatchIsSearchSources | internal/tools/tools.go:80-84 | the choice is equivalent to always calling `SearchSources` |
| Tools.HandleSearchMeme | internal/tools/tools.go:49-95 | arguments that do not decode fail with the decoding message; decoded arguments fail iff the keyword is empty, with the keyword message and no search; otherwise the tool returns the search result, with distinct keys and `total` equal to the number of memes |
| Tools.HandleFailsOnlyOnKeyword | internal/tools/tools.go:61-74 | once the arguments decode, page, limit and the source list never make the tool fail |
| Tools.HandleErrorsDistinct | internal/tools/tools.go:50-64 | the decoding error and the missing-keyword error are different messages |
| Cli.ParseSourceIDs | cmd/cli/main.go:79-86 | an empty `-s` gives no IDs; otherwise there are (commas + 1) IDs, each the trimmed piece, with no comma and nothing left to trim |
| Cli.ParseJoinedIDs | cmd/cli/main.go:80-86 | writing trimmed comma-free IDs joined by commas gives back exactly those IDs |
| Cli.CliOptions | cmd/cli/main.go:88-93 | page and limit are taken as given, and the timeout is `-t` seconds in nanoseconds, wrapped to 64 bits |
| Cli.CliTimeoutReachesRegistry | cmd/cli/main.go:92 | `-t 0` ends up as the registry's ten-second default, and any other in-range `-t` is used as given |
| Cli.DefaultFlagsTimeout | cmd/cli/main.go:20-22 | an example, on the flag defaults: by default the CLI searches page 1 with limit 10 and a fifteen-second deadline |
| Cli.Plan | cmd/cli/main.go:63-93 | `-list` is honoured first; then an empty keyword exits with status 1; otherwise a search with the parsed IDs and options runs |
| Cli.NoSearchWithoutKeyword | cmd/cli/main.go:63-77 | no search runs without a keyword or under `-list`, and with no `-s` all sources are searched |
| Cli.RunSearch | cmd/cli/main.go:115-121 | a non-empty ID list searches those sources, and an empty one searches all |
| Cli.SourceListSelectsSearchSources | cmd/cli/main.go:80-86 | any non-empty `-s`, even one made only of commas, yields at least one ID, so `SearchSources` is used |
| Cli.DisplayURL | cmd/cli/main.go:213-218 | a URL of at most 60 bytes is shown whole; a longer one as its first 57 bytes and `...`, 60 bytes in all |
| Cli.DisplayFits | cmd/cli/main.go:214-217 | the display never exceeds 60 bytes |
| Cli.DisplayAsciiURL | cmd/cli/main.go:214-217 | for an ASCII URL the display is the text of its first 57 characters and `...` |
| Cli.DisplayIdempotentAscii | cmd/cli/main.go:214-217 | an already shortened ASCII URL is shown unchanged |
| Logger.Rank | internal/utils/logger.go:12-17 | levels are the constants 0 to 3, Debug lowest and Error highest |
| Logger.RankOrder | internal/utils/logger.go:12-17 | an example, on the constants: Debug < Info < Warn < Error, and distinct levels have distinct values |
| Logger.LevelFromEnv | internal/utils/logger.go:24-37 | a level other than the default Info is chosen only by its exact lower- or upper-case name |
| Logger.LevelNamesRoundTrip | internal/utils/logger.go:27-36 | both spellings of every level select it |
| Logger.MixedCaseIgnored | internal/utils/logger.go:19-37 | examples of `Logger.LevelFromEnv`: `Debug`, `Warn`, `Error` and the unset variable all leave the level at Info |
| Logger.EmitsIsThreshold | internal/utils/logger.go:39-42 | a message is written iff its level is at least the current one; Error always passes and Debug shows everything |
| Logger.LogLine | internal/utils/logger.go:39-47 | a line is written iff the level passes the filter, formatted as timestamp, prefix and message |
| Logger.TrafficOnlyAtDebug | internal/utils/logger.go:69-77 | request and response lines appear iff the current level is Debug |
| Logger.DefaultFilter | internal/utils/logger.go:19-42 | with `LOG_LEVEL` unset, everything but Debug is written |

## Left out

- Timeout: the per-source timeout is defaulted only when it is exactly zero, so a negative timeout is passed to `context.WithTimeout` as is (`Registry.EffectiveTimeout`). What `context.WithTimeout` then does is outside the model.
- Registry.SearchSources: the model lets the "source not found" outcomes of unknown IDs arrive in any order, mixed with the provider answers. The program sends each of them from the same loop that starts the goroutines, in request order, so a source requested earlier may already have answered. Any order the program produces is one of the orders the model allows, and every result about `SearchSources` holds for all of them.
- Registry.SearchAll, Registry.SearchSources: a provider is modelled as answering the same call the same way. Asking one source twice, when `-s` or `sources` repeats an ID, therefore gives the same answer twice. Real network calls may differ between the two requests.
- Registry.SearchAll: `DurationMs` is the `elapsedMs` carried by the runtime, because clocks are outside the model.
- Locking: the registry's `sync.RWMutex` is not modelled, because every operation here is a pure function of the table.
- Cancellation: contexts are not modelled; a timed-out provider appears only as an error answer from `respond`.
- HTTP requests, headers, gzip handling, HTML parsing with goquery, and the JSON decoding of provider responses are the `fetch` parameters, because they are I/O.
- `applyImageProxy` is the `proxy` parameter, and `Config.ImageProxyURL` is not part of this model, because neither is defined in the source files shown.
- The providers' `platform` parameter stands for the source's own ID (`s.id`), which the Go code writes into every meme. Registration creates each provider with that ID, so the two agree.
- Api.SetCookie: the Go method mutates the shared `*DouyinSource` in place, so every holder of the pointer sees the new cookie. The model returns the updated source as a new value, and the caller must file it again.
- MD5 is the `md5Hex` parameter, because the hash itself is not the point of deduplication.
- The regular expression engine is replaced by a hand-written matcher for the one Douyin pattern. It is proved equivalent to the pattern's leftmost-match semantics.
- Text.Lower: only ASCII letters and the two non-ASCII letters whose lower case is ASCII (U+0130, U+212A) are mapped. Other letters cannot create or destroy the ASCII markers being searched for.
- JSON: `MarshalIndent`'s whitespace and the MCP text wrapping are not modelled. The JSON value is modelled as a tree. Marshal failures of the search result cannot happen for these types and are left out.
- Tools.HandleSearchMeme: the JSON round trip of the raw tool arguments into `SearchMemeArgs` is the `decoded` parameter, because it is the JSON library's work. A failure there, such as a fractional `page` or a string where the source list is expected, is modelled only as the error message the decoder reports.
- The MCP `list_sources` handler only serialises `GetAllSourceInfo`, and tool registration and the stdio server (cmd/server/main.go) are wiring, so none of these is modelled.
- CLI: flag parsing, the usage text, `-v` diagnostics, and `printSources`, `printJSON` and `printPretty` output are left out, apart from the URL shortening. They are printing.
- The `ErrEmptyKeyword` and `ErrRequestFailed` error values are declared as constants, but no modelled code path returns them.
