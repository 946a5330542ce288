# embed-service core, modelled in Dafny

embed-service serves embeddable YouTube and Twitch snippets over HTTP. Two
pieces of it make decisions, and this project models and proves properties of
both:

* **Parent-domain resolution for the Twitch embeds** (`src/server/routes.js`).
  Twitch only plays inside pages whose host is listed as a `parent`. The
  service builds that list from the `parent` query value (split on commas),
  the Origin and Referer hostnames, the Host header and a configured default.
  Each candidate is normalised (`processParentDomain`: one trailing
  `:<digits>` port removed, then one leading `http://` or `https://`), and
  empty results are dropped. The Twitch stream and chat handlers reject an
  empty list, then a missing channel, and otherwise list the domains in the
  iframe URL as `&parent=` parameters. Modules `Text`, `ParentDomain` and
  `TwitchRoutes`.
* **The YouTube lookup cache** (`src/server/youtube-api.js`). There are two
  slots, `latestVideo` and `featuredVideo`. Each holds `{data, timestamp}`
  and is fresh for 15 minutes while it holds data. An expired slot is
  refreshed from the YouTube Data API. When `getLatestVideo` finds nothing or
  fails, and when the featured lookup fails, the slot's cached value is
  returned, even when that value is `null`. When the channel has no trailer,
  the featured lookup instead returns (and caches) what `getLatestVideo`
  returns. `refreshCache` zeroes both timestamps. This is modelled as the
  class `YouTubeCache.VideoCache`. Its methods take the clock reading `now`
  in milliseconds and the outcome of the upstream call as arguments. A ghost
  log `requests` records which upstream endpoint each call hit.

Files: `wrappers.dfy` (an Option type standing for JavaScript `null`),
`text.dfy` (`split`/`join`), `parent_domain.dfy`, `twitch_routes.dfy`,
`youtube_cache.dfy`.

## Model

| member | source | states |
|---|---|---|
| Text.Split | src/server/routes.js:17 | `split` on one character: at least one piece, no piece holds the separator, and the first piece is the input up to its first separator |
| Text.SplitThenJoin | src/server/routes.js:17 | joining the pieces with the separator gives back the original string |
| Text.JoinThenSplit | src/server/routes.js:17 | splitting a join of separator-free pieces gives back the pieces |
| Text.Join | src/server/routes.js:185 | `join`: an empty list gives "", a non-empty one starts with its first element, followed by the separator when there are more elements |
| ParentDomain.StripPort | src/server/routes.js:8 | `/:[\d]+$/` removal: if a `:` followed only by one or more digits ends the string, the result is everything before that `:`; otherwise the string is unchanged |
| ParentDomain.StripScheme | src/server/routes.js:8 | `/^https?:\/\//` removal: a leading `https://` or `http://` is removed once; any other string is unchanged |
| ParentDomain.ProcessParentDomain | src/server/routes.js:5-9 | an empty input gives ""; the result is a contiguous piece of the input, so it is never longer |
| ParentDomain.ProcessUnchanged | src/server/routes.js:8 | a candidate with neither a port suffix nor a scheme is returned unchanged |
| ParentDomain.ProcessFullOrigin | src/server/routes.js:8 | `"https://a.com:8080"` becomes `"a.com"`: the port goes first, then the scheme |
| ParentDomain.BareDomainUnchanged | src/server/routes.js:8 | a hostname with no colon and no scheme is its own normal form |
| ParentDomain.ProvidedDomains | src/server/routes.js:17 | the comma-split `parent` value: the pieces join back to the value, and none contains a comma; an absent value gives no pieces |
| ParentDomain.HostDomain | src/server/routes.js:24 | the Host contribution is the prefix of the header before its first `:`: a prefix with no colon, followed by `:` or by the end of the header |
| ParentDomain.Candidates | src/server/routes.js:27-36 | the raw list built by the guarded pushes: it starts with the provided values unchanged and adds at most four entries after them |
| ParentDomain.NormalizeAll | src/server/routes.js:39 | the `map` step: same length, and each entry is the normal form of the candidate at that position |
| ParentDomain.DropEmpty | src/server/routes.js:39 | the `filter` step: never longer than its input, and a string is kept exactly when it is in the input and non-empty |
| ParentDomain.NormalizeAllAppend | src/server/routes.js:39 | normalising keeps order: it distributes over concatenation |
| ParentDomain.DropEmptyAppend | src/server/routes.js:39 | filtering keeps order: it distributes over concatenation |
| ParentDomain.ParentDomains | src/server/routes.js:15-40 | the value `getParentDomains` returns: it never contains "" and has at most four entries beyond the comma-split `parent` values |
| ParentDomain.GetParentDomains | src/server/routes.js:15-40 | the guarded pushes followed by map/filter compute exactly the normalised, non-empty candidate list, which never contains "" |
| ParentDomain.CandidatesOrder | src/server/routes.js:27-36 | the provided values come first in their given order, then the Origin hostname whenever it is non-empty, then a selection of Referer, Host and default kept in that order; at most four entries follow the provided values |
| ParentDomain.CandidatesMembers | src/server/routes.js:27-36 | a string is a candidate exactly when it is a provided value or one of the non-empty Origin, Referer, Host or default values |
| ParentDomain.CandidatesExtrasDeduplicated | src/server/routes.js:29-36 | Referer, Host and default are checked against the raw list: one already there adds no occurrence, a new one occurs exactly once |
| ParentDomain.OriginNotDeduplicated | src/server/routes.js:28 | the Origin hostname is pushed with no duplicate check: it occurs once more than among the provided values |
| ParentDomain.ParentDomainsShape | src/server/routes.js:39 | the result never holds "", is never longer than the candidate list, and holds a string exactly when it is the non-empty normal form of some candidate |
| ParentDomain.ProvidedLead | src/server/routes.js:27-39 | the result starts with the non-empty normal forms of the provided values, in their given order |
| ParentDomain.DuplicateAfterNormalisation | src/server/routes.js:27-39 | duplicates are checked before normalisation: `parent=a.com:8080` with Origin `a.com`, Referer `b.com`, Host `c.com:3000` and default `d.com` gives `a.com, a.com, b.com, c.com, d.com` |
| ParentDomain.NoHintsNoDomains | src/server/routes.js:15-39 | with no parent value, headers or default the list is empty |
| TwitchRoutes.OrDefault | src/server/routes.js:152-155 | the JavaScript `or` default on a query value: the fallback is used exactly when the value is absent (empty), or equal to it |
| TwitchRoutes.HostnameOf | src/server/routes.js:18-23 | an absent Origin or Referer contributes ""; a parsed URL contributes its hostname; a non-empty contribution only comes from a parsed URL |
| TwitchRoutes.JoinedParents | src/server/routes.js:185 | `join("&parent=")` after the template's leading `&parent=` gives one `&parent=<domain>` per domain, in order |
| TwitchRoutes.ParentQueryListsAll | src/server/routes.js:185 | every resolved domain appears in the parent parameters as `&parent=<domain>` |
| TwitchRoutes.JoinedHead | src/server/routes.js:249 | the joined list is the first domain followed by one `&parent=<domain>` per further domain, which is what the chat URL puts after `?parent=` |
| TwitchRoutes.FrameSource | src/server/routes.js:202 | the stream iframe `src` (chat: line 266) starts with the Twitch address followed by the channel and ends with the joined `parent` parameter |
| TwitchRoutes.FrameListsParents | src/server/routes.js:184-202 | the stream iframe URL is the channel followed by one `&parent=` per domain; the chat URL (line 266) opens with `?parent=<first>` and lists the rest with `&parent=` |
| TwitchRoutes.ServeTwitchEmbed | src/server/routes.js:149-274 | a malformed Origin or Referer is a 500 with the handler's message; otherwise an empty domain list is the no-parent 400 whatever the channel, then a missing channel is the channel 400, and otherwise the iframe's width and height and the container's border radius are defaulted per handler (560x315 stream, 350x500 chat, `12px`) and the `src` lists every domain as a `parent` |
| YouTubeCache.EmbedUrl | src/server/youtube-api.js:33-34 | the embed URL is `https://www.youtube.com/embed/` followed by the video id, unchanged |
| YouTubeCache.EmbedUrlInjective | src/server/youtube-api.js:34 | distinct video ids give distinct embed URLs |
| YouTubeCache.IsExpired | src/server/youtube-api.js:14-18 | a slot with `null` data is always expired; a slot with non-empty data is expired exactly when more than 15*60000 ms have passed since its timestamp |
| YouTubeCache.ExpiryRule | src/server/youtube-api.js:11-18 | for a slot holding `null` or an embed URL, expired exactly when the data is `null` or `now - timestamp > 15*60000`; an entry exactly 15 minutes old is fresh |
| YouTubeCache.ZeroedEntryExpired | src/server/youtube-api.js:95-105 | a slot whose timestamp was zeroed is expired at any time after 15 minutes |
| YouTubeCache.VideoCache.constructor | src/server/youtube-api.js:6-9 | both slots start as `{null, 0}`, with no upstream call made |
| YouTubeCache.VideoCache.GetLatestVideo | src/server/youtube-api.js:20-50 | fresh slot: cached data returned, no call, no change; otherwise one search; a found video is stored with timestamp `now` and returned; no video or a failure returns the cached data (maybe `null`) with data and timestamp unchanged; the result always equals the slot's data afterwards; the featured slot is untouched |
| YouTubeCache.VideoCache.GetFeaturedVideo | src/server/youtube-api.js:52-93 | fresh slot: cached data, nothing changes; otherwise one branding call; a trailer is stored with `now` and returned; no trailer returns whatever the latest-video lookup returns and stores that same value, even `null`, with `now`, the latest slot changing only as that lookup dictates; a failed call returns the cached featured data without falling back |
| YouTubeCache.VideoCache.RefreshCache | src/server/youtube-api.js:96-105 | both timestamps become 0, both data fields are unchanged, and both slots are then expired for every `now > 15*60000` |
| YouTubeCache.LatestServedFromCache | src/server/youtube-api.js:14-42 | after an expired slot is refreshed with a found video, a second lookup within 15 minutes returns the same URL, and only one upstream call is made in all |
| YouTubeCache.FailureDoesNotRefresh | src/server/youtube-api.js:43-49 | a failed search does not advance the timestamp, so the next lookup, at the same or any later time, makes a second upstream call |

## Behaviour kept as the code has it

The model keeps these behaviours of the code as written:

* Origin is not deduplicated, and duplicates are checked on raw values before
  normalisation. So the result can hold the same domain twice (see
  `DuplicateAfterNormalisation`). It is not a duplicate-free list.
* `getLatestVideo` never reports "not found" or "upstream unavailable". When
  it finds no video or the call fails, it returns the cached data, which is
  `null` if nothing was ever cached.
* When the featured lookup fails, `getFeaturedVideo` returns the cached
  featured data, even `null`. It does not fall back to the latest video.
* "At most one upstream call per 15 minutes" holds only after a lookup that
  stored a video (`LatestServedFromCache`). A failure leaves the slot as it
  was, so every later call goes upstream again while the slot stays expired
  (`FailureDoesNotRefresh`).

## Left out

- Express wiring, response headers and the HTML/CSS page bodies are not modelled. The Twitch handlers are reduced to the iframe's width, height and `src`, and the container's border radius. The duplicated iframe tag at `src/server/routes.js:202` is a template defect and is not modelled.
- The JSON and HTML YouTube endpoints (`src/server/routes.js:44-146`) only call the cache and render the result, so they are not modelled. The countdown endpoint and its browser script (`src/server/routes.js:277-370`) are not modelled either.
- `new URL(...).hostname` parsing of Origin and Referer is not modelled. The header arrives as `Absent`, `Url(hostname)` or `Malformed`. `Malformed` stands for the constructor throwing, which the handler's `catch` turns into a 500.
- A `parent` query value given more than once is not modelled. Express passes an array, `split` then throws, and the handler answers 500.
- The axios calls to the YouTube Data API, the API key, the channel id and the response shapes are not modelled. Each call becomes a `LatestLookup` or `FeaturedLookup` outcome. A search hit whose `id.videoId` is missing, which would embed the text `undefined`, is not modelled.
- The `channelId` argument of `getLatestVideo` and `getFeaturedVideo` only goes into the request URL. The slots are not keyed by it, so it is dropped.
- YouTubeCache.VideoCache.GetLatestVideo: one `now` is used for the whole call. The code checks expiry with one `Date.now()` and, after awaiting the search, stores a second `Date.now()` as the timestamp, which may be slightly later than `now`.
- YouTubeCache.VideoCache.GetFeaturedVideo: one `now` is used for the whole call. The code reads `Date.now()` again after awaiting the latest-video lookup, so the stored timestamp may be slightly later than `now`.
- Concurrent requests interleaving at `await` points are not modelled. Each call is atomic.
- `process.env` configuration is not modelled. `DEFAULT_PARENT_DOMAIN` is the `defaultParent`/`dflt` parameter, and "" stands for unset.
- Logging and the `try`/`catch` around `refreshCache` are not modelled. The body cannot throw.
- `src/client/embed.js` (browser DOM and fetch code) is not part of this model. Neither is `src/utils/scaling.js` (floating-point aspect ratios).
