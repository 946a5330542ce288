/** The two-slot time-to-live cache in front of the YouTube Data API. The
    upstream HTTP calls are replaced by their outcome, passed in by the
    caller, and `Date.now()` by a `now` argument in milliseconds. */
module YouTubeCache {
  import opened Wrappers
  import opened Text

  /** `CACHE_EXPIRATION`: fifteen minutes, in milliseconds. */
  const CacheExpiration: int := 15 * 60000

  const EmbedPrefix: string := "https://www.youtube.com/embed/"

  /** The playable URL of a video; the id is used as given. */
  function EmbedUrl(videoId: string): (url: string)
    ensures IsPrefix(EmbedPrefix, url) && url[|EmbedPrefix|..] == videoId
  {
    EmbedPrefix + videoId
  }

  /** Distinct videos get distinct embed URLs. */
  lemma EmbedUrlInjective(a: string, b: string)
    requires EmbedUrl(a) == EmbedUrl(b)
    ensures a == b
  {
    assert a == EmbedUrl(a)[|EmbedPrefix|..];
  }

  /** One cache slot: `{ data, timestamp }`, `data` being `null` or a URL. */
  datatype Entry = Entry(data: Option<string>, timestamp: int)

  /** `isCacheExpired`: `!data` (null or empty) or more than the expiration
      time since the timestamp. */
  predicate IsExpired(e: Entry, now: int)
    ensures e.data.None? ==> IsExpired(e, now)
    ensures e.data.Some? && e.data.value != "" ==>
      (IsExpired(e, now) <==> now > e.timestamp + CacheExpiration)
  {
    e.data == None || e.data == Some("") || now - e.timestamp > CacheExpiration
  }

  /** Slots only ever hold `null` or an embed URL. */
  predicate HoldsEmbed(e: Entry)
  {
    e.data.Some? ==> IsPrefix(EmbedPrefix, e.data.value)
  }

  /** For the slots this cache holds, expiry is "no data, or too old"; an
      entry exactly fifteen minutes old is still fresh. */
  lemma ExpiryRule(e: Entry, now: int)
    requires HoldsEmbed(e)
    ensures IsExpired(e, now) <==> e.data.None? || now > e.timestamp + CacheExpiration
    ensures e.data.Some? ==> !IsExpired(e, e.timestamp + CacheExpiration)
  {
  }

  /** After the timestamps are zeroed every slot is expired once the clock is
      past fifteen minutes. */
  lemma ZeroedEntryExpired(e: Entry, now: int)
    requires now > CacheExpiration
    ensures IsExpired(e.(timestamp := 0), now)
  {
  }

  /** The outcome of the channel search for the newest video. */
  datatype LatestLookup = Found(videoId: string) | NoVideo | LatestFailed

  /** The outcome of the channel branding lookup: the unsubscribed trailer id
      (if any) or a failed request. */
  datatype FeaturedLookup = Trailer(trailerId: string) | NoTrailer | FeaturedFailed

  /** The two upstream endpoints, recorded each time one is called. */
  datatype Request = SearchRequest | ChannelsRequest

  class VideoCache {
    var latestVideo: Entry
    var featuredVideo: Entry
    /** Upstream calls made so far, oldest first. */
    ghost var requests: seq<Request>

    ghost predicate Valid()
      reads this
    {
      HoldsEmbed(latestVideo) && HoldsEmbed(featuredVideo)
    }

    /** Module load: both slots empty with timestamp 0. */
    constructor ()
      ensures Valid()
      ensures latestVideo == Entry(None, 0) && featuredVideo == Entry(None, 0)
      ensures requests == []
    {
      latestVideo := Entry(None, 0);
      featuredVideo := Entry(None, 0);
      requests := [];
    }

    /** `getLatestVideo`: serve a fresh slot without calling upstream;
        otherwise search, store and return a found video, and on no video or
        a failure return the cached data (possibly `null`) unchanged. It
        always returns what the latest slot holds afterwards, and never
        touches the featured slot. */
    method GetLatestVideo(now: int, lookup: LatestLookup) returns (url: Option<string>)
      requires Valid()
      modifies this
      ensures Valid()
      ensures url == latestVideo.data
      ensures featuredVideo == old(featuredVideo)
      ensures !IsExpired(old(latestVideo), now) ==>
        latestVideo == old(latestVideo) && requests == old(requests)
      ensures IsExpired(old(latestVideo), now) ==>
        requests == old(requests) + [SearchRequest] &&
        latestVideo == if lookup.Found? then Entry(Some(EmbedUrl(lookup.videoId)), now) else old(latestVideo)
    {
      if !IsExpired(latestVideo, now) {
        return latestVideo.data;
      }
      requests := requests + [SearchRequest];
      match lookup {
        case Found(videoId) =>
          var embedUrl := EmbedUrl(videoId);
          latestVideo := Entry(Some(embedUrl), now);
          return Some(embedUrl);
        case NoVideo =>
          return latestVideo.data;
        case LatestFailed =>
          return latestVideo.data;
      }
    }

    /** `getFeaturedVideo`: serve a fresh slot without calling upstream;
        otherwise look up the trailer. A trailer is stored and returned; no
        trailer falls back to `getLatestVideo` (with `latest` as its outcome)
        and stores whatever that returns, even `null`, in the featured slot;
        a failed lookup returns the cached featured data and does not fall
        back. */
    method GetFeaturedVideo(now: int, featured: FeaturedLookup, latest: LatestLookup) returns (url: Option<string>)
      requires Valid()
      modifies this
      ensures Valid()
      ensures !IsExpired(old(featuredVideo), now) ==>
        url == old(featuredVideo.data) && unchanged(this)
      ensures IsExpired(old(featuredVideo), now) && featured.Trailer? && featured.trailerId != "" ==>
        url == Some(EmbedUrl(featured.trailerId)) && featuredVideo == Entry(url, now) &&
        latestVideo == old(latestVideo) && requests == old(requests) + [ChannelsRequest]
      ensures IsExpired(old(featuredVideo), now) && featured.FeaturedFailed? ==>
        url == old(featuredVideo.data) && featuredVideo == old(featuredVideo) &&
        latestVideo == old(latestVideo) && requests == old(requests) + [ChannelsRequest]
      ensures IsExpired(old(featuredVideo), now) && (featured.NoTrailer? || featured == Trailer("")) ==>
        url == latestVideo.data && featuredVideo == Entry(url, now) &&
        (!IsExpired(old(latestVideo), now) ==>
          latestVideo == old(latestVideo) && requests == old(requests) + [ChannelsRequest]) &&
        (IsExpired(old(latestVideo), now) ==>
          requests == old(requests) + [ChannelsRequest, SearchRequest] &&
          latestVideo == if latest.Found? then Entry(Some(EmbedUrl(latest.videoId)), now) else old(latestVideo))
    {
      if !IsExpired(featuredVideo, now) {
        return featuredVideo.data;
      }
      requests := requests + [ChannelsRequest];
      if featured.FeaturedFailed? {
        return featuredVideo.data;
      }
      if featured.Trailer? && featured.trailerId != "" {
        var embedUrl := EmbedUrl(featured.trailerId);
        featuredVideo := Entry(Some(embedUrl), now);
        return Some(embedUrl);
      }
      var latestVideoUrl := GetLatestVideo(now, latest);
      featuredVideo := Entry(latestVideoUrl, now);
      return latestVideoUrl;
    }

    /** `refreshCache`: zero both timestamps and keep the data, so the next
        lookup of either slot goes upstream. */
    method RefreshCache()
      requires Valid()
      modifies this
      ensures Valid()
      ensures latestVideo == old(latestVideo).(timestamp := 0)
      ensures featuredVideo == old(featuredVideo).(timestamp := 0)
      ensures requests == old(requests)
      ensures forall now :: now > CacheExpiration ==> IsExpired(latestVideo, now) && IsExpired(featuredVideo, now)
    {
      latestVideo := latestVideo.(timestamp := 0);
      featuredVideo := featuredVideo.(timestamp := 0);
      forall now | now > CacheExpiration
        ensures IsExpired(latestVideo, now) && IsExpired(featuredVideo, now)
      {
        ZeroedEntryExpired(old(latestVideo), now);
        ZeroedEntryExpired(old(featuredVideo), now);
      }
    }
  }

  /** Within the expiration window after a search that found a video, a
      second `getLatestVideo` is served from the slot: same URL, one upstream
      call in all. */
  method LatestServedFromCache(c: VideoCache, t1: int, t2: int, videoId: string, second: LatestLookup)
    returns (first: Option<string>, again: Option<string>)
    requires c.Valid()
    requires IsExpired(c.latestVideo, t1)
    requires t1 <= t2 <= t1 + CacheExpiration
    modifies c
    ensures first == again == Some(EmbedUrl(videoId))
    ensures c.requests == old(c.requests) + [SearchRequest]
  {
    first := c.GetLatestVideo(t1, Found(videoId));
    assert |EmbedUrl(videoId)| > 0;
    again := c.GetLatestVideo(t2, second);
  }

  /** A failed search leaves the timestamp as it was, so an expired slot is
      looked up again on the next call, whenever that comes. */
  method FailureDoesNotRefresh(c: VideoCache, now: int, later: int, next: LatestLookup)
    returns (first: Option<string>, again: Option<string>)
    requires c.Valid()
    requires IsExpired(c.latestVideo, now)
    requires now <= later
    modifies c
    ensures first == old(c.latestVideo.data)
    ensures c.requests == old(c.requests) + [SearchRequest, SearchRequest]
    ensures !next.Found? ==> again == first && c.latestVideo == old(c.latestVideo)
  {
    first := c.GetLatestVideo(now, LatestFailed);
    again := c.GetLatestVideo(later, next);
  }
}
