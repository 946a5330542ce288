/** The decision logic of the `/app/twitch-stream` and `/app/twitch-chat`
    handlers: query defaults, the order of the two 400 checks, and the
    `parent` parameter of the Twitch iframe. The HTML around the iframe,
    response headers and Express wiring are not modelled. */
module TwitchRoutes {
  import opened Text
  import ParentDomain

  /** What `new URL(header).hostname` gives for an Origin or Referer header:
      no header (or an empty one), a parsed hostname, or a header that is not
      a URL, on which the constructor throws. */
  datatype UrlHeader = Absent | Url(hostname: string) | Malformed

  /** The inputs of one request; "" stands for an absent query value. */
  datatype TwitchRequest = TwitchRequest(
    parent: string, channel: string, width: string, height: string, borderRadius: string,
    origin: UrlHeader, referer: UrlHeader, host: string)

  datatype EmbedKind = Stream | Chat

  /** What the handler's page varies by: the iframe's width, height and `src`,
      and the border radius of the container around it (the rest of the page
      is fixed text). */
  datatype Frame = Frame(width: string, height: string, borderRadius: string, src: string)

  datatype Response = BadRequest(message: string) | ServerError(message: string) | Page(frame: Frame)

  const NoParentMessage: string :=
    "Unable to determine parent domain. Please provide 'parent' parameter with your domain name (without protocol or port)."
  const NoChannelMessage: string := "Channel ID is required as a query parameter"
  const ParentSeparator: string := "&parent="

  function FailureMessage(kind: EmbedKind): string
  {
    match kind
    case Stream => "Failed to create Twitch stream embed"
    case Chat => "Failed to create Twitch chat embed"
  }

  function DefaultWidth(kind: EmbedKind): string
  {
    match kind
    case Stream => "560"
    case Chat => "350"
  }

  function DefaultHeight(kind: EmbedKind): string
  {
    match kind
    case Stream => "315"
    case Chat => "500"
  }

  const DefaultBorderRadius: string := "12px"

  /** JavaScript's `value || fallback` on a query string. */
  function OrDefault(value: string, fallback: string): (r: string)
    ensures r == value || r == fallback
    ensures r == fallback <==> value == "" || value == fallback
  {
    if value == "" then fallback else value
  }

  /** The hostname a header contributes, when it is not malformed. */
  function HostnameOf(h: UrlHeader): (r: string)
    requires !h.Malformed?
    ensures h.Absent? ==> r == ""
    ensures h.Url? ==> r == h.hostname
    ensures r != "" ==> h.Url? && r == h.hostname
  {
    if h.Url? then h.hostname else ""
  }

  /** The Twitch address the iframe `src` opens with, before the channel. */
  function TwitchAddress(kind: EmbedKind): string
  {
    match kind
    case Stream => "https://player.twitch.tv/?channel="
    case Chat => "https://www.twitch.tv/embed/"
  }

  /** The iframe `src` for a channel and the joined parent parameter. */
  function FrameSource(kind: EmbedKind, channel: string, parentParam: string): (src: string)
    ensures IsPrefix(TwitchAddress(kind) + channel, src)
    ensures IsSuffix(parentParam, src)
  {
    match kind
    case Stream =>
      ConcatEnds("https://player.twitch.tv/?channel=" + channel, "&parent=", parentParam);
      "https://player.twitch.tv/?channel=" + channel + "&parent=" + parentParam
    case Chat =>
      ConcatEnds("https://www.twitch.tv/embed/" + channel, "/chat?parent=", parentParam);
      "https://www.twitch.tv/embed/" + channel + "/chat?parent=" + parentParam
  }

  /** Reference reading of the Twitch `parent` parameters: one `&parent=d`
      per domain, in order. */
  function ParentQuery(domains: seq<string>): string
  {
    if domains == [] then "" else "&parent=" + domains[0] + ParentQuery(domains[1..])
  }

  /** `domains.join("&parent=")` after a leading `&parent=` lists every domain
      under its own `parent` key. */
  lemma {:induction false} JoinedParents(domains: seq<string>)
    requires domains != []
    ensures "&parent=" + Join(domains, ParentSeparator) == ParentQuery(domains)
    decreases |domains|
  {
    if |domains| > 1 {
      JoinedParents(domains[1..]);
      assert "&parent=" + Join(domains, ParentSeparator)
          == "&parent=" + domains[0] + ("&parent=" + Join(domains[1..], ParentSeparator));
    } else {
      assert ParentQuery(domains[1..]) == "";
    }
  }

  /** Every domain of the list appears in the parent parameters as
      `&parent=<domain>`. */
  lemma {:induction false} ParentQueryListsAll(domains: seq<string>, i: nat)
    requires i < |domains|
    ensures exists a, b :: ParentQuery(domains) == a + "&parent=" + domains[i] + b
    decreases |domains|
  {
    if i == 0 {
      assert ParentQuery(domains) == "" + "&parent=" + domains[0] + ParentQuery(domains[1..]);
    } else {
      ParentQueryListsAll(domains[1..], i - 1);
      var a, b :| ParentQuery(domains[1..]) == a + "&parent=" + domains[1..][i - 1] + b;
      assert ParentQuery(domains) == ("&parent=" + domains[0] + a) + "&parent=" + domains[i] + b;
    }
  }

  /** The joined list is the first domain followed by one `&parent=d` per
      further domain. */
  lemma JoinedHead(domains: seq<string>)
    requires domains != []
    ensures Join(domains, ParentSeparator) == domains[0] + ParentQuery(domains[1..])
  {
    if |domains| == 1 {
      assert ParentQuery(domains[1..]) == "";
    } else {
      var rest := domains[1..];
      JoinedParents(rest);
      assert Join(domains, ParentSeparator) == domains[0] + ParentSeparator + Join(rest, ParentSeparator);
      assert domains[0] + ParentSeparator + Join(rest, ParentSeparator)
          == domains[0] + (ParentSeparator + Join(rest, ParentSeparator));
    }
  }

  /** The iframe source names the channel, then each domain under its own
      `parent` key; the chat URL opens its query with `?parent=`. */
  lemma FrameListsParents(kind: EmbedKind, channel: string, domains: seq<string>)
    requires domains != []
    ensures FrameSource(kind, channel, Join(domains, ParentSeparator)) == match kind
      case Stream => "https://player.twitch.tv/?channel=" + channel + ParentQuery(domains)
      case Chat => "https://www.twitch.tv/embed/" + channel + "/chat?parent=" + domains[0] + ParentQuery(domains[1..])
  {
    var joined := Join(domains, ParentSeparator);
    match kind {
      case Stream =>
        JoinedParents(domains);
        var address := "https://player.twitch.tv/?channel=" + channel;
        assert FrameSource(kind, channel, joined) == address + "&parent=" + joined;
        assert address + "&parent=" + joined == address + ("&parent=" + joined);
      case Chat =>
        JoinedHead(domains);
        var address := "https://www.twitch.tv/embed/" + channel + "/chat?parent=";
        assert FrameSource(kind, channel, joined) == address + joined;
        assert address + (domains[0] + ParentQuery(domains[1..])) == address + domains[0] + ParentQuery(domains[1..]);
    }
  }

  /** One Twitch embed handler. A malformed Origin or Referer makes the URL
      constructor throw, which the handler turns into a 500; otherwise an
      empty domain list is a 400 whatever the channel, then a missing channel
      is a 400, and only then is the iframe rendered. */
  method ServeTwitchEmbed(kind: EmbedKind, req: TwitchRequest, defaultParent: string)
    returns (resp: Response)
    ensures (req.origin.Malformed? || req.referer.Malformed?) <==> resp.ServerError?
    ensures resp.ServerError? ==> resp.message == FailureMessage(kind)
    ensures !resp.ServerError? ==>
      var domains := ParentDomain.ParentDomains(req.parent, HostnameOf(req.origin), HostnameOf(req.referer), req.host, defaultParent);
      (domains == [] ==> resp == BadRequest(NoParentMessage)) &&
      (domains != [] && req.channel == "" ==> resp == BadRequest(NoChannelMessage)) &&
      (domains != [] && req.channel != "" ==>
        resp.Page? &&
        resp.frame.width == OrDefault(req.width, DefaultWidth(kind)) &&
        resp.frame.height == OrDefault(req.height, DefaultHeight(kind)) &&
        resp.frame.borderRadius == OrDefault(req.borderRadius, DefaultBorderRadius) &&
        resp.frame.src == match kind
          case Stream => "https://player.twitch.tv/?channel=" + req.channel + ParentQuery(domains)
          case Chat => "https://www.twitch.tv/embed/" + req.channel + "/chat?parent=" + domains[0] + ParentQuery(domains[1..]))
  {
    var width := OrDefault(req.width, DefaultWidth(kind));
    var height := OrDefault(req.height, DefaultHeight(kind));
    var borderRadius := OrDefault(req.borderRadius, DefaultBorderRadius);
    var channel := req.channel;

    var origin := "";
    match req.origin {
      case Absent =>
      case Url(h) => origin := h;
      case Malformed => return ServerError(FailureMessage(kind));
    }
    var referer := "";
    match req.referer {
      case Absent =>
      case Url(h) => referer := h;
      case Malformed => return ServerError(FailureMessage(kind));
    }
    var domains := ParentDomain.GetParentDomains(req.parent, origin, referer, req.host, defaultParent);

    if |domains| == 0 {
      return BadRequest(NoParentMessage);
    }
    if channel == "" {
      return BadRequest(NoChannelMessage);
    }

    var parentParam := Join(domains, ParentSeparator);
    FrameListsParents(kind, channel, domains);
    resp := Page(Frame(width, height, borderRadius, FrameSource(kind, channel, parentParam)));
  }
}
