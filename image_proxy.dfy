/**
 * The image proxy endpoint: it fetches a remote image for the page only when the request is a GET
 * for an http(s) URL on the sports-data host, serves cached copies, and passes through only images.
 * URL parsing, the cache lookup and the upstream fetch are inputs.
 */
module ImageProxy {
  import opened Results
  import opened Text

  const Domain: string := "thesportsdb.com"
  const CacheControl: string := "public, max-age=3600, s-maxage=3600"

  /** `isAllowedImageHost`: the sports-data domain itself, its www host, or any of its sub-domains, ignoring case. */
  predicate IsAllowedImageHost(hostname: Option<string>) {
    var host := ToLower(match hostname case Some(h) => h case None => "");
    host == "www.thesportsdb.com" || host == Domain || EndsWith(host, ".thesportsdb.com")
  }

  /** The allowed names: the domain preceded by nothing, or by a name that ends in a dot. */
  ghost predicate DomainOrSubdomain(host: string) {
    exists p: string :: host == p + Domain && (p == "" || p[|p| - 1] == '.')
  }

  lemma {:induction false} SuffixTestMeansSubdomain(host: string)
    requires EndsWith(host, ".thesportsdb.com")
    ensures DomainOrSubdomain(host)
  {
    var p := host[..|host| - 15];
    var tail := host[|host| - 16..];
    assert tail == ".thesportsdb.com";
    assert host[|host| - 15..] == tail[1..] == Domain;
    assert host == p + Domain;
    assert p[|p| - 1] == tail[0];
  }

  lemma {:induction false} SubdomainPassesSuffixTest(host: string, p: string)
    requires host == p + Domain && p != "" && p[|p| - 1] == '.'
    ensures EndsWith(host, ".thesportsdb.com")
  {
    assert host[|host| - 16..] == [p[|p| - 1]] + Domain;
  }

  /** A host is allowed exactly when, lower-cased, it is the domain preceded by nothing or by a name ending in a dot. */
  lemma AllowedHostIsDomainOrSubdomain(h: string)
    ensures IsAllowedImageHost(Some(h)) <==> DomainOrSubdomain(ToLower(h))
  {
    var host := ToLower(h);
    if host == Domain {
      assert host == "" + Domain;
    } else if host == "www.thesportsdb.com" {
      assert host == "www." + Domain;
    } else if EndsWith(host, ".thesportsdb.com") {
      SuffixTestMeansSubdomain(host);
    }
    if DomainOrSubdomain(host) {
      var p: string :| host == p + Domain && (p == "" || p[|p| - 1] == '.');
      if p != "" {
        SubdomainPassesSuffixTest(host, p);
      }
    }
  }

  /** Letter case never changes the verdict. */
  lemma AllowedIgnoresCase(h: string)
    ensures IsAllowedImageHost(Some(h)) <==> IsAllowedImageHost(Some(ToLower(h)))
  {
    ToLowerIdempotent(h);
  }

  lemma PrefixedLookalikeRefused()
    ensures !IsAllowedImageHost(Some("evilthesportsdb.com"))
  {
    var host := ToLower("evilthesportsdb.com");
    assert |host| == 19 && host[3] == 'l';
  }

  lemma SuffixedLookalikeRefused()
    ensures !IsAllowedImageHost(Some("thesportsdb.com.evil.net"))
  {
    var host := ToLower("thesportsdb.com.evil.net");
    assert |host| == 24 && host[23] == 't';
  }

  lemma MixedCaseHostAllowed()
    ensures IsAllowedImageHost(Some("WWW.TheSportsDB.com"))
  {
    assert ToLower("WWW.TheSportsDB.com") == "www.thesportsdb.com";
  }

  /** Names that merely contain the domain are refused, and a missing host is refused. */
  lemma LookalikeHostsRefused()
    ensures !IsAllowedImageHost(Some("evilthesportsdb.com"))
    ensures !IsAllowedImageHost(Some("thesportsdb.com.evil.net"))
    ensures !IsAllowedImageHost(None)
    ensures IsAllowedImageHost(Some("WWW.TheSportsDB.com"))
  {
    PrefixedLookalikeRefused();
    SuffixedLookalikeRefused();
    MixedCaseHostAllowed();
    assert |ToLower("")| == 0;
  }

  /** The parts of a parsed target URL the proxy looks at. */
  datatype Target = Target(protocol: string, hostname: string)

  /** What the upstream fetch gave: the image server's answer, or an error thrown by `fetch`. */
  datatype Upstream = Upstream(status: int, contentType: Option<string>) | FetchFailed

  /** The proxy's answers, in the order its checks can produce them. */
  datatype Reply =
    | MethodNotAllowed
    | BadRequest(error: string)
    | HostNotAllowed
    | CacheHit(status: int)
    | UpstreamError(status: int)
    | UnsupportedContentType
    | Served(status: int, contentType: string, cacheControl: string)
    | Rejected

  /** The HTTP status of a reply the handler makes itself (a rejected handler leaves the status to the hosting runtime). */
  function StatusOf(r: Reply): (s: int)
    requires !r.Rejected?
    ensures r.MethodNotAllowed? ==> s == 405
    ensures r.BadRequest? ==> s == 400
    ensures r.HostNotAllowed? ==> s == 403
    ensures r.UnsupportedContentType? ==> s == 415
  {
    match r
    case MethodNotAllowed => 405
    case BadRequest(_) => 400
    case HostNotAllowed => 403
    case CacheHit(status) => status
    case UpstreamError(status) => status
    case UnsupportedContentType => 415
    case Served(status, _, _) => status
  }

  /** The reply and whether a copy was put in the cache. */
  datatype Handled = Handled(reply: Reply, stored: bool)

  /** The request passed every gate before the cache: GET, a target given, parsable, http(s), allowed host. */
  predicate PassesGates(verb: string, urlParam: Option<string>, parse: string -> Option<Target>) {
    && verb == "GET"
    && urlParam.Some? && urlParam.value != ""
    && parse(urlParam.value).Some?
    && parse(urlParam.value).value.protocol in ["https:", "http:"]
    && IsAllowedImageHost(Some(parse(urlParam.value).value.hostname))
  }

  /** `onRequest`: the gates in order, then the cache, then the upstream fetch and its checks. */
  function OnRequest(verb: string, urlParam: Option<string>, parse: string -> Option<Target>,
                     cached: Option<int>, upstream: Upstream): (h: Handled)
    ensures verb != "GET" ==> h.reply == MethodNotAllowed
    ensures verb == "GET" && (urlParam.None? || urlParam == Some("")) ==> h.reply == BadRequest("Missing image url")
    ensures verb == "GET" && urlParam.Some? && urlParam.value != "" ==>
      var target := parse(urlParam.value);
      && (target.None? ==> h.reply == BadRequest("Invalid image url"))
      && (target.Some? && target.value.protocol !in ["https:", "http:"] ==> h.reply == BadRequest("Unsupported protocol"))
      && (target.Some? && target.value.protocol in ["https:", "http:"] && !IsAllowedImageHost(Some(target.value.hostname)) ==>
            h.reply == HostNotAllowed)
    ensures h.stored <==> h.reply.Served?
    ensures PassesGates(verb, urlParam, parse) && cached.Some? ==> h.reply == CacheHit(cached.value)
    ensures PassesGates(verb, urlParam, parse) && cached.None? ==>
      match upstream
      case FetchFailed => h.reply == Rejected
      case Upstream(status, contentType) =>
        && (!(200 <= status <= 299) ==> h.reply == UpstreamError(status))
        && (200 <= status <= 299 && !StartsWith(ToLower(OrNothing(contentType)), "image/") ==> h.reply == UnsupportedContentType)
        && (200 <= status <= 299 && StartsWith(ToLower(OrNothing(contentType)), "image/") ==>
              h.reply == Served(status, OrNothing(contentType), CacheControl))
    ensures h.reply.Served? ==>
      && cached.None? && upstream.Upstream? && 200 <= h.reply.status <= 299 && h.reply.status == upstream.status
      && StartsWith(ToLower(h.reply.contentType), "image/") && h.reply.cacheControl == CacheControl
  {
    var raw := match urlParam case Some(s) => s case None => "";
    if verb != "GET" then Handled(MethodNotAllowed, false)
    else if raw == "" then Handled(BadRequest("Missing image url"), false)
    else match parse(raw)
      case None => Handled(BadRequest("Invalid image url"), false)
      case Some(target) =>
        if target.protocol !in ["https:", "http:"] then Handled(BadRequest("Unsupported protocol"), false)
        else if !IsAllowedImageHost(Some(target.hostname)) then Handled(HostNotAllowed, false)
        else match cached
          case Some(status) => Handled(CacheHit(status), false)
          case None =>
            match upstream
            case FetchFailed => Handled(Rejected, false)
            case Upstream(status, header) =>
              if !(200 <= status <= 299) then Handled(UpstreamError(status), false)
              else
                var contentType := OrNothing(header);
                if !StartsWith(ToLower(contentType), "image/") then Handled(UnsupportedContentType, false)
                else Handled(Served(status, contentType, CacheControl), true)
  }

  /** `headers.get("Content-Type") || ""`. */
  function OrNothing(header: Option<string>): string {
    match header
    case Some(t) => t
    case None => ""
  }

  /** Nothing is fetched, served or cached for a request that fails a gate: cache hits and upstream replies require all of them. */
  lemma OnlyGatedRequestsReachUpstream(verb: string, urlParam: Option<string>, parse: string -> Option<Target>,
                                       cached: Option<int>, upstream: Upstream)
    ensures var r := OnRequest(verb, urlParam, parse, cached, upstream).reply;
      r.CacheHit? || r.UpstreamError? || r.UnsupportedContentType? || r.Served? || r.Rejected? <==> PassesGates(verb, urlParam, parse)
  {
  }

  /** A request that fails a gate is answered with a client error and the upstream answer plays no part. */
  lemma GateFailuresAreClientErrors(verb: string, urlParam: Option<string>, parse: string -> Option<Target>,
                                    cached: Option<int>, upstream: Upstream, other: Upstream)
    requires !PassesGates(verb, urlParam, parse)
    ensures var h := OnRequest(verb, urlParam, parse, cached, upstream);
      && !h.reply.Rejected? && StatusOf(h.reply) in {400, 403, 405}
      && h == OnRequest(verb, urlParam, parse, None, other)
  {
  }
}
