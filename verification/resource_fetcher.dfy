/**
  The resource fetcher the rendering engine calls back for every asset a report
  references (images, fonts, stylesheets): relative URLs are resolved against
  the server's base URL, answers are memoised per URL, problematic web fonts
  and failed downloads degrade to empty placeholders, and the session cookie
  is forwarded to the base host, and to any URL whose text contains
  `/web/content/`.

  The fetcher's mutable cache is threaded explicitly: FetchUrl returns the
  answer, the fetcher after the call, and the HTTP request it sent, if any.
  URL joining, host extraction, the engine's own `data:` decoder and the HTTP
  client are parameters (Env).
 */
module ResourceFetcher {
  import opened Outcomes
  import opened Text

  /** What the engine receives: raw content, MIME type and text encoding. */
  datatype ResourceData = ResourceData(content: string, mimeType: string, textEncoding: string)

  /** A GET request with its optional `Cookie` header and timeout in seconds; redirects are always followed. */
  datatype HttpRequest = HttpRequest(url: string, cookie: Option<string>, timeout: nat)

  /** The outcome of a GET: a response, or an exception from the client (timeout, connection error). */
  datatype HttpReply =
    | Response(status: int, contentType: Option<string>, encoding: Option<string>, content: string)
    | Raised

  /**
    The collaborators: URL joining, the host part of a URL (`urlparse(u).netloc`,
    None when `urlparse` raises on a malformed URL), the engine's `data:`
    decoder (None when it raises), and the HTTP client.
   */
  datatype Env = Env(
    urljoin: (string, string) -> string,
    netloc: string -> Option<string>,
    fetchData: string -> Option<ResourceData>,
    get: HttpRequest -> HttpReply)

  /** The fetcher's state: base URL without trailing slash, cookie header, timeout, and the answers given so far. */
  datatype Fetcher = Fetcher(baseUrl: string, cookieHeader: Option<string>, timeout: nat, cache: map<string, ResourceData>)

  const DefaultBaseUrl := "http://localhost"
  const DefaultTimeout := 6
  const ContentRoute := "/web/content/"
  const FontCdn := "fonts.odoocdn.com"

  /** The answer for web fonts the engine cannot use. */
  const FontPlaceholder := ResourceData("", "font/woff2", "")

  /** The answer for anything that could not be fetched. */
  const EmptyResource := ResourceData("", OctetStream, "")

  const OctetStream := "application/octet-stream"

  /** Python truthiness of an optional string: present and non-empty. */
  predicate IsSet(v: Option<string>)
  {
    v.Some? && |v.value| > 0
  }

  /** `get_param("web.base.url") or "http://localhost"`. */
  function ConfiguredBaseUrl(param: Option<string>): (r: string)
    ensures IsSet(param) ==> r == param.value
    ensures !IsSet(param) ==> r == DefaultBaseUrl
    ensures |r| > 0
  {
    if IsSet(param) then param.value else DefaultBaseUrl
  }

  /** A fresh fetcher: empty cache, the default timeout, the base URL without its trailing slashes. */
  function NewFetcher(baseUrl: string, cookieHeader: Option<string>): (f: Fetcher)
    ensures f.cache == map[] && f.timeout == DefaultTimeout && f.cookieHeader == cookieHeader
    ensures StartsWith(baseUrl, f.baseUrl) && !EndsWith(f.baseUrl, "/")
    ensures forall i :: |f.baseUrl| <= i < |baseUrl| ==> baseUrl[i] == '/'
  {
    Fetcher(RStrip(baseUrl, '/'), cookieHeader, DefaultTimeout, map[])
  }

  /** URLs the fetcher takes as they are. */
  predicate IsAbsolute(url: string)
  {
    StartsWith(url, "http://") || StartsWith(url, "https://") || StartsWith(url, "data:")
  }

  /** Relative URLs are joined to the base URL after dropping their leading slashes. */
  function Normalize(f: Fetcher, env: Env, url: string): string
  {
    if IsAbsolute(url) then url else env.urljoin(f.baseUrl + "/", LStrip(url, '/'))
  }

  /** A relative path resolves the same with or without leading slashes. */
  lemma {:induction false} LeadingSlashesIgnored(f: Fetcher, env: Env, url: string)
    requires !IsAbsolute(url)
    ensures !IsAbsolute("/" + url)
    ensures Normalize(f, env, "/" + url) == Normalize(f, env, url)
  {
    assert ("/" + url)[0] == '/';
    assert ("/" + url)[1..] == url;
  }

  /** Absolute URLs, `data:` URLs included, are their own key. */
  lemma AbsoluteUrlsKept(f: Fetcher, env: Env, url: string)
    requires IsAbsolute(url)
    ensures Normalize(f, env, url) == url
  {
  }

  /** `.eot` fonts and fonts from the font CDN, in any letter case. */
  predicate IsSkippedFont(url: string)
  {
    EndsWith(Lower(url), ".eot") || Contains(Lower(url), FontCdn)
  }

  /** Whether a font is skipped does not depend on the letter case of its URL. */
  lemma SkippedFontIgnoresCase(url: string)
    ensures IsSkippedFont(Lower(url)) <==> IsSkippedFont(url)
  {
    LowerIdempotent(url);
  }

  /**
    With a cookie to forward, both the base URL and the URL are parsed for their
    host, outside any `try`: a malformed one makes `urlparse` raise.
   */
  predicate ParseRaises(f: Fetcher, env: Env, url: string)
  {
    IsSet(f.cookieHeader) && (env.netloc(f.baseUrl).None? || env.netloc(url).None?)
  }

  /**
    The cookie goes along when there is one and the URL is on the base host,
    and to any URL whose text contains `/web/content/`, whatever its host.
   */
  predicate ForwardsCookie(f: Fetcher, env: Env, url: string)
  {
    IsSet(f.cookieHeader) && (env.netloc(f.baseUrl) == env.netloc(url) || Contains(url, ContentRoute))
  }

  /** The request for a normalized URL; None when parsing the hosts raises. */
  function RequestFor(f: Fetcher, env: Env, url: string): (req: Option<HttpRequest>)
    ensures req.None? <==> ParseRaises(f, env, url)
    ensures req.Some? ==> req.value.url == url && req.value.timeout == f.timeout
    ensures req.Some? ==> (req.value.cookie.Some? <==> ForwardsCookie(f, env, url))
    ensures req.Some? && req.value.cookie.Some? ==> req.value.cookie == f.cookieHeader
  {
    if !IsSet(f.cookieHeader) then Some(HttpRequest(url, None, f.timeout))
    else
      match (env.netloc(f.baseUrl), env.netloc(url))
      case (Some(baseHost), Some(urlHost)) =>
        var forward := baseHost == urlHost || Contains(url, ContentRoute);
        Some(HttpRequest(url, if forward then f.cookieHeader else None, f.timeout))
      case _ => None
  }

  /**
    `header.split(";")[0].strip()`: the media type without its parameters, that
    is the text before the first `;` with only its surrounding whitespace removed.
   */
  function MainType(header: string): (r: string)
    ensures exists a :: StrippedAt(BeforeFirst(header, ';'), r, a)
    ensures |r| == 0 || (!IsSpace(r[0]) && !IsSpace(r[|r| - 1]))
    ensures ';' !in r
  {
    var before := BeforeFirst(header, ';');
    var r := Strip(before);
    assert ';' !in r by {
      var a :| StrippedAt(before, r, a);
      assert forall i :: 0 <= i < |r| ==> r[i] == before[a + i];
    }
    r
  }

  /** A header `type; parameters` with a type free of `;` and of surrounding whitespace gives that type. */
  lemma MainTypeDropsParameters(mediaType: string, parameters: string)
    requires ';' !in mediaType && |mediaType| > 0
    requires !IsSpace(mediaType[0]) && !IsSpace(mediaType[|mediaType| - 1])
    ensures MainType(mediaType + [';'] + parameters) == mediaType
    ensures MainType(mediaType) == mediaType
  {
    BeforeFirstAt(mediaType, ';', parameters);
    BeforeFirstAbsent(mediaType, ';');
    StripTrimmed(mediaType);
  }

  /** `headers.get("Content-Type", "application/octet-stream")`, reduced to its main type. */
  function MediaType(contentType: Option<string>): (r: string)
    ensures contentType.Some? ==> r == MainType(contentType.value)
    ensures contentType.None? ==> r == MainType(OctetStream)
  {
    MainType(if contentType.Some? then contentType.value else OctetStream)
  }

  /** Text-like media types get a text encoding. */
  predicate IsTextual(mediaType: string)
  {
    StartsWith(mediaType, "text/") || mediaType == "application/xml" || mediaType == "image/svg+xml"
  }

  /** `(resp.encoding or "utf-8") if textual else ""`. */
  function TextEncoding(mediaType: string, encoding: Option<string>): (r: string)
    ensures IsTextual(mediaType) <==> |r| > 0
    ensures IsTextual(mediaType) && IsSet(encoding) ==> r == encoding.value
    ensures IsTextual(mediaType) && !IsSet(encoding) ==> r == "utf-8"
  {
    if IsTextual(mediaType) then (if IsSet(encoding) then encoding.value else "utf-8") else ""
  }

  /** An HTTP status `raise_for_status` rejects. */
  predicate IsErrorStatus(status: int)
  {
    400 <= status < 600
  }

  /** The answer built from the HTTP outcome: 404, error statuses and exceptions all give the empty resource. */
  function FromReply(reply: HttpReply): (r: ResourceData)
    ensures reply.Raised? ==> r == EmptyResource
    ensures reply.Response? && IsErrorStatus(reply.status) ==> r == EmptyResource
    ensures reply.Response? && !IsErrorStatus(reply.status) ==>
              r.content == reply.content && r.mimeType == MediaType(reply.contentType)
              && r.textEncoding == TextEncoding(r.mimeType, reply.encoding)
              && (|r.textEncoding| > 0 <==> IsTextual(r.mimeType))
  {
    match reply
    case Raised => EmptyResource
    case Response(status, contentType, encoding, content) =>
      if status == 404 then EmptyResource
      else if IsErrorStatus(status) then EmptyResource
      else
        var mediaType := MediaType(contentType);
        ResourceData(content, mediaType, TextEncoding(mediaType, encoding))
  }

  /**
    The answer of one call (None when an exception left `fetch_url`), the
    fetcher afterwards, and the request sent, if one was.
   */
  datatype Fetched = Fetched(data: Option<ResourceData>, fetcher: Fetcher, sent: Option<HttpRequest>)

  /**
    An exception leaves `fetch_url` only for a new URL that is not a skipped
    font: a `data:` URL the decoder rejects, or another URL whose host
    parsing raises.
   */
  predicate Escapes(f: Fetcher, env: Env, key: string)
  {
    key !in f.cache && !IsSkippedFont(key)
    && (if StartsWith(key, "data:") then env.fetchData(key).None? else ParseRaises(f, env, key))
  }

  /** `fetch_url(url)`. */
  function FetchUrl(f: Fetcher, env: Env, url: string): (r: Fetched)
    ensures var key := Normalize(f, env, url);
      && (r.data.None? <==> Escapes(f, env, key))
      && (r.data.None? ==> r.fetcher == f && r.sent.None?)
      && (r.data.Some? ==> r.fetcher == f.(cache := f.cache[key := r.data.value]))
      && (key in f.cache ==> r.data == Some(f.cache[key]) && r.sent.None?)
      && (r.sent.Some? ==> r.sent.value.url == key && r.data == Some(FromReply(env.get(r.sent.value))))
  {
    var key := Normalize(f, env, url);
    if key in f.cache then Fetched(Some(f.cache[key]), f, None)
    else if IsSkippedFont(key) then Fetched(Some(FontPlaceholder), f.(cache := f.cache[key := FontPlaceholder]), None)
    else if StartsWith(key, "data:") then
      match env.fetchData(key)
      case None => Fetched(None, f, None)
      case Some(data) => Fetched(Some(data), f.(cache := f.cache[key := data]), None)
    else
      match RequestFor(f, env, key)
      case None => Fetched(None, f, None)
      case Some(req) =>
        var data := FromReply(env.get(req));
        Fetched(Some(data), f.(cache := f.cache[key := data]), Some(req))
  }

  /**
    A request goes out exactly for a URL not answered yet that is neither a
    skipped font nor a `data:` URL, and whose host parsing does not raise.
   */
  lemma RequestSentExactly(f: Fetcher, env: Env, url: string)
    ensures var key := Normalize(f, env, url);
      FetchUrl(f, env, url).sent.Some? <==>
        key !in f.cache && !IsSkippedFont(key) && !StartsWith(key, "data:") && !ParseRaises(f, env, key)
  {
  }

  /** A malformed URL that needs its host parsed leaves `fetch_url` with an exception: no request, nothing cached. */
  lemma HostParseFailureEscapes(f: Fetcher, env: Env, url: string)
    requires var key := Normalize(f, env, url);
      key !in f.cache && !IsSkippedFont(key) && !StartsWith(key, "data:") && ParseRaises(f, env, key)
    ensures FetchUrl(f, env, url).data.None?
    ensures FetchUrl(f, env, url).sent.None?
    ensures FetchUrl(f, env, url).fetcher == f
  {
  }

  /**
    The cookie header accompanies a request exactly when the fetcher has one and
    the URL is on the base URL's host, or its text contains `/web/content/`.
   */
  lemma CookieForwarding(f: Fetcher, env: Env, url: string)
    requires FetchUrl(f, env, url).sent.Some?
    ensures var req := FetchUrl(f, env, url).sent.value;
      && (req.cookie.Some? <==> ForwardsCookie(f, env, Normalize(f, env, url)))
      && (req.cookie.Some? ==> req.cookie == f.cookieHeader)
      && req.timeout == f.timeout
  {
    RequestSentExactly(f, env, url);
    assert FetchUrl(f, env, url).sent == RequestFor(f, env, Normalize(f, env, url));
  }

  /** Skipped fonts get the empty `font/woff2` placeholder and are never downloaded. */
  lemma FontsArePlaceholders(f: Fetcher, env: Env, url: string)
    requires Normalize(f, env, url) !in f.cache && IsSkippedFont(Normalize(f, env, url))
    ensures FetchUrl(f, env, url).data == Some(FontPlaceholder)
    ensures FetchUrl(f, env, url).sent.None?
  {
  }

  /**
    `data:` URLs are decoded by the engine itself, without a request; when the
    decoder raises, nothing is cached.
   */
  lemma DataUrlsDecodedLocally(f: Fetcher, env: Env, url: string)
    requires StartsWith(url, "data:")
    requires url !in f.cache && !IsSkippedFont(url)
    ensures FetchUrl(f, env, url).data == env.fetchData(url)
    ensures FetchUrl(f, env, url).sent.None?
    ensures env.fetchData(url).None? ==> FetchUrl(f, env, url).fetcher == f
  {
  }

  /** A failed download never fails the render: it yields the empty resource. */
  lemma FailuresDegrade(f: Fetcher, env: Env, url: string)
    requires FetchUrl(f, env, url).sent.Some?
    requires var reply := env.get(FetchUrl(f, env, url).sent.value);
      reply.Raised? || (reply.Response? && IsErrorStatus(reply.status))
    ensures FetchUrl(f, env, url).data == Some(EmptyResource)
  {
  }

  /**
    Every URL is fetched at most once: asking again returns the same answer,
    sends nothing and leaves the fetcher as it was.
   */
  lemma FetchIsMemoised(f: Fetcher, env: Env, url: string)
    ensures var first := FetchUrl(f, env, url);
            var again := FetchUrl(first.fetcher, env, url);
      again.data == first.data && again.fetcher == first.fetcher && again.sent.None?
  {
    var first := FetchUrl(f, env, url);
    assert first.fetcher.baseUrl == f.baseUrl;
    assert Normalize(first.fetcher, env, url) == Normalize(f, env, url);
  }

  /**
    Earlier answers are never replaced; the cache gains the key just asked for,
    with the answer given, unless an exception left `fetch_url`.
   */
  lemma CacheOnlyGrows(f: Fetcher, env: Env, url: string)
    ensures var r := FetchUrl(f, env, url);
            var key := Normalize(f, env, url);
      && (r.data.Some? ==> r.fetcher.cache.Keys == f.cache.Keys + {key} && r.fetcher.cache[key] == r.data.value)
      && (r.data.None? ==> r.fetcher.cache == f.cache)
      && forall k :: k in f.cache ==> k in r.fetcher.cache && r.fetcher.cache[k] == f.cache[k]
  {
  }

  /** A stylesheet served with a charset parameter: `text/css` in the encoding the response declares. */
  lemma StylesheetResponse(reply: HttpReply)
    requires reply == Response(200, Some("text/css; charset=latin-1"), Some("latin-1"), "body{}")
    ensures FromReply(reply) == ResourceData("body{}", "text/css", "latin-1")
  {
    StylesheetMediaType();
    CssIsText();
  }

  /** The parameters after `;` are dropped from a stylesheet content type. */
  lemma StylesheetMediaType()
    ensures MediaType(Some("text/css; charset=latin-1")) == "text/css"
  {
    var css := "text/css";
    assert "text/css; charset=latin-1" == css + [';'] + " charset=latin-1";
    assert forall i :: 0 <= i < |css| ==> css[i] != ';';
    MainTypeDropsParameters(css, " charset=latin-1");
  }

  /** `text/css` is a text type. */
  lemma CssIsText()
    ensures IsTextual("text/css")
  {
    assert "text/css"[..5] == "text/";
  }

  /** A unit separator after the type is whitespace to `strip()`: `application/xml` keeps its text encoding. */
  lemma TrailingSeparatorDropped()
    ensures MainType("application/xml" + [31 as char]) == "application/xml"
    ensures IsTextual(MainType("application/xml" + [31 as char]))
  {
    var t := "application/xml";
    var header := t + [31 as char];
    BeforeFirstAbsent(header, ';');
    assert StrippedAt(header, t, 0) by {
      assert header[0..|t|] == t;
    }
    StripIsUnique(header, t, 0);
  }

  /** A response without content type is opaque bytes, with no text encoding. */
  lemma UntypedResponse(reply: HttpReply)
    requires reply.Response? && reply.status == 200 && reply.contentType.None?
    ensures FromReply(reply) == ResourceData(reply.content, OctetStream, "")
  {
    DefaultMediaType();
    OctetStreamIsNotText();
  }

  /** Without a Content-Type header the media type is `application/octet-stream`. */
  lemma DefaultMediaType()
    ensures MediaType(None) == OctetStream
  {
    assert forall i :: 0 <= i < |OctetStream| ==> OctetStream[i] != ';';
    MainTypeDropsParameters(OctetStream, "");
  }

  /** `application/octet-stream` gets no text encoding. */
  lemma OctetStreamIsNotText()
    ensures !IsTextual(OctetStream)
  {
    FirstCharDiffers(OctetStream, "text/");
    assert |OctetStream| != |"application/xml"| && |OctetStream| != |"image/svg+xml"|;
  }
}
