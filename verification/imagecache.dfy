/** `GET /api/img`: the image proxy with its in-memory cache. The cache maps a
    URL to the body and content type fetched for it and the time of the fetch;
    an entry younger than five minutes is served without going to the origin.
    URL parsing (`new URL(url).protocol`), the clock and the origin fetch are
    parameters. */
module ImageCache {
  import opened Wrappers
  import opened Js

  /** The cache lifetime: five minutes, in milliseconds. */
  const TtlMs: int := 5 * 60 * 1000

  /** The `Cache-Control` header of every image reply. */
  const CacheControl: string := "public, max-age=60"

  /** The content type used when the origin sends none. */
  const DefaultContentType: string := "application/octet-stream"

  type Bytes = seq<bv8>

  datatype Entry = Entry(body: Bytes, contentType: string, ts: int)

  type Cache = map<string, Entry>

  /** What `fetch(url)` came to: a response with its status, its
      `content-type` header (if any) and its body, or an exception. */
  datatype Origin =
    | Answered(status: int, contentType: Option<string>, body: Bytes)
    | Threw

  /** The proxy's reply: the image with its headers, or a JSON error. */
  datatype Reply =
    | Image(contentType: string, cacheControl: string, body: Bytes)
    | Failure(status: int, error: string)

  /** The cache after the request, the reply, and whether the origin was asked. */
  datatype Outcome = Outcome(cache: Cache, reply: Reply, fetched: bool)

  /** `String(req.query.url || '')`. */
  function UrlParam(v: Json): (url: string)
    ensures !Truthy(v) ==> url == ""
    ensures v.Str? ==> url == v.s
  {
    ToStr(Or(v, Str("")))
  }

  /** `new URL(url)` succeeded with an `http:` or `https:` protocol;
      `protocolOf` answers None when the constructor throws. */
  predicate Proxyable(protocolOf: string -> Option<string>, url: string) {
    url != "" && (protocolOf(url) == Some("http:") || protocolOf(url) == Some("https:"))
  }

  /** An entry stored at `ts` is still served at `now`. */
  predicate FreshAt(e: Entry, now: int) {
    now - e.ts < TtlMs
  }

  /** `response.ok`: a 2xx status. */
  predicate Ok(status: int) {
    200 <= status <= 299
  }

  /** `resp.headers.get('content-type') || 'application/octet-stream'`. */
  function ContentTypeOf(header: Option<string>): (ct: string)
    ensures ct != ""
    ensures header.Some? && header.value != "" ==> ct == header.value
    ensures !(header.Some? && header.value != "") ==> ct == DefaultContentType
  {
    if header.Some? && header.value != "" then header.value else DefaultContentType
  }

  /** One request to the proxy. A failed fetch, thrown or answered with a
      non-2xx status, is reported and not stored; a successful one is served
      and stored with the time of the request. */
  function Serve(cache: Cache, query: Json, protocolOf: string -> Option<string>, now: int,
                 fetch: string -> Origin): (o: Outcome)
    ensures var url := UrlParam(query);
            && (o.reply == Failure(400, "url required") <==> url == "")
            && (o.reply == Failure(400, "invalid url") <==> url != "" && !Proxyable(protocolOf, url))
            && (o.fetched <==> Proxyable(protocolOf, url) && !(url in cache && FreshAt(cache[url], now)))
            && (Proxyable(protocolOf, url) && url in cache && FreshAt(cache[url], now) ==>
                  o.reply == Image(cache[url].contentType, CacheControl, cache[url].body) && o.cache == cache)
            && (o.reply.Failure? ==> o.cache == cache)
            && (o.reply.Image? ==> o.reply.cacheControl == CacheControl && Proxyable(protocolOf, url))
            && (o.fetched && o.reply.Image? ==>
                  o.cache == cache[url := Entry(o.reply.body, o.reply.contentType, now)]
                  && o.reply.contentType != "")
            && (!o.fetched ==> o.cache == cache)
            && (o.fetched && fetch(url).Threw? ==> o.reply == Failure(500, "proxy error"))
            && (o.fetched && fetch(url).Answered? && !Ok(fetch(url).status) ==>
                  o.reply == Failure(502, "fetch failed"))
            && (o.fetched && fetch(url).Answered? && Ok(fetch(url).status) ==>
                  && o.reply.Image? && o.reply.body == fetch(url).body
                  && o.reply.contentType == ContentTypeOf(fetch(url).contentType))
  {
    var url := UrlParam(query);
    if url == "" then Outcome(cache, Failure(400, "url required"), false)
    else if !Proxyable(protocolOf, url) then Outcome(cache, Failure(400, "invalid url"), false)
    else if url in cache && FreshAt(cache[url], now) then
      var hit := cache[url];
      Outcome(cache, Image(hit.contentType, CacheControl, hit.body), false)
    else
      match fetch(url)
      case Threw => Outcome(cache, Failure(500, "proxy error"), true)
      case Answered(status, header, body) =>
        if !Ok(status) then Outcome(cache, Failure(502, "fetch failed"), true)
        else
          var contentType := ContentTypeOf(header);
          Outcome(cache[url := Entry(body, contentType, now)], Image(contentType, CacheControl, body), true)
  }

  /** Every cached URL is one the proxy accepts, every cached content type is
      non-empty, and no entry is stamped later than `now`. */
  predicate WellFormed(cache: Cache, protocolOf: string -> Option<string>, now: int) {
    forall url :: url in cache ==>
      Proxyable(protocolOf, url) && cache[url].contentType != "" && cache[url].ts <= now
  }

  /** Requests with a clock that does not go backwards keep the cache
      well-formed, and every image reply then carries a non-empty content type. */
  lemma ServeKeepsWellFormed(cache: Cache, query: Json, protocolOf: string -> Option<string>,
                             before: int, now: int, fetch: string -> Origin)
    requires WellFormed(cache, protocolOf, before) && before <= now
    ensures var o := Serve(cache, query, protocolOf, now, fetch);
            && WellFormed(o.cache, protocolOf, now)
            && (o.reply.Image? ==> o.reply.contentType != "")
  {
    var o := Serve(cache, query, protocolOf, now, fetch);
    var url := UrlParam(query);
    if o.reply.Image? && !o.fetched {
      assert url in cache;
    }
  }

  /** A successful fetch is reused: asking again for the same URL within five
      minutes returns the same body and content type without a second fetch,
      whatever the origin would now answer. */
  lemma RepeatWithinTtlIsCached(cache: Cache, query: Json, protocolOf: string -> Option<string>,
                                now: int, later: int, fetch1: string -> Origin, fetch2: string -> Origin)
    requires now <= later < now + TtlMs
    requires Serve(cache, query, protocolOf, now, fetch1).fetched
    requires Serve(cache, query, protocolOf, now, fetch1).reply.Image?
    ensures var o1 := Serve(cache, query, protocolOf, now, fetch1);
            var o2 := Serve(o1.cache, query, protocolOf, later, fetch2);
            && !o2.fetched
            && o2.reply == o1.reply
            && o2.cache == o1.cache
  {
    var o1 := Serve(cache, query, protocolOf, now, fetch1);
    var url := UrlParam(query);
    assert url in o1.cache && o1.cache[url].ts == now;
  }

  /** After five minutes an entry no longer answers: the next request for that
      URL goes to the origin again. */
  lemma ExpiredEntryRefetched(cache: Cache, query: Json, protocolOf: string -> Option<string>,
                              now: int, fetch: string -> Origin)
    requires Proxyable(protocolOf, UrlParam(query))
    requires UrlParam(query) in cache && now >= cache[UrlParam(query)].ts + TtlMs
    ensures Serve(cache, query, protocolOf, now, fetch).fetched
  {
  }

  /** A failed fetch is not remembered: the following request asks the origin
      again rather than replaying the failure. */
  lemma FailureNotCached(cache: Cache, query: Json, protocolOf: string -> Option<string>,
                         now: int, later: int, fetch1: string -> Origin, fetch2: string -> Origin)
    requires now <= later
    requires Serve(cache, query, protocolOf, now, fetch1).fetched
    requires Serve(cache, query, protocolOf, now, fetch1).reply.Failure?
    ensures Serve(Serve(cache, query, protocolOf, now, fetch1).cache, query, protocolOf, later, fetch2).fetched
  {
  }
}
