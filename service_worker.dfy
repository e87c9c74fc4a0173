/** The offline cache router of `public/sw.js`. The worker's shared state, the origin's
    named caches, is the `Worker` class: a map from bucket name to that bucket's entries,
    each keyed by request URL. Every network result the worker sees is a parameter, and the
    background refreshes it spawns wait in a queue until they are completed explicitly. */
module ServiceWorker {
  import opened JsString
  import opened Results

  const CACHE_NAME := "new-muslim-stories-v1"
  const OFFLINE_URL := "/offline"
  const PRECACHE_URLS := ["/", "/en", "/ar", "/offline", "/manifest.json"]
  const SYNC_TAG := "sync-stories"
  const STORIES := "stories"

  /** The substrings that mark a static asset. */
  const STATIC_MARKERS := [".css", ".js", ".png", ".jpg", ".svg", ".ico", "/_next/"]

  /** The status of a partial response, which the Cache API refuses to store. */
  const PARTIAL_CONTENT := 206

  datatype Response = Response(status: int, statusText: string, body: string) {
    /** `response.ok` */
    predicate Ok() { 200 <= status <= 299 }

    /** Whether `cache.put` accepts the response: it rejects a partial (206) response. */
    predicate Storable() { status != PARTIAL_CONTENT }
  }

  /** What one `fetch` does: it resolves with a response (ok or not) or rejects. */
  datatype Fetched = Received(response: Response) | NetworkError

  predicate FetchOk(f: Fetched) {
    f.Received? && f.response.Ok()
  }

  /** What `cache.addAll` needs of each fetch: an ok response that `cache.put` accepts. */
  predicate FetchCacheable(f: Fetched) {
    FetchOk(f) && f.response.Storable()
  }

  /** `request.mode`; only `navigate` is told apart. */
  datatype Mode = Navigate | OtherMode

  /** `request.method`; only `GET` is told apart. */
  datatype HttpMethod = Get | OtherMethod

  /** A request: its absolute URL, its method, its mode and its `Accept` header (`None`
      when absent, where `headers.get('accept')` answers `null`). */
  datatype Request = Request(url: string, verb: HttpMethod, mode: Mode, accept: Option<string>)

  datatype Category = Navigation | StoryData | StaticAsset | Unhandled

  /** Why a handler's promise rejects: the network error rethrown, or the `TypeError` of
      calling `.includes` on a missing `Accept` header. */
  datatype Failure = NetworkFailure | AcceptHeaderMissing

  /** What the fetch handler hands the browser: `respondWith` a response, `respondWith` a
      promise that rejects, or no `respondWith` at all. */
  datatype FetchResult = Responded(response: Response) | Rejected(failure: Failure) | NotIntercepted

  const UNAVAILABLE := Response(503, "Service Unavailable", "Content not available offline")
  const NO_CONTENT := Response(204, "", "")

  predicate IsStoryUrl(url: string) {
    Includes(url, "/stories/") || Includes(url, STORIES)
  }

  predicate IsStaticUrl(url: string) {
    Includes(url, ".css") || Includes(url, ".js") || Includes(url, ".png") || Includes(url, ".jpg")
      || Includes(url, ".svg") || Includes(url, ".ico") || Includes(url, "/_next/")
  }

  /** The test for the empty-image fallback: it picks out a subset of the static assets. */
  predicate IsImageUrl(url: string)
    ensures IsImageUrl(url) ==> IsStaticUrl(url)
  {
    Includes(url, ".png") || Includes(url, ".jpg")
  }

  /** Any URL holding `/stories/` holds `stories`, so the first test adds nothing. */
  lemma StoriesPathSubsumed(url: string)
    requires Includes(url, "/stories/")
    ensures Includes(url, STORIES)
  {
    IncludesAt("/stories/", STORIES, 1);
    IncludesTransitive(url, "/stories/", STORIES);
  }

  /** The two-part story test is the same as testing for `stories` alone. */
  lemma StoryUrlTest(url: string)
    ensures IsStoryUrl(url) <==> Includes(url, STORIES)
  {
    if Includes(url, "/stories/") {
      StoriesPathSubsumed(url);
    }
  }

  /** The order of the tests in the fetch handler: navigation whatever the URL, then any
      URL containing `stories`, then any URL containing one of the static markers. */
  function Classify(req: Request): (c: Category)
    ensures c == Navigation <==> req.mode == Navigate
    ensures c == StoryData <==> req.mode != Navigate && Includes(req.url, STORIES)
    ensures c == StaticAsset <==>
              (req.mode != Navigate && !Includes(req.url, STORIES)
               && exists m :: m in STATIC_MARKERS && Includes(req.url, m))
  {
    StoryUrlTest(req.url);
    if req.mode == Navigate then Navigation
    else if IsStoryUrl(req.url) then StoryData
    else if IsStaticUrl(req.url) then
      assert exists m :: m in STATIC_MARKERS && Includes(req.url, m);
      StaticAsset
    else
      assert forall m :: m in STATIC_MARKERS ==> !Includes(req.url, m);
      Unhandled
  }

  const MANIFEST_PATH := "/manifest.json"

  /** The path `/manifest.json` holds `.js` and does not hold `stories`. */
  lemma ManifestPath()
    ensures Includes(MANIFEST_PATH, ".js") && !Includes(MANIFEST_PATH, STORIES)
  {
    var path := MANIFEST_PATH;
    assert path[9..][..3] == ".js";
    IncludesAt(path, ".js", 9);
    assert forall i :: 0 <= i < 7 ==> path[i] != 's';
    forall i | 0 <= i <= |path| ensures !StartsWith(path[i..], STORIES) {
      if i < 7 {
        assert path[i..][..|STORIES|][0] == path[i];
      } else if i == 7 {
        assert path[i..][..|STORIES|][2] == path[9];
      }
    }
  }

  /** The tests look at the whole absolute URL. On an origin whose name does not hold
      `stories`, the manifest is no story URL and counts as a static asset through `.js`. */
  lemma ManifestIsStaticAsset(origin: string, verb: HttpMethod, accept: Option<string>)
    requires !Includes(origin, STORIES)
    ensures Classify(Request(origin + MANIFEST_PATH, verb, OtherMode, accept)) == StaticAsset
  {
    var url := origin + MANIFEST_PATH;
    ManifestPath();
    IncludesInSuffix(origin, MANIFEST_PATH, ".js");
    NotIncludesConcat(origin, MANIFEST_PATH, STORIES);
    assert ".js" in STATIC_MARKERS;
  }

  /** On an origin whose name holds `stories`, every request that is not a navigation is
      served as story data, whatever its path. */
  lemma StoriesOriginCapturesAll(origin: string, path: string, verb: HttpMethod, accept: Option<string>)
    requires Includes(origin, STORIES)
    ensures Classify(Request(origin + path, verb, OtherMode, accept)) == StoryData
  {
    IncludesInPrefix(origin, path, STORIES);
  }

  /** The `stories` test is broad: on any origin, a stylesheet whose name mentions stories
      is served as story data (cache first with a background refresh), not as a static
      asset. */
  lemma StoriesStylesheetIsStoryData(origin: string, verb: HttpMethod, accept: Option<string>)
    ensures Classify(Request(origin + "/stories.css", verb, OtherMode, accept)) == StoryData
  {
    assert "/stories.css"[1..][..|STORIES|] == STORIES;
    IncludesAt("/stories.css", STORIES, 1);
    IncludesInSuffix(origin, "/stories.css", STORIES);
  }

  /** The image test of the offline fallback picks out a subset of the static assets:
      an image URL that is no story URL reaches the static-asset strategy. */
  lemma ImageUrlIsStaticAsset(url: string, verb: HttpMethod, accept: Option<string>)
    requires IsImageUrl(url) && !Includes(url, STORIES)
    ensures IsStaticUrl(url)
    ensures Classify(Request(url, verb, OtherMode, accept)) == StaticAsset
  {
    assert ".png" in STATIC_MARKERS && ".jpg" in STATIC_MARKERS;
  }

  const LOGO_PATH := "/logo.svg"

  /** Only `.png` and `.jpg` degrade offline: an `.svg` asset, on an origin whose name
      holds neither marker, is a static asset with no image fallback. */
  lemma SvgHasNoImageFallback(origin: string)
    requires !Includes(origin, ".png") && !Includes(origin, ".jpg")
    ensures IsStaticUrl(origin + LOGO_PATH) && !IsImageUrl(origin + LOGO_PATH)
  {
    var path := LOGO_PATH;
    assert path[5..][..4] == ".svg";
    IncludesAt(path, ".svg", 5);
    IncludesInSuffix(origin, path, ".svg");
    forall i | 0 <= i <= |path| ensures !StartsWith(path[i..], ".png") && !StartsWith(path[i..], ".jpg") {
      if i + 4 <= |path| {
        if i != 5 {
          assert path[i..][..4][0] == path[i];
        } else {
          assert path[i..][..4][1] == 's';
        }
      }
    }
    NotIncludesConcat(origin, path, ".png");
    NotIncludesConcat(origin, path, ".jpg");
  }

  /** `cache.match(request)`: the Cache API matches GET requests only, so a request with
      any other method misses whatever the bucket holds. */
  function Match(cache: map<string, Response>, req: Request): (r: Option<Response>)
    ensures req.verb != Get ==> r.None?
    ensures req.verb == Get ==> (r.Some? <==> req.url in cache)
    ensures r.Some? ==> r.value in cache.Values
  {
    if req.verb == Get && req.url in cache then Some(cache[req.url]) else None
  }

  /** The bucket after `cache.put(request, response)`. The put rejects a request that is
      not a GET and a partial response; nobody awaits it, so the handler goes on and
      nothing is stored. Otherwise the entry of the request's URL is overwritten. */
  function AfterPut(cache: map<string, Response>, req: Request, response: Response): (r: map<string, Response>)
    ensures r.Keys <= cache.Keys + {req.url}
    ensures forall u :: u in cache && u != req.url ==> u in r && r[u] == cache[u]
    ensures req.verb != Get || !response.Storable() ==> r == cache
    ensures req.verb == Get && response.Storable() ==> req.url in r && r[req.url] == response
  {
    if req.verb == Get && response.Storable() then cache[req.url := response] else cache
  }

  /** A stored response is what the next `cache.match` of the same GET request finds. */
  lemma MatchAfterPut(cache: map<string, Response>, req: Request, response: Response)
    requires req.verb == Get && response.Storable()
    ensures Match(AfterPut(cache, req, response), req) == Some(response)
  {
  }

  /** `cache.addAll(urls)`: every URL is fetched, and only if every fetch gives an ok
      response that `cache.put` accepts are all of them stored; otherwise nothing is. */
  function AddAll(cache: map<string, Response>, urls: seq<string>, net: string -> Fetched): (r: Option<map<string, Response>>)
    ensures r.Some? <==> forall i :: 0 <= i < |urls| ==> FetchCacheable(net(urls[i]))
    ensures r.Some? ==> r.value.Keys == cache.Keys + (set u | u in urls)
    ensures r.Some? ==> forall i :: 0 <= i < |urls| ==> r.value[urls[i]] == net(urls[i]).response
    ensures r.Some? ==> forall u :: u in cache && u !in urls ==> r.value[u] == cache[u]
  {
    if urls == [] then Some(cache)
    else if !FetchCacheable(net(urls[0])) then None
    else match AddAll(cache, urls[1..], net)
      case None => None
      case Some(m) => Some(m[urls[0] := net(urls[0]).response])
  }

  /** Precaching twice with the same network stores the same entries as precaching once. */
  lemma AddAllIdempotent(cache: map<string, Response>, urls: seq<string>, net: string -> Fetched)
    requires AddAll(cache, urls, net).Some?
    ensures AddAll(AddAll(cache, urls, net).value, urls, net) == AddAll(cache, urls, net)
  {
    var once := AddAll(cache, urls, net).value;
    var twice := AddAll(once, urls, net).value;
    assert twice.Keys == once.Keys;
    forall u | u in twice ensures twice[u] == once[u] {
      if u !in urls {
        assert u in once;
      } else {
        var i :| 0 <= i < |urls| && urls[i] == u;
      }
    }
    assert twice == once;
  }

  /** Every entry of the bucket is an ok response. */
  predicate AllOk(bucket: map<string, Response>) {
    forall u :: u in bucket ==> bucket[u].Ok()
  }

  /** Precaching stores only ok responses: a bucket holding only ok responses still does
      afterwards, and every precached URL is in it. */
  lemma AddAllKeepsOk(cache: map<string, Response>, urls: seq<string>, net: string -> Fetched)
    requires AllOk(cache) && AddAll(cache, urls, net).Some?
    ensures AllOk(AddAll(cache, urls, net).value)
    ensures forall i :: 0 <= i < |urls| ==> urls[i] in AddAll(cache, urls, net).value
  {
    var added := AddAll(cache, urls, net).value;
    forall u | u in added ensures added[u].Ok() {
      if u in urls {
        var i :| 0 <= i < |urls| && urls[i] == u;
        assert FetchCacheable(net(urls[i]));
      }
    }
  }

  /** The outcome of one request replayed by background sync: its response, or (when the
      fetch rejects) the request itself. */
  datatype Settled = Refetched(response: Response) | KeptRequest(url: string)

  datatype SyncResult = SyncIgnored | SyncSettled(results: map<string, Settled>)

  /** The `notificationclick` handler: the notification always closes, and `explore`
      also opens the English home page. */
  datatype ClickEffect = ClickEffect(closeNotification: bool, openWindow: Option<string>)

  function NotificationClick(action: string): (e: ClickEffect)
    ensures e.closeNotification
    ensures e.openWindow.Some? <==> action == "explore"
    ensures e.openWindow.Some? ==> e.openWindow.value == "/en"
  {
    ClickEffect(true, if action == "explore" then Some("/en") else None)
  }

  datatype NotificationAction = NotificationAction(action: string, title: string, icon: string)
  datatype Notification = Notification(title: string, body: string, icon: string, badge: string,
                                       actions: seq<NotificationAction>)

  const ICON := "/icon-192x192.png"

  /** The `push` handler's notification: the payload's text as the body when there is a
      payload, a fixed default otherwise, and the two actions `explore` and `close`. */
  function PushNotification(payload: Option<string>): (n: Notification)
    ensures n.title == "New Muslim Stories"
    ensures payload.Some? ==> n.body == payload.value
    ensures payload.None? ==> n.body == "New story available"
    ensures |n.actions| == 2 && n.actions[0].action == "explore" && n.actions[1].action == "close"
  {
    Notification("New Muslim Stories", payload.GetOr("New story available"), ICON, ICON,
      [NotificationAction("explore", "Read Story", ICON), NotificationAction("close", "Close", ICON)])
  }

  /** The Cache API resolves a relative URL against the worker's origin: the absolute URLs
      that `cache.addAll(paths)` and `cache.match(path)` use. */
  function Resolve(origin: string, paths: seq<string>): (urls: seq<string>)
    ensures |urls| == |paths|
    ensures forall i :: 0 <= i < |paths| ==> urls[i] == origin + paths[i]
  {
    seq(|paths|, i requires 0 <= i < |paths| => origin + paths[i])
  }

  /** After a successful precache, a GET of any precached page on the worker's origin (a
      navigation to `/en`, say) finds the page as fetched at install time. */
  lemma PrecachedPageIsFound(cache: map<string, Response>, origin: string, net: string -> Fetched,
                             path: string, mode: Mode, accept: Option<string>)
    requires AddAll(cache, Resolve(origin, PRECACHE_URLS), net).Some? && path in PRECACHE_URLS
    ensures Match(AddAll(cache, Resolve(origin, PRECACHE_URLS), net).value, Request(origin + path, Get, mode, accept))
            == Some(net(origin + path).response)
  {
    var urls := Resolve(origin, PRECACHE_URLS);
    var i :| 0 <= i < |PRECACHE_URLS| && PRECACHE_URLS[i] == path;
    assert urls[i] == origin + path;
  }

  class Worker {
    /** The origin's caches: bucket name to the bucket's entries, keyed by request URL. */
    var buckets: map<string, map<string, Response>>
    /** Requests of story-data background refreshes spawned and not yet settled. */
    var pending: seq<Request>
    /** The origin the worker is registered on. */
    const origin: string

    /** Only ok responses are ever written into the current bucket. */
    ghost predicate Valid()
      reads this
    {
      CACHE_NAME in buckets ==> AllOk(buckets[CACHE_NAME])
    }

    /** The current bucket as `caches.open(CACHE_NAME)` sees it (created empty if missing). */
    function Current(): map<string, Response>
      reads this
    {
      if CACHE_NAME in buckets then buckets[CACHE_NAME] else map[]
    }

    /** A worker starting on whatever caches the origin already holds. */
    constructor(origin: string, stored: map<string, map<string, Response>>)
      requires CACHE_NAME in stored ==> AllOk(stored[CACHE_NAME])
      ensures Valid() && this.origin == origin && buckets == stored && pending == []
    {
      this.origin := origin;
      buckets := stored;
      pending := [];
    }

    /** `caches.open(CACHE_NAME)`: the bucket exists afterwards, its entries unchanged. */
    method Open()
      modifies this
      ensures buckets == old(buckets)[CACHE_NAME := old(Current())]
      ensures pending == old(pending)
    {
      buckets := buckets[CACHE_NAME := Current()];
    }

    /** `cache.put(request, response)` on the current bucket. */
    method Put(req: Request, response: Response)
      modifies this
      ensures buckets == old(buckets)[CACHE_NAME := AfterPut(old(Current()), req, response)]
      ensures pending == old(pending)
    {
      buckets := buckets[CACHE_NAME := AfterPut(Current(), req, response)];
    }

    /** `caches.open(CACHE_NAME)` followed by `cache.addAll(urls)`, all or nothing.
        Returns whether every URL was stored. */
    method Precache(urls: seq<string>, net: string -> Fetched) returns (stored: bool)
      requires Valid()
      modifies this
      ensures Valid() && pending == old(pending)
      ensures stored <==> forall i :: 0 <= i < |urls| ==> FetchCacheable(net(urls[i]))
      ensures stored ==> buckets == old(buckets)[CACHE_NAME := AddAll(old(Current()), urls, net).value]
      ensures stored ==> forall i :: 0 <= i < |urls| ==> urls[i] in Current()
      ensures !stored ==> buckets == old(buckets)[CACHE_NAME := old(Current())]
    {
      var cache := Current();
      Open();
      var added := AddAll(cache, urls, net);
      stored := added.Some?;
      if stored {
        AddAllKeepsOk(cache, urls, net);
        buckets := buckets[CACHE_NAME := added.value];
      }
    }

    /** The `install` handler: open the bucket, then precache the five paths, resolved
        against the origin, all or nothing. Returns whether installation succeeded. */
    method Install(net: string -> Fetched) returns (installed: bool)
      requires Valid()
      modifies this
      ensures Valid() && pending == old(pending)
      ensures installed <==> forall i :: 0 <= i < |PRECACHE_URLS| ==> FetchCacheable(net(origin + PRECACHE_URLS[i]))
      ensures installed ==>
                buckets == old(buckets)[CACHE_NAME := AddAll(old(Current()), Resolve(origin, PRECACHE_URLS), net).value]
      ensures installed ==> forall i :: 0 <= i < |PRECACHE_URLS| ==> origin + PRECACHE_URLS[i] in Current()
      ensures !installed ==> buckets == old(buckets)[CACHE_NAME := old(Current())]
    {
      installed := Precache(Resolve(origin, PRECACHE_URLS), net);
    }

    /** The `activate` handler: delete every bucket whose name is not `CACHE_NAME`. */
    method Activate()
      requires Valid()
      modifies this
      ensures Valid() && pending == old(pending)
      ensures buckets.Keys == old(buckets).Keys * {CACHE_NAME}
      ensures CACHE_NAME in buckets ==> buckets[CACHE_NAME] == old(buckets)[CACHE_NAME]
    {
      var stale := buckets.Keys - {CACHE_NAME};
      while stale != {}
        invariant stale <= buckets.Keys
        invariant buckets.Keys - stale == old(buckets).Keys * {CACHE_NAME}
        invariant CACHE_NAME in buckets <==> CACHE_NAME in old(buckets)
        invariant CACHE_NAME in buckets ==> buckets[CACHE_NAME] == old(buckets)[CACHE_NAME]
        invariant pending == old(pending)
        decreases stale
      {
        var name :| name in stale;
        buckets := buckets - {name};
        stale := stale - {name};
      }
    }

    /** Network first, for navigations: a received response is returned, and put into the
        cache only when ok; on network failure, the cached page, else the offline page for
        HTML, else failure. */
    method NetworkFirst(req: Request, outcome: Fetched) returns (r: FetchResult)
      requires Valid()
      modifies this
      ensures Valid() && pending == old(pending)
      ensures outcome.Received? ==>
                && r == Responded(outcome.response)
                && buckets == (if outcome.response.Ok()
                               then old(buckets)[CACHE_NAME := AfterPut(old(Current()), req, outcome.response)]
                               else old(buckets))
      ensures outcome.NetworkError? ==>
                && buckets == old(buckets)[CACHE_NAME := old(Current())]
                && r == (if Match(old(Current()), req).Some? then Responded(Match(old(Current()), req).value)
                         else if req.accept.None? then Rejected(AcceptHeaderMissing)
                         else if Includes(req.accept.value, "text/html") && origin + OFFLINE_URL in old(Current())
                         then Responded(old(Current())[origin + OFFLINE_URL])
                         else Rejected(NetworkFailure))
    {
      match outcome {
        case Received(response) =>
          if response.Ok() {
            Open();
            Put(req, response);
          }
          r := Responded(response);
        case NetworkError =>
          Open();
          var cache := Current();
          var hit := Match(cache, req);
          if hit.Some? {
            r := Responded(hit.value);
          } else if req.accept.None? {
            r := Rejected(AcceptHeaderMissing);
          } else if Includes(req.accept.value, "text/html") && origin + OFFLINE_URL in cache {
            r := Responded(cache[origin + OFFLINE_URL]);
          } else {
            r := Rejected(NetworkFailure);
          }
      }
    }

    /** Cache first. A hit is returned as stored, and when `refresh` is set a background
        refresh is queued. A miss goes to the network and puts an ok response; offline,
        it gives `fallback` when there is one and fails otherwise. */
    method CacheFirst(req: Request, outcome: Fetched, refresh: bool, fallback: Option<Response>)
      returns (r: FetchResult)
      requires Valid()
      modifies this
      ensures Valid()
      ensures Match(old(Current()), req).Some? ==>
                && r == Responded(Match(old(Current()), req).value)
                && buckets == old(buckets)[CACHE_NAME := old(Current())]
                && pending == old(pending) + (if refresh then [req] else [])
      ensures Match(old(Current()), req).None? ==>
                && r == (if outcome.Received? then Responded(outcome.response)
                         else if fallback.Some? then Responded(fallback.value)
                         else Rejected(NetworkFailure))
                && buckets == old(buckets)[CACHE_NAME := if FetchOk(outcome)
                                                        then AfterPut(old(Current()), req, outcome.response)
                                                        else old(Current())]
                && pending == old(pending)
    {
      Open();
      var hit := Match(Current(), req);
      if hit.Some? {
        if refresh {
          pending := pending + [req];
        }
        r := Responded(hit.value);
      } else {
        match outcome {
          case Received(response) =>
            if response.Ok() {
              Put(req, response);
            }
            r := Responded(response);
          case NetworkError =>
            r := if fallback.Some? then Responded(fallback.value) else Rejected(NetworkFailure);
        }
      }
    }

    /** The `fetch` handler: classify the request and run the strategy of its category.
        `outcome` is what `fetch(request)` would give. */
    method HandleFetch(req: Request, outcome: Fetched) returns (r: FetchResult)
      requires Valid()
      modifies this
      ensures Valid()
      // unclassified requests are left to the browser and touch nothing
      ensures Classify(req) == Unhandled ==> r == NotIntercepted && buckets == old(buckets) && pending == old(pending)
      // network first: a received response is returned, and put into the cache only when ok
      ensures Classify(req) == Navigation && outcome.Received? ==>
                && r == Responded(outcome.response)
                && buckets == (if outcome.response.Ok()
                               then old(buckets)[CACHE_NAME := AfterPut(old(Current()), req, outcome.response)]
                               else old(buckets))
                && pending == old(pending)
      // ... and on network failure: the cached page, else the offline page for HTML, else failure
      ensures Classify(req) == Navigation && outcome.NetworkError? ==>
                && buckets == old(buckets)[CACHE_NAME := old(Current())]
                && pending == old(pending)
                && r == (if Match(old(Current()), req).Some? then Responded(Match(old(Current()), req).value)
                         else if req.accept.None? then Rejected(AcceptHeaderMissing)
                         else if Includes(req.accept.value, "text/html") && origin + OFFLINE_URL in old(Current())
                         then Responded(old(Current())[origin + OFFLINE_URL])
                         else Rejected(NetworkFailure))
      // cache first with background refresh: a hit is returned as stored and a refresh is queued
      ensures Classify(req) == StoryData && Match(old(Current()), req).Some? ==>
                && r == Responded(Match(old(Current()), req).value)
                && buckets == old(buckets)[CACHE_NAME := old(Current())]
                && pending == old(pending) + [req]
      // ... a miss goes to the network and never rejects
      ensures Classify(req) == StoryData && Match(old(Current()), req).None? ==>
                && r == (if outcome.Received? then Responded(outcome.response) else Responded(UNAVAILABLE))
                && buckets == old(buckets)[CACHE_NAME := if FetchOk(outcome)
                                                        then AfterPut(old(Current()), req, outcome.response)
                                                        else old(Current())]
                && pending == old(pending)
      // cache first: a hit is returned without the network
      ensures Classify(req) == StaticAsset && Match(old(Current()), req).Some? ==>
                && r == Responded(Match(old(Current()), req).value)
                && buckets == old(buckets)[CACHE_NAME := old(Current())]
                && pending == old(pending)
      // ... a miss goes to the network; offline, images degrade to an empty 204, the rest fail
      ensures Classify(req) == StaticAsset && Match(old(Current()), req).None? ==>
                && r == (if outcome.Received? then Responded(outcome.response)
                         else if IsImageUrl(req.url) then Responded(NO_CONTENT)
                         else Rejected(NetworkFailure))
                && buckets == old(buckets)[CACHE_NAME := if FetchOk(outcome)
                                                        then AfterPut(old(Current()), req, outcome.response)
                                                        else old(Current())]
                && pending == old(pending)
      // a request that is not a GET never changes an entry and never queues a refresh
      ensures req.verb != Get ==>
                && Current() == old(Current())
                && (buckets == old(buckets) || buckets == old(buckets)[CACHE_NAME := old(Current())])
                && pending == old(pending)
      // whatever comes from the cache is an ok response
      ensures (r.Responded? && r.response != UNAVAILABLE && r.response != NO_CONTENT
               && !(outcome.Received? && r.response == outcome.response)) ==> r.response.Ok()
    {
      var category := Classify(req);
      if category == Navigation {
        r := NetworkFirst(req, outcome);
      } else if category == StoryData {
        r := CacheFirst(req, outcome, true, Some(UNAVAILABLE));
      } else if category == StaticAsset {
        r := CacheFirst(req, outcome, false, if IsImageUrl(req.url) then Some(NO_CONTENT) else None);
      } else {
        r := NotIntercepted;
      }
    }

    /** One spawned background refresh settles, in whatever order they finish: an ok
        response overwrites the entry, anything else is silently dropped. */
    method CompleteRefresh(i: nat, outcome: Fetched)
      requires Valid() && i < |pending|
      modifies this
      ensures Valid()
      ensures pending == old(pending[..i] + pending[i + 1..])
      ensures buckets == (if FetchOk(outcome)
                          then old(buckets)[CACHE_NAME := AfterPut(old(Current()), old(pending[i]), outcome.response)]
                          else old(buckets))
    {
      var req := pending[i];
      pending := pending[..i] + pending[i + 1..];
      if FetchOk(outcome) {
        Put(req, outcome.response);
      }
    }

    /** The `sync` handler: for `sync-stories`, replay every cached request; a rejected
        fetch settles as its request, so the batch always resolves, and nothing is written
        back to the cache. */
    method Sync(tag: string, net: string -> Fetched) returns (result: SyncResult)
      requires Valid()
      modifies this
      ensures Valid() && pending == old(pending)
      ensures tag != SYNC_TAG ==> result == SyncIgnored && buckets == old(buckets)
      ensures tag == SYNC_TAG ==>
                && buckets == old(buckets)[CACHE_NAME := old(Current())]
                && result.SyncSettled?
                && result.results.Keys == old(Current()).Keys
                && forall u :: u in result.results ==>
                     result.results[u] == (if net(u).Received? then Refetched(net(u).response) else KeptRequest(u))
    {
      if tag != SYNC_TAG {
        return SyncIgnored;
      }
      Open();
      var keys := Current().Keys;
      var results: map<string, Settled> := map[];
      while keys != {}
        invariant keys <= Current().Keys
        invariant results.Keys == Current().Keys - keys
        invariant forall u :: u in results ==>
                    results[u] == (if net(u).Received? then Refetched(net(u).response) else KeptRequest(u))
        decreases keys
      {
        var u :| u in keys;
        var settled := match net(u)
          case Received(response) => Refetched(response)
          case NetworkError => KeptRequest(u);
        results := results[u := settled];
        keys := keys - {u};
      }
      result := SyncSettled(results);
    }
  }
}
