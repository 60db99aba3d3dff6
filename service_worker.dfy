/**
 * The offline cache manager of public/service-worker.js: versioned cache
 * names, the install merge of manifest icons into the static file list,
 * the activate sweep, the fetch router with its cache-first and
 * network-first strategies, the maintenance sweep and the message handler.
 *
 * The clock, the network and the manifest are inputs: `today` is the date
 * part of the ISO timestamp taken when the script loads, `now` the value
 * of `Date.now()`, a `FetchOutcome` what `fetch` gave, and `daysSince` the
 * day difference that line 297 computes from a date token.
 */
module ServiceWorker {
  import opened Wrappers
  import opened Text
  import opened CacheStorage

  // ---------------------------------------------------------------------
  // Cache names and constants

  /** `CACHE_VERSION`: the prefix `v2-` and the load date. */
  function CacheVersion(today: string): string {
    "v2-" + today
  }

  /** `CACHE_NAME`, the name `GET_VERSION` reports. */
  function CacheName(today: string): string {
    "aaron-barlow-" + CacheVersion(today)
  }

  /** `STATIC_CACHE`. */
  function StaticCache(today: string): string {
    "static-cache-" + CacheVersion(today)
  }

  /** `DYNAMIC_CACHE`. */
  function DynamicCache(today: string): string {
    "dynamic-cache-" + CacheVersion(today)
  }

  /** `MAX_CACHE_AGE`: two days in milliseconds. */
  const MaxCacheAge: nat := 2 * 24 * 60 * 60 * 1000

  /** The fallback page served to navigations that neither the network nor the cache can answer. */
  const OfflinePage: string := "/offline.html"

  /** The response built on line 164 and line 205. */
  const ServiceUnavailable: Response := Response(503, "Network error", None)

  /** The hard-coded `STATIC_FILES`, before the install merge. */
  const InitialStaticFiles: seq<string> := [
    "/",
    "/index.html",
    "/offline.html",
    "/manifest.json",
    "/robots.txt",
    "/profile-aaron-400.webp",
    "/profile-aaron-800.webp",
    "/presentations/cug-2025-hpc-system-management.pdf",
    "/presentations/nlit-2024-devops-hpc.pdf",
    "/icons/favicon.ico",
    "/icons/favicon-16x16.png",
    "/icons/favicon-32x32.png",
    "/icons/favicon-48x48.png",
    "/icons/apple-touch-icon.png",
    "/icons/icon-72x72.png",
    "/icons/icon-96x96.png",
    "/icons/icon-128x128.png",
    "/icons/icon-144x144.png",
    "/icons/icon-152x152.png",
    "/icons/icon-192x192.png",
    "/icons/icon-384x384.png",
    "/icons/icon-512x512.png"
  ]

  predicate IsDigit(c: char) {
    '0' <= c <= '9'
  }

  /** The shape of `new Date().toISOString().split('T')[0]`: `YYYY-MM-DD`. */
  predicate IsIsoDate(d: string) {
    && |d| == 10 && d[4] == '-' && d[7] == '-'
    && forall k :: 0 <= k < 10 && k != 4 && k != 7 ==> IsDigit(d[k])
  }

  /**
   * Every name built from the version embeds it, so the activate sweep
   * keeps the current static, dynamic and versioned caches, and the
   * version `GET_VERSION` reports names the current generation.
   */
  lemma CurrentNamesCarryVersion(today: string)
    ensures Includes(CacheName(today), CacheVersion(today))
    ensures Includes(StaticCache(today), CacheVersion(today))
    ensures Includes(DynamicCache(today), CacheVersion(today))
  {
    IncludesSuffix("aaron-barlow-", CacheVersion(today));
    IncludesSuffix("static-cache-", CacheVersion(today));
    IncludesSuffix("dynamic-cache-", CacheVersion(today));
  }

  // ---------------------------------------------------------------------
  // Fetch routing

  /**
   * What the fetch handler sees of a request. `url` is also the cache key,
   * written as the path the platform resolves against the worker's origin,
   * the same form as the entries of `STATIC_FILES` and `OfflinePage`.
   */
  datatype Request = Request(verb: string, protocol: string, pathname: string, url: string, navigate: bool)

  datatype Route = Ignore | CacheFirstOn(cacheName: string) | NetworkFirstOn(cacheName: string)

  /** The path suffixes that the router sends to the static cache. */
  const StaticSuffixes: set<string> := {
    ".html",
    ".js", ".css", ".tsx", ".ts",
    ".png", ".jpg", ".jpeg", ".gif", ".svg", ".ico", ".webp",
    ".pdf",
    ".woff", ".woff2", ".ttf", ".eot"
  }

  /** The paths served cache-first: the root and every path with a static suffix. */
  predicate IsStaticPath(path: string) {
    path == "/" || exists suffix :: suffix in StaticSuffixes && EndsWith(path, suffix)
  }

  /**
   * The routing chain of the fetch handler. Non-GET and non-http(s)
   * requests are left to the browser; the rest are routed on the path
   * alone, static paths to the static cache and everything else to the
   * dynamic one.
   */
  function RouteFor(req: Request, today: string): (rt: Route)
    ensures rt == Ignore <==> req.verb != "GET" || !StartsWith(req.protocol, "http")
    ensures rt != Ignore ==> rt == if IsStaticPath(req.pathname) then CacheFirstOn(StaticCache(today))
                                   else NetworkFirstOn(DynamicCache(today))
  {
    var p := req.pathname;
    if req.verb != "GET" then Ignore
    else if !StartsWith(req.protocol, "http") then Ignore
    else if p == "/" || EndsWith(p, ".html") then CacheFirstOn(StaticCache(today))
    else if EndsWith(p, ".js") || EndsWith(p, ".css") || EndsWith(p, ".tsx") || EndsWith(p, ".ts") then
      CacheFirstOn(StaticCache(today))
    else if || EndsWith(p, ".png") || EndsWith(p, ".jpg") || EndsWith(p, ".jpeg") || EndsWith(p, ".gif")
            || EndsWith(p, ".svg") || EndsWith(p, ".ico") || EndsWith(p, ".webp") then
      CacheFirstOn(StaticCache(today))
    else if EndsWith(p, ".pdf") then CacheFirstOn(StaticCache(today))
    else if EndsWith(p, ".woff") || EndsWith(p, ".woff2") || EndsWith(p, ".ttf") || EndsWith(p, ".eot") then
      CacheFirstOn(StaticCache(today))
    else NetworkFirstOn(DynamicCache(today))
  }

  /** Two requests that differ in anything but the path are routed alike. */
  lemma RouteDependsOnlyOnPath(a: Request, b: Request, today: string)
    requires a.verb == b.verb && a.protocol == b.protocol && a.pathname == b.pathname
    ensures RouteFor(a, today) == RouteFor(b, today)
  {
  }

  // ---------------------------------------------------------------------
  // Install: merging the manifest icons into the static file list

  predicate IsIconPath(file: string) {
    StartsWith(file, "/icons/")
  }

  /** `files.filter(file => !file.startsWith('/icons/'))`. */
  function WithoutIcons(files: seq<string>): (r: seq<string>)
    ensures forall f :: f in r <==> f in files && !IsIconPath(f)
  {
    if files == [] then []
    else if IsIconPath(files[0]) then WithoutIcons(files[1..])
    else [files[0]] + WithoutIcons(files[1..])
  }

  /** Filtering commutes with concatenation, so the kept files stay in their original order. */
  lemma {:induction false} WithoutIconsAppend(a: seq<string>, b: seq<string>)
    ensures WithoutIcons(a + b) == WithoutIcons(a) + WithoutIcons(b)
  {
    if a == [] {
      assert a + b == b;
    } else {
      assert (a + b)[0] == a[0] && (a + b)[1..] == a[1..] + b;
      WithoutIconsAppend(a[1..], b);
    }
  }

  /** Lines 42-43: drop the hard-coded icon paths, then append the manifest's icon sources. */
  function MergeIcons(files: seq<string>, icons: seq<string>): seq<string> {
    WithoutIcons(files) + icons
  }

  /**
   * The merged list holds every manifest icon and every original file
   * outside `/icons/`, and nothing else: an `/icons/` entry survives only
   * when the manifest lists it. The kept files come first, in their
   * original order, and the icons end the list in manifest order.
   */
  lemma MergeIconsContents(files: seq<string>, icons: seq<string>)
    ensures var r := MergeIcons(files, icons);
      && (forall f :: f in r <==> (f in files && !IsIconPath(f)) || f in icons)
      && (forall f :: f in r && IsIconPath(f) ==> f in icons)
      && |r| >= |icons| && r[|r| - |icons|..] == icons
      && r[..|r| - |icons|] == WithoutIcons(files)
  {
    var r := MergeIcons(files, icons);
    assert r[|r| - |icons|..] == icons && r[..|r| - |icons|] == WithoutIcons(files);
  }

  // ---------------------------------------------------------------------
  // The two fetch strategies, as decisions

  /** What one `fetch` call gave: it threw, or it produced a response. */
  datatype FetchOutcome = Thrown | Received(response: Response)

  predicate FetchedOk(net: FetchOutcome) {
    net.Received? && net.response.Ok()
  }

  /** The copy put into the cache: the same response with `sw-cache-time` set to `now`. */
  function Stamped(resp: Response, now: nat): Response {
    resp.(stamp := Some(now))
  }

  /** A stamped entry whose age exceeds `MAX_CACHE_AGE`; an entry without a stamp never expires. */
  predicate Expired(resp: Response, now: nat) {
    resp.stamp.Some? && now - resp.stamp.value > MaxCacheAge
  }

  /**
   * A copy stamped at `t` expires exactly once more than `MAX_CACHE_AGE`
   * has passed since `t`, and stays expired; so the copy a strategy has
   * just stored is fresh, and an unstamped entry never expires.
   */
  lemma ExpiryAfterStamp(resp: Response, t: nat, now: nat, later: nat)
    ensures Expired(Stamped(resp, t), now) <==> now > t + MaxCacheAge
    ensures !Expired(Stamped(resp, now), now)
    ensures Expired(resp, now) && now <= later ==> Expired(resp, later)
    ensures resp.stamp.None? ==> !Expired(resp, now)
  {
  }

  /** A strategy's reply and the entry, if any, it writes to the named cache under the request's URL. */
  datatype Plan<R> = Plan(reply: R, store: Option<Response>)

  /**
   * Cache-first, given the entry `caches.match` found and the outcome of
   * the one fetch the strategy may make.
   */
  function CacheFirstPlan(hit: Option<Response>, now: nat, net: FetchOutcome): (p: Plan<Response>)
    ensures p.store.Some? ==> FetchedOk(net) && p.reply == net.response && p.store.value == Stamped(net.response, now)
    ensures hit.Some? && !Expired(hit.value, now) ==> p == Plan(hit.value, None)
    ensures hit.Some? && !FetchedOk(net) ==> p == Plan(hit.value, None)
    ensures (hit.None? || Expired(hit.value, now)) && FetchedOk(net) ==> p.store.Some?
    ensures hit.None? && net.Received? ==> p.reply == net.response
    ensures hit.None? && net.Thrown? ==> p == Plan(ServiceUnavailable, None)
  {
    match hit
    case Some(cached) =>
      if Expired(cached, now) && FetchedOk(net) then Plan(net.response, Some(Stamped(net.response, now)))
      else Plan(cached, None)
    case None =>
      match net
      case Thrown => Plan(ServiceUnavailable, None)
      case Received(resp) => Plan(resp, if resp.Ok() then Some(Stamped(resp, now)) else None)
  }

  /**
   * Network-first, given the fetch outcome, what `caches.match` finds for
   * the request and for the offline page, and whether the request is a
   * navigation. A missing offline page makes the reply undefined.
   */
  function NetworkFirstPlan(net: FetchOutcome, hit: Option<Response>, navigate: bool, offline: Option<Response>, now: nat)
    : (p: Plan<Option<Response>>)
    ensures FetchedOk(net) ==> p == Plan(Some(net.response), Some(Stamped(net.response, now)))
    ensures net.Received? && !net.response.Ok() ==> p == Plan(Some(net.response), None)
    ensures net.Thrown? ==> p.store.None?
    ensures net.Thrown? && hit.Some? ==> p.reply == hit
    ensures net.Thrown? && hit.None? && navigate ==> p.reply == offline
    ensures net.Thrown? && hit.None? && !navigate ==> p.reply == Some(ServiceUnavailable)
    ensures p.reply.None? <==> net.Thrown? && hit.None? && navigate && offline.None?
  {
    match net
    case Received(resp) => Plan(Some(resp), if resp.Ok() then Some(Stamped(resp, now)) else None)
    case Thrown =>
      if hit.Some? then Plan(hit, None)
      else if navigate then Plan(offline, None)
      else Plan(Some(ServiceUnavailable), None)
  }

  /** Carrying out a plan's write, if it has one. */
  function Commit(s: Storage, name: string, url: string, store: Option<Response>): (r: Storage)
    requires s.Valid()
    ensures r.Valid()
  {
    if store.Some? then Put(s, name, url, store.value) else s
  }

  /**
   * Offline, a cached page is still served: with the network down, a hit
   * is answered from the cache by either strategy, whatever its age.
   */
  lemma HitServedOffline(hit: Response, now: nat, navigate: bool, offline: Option<Response>)
    ensures CacheFirstPlan(Some(hit), now, Thrown) == Plan(hit, None)
    ensures NetworkFirstPlan(Thrown, Some(hit), navigate, offline, now) == Plan(Some(hit), None)
  {
  }

  // ---------------------------------------------------------------------
  // The maintenance sweep

  /** Line 293: the last `-`-separated piece of a cache name. */
  function DateToken(name: string): string {
    Last(Split(name, '-'))
  }

  /** Lines 292-299: the names the sweep tries to delete. */
  predicate Stale(name: string, currentDate: string, daysSince: string -> Option<real>) {
    && Includes(name, "aaron-barlow-")
    && DateToken(name) != ""
    && DateToken(name) != currentDate
    && daysSince(DateToken(name)).Some?
    && daysSince(DateToken(name)).value > 2.0
  }

  /**
   * The names one sweep deletes: it walks the names in order, deleting
   * each stale one, until a delete of a name in `failing` rejects; the
   * `try` around the whole loop then ends the sweep.
   */
  function SweepTargets(names: seq<string>, currentDate: string, daysSince: string -> Option<real>, failing: set<string>)
    : set<string>
  {
    if names == [] then {}
    else
      var rest := SweepTargets(names[1..], currentDate, daysSince, failing);
      if Stale(names[0], currentDate, daysSince) then
        if names[0] in failing then {} else {names[0]} + rest
      else rest
  }

  /**
   * The sweep deletes only listed stale names whose delete succeeds, and
   * when no delete rejects it deletes every listed stale name.
   */
  lemma {:induction false} SweepTargetsStale(names: seq<string>, currentDate: string,
                                             daysSince: string -> Option<real>, failing: set<string>)
    ensures var gone := SweepTargets(names, currentDate, daysSince, failing);
      && (forall n :: n in gone ==> n in names && Stale(n, currentDate, daysSince) && n !in failing)
      && ((forall n :: n in names && Stale(n, currentDate, daysSince) ==> n !in failing) ==>
            forall n :: n in names && Stale(n, currentDate, daysSince) ==> n in gone)
  {
    if names != [] {
      SweepTargetsStale(names[1..], currentDate, daysSince, failing);
      assert forall n :: n in names <==> n == names[0] || n in names[1..];
    }
  }

  /**
   * One more name of the maintenance sweep: a stale name is deleted, or
   * ends the sweep when its delete rejects; any other name is passed over.
   */
  lemma CleanupStep(s: Storage, gone: set<string>, i: nat, currentDate: string,
                    daysSince: string -> Option<real>, failing: set<string>)
    requires s.Valid() && i < |s.names|
    requires SweepTargets(s.names, currentDate, daysSince, failing)
          == gone + SweepTargets(s.names[i..], currentDate, daysSince, failing)
    ensures var name := s.names[i];
      var rest := SweepTargets(s.names[i + 1..], currentDate, daysSince, failing);
      && (!Stale(name, currentDate, daysSince) ==> SweepTargets(s.names, currentDate, daysSince, failing) == gone + rest)
      && (Stale(name, currentDate, daysSince) && name in failing ==>
            SweepTargets(s.names, currentDate, daysSince, failing) == gone)
      && (Stale(name, currentDate, daysSince) && name !in failing ==>
            && SweepTargets(s.names, currentDate, daysSince, failing) == (gone + {name}) + rest
            && Delete(DeleteAll(s, gone), name) == DeleteAll(s, gone + {name}))
  {
    var names := s.names;
    assert names[i..][0] == names[i] && names[i..][1..] == names[i + 1..];
    DeleteStep(s, gone, names[i]);
  }

  /** One failing delete protects every cache listed after it. */
  lemma {:induction false} SweepStopsAtFailure(names: seq<string>, currentDate: string,
                                               daysSince: string -> Option<real>, failing: set<string>, k: nat)
    requires k < |names| && Stale(names[k], currentDate, daysSince) && names[k] in failing
    ensures forall n :: n in SweepTargets(names, currentDate, daysSince, failing) ==> n in names[..k]
  {
    if k > 0 {
      assert names[1..][k - 1] == names[k];
      SweepStopsAtFailure(names[1..], currentDate, daysSince, failing, k - 1);
      assert forall n :: n in names[1..][..k - 1] ==> n in names[..k];
    }
  }

  /**
   * Exactly what one sweep deletes: every stale name listed before the
   * first rejected delete, at `k`, and nothing from there on; with no
   * rejected delete (`k == |names|`), every stale name.
   */
  lemma {:induction false} SweepTargetsExact(names: seq<string>, currentDate: string,
                                             daysSince: string -> Option<real>, failing: set<string>, k: nat)
    requires k <= |names|
    requires forall j :: 0 <= j < k ==> !(Stale(names[j], currentDate, daysSince) && names[j] in failing)
    requires k < |names| ==> Stale(names[k], currentDate, daysSince) && names[k] in failing
    ensures SweepTargets(names, currentDate, daysSince, failing)
         == set n | n in names[..k] && Stale(n, currentDate, daysSince)
  {
    if names != [] {
      if k == 0 {
        assert names[..k] == [];
      } else {
        var tail := names[1..];
        forall j | 0 <= j < k - 1
          ensures !(Stale(tail[j], currentDate, daysSince) && tail[j] in failing)
        {
          assert tail[j] == names[j + 1];
        }
        if k - 1 < |tail| {
          assert tail[k - 1] == names[k];
        }
        SweepTargetsExact(tail, currentDate, daysSince, failing, k - 1);
        assert names[..k] == [names[0]] + tail[..k - 1];
        assert !(Stale(names[0], currentDate, daysSince) && names[0] in failing);
      }
    }
  }

  /**
   * For a name built like `CACHE_NAME`, the token of line 293 is the
   * two-digit day of the month, never the ten-character current date; so
   * the only test left that decides its deletion is the day difference.
   */
  lemma VersionedNameToken(d: string, currentDate: string, daysSince: string -> Option<real>)
    requires IsIsoDate(d) && IsIsoDate(currentDate)
    ensures DateToken(CacheName(d)) == d[8..] && |DateToken(CacheName(d))| == 2
    ensures Stale(CacheName(d), currentDate, daysSince)
        <==> daysSince(d[8..]).Some? && daysSince(d[8..]).value > 2.0
  {
    var head := "aaron-barlow-v2-" + d[..7];
    var day := d[8..];
    assert d == d[..7] + ['-'] + day;
    assert CacheName(d) == head + ['-'] + day;
    assert IsDigit(d[8]) && IsDigit(d[9]);
    assert '-' !in day;
    SplitLastAfter(head, day, '-');
    IncludesPrefix(CacheName(d), "aaron-barlow-");
  }

  /** The sweep never deletes the static or dynamic caches, the only ones the worker creates. */
  lemma SweepSparesWorkerCaches(d: string, currentDate: string, daysSince: string -> Option<real>)
    requires IsIsoDate(d)
    ensures !Stale(StaticCache(d), currentDate, daysSince)
    ensures !Stale(DynamicCache(d), currentDate, daysSince)
  {
    assert "aaron-barlow-"[6] == 'b';
    assert 'b' !in d;
    NotIncludes(StaticCache(d), "aaron-barlow-", 6);
    NotIncludes(DynamicCache(d), "aaron-barlow-", 6);
  }

  // ---------------------------------------------------------------------
  // Activation and installation results

  /** The caches the activate handler deletes: those whose name lacks the version. */
  function Outdated(names: seq<string>, version: string): set<string> {
    set n | n in names && !Includes(n, version)
  }

  /** Before the sweep nothing is deleted. */
  lemma ActivateStart(s: Storage, version: string)
    requires s.Valid()
    ensures DeleteAll(s, Outdated(s.names[..0], version)) == s
  {
    assert Outdated(s.names[..0], version) == {};
    DeleteNothing(s);
  }

  /** One more name of the activate sweep: deleted when it lacks the version, otherwise kept. */
  lemma ActivateStep(s: Storage, i: nat, version: string)
    requires s.Valid() && i < |s.names|
    ensures var before := DeleteAll(s, Outdated(s.names[..i], version));
      DeleteAll(s, Outdated(s.names[..i + 1], version))
      == if Includes(s.names[i], version) then before else Delete(before, s.names[i])
  {
    var name := s.names[i];
    var gone := Outdated(s.names[..i], version);
    assert s.names[..i + 1] == s.names[..i] + [name];
    if Includes(name, version) {
      assert Outdated(s.names[..i + 1], version) == gone;
    } else {
      assert Outdated(s.names[..i + 1], version) == gone + {name};
      DeleteStep(s, gone, name);
    }
  }

  /** After activation exactly the caches whose names carry the version are left, with their entries. */
  lemma ActivateKeepsCurrent(s: Storage, today: string)
    requires s.Valid()
    ensures var r := DeleteAll(s, Outdated(s.names, CacheVersion(today)));
      && (forall n :: n in r.caches <==> n in s.caches && Includes(n, CacheVersion(today)))
      && (forall n :: n in r.caches ==> r.caches[n] == s.caches[n])
      && (StaticCache(today) in s.caches ==> StaticCache(today) in r.caches)
      && (DynamicCache(today) in s.caches ==> DynamicCache(today) in r.caches)
  {
    CurrentNamesCarryVersion(today);
  }

  /**
   * Every listed file was fetched with a response `addAll` accepts: an ok
   * status other than 206 Partial Content.
   */
  predicate AllFetched(files: seq<string>, fetchFile: string -> FetchOutcome) {
    forall f :: f in files ==> FetchedOk(fetchFile(f)) && fetchFile(f).response.status != 206
  }

  /** `cache.addAll` succeeds: no URL is listed twice, and every file was fetched with an accepted response. */
  predicate AddAllSucceeds(files: seq<string>, fetchFile: string -> FetchOutcome) {
    Distinct(files) && AllFetched(files, fetchFile)
  }

  /**
   * A manifest that lists one icon `src` twice makes the merged list hold
   * that URL twice, so `addAll` rejects it whatever the network answers.
   */
  lemma {:induction false} RepeatedIconFailsAddAll(files: seq<string>, icons: seq<string>, i: nat, j: nat,
                                                   fetchFile: string -> FetchOutcome)
    requires i < j < |icons| && icons[i] == icons[j]
    ensures !AddAllSucceeds(MergeIcons(files, icons), fetchFile)
  {
    var r := MergeIcons(files, icons);
    var base := |WithoutIcons(files)|;
    assert r[base + i] == icons[i] && r[base + j] == icons[j];
  }

  /** The pairs `addAll` stores: each file with the response fetched for it. */
  function Batch(files: seq<string>, fetchFile: string -> FetchOutcome): (b: seq<(string, Response)>)
    requires AllFetched(files, fetchFile)
    ensures |b| == |files|
  {
    if files == [] then [] else [(files[0], fetchFile(files[0]).response)] + Batch(files[1..], fetchFile)
  }

  /** A successful `addAll` stores every listed file, and nothing else, with the response fetched for it. */
  lemma {:induction false} BatchStoresFiles(files: seq<string>, fetchFile: string -> FetchOutcome)
    requires AllFetched(files, fetchFile)
    ensures BatchMap(Batch(files, fetchFile)) == map f | f in files :: fetchFile(f).response
  {
    if files != [] {
      BatchStoresFiles(files[1..], fetchFile);
      assert forall f :: f in files <==> f == files[0] || f in files[1..];
    }
  }

  /** `{ version: CACHE_NAME }`, the reply to `GET_VERSION`. */
  datatype VersionReply = VersionReply(version: string)

  /** What the fetch handler did: left the request to the browser, or answered it (perhaps with undefined). */
  datatype Handling = PassThrough | Respond(reply: Option<Response>)

  // ---------------------------------------------------------------------
  // The worker

  class Worker {
    /** The load date that the cache names embed. */
    const today: string
    /** `STATIC_FILES`, reassigned by the install handler. */
    var staticFiles: seq<string>
    /** The browser's cache storage. */
    var storage: Storage
    /** Set once `self.skipWaiting()` has been called. */
    var skippedWaiting: bool

    ghost predicate Valid()
      reads this
    {
      storage.Valid()
    }

    constructor (today: string, existing: Storage)
      requires existing.Valid()
      ensures Valid() && this.today == today
      ensures staticFiles == InitialStaticFiles && storage == existing && !skippedWaiting
    {
      this.today := today;
      staticFiles := InitialStaticFiles;
      storage := existing;
      skippedWaiting := false;
    }

    /**
     * The install handler. `manifestIcons` is the `src` list of the
     * manifest's icons, or None when fetching or parsing the manifest
     * threw; `fetchFile` is what `addAll` gets for each file.
     */
    method Install(manifestIcons: Option<seq<string>>, fetchFile: string -> FetchOutcome)
      requires Valid()
      modifies this`staticFiles, this`storage, this`skippedWaiting
      ensures Valid()
      ensures staticFiles == if manifestIcons.Some? then MergeIcons(old(staticFiles), manifestIcons.value)
                             else old(staticFiles)
      ensures manifestIcons.None? ==> storage == old(storage)
      ensures manifestIcons.Some? && !AddAllSucceeds(staticFiles, fetchFile) ==>
                storage == Open(old(storage), StaticCache(today))
      ensures manifestIcons.Some? && AddAllSucceeds(staticFiles, fetchFile) ==>
                storage == PutAll(old(storage), StaticCache(today), Batch(staticFiles, fetchFile))
      ensures skippedWaiting == (old(skippedWaiting) || (manifestIcons.Some? && AddAllSucceeds(staticFiles, fetchFile)))
    {
      if manifestIcons.None? {
        return;
      }
      staticFiles := MergeIcons(staticFiles, manifestIcons.value);
      var cacheName := StaticCache(today);
      storage := Open(storage, cacheName);
      if !Distinct(staticFiles) || !AllFetched(staticFiles, fetchFile) {
        return;
      }
      storage := PutAll(storage, cacheName, Batch(staticFiles, fetchFile));
      skippedWaiting := true;
    }

    /** The activate handler: delete every cache whose name lacks `CACHE_VERSION`. */
    method Activate()
      requires Valid()
      modifies this`storage
      ensures Valid()
      ensures storage == DeleteAll(old(storage), Outdated(old(storage).names, CacheVersion(today)))
    {
      var version := CacheVersion(today);
      var cacheNames := storage.names;
      ghost var start := storage;
      ActivateStart(start, version);
      var i := 0;
      while i < |cacheNames|
        invariant 0 <= i <= |cacheNames| && cacheNames == start.names && start.Valid()
        invariant storage == DeleteAll(start, Outdated(cacheNames[..i], version))
      {
        var cacheName := cacheNames[i];
        ActivateStep(start, i, version);
        if !Includes(cacheName, version) {
          storage := Delete(storage, cacheName);
        }
        i := i + 1;
      }
      assert cacheNames[..i] == cacheNames;
    }

    /** `cacheFirst(request, cacheName)`. */
    method CacheFirst(req: Request, cacheName: string, now: nat, net: FetchOutcome) returns (r: Response)
      requires Valid()
      modifies this`storage
      ensures Valid()
      ensures var p := CacheFirstPlan(Match(old(storage), req.url), now, net);
        r == p.reply && storage == Commit(old(storage), cacheName, req.url, p.store)
    {
      var cached := Match(storage, req.url);
      if cached.Some? {
        var cacheTime := cached.value.stamp;
        if cacheTime.Some? {
          var age := now - cacheTime.value;
          if age > MaxCacheAge {
            if net.Received? && net.response.Ok() {
              storage := Put(storage, cacheName, req.url, Stamped(net.response, now));
              return net.response;
            }
          }
        }
        return cached.value;
      }
      if net.Thrown? {
        return ServiceUnavailable;
      }
      if net.response.Ok() {
        storage := Put(storage, cacheName, req.url, Stamped(net.response, now));
      }
      return net.response;
    }

    /** `networkFirst(request, cacheName)`; None is the undefined a missing offline page yields. */
    method NetworkFirst(req: Request, cacheName: string, now: nat, net: FetchOutcome) returns (r: Option<Response>)
      requires Valid()
      modifies this`storage
      ensures Valid()
      ensures var p := NetworkFirstPlan(net, Match(old(storage), req.url), req.navigate,
                                        Match(old(storage), OfflinePage), now);
        r == p.reply && storage == Commit(old(storage), cacheName, req.url, p.store)
    {
      if net.Received? {
        if net.response.Ok() {
          storage := Put(storage, cacheName, req.url, Stamped(net.response, now));
        }
        return Some(net.response);
      }
      var cached := Match(storage, req.url);
      if cached.Some? {
        // the age test of lines 190-196 has no effect: an expired entry is still returned
        return cached;
      }
      if req.navigate {
        return Match(storage, OfflinePage);
      }
      return Some(ServiceUnavailable);
    }

    /** The fetch handler: route the request, then run the chosen strategy. */
    method OnFetch(req: Request, now: nat, net: FetchOutcome) returns (h: Handling)
      requires Valid()
      modifies this`storage
      ensures Valid()
      ensures RouteFor(req, today) == Ignore ==> h == PassThrough && storage == old(storage)
      ensures RouteFor(req, today).CacheFirstOn? ==>
        var p := CacheFirstPlan(Match(old(storage), req.url), now, net);
        h == Respond(Some(p.reply)) && storage == Commit(old(storage), StaticCache(today), req.url, p.store)
      ensures RouteFor(req, today).NetworkFirstOn? ==>
        var p := NetworkFirstPlan(net, Match(old(storage), req.url), req.navigate,
                                  Match(old(storage), OfflinePage), now);
        h == Respond(p.reply) && storage == Commit(old(storage), DynamicCache(today), req.url, p.store)
    {
      var route := RouteFor(req, today);
      match route {
        case Ignore =>
          h := PassThrough;
        case CacheFirstOn(name) =>
          var r := CacheFirst(req, name, now, net);
          h := Respond(Some(r));
        case NetworkFirstOn(name) =>
          var r := NetworkFirst(req, name, now, net);
          h := Respond(r);
      }
    }

    /**
     * `cleanupOldCaches()`. `currentDate` is the date part of the ISO
     * timestamp at the time of the sweep, `daysSince` the day difference
     * computed from a token (None when the token is not a date, whose NaN
     * compares false) and `failing` the names whose delete rejects.
     */
    method CleanupOldCaches(currentDate: string, daysSince: string -> Option<real>, failing: set<string>)
      requires Valid()
      modifies this`storage
      ensures Valid()
      ensures storage == DeleteAll(old(storage), SweepTargets(old(storage).names, currentDate, daysSince, failing))
    {
      var cacheNames := storage.names;
      ghost var start := storage;
      ghost var gone: set<string> := {};
      DeleteNothing(start);
      var i := 0;
      while i < |cacheNames|
        invariant 0 <= i <= |cacheNames| && cacheNames == start.names && start.Valid()
        invariant storage == DeleteAll(start, gone)
        invariant SweepTargets(cacheNames, currentDate, daysSince, failing)
               == gone + SweepTargets(cacheNames[i..], currentDate, daysSince, failing)
      {
        var cacheName := cacheNames[i];
        CleanupStep(start, gone, i, currentDate, daysSince, failing);
        if Includes(cacheName, "aaron-barlow-") {
          var cacheDate := Last(Split(cacheName, '-'));
          if cacheDate != "" && cacheDate != currentDate {
            var daysDiff := daysSince(cacheDate);
            if daysDiff.Some? && daysDiff.value > 2.0 {
              if cacheName in failing {
                break;
              }
              storage := Delete(storage, cacheName);
              gone := gone + {cacheName};
            }
          }
        }
        i := i + 1;
      }
      if i == |cacheNames| {
        assert cacheNames[i..] == [];
      }
    }

    /**
     * The message handler. `messageType` is `event.data.type` (None when
     * there is no data) and `ports` the number of reply ports.
     */
    method OnMessage(messageType: Option<string>, ports: nat, currentDate: string,
                     daysSince: string -> Option<real>, failing: set<string>) returns (replies: seq<VersionReply>)
      requires Valid()
      modifies this`skippedWaiting, this`storage
      ensures Valid()
      ensures skippedWaiting == (old(skippedWaiting) || messageType == Some("SKIP_WAITING"))
      ensures replies == if messageType == Some("GET_VERSION") && ports > 0 then [VersionReply(CacheName(today))] else []
      ensures storage == if messageType == Some("CLEANUP_CACHE")
                         then DeleteAll(old(storage), SweepTargets(old(storage).names, currentDate, daysSince, failing))
                         else old(storage)
    {
      replies := [];
      if messageType == Some("SKIP_WAITING") {
        skippedWaiting := true;
      }
      if messageType == Some("GET_VERSION") && ports > 0 {
        replies := replies + [VersionReply(CacheName(today))];
      }
      if messageType == Some("CLEANUP_CACHE") {
        CleanupOldCaches(currentDate, daysSince, failing);
      }
    }
  }
}
