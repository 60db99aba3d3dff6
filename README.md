# Offline cache manager and chunk classifier of the portfolio site

This project models, in Dafny, the two parts of the portfolio site that make
decisions:

- **The service worker** (`public/service-worker.js`). It keeps a dated
  generation of caches. On install it merges the manifest's icons into the
  static file list and pre-caches those files. On activate it deletes every
  cache of another generation. Each GET request over http(s) is routed either
  to a cache-first strategy on the static cache or to a network-first strategy
  on the dynamic cache. A maintenance sweep deletes old `aaron-barlow-`
  caches, and a message handler answers `SKIP_WAITING`, `GET_VERSION` and
  `CLEANUP_CACHE`.
- **The bundler configuration** (`vite.config.ts`). `manualChunks` assigns
  each module id to a named chunk by a first-match-wins chain of substring
  tests. `assetFileNames` names an emitted asset after the last
  `.`-separated segment of its file name.

The files:

- `text.dfy` holds the JavaScript string operations both parts use:
  `includes`, `startsWith`, `endsWith` and `split`.
- `cache_storage.dfy` models the browser's Cache Storage. It is a map from
  cache name to a map from URL to response, plus the cache names in creation
  order. `caches.match` searches the caches in that order.
- `service_worker.dfy` holds the service worker.
  - Its routing, icon merge, strategy decisions and sweep targets are pure
    functions with lemmas.
  - The `Worker` class owns `STATIC_FILES` and the cache storage.
  - Its handlers are methods proved against those functions. The activate
    and cleanup loops carry their invariants.
- `vite_config.dfy` holds the bundler configuration.
  - It models `manualChunks` exactly as written.
  - It proves the chain equal to a reduced rule table, where a
    pattern that includes an earlier one is dropped, because it can never decide.
  - It also models `assetFileNames`.

The clock, the network, the manifest and date arithmetic are inputs:

- `today` and `currentDate` are the date part of an ISO timestamp.
- `now` is `Date.now()` in milliseconds. On the expired-refresh path of the
  cache-first strategy the source reads the clock twice, for the age (line 121)
  and for the stamp (line 131), with a fetch awaited in between; one `now`
  stands for both readings, so the stored copy carries the time of the age check.
- A `FetchOutcome` is either a thrown fetch or a received response. `ok`
  holds for a status from 200 to 299.
- `daysSince` is the day difference that the sweep computes from a date
  token. `None` stands for the NaN of an unparsable token.
- `failing` is the set of cache names whose delete rejects during the sweep.

The sweep does less than its comments in `public/service-worker.js` say,
and the model follows the code:

- Line 291 says the sweep checks whether a cache is older than 2 days, and
  line 293 says it takes the date part of the name. The token it takes is
  the last `-`-separated piece of the name. For a name built like
  `CACHE_NAME` that piece is only the two-digit day of the month, so it
  never equals the current date, and the day difference is computed from
  the day alone (`VersionedNameToken`).
- One `try` (lines 286-307) wraps the whole loop, so the first rejected
  delete ends the sweep (`SweepStopsAtFailure`).

## Model

| member | source | states |
|---|---|---|
| Text.SplitCount | public/service-worker.js:293 | `split` on one character gives one more piece than there are separators |
| Text.SplitPieces | public/service-worker.js:293 | no piece of a split holds the separator |
| Text.SplitJoin | public/service-worker.js:293 | joining the pieces of a split with the separator gives the string back |
| Text.SplitWithoutSeparator | vite.config.ts:111 | a string without the separator splits into itself alone |
| Text.SplitLastSuffix | public/service-worker.js:293 | the last piece of a split is the longest separator-free suffix of the string |
| Text.SplitLastAfter | public/service-worker.js:293 | when `b` holds no separator, the last piece of `a`, separator, `b` is `b` |
| Text.IncludesTransitive | vite.config.ts:27-39 | if `s` includes `t` and `t` includes `u`, then `s` includes `u` |
| Text.IncludesSuffix | public/service-worker.js:2-4 | a string includes each of its suffixes |
| Text.NotIncludes | public/service-worker.js:292 | a string cannot include a string holding a character it lacks |
| CacheStorage.MatchIn | public/service-worker.js:116 | `caches.match` finds nothing exactly when no cache holds the URL; otherwise it returns the entry of the first cache, in creation order, that holds it |
| CacheStorage.Open | public/service-worker.js:45 | `caches.open` keeps an existing cache and otherwise appends an empty one; the storage stays well formed |
| CacheStorage.Put | public/service-worker.js:137 | `cache.put` sets exactly the one entry of the named cache, opening the cache if needed |
| CacheStorage.PutThenMatch | public/service-worker.js:116-160 | after a put the URL is found by `caches.match`, and it is found with the response just put when no cache held the URL before |
| CacheStorage.PutAll | public/service-worker.js:45-46 | a successful `addAll` adds the whole batch to the named cache at once; the cache is opened first, so a new cache is listed last in the search order |
| CacheStorage.RemoveAll | public/service-worker.js:65 | removing names keeps exactly the names not removed |
| CacheStorage.DeleteAllContents | public/service-worker.js:62-66 | `DeleteAll`, the deletes of the activate handler: exactly the caches not deleted are left, each with its entries, in their creation order |
| CacheStorage.DeleteOne | public/service-worker.js:300 | `Delete`, one `caches.delete`: the named cache is gone and every other cache is left as it was |
| CacheStorage.DeleteAllTwice | public/service-worker.js:62-66 | deleting one set of caches after another is the same as deleting their union |
| ServiceWorker.CurrentNamesCarryVersion | public/service-worker.js:1-4 | `CACHE_NAME`, `STATIC_CACHE` and `DYNAMIC_CACHE` each include `CACHE_VERSION` |
| ServiceWorker.RouteFor | public/service-worker.js:81-110 | a request is ignored exactly when its method is not GET or its protocol does not start with `http`; otherwise static paths go cache-first on the static cache and all others network-first on the dynamic cache |
| ServiceWorker.RouteDependsOnlyOnPath | public/service-worker.js:91-110 | two requests with the same method, protocol and path are routed alike |
| ServiceWorker.WithoutIcons | public/service-worker.js:42 | the filter keeps exactly the files that are not under `/icons/` |
| ServiceWorker.WithoutIconsAppend | public/service-worker.js:42 | filtering commutes with concatenation, so kept files stay in their order |
| ServiceWorker.MergeIconsContents | public/service-worker.js:41-43 | `MergeIcons`: the merged list holds exactly the manifest icons and the original files outside `/icons/`, so an `/icons/` entry is in it only if the manifest lists it; the kept files come first in their original order and the icons end the list in manifest order |
| ServiceWorker.CacheFirstPlan | public/service-worker.js:114-166 | a fresh or unstamped hit is served unchanged; an expired hit is replaced only by an ok refetch, stored stamped `now`; on a miss an ok response is stored stamped and returned, a not-ok one is returned unstored, and a thrown fetch yields 503 |
| ServiceWorker.NetworkFirstPlan | public/service-worker.js:169-207 | an ok response is stored stamped and returned, a not-ok one is returned unstored; a thrown fetch falls back to any cached match, whatever its age, then to the offline page for navigations, then to 503; the reply is undefined only when the offline page is missing too |
| ServiceWorker.ExpiryAfterStamp | public/service-worker.js:119-122 | `Expired`: an entry stamped at `t` is expired exactly when more than `MAX_CACHE_AGE` has passed since `t`, and stays expired later; a copy just stamped is fresh and an unstamped entry never expires |
| ServiceWorker.HitServedOffline | public/service-worker.js:140-198 | with the network down, both strategies answer a hit from the cache and write nothing |
| ServiceWorker.SweepTargetsStale | public/service-worker.js:285-308 | `SweepTargets` and `Stale`: the sweep deletes only listed caches that are stale, that is, named with `aaron-barlow-`, with a non-empty token other than the current date and a day difference above 2, and whose delete does not reject; when no delete rejects it deletes all of them |
| ServiceWorker.SweepTargetsExact | public/service-worker.js:286-307 | the sweep deletes exactly the stale caches listed before the first rejected delete, and all stale caches when no delete rejects, because each earlier delete is awaited before the one that throws |
| ServiceWorker.SweepStopsAtFailure | public/service-worker.js:286-307 | once a delete rejects, no cache listed after it is deleted |
| ServiceWorker.VersionedNameToken | public/service-worker.js:290-299 | for a name built like `CACHE_NAME` the token is the two-digit day, so the name is stale exactly when the day difference of that token exceeds 2 |
| ServiceWorker.SweepSparesWorkerCaches | public/service-worker.js:290-303 | the sweep never deletes the static or the dynamic cache |
| ServiceWorker.ActivateKeepsCurrent | public/service-worker.js:58-68 | activation deletes exactly the caches whose name lacks the version: after it exactly the caches whose name includes the version are left, with their entries, so the current static and dynamic caches survive |
| ServiceWorker.RepeatedIconFailsAddAll | public/service-worker.js:41-46 | a manifest listing one icon `src` twice puts that URL twice in the merged list, so `addAll` rejects and install stores nothing and does not skip waiting |
| ServiceWorker.BatchStoresFiles | public/service-worker.js:45-46 | a successful `addAll` stores exactly the listed files, each with its fetched response |
| ServiceWorker.Worker.constructor | public/service-worker.js:8-31 | the worker starts with the hard-coded static file list and the existing storage, without having skipped waiting |
| ServiceWorker.Worker.Install | public/service-worker.js:34-53 | a manifest failure changes nothing; otherwise the file list becomes the icon merge and the static cache is opened; the files are stored, and waiting skipped, only if `addAll` succeeds, that is, no URL is listed twice and every file is fetched with an ok status other than 206 |
| ServiceWorker.Worker.Activate | public/service-worker.js:56-74 | the loop over the names deletes exactly the caches whose name lacks the version, and no other |
| ServiceWorker.Worker.CacheFirst | public/service-worker.js:114-166 | the reply and the storage update are those of the cache-first decision, over the first match in the old storage |
| ServiceWorker.Worker.NetworkFirst | public/service-worker.js:169-207 | the reply and the storage update are those of the network-first decision, over the matches for the URL and for the offline page |
| ServiceWorker.Worker.OnFetch | public/service-worker.js:77-111 | ignored requests pass through untouched; the others get the chosen strategy on the routed cache |
| ServiceWorker.Worker.CleanupOldCaches | public/service-worker.js:285-308 | the storage becomes the old storage without the sweep's targets |
| ServiceWorker.Worker.OnMessage | public/service-worker.js:262-274 | `SKIP_WAITING` skips waiting; `GET_VERSION` replies once with `CACHE_NAME`; `CLEANUP_CACHE` runs the sweep; anything else changes nothing |
| ViteConfig.FirstMatchAt | vite.config.ts:25-102 | the first rule an id matches decides its chunk, and an id matching no rule gets none |
| ViteConfig.FirstKey | vite.config.ts:25-102 | every id has a first matching rule or matches none |
| ViteConfig.ShadowedPatterns | vite.config.ts:27-91 | `react-dom`, `react-router-dom` and `lucide-react` include `react`; `tailwindcss-animate` includes `tailwindcss`; `/components/layout/` includes `/components/` |
| ViteConfig.ManualChunksIsFirstMatch | vite.config.ts:25-102 | `ManualChunks`, the chain as written, and the reduced rule table classify every id alike |
| ViteConfig.ReactCoreIff | vite.config.ts:25-29 | an id is in `react-core` exactly when it includes `react`, so every `lucide-react` id is |
| ViteConfig.RouterUnreachable | vite.config.ts:27-34 | no id is put in `router` |
| ViteConfig.UiComponentsIff | vite.config.ts:27-39 | an id is in `ui-components` exactly when it includes `@radix-ui` and not `react` |
| ViteConfig.StylingIff | vite.config.ts:27-61 | an id is in `styling` exactly when it includes `tailwindcss` and none of the earlier library patterns |
| ViteConfig.ComponentsIff | vite.config.ts:25-91 | when no library or page rule applies, `/components/layout/` ids go to `layout` and the other `/components/` ids go to `components` |
| ViteConfig.NoChunkIff | vite.config.ts:25-102 | an id gets no chunk name exactly when it includes none of the patterns |
| ViteConfig.ChunkIsFirstRule | vite.config.ts:25-102 | an id's chunk is the chunk of the first table rule it matches |
| ViteConfig.AssetFileNameExtension | vite.config.ts:110-117 | `AssetFileName`: both branches name an asset `assets/[name]-[hash].` followed by the longest `.`-free suffix of its name |
| ViteConfig.AssetFileNameCss | vite.config.ts:110-117 | a `.css` asset is named `assets/[name]-[hash].css` |
| ViteConfig.AssetFileNameWithoutDot | vite.config.ts:110-116 | a name without a `.` is its own extension |

## Left out

- The push, notificationclick and sync handlers (public/service-worker.js:209-259) are left out. They only call platform notification APIs, and `doBackgroundSync` is empty.
- The hourly `setInterval` that calls the sweep (public/service-worker.js:276-282) is left out. It is a timer; the sweep it runs is `CleanupOldCaches`.
- Date handling is not modelled. Building the ISO date string, parsing a token with `new Date` and the floating-point day difference become the inputs `today`, `currentDate` and `daysSince`.
- `clients.claim()` after activation is not modelled, because it only takes control of open pages.
- Response bodies, headers and `clone()` are not modelled. A response is its status, its body text and its `sw-cache-time` stamp.
- The requests a cache matches are reduced to their URL. `Vary` and request-mode matching are not modelled.
- Concurrency is not modelled. This covers the un-awaited `cache.put` calls, the `Promise.all` of the activate deletes and a sweep running beside other events. Each handler runs to completion as one sequential method.
- Storage failures other than a rejected delete in the sweep and a rejected `addAll` are not modelled: `caches.open`, `put` and `match` always succeed, so a 206 response that `cache.put` would reject is stored by the strategies.
- ServiceWorker.Worker.Install: `addAll` also rejects a response whose `Vary` header is `*`; headers are not modelled, so that case is not captured.
- A request URL is modelled as the path form that the hard-coded file list and the offline page use. The platform resolves every URL against the worker's origin, so a request for another origin, or one with a query string, is keyed by its full URL in the source; the model treats `url` as an opaque key and does not resolve it.
- ServiceWorker.Expired: a `sw-cache-time` header that `parseInt` cannot read yields NaN in the source, so the entry never expires. The model has only natural-number stamps, so that case cannot arise.
- ServiceWorker.Worker.Install: the manifest is reduced to the list of icon `src` values, or to a failure. An icon without `src` would put `undefined` in the list, which is not modelled.
- ServiceWorker.Worker.OnMessage: a `GET_VERSION` message with no reply port throws in the source when it reads `event.ports[0]`. The model sends no reply and does not model the throw.
- The rest of `vite.config.ts` is static data and is not modelled: the plugins, aliases, `chunkFileNames`, `entryFileNames`, dependency optimisation, the dev server and the test settings.
- ViteConfig.AssetFileName: an asset without a `name` would make `split` throw in the source. The model takes the name as given.
