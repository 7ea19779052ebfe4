# Yahtzee scorekeeper service worker, modelled in Dafny

The Yahtzee scorekeeper ships an offline-caching service worker
(`service-worker.js`). It keeps one versioned cache store, `yahtzee-scorekeeper-v1.6`:

- **install** opens that store and pre-caches a fixed four-file manifest, all or nothing;
- **activate** deletes every other store;
- **fetch** answers GET requests cache-first, and on a miss goes to the network and
  writes the response back, unless the URL contains `firebase` or `d3`;
- **message** asks the platform to skip the waiting phase when the payload's
  `action` is `"skipWaiting"`.

This project models that rule set as a state machine in Dafny. It proves what each
handler does to the cache storage and to the lifecycle.

Files:

- `js_values.dfy` (module `JsValues`): the JavaScript semantics the worker relies on.
  This covers message payload values, truthiness, property access and `String.prototype.includes`.
- `service_worker.dfy` (module `ServiceWorker`): the constants, the pure rules
  (exclusion, stale-name filter, skip-waiting test), the cache-storage operations
  (`caches.open`, `cache.addAll`) and the class `Worker`. The class owns the cache
  storage (`map<string, map<Request, Response>>`) and the lifecycle flag. It has one
  method per event handler.

The network is an oracle parameter `Request -> NetResult`, which yields `Ok(response)`
or `Failure`. Whether the fetch handler consulted the network shows in its result:
`FromCache` means it was not consulted, while `FromNetwork` and `NetworkError` mean it was.
A response carries its HTTP status, because the two cache operations treat statuses
differently. `cache.addAll` refuses any response whose status is not 200-299, and it
also refuses 206 (`AddAccepts`). `cache.put` stores every status except 206 (`PutAccepts`).
So a 404 answering a cache miss is returned and also written back.
The ghost predicate `Worker.OnlyOwnFiles` states that no entry of the current store is
for an excluded URL. Every handler preserves it. Both this invariant and `ManifestCacheable`
speak about the URLs as the model holds them: the manifest paths as written, and request URLs
as given. They assume that the app's origin contains neither marker.

## Model

| member | source | states |
|---|---|---|
| `JsValues.Includes` | service-worker.js:61 | `url.includes(marker)` holds exactly when the marker occurs at some index of the URL |
| `ServiceWorker.IsExcluded` | service-worker.js:61 | a URL is excluded from write-back exactly when "firebase" or "d3" occurs in it |
| `ServiceWorker.IsSkipWaitingMessage` | service-worker.js:75 | the message test holds exactly when the payload is an object whose own `action` is the string "skipWaiting"; absent data, primitives and any other action fail it |
| `JsValues.Truthy` | service-worker.js:75 | definition of JavaScript truthiness as `&&` applies it to `event.data`: undefined, null, false, 0 and the empty string are falsy, and every object is truthy; its consequence is stated by `IsSkipWaitingMessage` |
| `JsValues.Property` | service-worker.js:75 | definition of `event.data.action`: an object's own property, or undefined when the object has none or the value is not an object; its consequence is stated by `IsSkipWaitingMessage` |
| `ServiceWorker.ManifestRequests` | service-worker.js:5-10 | the manifest is four GET requests, one for each listed path, in order; no request occurs twice, and none is for a URL that the marker test of line 61 excludes |
| `ServiceWorker.ManifestDistinct` | service-worker.js:5-10 | no path occurs twice in the manifest, so the batch add never sees a duplicate |
| `ServiceWorker.ManifestCacheable` | service-worker.js:5-10 | none of the four manifest paths is excluded by the marker test of line 61 |
| `ServiceWorker.NotExcludedByCharacters` | service-worker.js:61 | a URL with no 'b' and no '3' can contain neither marker |
| `ServiceWorker.Open` | service-worker.js:17 | `caches.open(name)`: afterwards the store exists, it is new and empty if it was absent, and every existing store is unchanged |
| `ServiceWorker.FetchAll` | service-worker.js:19 | fetching the batch of `addAll` succeeds exactly when every request is answered with an acceptable status (200-299, not 206); the responses then come in request order, all acceptable |
| `ServiceWorker.PutAll` | service-worker.js:19 | the batch put adds exactly the batch's requests as keys and keeps every entry outside the batch |
| `ServiceWorker.PutAllLastWins` | service-worker.js:19 | after the batch put, each request maps to the response of its last occurrence in the batch |
| `ServiceWorker.AddAll` | service-worker.js:17-20 | `addAll` on an opened store: the store's keys are the old keys plus the batch, each batch request maps to its response, other entries and other stores are unchanged |
| `ServiceWorker.AddManifestOwnFiles` | service-worker.js:16-22 | adding the manifest brings no excluded URL into the current store |
| `ServiceWorker.IsStale` | service-worker.js:32 | definition of the name filter `key !== CACHE_NAME`; activation deletes exactly the stores it holds for (`Survivors`, `Worker.Activate`) |
| `ServiceWorker.OtherVersionsStale` | service-worker.js:32 | a store named after any other version under the naming scheme of line 2 is stale, so a version bump evicts the previous deployment's store |
| `ServiceWorker.Survivors` | service-worker.js:30-36 | only stores whose name is exactly `CACHE_NAME` survive; the current store survives with its entries; the surviving names are a subset of {`CACHE_NAME`} |
| `ServiceWorker.Worker.Install` | service-worker.js:13-23 | install succeeds exactly when every manifest fetch is answered with a status `addAll` accepts. On success each manifest request maps to its network response and the lifecycle becomes waiting. On failure the store is only opened and the lifecycle is unchanged. Other stores and other entries are unchanged. It never requests skip-waiting |
| `ServiceWorker.Worker.Activate` | service-worker.js:26-41 | activation leaves exactly the surviving stores (see `Survivors`) and makes the worker active |
| `ServiceWorker.Worker.HandleFetch` | service-worker.js:44-71 | Non-GET: not intercepted, storage untouched. GET hit: the stored response, no network call, storage untouched. GET miss: the network result. On a network failure the error propagates and nothing is written. A response for an excluded URL, or a partial (206) response, is returned and not written. Any other response, including an error status such as 404, is returned and exactly that entry is written. The store is opened on every GET. Existing entries and other stores never change |
| `ServiceWorker.Worker.HandleMessage` | service-worker.js:74-78 | only a skip-waiting payload received while waiting moves the lifecycle to skip-requested; anything else changes nothing; storage is never touched |
| `ServiceWorker.RefetchServedFromCache` | service-worker.js:52-66 | a GET for a non-excluded URL that the network answered with a storable response (any status but 206) is served from the cache on the next fetch, whatever the network would answer then |
| `ServiceWorker.InstallThenActivate` | service-worker.js:13-41 | install followed by activate leaves exactly one store, the current one, holding every manifest asset when the install succeeded, and the worker active |

## Left out

- Logging (`console.log`, service-worker.js:14, 18, 27, 33) has no effect on state.
- Promise plumbing (`event.waitUntil`, `event.respondWith`, `Promise.all`): each handler is one sequential step.
- `self.clients.claim()` (service-worker.js:40) is host-platform behaviour and is not modelled. In the source it runs outside `waitUntil`, so it is not ordered after the deletions. The source does not wait for the deletions before claiming, and the model makes no claim about that order.
- The platform's lifecycle transitions are external. `Activate` sets the flag to active, standing for the transition during which the platform fires the event. After a failed install the platform discards the worker; here the flag is left as it was. After a skip-waiting request the platform activates the worker; that step is the platform's, not the worker's.
- `Worker.HandleMessage`: a skip-waiting request made while the worker is still installing, or already active, is not recorded. The flag only moves from waiting to skip-requested.
- Real networking and HTTP semantics are left out. `cache.match` options (Vary, query handling) are replaced by exact equality of (method, URL) keys. A response is reduced to an identity and its status. Headers are not modelled, so `cache.put`'s rejection of a `Vary: *` response is left out, and opaque and error-typed responses are represented by their status only.
- `AddAll`: the platform rejects a batch that holds the same request twice. The model instead requires a duplicate-free batch, which the manifest is (`ManifestDistinct`).
- URL resolution is left out. The manifest requests carry the paths as written ("./index.html"), not the absolute URLs that `addAll` resolves them to. `ManifestCacheable` speaks about those paths.
- The origin is not modelled. The source tests the absolute request URL, host included. On a host whose name contains "firebase" (a `*.firebaseapp.com` deployment, say) or "d3", no miss would ever be written back, and the manifest entries `addAll` stores would themselves be excluded URLs. `ManifestCacheable` and `Worker.OnlyOwnFiles` hold only for an origin that contains neither marker.
- A rejected `caches.delete` (service-worker.js:34) is not modelled: `Worker.Activate` always removes every stale store.
- Response stream cloning (`networkResponse.clone()`, service-worker.js:65) is not modelled: a response is an immutable value.
- The timing of `cache.put` (service-worker.js:65) is not modelled. The source does not await it. Here the write completes before the handler returns, and a rejected write is not modelled.
- Concurrency is left out: fetch handlers running in parallel, and install overlapping activate.
- JavaScript numbers in message payloads are integers here; floating point and NaN are not modelled.
- Idempotent re-install, as its own lemma, is left out. A second successful `Install` leaves each manifest request mapped to that run's response, by `Install`'s own postcondition.
