/** The Yahtzee scorekeeper's service worker: a versioned cache store filled at
    install, stale stores evicted at activation, a cache-first fetch handler
    with write-back, and a message that asks to skip the waiting phase.
    The browser's cache storage is a map from store names to stores; each
    store maps a request (method and URL) to a response. The network is an
    oracle passed to the handlers that consult it. */
module ServiceWorker {
  import opened JsValues

  /** The version-qualified name of the store this worker owns. */
  const CacheName: string := "yahtzee-scorekeeper-v1.6"

  /** The assets pre-cached for offline use. */
  const FilesToCache: seq<string> :=
    ["./index.html", "./manifest.json", "./icons/icon-192x192.png", "./icons/icon-512x512.png"]

  datatype Request = Request(httpMethod: string, url: string)

  /** A response body is opaque to the worker: it is only stored and returned.
      Only its HTTP status decides what the cache operations do with it. */
  datatype Response = Response(id: nat, status: nat)

  /** `cache.addAll` accepts a response only when its status is ok (200-299)
      and is not 206 (a partial response). */
  predicate AddAccepts(response: Response)
  {
    200 <= response.status <= 299 && response.status != 206
  }

  /** `cache.put` stores any response except a partial (206) one; error
      statuses such as 404 are stored like any other. */
  predicate PutAccepts(response: Response)
  {
    response.status != 206
  }

  /** What the network oracle yields for one request. */
  datatype NetResult = Ok(response: Response) | Failure

  type Store = map<Request, Response>
  type Storage = map<string, Store>

  /** What the fetch handler does with an intercepted request. `FromCache` is
      answered without consulting the network; `FromNetwork` and `NetworkError`
      are the two outcomes of consulting it; `NetworkError` is the rejected
      promise handed to `respondWith`. */
  datatype Served =
    | NotIntercepted
    | FromCache(response: Response)
    | FromNetwork(response: Response)
    | NetworkError

  /** The phases of the worker's lifecycle that its handlers observe or change. */
  datatype Lifecycle = Installing | Waiting | SkipRequested | Active

  datatype Option<T> = None | Some(value: T)

  /** The GET request that `cache.addAll` issues for a manifest path. */
  function Get(path: string): Request
  {
    Request("GET", path)
  }

  /** The manifest, as the requests `cache.addAll` issues for it: one GET per
      listed path, in order, none of them twice and none of them for a URL
      the fetch handler would refuse to write back. */
  function ManifestRequests(): (r: seq<Request>)
    ensures |r| == |FilesToCache|
    ensures forall i :: 0 <= i < |r| ==> r[i] == Get(FilesToCache[i])
    ensures Distinct(r)
    ensures forall k :: k in r ==> k.httpMethod == "GET" && !IsExcluded(k.url)
  {
    var r := seq(|FilesToCache|, i requires 0 <= i < |FilesToCache| => Get(FilesToCache[i]));
    ManifestDistinct();
    ManifestCacheable();
    r
  }

  /** The responses are never written into the store for these URLs. */
  predicate IsExcluded(url: string)
    ensures IsExcluded(url) <==>
      (exists i :: OccursAt(url, "firebase", i)) || (exists i :: OccursAt(url, "d3", i))
  {
    Includes(url, "firebase") || Includes(url, "d3")
  }

  /** Activation deletes the stores for which this holds. */
  predicate IsStale(name: string)
  {
    name != CacheName
  }

  /** Every other version's store, under the same naming scheme, is stale, so
      bumping the version in `CacheName` evicts the previous deployment. */
  lemma OtherVersionsStale(version: string)
    requires version != "1.6"
    ensures IsStale("yahtzee-scorekeeper-v" + version)
  {
    var name := "yahtzee-scorekeeper-v" + version;
    assert name[21..] == version;
    assert CacheName[21..] == "1.6";
  }

  /** The whole condition of the message handler: the payload is truthy and
      its `action` is strictly equal to the string "skipWaiting". */
  predicate IsSkipWaitingMessage(data: JsValue)
    ensures IsSkipWaitingMessage(data) <==>
      data.Object? && "action" in data.props && data.props["action"] == Str("skipWaiting")
  {
    Truthy(data) && Property(data, "action") == Str("skipWaiting")
  }

  /** The store `caches.open(name)` yields: the existing one, or a new empty one. */
  function StoreOf(stores: Storage, name: string): Store
  {
    if name in stores then stores[name] else map[]
  }

  /** Cache storage after `caches.open(name)`: the store exists afterwards,
      and nothing that existed before changes. */
  function Open(stores: Storage, name: string): (r: Storage)
    ensures r.Keys == stores.Keys + {name}
    ensures forall n :: n in stores ==> r[n] == stores[n]
    ensures name !in stores ==> r[name] == map[]
  {
    if name in stores then stores else stores[name := map[]]
  }

  /** Cache storage after activation: the stores that are not stale. */
  function Survivors(stores: Storage): (r: Storage)
    ensures forall n :: n in r ==> n in stores && !IsStale(n)
    ensures forall n :: n in stores && !IsStale(n) ==> n in r && r[n] == stores[n]
    ensures r.Keys <= {CacheName}
  {
    map n | n in stores && !IsStale(n) :: stores[n]
  }

  /** The batch put that completes `cache.addAll`: every request is entered
      with its response, later entries overwriting earlier ones, and every
      other entry is kept. */
  function PutAll(store: Store, requests: seq<Request>, responses: seq<Response>): (r: Store)
    requires |requests| == |responses|
    ensures r.Keys == store.Keys + (set k | k in requests)
    ensures forall k :: k in store && k !in requests ==> r[k] == store[k]
    decreases |requests|
  {
    if requests == [] then store
    else
      var rest := requests[1..];
      var r := PutAll(store[requests[0] := responses[0]], rest, responses[1..]);
      assert (set k | k in requests) == {requests[0]} + (set k | k in rest);
      r
  }

  /** After the batch put, a request maps to the response of its last
      occurrence in the batch. */
  lemma {:induction false} PutAllLastWins(store: Store, requests: seq<Request>, responses: seq<Response>)
    requires |requests| == |responses|
    ensures forall i :: 0 <= i < |requests| && requests[i] !in requests[i + 1..] ==>
      PutAll(store, requests, responses)[requests[i]] == responses[i]
    decreases |requests|
  {
    if requests != [] {
      var rest := requests[1..];
      PutAllLastWins(store[requests[0] := responses[0]], rest, responses[1..]);
      forall i | 1 <= i < |requests| && requests[i] !in requests[i + 1..]
        ensures PutAll(store, requests, responses)[requests[i]] == responses[i]
      {
        assert requests[i] == rest[i - 1];
        assert requests[i + 1..] == rest[i..];
      }
    }
  }

  /** The network answers every one of `requests` with a response that
      `cache.addAll` accepts. */
  ghost predicate AllSucceed(requests: seq<Request>, network: Request -> NetResult)
  {
    forall i :: 0 <= i < |requests| ==> network(requests[i]).Ok? && AddAccepts(network(requests[i]).response)
  }

  /** The fetching half of `cache.addAll`: the responses of all requests, in
      order, if every one of them succeeds with an acceptable status; nothing
      if any fails or is refused. */
  method FetchAll(requests: seq<Request>, network: Request -> NetResult)
    returns (r: Option<seq<Response>>)
    ensures r.Some? <==> AllSucceed(requests, network)
    ensures r.Some? ==> |r.value| == |requests|
    ensures r.Some? ==> forall i :: 0 <= i < |requests| ==> network(requests[i]) == Ok(r.value[i])
    ensures r.Some? ==> forall i :: 0 <= i < |r.value| ==> AddAccepts(r.value[i])
  {
    var responses: seq<Response> := [];
    var i := 0;
    while i < |requests|
      invariant 0 <= i <= |requests|
      invariant |responses| == i
      invariant forall j :: 0 <= j < i ==> network(requests[j]) == Ok(responses[j])
      invariant forall j :: 0 <= j < i ==> AddAccepts(responses[j])
    {
      match network(requests[i])
      case Failure =>
        return None;
      case Ok(response) =>
        if !AddAccepts(response) {
          return None;
        }
        responses := responses + [response];
      i := i + 1;
    }
    return Some(responses);
  }

  /** A URL with neither a 'b' (as in "firebase") nor a '3' (as in "d3") is
      not excluded. */
  lemma NotExcludedByCharacters(url: string)
    requires 'b' !in url && '3' !in url
    ensures !IsExcluded(url)
  {
    MissingCharacter(url, "firebase", 4);
    MissingCharacter(url, "d3", 1);
  }

  /** No manifest path contains a 'b' or a '3'. */
  lemma ManifestCharacters()
    ensures forall i :: 0 <= i < |FilesToCache| ==> 'b' !in FilesToCache[i] && '3' !in FilesToCache[i]
  {
  }

  /** None of the manifest paths is excluded from caching. */
  lemma ManifestCacheable()
    ensures forall i :: 0 <= i < |FilesToCache| ==> !IsExcluded(FilesToCache[i])
  {
    ManifestCharacters();
    forall i | 0 <= i < |FilesToCache|
      ensures !IsExcluded(FilesToCache[i])
    {
      NotExcludedByCharacters(FilesToCache[i]);
    }
  }

  /** No request occurs twice in `requests`. */
  ghost predicate Distinct(requests: seq<Request>)
  {
    forall i, j :: 0 <= i < j < |requests| ==> requests[i] != requests[j]
  }

  /** No path occurs twice in the manifest. */
  lemma ManifestDistinct()
    ensures forall i, j :: 0 <= i < j < |FilesToCache| ==> FilesToCache[i] != FilesToCache[j]
  {
    forall i, j | 0 <= i < j < |FilesToCache|
      ensures FilesToCache[i] != FilesToCache[j]
    {
      assert |FilesToCache[i]| != |FilesToCache[j]| || FilesToCache[i][13] != FilesToCache[j][13];
    }
  }

  /** Cache storage after `cache.addAll(requests)` on the store `name`, once
      every request has been answered with `responses`: the store is opened if
      need be, each request is entered with its response, and every other
      entry and every other store is kept. */
  function AddAll(stores: Storage, name: string, requests: seq<Request>, responses: seq<Response>): (r: Storage)
    requires |requests| == |responses| && Distinct(requests)
    ensures name in r && r.Keys == stores.Keys + {name}
    ensures forall n :: n in stores && n != name ==> n in r && r[n] == stores[n]
    ensures r[name].Keys == StoreOf(stores, name).Keys + (set k | k in requests)
    ensures forall k :: k in StoreOf(stores, name) && k !in requests ==>
      k in r[name] && r[name][k] == StoreOf(stores, name)[k]
    ensures forall i :: 0 <= i < |requests| ==> requests[i] in r[name] && r[name][requests[i]] == responses[i]
  {
    var store := StoreOf(stores, name);
    PutAllLastWins(store, requests, responses);
    assert forall i :: 0 <= i < |requests| ==> requests[i] !in requests[i + 1..];
    stores[name := PutAll(store, requests, responses)]
  }

  /** Adding the manifest brings no entry for an excluded URL into the current store. */
  lemma AddManifestOwnFiles(stores: Storage, responses: seq<Response>)
    requires |responses| == |FilesToCache|
    requires forall k :: k in StoreOf(stores, CacheName) ==> !IsExcluded(k.url)
    ensures forall k :: k in AddAll(stores, CacheName, ManifestRequests(), responses)[CacheName] ==>
      !IsExcluded(k.url)
  {
    var requests := ManifestRequests();
    var added := AddAll(stores, CacheName, requests, responses)[CacheName];
    assert forall k :: k in added ==> k in StoreOf(stores, CacheName) || k in requests;
  }

  /** The worker's state: the origin's cache storage and the lifecycle phase. */
  class Worker {
    var caches: Storage
    var lifecycle: Lifecycle

    /** No entry of the current store is for an excluded URL. */
    ghost predicate OnlyOwnFiles()
      reads this
    {
      forall k :: k in StoreOf(caches, CacheName) ==> !IsExcluded(k.url)
    }

    /** A newly registered worker over the origin's existing cache storage. */
    constructor (existing: Storage)
      ensures caches == existing && lifecycle == Installing
    {
      caches := existing;
      lifecycle := Installing;
    }

    /** The install handler: open (or create) the current store, then add the
        whole manifest, all or nothing. Skip-waiting is not requested. */
    method Install(network: Request -> NetResult) returns (ok: bool)
      modifies this
      ensures CacheName in caches && caches.Keys == old(caches.Keys) + {CacheName}
      ensures forall n :: n in old(caches) && n != CacheName ==> n in caches && caches[n] == old(caches[n])
      ensures ok <==> AllSucceed(ManifestRequests(), network)
      ensures ok ==> forall k :: k in ManifestRequests() ==>
        k in caches[CacheName] && network(k) == Ok(caches[CacheName][k])
      ensures ok ==>
        caches[CacheName].Keys == StoreOf(old(caches), CacheName).Keys + (set k | k in ManifestRequests())
      ensures forall k :: k in StoreOf(old(caches), CacheName) && k !in ManifestRequests() ==>
        k in caches[CacheName] && caches[CacheName][k] == StoreOf(old(caches), CacheName)[k]
      ensures !ok ==> caches == old(Open(caches, CacheName))
      ensures lifecycle == if ok then Waiting else old(lifecycle)
      ensures old(OnlyOwnFiles()) ==> OnlyOwnFiles()
    {
      ghost var before := caches;
      caches := Open(caches, CacheName);
      var requests := ManifestRequests();
      var fetched := FetchAll(requests, network);
      if fetched.None? {
        return false;
      }
      assert StoreOf(caches, CacheName) == StoreOf(before, CacheName);
      if OnlyOwnFiles() {
        AddManifestOwnFiles(caches, fetched.value);
      }
      caches := AddAll(caches, CacheName, requests, fetched.value);
      lifecycle := Waiting;
      ok := true;
    }

    /** The activate handler: delete every store whose name is not exactly
        the current one. The current store and its entries are kept. */
    method Activate()
      modifies this
      ensures caches == Survivors(old(caches))
      ensures lifecycle == Active
      ensures old(OnlyOwnFiles()) ==> OnlyOwnFiles()
    {
      var keyList := caches.Keys;
      ghost var before := caches;
      while keyList != {}
        invariant keyList <= before.Keys
        invariant caches == map n | n in before && (n in keyList || !IsStale(n)) :: before[n]
        decreases keyList
      {
        var key :| key in keyList;
        if IsStale(key) {
          caches := caches - {key};
        }
        keyList := keyList - {key};
      }
      lifecycle := Active;
    }

    /** The fetch handler: non-GET requests are let through; a GET is answered
        from the current store when it has the request, and otherwise from
        the network, writing the response back unless the URL is excluded or
        the store refuses the response (a partial one). */
    method HandleFetch(request: Request, network: Request -> NetResult) returns (served: Served)
      modifies this
      ensures request.httpMethod != "GET" ==> served == NotIntercepted && caches == old(caches)
      ensures request.httpMethod == "GET" && request in StoreOf(old(caches), CacheName) ==>
        served == FromCache(StoreOf(old(caches), CacheName)[request]) && caches == old(caches)
      ensures request.httpMethod == "GET" && request !in StoreOf(old(caches), CacheName) ==>
        match network(request)
        case Failure =>
          served == NetworkError && caches == old(Open(caches, CacheName))
        case Ok(response) =>
          served == FromNetwork(response) &&
          caches == if IsExcluded(request.url) || !PutAccepts(response) then old(Open(caches, CacheName))
                    else old(caches)[CacheName := StoreOf(old(caches), CacheName)[request := response]]
      ensures lifecycle == old(lifecycle)
      ensures forall n :: n in old(caches) && n != CacheName ==> n in caches && caches[n] == old(caches[n])
      ensures forall k :: k in StoreOf(old(caches), CacheName) ==>
        k in StoreOf(caches, CacheName) && StoreOf(caches, CacheName)[k] == StoreOf(old(caches), CacheName)[k]
      ensures old(OnlyOwnFiles()) ==> OnlyOwnFiles()
    {
      if request.httpMethod != "GET" {
        return NotIntercepted;
      }
      var store := StoreOf(caches, CacheName);
      caches := Open(caches, CacheName);
      if request in store {
        return FromCache(store[request]);
      }
      match network(request)
      case Failure =>
        served := NetworkError;
      case Ok(response) =>
        if !IsExcluded(request.url) && PutAccepts(response) {
          caches := caches[CacheName := store[request := response]];
        }
        served := FromNetwork(response);
    }

    /** The message handler: only a skip-waiting payload asks to leave the
        waiting phase early; cache storage is never touched. */
    method HandleMessage(data: JsValue)
      modifies this
      ensures lifecycle ==
        if IsSkipWaitingMessage(data) && old(lifecycle) == Waiting then SkipRequested else old(lifecycle)
      ensures caches == old(caches)
    {
      if IsSkipWaitingMessage(data) && lifecycle == Waiting {
        lifecycle := SkipRequested;
      }
    }
  }

  /** A GET that is written back on a miss is served from the store the next
      time, whatever the network would say then; this holds for an error
      status such as 404 as much as for a success. */
  method RefetchServedFromCache(w: Worker, request: Request, first: Request -> NetResult,
                                later: Request -> NetResult)
    returns (a: Served, b: Served)
    requires request.httpMethod == "GET" && !IsExcluded(request.url)
    requires first(request).Ok? && PutAccepts(first(request).response)
    modifies w
    ensures a.FromCache? || a.FromNetwork?
    ensures b == FromCache(a.response)
  {
    a := w.HandleFetch(request, first);
    b := w.HandleFetch(request, later);
  }

  /** Installing and then activating leaves exactly one store, the current one,
      and when the install succeeded it holds every manifest asset. */
  method InstallThenActivate(w: Worker, network: Request -> NetResult) returns (ok: bool)
    modifies w
    ensures w.caches.Keys == {CacheName}
    ensures ok ==> forall k :: k in ManifestRequests() ==> k in w.caches[CacheName]
    ensures w.lifecycle == Active
  {
    ok := w.Install(network);
    w.Activate();
  }
}
