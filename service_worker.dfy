/** The service worker: cache cleanup on activation, the routing of
    intercepted requests between network and cache, and the background sync
    that replays its own pending store.

    The Cache API is modelled by the list of cache names and by the entries
    `caches.match` can find, keyed by URL; `fetch` is an outcome parameter
    (`None` when it rejects). */
module ServiceWorker {
  import opened Wrappers
  import opened Js
  import opened Text

  const CacheName := "ebd-frequency-v2.1"
  const OfflineUrl := "/offline.html"
  const SyncTag := "sync-attendance"

  // ---------------------------------------------------------------------
  // Activation

  /** The names an activation keeps when the current cache is `keep`: only
      `keep`, as often as it occurs. */
  function Prune(names: seq<string>, keep: string): seq<string>
    decreases |names|
  {
    if names == [] then []
    else
      var last := names[|names| - 1];
      Prune(names[..|names| - 1], keep) + (if last == keep then [last] else [])
  }

  /** `caches.delete(name)`: the first (the only) cache with that name goes. */
  function DeleteName(names: seq<string>, name: string): seq<string>
    decreases |names|
  {
    if names == [] then []
    else if names[0] == name then names[1..]
    else [names[0]] + DeleteName(names[1..], name)
  }

  predicate Distinct(names: seq<string>) {
    forall i, j :: 0 <= i < j < |names| ==> names[i] != names[j]
  }

  lemma {:induction false} DeleteNameAfter(a: seq<string>, x: string, b: seq<string>)
    requires x !in a
    ensures DeleteName(a + [x] + b, x) == a + b
    decreases |a|
  {
    if a != [] {
      assert (a + [x] + b)[1..] == a[1..] + [x] + b;
      DeleteNameAfter(a[1..], x, b);
    }
  }

  /** Activation keeps only the current cache's name, and keeps it exactly
      when it was there. */
  lemma {:induction false} PruneKeepsOnlyCurrent(names: seq<string>, keep: string)
    ensures forall x :: x in Prune(names, keep) ==> x == keep
    ensures keep in Prune(names, keep) <==> keep in names
    ensures keep !in names ==> Prune(names, keep) == []
    decreases |names|
  {
    if names != [] {
      var init := names[..|names| - 1];
      PruneKeepsOnlyCurrent(init, keep);
      assert names == init + [names[|names| - 1]];
    }
  }

  /** Since cache names are unique, at most one cache is left. */
  lemma {:induction false} PruneAtMostOne(names: seq<string>, keep: string)
    requires Distinct(names)
    ensures |Prune(names, keep)| <= 1
    decreases |names|
  {
    if names != [] {
      var n := |names| - 1;
      var init := names[..n];
      assert Distinct(init) by {
        forall i, j | 0 <= i < j < |init|
          ensures init[i] != init[j]
        {
          assert init[i] == names[i] && init[j] == names[j];
        }
      }
      PruneAtMostOne(init, keep);
      PruneKeepsOnlyCurrent(init, keep);
      assert names == init + [names[n]];
      if names[n] == keep {
        assert keep !in init by {
          forall k | 0 <= k < |init|
            ensures init[k] != keep
          {
            assert init[k] == names[k];
          }
        }
        assert Prune(names, keep) == Prune(init, keep) + [keep];
      }
    }
  }

  /** One step of the activation loop: deleting a stale name, or keeping
      the current one, moves the boundary one name on. */
  lemma PruneStep(snapshot: seq<string>, i: nat, keep: string)
    requires i < |snapshot|
    ensures var name := snapshot[i];
      var names := Prune(snapshot[..i], keep) + snapshot[i..];
      Prune(snapshot[..i + 1], keep) + snapshot[i + 1..] == (if name != keep then DeleteName(names, name) else names)
  {
    var name := snapshot[i];
    var kept := Prune(snapshot[..i], keep);
    assert snapshot[..i + 1][..i] == snapshot[..i];
    assert snapshot[i..] == [name] + snapshot[i + 1..];
    if name != keep {
      PruneKeepsOnlyCurrent(snapshot[..i], keep);
      assert kept + snapshot[i..] == kept + [name] + snapshot[i + 1..];
      DeleteNameAfter(kept, name, snapshot[i + 1..]);
    } else {
      assert kept + ([name] + snapshot[i + 1..]) == (kept + [name]) + snapshot[i + 1..];
    }
  }

  /** The browser's cache storage: the names of its caches in creation
      order. */
  class CacheStorage {
    var names: seq<string>

    constructor(names: seq<string>)
      ensures this.names == names
    {
      this.names := names;
    }

    /** The `activate` handler: every cache whose name differs from the
        current one is deleted. */
    method Activate()
      modifies this
      ensures names == Prune(old(names), CacheName)
    {
      var keep := CacheName;
      var snapshot := names;
      var i := 0;
      while i < |snapshot|
        invariant 0 <= i <= |snapshot|
        invariant names == Prune(snapshot[..i], keep) + snapshot[i..]
      {
        var name := snapshot[i];
        PruneStep(snapshot, i, keep);
        if name != keep {
          names := DeleteName(names, name);
        }
        i := i + 1;
      }
      assert snapshot[..i] == snapshot;
    }
  }

  // ---------------------------------------------------------------------
  // Fetch routing

  /** An intercepted request: its method, URL and whether it is a page
      navigation. */
  datatype Request = Request(httpMethod: string, url: string, navigate: bool)

  /** A response: its status and body. */
  datatype Response = Response(status: int, body: Value)

  /** What the `fetch` handler does: leave the request to the browser, or
      answer it (with nothing, when the fallback cache lookup misses) and
      leave the cache entries as given. */
  datatype Handling =
    | NotIntercepted
    | Answered(response: Option<Response>, cache: map<string, Response>)

  /** The body of the synthetic offline answer to an API request; `stamp`
      is the serialised clock reading. */
  function OfflineBody(stamp: string): Value {
    Obj(map["message" := Str("Modo offline ativo"), "timestamp" := Str(stamp)])
  }

  /** The `fetch` handler. `network` is what `fetch(request)` resolves to,
      `None` when it rejects. */
  function Route(req: Request, cache: map<string, Response>, network: Option<Response>, stamp: string): Handling {
    if req.httpMethod != "GET" then NotIntercepted
    else if Contains(req.url, "/api/") then
      match network
      case Some(r) => Answered(Some(r), cache[req.url := r])
      case None =>
        if req.url in cache then Answered(Some(cache[req.url]), cache)
        else Answered(Some(Response(200, OfflineBody(stamp))), cache)
    else if req.url in cache then Answered(Some(cache[req.url]), cache)
    else
      match network
      case Some(r) => Answered(Some(r), if r.status == 200 then cache[req.url := r] else cache)
      case None =>
        if req.navigate then Answered(if OfflineUrl in cache then Some(cache[OfflineUrl]) else None, cache)
        else Answered(Some(Response(503, Str("Offline"))), cache)
  }

  /** Requests other than GET are never intercepted. */
  lemma NonGetPassesThrough(req: Request, cache: map<string, Response>, network: Option<Response>, stamp: string)
    requires req.httpMethod != "GET"
    ensures Route(req, cache, network, stamp) == NotIntercepted
  {
  }

  /** API GETs are network-first: a network response of any status is
      returned and stored; only when the network fails does the cache
      answer, and failing that the synthetic offline message. */
  lemma ApiIsNetworkFirst(req: Request, cache: map<string, Response>, network: Option<Response>, stamp: string)
    requires req.httpMethod == "GET" && Contains(req.url, "/api/")
    ensures var h := Route(req, cache, network, stamp);
      && h.Answered?
      && (network.Some? ==> h.response == network && h.cache == cache[req.url := network.value])
      && (network.None? ==>
            h.cache == cache && h.response.Some?
            && h.response.value == (if req.url in cache then cache[req.url] else Response(200, OfflineBody(stamp))))
  {
  }

  /** Other GETs are cache-first: a cached entry is answered whatever the
      network would have done, and the cache is left alone. */
  lemma CacheHitIgnoresNetwork(req: Request, cache: map<string, Response>, n1: Option<Response>,
                               n2: Option<Response>, stamp: string)
    requires req.httpMethod == "GET" && !Contains(req.url, "/api/") && req.url in cache
    ensures Route(req, cache, n1, stamp) == Route(req, cache, n2, stamp)
    ensures Route(req, cache, n1, stamp) == Answered(Some(cache[req.url]), cache)
  {
  }

  /** On a cache miss the network's response is returned, and stored if and
      only if its status is 200. */
  lemma CacheMissStoresOnlyOk(req: Request, cache: map<string, Response>, r: Response, stamp: string)
    requires req.httpMethod == "GET" && !Contains(req.url, "/api/") && req.url !in cache
    ensures var h := Route(req, cache, Some(r), stamp);
      && h == Answered(Some(r), h.cache)
      && (req.url in h.cache <==> r.status == 200)
      && (forall u :: u != req.url ==> (u in h.cache <==> u in cache))
  {
  }

  /** When cache and network both fail, a navigation gets the cached
      offline page (nothing if that page was never cached) and anything else
      a 503 `Offline`. */
  lemma BothFailFallback(req: Request, cache: map<string, Response>, stamp: string)
    requires req.httpMethod == "GET" && !Contains(req.url, "/api/") && req.url !in cache
    ensures var h := Route(req, cache, None, stamp);
      && h.Answered? && h.cache == cache
      && (req.navigate ==> (h.response.Some? <==> OfflineUrl in cache))
      && (!req.navigate ==> h.response == Some(Response(503, Str("Offline"))))
  {
  }

  /** The cache only ever gains the requested URL: no entry is removed and
      no other URL changes. */
  lemma RouteOnlyStoresRequest(req: Request, cache: map<string, Response>, network: Option<Response>, stamp: string)
    ensures var h := Route(req, cache, network, stamp);
      h.Answered? ==> forall u :: u in cache && u != req.url ==> u in h.cache && h.cache[u] == cache[u]
    ensures var h := Route(req, cache, network, stamp);
      h.Answered? ==> h.cache.Keys <= cache.Keys + {req.url}
  {
  }

  // ---------------------------------------------------------------------
  // Background sync

  /** A record of the worker's own `pending` store, keyed by `id`. `body` is the
      whole record as `JSON.stringify(data)` posts it, its `id` among the fields. */
  datatype SwRecord = SwRecord(id: int, body: Value)

  predicate DistinctKeys(items: seq<SwRecord>) {
    forall i, j :: 0 <= i < j < |items| ==> items[i].id != items[j].id
  }

  /** Removing the record with key `id`. */
  function RemoveKey(items: seq<SwRecord>, id: int): seq<SwRecord>
    decreases |items|
  {
    if items == [] then []
    else if items[0].id == id then items[1..]
    else [items[0]] + RemoveKey(items[1..], id)
  }

  /** The first `n` snapshot records whose POST did not resolve: what a
      drain that deletes after each resolved POST leaves of them. */
  function Unsent(snapshot: seq<SwRecord>, resolved: nat -> bool, n: nat): seq<SwRecord>
    requires n <= |snapshot|
    decreases n
  {
    if n == 0 then []
    else Unsent(snapshot, resolved, n - 1) + (if resolved(n - 1) then [] else [snapshot[n - 1]])
  }

  lemma {:induction false} RemoveKeyAfter(a: seq<SwRecord>, x: SwRecord, b: seq<SwRecord>)
    requires forall r :: r in a ==> r.id != x.id
    ensures RemoveKey(a + [x] + b, x.id) == a + b
    decreases |a|
  {
    if a != [] {
      assert (a + [x] + b)[1..] == a[1..] + [x] + b;
      RemoveKeyAfter(a[1..], x, b);
    }
  }

  lemma {:induction false} UnsentFrom(snapshot: seq<SwRecord>, resolved: nat -> bool, n: nat)
    requires n <= |snapshot|
    ensures forall r :: r in Unsent(snapshot, resolved, n) ==> exists j :: 0 <= j < n && !resolved(j) && r == snapshot[j]
    decreases n
  {
    if n > 0 {
      UnsentFrom(snapshot, resolved, n - 1);
    }
  }

  /** After a drain that deletes each record once its POST resolves, a
      record is still queued if and only if its POST was rejected; the HTTP
      status plays no part. */
  lemma UnsentIff(snapshot: seq<SwRecord>, resolved: nat -> bool, j: nat)
    requires DistinctKeys(snapshot) && j < |snapshot|
    ensures snapshot[j] in Unsent(snapshot, resolved, |snapshot|) <==> !resolved(j)
  {
    if !resolved(j) {
      UnsentKeeps(snapshot, resolved, |snapshot|, j);
    }
    UnsentFrom(snapshot, resolved, |snapshot|);
    if resolved(j) && snapshot[j] in Unsent(snapshot, resolved, |snapshot|) {
      var k :| 0 <= k < |snapshot| && !resolved(k) && snapshot[j] == snapshot[k];
      assert false;
    }
  }

  lemma {:induction false} UnsentKeeps(snapshot: seq<SwRecord>, resolved: nat -> bool, n: nat, j: nat)
    requires j < n <= |snapshot| && !resolved(j)
    ensures snapshot[j] in Unsent(snapshot, resolved, n)
    decreases n
  {
    if j < n - 1 {
      UnsentKeeps(snapshot, resolved, n - 1, j);
    }
  }

  /** The bodies of the records, in order. */
  function Bodies(items: seq<SwRecord>): (r: seq<Value>)
    ensures |r| == |items|
    decreases |items|
  {
    if items == [] then [] else Bodies(items[..|items| - 1]) + [items[|items| - 1].body]
  }

  lemma {:induction false} BodiesIndex(items: seq<SwRecord>, i: nat)
    requires i < |items|
    ensures Bodies(items)[i] == items[i].body
    decreases |items|
  {
    if i < |items| - 1 {
      BodiesIndex(items[..|items| - 1], i);
    }
  }

  /** One step of the drain loop: deleting a resolved record, or keeping a
      rejected one, moves the boundary one record on. */
  lemma UnsentStep(snapshot: seq<SwRecord>, resolved: nat -> bool, i: nat)
    requires DistinctKeys(snapshot) && i < |snapshot|
    ensures var data := snapshot[i];
      var pending := Unsent(snapshot, resolved, i) + snapshot[i..];
      Unsent(snapshot, resolved, i + 1) + snapshot[i + 1..]
        == (if resolved(i) then RemoveKey(pending, data.id) else pending)
  {
    var data := snapshot[i];
    var before := Unsent(snapshot, resolved, i);
    assert snapshot[i..] == [data] + snapshot[i + 1..];
    if resolved(i) {
      forall r | r in before
        ensures r.id != data.id
      {
        UnsentFrom(snapshot, resolved, i);
      }
      assert before + snapshot[i..] == before + [data] + snapshot[i + 1..];
      RemoveKeyAfter(before, data, snapshot[i + 1..]);
    } else {
      assert before + ([data] + snapshot[i + 1..]) == (before + [data]) + snapshot[i + 1..];
    }
  }

  /** The worker's side of background sync: its own `pending` store, and
      whether `removePendingData` exists in the worker's scope (as written
      it does not, so calling it throws a ReferenceError that the loop
      catches). */
  class BackgroundSync {
    var pending: seq<SwRecord>
    const removeDefined: bool

    constructor(pending: seq<SwRecord>, removeDefined: bool)
      ensures this.pending == pending && this.removeDefined == removeDefined
    {
      this.pending := pending;
      this.removeDefined := removeDefined;
    }

    /** `syncPendingData()`: POSTs every record of the snapshot, in order,
        to `/api/attendance`; record `i`'s POST resolves (whatever its
        status) when `resolved(i)`, and only then is the record deleted,
        by `removePendingData` if it exists. Returns the bodies posted. */
    method SyncPendingData(resolved: nat -> bool) returns (sent: seq<Value>)
      requires DistinctKeys(pending)
      modifies this
      ensures sent == Bodies(old(pending))
      ensures pending == if removeDefined then Unsent(old(pending), resolved, |old(pending)|) else old(pending)
    {
      var snapshot := pending;
      sent := [];
      var i := 0;
      while i < |snapshot|
        invariant 0 <= i <= |snapshot|
        invariant sent == Bodies(snapshot[..i])
        invariant pending == if removeDefined then Unsent(snapshot, resolved, i) + snapshot[i..] else snapshot
      {
        var data := snapshot[i];
        UnsentStep(snapshot, resolved, i);
        assert snapshot[..i + 1][..i] == snapshot[..i];
        sent := sent + [data.body];
        if resolved(i) && removeDefined {
          pending := RemoveKey(pending, data.id);
        }
        i := i + 1;
      }
      assert snapshot[..i] == snapshot;
    }

    /** The `sync` event: only the `sync-attendance` tag runs the drain. */
    method OnSync(tag: string, resolved: nat -> bool) returns (sent: seq<Value>)
      requires DistinctKeys(pending)
      modifies this
      ensures tag != SyncTag ==> sent == [] && pending == old(pending)
      ensures tag == SyncTag ==> sent == Bodies(old(pending))
      ensures tag == SyncTag ==>
        pending == if removeDefined then Unsent(old(pending), resolved, |old(pending)|) else old(pending)
    {
      sent := [];
      if tag == SyncTag {
        sent := SyncPendingData(resolved);
      }
    }
  }
}
