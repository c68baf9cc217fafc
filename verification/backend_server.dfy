/**
 One upstream server: its URL, a liveness flag and the reverse proxy that
 forwards requests to it (package `backend`, file backend_server.go).

 Go hands backends around as pointers, so two pool entries may be the same
 object. The model keeps the objects in a `Servers` map from identities to
 records; pool entries and health-check snapshots hold identities.
 */
module Backend {

  /** Pointer identity of a backend object. */
  type BackendId = nat

  /** Opaque handle of a `*httputil.ReverseProxy`. */
  type ProxyRef = nat

  /** `sync/atomic.Bool`, seen sequentially: a cell holding one boolean. */
  datatype AtomicBool = AtomicBool(value: bool) {
    function Load(): bool {
      value
    }
  }

  /** A request handed to the balancer; the model never looks inside it. */
  datatype Request = Request(verb: string, path: string)

  /** The one effect of `Serve`: the request goes through this proxy. */
  datatype ProxyCall = ProxyCall(proxy: ProxyRef, request: Request)

  /** `backendServer`; `url` is the string form of its `*url.URL`. */
  datatype BackendServer = BackendServer(url: string, alive: AtomicBool, reverseProxy: ProxyRef)

  /** The heap of backend objects reachable from the pool. */
  type Servers = map<BackendId, BackendServer>

  /** `NewBackendServer`: the URL and proxy as given, and alive from the start. */
  function NewBackendServer(u: string, rp: ProxyRef): (b: BackendServer)
    ensures IsAlive(b).Load()
    ensures GetURL(b) == u && b.reverseProxy == rp
  {
    BackendServer(u, AtomicBool(true), rp)
  }

  /** `SetAlive`: overwrites the flag with the given cell and nothing else. */
  function SetAlive(b: BackendServer, alive: AtomicBool): (r: BackendServer)
    ensures IsAlive(r) == alive
    ensures GetURL(r) == GetURL(b) && r.reverseProxy == b.reverseProxy
  {
    b.(alive := alive)
  }

  function IsAlive(b: BackendServer): AtomicBool {
    b.alive
  }

  function GetURL(b: BackendServer): string {
    b.url
  }

  /**
   `Serve`: hands the request to the backend's own proxy. The transport is
   outside the model; the returned call records where the request went.
   */
  function Serve(b: BackendServer, req: Request): (c: ProxyCall)
    ensures c.proxy == b.reverseProxy && c.request == req
  {
    ProxyCall(b.reverseProxy, req)
  }

  /** Writing a flag into the heap changes that one object's flag only. */
  function SetAliveIn(servers: Servers, id: BackendId, alive: AtomicBool): (r: Servers)
    requires id in servers
    ensures r.Keys == servers.Keys
    ensures IsAlive(r[id]) == alive
    ensures forall other | other in servers && other != id :: r[other] == servers[other]
    ensures forall k | k in servers :: GetURL(r[k]) == GetURL(servers[k]) && r[k].reverseProxy == servers[k].reverseProxy
  {
    servers[id := SetAlive(servers[id], alive)]
  }

  /** The URL given at construction survives any sequence of `SetAlive` calls. */
  lemma {:induction false} UrlIsImmutable(b: BackendServer, flags: seq<AtomicBool>)
    ensures GetURL(SetAliveAll(b, flags)) == GetURL(b)
    ensures SetAliveAll(b, flags).reverseProxy == b.reverseProxy
    ensures |flags| > 0 ==> IsAlive(SetAliveAll(b, flags)) == flags[|flags| - 1]
    decreases |flags|
  {
    if |flags| > 0 {
      UrlIsImmutable(b, flags[..|flags| - 1]);
    }
  }

  /**
   What the getters observe on a backend built by `NewBackendServer` and then
   written by any sequence of `SetAlive` calls: `GetURL` the URL it was built
   with, `IsAlive` a cell holding true when nothing was written and otherwise
   the last cell written.
   */
  lemma {:induction false} GettersObserveWrites(u: string, rp: ProxyRef, flags: seq<AtomicBool>)
    ensures GetURL(SetAliveAll(NewBackendServer(u, rp), flags)) == u
    ensures IsAlive(SetAliveAll(NewBackendServer(u, rp), flags)) ==
              (if |flags| == 0 then AtomicBool(true) else flags[|flags| - 1])
  {
    UrlIsImmutable(NewBackendServer(u, rp), flags);
  }

  /** Applies `SetAlive` once per flag, in order. */
  function SetAliveAll(b: BackendServer, flags: seq<AtomicBool>): BackendServer
    decreases |flags|
  {
    if |flags| == 0 then b
    else SetAlive(SetAliveAll(b, flags[..|flags| - 1]), flags[|flags| - 1])
  }
}
