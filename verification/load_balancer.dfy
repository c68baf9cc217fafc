/**
 The request dispatcher (package `load_balancer`, file load_balancer.go).
 Each request asks the pool for the next available backend exactly once:
 the request goes through that backend's proxy, or, when no backend is
 alive, the client gets 503 "Service not available".

 The pool is shared state in the source; here the balancer is returned with
 the pool's new cursor after every request.
 */
module LoadBalancer {
  import opened Options
  import opened Backend
  import opened RoundRobinPool

  /** `http.StatusServiceUnavailable`. */
  const StatusServiceUnavailable: int := 503

  /** The body of the error reply. */
  const UnavailableMessage: string := "Service not available"

  /** `loadBalancer`: nothing but the pool it draws from. */
  datatype Balancer = Balancer(serverPool: RoundRobin)

  /** What the client's response writer receives. */
  datatype Reply =
    | Forwarded(backend: BackendId, call: ProxyCall)   // handed to the backend's reverse proxy
    | HttpError(code: int, message: string)            // written by `http.Error`

  /** The balancer after a request, and the reply to it. */
  datatype Served = Served(lb: Balancer, reply: Reply)

  /** `NewLoadBalancer`: a balancer drawing from the given pool. */
  function NewLoadBalancer(serverPool: RoundRobin): (lb: Balancer)
    ensures GetServerPoolSize(lb.serverPool) == GetServerPoolSize(serverPool)
    ensures ListServiceBackends(lb.serverPool) == ListServiceBackends(serverPool)
    ensures lb.serverPool.current == serverPool.current
  {
    Balancer(serverPool)
  }

  /**
   `Serve`: the pool is asked once; its pick gets the request, and no pick
   means 503. Combined with the pool's contract: 503 exactly when no backend
   in the pool is alive, and otherwise the request goes through the proxy of
   a backend that is in the pool and alive.
   */
  function ServeRequest(lb: Balancer, servers: Servers, req: Request): (r: Served)
    requires Resolves(lb.serverPool.backends, servers)
    ensures r.lb.serverPool == NextAvailableBackend(lb.serverPool, servers).pool
    ensures NextAvailableBackend(lb.serverPool, servers).chosen.None? ==>
              r.reply == HttpError(StatusServiceUnavailable, UnavailableMessage)
    ensures NextAvailableBackend(lb.serverPool, servers).chosen.Some? ==>
              r.reply.Forwarded? && r.reply.backend == NextAvailableBackend(lb.serverPool, servers).chosen.value
    ensures r.lb.serverPool.backends == lb.serverPool.backends
    ensures r.reply.HttpError? <==>
              forall k | 0 <= k < |lb.serverPool.backends| :: !AliveAt(lb.serverPool.backends, servers, k)
    ensures r.reply.HttpError? ==> r.reply.code == 503 && r.reply.message == "Service not available"
    ensures r.reply.Forwarded? ==>
              && r.reply.backend in lb.serverPool.backends
              && r.reply.backend in servers
              && IsAlive(servers[r.reply.backend]).Load()
              && r.reply.call.proxy == servers[r.reply.backend].reverseProxy
              && r.reply.call.request == req
  {
    var selection := NextAvailableBackend(lb.serverPool, servers);
    var next := Balancer(selection.pool);
    match selection.chosen
    case Some(id) => Served(next, Forwarded(id, Serve(servers[id], req)))
    case None => Served(next, HttpError(StatusServiceUnavailable, UnavailableMessage))
  }

  /** The replies to a sequence of requests served one after another, with no health change in between. */
  function ServeAll(lb: Balancer, servers: Servers, reqs: seq<Request>): (replies: seq<Reply>)
    requires Resolves(lb.serverPool.backends, servers)
    ensures |replies| == |reqs|
    decreases |reqs|
  {
    if |reqs| == 0 then []
    else
      var first := ServeRequest(lb, servers, reqs[0]);
      [first.reply] + ServeAll(first.lb, servers, reqs[1..])
  }

  /**
   With every backend alive, consecutive requests go to consecutive pool
   entries: the j-th request lands j + 1 steps past the starting cursor.
   */
  lemma {:induction false} ServeAllRoundRobin(lb: Balancer, servers: Servers, reqs: seq<Request>)
    requires Resolves(lb.serverPool.backends, servers) && AllAlive(lb.serverPool.backends, servers)
    requires |lb.serverPool.backends| > 0
    ensures var p := lb.serverPool;
            forall j | 0 <= j < |reqs| ::
              var id := p.backends[Slot(p.current, j + 1, |p.backends|)];
              ServeAll(lb, servers, reqs)[j] == Forwarded(id, Serve(servers[id], reqs[j]))
    decreases |reqs|
  {
    if |reqs| > 0 {
      var p := lb.serverPool;
      var n := |p.backends|;
      var s := NextAvailableBackend(p, servers);
      assert s.chosen.Some? by {
        assert AliveAt(p.backends, servers, 0);
      }
      assert s.rotations == 1 by {
        assert AliveAt(p.backends, servers, Slot(p.current, 1, n));
      }
      var first := ServeRequest(lb, servers, reqs[0]);
      assert first.lb.serverPool == s.pool;
      ServeAllRoundRobin(first.lb, servers, reqs[1..]);
      SlotStep(p.current, n);
      var replies := ServeAll(lb, servers, reqs);
      forall j | 0 <= j < |reqs|
        ensures var id := p.backends[Slot(p.current, j + 1, n)];
                replies[j] == Forwarded(id, Serve(servers[id], reqs[j]))
      {
        if j > 0 {
          assert replies[j] == ServeAll(first.lb, servers, reqs[1..])[j - 1];
          assert reqs[1..][j - 1] == reqs[j];
        }
      }
    }
  }

  /** With no backend alive, every request is refused with 503, however many arrive. */
  lemma {:induction false} ServeAllUnavailable(lb: Balancer, servers: Servers, reqs: seq<Request>)
    requires Resolves(lb.serverPool.backends, servers)
    requires forall k | 0 <= k < |lb.serverPool.backends| :: !AliveAt(lb.serverPool.backends, servers, k)
    ensures forall j | 0 <= j < |reqs| ::
              ServeAll(lb, servers, reqs)[j] == HttpError(StatusServiceUnavailable, UnavailableMessage)
    decreases |reqs|
  {
    if |reqs| > 0 {
      var first := ServeRequest(lb, servers, reqs[0]);
      ServeAllUnavailable(first.lb, servers, reqs[1..]);
      var replies := ServeAll(lb, servers, reqs);
      forall j | 0 <= j < |reqs|
        ensures replies[j] == HttpError(StatusServiceUnavailable, UnavailableMessage)
      {
        if j > 0 {
          assert replies[j] == ServeAll(first.lb, servers, reqs[1..])[j - 1];
        }
      }
    }
  }
}
