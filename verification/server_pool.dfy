/**
 The `ServerPool` interface and its constructor (package `serverpool`, file
 server_pool.go). The only implementation is the round-robin pool, so the
 interface is modelled by that pool's functions.
 */
module ServerPool {
  import opened Options
  import opened Backend
  import opened RoundRobinPool

  /** The `(ServerPool, error)` pair returned by `NewServerPool`. */
  datatype Created = Created(pool: RoundRobin, err: Option<string>)

  /** `NewServerPool`: never fails, and the pool starts empty. */
  function NewServerPool(): (r: Created)
    ensures r.err == None
    ensures GetServerPoolSize(r.pool) == 0 && ListServiceBackends(r.pool) == []
    ensures forall servers: Servers :: NextAvailableBackend(r.pool, servers).chosen == None
  {
    Created(Initialize(), None)
  }

  /** Registers the given backends one after another. */
  function RegisterAll(p: RoundRobin, bs: seq<BackendId>): RoundRobin
    decreases |bs|
  {
    if |bs| == 0 then p
    else RegisterServiceBackend(RegisterAll(p, bs[..|bs| - 1]), bs[|bs| - 1])
  }

  /**
   No lost registrations: `m` registrations grow the pool by exactly `m`
   entries, appended in the order they were made, duplicates included.
   */
  lemma {:induction false} RegisterAllAppends(p: RoundRobin, bs: seq<BackendId>)
    ensures ListServiceBackends(RegisterAll(p, bs)) == ListServiceBackends(p) + bs
    ensures GetServerPoolSize(RegisterAll(p, bs)) == GetServerPoolSize(p) + |bs|
    ensures RegisterAll(p, bs).current == p.current
    decreases |bs|
  {
    if |bs| > 0 {
      var init := bs[..|bs| - 1];
      RegisterAllAppends(p, init);
      var q := RegisterAll(p, init);
      var r := RegisterServiceBackend(q, bs[|bs| - 1]);
      assert r.backends == q.backends + [bs[|bs| - 1]] by {
        assert r.backends[..|q.backends|] == q.backends;
      }
      assert init + [bs[|bs| - 1]] == bs;
    }
  }
}
