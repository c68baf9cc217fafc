/**
 One health-check round (package `healthcheck`, function `HealthCheck` in
 healthcheck.go): walk the pool's snapshot in order, launch a probe for each
 backend, and wait for either the probe's verdict or cancellation.

 The concurrency is replaced by an input: `events[j]` is what the `select`
 received while waiting for the j-th backend. A verdict overwrites that
 backend's flag and is logged; cancellation ends the round at once.
 */
module HealthCheck {
  import opened Backend
  import opened BackendProbe
  import opened RoundRobinPool

  /** The two values of the logged `status` field. */
  datatype HostHealth = Healthy | Unhealthy {
    /** The text logged: the `HealthyStatus` and `UnhealthyStatus` constants. */
    function Text(): string {
      match this
      case Healthy => "Healthy"
      case Unhealthy => "Unhealthy"
    }
  }

  /** What the `select` received while waiting on one backend. */
  datatype Event = Cancelled | Completed(outcome: ProbeOutcome)

  /** One "host status" log entry. */
  datatype LogLine = HostStatus(status: HostHealth, host: string)

  /**
   The effect of a round: the backend heap afterwards, the log, the probe
   targets launched, how many backends got a verdict, and whether it was cut short.
   */
  datatype Round = Round(servers: Servers, log: seq<LogLine>, launched: seq<string>, visited: nat, cancelled: bool)

  /** The status label logged for a verdict. */
  function StatusLabel(alive: bool): (status: HostHealth)
    ensures status == Unhealthy <==> !alive
    ensures status.Text() == (if alive then "Healthy" else "Unhealthy")
  {
    if alive then Healthy else Unhealthy
  }

  /** Backend `id` does not occur at positions `from` up to `upto` of the snapshot. */
  predicate NotVisited(snapshot: seq<BackendId>, id: BackendId, from: nat, upto: nat)
    requires upto <= |snapshot|
  {
    forall k | from <= k < upto :: snapshot[k] != id
  }

  /** Position `j` is the last visit of its backend before position `upto`. */
  predicate LastVisit(snapshot: seq<BackendId>, j: nat, upto: nat)
    requires j < upto <= |snapshot|
  {
    NotVisited(snapshot, snapshot[j], j + 1, upto)
  }

  /** The verdict an event carries; only meaningful for `Completed`. */
  predicate EventVerdict(e: Event)
    requires e.Completed?
  {
    Verdict(e.outcome)
  }

  /** The loop of `HealthCheck` from snapshot position `i` on. */
  function Visit(snapshot: seq<BackendId>, servers: Servers, healthPath: string, events: seq<Event>, i: nat): (r: Round)
    requires Resolves(snapshot, servers)
    requires |events| == |snapshot| && i <= |snapshot|
    ensures i <= r.visited <= |snapshot|
    ensures forall j | i <= j < r.visited :: events[j].Completed?
    ensures r.cancelled <==> r.visited < |snapshot|
    ensures r.cancelled ==> events[r.visited].Cancelled?
    ensures r.servers.Keys == servers.Keys
    ensures |r.log| == r.visited - i
    ensures |r.launched| == |r.log| + (if r.cancelled then 1 else 0)
    decreases |snapshot| - i
  {
    if i == |snapshot| then
      Round(servers, [], [], i, false)
    else
      var service := snapshot[i];
      var host := GetURL(servers[service]);
      match events[i]
      case Cancelled =>
        Round(servers, [], [ProbeUrl(host, healthPath)], i, true)
      case Completed(outcome) =>
        var run := IsServerAlive(host, healthPath, outcome);
        var alive := run.sent[0];
        var updated := SetAliveIn(servers, service, alive);
        var rest := Visit(snapshot, updated, healthPath, events, i + 1);
        Round(rest.servers, [HostStatus(StatusLabel(alive.Load()), host)] + rest.log,
              [run.target] + rest.launched, rest.visited, rest.cancelled)
  }

  /** A backend the loop does not reach from position `i` on keeps its state exactly. */
  lemma {:induction false} VisitLeavesOne(snapshot: seq<BackendId>, servers: Servers, healthPath: string, events: seq<Event>, i: nat, id: BackendId)
    requires Resolves(snapshot, servers)
    requires |events| == |snapshot| && i <= |snapshot|
    requires id in servers && NotVisited(snapshot, id, i, Visit(snapshot, servers, healthPath, events, i).visited)
    ensures Visit(snapshot, servers, healthPath, events, i).servers[id] == servers[id]
    decreases |snapshot| - i
  {
    if i < |snapshot| && events[i].Completed? {
      var service := snapshot[i];
      var alive := IsServerAlive(GetURL(servers[service]), healthPath, events[i].outcome).sent[0];
      var updated := SetAliveIn(servers, service, alive);
      assert service != id;
      VisitLeavesOne(snapshot, updated, healthPath, events, i + 1, id);
    }
  }

  /** A backend visited at position `j`, and not again before the loop stops, keeps the verdict of position `j`. */
  lemma {:induction false} VisitLastVerdictAt(snapshot: seq<BackendId>, servers: Servers, healthPath: string, events: seq<Event>, i: nat, j: nat)
    requires Resolves(snapshot, servers)
    requires |events| == |snapshot| && i <= |snapshot|
    requires i <= j < Visit(snapshot, servers, healthPath, events, i).visited
    requires LastVisit(snapshot, j, Visit(snapshot, servers, healthPath, events, i).visited)
    ensures IsAlive(Visit(snapshot, servers, healthPath, events, i).servers[snapshot[j]]).Load() == EventVerdict(events[j])
    decreases |snapshot| - i
  {
    var service := snapshot[i];
    var alive := IsServerAlive(GetURL(servers[service]), healthPath, events[i].outcome).sent[0];
    var updated := SetAliveIn(servers, service, alive);
    if j == i {
      VisitLeavesOne(snapshot, updated, healthPath, events, i + 1, service);
    } else {
      VisitLastVerdictAt(snapshot, updated, healthPath, events, i + 1, j);
    }
  }

  /** Visiting never changes a URL or a proxy. */
  lemma {:induction false} VisitKeepsUrl(snapshot: seq<BackendId>, servers: Servers, healthPath: string, events: seq<Event>, i: nat, id: BackendId)
    requires Resolves(snapshot, servers)
    requires |events| == |snapshot| && i <= |snapshot|
    requires id in servers
    ensures var after := Visit(snapshot, servers, healthPath, events, i).servers[id];
            GetURL(after) == GetURL(servers[id]) && after.reverseProxy == servers[id].reverseProxy
    decreases |snapshot| - i
  {
    if i < |snapshot| && events[i].Completed? {
      var service := snapshot[i];
      var alive := IsServerAlive(GetURL(servers[service]), healthPath, events[i].outcome).sent[0];
      VisitKeepsUrl(snapshot, SetAliveIn(servers, service, alive), healthPath, events, i + 1, id);
    }
  }

  /** The `j`-th log line written from position `i` on is the verdict of position `i + j`. */
  lemma {:induction false} VisitLogAt(snapshot: seq<BackendId>, servers: Servers, healthPath: string, events: seq<Event>, i: nat, j: nat)
    requires Resolves(snapshot, servers)
    requires |events| == |snapshot| && i <= |snapshot|
    requires j < |Visit(snapshot, servers, healthPath, events, i).log|
    ensures i + j < Visit(snapshot, servers, healthPath, events, i).visited
    ensures Visit(snapshot, servers, healthPath, events, i).log[j] ==
              HostStatus(StatusLabel(EventVerdict(events[i + j])), GetURL(servers[snapshot[i + j]]))
    decreases |snapshot| - i
  {
    var service := snapshot[i];
    var alive := IsServerAlive(GetURL(servers[service]), healthPath, events[i].outcome).sent[0];
    var updated := SetAliveIn(servers, service, alive);
    if j > 0 {
      VisitLogAt(snapshot, updated, healthPath, events, i + 1, j - 1);
    }
  }

  /** The `j`-th probe launched from position `i` on targets the backend at position `i + j`. */
  lemma {:induction false} VisitLaunchAt(snapshot: seq<BackendId>, servers: Servers, healthPath: string, events: seq<Event>, i: nat, j: nat)
    requires Resolves(snapshot, servers)
    requires |events| == |snapshot| && i <= |snapshot|
    requires j < |Visit(snapshot, servers, healthPath, events, i).launched|
    ensures i + j < |snapshot|
    ensures Visit(snapshot, servers, healthPath, events, i).launched[j] == ProbeUrl(GetURL(servers[snapshot[i + j]]), healthPath)
    decreases |snapshot| - i
  {
    var service := snapshot[i];
    var host := GetURL(servers[service]);
    match events[i]
    case Cancelled =>
    case Completed(outcome) =>
      var alive := IsServerAlive(host, healthPath, outcome).sent[0];
      var updated := SetAliveIn(servers, service, alive);
      if j > 0 {
        VisitLaunchAt(snapshot, updated, healthPath, events, i + 1, j - 1);
      }
  }

  /**
   `HealthCheck`: one round over the pool's snapshot. The round reaches every
   backend up to the first cancellation, logs one line per verdict and
   launches one probe per backend reached; the heap keeps its backends.
   */
  function HealthCheck(pool: RoundRobin, servers: Servers, healthPath: string, events: seq<Event>): (r: Round)
    requires Resolves(pool.backends, servers)
    requires |events| == GetServerPoolSize(pool)
    ensures r.visited <= |pool.backends|
    ensures forall j | 0 <= j < r.visited :: events[j].Completed?
    ensures r.cancelled <==> r.visited < |pool.backends|
    ensures r.cancelled ==> events[r.visited].Cancelled?
    ensures r.servers.Keys == servers.Keys
    ensures |r.log| == r.visited
    ensures |r.launched| == r.visited + (if r.cancelled then 1 else 0)
  {
    Visit(ListServiceBackends(pool), servers, healthPath, events, 0)
  }

  /** Backends the round does not reach keep their state exactly. */
  lemma HealthCheckLeavesOthers(pool: RoundRobin, servers: Servers, healthPath: string, events: seq<Event>)
    requires Resolves(pool.backends, servers)
    requires |events| == GetServerPoolSize(pool)
    ensures forall id {:trigger HealthCheck(pool, servers, healthPath, events).servers[id]}
              | id in servers && NotVisited(pool.backends, id, 0, HealthCheck(pool, servers, healthPath, events).visited) ::
              HealthCheck(pool, servers, healthPath, events).servers[id] == servers[id]
  {
    var r := HealthCheck(pool, servers, healthPath, events);
    assert r == Visit(pool.backends, servers, healthPath, events, 0);
    forall id | id in servers && NotVisited(pool.backends, id, 0, r.visited)
      ensures r.servers[id] == servers[id]
    {
      VisitLeavesOne(pool.backends, servers, healthPath, events, 0, id);
    }
  }

  /** Every backend reached ends up with the verdict of its last visit in the round. */
  lemma HealthCheckLastVerdictWins(pool: RoundRobin, servers: Servers, healthPath: string, events: seq<Event>)
    requires Resolves(pool.backends, servers)
    requires |events| == GetServerPoolSize(pool)
    ensures var r := HealthCheck(pool, servers, healthPath, events);
            forall j | 0 <= j < r.visited && LastVisit(pool.backends, j, r.visited) ::
              IsAlive(r.servers[pool.backends[j]]).Load() == EventVerdict(events[j])
  {
    var r := HealthCheck(pool, servers, healthPath, events);
    assert r == Visit(pool.backends, servers, healthPath, events, 0);
    forall j | 0 <= j < r.visited && LastVisit(pool.backends, j, r.visited)
      ensures IsAlive(r.servers[pool.backends[j]]).Load() == EventVerdict(events[j])
    {
      VisitLastVerdictAt(pool.backends, servers, healthPath, events, 0, j);
    }
  }

  /** A round never changes a backend's URL or proxy. */
  lemma HealthCheckKeepsUrls(pool: RoundRobin, servers: Servers, healthPath: string, events: seq<Event>)
    requires Resolves(pool.backends, servers)
    requires |events| == GetServerPoolSize(pool)
    ensures var r := HealthCheck(pool, servers, healthPath, events);
            forall id | id in servers ::
              GetURL(r.servers[id]) == GetURL(servers[id]) && r.servers[id].reverseProxy == servers[id].reverseProxy
  {
    var r := HealthCheck(pool, servers, healthPath, events);
    assert r == Visit(pool.backends, servers, healthPath, events, 0);
    forall id | id in servers
      ensures GetURL(r.servers[id]) == GetURL(servers[id]) && r.servers[id].reverseProxy == servers[id].reverseProxy
    {
      VisitKeepsUrl(pool.backends, servers, healthPath, events, 0, id);
    }
  }

  /** The round's log: one "host status" line per verdict, in snapshot order. */
  lemma HealthCheckLogsInOrder(pool: RoundRobin, servers: Servers, healthPath: string, events: seq<Event>)
    requires Resolves(pool.backends, servers)
    requires |events| == GetServerPoolSize(pool)
    ensures forall j {:trigger HealthCheck(pool, servers, healthPath, events).log[j]}
              | 0 <= j < HealthCheck(pool, servers, healthPath, events).visited ::
              HealthCheck(pool, servers, healthPath, events).log[j] ==
                HostStatus(StatusLabel(EventVerdict(events[j])), GetURL(servers[pool.backends[j]]))
  {
    var r := HealthCheck(pool, servers, healthPath, events);
    assert r == Visit(pool.backends, servers, healthPath, events, 0);
    forall j | 0 <= j < r.visited
      ensures r.log[j] == HostStatus(StatusLabel(EventVerdict(events[j])), GetURL(servers[pool.backends[j]]))
    {
      VisitLogAt(pool.backends, servers, healthPath, events, 0, j);
    }
  }

  /** One probe target per backend reached, in snapshot order, the cancelled one included. */
  lemma HealthCheckLaunchesInOrder(pool: RoundRobin, servers: Servers, healthPath: string, events: seq<Event>)
    requires Resolves(pool.backends, servers)
    requires |events| == GetServerPoolSize(pool)
    ensures forall j {:trigger HealthCheck(pool, servers, healthPath, events).launched[j]}
              | 0 <= j < |HealthCheck(pool, servers, healthPath, events).launched| ::
              j < |pool.backends| &&
              HealthCheck(pool, servers, healthPath, events).launched[j] == ProbeUrl(GetURL(servers[pool.backends[j]]), healthPath)
  {
    var r := HealthCheck(pool, servers, healthPath, events);
    assert r == Visit(pool.backends, servers, healthPath, events, 0);
    forall j | 0 <= j < |r.launched|
      ensures j < |pool.backends| && r.launched[j] == ProbeUrl(GetURL(servers[pool.backends[j]]), healthPath)
    {
      VisitLaunchAt(pool.backends, servers, healthPath, events, 0, j);
    }
  }

  /** The number of backends a round reaches is decided by the events alone. */
  lemma VisitedIgnoresFlags(pool: RoundRobin, s1: Servers, s2: Servers, healthPath: string, events: seq<Event>)
    requires Resolves(pool.backends, s1) && Resolves(pool.backends, s2)
    requires |events| == GetServerPoolSize(pool)
    ensures HealthCheck(pool, s1, healthPath, events).visited == HealthCheck(pool, s2, healthPath, events).visited
  {
  }

  /**
   Repeating a round with the same probe results changes nothing more: the
   flags it writes depend only on the results, not on the flags it found.
   */
  lemma RoundIsIdempotent(pool: RoundRobin, servers: Servers, healthPath: string, events: seq<Event>)
    requires Resolves(pool.backends, servers)
    requires |events| == GetServerPoolSize(pool)
    ensures var once := HealthCheck(pool, servers, healthPath, events).servers;
            HealthCheck(pool, once, healthPath, events).servers == once
  {
    var first := HealthCheck(pool, servers, healthPath, events);
    var once := first.servers;
    var second := HealthCheck(pool, once, healthPath, events);
    VisitedIgnoresFlags(pool, servers, once, healthPath, events);
    HealthCheckLeavesOthers(pool, once, healthPath, events);
    HealthCheckLastVerdictWins(pool, servers, healthPath, events);
    HealthCheckLastVerdictWins(pool, once, healthPath, events);
    HealthCheckKeepsUrls(pool, servers, healthPath, events);
    HealthCheckKeepsUrls(pool, once, healthPath, events);
    var v := first.visited;
    forall id | id in once
      ensures second.servers[id] == once[id]
    {
      if !NotVisited(pool.backends, id, 0, v) {
        var j :| 0 <= j < v && pool.backends[j] == id;
        var last := LastIndexOf(pool.backends, id, j, v);
        assert IsAlive(second.servers[id]).Load() == IsAlive(once[id]).Load();
      }
    }
  }

  /** The last position before `upto` holding `id`, starting from a known one at `j`. */
  lemma LastIndexOf(snapshot: seq<BackendId>, id: BackendId, j: nat, upto: nat) returns (last: nat)
    requires j < upto <= |snapshot| && snapshot[j] == id
    ensures j <= last < upto && snapshot[last] == id && LastVisit(snapshot, last, upto)
    decreases upto - j
  {
    if NotVisited(snapshot, id, j + 1, upto) {
      last := j;
    } else {
      var k :| j + 1 <= k < upto && snapshot[k] == id;
      last := LastIndexOf(snapshot, id, k, upto);
    }
  }

  /** A pool listing one backend twice: the later of the two verdicts is the one kept. */
  lemma DuplicateEntryLastResultWins(a: BackendId, b: BackendServer, healthPath: string)
    ensures var pool := RoundRobin([a, a], 0);
            var r := HealthCheck(pool, map[a := b], healthPath, [Completed(Status(200)), Completed(Status(500))]);
            !IsAlive(r.servers[a]).Load() && r.log[0].status == Healthy && r.log[1].status == Unhealthy
  {
    var pool := RoundRobin([a, a], 0);
    var servers := map[a := b];
    var events := [Completed(Status(200)), Completed(Status(500))];
    var r := HealthCheck(pool, servers, healthPath, events);
    assert !events[0].Cancelled? && !events[1].Cancelled?;
    assert r.visited == 2;
    assert LastVisit(pool.backends, 1, r.visited);
    HealthCheckLastVerdictWins(pool, servers, healthPath, events);
    HealthCheckLogsInOrder(pool, servers, healthPath, events);
    assert r.log[0].status == StatusLabel(EventVerdict(events[0]));
    assert r.log[1].status == StatusLabel(EventVerdict(events[1]));
  }
}
