# load-balancer-rr in Dafny

A model of the core of `load-balancer-rr`: an HTTP load balancer that hands
each request to the next alive backend of a round-robin pool, a health check
that periodically probes every backend and records an alive/dead flag, and
the small game server behind it, which takes its port from the command line
or from its configuration. At start-up the game server checks only the
configured port, for range and for being in use; a port given on the command
line is used unchecked.

Modules, one per source file:

- `Backend` (backend_server.dfy) holds the backend record: URL, atomic alive flag, reverse proxy.
  - Go passes backends around as pointers, so the model keeps the objects in a `Servers` map keyed by identity.
  - Pool entries and health-check snapshots hold identities. Two entries can therefore be the same object.
- `BackendProbe` (backend_probe.dfy) holds `IsServerAlive` and `getAliveStatus`.
  - The HTTP round trip is an input: a request build error, a transport error, or a status code.
- `RoundRobinPool` (round_robin.dfy) holds the pool, its cursor and the fairness lemmas:
  - `Initialize`, `Rotate`, `NextAvailableBackend`, `ListServiceBackends`, `GetServerPoolSize`;
  - `RegisterServiceBackend`, `RemoveBackend`.
- `ServerPool` (server_pool.dfy) holds the `ServerPool` interface's constructor.
- `HealthCheck` (healthcheck.dfy) holds one health-check round, as a fold over the pool's snapshot.
  - What the `select` receives for each backend is an input: either cancellation or the probe's outcome.
- `LoadBalancer` (load_balancer.dfy) holds `Serve` and `NewLoadBalancer`.
- `GameConfig` (game_config.dfy) holds the game app's `GetPort`.
- `PortUtils` (port_utils.dfy) holds the game app's `ValidatePort` and `getOccupiedPorts`.
  - This includes the `:(\d+)\s` scan of `lsof`'s output.
- `Strconv` (strconv.dfy) models Go's `strconv.Atoi`. `Itoa` is called nowhere in the source; it is the inverse used to state what `Atoi` reads (`AtoiItoa`).
- `Options` (options.dfy) defines `Option` and `Result`.

## Model

| member | source | states |
|---|---|---|
| Backend.NewBackendServer | load_balancer_rr/internal/handlers/backend/backend_server.go:26-33 | a new backend carries the given URL and proxy and starts alive |
| Backend.SetAlive | load_balancer_rr/internal/handlers/backend/backend_server.go:36-38 | afterwards `IsAlive` returns exactly the given cell; URL and proxy are unchanged |
| Backend.Serve | load_balancer_rr/internal/handlers/backend/backend_server.go:51-55 | the request, unchanged, goes through this backend's own reverse proxy |
| Backend.GettersObserveWrites | load_balancer_rr/internal/handlers/backend/backend_server.go:26-48 | `GetURL` returns the URL given to `NewBackendServer`, and `IsAlive` returns a cell holding true until the first `SetAlive`, then the last cell written |
| Backend.SetAliveIn | load_balancer_rr/internal/handlers/backend/backend_server.go:36-38 | writing one object's flag through its pointer changes that flag only: same objects, every other object identical, every URL and proxy kept |
| Backend.UrlIsImmutable | load_balancer_rr/internal/handlers/backend/backend_server.go:11-15 | after any sequence of `SetAlive` calls the URL and proxy are the ones given at construction, and the flag is the last one written |
| BackendProbe.GetAliveStatus | load_balancer_rr/internal/handlers/backend/backend_server_alive.go:53-57 | the fresh cell loads the given status |
| BackendProbe.IsServerAlive | load_balancer_rr/internal/handlers/backend/backend_server_alive.go:16-50 | the probe targets the backend URL followed by the health path, sends exactly one value on the channel, and that value is true exactly when the response status is 200; build and transport errors both send false |
| BackendProbe.OnlyStatusOkIsAlive | load_balancer_rr/internal/handlers/backend/backend_server_alive.go:42-49 | the probe reports alive exactly for status 200; any other 2xx status (201, 204, ...) reports dead |
| RoundRobinPool.Initialize | load_balancer_rr/internal/handlers/serverpool/round_robin/round_robin_pool.go:18-23 | the new pool is empty with the cursor at 0 |
| RoundRobinPool.GetServerPoolSize | load_balancer_rr/internal/handlers/serverpool/round_robin/round_robin_pool.go:63-68 | the size is the length of the list `ListServiceBackends` hands out, and 0 exactly for an empty pool |
| RoundRobinPool.ListServiceBackends | load_balancer_rr/internal/handlers/serverpool/round_robin/round_robin_pool.go:53-60 | the copy has the pool's size and the pool's entries in order |
| RoundRobinPool.RegisterServiceBackend | load_balancer_rr/internal/handlers/serverpool/round_robin/round_robin_pool.go:71-76 | appends at the end (duplicates allowed), keeps earlier entries and the cursor, size grows by one |
| RoundRobinPool.FirstIndex | load_balancer_rr/internal/handlers/serverpool/round_robin/round_robin_pool.go:83-84 | the position where the removal loop stops is the first entry equal to the backend |
| RoundRobinPool.RemoveBackend | load_balancer_rr/internal/handlers/serverpool/round_robin/round_robin_pool.go:79-89 | only the first identity-equal entry is spliced out, the rest keep their order, the multiset loses exactly one copy, an absent backend leaves the pool unchanged, and the cursor is not adjusted |
| RoundRobinPool.Rotate | load_balancer_rr/internal/handlers/serverpool/round_robin/round_robin_pool.go:39-50 | the cursor moves one step modulo the size and the entry returned is the one it now points at, always inside the pool |
| RoundRobinPool.Scan | load_balancer_rr/internal/handlers/serverpool/round_robin/round_robin_pool.go:28-35 | the loop stops at the first alive entry after the cursor, with every entry it rotated past dead; if none is alive it gives up after `size` rotations |
| RoundRobinPool.NextAvailableBackend | load_balancer_rr/internal/handlers/serverpool/round_robin/round_robin_pool.go:26-36 | at most `size` rotations; the pick is alive, is the entry at the new cursor, and every earlier slot in rotation order is dead; nil exactly when no entry is alive, and then the cursor has come full circle; an empty pool yields nil and is untouched |
| RoundRobinPool.SlotStep | load_balancer_rr/internal/handlers/serverpool/round_robin/round_robin_pool.go:44 | one rotation and then `j` more land where `j + 1` rotations do |
| RoundRobinPool.SlotCover | load_balancer_rr/internal/handlers/serverpool/round_robin/round_robin_pool.go:28-29 | every index is reached within `size` rotations from any cursor |
| RoundRobinPool.SlotFullCircle | load_balancer_rr/internal/handlers/serverpool/round_robin/round_robin_pool.go:28-29 | `size` rotations bring the cursor back to its normalised start |
| RoundRobinPool.SlotWrap | load_balancer_rr/internal/handlers/serverpool/round_robin/round_robin_pool.go:44 | `size` further rotations change nothing |
| RoundRobinPool.SlotDistinct | load_balancer_rr/internal/handlers/serverpool/round_robin/round_robin_pool.go:44 | fewer than `size` rotations apart never land on the same index |
| RoundRobinPool.DeadShift | load_balancer_rr/internal/handlers/serverpool/round_robin/round_robin_pool.go:28-34 | the dead entries skipped by the rest of the loop plus the one skipped now are all the entries skipped |
| RoundRobinPool.RegisterThenRemove | load_balancer_rr/internal/handlers/serverpool/round_robin/round_robin_pool.go:71-89 | registering a backend not in the pool and then removing it restores the pool exactly |
| RoundRobinPool.MembershipAfterRegisterAndRemove | load_balancer_rr/internal/handlers/serverpool/round_robin/round_robin_pool.go:71-89 | a registered backend is listed; removing the only copy unlists it |
| RoundRobinPool.RotateAfterRemoveStaysInRange | load_balancer_rr/internal/handlers/serverpool/round_robin/round_robin_pool.go:39-50 | a removal can leave the cursor past the end, yet the next rotation still returns a real entry |
| RoundRobinPool.CallsWhenAllAlive | load_balancer_rr/internal/handlers/serverpool/round_robin/round_robin_pool.go:26-50 | with every backend alive, the j-th consecutive call rotates once and picks the entry `j + 1` steps past the starting cursor |
| RoundRobinPool.FairnessNoRepeats | load_balancer_rr/internal/handlers/serverpool/round_robin/round_robin_pool.go:26-50 | with all backends alive, `size` consecutive calls each pick the entry at the cursor and never pick an index twice |
| RoundRobinPool.FairnessCoversPool | load_balancer_rr/internal/handlers/serverpool/round_robin/round_robin_pool.go:26-50 | with all backends alive, `size` consecutive calls pick every index of the pool |
| RoundRobinPool.FairnessWrapsAround | load_balancer_rr/internal/handlers/serverpool/round_robin/round_robin_pool.go:26-50 | with all backends alive, call `size + 1` picks the same backend as call 1 |
| ServerPool.NewServerPool | load_balancer_rr/internal/handlers/serverpool/server_pool.go:28-30 | never returns an error; the pool is empty and offers no backend, whatever the heap |
| ServerPool.RegisterAllAppends | load_balancer_rr/internal/handlers/serverpool/server_pool.go:17-18 | `m` registrations grow the pool by exactly `m` entries, in the order made, duplicates included, without moving the cursor |
| HealthCheck.StatusLabel | load_balancer_rr/internal/handlers/healthcheck/healthcheck.go:46-62 | a host is labelled "Unhealthy" exactly when its verdict is dead, and "Healthy" otherwise |
| HealthCheck.Visit | load_balancer_rr/internal/handlers/healthcheck/healthcheck.go:43-68 | the loop reaches every backend up to the first cancellation and no further; it logs one line per verdict and launches one probe per backend reached, the cancelled one included; the heap keeps its objects |
| HealthCheck.VisitLeavesOne | load_balancer_rr/internal/handlers/healthcheck/healthcheck.go:43-68 | a backend that is not visited from a position on keeps its record exactly |
| HealthCheck.VisitLastVerdictAt | load_balancer_rr/internal/handlers/healthcheck/healthcheck.go:57-58 | a backend whose last visit is at position `j` ends with the verdict received at `j` |
| HealthCheck.VisitKeepsUrl | load_balancer_rr/internal/handlers/healthcheck/healthcheck.go:49-58 | visiting never changes a URL or a proxy |
| HealthCheck.VisitLogAt | load_balancer_rr/internal/handlers/healthcheck/healthcheck.go:58-67 | the j-th log line carries the verdict and host of the j-th visited position |
| HealthCheck.VisitLaunchAt | load_balancer_rr/internal/handlers/healthcheck/healthcheck.go:43-49 | the j-th probe launched targets the URL of the j-th snapshot entry plus the health path |
| HealthCheck.HealthCheck | load_balancer_rr/internal/handlers/healthcheck/healthcheck.go:40-69 | one round over the snapshot: it ends at the first cancellation, or after the whole snapshot if there is none; it logs one line per verdict, launches one probe per backend reached, and keeps the heap's objects |
| HealthCheck.HealthCheckLeavesOthers | load_balancer_rr/internal/handlers/healthcheck/healthcheck.go:43-68 | backends the round does not reach, including those after a cancellation and those not in the pool, keep their records exactly |
| HealthCheck.HealthCheckLastVerdictWins | load_balancer_rr/internal/handlers/healthcheck/healthcheck.go:57-58 | every backend reached ends with the verdict of its last visit, so a backend listed twice keeps its later verdict |
| HealthCheck.HealthCheckKeepsUrls | load_balancer_rr/internal/handlers/healthcheck/healthcheck.go:58 | a round never changes a backend's URL or proxy |
| HealthCheck.HealthCheckLogsInOrder | load_balancer_rr/internal/handlers/healthcheck/healthcheck.go:46-67 | the log has one "host status" line per verdict, in snapshot order, labelled Unhealthy exactly when the verdict is dead |
| HealthCheck.HealthCheckLaunchesInOrder | load_balancer_rr/internal/handlers/healthcheck/healthcheck.go:43-49 | one probe per backend reached, in snapshot order, each aimed at that backend's URL plus the health path |
| HealthCheck.VisitedIgnoresFlags | load_balancer_rr/internal/handlers/healthcheck/healthcheck.go:51-55 | how far a round gets depends on the events alone, not on the flags it finds |
| HealthCheck.RoundIsIdempotent | load_balancer_rr/internal/handlers/healthcheck/healthcheck.go:43-68 | repeating a round with the same probe results leaves the heap as the first round left it |
| HealthCheck.LastIndexOf | load_balancer_rr/internal/handlers/healthcheck/healthcheck.go:43 | every backend reached has a last visit before the round stops |
| HealthCheck.DuplicateEntryLastResultWins | load_balancer_rr/internal/handlers/healthcheck/healthcheck.go:43-67 | a pool listing one backend twice that first answers 200 and then 500 ends dead, logged Healthy and then Unhealthy |
| LoadBalancer.NewLoadBalancer | load_balancer_rr/internal/handlers/load_balancer/load_balancer.go:33-37 | the balancer draws from the pool it was given: same entries, same cursor |
| LoadBalancer.ServeRequest | load_balancer_rr/internal/handlers/load_balancer/load_balancer.go:20-30 | the pool is asked once per request and its pick receives the request, no pick giving 503; so 503 "Service not available" exactly when no backend in the pool is alive, and otherwise the request goes unchanged through the proxy of a pool backend that is alive |
| LoadBalancer.ServeAllRoundRobin | load_balancer_rr/internal/handlers/load_balancer/load_balancer.go:20-30 | with all backends alive, consecutive requests go to consecutive pool entries after the starting cursor |
| LoadBalancer.ServeAllUnavailable | load_balancer_rr/internal/handlers/load_balancer/load_balancer.go:28-29 | with no backend alive, every request is refused with 503 |
| GameConfig.GetPort | game_app/internal/config/config.go:67-89 | without an argument after the program name, the configured port; otherwise the first argument's int64 value, or -1 when `Atoi` rejects it |
| GameConfig.GetPortReadsFirstArgument | game_app/internal/config/config.go:80-86 | a port written in decimal as the first argument is the port used, whatever follows it |
| GameConfig.GetPortIgnoresOtherArguments | game_app/internal/config/config.go:82 | only the first argument counts |
| GameConfig.GetPortRejectsNonNumeric | game_app/internal/config/config.go:82-86 | an argument with a non-digit past an optional sign yields -1 |
| GameConfig.GetPortDoesNotValidate | game_app/internal/config/config.go:82-88 | no range check: "0", "-5" and "70000" come back as is, and "-1" is indistinguishable from a malformed argument |
| Strconv.FormatDecimal | game_app/internal/config/config.go:82 | not a model of that line but the inverse used to state what `Atoi` reads there: a natural number is spelled with at least one digit and nothing but digits |
| Strconv.FormatDecimalValue | game_app/internal/config/config.go:82 | the inverse used to state what `Atoi` reads there: reading the digits `FormatDecimal` spells gives the number back |
| Strconv.Atoi | game_app/internal/config/config.go:82-86 | the accepted shapes are digits, "+" then digits and "-" then digits, each read as its value when that lies in int64 and a range error otherwise; every other string (empty, a lone sign, any other character) is a syntax error |
| Strconv.AtoiItoa | game_app/internal/config/config.go:82 | every int64 survives `Itoa` followed by `Atoi` |
| Strconv.AtoiRangeEdges | game_app/internal/config/config.go:82-86 | one past the int64 maximum is refused with or without "+", the int64 minimum is accepted while one below it is refused, and a lone sign is refused |
| Strconv.AtoiRejectsNonDigit | game_app/internal/config/config.go:82-86 | a character that is neither a digit nor a leading sign makes `Atoi` fail |
| PortUtils.PortError.Message | game_app/pkg/utils/utils.go:19-32 | the three texts word for word: "port must be between 1 and 65535", "port is already in use", and "failed to get occupied ports: " followed by the cause, verbatim |
| PortUtils.MessageIdentifiesError | game_app/pkg/utils/utils.go:19-32 | two errors have the same text exactly when they are the same error, so the text tells the three cases apart and gives back the cause |
| PortUtils.DigitRun | game_app/pkg/utils/utils.go:47 | the run of `\d` at a position is maximal: all digits, followed by a non-digit or the end |
| PortUtils.MatchAt | game_app/pkg/utils/utils.go:47 | a match starts with a colon and a digit and has at least one more character after them; the full pattern is stated by `MatchAtIsPattern` |
| PortUtils.MatchAtIsPattern | game_app/pkg/utils/utils.go:47 | `MatchAt` is exactly `:(\d+)\s` at that position: a colon, then digits up to some position holding a space character, whichever run length the matcher backtracks to |
| PortUtils.Submatch | game_app/pkg/utils/utils.go:47-48 | the capture group of a match is a non-empty digit string |
| PortUtils.MatchEnd | game_app/pkg/utils/utils.go:48 | a match consumes at least its colon and stays within the text |
| PortUtils.SkipNonColons | game_app/pkg/utils/utils.go:47 | positions without a colon never start a match |
| PortUtils.FindAll | game_app/pkg/utils/utils.go:48 | every capture group found is a non-empty digit string |
| PortUtils.FindAllIsEveryMatch | game_app/pkg/utils/utils.go:47-48 | the left-to-right scan for non-overlapping matches finds exactly the matches at every position, in order |
| PortUtils.MatchesFromSound | game_app/pkg/utils/utils.go:47-48 | every capture group listed comes from a position where the pattern matches |
| PortUtils.MatchIsListed | game_app/pkg/utils/utils.go:47-48 | every position where the pattern matches contributes its capture group |
| PortUtils.DigitRunOf | game_app/pkg/utils/utils.go:47 | a digit string followed by a non-digit is a run of exactly its length |
| PortUtils.ParsePorts | game_app/pkg/utils/utils.go:50-59 | at most one port per capture group |
| PortUtils.Accepted | game_app/pkg/utils/utils.go:54-57 | one iteration adds at most one port, and adds none exactly when `Atoi` rejects the capture |
| PortUtils.ParsePortsMembers | game_app/pkg/utils/utils.go:50-59 | a value is among the ports exactly when `Atoi` reads it from some capture group: rejected captures are skipped and nothing else is added |
| PortUtils.ParsePortsAppend | game_app/pkg/utils/utils.go:50-59 | the loop keeps the order of the captures: the ports of a concatenation are the concatenated ports |
| PortUtils.ParsePortsKeeps | game_app/pkg/utils/utils.go:50-59 | every capture `Atoi` accepts shows up among the ports |
| PortUtils.ParsedPortsInRange | game_app/pkg/utils/utils.go:53-56 | ports parsed from digit strings are between 0 and the int64 maximum |
| PortUtils.MatchesAreDigits | game_app/pkg/utils/utils.go:47-48 | every capture group is a digit string |
| PortUtils.GetOccupiedPorts | game_app/pkg/utils/utils.go:38-62 | the result is an error exactly when `lsof` failed, and the error is `lsof`'s own |
| PortUtils.OccupiedPortsAreMatches | game_app/pkg/utils/utils.go:38-62 | a value is among the occupied ports exactly when `Atoi` reads it from the capture of a match somewhere in `lsof`'s output: no port is invented and none is missed |
| PortUtils.OccupiedPortsInRange | game_app/pkg/utils/utils.go:38-62 | whatever `lsof` prints, the ports found are between 0 and the int64 maximum |
| PortUtils.ListedPortIsOccupied | game_app/pkg/utils/utils.go:38-62 | a port printed as ":port" followed by a space character is among the occupied ports, wherever it stands |
| PortUtils.ValidatePort | game_app/pkg/utils/utils.go:17-35 | a port outside 1..65535 is refused before `lsof` is consulted; then a failed lookup is reported with its cause; then an occupied port is refused as in use; anything else is accepted |

## Left out

- Locks and atomics. The `sync.RWMutex` and the atomic cursor are left out; every pool operation is a pure function from one pool value to the next, so interleavings of concurrent calls are not modelled.
- The cursor's width. `Current` is an `int32` and `GetServerPoolSize` returns `int32(len(...))` in the source. The model uses unbounded naturals, so it does not reproduce the truncated size, which goes wrong from 2^31 entries on.
- RoundRobinPool.Rotate: requires a non-empty pool. On an empty pool the source divides by zero and panics. Its only caller, `NextAvailableBackend`, never rotates an empty pool.
- LoadBalancer.NewLoadBalancer: the balancer holds the pool as a value. In the source the balancer, the health check and the start-up registrations share one pool object. The balancer is built before the backends are registered, and it still sees them. In the model, the caller passes the balancer the current pool.
- The `ServerPool` and `Backend` interfaces. Interfaces are not used in this model; the round-robin pool's functions and the backend record stand for them.
- `PerformHealthCheck`. The ticker loop that starts a round every interval and stops on cancellation is left out, because it only schedules rounds.
- The probe's HTTP client. The client, its timeout and the per-backend context are outside the model. The outcome of each probe is an input.
- Timing in the health round. A `select` that sees both cancellation and a verdict is modelled by the single event given for that backend.
- HealthCheck.HealthCheck: requires one event per snapshot entry. Events past the first cancellation are never looked at.
- The probe that keeps running after cancellation. It is recorded in `launched` but its result is dropped, since the round has returned.
- The logger. Log lines are modelled as a sequence of (status, host) entries; logger configuration and the "Gracefully shutting down" message are left out.
- `http.Error`'s response formatting. The 503 reply keeps only its status code and message.
- The reverse proxy's behaviour. `Serve` records which proxy receives the request, not what the proxy does with it.
- The game app's `init`. Reading and validating the configuration file at start-up is left out; `GetPort` receives the configured port as a parameter.
- GameConfig.GetPort: the console message printed when no argument is given is not modelled.
- PortUtils.GetOccupiedPorts: running `lsof` is a parameter. Its output is taken as text and its failure as an error string.
- PortUtils.MinPort: declared in the source but used by no check. It is kept as a constant only.
- Strconv.Atoi: the model follows the documented behaviour of Go's `strconv.Atoi` for base-10 input on a 64-bit platform, with `int` as int64. The kind of error (syntax or range) and its message are not kept: both are `None`.
- The game app's HTTP handlers and routes, the load balancer's own configuration and server start-up, and the test script are outside the core.
- Tests that expect 502. The load balancer's tests expect 502 Bad Gateway even when no backend is available. Their mock pool always returns a backend pointing nowhere, so the 503 branch is never reached there. The model follows the code, which answers 503.
