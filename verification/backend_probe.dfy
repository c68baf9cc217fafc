/**
 The liveness probe of a backend (package `backend`, file
 backend_server_alive.go). The HTTP round trip is outside the model: its
 outcome is an input, and the probe turns it into exactly one alive/dead
 value sent on the result channel.
 */
module BackendProbe {
  import opened Backend

  const StatusOK: int := 200

  /** What the HTTP client reported for one probe. */
  datatype ProbeOutcome =
    | BuildError             // http.NewRequestWithContext failed
    | TransportError         // client.Do failed, timeouts included
    | Status(code: int)      // a response arrived with this status code

  /** One run of `IsServerAlive`: the URL it targeted and what it put on the channel. */
  datatype ProbeRun = ProbeRun(target: string, sent: seq<AtomicBool>)

  /** `getAliveStatus`: a fresh atomic cell holding `status`. */
  function GetAliveStatus(status: bool): (r: AtomicBool)
    ensures r.Load() == status
  {
    AtomicBool(status)
  }

  /** The probe target: the backend URL's string form followed by the health path. */
  function ProbeUrl(base: string, healthPath: string): (u: string)
  {
    base + healthPath
  }

  /** The alive/dead verdict of a probe outcome: only status 200 counts as alive. */
  predicate Verdict(outcome: ProbeOutcome) {
    outcome.Status? && outcome.code == StatusOK
  }

  /**
   `IsServerAlive`: every run sends exactly one value, and that value is
   true exactly when the backend answered with status 200.
   */
  function IsServerAlive(url: string, healthPath: string, outcome: ProbeOutcome): (r: ProbeRun)
    ensures r.target == url + healthPath
    ensures |r.sent| == 1
    ensures r.sent[0].Load() <==> outcome == Status(200)
  {
    var urlString := ProbeUrl(url, healthPath);
    match outcome
    case BuildError => ProbeRun(urlString, [GetAliveStatus(false)])
    case TransportError => ProbeRun(urlString, [GetAliveStatus(false)])
    case Status(code) =>
      var aliveStatus := code == StatusOK;
      ProbeRun(urlString, [GetAliveStatus(aliveStatus)])
  }

  /** Success statuses other than 200 (201, 204, ...) still mark the backend dead. */
  lemma OnlyStatusOkIsAlive(url: string, healthPath: string, code: int)
    ensures IsServerAlive(url, healthPath, Status(code)).sent[0].Load() <==> code == 200
    ensures 200 <= code < 300 && code != 200 ==> !Verdict(Status(code))
  {
  }
}
