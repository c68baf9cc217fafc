/**
 The game server's port checks (package `utils` of the game app, file
 utils.go): the range check, and the "already in use" check against the
 ports `lsof -iTCP -sTCP:LISTEN -n -P` lists as listening.

 Running `lsof` is outside the model: its output, or the error it failed
 with, is a parameter. The ports are found in that output with the regular
 expression `:(\d+)\s` (Go's RE2 syntax: `\d` is an ASCII digit, `\s` one
 of tab, newline, form feed, carriage return and space), scanned left to
 right for non-overlapping matches.
 */
module PortUtils {
  import opened Options
  import opened Strconv

  /** Declared next to `MaxPort`; no check uses it (the range check starts at 1). */
  const MinPort: int := 0
  const MaxPort: int := 65535

  /** The three errors `ValidatePort` can return. */
  datatype PortError = OutOfRange | InUse | LookupFailed(cause: string) {
    /** The error's text; a lookup failure carries the cause after a fixed prefix. */
    function Message(): (m: string)
      ensures OutOfRange? ==> m == "port must be between 1 and 65535"
      ensures InUse? ==> m == "port is already in use"
      ensures LookupFailed? ==> |m| == |LookupPrefix| + |cause|
      ensures LookupFailed? ==> m[..|LookupPrefix|] == "failed to get occupied ports: " && m[|LookupPrefix|..] == cause
    {
      match this
      case OutOfRange => "port must be between 1 and 65535"
      case InUse => "port is already in use"
      case LookupFailed(cause) => LookupPrefix + cause
    }
  }

  /** What `ValidatePort` puts before the cause of a failed lookup. */
  const LookupPrefix: string := "failed to get occupied ports: "

  /** The text tells the errors apart, and a lookup failure's text gives back its cause. */
  lemma MessageIdentifiesError(e1: PortError, e2: PortError)
    ensures e1.Message() == e2.Message() <==> e1 == e2
  {
    var m1, m2 := e1.Message(), e2.Message();
    if e1.LookupFailed? && e2.LookupFailed? {
      assert m1 == m2 ==> e1.cause == m1[|LookupPrefix|..] == e2.cause;
    } else if e1.LookupFailed? != e2.LookupFailed? {
      assert (m1[0] == 'f') != (m2[0] == 'f');
    } else if e1 != e2 {
      assert (m1[5] == 'm') != (m2[5] == 'm');
    }
  }

  // ---------------------------------------------------------------------
  // The pattern `:(\d+)\s`
  // ---------------------------------------------------------------------

  /** RE2's `\s`. */
  predicate IsSpace(c: char) {
    c == ' ' || c == '\t' || c == '\n' || c == '\r' || c as int == 0x0C
  }

  /** The length of the run of digits starting at `from`. */
  function DigitRun(s: string, from: nat): (n: nat)
    requires from <= |s|
    ensures from + n <= |s|
    ensures forall k | from <= k < from + n :: IsDigit(s[k])
    ensures from + n < |s| ==> !IsDigit(s[from + n])
    decreases |s| - from
  {
    if from < |s| && IsDigit(s[from]) then 1 + DigitRun(s, from + 1) else 0
  }

  /**
   The pattern matches at position `i`. The digit run must be maximal: a
   shorter one would end before a digit, which is not a space, so
   backtracking never finds another match at the same position.
   */
  predicate MatchAt(s: string, i: nat)
    requires i < |s|
    ensures MatchAt(s, i) ==> s[i] == ':' && i + 2 < |s| && IsDigit(s[i + 1])
  {
    var n := DigitRun(s, i + 1);
    s[i] == ':' && n > 0 && i + 1 + n < |s| && IsSpace(s[i + 1 + n])
  }

  /**
   `MatchAt` is the pattern itself, backtracking included: a colon, at least
   one digit, then a space character, for some end position of the digits.
   */
  lemma MatchAtIsPattern(s: string, i: nat)
    requires i < |s|
    ensures MatchAt(s, i) <==>
              s[i] == ':' &&
              exists e | i + 1 < e < |s| :: IsSpace(s[e]) && forall k | i + 1 <= k < e :: IsDigit(s[k])
  {
    var n := DigitRun(s, i + 1);
    if MatchAt(s, i) {
      assert IsSpace(s[i + 1 + n]);
    }
    if s[i] == ':' && exists e | i + 1 < e < |s| :: IsSpace(s[e]) && forall k | i + 1 <= k < e :: IsDigit(s[k]) {
      var e :| i + 1 < e < |s| && IsSpace(s[e]) && forall k | i + 1 <= k < e :: IsDigit(s[k]);
      DigitRunOf(s, i + 1, e - (i + 1));
    }
  }

  /** The capture group of the match at `i`: its digits. */
  function Submatch(s: string, i: nat): (digits: string)
    requires i < |s| && MatchAt(s, i)
    ensures |digits| > 0 && AllDigits(digits)
  {
    s[i + 1 .. i + 1 + DigitRun(s, i + 1)]
  }

  /** Where the match at `i` ends: past the colon, the digits and the space. */
  function MatchEnd(s: string, i: nat): (e: nat)
    requires i < |s| && MatchAt(s, i)
    ensures i < e <= |s|
  {
    i + 2 + DigitRun(s, i + 1)
  }

  /**
   `FindAllStringSubmatch(s, -1)`, keeping the capture groups: look for the
   leftmost match from `from` on, take it, and carry on from its end.
   */
  function FindAll(s: string, from: nat): (groups: seq<string>)
    requires from <= |s|
    ensures forall j | 0 <= j < |groups| :: |groups[j]| > 0 && AllDigits(groups[j])
    decreases |s| - from
  {
    if from == |s| then []
    else if MatchAt(s, from) then [Submatch(s, from)] + FindAll(s, MatchEnd(s, from))
    else FindAll(s, from + 1)
  }

  /** The reference: the capture group of every position where the pattern matches, in order. */
  function MatchesFrom(s: string, from: nat): (groups: seq<string>)
    requires from <= |s|
    decreases |s| - from
  {
    if from == |s| then []
    else (if MatchAt(s, from) then [Submatch(s, from)] else []) + MatchesFrom(s, from + 1)
  }

  /** Positions holding no colon contribute no match. */
  lemma {:induction false} SkipNonColons(s: string, k: nat, e: nat)
    requires k <= e <= |s|
    requires forall m | k <= m < e :: s[m] != ':'
    ensures MatchesFrom(s, k) == MatchesFrom(s, e)
    decreases e - k
  {
    if k < e {
      SkipNonColons(s, k + 1, e);
    }
  }

  /**
   Matches never overlap (a match holds only one colon, its first
   character), so the left-to-right scan finds the pattern at every
   position where it matches, and nowhere else.
   */
  lemma {:induction false} FindAllIsEveryMatch(s: string, from: nat)
    requires from <= |s|
    ensures FindAll(s, from) == MatchesFrom(s, from)
    decreases |s| - from
  {
    if from < |s| {
      if MatchAt(s, from) {
        var e := MatchEnd(s, from);
        FindAllIsEveryMatch(s, e);
        SkipNonColons(s, from + 1, e);
      } else {
        FindAllIsEveryMatch(s, from + 1);
      }
    }
  }

  /** The match at position `i` is among the matches from any earlier position. */
  lemma {:induction false} MatchIsListed(s: string, from: nat, i: nat)
    requires from <= i < |s| && MatchAt(s, i)
    ensures Submatch(s, i) in MatchesFrom(s, from)
    decreases i - from
  {
    if from < i {
      MatchIsListed(s, from + 1, i);
    }
  }

  /** Every capture of the reference comes from a position where the pattern matches. */
  lemma {:induction false} MatchesFromSound(s: string, from: nat, g: string)
    requires from <= |s| && g in MatchesFrom(s, from)
    ensures exists i | from <= i < |s| :: MatchAt(s, i) && Submatch(s, i) == g
    decreases |s| - from
  {
    if !(MatchAt(s, from) && Submatch(s, from) == g) {
      MatchesFromSound(s, from + 1, g);
    }
  }

  /** A digit string followed by a non-digit, or by the end, is a run of exactly its length. */
  lemma {:induction false} DigitRunOf(s: string, from: nat, n: nat)
    requires from + n <= |s|
    requires forall k | from <= k < from + n :: IsDigit(s[k])
    requires from + n == |s| || !IsDigit(s[from + n])
    ensures DigitRun(s, from) == n
    decreases n
  {
    if n > 0 {
      DigitRunOf(s, from + 1, n - 1);
    }
  }

  // ---------------------------------------------------------------------
  // getOccupiedPorts and ValidatePort
  // ---------------------------------------------------------------------

  /** The loop over the matches: each capture group that `Atoi` accepts, in order. */
  function ParsePorts(groups: seq<string>): (ports: seq<int>)
    ensures |ports| <= |groups|
    decreases |groups|
  {
    if |groups| == 0 then []
    else
      Accepted(groups[0]) + ParsePorts(groups[1..])
  }

  /** One iteration of the loop: the port read from a capture, or nothing when `Atoi` fails. */
  function Accepted(g: string): (ports: seq<int>)
    ensures |ports| <= 1
    ensures ports == [] <==> Atoi(g).None?
  {
    match Atoi(g)
    case Some(port) => [port]
    case None => []
  }

  /** `getOccupiedPorts`: the error of `lsof` is passed on; otherwise the ports in its output. */
  function GetOccupiedPorts(lsof: Result<string, string>): (r: Result<seq<int>, string>)
    ensures lsof.Err? <==> r.Err?
    ensures lsof.Err? ==> r.error == lsof.error
  {
    match lsof
    case Err(e) => Err(e)
    case Ok(out) => Ok(ParsePorts(FindAll(out, 0)))
  }

  /**
   A value is among the parsed ports exactly when `Atoi` reads it from one of
   the captures: rejected captures are skipped and nothing else is added.
   */
  lemma {:induction false} ParsePortsMembers(groups: seq<string>, port: int)
    ensures port in ParsePorts(groups) <==> exists g | g in groups :: Atoi(g) == Some(port)
    decreases |groups|
  {
    if |groups| > 0 {
      ParsePortsMembers(groups[1..], port);
      if exists g | g in groups[1..] :: Atoi(g) == Some(port) {
        var g :| g in groups[1..] && Atoi(g) == Some(port);
        assert g in groups;
      }
      if exists g | g in groups :: Atoi(g) == Some(port) {
        var g :| g in groups && Atoi(g) == Some(port);
        if g != groups[0] {
          assert g in groups[1..];
        }
      }
    }
  }

  /** The loop keeps the order of the captures: parsing a concatenation concatenates the results. */
  lemma {:induction false} ParsePortsAppend(a: seq<string>, b: seq<string>)
    ensures ParsePorts(a + b) == ParsePorts(a) + ParsePorts(b)
    decreases |a|
  {
    if |a| == 0 {
      assert a + b == b;
    } else {
      var rest := a[1..];
      assert ParsePorts(a + b) == Accepted(a[0]) + ParsePorts(rest + b) by {
        assert (a + b)[0] == a[0] && (a + b)[1..] == rest + b;
      }
      ParsePortsAppend(rest, b);
    }
  }

  /** Every capture group that `Atoi` accepts shows up among the parsed ports. */
  lemma {:induction false} ParsePortsKeeps(groups: seq<string>, g: string)
    requires g in groups && Atoi(g).Some?
    ensures Atoi(g).value in ParsePorts(groups)
    decreases |groups|
  {
    if groups[0] != g {
      ParsePortsKeeps(groups[1..], g);
    }
  }

  /** Capture groups are digits only, so every parsed port is a value from 0 to the int64 maximum. */
  lemma {:induction false} ParsedPortsInRange(groups: seq<string>)
    requires forall j | 0 <= j < |groups| :: AllDigits(groups[j])
    ensures forall p | p in ParsePorts(groups) :: 0 <= p <= MaxInt64
    decreases |groups|
  {
    if |groups| > 0 {
      ParsedPortsInRange(groups[1..]);
      if Atoi(groups[0]).Some? {
        assert Atoi(groups[0]).value == DecimalValue(groups[0]);
      }
    }
  }

  /** The capture groups of the reference are digit strings. */
  lemma {:induction false} MatchesAreDigits(s: string, from: nat)
    requires from <= |s|
    ensures forall j | 0 <= j < |MatchesFrom(s, from)| :: AllDigits(MatchesFrom(s, from)[j])
    decreases |s| - from
  {
    if from < |s| {
      MatchesAreDigits(s, from + 1);
      var rest := MatchesFrom(s, from + 1);
      var all := MatchesFrom(s, from);
      forall j | 0 <= j < |all|
        ensures AllDigits(all[j])
      {
        if MatchAt(s, from) && j > 0 {
          assert all[j] == rest[j - 1];
        }
      }
    }
  }

  /** Whatever `lsof` prints, the ports found are between 0 and the int64 maximum. */
  lemma OccupiedPortsInRange(out: string)
    ensures forall p | p in GetOccupiedPorts(Ok(out)).value :: 0 <= p <= MaxInt64
  {
    FindAllIsEveryMatch(out, 0);
    MatchesAreDigits(out, 0);
    ParsedPortsInRange(FindAll(out, 0));
  }

  /**
   The ports found are exactly the values `Atoi` reads from the capture of
   some match in the output: none is invented, and none is missed.
   */
  lemma OccupiedPortsAreMatches(out: string, port: int)
    ensures port in GetOccupiedPorts(Ok(out)).value <==>
              exists i | 0 <= i < |out| :: MatchAt(out, i) && Atoi(Submatch(out, i)) == Some(port)
  {
    FindAllIsEveryMatch(out, 0);
    var groups := MatchesFrom(out, 0);
    ParsePortsMembers(groups, port);
    if port in GetOccupiedPorts(Ok(out)).value {
      var g :| g in groups && Atoi(g) == Some(port);
      MatchesFromSound(out, 0, g);
    }
    if exists i | 0 <= i < |out| :: MatchAt(out, i) && Atoi(Submatch(out, i)) == Some(port) {
      var i :| 0 <= i < |out| && MatchAt(out, i) && Atoi(Submatch(out, i)) == Some(port);
      MatchIsListed(out, 0, i);
    }
  }

  /**
   A port that `lsof` prints as ":<port>" followed by a space character is
   among the occupied ports, wherever it stands in the output.
   */
  lemma ListedPortIsOccupied(before: string, port: nat, space: char, after: string)
    requires IsSpace(space) && port <= MaxInt64
    ensures port in GetOccupiedPorts(Ok(before + ":" + FormatDecimal(port) + [space] + after)).value
  {
    var digits := FormatDecimal(port);
    var out := before + ":" + digits + [space] + after;
    var i := |before|;
    assert out[i] == ':';
    assert out[i + 1 .. i + 1 + |digits|] == digits;
    assert out[i + 1 + |digits|] == space;
    forall k | i + 1 <= k < i + 1 + |digits|
      ensures IsDigit(out[k])
    {
      assert out[k] == digits[k - (i + 1)];
    }
    DigitRunOf(out, i + 1, |digits|);
    assert MatchAt(out, i);
    assert Submatch(out, i) == digits;
    MatchIsListed(out, 0, i);
    FindAllIsEveryMatch(out, 0);
    FormatDecimalValue(port);
    ParsePortsKeeps(FindAll(out, 0), digits);
  }

  /**
   `ValidatePort`: out of 1..65535 is refused first, without consulting
   `lsof`; then a failed lookup is reported with its cause; then a port
   among the occupied ones is refused; anything else is accepted.
   */
  method ValidatePort(port: int, lsof: Result<string, string>) returns (err: Option<PortError>)
    ensures (port < 1 || port > 65535) ==> err == Some(OutOfRange)
    ensures 1 <= port <= 65535 && lsof.Err? ==> err == Some(LookupFailed(lsof.error))
    ensures 1 <= port <= 65535 && lsof.Ok? ==>
              (err == Some(InUse) <==> port in GetOccupiedPorts(lsof).value)
    ensures err.None? <==> 1 <= port <= 65535 && lsof.Ok? && port !in GetOccupiedPorts(lsof).value
  {
    if port < 1 || port > 65535 {
      return Some(OutOfRange);
    }
    var occupied := GetOccupiedPorts(lsof);
    if occupied.Err? {
      return Some(LookupFailed(occupied.error));
    }
    var occupiedPorts := occupied.value;
    for i := 0 to |occupiedPorts|
      invariant port !in occupiedPorts[..i]
    {
      if port == occupiedPorts[i] {
        return Some(InUse);
      }
    }
    assert occupiedPorts[..|occupiedPorts|] == occupiedPorts;
    return None;
  }
}
