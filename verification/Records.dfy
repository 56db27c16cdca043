/** Values shared by the detection, storage and export models. */
module Records {

  datatype Option<+T> = None | Some(value: T) {
    function GetOr(default: T): T {
      if Some? then value else default
    }
  }

  datatype Result<+T, +E> = Ok(value: T) | Err(error: E)

  /** Event time in microseconds; the source keeps seconds as floats. */
  type Time = real

  datatype Evidence = Evidence(name: string, observed: int)

  /** A detector finding. Narrative limitations and provenance text are not modelled. */
  datatype Alert = Alert(
    alertId: string, detectorId: string, threatType: string, subtype: string,
    confidence: real, severity: string, windowStart: Time, windowEnd: Time,
    srcIp: string, dstIp: Option<string>, flowIds: seq<string>, evidence: seq<Evidence>)

  /** The text of a window start printed with six decimals: its sign and its whole microseconds. */
  datatype StartText = StartText(negative: bool, micros: nat)

  /** The digest of `source|start`; equal digests mean equal texts. */
  datatype IncidentId = IncidentId(source: string, start: StartText)

  datatype Incident = Incident(
    incidentId: IncidentId, srcIp: string, firstSeen: Time, lastSeen: Time,
    alertIds: seq<string>, detectorIds: set<string>, threatTypes: set<string>,
    confidence: real, riskScore: int, severity: string, status: string)

  function Ids(alerts: seq<Alert>): (ids: seq<string>)
    ensures |ids| == |alerts|
    ensures forall i :: 0 <= i < |alerts| ==> ids[i] == alerts[i].alertId
  {
    seq(|alerts|, i requires 0 <= i < |alerts| => alerts[i].alertId)
  }

  ghost predicate NoDuplicates<T(!new)>(s: seq<T>) {
    forall i, j :: 0 <= i < j < |s| ==> s[i] != s[j]
  }

  function Max(a: real, b: real): real {
    if a < b then b else a
  }

  function Min(a: real, b: real): real {
    if b < a then b else a
  }

  /** Python's round(): to the nearest integer, halves to the even one. */
  function RoundHalfEven(x: real): int {
    var low := x.Floor;
    var rest := x - low as real;
    if rest < 0.5 || (rest == 0.5 && low % 2 == 0) then low else low + 1
  }

  /** The one integer within a half, and of two the even one. */
  lemma RoundIsNearestEven(x: real, n: int)
    ensures n == RoundHalfEven(x) <==> -0.5 <= n as real - x <= 0.5 && (n as real - x == 0.5 || n as real - x == -0.5 ==> n % 2 == 0)
  {
    var low := x.Floor;
    if -0.5 <= n as real - x <= 0.5 {
      assert n == low || n == low + 1;
    }
  }

  lemma RoundIsNear(x: real)
    ensures -0.5 <= RoundHalfEven(x) as real - x <= 0.5
  {
  }

  lemma RoundKeepsBounds(x: real, low: int, high: int)
    requires low as real <= x <= high as real
    ensures low <= RoundHalfEven(x) <= high
  {
  }
}
