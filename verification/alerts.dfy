/** The alert detector: the latest few scored window rows whose composite or
    raw risk crosses its threshold. */
module Alerts {
  import opened Events
  import opened Seqs

  /** Thresholds are strict: a row at exactly a threshold does not alert. */
  const CompositeThreshold: real := 75.0
  const RiskThreshold: real := 80.0
  /** At most this many alerts are shown. */
  const MaxAlerts: nat := 5

  predicate IsAlert(x: Scored)
  {
    x.composite > CompositeThreshold || x.event.riskScore > RiskThreshold
  }

  /** The last `MaxAlerts` qualifying rows of the window, in window order. */
  function DetectAlerts(window: seq<Scored>): (r: seq<Scored>)
    ensures |r| <= MaxAlerts
    ensures forall i :: 0 <= i < |r| ==> IsAlert(r[i]) && r[i] in window
    ensures |r| == if |Filter(window, IsAlert)| < MaxAlerts then |Filter(window, IsAlert)| else MaxAlerts
    ensures r == Filter(window, IsAlert)[|Filter(window, IsAlert)| - |r|..]
  {
    var qualifying := Filter(window, IsAlert);
    var r := Tail(qualifying, MaxAlerts);
    assert forall i :: 0 <= i < |r| ==> r[i] == qualifying[|qualifying| - |r| + i];
    r
  }

  /** With at most `MaxAlerts` qualifying rows, every one of them is shown. */
  lemma FewAlertsAllShown(window: seq<Scored>)
    requires |Filter(window, IsAlert)| <= MaxAlerts
    ensures DetectAlerts(window) == Filter(window, IsAlert)
  {
  }

  /** Only the newest rows decide the alerts: once the later part `b` of a
      window holds `MaxAlerts` qualifying rows, nothing earlier shows. */
  lemma NewestAlertsWin(a: seq<Scored>, b: seq<Scored>)
    requires |Filter(b, IsAlert)| >= MaxAlerts
    ensures DetectAlerts(a + b) == DetectAlerts(b)
  {
    FilterAppend(a, b, IsAlert);
    TailAppend(Filter(a, IsAlert), Filter(b, IsAlert), MaxAlerts);
  }

  /** The strict thresholds on the documented boundary cases. */
  lemma ThresholdExamples(e: Event)
    ensures e.riskScore == 50.0 ==> IsAlert(Scored(e, 76.0))
    ensures e.riskScore == 81.0 ==> IsAlert(Scored(e, 74.0))
    ensures e.riskScore == 79.0 ==> !IsAlert(Scored(e, 74.0))
    ensures e.riskScore == 80.0 ==> !IsAlert(Scored(e, 75.0))
  {
  }
}
