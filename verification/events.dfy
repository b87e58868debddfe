/** The row records the dashboard works on: one observation of one region,
    and the same observation with its derived composite score attached. */
module Events {
  import opened Wrappers

  /** One row of the dataset. The timestamp is in minutes and is `None` when
      the source text could not be parsed as a date. */
  datatype Event = Event(
    timestamp: Option<int>,
    region: string,
    lat: real,
    lon: real,
    riskScore: real,
    activityIndex: real,
    supplyPressure: real,
    moraleIndex: real)

  /** A row after scoring: the original row plus the `composite` column. */
  datatype Scored = Scored(event: Event, composite: real)

  /** Projection that drops the `composite` column again. */
  function Unscore(rows: seq<Scored>): (r: seq<Event>)
    ensures |r| == |rows|
    ensures forall i :: 0 <= i < |r| ==> r[i] == rows[i].event
  {
    if rows == [] then [] else [rows[0].event] + Unscore(rows[1..])
  }
}
