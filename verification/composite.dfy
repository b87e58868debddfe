/** The composite risk score: a fixed-weight linear combination of the four
    indicators, clipped to the range 0..100. */
module Composite {
  import opened Events

  const RiskWeight: real := 0.45
  const InfraWeight: real := 0.25
  const SupplyWeight: real := 0.20
  const EnvWeight: real := 0.10

  /** Clip `x` into `[lo, hi]` (numpy's `clip`). */
  function Clip(x: real, lo: real, hi: real): (r: real)
    requires lo <= hi
    ensures lo <= r <= hi
    ensures lo <= x <= hi ==> r == x
    ensures x < lo ==> r == lo
    ensures hi < x ==> r == hi
  {
    if x < lo then lo else if hi < x then hi else x
  }

  /** Infrastructure stress term, `100 - 0.6 * supply_pressure`. */
  function Infra(e: Event): real
  {
    100.0 - e.supplyPressure * 0.6
  }

  /** Environmental term, `100 - morale_index` clipped to 0..100 on its own. */
  function Env(e: Event): (r: real)
    ensures 0.0 <= r <= 100.0
    ensures 0.0 <= e.moraleIndex <= 100.0 ==> r == 100.0 - e.moraleIndex
    ensures e.moraleIndex > 100.0 ==> r == 0.0
    ensures e.moraleIndex < 0.0 ==> r == 100.0
  {
    Clip(100.0 - e.moraleIndex, 0.0, 100.0)
  }

  /** The weighted sum before the final clip. */
  function RawComposite(e: Event): real
  {
    RiskWeight * e.riskScore + InfraWeight * Infra(e)
      + SupplyWeight * e.supplyPressure + EnvWeight * Env(e)
  }

  /** The composite score of one row: always within 0..100, whatever the
      indicator values, and equal to the weighted sum whenever that sum is
      already in range. */
  function CompositeScore(e: Event): (r: real)
    ensures 0.0 <= r <= 100.0
    ensures 0.0 <= RawComposite(e) <= 100.0 ==> r == RawComposite(e)
    ensures RawComposite(e) > 100.0 ==> r == 100.0
    ensures RawComposite(e) < 0.0 ==> r == 0.0
  {
    Clip(RawComposite(e), 0.0, 100.0)
  }

  /** Adds the `composite` column to every row. An empty frame stays empty;
      otherwise the rows, their order and their other columns are kept. */
  function ScoreRows(rows: seq<Event>): (r: seq<Scored>)
    ensures |r| == |rows|
    ensures forall i :: 0 <= i < |r| ==>
      r[i].event == rows[i] && 0.0 <= r[i].composite <= 100.0
    ensures forall i :: 0 <= i < |r| ==> r[i] == Scored(rows[i], CompositeScore(rows[i]))
  {
    if rows == [] then []
    else [Scored(rows[0], CompositeScore(rows[0]))] + ScoreRows(rows[1..])
  }

  /** Dropping the added column recovers the input exactly. */
  lemma ScoreThenUnscore(rows: seq<Event>)
    ensures Unscore(ScoreRows(rows)) == rows
  {
    var r := Unscore(ScoreRows(rows));
    assert forall i :: 0 <= i < |r| ==> r[i] == rows[i];
  }

  /** Scoring is row-wise: it distributes over concatenation. */
  lemma {:induction false} ScoreRowsAppend(a: seq<Event>, b: seq<Event>)
    ensures ScoreRows(a + b) == ScoreRows(a) + ScoreRows(b)
  {
    if a == [] {
      assert a + b == b;
    } else {
      assert (a + b)[1..] == a[1..] + b;
      ScoreRowsAppend(a[1..], b);
    }
  }

  /** With no supply pressure and full morale, the composite reduces to
      `clip(0.45 * risk + 25, 0, 100)`. */
  lemma NoPressureFullMorale(e: Event)
    requires e.supplyPressure == 0.0 && e.moraleIndex == 100.0
    ensures CompositeScore(e) == Clip(0.45 * e.riskScore + 25.0, 0.0, 100.0)
  {
  }

  /** For indicators in their nominal range 0..100 the clip never acts: the
      weighted sum already lies in [25, 85]. */
  lemma NominalRange(e: Event)
    requires 0.0 <= e.riskScore <= 100.0
    requires 0.0 <= e.supplyPressure <= 100.0
    requires 0.0 <= e.moraleIndex <= 100.0
    ensures 25.0 <= RawComposite(e) <= 85.0
    ensures CompositeScore(e) == RawComposite(e)
  {
  }
}
