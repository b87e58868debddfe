/** The load-time ordering of the dataset: ascending by timestamp, with rows
    whose timestamp could not be parsed placed after every dated row. */
module Ordering {
  import opened Wrappers
  import opened Events

  /** Timestamp order with missing timestamps last: any date precedes a
      missing one, and two missing timestamps tie. */
  predicate TsLe(a: Option<int>, b: Option<int>)
  {
    match (a, b)
    case (Some(x), Some(y)) => x <= y
    case (Some(_), None) => true
    case (None, None) => true
    case (None, Some(_)) => false
  }

  lemma TsLeTotal(a: Option<int>, b: Option<int>)
    ensures TsLe(a, b) || TsLe(b, a)
  {
  }

  lemma TsLeTransitive(a: Option<int>, b: Option<int>, c: Option<int>)
    requires TsLe(a, b) && TsLe(b, c)
    ensures TsLe(a, c)
  {
  }

  /** Every row's timestamp is at most every later row's. */
  predicate Sorted(s: seq<Event>)
  {
    forall i, j :: 0 <= i < j < |s| ==> TsLe(s[i].timestamp, s[j].timestamp)
  }

  /** Inserts `x` into sorted `s` before the first row it does not follow
      strictly. The sort below inserts each row into the sorted rest of the
      frame, so rows with equal timestamps keep their input order. */
  function Insert(x: Event, s: seq<Event>): (r: seq<Event>)
    requires Sorted(s)
    ensures Sorted(r)
    ensures multiset(r) == multiset(s) + multiset{x}
    ensures |r| == |s| + 1
  {
    if s == [] then [x]
    else if TsLe(x.timestamp, s[0].timestamp) then
      assert forall j :: 0 <= j < |s| ==> TsLe(x.timestamp, s[j].timestamp) by {
        forall j | 0 <= j < |s| ensures TsLe(x.timestamp, s[j].timestamp) {
          TsLeTransitive(x.timestamp, s[0].timestamp, s[j].timestamp);
        }
      }
      [x] + s
    else
      var rest := Insert(x, s[1..]);
      assert s == [s[0]] + s[1..];
      TsLeTotal(s[0].timestamp, x.timestamp);
      assert forall j :: 0 <= j < |rest| ==> TsLe(s[0].timestamp, rest[j].timestamp) by {
        forall j | 0 <= j < |rest| ensures TsLe(s[0].timestamp, rest[j].timestamp) {
          assert rest[j] in multiset(rest);
          if rest[j] != x {
            assert rest[j] in multiset(s[1..]);
            var k :| 0 <= k < |s[1..]| && s[1..][k] == rest[j];
            assert s[k + 1] == rest[j];
          }
        }
      }
      [s[0]] + rest
  }

  /** The dataset as stored after loading: sorted by timestamp, nulls last. */
  function SortByTimestamp(s: seq<Event>): (r: seq<Event>)
    ensures Sorted(r)
    ensures multiset(r) == multiset(s)
    ensures |r| == |s|
  {
    if s == [] then []
    else
      assert s == [s[0]] + s[1..];
      Insert(s[0], SortByTimestamp(s[1..]))
  }

  /** What sortedness means for the stored frame: dated rows are
      non-decreasing and every undated row comes after every dated row. */
  lemma SortedMeaning(s: seq<Event>)
    requires Sorted(s)
    ensures forall i, j :: 0 <= i < j < |s| && s[i].timestamp.Some? && s[j].timestamp.Some? ==>
      s[i].timestamp.value <= s[j].timestamp.value
    ensures forall i, j :: 0 <= i < |s| && 0 <= j < |s| && s[i].timestamp.None? && s[j].timestamp.Some? ==>
      j < i
  {
  }

  /** Conversely, a frame with those two properties is sorted. */
  lemma SortedFromMeaning(s: seq<Event>)
    requires forall i, j :: 0 <= i < j < |s| && s[i].timestamp.Some? && s[j].timestamp.Some? ==>
      s[i].timestamp.value <= s[j].timestamp.value
    requires forall i, j :: 0 <= i < |s| && 0 <= j < |s| && s[i].timestamp.None? && s[j].timestamp.Some? ==>
      j < i
    ensures Sorted(s)
  {
  }
}
