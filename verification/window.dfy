/** The trailing time window over the revealed prefix, anchored at the
    latest revealed timestamp rather than at wall-clock time. */
module Window {
  import opened Wrappers
  import opened Events
  import opened Seqs
  import opened Ordering

  /** Width of the trailing window, in minutes. */
  const WindowMinutes: int := 120

  /** Some row of `s` carries a parsed timestamp. */
  predicate AnyTimestamp(s: seq<Event>)
  {
    exists i :: 0 <= i < |s| && s[i].timestamp.Some?
  }

  /** The latest parsed timestamp in `s`; missing timestamps are skipped. */
  function MaxTimestamp(s: seq<Event>): (t: int)
    requires AnyTimestamp(s)
    ensures exists i :: 0 <= i < |s| && s[i].timestamp == Some(t)
    ensures forall i :: 0 <= i < |s| && s[i].timestamp.Some? ==> s[i].timestamp.value <= t
  {
    var last := s[|s| - 1];
    var init := s[..|s| - 1];
    if !AnyTimestamp(init) then
      assert last.timestamp.Some?;
      last.timestamp.value
    else
      var m := MaxTimestamp(init);
      assert forall i :: 0 <= i < |init| ==> init[i] == s[i];
      if last.timestamp.Some? && last.timestamp.value > m then last.timestamp.value else m
  }

  /** A row belongs to the window anchored at `tMax` when it is dated no
      earlier than `tMax - WindowMinutes`; an undated row never compares
      as at-or-after a date. */
  predicate InWindow(tMax: int, e: Event)
  {
    e.timestamp.Some? && e.timestamp.value >= tMax - WindowMinutes
  }

  /** The rows of the revealed prefix inside the trailing window, in their
      prefix order. When no row is dated the filter is skipped and the prefix
      is returned as is. */
  function SelectWindow(prefix: seq<Event>): (r: seq<Event>)
    ensures !AnyTimestamp(prefix) ==> r == prefix
    ensures AnyTimestamp(prefix) ==>
      forall e :: multiset(r)[e] ==
        if e.timestamp.Some? && e.timestamp.value >= MaxTimestamp(prefix) - WindowMinutes
        then multiset(prefix)[e] else 0
  {
    if AnyTimestamp(prefix) then
      var tMax := MaxTimestamp(prefix);
      var inWindow := e => InWindow(tMax, e);
      FilterCount(prefix, inWindow);
      Filter(prefix, inWindow)
    else prefix
  }

  /** Window membership, both directions: with some row dated, a row is in
      the window exactly when it is a prefix row dated within
      `WindowMinutes` of the latest date (and so never later than it). */
  lemma WindowMembership(prefix: seq<Event>, e: Event)
    requires AnyTimestamp(prefix)
    ensures e in SelectWindow(prefix) <==>
      e in prefix && e.timestamp.Some? &&
      MaxTimestamp(prefix) - WindowMinutes <= e.timestamp.value <= MaxTimestamp(prefix)
  {
    var r := SelectWindow(prefix);
    assert e in r <==> multiset(r)[e] > 0;
    assert e in prefix <==> multiset(prefix)[e] > 0;
    if e in prefix {
      var i :| 0 <= i < |prefix| && prefix[i] == e;
    }
  }

  /** When some row is dated, the latest-dated row is always in the window,
      so the window is never empty. */
  lemma WindowNonEmpty(prefix: seq<Event>)
    requires AnyTimestamp(prefix)
    ensures |SelectWindow(prefix)| > 0
  {
    var i :| 0 <= i < |prefix| && prefix[i].timestamp == Some(MaxTimestamp(prefix));
    WindowMembership(prefix, prefix[i]);
  }

  /** On a frame in load order (dated rows ascending, undated rows last) the
      window is one contiguous run of rows. */
  lemma WindowOfSortedIsSlice(prefix: seq<Event>)
    requires Sorted(prefix)
    ensures exists lo, hi :: 0 <= lo <= hi <= |prefix| && SelectWindow(prefix) == prefix[lo..hi]
  {
    if AnyTimestamp(prefix) {
      var tMax := MaxTimestamp(prefix);
      var p := e => InWindow(tMax, e);
      forall i, j, k | 0 <= i < j < k < |prefix| && p(prefix[i]) && p(prefix[k])
        ensures p(prefix[j])
      {
        assert TsLe(prefix[i].timestamp, prefix[j].timestamp);
        assert TsLe(prefix[j].timestamp, prefix[k].timestamp);
      }
      FilterConvex(prefix, p);
    } else {
      assert SelectWindow(prefix) == prefix[0..|prefix|];
    }
  }
}
