/** The replay driver: the session state that survives between reruns of the
    dashboard script, the one-time load, the cursor advance, and the view
    computed from the revealed prefix on each rerun. */
module Replay {
  import opened Wrappers
  import opened Events
  import opened Seqs
  import opened Schema
  import opened Ordering
  import opened Composite
  import opened Window
  import opened Alerts

  /** Rows revealed per rerun while running. */
  const BatchRows: nat := 100

  /** Session state: the loaded frame (absent until a load succeeds), the
      number of rows revealed so far, and the auto-play flag. */
  datatype State = State(store: Option<seq<Event>>, replayIndex: nat, running: bool)

  /** A dataset as handed over by the reader: absent when the file does not
      exist, otherwise its header and its rows. */
  datatype Source = Absent | Table(columns: set<string>, rows: seq<Event>)

  /** What one rerun shows: the cursor, the store size, the scored window
      rows and the alerts among them. */
  datatype View = View(index: nat, total: nat, window: seq<Scored>, alerts: seq<Scored>)

  /** State at the start of a session: nothing loaded, cursor at zero,
      auto-play on. */
  function Initial(): (st: State)
    ensures Valid(st) && st.store.None? && st.replayIndex == 0 && st.running
  {
    State(None, 0, true)
  }

  /** The cursor never points past the loaded frame, and stays at zero while
      nothing is loaded; a loaded frame is in timestamp order. */
  predicate Valid(st: State)
  {
    match st.store
    case None => st.replayIndex == 0
    case Some(rows) => st.replayIndex <= |rows| && Sorted(rows)
  }

  /** Loads the dataset at most once per session. An already loaded frame
      and a missing file leave the state as it is; a header lacking an
      expected column fails with the missing names and changes nothing;
      otherwise the rows are stored in timestamp order. */
  function LoadOnce(st: State, src: Source): (r: Result<State, set<string>>)
    ensures st.store.Some? || src.Absent? ==> r == Success(st)
    ensures st.store.None? && src.Table? ==>
      (r.Failure? <==> !(ExpectedColumns <= src.columns))
    ensures r.Failure? ==> src.Table? && r.error == ExpectedColumns - src.columns
    ensures r.Success? ==> r.value.replayIndex == st.replayIndex && r.value.running == st.running
    ensures r.Success? && st.store.None? && src.Table? ==>
      r.value.store.Some? &&
      Sorted(r.value.store.value) &&
      multiset(r.value.store.value) == multiset(src.rows)
    ensures Valid(st) && r.Success? ==> Valid(r.value)
  {
    if st.store.Some? then Success(st)
    else match src
      case Absent => Success(st)
      case Table(columns, rows) =>
        match EnsureColumns(columns)
        case Failure(missing) => Failure(missing)
        case Success(_) => Success(st.(store := Some(SortByTimestamp(rows))))
  }

  /** Loading is cached: once a load has succeeded, later loads, from any
      source, return the state unchanged. */
  lemma LoadOnceIdempotent(st: State, src: Source, later: Source)
    requires LoadOnce(st, src).Success?
    requires LoadOnce(st, src).value.store.Some?
    ensures LoadOnce(LoadOnce(st, src).value, later) == LoadOnce(st, src)
  {
  }

  /** One auto-refresh step: while running with a frame loaded, reveal the
      next batch of rows, never going past the end of the frame. */
  function Advance(st: State): (r: State)
    ensures r.store == st.store && r.running == st.running
    ensures !(st.running && st.store.Some?) ==> r == st
    ensures Valid(st) ==> Valid(r) && st.replayIndex <= r.replayIndex <= st.replayIndex + BatchRows
    ensures Valid(st) && st.running && st.store.Some? ==>
      r.replayIndex == st.replayIndex + BatchRows || r.replayIndex == |st.store.value|
    ensures st.store.Some? && st.replayIndex == |st.store.value| ==> r == st
  {
    if st.running && st.store.Some? then
      var n := st.replayIndex + BatchRows;
      var len := |st.store.value|;
      st.(replayIndex := if n < len then n else len)
    else st
  }

  /** `k` consecutive advances. */
  function AdvanceTimes(st: State, k: nat): State
  {
    if k == 0 then st else Advance(AdvanceTimes(st, k - 1))
  }

  /** After `k` advances of a running session the cursor is exactly
      `min(start + k * BatchRows, len)`. */
  lemma {:induction false} AdvanceTimesIndex(st: State, k: nat)
    requires Valid(st) && st.running && st.store.Some?
    ensures AdvanceTimes(st, k).store == st.store && AdvanceTimes(st, k).running
    ensures AdvanceTimes(st, k).replayIndex ==
      if st.replayIndex + k * BatchRows < |st.store.value|
      then st.replayIndex + k * BatchRows else |st.store.value|
  {
    if k > 0 {
      AdvanceTimesIndex(st, k - 1);
    }
  }

  /** A running session reveals the whole frame after `ceil(len / 100)`
      advances from the start, and the cursor then stays at the end. */
  lemma EventuallyFullyRevealed(st: State, k: nat)
    requires Valid(st) && st.running && st.store.Some? && st.replayIndex == 0
    requires k * BatchRows >= |st.store.value|
    ensures AdvanceTimes(st, k).replayIndex == |st.store.value|
    ensures Advance(AdvanceTimes(st, k)) == AdvanceTimes(st, k)
  {
    AdvanceTimesIndex(st, k);
  }

  /** The rows revealed so far: the first `replayIndex` rows of the frame. */
  function Revealed(st: State): (r: seq<Event>)
    ensures st.store.None? ==> r == []
    ensures Valid(st) && st.store.Some? ==> r == st.store.value[..st.replayIndex]
  {
    match st.store
    case None => []
    case Some(rows) => Take(rows, st.replayIndex)
  }

  /** A prefix of a frame in timestamp order is in timestamp order. */
  lemma SortedPrefix(rows: seq<Event>, n: nat)
    requires Sorted(rows) && n <= |rows|
    ensures Sorted(rows[..n])
  {
    assert forall i :: 0 <= i < n ==> rows[..n][i] == rows[i];
  }

  /** An advance only ever appends to the revealed prefix. */
  lemma AdvanceExtendsRevealed(st: State)
    requires Valid(st)
    ensures Revealed(st) <= Revealed(Advance(st))
  {
  }

  /** The view of one rerun: nothing until a frame is loaded and at least one
      row revealed; then the revealed rows are windowed, scored, and scanned
      for alerts. */
  function Render(st: State): (r: Option<View>)
    ensures r.Some? <==> st.store.Some? && st.replayIndex > 0
    ensures r.Some? ==>
      r.value.index == st.replayIndex && r.value.total == |st.store.value| &&
      Unscore(r.value.window) == SelectWindow(Revealed(st)) &&
      r.value.alerts == DetectAlerts(r.value.window)
    ensures r.Some? ==> forall i :: 0 <= i < |r.value.window| ==>
      r.value.window[i].composite == CompositeScore(r.value.window[i].event)
  {
    if st.store.Some? && st.replayIndex > 0 then
      var window := ScoreRows(SelectWindow(Revealed(st)));
      ScoreThenUnscore(SelectWindow(Revealed(st)));
      Some(View(st.replayIndex, |st.store.value|, window, DetectAlerts(window)))
    else None
  }

  /** What a rendered view guarantees: the window is a non-empty, contiguous
      run of revealed rows in their revealed order, each scored within 0..100,
      and at most five alerts, each a qualifying window row. */
  lemma RenderSound(st: State)
    requires Valid(st) && Render(st).Some?
    ensures var v := Render(st).value;
      |v.window| > 0 &&
      (exists lo, hi :: 0 <= lo <= hi <= |Revealed(st)| && Unscore(v.window) == Revealed(st)[lo..hi]) &&
      (forall i :: 0 <= i < |v.window| ==>
        v.window[i].event in Revealed(st) && 0.0 <= v.window[i].composite <= 100.0) &&
      |v.alerts| <= MaxAlerts &&
      (forall i :: 0 <= i < |v.alerts| ==> IsAlert(v.alerts[i]) && v.alerts[i] in v.window)
  {
    var v := Render(st).value;
    var prefix := Revealed(st);
    var w := SelectWindow(prefix);
    SortedPrefix(st.store.value, st.replayIndex);
    WindowOfSortedIsSlice(prefix);
    if AnyTimestamp(prefix) {
      WindowNonEmpty(prefix);
      forall i | 0 <= i < |v.window| ensures v.window[i].event in prefix {
        assert v.window[i].event == w[i];
        WindowMembership(prefix, w[i]);
      }
    }
  }

  /** One full rerun of the script: load (at most once), advance the cursor,
      then compute the view. A schema failure aborts the rerun with the
      missing column names and leaves the state unchanged. */
  function Rerun(st: State, src: Source): (r: Result<(State, Option<View>), set<string>>)
    ensures r.Failure? <==> LoadOnce(st, src).Failure?
    ensures r.Success? ==>
      r.value.0 == Advance(LoadOnce(st, src).value) && r.value.1 == Render(r.value.0)
    ensures Valid(st) && r.Success? ==> Valid(r.value.0)
  {
    match LoadOnce(st, src)
    case Failure(missing) => Failure(missing)
    case Success(loaded) =>
      var next := Advance(loaded);
      Success((next, Render(next)))
  }

  /** The first successful rerun from the initial state with a well-formed
      source shows the first `min(100, len)` rows of the sorted frame. */
  lemma FirstRerun(rows: seq<Event>, columns: set<string>)
    requires ExpectedColumns <= columns
    ensures var r := Rerun(Initial(), Table(columns, rows));
      r.Success? &&
      r.value.0.store == Some(SortByTimestamp(rows)) &&
      r.value.0.replayIndex == (if |rows| < BatchRows then |rows| else BatchRows) &&
      (r.value.1.Some? <==> |rows| > 0)
  {
    var src := Table(columns, rows);
    SupersetPasses(columns);
    var loaded := Initial().(store := Some(SortByTimestamp(rows)));
    assert LoadOnce(Initial(), src) == Success(loaded);
    var next := Advance(loaded);
    assert next.replayIndex == (if |rows| < BatchRows then |rows| else BatchRows);
    assert Render(next).Some? <==> |rows| > 0;
    var r := Rerun(Initial(), src);
    assert r.Success? && r.value.0 == next && r.value.1 == Render(next);
  }
}
