# Replay and windowing core of the conflict early-warning dashboard

This project is a Dafny model of the non-display logic of `app.py`, a Streamlit
dashboard. The dashboard replays a timestamped dataset of per-region risk
indicators as if the rows were arriving live. On every rerun of the script it
does five things:

1. It loads the dataset once. The header must carry the eight expected
   columns. The rows are then sorted by timestamp, with unparseable
   timestamps placed last.
2. It advances the replay cursor by 100 rows while auto-play is on.
3. It cuts the revealed prefix down to a 120-minute trailing window. The
   window is anchored at the latest revealed timestamp.
4. It scores each window row with a clipped, fixed-weight composite.
5. It reports the last five window rows whose composite is above 75 or
   whose risk score is above 80.

The modules follow those steps:

- `Wrappers`: `Option` and `Result`.
- `Events`: the row record `Event` and the scored row `Scored`.
- `Seqs`: order-preserving mask filtering, `tail(n)` and `[:n]` slicing.
- `Schema`: the column check.
- `Composite`: the scorer.
- `Ordering`: the load-time sort.
- `Window`: the trailing window.
- `Alerts`: the alert selection.
- `Replay`: the session state, load-once, cursor advance, per-rerun view and
  the whole rerun.

Representation:

- Timestamps are `Option<int>` minutes. `None` stands for a timestamp that
  could not be parsed.
- Indicators are exact `real`s.
- Streamlit's session state is an explicit
  `State(store, replayIndex, running)` record. Its initial value is
  `(None, 0, true)`.
- A dataset is a `Source`. `Absent` means the file does not exist.
  `Table(columns, rows)` carries the header and the parsed rows.

Facts about `app.py` that shape the model:

- The sort key is the timestamp only.
- The thresholds are the constants 75 and 80, with strict comparisons.
- `running` is never cleared, so the cursor never pauses. Once it reaches the
  end of the frame (`replayIndex == len`, every row revealed) it stays there.
- The composite is clipped after weighting, so `NoPressureFullMorale` states
  the clipped form. `NominalRange` shows that the clip never acts when the
  indicators are in 0..100.

## Model

| member | source | states |
|---|---|---|
| Schema.EnsureColumns | app.py:28-33 | The check passes exactly when every one of the eight expected columns is present; on failure the reported set is non-empty and holds exactly the expected columns that are absent |
| Schema.ExtraColumnsNeverFail | app.py:29-32 | Adding columns never turns a pass into a failure and can only shrink the reported missing set |
| Schema.SupersetPasses | app.py:29-32 | Any header that includes the expected columns passes, whatever else it holds |
| Composite.Clip | app.py:40-42 | The clipped value lies in the bounds, equals the input when it is already inside them, and equals the nearer bound otherwise |
| Composite.Env | app.py:40 | The environmental term lies in 0..100 even for morale outside 0..100: it is 100 − morale in range, 0 above 100 and 100 below 0 |
| Composite.CompositeScore | app.py:37-42 | The composite lies in 0..100 for every indicator value. It equals the weighted sum when that sum is in range, 100 when the sum is above 100, and 0 when it is below 0 |
| Composite.NoPressureFullMorale | app.py:37-42 | With supply pressure 0 and morale 100, the composite is clip(0.45·risk + 25, 0, 100) |
| Composite.NominalRange | app.py:37-42 | For risk, supply and morale in 0..100, the weighted sum lies in [25, 85], so the final clip never changes it |
| Composite.ScoreRows | app.py:35-42 | Scoring keeps the row count, so an empty frame stays empty. Each output row carries the input row at the same position unchanged, plus that row's composite score, which lies in 0..100 |
| Composite.ScoreThenUnscore | app.py:42 | Dropping the added composite column recovers the input frame exactly |
| Composite.ScoreRowsAppend | app.py:37-42 | Scoring is row-wise: scoring a concatenation is the concatenation of the scored parts |
| Ordering.Insert | app.py:54 | Inserting a row into a sorted frame gives a sorted frame holding exactly the old rows plus the new one |
| Ordering.SortByTimestamp | app.py:54 | The stored frame is a permutation of the loaded rows and is sorted by timestamp with missing timestamps last |
| Ordering.SortedMeaning | app.py:54 | In a sorted frame, dated rows are non-decreasing and every undated row comes after every dated row |
| Ordering.SortedFromMeaning | app.py:54 | Conversely, a frame with dated rows non-decreasing and undated rows last is sorted |
| Window.MaxTimestamp | app.py:79 | The anchor is a timestamp that some revealed row carries, and no revealed timestamp exceeds it; missing timestamps are ignored |
| Window.SelectWindow | app.py:77-80 | With no dated row the prefix is returned unchanged; otherwise each row occurs in the window exactly as often as in the prefix when it is dated at or after the anchor minus 120 minutes, and not at all otherwise |
| Window.WindowMembership | app.py:78-80 | With some dated row, a row is in the window if and only if it is a revealed row dated between the anchor minus 120 minutes and the anchor |
| Window.WindowNonEmpty | app.py:78-80 | With some dated row, the window is never empty, because the row carrying the anchor is always in it |
| Window.WindowOfSortedIsSlice | app.py:78-80 | On a prefix in load order, the window is one contiguous run of rows |
| Seqs.Filter | app.py:80 | Mask filtering keeps only elements that pass the mask, each taken from the input, and never lengthens the frame |
| Seqs.FilterCount | app.py:80 | Mask filtering keeps every passing element with its full multiplicity and drops every failing one |
| Seqs.FilterAppend | app.py:90 | Mask filtering keeps relative order: filtering a concatenation is the concatenation of the filtered parts |
| Seqs.FilterSlice | app.py:80 | When exactly the positions lo..hi pass the mask, the filtered frame is that slice |
| Seqs.FilterConvex | app.py:80 | When the passing positions are contiguous, the filtered frame is a slice of the input |
| Seqs.Tail | app.py:91 | The tail has min(n, length) elements and is the end of the input |
| Seqs.TailAppend | app.py:91 | Rows in front of a frame with at least n rows do not reach its last n |
| Seqs.Take | app.py:75 | Positional slicing to i rows gives min(i, length) rows and is the start of the input, even when i exceeds the length |
| Alerts.DetectAlerts | app.py:90-91 | There are at most five alerts. Each one qualifies under the strict thresholds and is a window row. Their number is min(5, k) for k qualifying rows, and they are the last of the qualifying rows, in window order |
| Alerts.FewAlertsAllShown | app.py:90-91 | With at most five qualifying rows, every qualifying row is an alert |
| Alerts.NewestAlertsWin | app.py:90-91 | Once the later part of a window holds five qualifying rows, earlier rows never appear among the alerts |
| Alerts.ThresholdExamples | app.py:90 | Composite 76 with risk 50 alerts, composite 74 with risk 81 alerts, composite 74 with risk 79 does not, and values exactly at the thresholds do not |
| Replay.Initial | app.py:16-21 | A session starts with nothing loaded, the cursor at 0 and auto-play on, a state in which the session invariant holds (cursor within the frame, loaded frame in timestamp order) |
| Replay.LoadOnce | app.py:44-55 | A loaded frame or a missing file leaves the state unchanged. A header lacking expected columns fails with exactly those names. Otherwise the state stores a sorted permutation of the rows. Cursor and auto-play are never changed, and the session invariant (cursor within the frame, frame in timestamp order) is kept |
| Replay.LoadOnceIdempotent | app.py:45-46 | Once a load has stored a frame, any later load from any source returns the same state |
| Replay.Advance | app.py:63-67 | Only a running session with a loaded frame moves. The cursor never decreases, never moves by more than 100 and never passes the frame's end. While running it moves by exactly 100 or lands on the end, and once at the end it stays there |
| Replay.AdvanceTimesIndex | app.py:63-67 | After k advances of a running session, the cursor is exactly min(start + 100·k, length) |
| Replay.EventuallyFullyRevealed | app.py:63-67 | From the start, ceil(length/100) advances reveal the whole frame, and further advances change nothing |
| Replay.Revealed | app.py:74-75 | The revealed rows are the first replay-index rows of the stored frame; nothing is revealed before a load |
| Replay.AdvanceExtendsRevealed | app.py:63-75 | An advance only appends rows to the revealed prefix |
| Replay.Render | app.py:73-91 | A view exists if and only if a frame is loaded and the cursor is above 0. Its window rows, with the composite column dropped, are the trailing window of the revealed prefix. Each window row carries its own composite score, and the alerts are those of that window |
| Replay.RenderSound | app.py:73-91 | A rendered window is never empty. It is one contiguous run of the revealed prefix, in revealed order, so `tail(5)` picks the latest qualifying rows. Each of its rows is a revealed row with a composite in 0..100. There are at most five alerts, each a qualifying window row |
| Replay.Rerun | app.py:58-91 | A rerun fails exactly when the load fails the schema check. Otherwise it advances the loaded state and renders that state, and it keeps the cursor invariant |
| Replay.FirstRerun | app.py:16-67 | The first rerun from the initial state with a well-formed source stores the sorted rows, reveals min(100, length) of them, and shows a view exactly when the source has rows |

## Left out

- Page setup, sidebar messages, layout columns, the metric, the progress bar and the alert text (app.py:7, 48, 56, 71, 84-96) are display only.
- The heatmap, the map-centre averages and the table of the last 20 rows (app.py:98-118) are visualisation only.
- Reading the CSV file, its encoding and the file-existence check (app.py:24-26, 47) are file I/O. A dataset enters the model as a `Source`, and `Absent` stands for the missing file.
- Timestamp parsing with `pd.to_datetime` and the dtype test around it (app.py:52-53) are library code. Rows arrive with `Option<int>` minute timestamps already parsed. Time zones and sub-minute resolution are not modelled.
- The auto-refresh timer at app.py:68 is modelled as a call that returns normally and only schedules the next rerun. Whether the installed Streamlit provides `st.autorefresh` is outside the model.
- Floating-point rounding and NaN indicator values are not modelled: indicators are exact reals.
- The `composite` column that the source adds to an empty frame (app.py:36) has no rows to hold it, so the model returns the empty sequence.
- Columns beyond the eight expected ones are not carried in `Event`. The schema check still sees them through the header set.
- Ordering.SortByTimestamp: the order of rows with equal timestamps is not promised. The source's single-key sort is not stable. The model inserts stably, but its contracts state only the permutation and the key order, and no lemma relies on the tie order.
