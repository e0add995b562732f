# Swimming video analysis: coordinate parser and track reconciliation

This project models the two pieces of real logic inside the worm-tracking
review tool `Swimming_Video_Analysis/swimming_video_analysis.py` and proves
what they guarantee.

- **The multi-block coordinate-file parser** of `FileHandler.load_current_video`.
  A `*_tracks_raw.txt` file holds several blocks of tab-separated rows. Each
  block is headed by a `Frame…` line or a `Tracks a to b` line, and the
  parser rebuilds one frame-by-column integer table from them.
  - `Coordinates` holds the specification: a left fold `ScanLines` of one
    loop turn `Step` over an accumulator (header, pending rows, finished
    blocks), then the final flush, the positional merge `MergePrefix` and the
    cell conversion `ToTable`.
  - `ParseCoordinates` is the loop of the source. It is a method, proved equal
    to `Parse`.
  - `CoordinateProperties` proves what the parser guarantees:
    - how each kind of line is treated;
    - the shape of the generated headers and of every flushed block;
    - the columns, row count and cells of the combined table.
- **The track reconciliation engine** of `TrackProcessor`. It holds:
  - the in-memory table `process_df`, which maps a track id to a fixed-width
    row of integer fields;
  - the undo file and the working checkpoint file, as fields holding the
    table they contain;
  - the append-only log.

  `Tracks` defines what combining (relabel, then `groupby('Track').sum()`)
  and deleting (`drop`) do to a table. It proves that combining keeps every
  column total, that it is idempotent, which ids it leaves, and that deleting
  removes exactly the listed ids. `TrackEngine.TrackProcessor` is the class,
  and its `Load`, `Combine`, `Delete` and `Undo` change its fields in the
  source's order. Its rename loop, `CombineRows`, is proved to compute the
  combine specification.

`Wrappers` provides `Option` and `Result`. `Text` models the Python string
operations the code relies on: `strip`, `startswith`, `split`, `join`, `int()`
and `str()`.

Behaviour of the code worth noting, which the model keeps:
- the merged coordinate table has as many rows as the *shortest* block
  (`pd.merge` on the index is an inner join), not as many as the first block;
- combine accepts any non-empty list, including a single id or repeated ids;
  a single id leaves the table as it is, though the undo file, the checkpoint
  and the log are still written (so the previous undo snapshot is lost);
- a failing delete leaves the table, the checkpoint and the log alone, but
  the undo file has already been overwritten;
- a second undo restores the same table but appends another log line;
- log lines join the ids with `", "`.

## Model

| member | source | states |
|---|---|---|
| Text.Strip | Swimming_Video_Analysis/swimming_video_analysis.py:89 | the result is no longer than the line, has no whitespace at either end, and is empty exactly when the line is all whitespace |
| Text.StripKeepsMiddle | Swimming_Video_Analysis/swimming_video_analysis.py:89 | what `strip()` keeps is one contiguous piece of the line, and everything cut before and after it is whitespace |
| Text.StripBareEnds | Swimming_Video_Analysis/swimming_video_analysis.py:89 | a line with no whitespace at either end is left as it is |
| Text.Split | Swimming_Video_Analysis/swimming_video_analysis.py:95 | at least one piece, no piece contains the separator, and joining the pieces with the separator gives the string back |
| Text.SplitJoin | Swimming_Video_Analysis/swimming_video_analysis.py:564 | splitting a separator-joined list whose pieces hold no separator gives the list back |
| Text.NatToString | Swimming_Video_Analysis/swimming_video_analysis.py:111 | `str(n)` is a non-empty string of digits whose decimal value is `n`, with no leading zero, and `str(0)` is exactly `0` |
| Text.IntToString | Swimming_Video_Analysis/swimming_video_analysis.py:111 | definition of `str(i)`: a minus sign before the digits of a negative number; `ParseIntToString` proves `int` reads it back |
| Text.IntStringNoSpace | Swimming_Video_Analysis/swimming_video_analysis.py:111 | `str(i)` holds no whitespace |
| Text.ParseInt | Swimming_Video_Analysis/swimming_video_analysis.py:106-107 | definition of `int(s)`: surrounding whitespace is ignored, then an optional sign and one or more digits, anything else is `None`; `ParseIntToString` proves it inverts `str` |
| Text.ParseIntToString | Swimming_Video_Analysis/swimming_video_analysis.py:106-107 | `int(str(i)) == i` for every integer, negative ones included |
| Text.ParseIntSpaced | Swimming_Video_Analysis/swimming_video_analysis.py:564 | `int(" " + str(i)) == i`: a space before a number is skipped |
| Text.ParseIntStripped | Swimming_Video_Analysis/swimming_video_analysis.py:106-107 | any string that strips to `str(i)` reads as `i` |
| Coordinates.AdjustRowLength | Swimming_Video_Analysis/swimming_video_analysis.py:79-85 | exactly `n` cells; the first `min(len(row), n)` are the row's own; every added cell is `""` |
| Coordinates.MaxLen | Swimming_Video_Analysis/swimming_video_analysis.py:100 | no row is longer than the result, and some row has exactly that length |
| Coordinates.Flush | Swimming_Video_Analysis/swimming_video_analysis.py:99-103 | width `min(len(header), longest row)`; the labels are that prefix of the header; one row per pending row, each of that width, keeping its cells and padded with `""` |
| Coordinates.BuildTracksHeader | Swimming_Video_Analysis/swimming_video_analysis.py:109-112 | the header loop yields `TracksHeader(a, b)` |
| Coordinates.TracksRange | Swimming_Video_Analysis/swimming_video_analysis.py:105-107 | definition: tokens 1 and 3 of the line split at spaces, read as integers, or `BadTracksLine` when there are fewer than four tokens or either is not an integer; `TracksRangeRoundTrip` proves it reads the line the tracker writes |
| Coordinates.FlushPending | Swimming_Video_Analysis/swimming_video_analysis.py:99-103 | definition of closing the current block: nothing without pending rows, `MissingHeader` without a header, else one flushed block appended; `FlushKeepsInvariant` proves the block is good |
| Coordinates.Step | Swimming_Video_Analysis/swimming_video_analysis.py:88-115 | definition of one loop turn per kind of stripped line (blank, `Frame`, `Tracks`, data); `StepKeepsInvariant`, `TracksLineStep` and `ScanSkipsBlanks` prove what it does |
| Coordinates.ScanLines | Swimming_Video_Analysis/swimming_video_analysis.py:88-115 | definition of the loop as a left fold of `Step` that stops at the first error; `ScanInvariant` proves its row count |
| Coordinates.DropFrame | Swimming_Video_Analysis/swimming_video_analysis.py:125 | definition of `df.drop(columns=["Frame"])`: every `Frame` column and its cells removed, or `MissingFrameColumn` for a block without one; `DropShape` proves it keeps a rectangular block rectangular; `MergeShape` proves the composed result |
| Coordinates.JoinByPosition | Swimming_Video_Analysis/swimming_video_analysis.py:125 | definition of `pd.merge` on the index: the columns side by side and as many rows as the shorter block; joining two rectangular blocks gives a rectangular block (`JoinShape`); `MergeShape` proves the composed result |
| Coordinates.MergePrefix | Swimming_Video_Analysis/swimming_video_analysis.py:122-125 | definition of the merge loop over the first `k` blocks; `MergeShape`, `MergeRow` and `MergeSucceeds` prove its columns, rows and failure case |
| Coordinates.CellValue | Swimming_Video_Analysis/swimming_video_analysis.py:128-130 | definition of `to_numeric(errors='coerce')` then `fillna(0).astype(int)` on one cell: its integer value, else 0; `CellValueRoundTrip` proves it reads `str(i)` back |
| Coordinates.ToTable | Swimming_Video_Analysis/swimming_video_analysis.py:128-130 | definition of the conversion of every cell of the merged block; `ParseShape` proves the cells it yields |
| Coordinates.Parse | Swimming_Video_Analysis/swimming_video_analysis.py:69-133 | definition of the whole coordinate load; `ParseShape` and `NoDataRowsFails` prove what it yields |
| Coordinates.ScanTracksLine | Swimming_Video_Analysis/swimming_video_analysis.py:98-113 | a `Tracks` line closes the block and installs the generated header, as `Step` specifies |
| Coordinates.ScanLine | Swimming_Video_Analysis/swimming_video_analysis.py:88-115 | one turn of the loop on its own variables equals `Step` |
| Coordinates.ScanAll | Swimming_Video_Analysis/swimming_video_analysis.py:88-115 | the loop over all lines, with an early exit on the first error, equals the fold `ScanLines` |
| Coordinates.ScanErrorSticks | Swimming_Video_Analysis/swimming_video_analysis.py:88-115 | once the scan has failed, later lines do not change the outcome |
| Coordinates.MergeAll | Swimming_Video_Analysis/swimming_video_analysis.py:122-125 | the merge loop equals `MergePrefix` over all blocks, failing at the first later block without a `Frame` column |
| Coordinates.MergeErrorSticks | Swimming_Video_Analysis/swimming_video_analysis.py:122-125 | once the merge has failed, later blocks do not change the outcome |
| Coordinates.ParseCoordinates | Swimming_Video_Analysis/swimming_video_analysis.py:69-133 | the whole coordinate load (loop, final flush, merge, conversion) equals `Parse` |
| CoordinateProperties.ScanSkipsBlanks | Swimming_Video_Analysis/swimming_video_analysis.py:89-92 | removing every blank line leaves the scan's outcome unchanged |
| CoordinateProperties.StepKeepsInvariant | Swimming_Video_Analysis/swimming_video_analysis.py:94-115 | one turn keeps every block rectangular and non-empty, and adds a row exactly for a data line |
| CoordinateProperties.FlushKeepsInvariant | Swimming_Video_Analysis/swimming_video_analysis.py:99-103 | a flush keeps every pending row and yields a good block |
| CoordinateProperties.ScanInvariant | Swimming_Video_Analysis/swimming_video_analysis.py:88-115 | after any prefix of lines, the rows in the finished blocks plus the pending rows number exactly the data lines among them |
| CoordinateProperties.BlocksInvariant | Swimming_Video_Analysis/swimming_video_analysis.py:117-120 | every block of a file that loads is rectangular with rows and columns, and together they hold one row per data line |
| CoordinateProperties.NoDataRowsFails | Swimming_Video_Analysis/swimming_video_analysis.py:117-123 | a file without data lines (an empty or all-blank one among them) yields no table |
| CoordinateProperties.TracksHeaderShape | Swimming_Video_Analysis/swimming_video_analysis.py:109-112 | a `Tracks a to b` header has length `1 + 3·(b−a+1)`, starts with `Frame` and has `Xi`, `Yi`, `Flagi` at positions `3k+1..3k+3` for `i = a+k` |
| CoordinateProperties.TracksRangeRoundTrip | Swimming_Video_Analysis/swimming_video_analysis.py:105-107 | the line `Tracks a to b` reads back as the range `(a, b)`, for all integers `a` and `b` |
| CoordinateProperties.TracksLineKind | Swimming_Video_Analysis/swimming_video_analysis.py:89-98 | a `Tracks a to b` line is unchanged by `strip()` and is taken as a `Tracks` line, not a `Frame` one |
| CoordinateProperties.TracksLineStep | Swimming_Video_Analysis/swimming_video_analysis.py:98-113 | after a `Tracks a to b` line the current block is closed, no row is pending and the header is the generated one for tracks `a` to `b` |
| CoordinateProperties.TripletsShape | Swimming_Video_Analysis/swimming_video_analysis.py:110-111 | the label list is the triplets of `a`, `a+1`, …, `b` in order |
| CoordinateProperties.MergeSucceeds | Swimming_Video_Analysis/swimming_video_analysis.py:123-125 | the merge succeeds exactly when every later block has a `Frame` column |
| CoordinateProperties.MergeShape | Swimming_Video_Analysis/swimming_video_analysis.py:122-125 | the merged block is rectangular; its columns are the first block's followed by every later block's non-`Frame` columns, in block order; its row count is the smallest block row count; row `i` joins rows `i` of all blocks |
| CoordinateProperties.MergeRow | Swimming_Video_Analysis/swimming_video_analysis.py:124-125 | row `i` of the merge is row `i` of the first block followed by the non-`Frame` cells of row `i` of each later block |
| CoordinateProperties.CellValueRoundTrip | Swimming_Video_Analysis/swimming_video_analysis.py:128-130 | a cell written by `str(i)` converts back to `i`, and a padding cell converts to 0 |
| CoordinateProperties.DropShape | Swimming_Video_Analysis/swimming_video_analysis.py:125 | dropping `Frame` from a rectangular block gives a rectangular block that keeps every other column and, in every row, the cells under them |
| CoordinateProperties.JoinShape | Swimming_Video_Analysis/swimming_video_analysis.py:125 | joining two rectangular blocks gives a rectangular block, with the columns side by side and row `i` of both blocks together, for as many rows as the shorter block |
| CoordinateProperties.ParseShape | Swimming_Video_Analysis/swimming_video_analysis.py:122-133 | the loaded table has the merged columns and the smallest block row count; row `i` has one cell per raw cell of row `i` of the first block followed by the non-`Frame` cells of row `i` of every later block, and each cell is the integer value of that raw cell |
| Tracks.ParseIdListRoundTrip | Swimming_Video_Analysis/swimming_video_analysis.py:564 | a comma-joined list of ids parses back to that list |
| Tracks.ParseIdListSpaced | Swimming_Video_Analysis/swimming_video_analysis.py:564 | the ids as a log line writes them, joined by `", "`, parse back to the same list, because `int()` skips the space after each comma |
| Tracks.CombineSpec | Swimming_Video_Analysis/swimming_video_analysis.py:577-581 | definition of a combine: the listed ids that are present are removed and, when there is one, a single row under the first id holds their field-wise totals; `CombineKeys`, `CombinePreservesTotals` and `CombineIdempotent` prove what it does |
| Tracks.DeleteSpec | Swimming_Video_Analysis/swimming_video_analysis.py:621 | definition of `drop(index=ids)`: `None` when a listed id is absent, else the table without the listed ids; `DeleteRemovesExactly` proves what it does |
| Tracks.Rename | Swimming_Video_Analysis/swimming_video_analysis.py:577-578 | definition of one rename: the rows under `from` move under `to`; `RenameStep` proves the loop invariant it keeps |
| Tracks.GroupSum | Swimming_Video_Analysis/swimming_video_analysis.py:581 | definition of `groupby('Track').sum()`: one row per label, the field-wise total of the rows under it; `RenameFinish` proves it yields `CombineSpec` |
| Tracks.CombineLogLine | Swimming_Video_Analysis/swimming_video_analysis.py:595 | definition of the combine log line; `CombineLogLineExample` spells it out |
| Tracks.DeleteLogLine | Swimming_Video_Analysis/swimming_video_analysis.py:636 | definition of the delete log line; `DeleteLogLineExample` spells it out |
| Tracks.CombineLogLineExample | Swimming_Video_Analysis/swimming_video_analysis.py:595 | combining `[3, 12]` logs `Tracks 3, 12 combined to Track 3!` |
| Tracks.DeleteLogLineExample | Swimming_Video_Analysis/swimming_video_analysis.py:636 | deleting `[7, -40]` logs `Track(s) 7, -40 deleted!` |
| Tracks.TotalRemove | Swimming_Video_Analysis/swimming_video_analysis.py:581 | the column totals of a table are any row plus the totals of the other rows, whichever row is taken out |
| Tracks.TotalSplit | Swimming_Video_Analysis/swimming_video_analysis.py:581 | splitting a table by a set of ids splits its column totals |
| Tracks.RenameStart | Swimming_Video_Analysis/swimming_video_analysis.py:577-578 | before the rename loop every row carries its own id |
| Tracks.RenameStep | Swimming_Video_Analysis/swimming_video_analysis.py:577-578 | one rename moves the rows of `ids[i]` under the first id, keeping the invariant that the rows under it sum to the rows of the ids absorbed so far |
| Tracks.RenameFinish | Swimming_Video_Analysis/swimming_video_analysis.py:581 | after the rename loop, `groupby('Track').sum()` yields `CombineSpec` |
| Tracks.CombineKeys | Swimming_Video_Analysis/swimming_video_analysis.py:577-581 | after a combine the ids are the old ids minus the listed ones, plus the first id when a listed id was present; unlisted rows are unchanged |
| Tracks.CombinePreservesTotals | Swimming_Video_Analysis/swimming_video_analysis.py:577-581 | a combine keeps every row's width and every column total of the table |
| Tracks.CombineIgnoresMissing | Swimming_Video_Analysis/swimming_video_analysis.py:577-578 | listing, anywhere but first, an id that is not in the table changes nothing |
| Tracks.CombineSingle | Swimming_Video_Analysis/swimming_video_analysis.py:577-581 | combining a single id leaves the table unchanged |
| Tracks.CombineIdempotent | Swimming_Video_Analysis/swimming_video_analysis.py:577-581 | combining the same ids again changes nothing more |
| Tracks.CombinePair | Swimming_Video_Analysis/swimming_video_analysis.py:577-581 | combining two present tracks `[a, b]` removes `b` and puts the field-wise sum of both rows under `a` |
| Tracks.CombineExample | Swimming_Video_Analysis/swimming_video_analysis.py:577-581 | tracks 1 `[10, 5, 20]` and 2 `[8, 4, 10]` combine to track 1 `[18, 9, 30]` |
| Tracks.DeleteRemovesExactly | Swimming_Video_Analysis/swimming_video_analysis.py:621 | a delete succeeds exactly when every listed id is present; it then removes exactly those ids, keeps every other row, and the removed rows account for the difference in column totals |
| TrackEngine.CombineRows | Swimming_Video_Analysis/swimming_video_analysis.py:576-581 | the rename loop followed by the group sum computes `CombineSpec` and keeps every row's width |
| TrackEngine.TrackProcessor.constructor | Swimming_Video_Analysis/swimming_video_analysis.py:455-460 | before any load there is no table and no coordinate table; the files on disk and the log are kept |
| TrackEngine.TrackProcessor.Load | Swimming_Video_Analysis/swimming_video_analysis.py:63-153 | a missing track-summary or coordinate file, or a coordinate file that does not load, changes nothing; otherwise the coordinate table is `Parse`'s, the table is the checkpoint's if one exists or else the source's, and the undo file holds that table |
| TrackEngine.TrackProcessor.Combine | Swimming_Video_Analysis/swimming_video_analysis.py:558-600 | without a table or with a malformed entry nothing changes; otherwise undo holds the old table, table and checkpoint hold `CombineSpec`, and exactly one `Tracks … combined to Track x!` line is logged |
| TrackEngine.TrackProcessor.Commit | Swimming_Video_Analysis/swimming_video_analysis.py:573-595 | a successful edit writes the old table to the undo file, the new table to the checkpoint and one line to the log |
| TrackEngine.TrackProcessor.Delete | Swimming_Video_Analysis/swimming_video_analysis.py:604-645 | without a table or with a malformed entry nothing changes; otherwise undo holds the old table, and either a listed id is missing (`TrackNotFound`; table, checkpoint and log unchanged) or table and checkpoint hold the table without the listed ids and one `Track(s) … deleted!` line is logged |
| TrackEngine.TrackProcessor.Undo | Swimming_Video_Analysis/swimming_video_analysis.py:647-676 | without a table nothing changes; otherwise table and checkpoint take the undo file's table, the undo file is kept, and `Last step undone.` is logged |
| TrackEngine.UndoAfterCombine | Swimming_Video_Analysis/swimming_video_analysis.py:573 | an undo right after a combine restores exactly the table before it |
| TrackEngine.UndoTwice | Swimming_Video_Analysis/swimming_video_analysis.py:658-660 | a second undo restores the same table as the first, and each logs one line |
| TrackEngine.UndoAfterLoad | Swimming_Video_Analysis/swimming_video_analysis.py:144 | after a load, the first action, a delete, can be undone back to the table as loaded |

## Left out

- The tkinter interface, the pandastable display, tooltips, message boxes and file dialogs are not modelled; each outcome a message box would show is an `Outcome` value.
- Video decoding, zoom, pan and circle drawing are not modelled: they are OpenCV and PIL work with floating-point scaling.
- Reading and writing of Excel and CSV files, `mkdir` and the log file itself are left out: the two spreadsheet files are fields, and the log is a list of its lines.
- The track-summary file is a parameter of `Load`: the parser for it is pandas' `read_csv`, which is not part of this model.
- `save_file` export statistics (BBPS/BBPM division, mean, SEM, the 50%-of-maximum-time threshold) are floating-point numerics and are left out.
- `FilePostprocessing` folder walking and aggregation are file-system traversal and Excel concatenation, and are left out.
- The walk over several videos in a folder and the choice of the video file are left out; one load models one video.
- Coordinates.CellValue: pandas' `to_numeric` also reads decimal and exponent strings and then truncates them with `astype(int)`; the model reads integers only, and every other cell becomes 0.
- Coordinates.JoinByPosition: pandas renames duplicate column labels with `_x`/`_y` suffixes on merge; the model keeps the labels as they are.
- Coordinates.DropFrame: pandas' `drop(columns=["Frame"])` removes every column labelled exactly `Frame`; the model does the same, and a block without one fails with `MissingFrameColumn`, where pandas raises `KeyError`.
- Coordinates.FlushPending: when a block is closed while no header has been set yet (data rows before any `Frame` or `Tracks` line), Python raises `TypeError` on `len(None)`; the model fails with `MissingHeader` and does not load the file. A data row before a `Frame` line is not an error in either, because the header is set by the time the block is closed.
- Coordinates.CellValue: cells are unbounded integers; pandas' `astype(int)` gives 64-bit integers, so a cell beyond that range is not modelled.
- Every track field and every coordinate cell is an unbounded integer, so the 64-bit sums of `groupby(...).sum()` are not modelled to wrap.
- TrackEngine.TrackProcessor.Load: a missing file is one `FileMissing` outcome; which file was missing and the message text are not modelled. The video file itself is not read.
- Text.Strip: only ASCII whitespace is modelled; Python's `strip()` and `int()` also skip Unicode spaces.
- Text.ParseInt: Python's `int()` also accepts Unicode digits and underscores between digits; the model accepts ASCII digits only.
- The track table is a map from id to row, so row order and the sorted order of `groupby` are not modelled.
- Every track field is an integer; the `time(s)` and `BBPS` fields are floats in the source, and their floating-point sums are not modelled.
- TrackEngine.TrackProcessor.Undo: a missing undo file would make `read_excel` raise an uncaught error; the class invariant rules this out, because every load writes the undo file.
