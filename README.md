# Logger: a verified model of an in-memory log store and its table view

This project models the `Logger` class of an immediate-mode GUI tool kit. It is an append-only
store of log rows, each a (level, time string, message) triple. Around the store sit:

- a visibility bitmask `visLevel`, toggled per level;
- the row-store logic of `draw()`: the Clear button, the Save Log button, the three level toggles,
  an in-place sort of the rows by level or by time string, the filter that picks the rows the
  table shows, and the reset of the `dirty` flag;
- `saveLog`, which builds the snapshot file name `[<start>][<now>].log` with every `:` turned
  into `_`, and appends one INFO row recording the save while the running log file is open.

Modules:

- `Levels` (`Levels.dfy`): the `Level` bit-flag enum, the mask, `levelToStr` and the toggle done
  by `setLevel`.
- `Rows` (`Rows.dfy`): the row record and the visibility filter.
- `SnapshotNames` (`SnapshotNames.dfy`): the in-place character replacement and the snapshot name.
- `RowOrder` (`RowOrder.dfy`): `std::string` ordering, the sort comparator and the in-place sort.
- `Logging` (`Logging.dfy`): the `Logger` class. It keeps `rows` as a `seq` field, `dirty`,
  `visLevel` (a `bv16`, the bit pattern of the source's `short`), `fileOpen` (whether `prev.log` is
  open) and the constant `startTime`.

Modelling choices:

- `Level` is a `bv16` below 8. An unscoped enum whose enumerators are 1, 2 and 4 can hold any
  value of a three-bit field, so the default branch of `levelToStr` stays reachable.
- Clock readings are string parameters (`now`, `start`), already formatted.
- The ImGui sort specification becomes a column index and an `ascending` flag. As in the source,
  any direction other than ascending sorts with `>`.
- `std::sort` is modelled by an insertion sort on an array. Its contract is the one `std::sort`
  gives: the result is a permutation, and no row is followed by a row that the comparator puts
  before it.
- The destructor becomes `Destroy`, which closes the file and then saves.
- `draw()` becomes `Draw`. It takes the buttons pressed in one frame and an optional sort request,
  and returns the rows the table shows.

Two behaviours of the code are easy to miss:

- The store is not empty after construction. The constructor logs "Logger initialised".
- A save appends its "log saved as" row only while the running log file is open. The destructor
  closes the file first, so the save at shutdown appends no row.

## Model

| member | source | states |
|---|---|---|
| `Levels.LevelsAreDistinctBits` | Logger.h:13-17 | INFO, WARNING and ERROR are single, distinct bits: pairwise AND is 0, together they OR to 7, and mask 7 shows all three |
| `Levels.LevelToStr` | Logger.cpp:86-97 | the label is empty exactly for values other than the three enumerators, and otherwise starts with the level's initial |
| `Levels.LevelToStrInjective` | Logger.cpp:86-97 | two levels with the same non-empty label are the same level |
| `Levels.Toggled` | Logger.cpp:64-70 | the mask `setLevel` leaves: every bit of the level cleared when some bit of it is visible, otherwise every bit of it set |
| `Levels.ToggledKeepsOtherBits` | Logger.cpp:64-70 | the mask after `setLevel` agrees with the old mask on every bit outside the level |
| `Levels.SingleBitToggleIsXor` | Logger.cpp:64-70 | for a single-bit level, clearing the bit when it is set and setting it when it is clear both equal XOR with the bit |
| `Levels.ToggledFlipsVisibility` | Logger.cpp:64-70 | for a non-zero level, the level is visible after the toggle exactly when it was hidden before |
| `Levels.ToggledIsXor` | Logger.cpp:64-70 | for each of the three levels, the toggle equals XOR with the level's bit, so exactly that bit flips |
| `Levels.ToggledTwiceRestores` | Logger.cpp:64-70 | toggling one of the three levels twice restores the original mask |
| `Levels.ToggledLeavesOtherLevels` | Logger.cpp:64-70 | toggling one level never changes whether a different level is visible |
| `Rows.Visible` | Logger.cpp:195-197 | the rows a draw shows are never more than the rows stored |
| `Rows.VisibleMembership` | Logger.cpp:195-197 | a row is shown if and only if it is stored and `visLevel & level != 0` |
| `Rows.VisibleAppend` | Logger.cpp:195-197 | the filter keeps store order: filtering `s + t` gives the filtered `s` followed by the filtered `t` |
| `Rows.VisibleCount` | Logger.cpp:195-197 | a visible row is shown as many times as it is stored, and a hidden row is never shown |
| `Rows.VisibleIgnoresOrder` | Logger.cpp:195-197 | two stores with the same rows in any order show the same rows, so sorting never changes what is shown |
| `Rows.VisibleAllLevels` | Logger.cpp:195-197 | with all three bits set, every row of a named level is shown, in store order |
| `SnapshotNames.Replace` | Logger.cpp:47 | replacing characters keeps the length of the string |
| `SnapshotNames.ReplaceAt` | Logger.cpp:47 | each position holds the replacement where the old character was `from` and is unchanged elsewhere |
| `SnapshotNames.ReplaceConcat` | Logger.cpp:47 | replacing distributes over concatenation |
| `SnapshotNames.ReplaceInPlace` | Logger.cpp:47 | `std::replace` on a buffer leaves exactly the replaced string in it |
| `SnapshotNames.RawName` | Logger.cpp:46 | the snapshot name before substitution, `"[" + start + "][" + now + "].log"` |
| `SnapshotNames.SnapshotName` | Logger.cpp:46-47 | the raw snapshot name with every `:` replaced by `_` |
| `SnapshotNames.SnapshotNameIsSafe` | Logger.cpp:45-47 | the snapshot name has no `:`, has the length of `"[" + start + "][" + now + "].log"`, and differs from it only where it held `:` |
| `SnapshotNames.SnapshotNameParts` | Logger.cpp:46-47 | the snapshot name is `"[" + safe start + "][" + safe now + "].log"`, each time made safe on its own |
| `SnapshotNames.SnapshotNameStart` | Logger.cpp:46-47 | the snapshot name begins with `[<start>]` made safe, whatever the save time |
| `SnapshotNames.SnapshotNamesShareStart` | Logger.cpp:46 | every snapshot name of one session begins with the same `[<start>]` prefix, whatever the save time |
| `SnapshotNames.ClockTimeSafe` | Logger.cpp:24 | a `%Y-%m-%d %H:%M:%S` time keeps every character except its two `:`, which become `_` |
| `SnapshotNames.SnapshotNameExample` | Logger.cpp:45-47 | start `2024-01-01 10:00:00` and save time `2024-01-01 10:05:30` give `[2024-01-01 10_00_00][2024-01-01 10_05_30].log` |
| `RowOrder.StrLess` | Logger.cpp:187-188 | `std::string` `<`: lexicographic by character code, a proper prefix before any longer string |
| `RowOrder.StrLessIrreflexive` | Logger.cpp:186-188 | no time string sorts before itself |
| `RowOrder.StrLessTransitive` | Logger.cpp:186-188 | string `<` is transitive |
| `RowOrder.StrLessTotal` | Logger.cpp:186-188 | of two different strings, one sorts before the other |
| `RowOrder.StrLessAsymmetric` | Logger.cpp:186-188 | two strings never sort before each other both ways |
| `RowOrder.Precedes` | Logger.cpp:177-191 | the sort comparator: column 0 compares levels, column 1 compares time strings, with `<` when ascending and `>` otherwise; any other column puts no row first |
| `RowOrder.PrecedesIrreflexive` | Logger.cpp:177-191 | the comparator never puts a row before itself |
| `RowOrder.PrecedesAsymmetric` | Logger.cpp:177-191 | the comparator never puts two rows before each other both ways |
| `RowOrder.PrecedesTransitive` | Logger.cpp:177-191 | the comparator is transitive, for every column and direction |
| `RowOrder.NotPrecedesTransitive` | Logger.cpp:177-191 | "does not precede" is transitive, so the comparator is the strict weak ordering `std::sort` requires |
| `RowOrder.SortInPlace` | Logger.cpp:177-191 | after the sort the array is a permutation of its old contents and no row is followed by one the comparator puts before it |
| `RowOrder.SinkInto` | Logger.cpp:177-191 | one insertion step extends the sorted prefix by one row, keeps the same rows and leaves the rest of the array alone |
| `RowOrder.SortedByLevel` | Logger.cpp:179-183 | sorted on column 0, levels are non-decreasing when ascending and non-increasing otherwise |
| `RowOrder.SortedByTime` | Logger.cpp:184-188 | sorted on column 1, time strings are non-decreasing when ascending and non-increasing otherwise |
| `RowOrder.SortedByLevelGroups` | Logger.cpp:179-183 | sorted by level in either direction, rows of one level stand together |
| `RowOrder.SortedPermutationUnique` | Logger.cpp:177-191 | when the comparator orders every two different rows, two sorted arrangements of the same rows are equal |
| `RowOrder.ReversedSortedByTime` | Logger.cpp:184-188 | reversing rows sorted by time ascending gives rows sorted by time descending |
| `RowOrder.AscendingThenDescendingReverses` | Logger.cpp:184-188 | with pairwise different times, sorting by time descending gives exactly the reverse of the ascending order |
| `Logging.Stamp` | Logger.cpp:73 | the time column of a logged row, the formatted time in square brackets |
| `Logging.SavedRow` | Logger.cpp:51 | the row `saveLog` appends: INFO, the stamped save time, and "log saved as " followed by the snapshot name |
| `Logging.FrameMask` | Logger.cpp:118-164 | the mask after one frame's level buttons: the INFO, WARNING and ERROR toggles applied in that order to those pressed |
| `Logging.AfterButtons` | Logger.cpp:110-116 | the store after one frame's Clear and Save Log buttons: empty if Clear was pressed, then the save row if Save Log was pressed while the file is open |
| `Logging.FrameMaskFlipsPressedLevels` | Logger.cpp:118-164 | after one frame's level buttons, each level's visibility has flipped exactly when its button was pressed |
| `Logging.Logger.constructor` | Logger.cpp:28-30 | a new logger has `visLevel == 7`, `dirty` set, the given start time, and exactly one INFO row "Logger initialised" |
| `Logging.Logger.Log` | Logger.cpp:72-77 | `log(message)` appends exactly one INFO row `("[" + now + "]", message)` at the end, sets `dirty` and changes nothing else |
| `Logging.Logger.LogLevel` | Logger.cpp:79-84 | `log(level, message)` appends exactly one row of that level at the end, sets `dirty` and changes nothing else |
| `Logging.Logger.SetLevel` | Logger.cpp:64-70 | `setLevel` replaces the mask by its toggle and leaves the rows, `dirty` and the file state alone |
| `Logging.Logger.Clear` | Logger.cpp:110-112 | Clear leaves the store empty and the mask, `dirty` and the file state unchanged |
| `Logging.Logger.SaveLog` | Logger.cpp:44-52 | the name is the snapshot name of the start and save times, and one INFO row "log saved as " + name is appended if and only if the file is open |
| `Logging.Logger.Destroy` | Logger.cpp:39-42 | the final save at shutdown closes the file and adds no row |
| `Logging.Logger.SortRows` | Logger.cpp:175-193 | after a sort request the rows are a permutation of the old rows, sorted by the requested column and direction |
| `Logging.Logger.VisibleRows` | Logger.cpp:195-197 | the rows drawn are exactly the filter of the store by the current mask, in store order |
| `Logging.Logger.PressClearAndSave` | Logger.cpp:110-116 | the Clear button empties the store before Save Log runs, so the store ends as the cleared or kept rows plus the save row when the file is open |
| `Logging.Logger.ToggleButtons` | Logger.cpp:118-164 | the three level buttons apply their toggles in drawing order and change nothing else |
| `Logging.Logger.Draw` | Logger.cpp:104-224 | a draw applies Clear, then Save Log, then the toggles, then the sort if one was requested. It shows the filtered rows and ends with `dirty` false |

## Left out

- All ImGui calls in `draw()`: window and child layout, button colours, table setup, text
  rendering. They belong to a foreign GUI library and use floating point.
- Scroll-to-bottom when `dirty` is set. It reads and sets ImGui's scroll position. The model keeps the
  `dirty` flag and its reset.
- `formatTime`: it reads the system clock and the local time zone. Times are opaque string
  parameters, and `startTime` holds the start time already formatted.
- File I/O. This covers the lines written to `prev.log` by `log` and `saveLog`, `flush`, `close`,
  the copy to the snapshot file and the error printed when that copy fails. Only whether the file
  is open is modelled, as `fileOpen`. The level-less `log` writes no level tag to the file; since
  file contents are not modelled, that difference is not visible here.
- The commented-out texture loading.
- ImGui's `SpecsDirty` bookkeeping. A sort happens when `Draw` gets a sort request.
- `Levels.ToggledTwiceRestores`: the toggle is proved an involution only for the three enumerators. For a value with
  several bits, the source's toggle is not its own inverse (mask 1, level 3 gives 0, then 3).
  The source only ever passes the three enumerators.
- `RowOrder.SortInPlace` is an insertion sort, not the introsort inside `std::sort`. Both meet the
  same contract: a permutation ordered by the comparator. The order among rows the comparator
  treats as equal is unspecified in the source, and the model promises nothing about it.
