/** The `Logger` object: an in-memory, append-only store of log rows, the visibility mask, and the
    row-store logic of one draw pass (clear, save, level toggles, sort, filter, dirty reset). */
module Logging {
  import opened Levels
  import opened Rows
  import opened SnapshotNames
  import opened RowOrder

  datatype Option<T> = None | Some(value: T)

  /** A sort request from the table header: the column clicked and whether it sorts ascending. */
  datatype SortRequest = SortRequest(column: int, ascending: bool)

  /** What the user did in one frame: the buttons pressed and a changed sort specification, if any. */
  datatype FrameInput = FrameInput(
    clear: bool,
    save: bool,
    toggleInfo: bool,
    toggleWarning: bool,
    toggleError: bool,
    sort: Option<SortRequest>)

  const INIT_MESSAGE := "Logger initialised"

  /** The time column of a row logged at `now`. */
  function Stamp(now: string): string {
    "[" + now + "]"
  }

  /** The row `saveLog` appends when it saves at `now`. */
  function SavedRow(start: string, now: string): Row {
    Row(INFO, Stamp(now), "log saved as " + SnapshotName(start, now))
  }

  /** The mask after the level buttons of one frame, pressed in the order they are drawn. */
  function FrameMask(mask: Mask, input: FrameInput): Mask {
    var m1 := if input.toggleInfo then Toggled(mask, INFO) else mask;
    var m2 := if input.toggleWarning then Toggled(m1, WARNING) else m1;
    if input.toggleError then Toggled(m2, ERROR) else m2
  }

  /** A frame's level buttons decide each level's visibility on their own: a level's visibility
      flips exactly when its button was pressed. */
  lemma FrameMaskFlipsPressedLevels(mask: Mask, input: FrameInput)
    ensures IsVisible(FrameMask(mask, input), INFO) == (IsVisible(mask, INFO) != input.toggleInfo)
    ensures IsVisible(FrameMask(mask, input), WARNING) == (IsVisible(mask, WARNING) != input.toggleWarning)
    ensures IsVisible(FrameMask(mask, input), ERROR) == (IsVisible(mask, ERROR) != input.toggleError)
  {
    var m1 := if input.toggleInfo then Toggled(mask, INFO) else mask;
    var m2 := if input.toggleWarning then Toggled(m1, WARNING) else m1;
    if input.toggleInfo {
      ToggledFlipsVisibility(mask, INFO);
      ToggledLeavesOtherLevels(mask, INFO, WARNING);
      ToggledLeavesOtherLevels(mask, INFO, ERROR);
    }
    if input.toggleWarning {
      ToggledFlipsVisibility(m1, WARNING);
      ToggledLeavesOtherLevels(m1, WARNING, INFO);
      ToggledLeavesOtherLevels(m1, WARNING, ERROR);
    }
    if input.toggleError {
      ToggledFlipsVisibility(m2, ERROR);
      ToggledLeavesOtherLevels(m2, ERROR, INFO);
      ToggledLeavesOtherLevels(m2, ERROR, WARNING);
    }
  }

  class Logger {
    /** The rows drawn by the logger, oldest first unless a sort reordered them. */
    var rows: seq<Row>
    /** Whether the view is out of date (a row was logged since the last draw). */
    var dirty: bool
    /** The bits of the levels whose rows are drawn. */
    var visLevel: Mask
    /** Whether the running log file `prev.log` is open. */
    var fileOpen: bool
    /** The formatted time the session started at; fixed at construction. */
    const startTime: string

    /** `Logger()`: all levels visible, dirty, and one INFO row announcing the logger.
        `isOpen` says whether `prev.log` could be opened. */
    constructor (start: string, now: string, isOpen: bool)
      ensures startTime == start && fileOpen == isOpen
      ensures visLevel == ALL_VISIBLE && dirty
      ensures rows == [Row(INFO, Stamp(now), INIT_MESSAGE)]
    {
      startTime := start;
      visLevel := ALL_VISIBLE;
      dirty := true;
      fileOpen := isOpen;
      rows := [];
      new;
      Log(now, INIT_MESSAGE);
    }

    /** `log(message)`: appends one INFO row stamped `now`. */
    method Log(now: string, message: string)
      modifies this
      ensures rows == old(rows) + [Row(INFO, Stamp(now), message)]
      ensures dirty
      ensures visLevel == old(visLevel) && fileOpen == old(fileOpen)
    {
      rows := rows + [Row(INFO, Stamp(now), message)];
      dirty := true;
    }

    /** `log(level, message)`: appends one row of the given level stamped `now`. */
    method LogLevel(level: Level, now: string, message: string)
      modifies this
      ensures rows == old(rows) + [Row(level, Stamp(now), message)]
      ensures dirty
      ensures visLevel == old(visLevel) && fileOpen == old(fileOpen)
    {
      rows := rows + [Row(level, Stamp(now), message)];
      dirty := true;
    }

    /** `setLevel(level)`: toggles whether rows of `level` are drawn. */
    method SetLevel(level: Level)
      modifies this
      ensures visLevel == Toggled(old(visLevel), level)
      ensures rows == old(rows) && dirty == old(dirty) && fileOpen == old(fileOpen)
    {
      if visLevel & level != 0 {
        visLevel := visLevel & !(level as Mask);
      } else {
        visLevel := visLevel | level;
      }
    }

    /** The "Clear" button: empties the store and nothing else. */
    method Clear()
      modifies this
      ensures rows == []
      ensures visLevel == old(visLevel) && dirty == old(dirty) && fileOpen == old(fileOpen)
    {
      rows := [];
    }

    /** `saveLog()` at time `now`: builds the snapshot name and, if the running log file is open,
        appends the row recording the save. Returns the name the file is copied to. */
    method SaveLog(now: string) returns (name: string)
      modifies this
      ensures name == SnapshotName(startTime, now)
      ensures rows == old(rows) + (if fileOpen then [SavedRow(startTime, now)] else [])
      ensures visLevel == old(visLevel) && dirty == old(dirty) && fileOpen == old(fileOpen)
    {
      var raw := RawName(startTime, now);
      var buffer := new char[|raw|](i requires 0 <= i < |raw| => raw[i]);
      assert buffer[..] == raw;
      ReplaceInPlace(buffer, ':', '_');
      name := buffer[..];
      if fileOpen {
        rows := rows + [Row(INFO, Stamp(now), "log saved as " + name)];
      }
    }

    /** `~Logger()` at time `now`: closes the running log file, then saves a last snapshot.
        With the file closed, that save records no row. */
    method Destroy(now: string) returns (name: string)
      modifies this
      ensures name == SnapshotName(startTime, now)
      ensures rows == old(rows) && !fileOpen
      ensures visLevel == old(visLevel) && dirty == old(dirty)
    {
      fileOpen := false;
      name := SaveLog(now);
    }

    /** Sorting when the table's sort specification changed: the rows are reordered in place. */
    method SortRows(column: int, ascending: bool)
      modifies this
      ensures SortedBy(rows, column, ascending)
      ensures multiset(rows) == multiset(old(rows))
      ensures visLevel == old(visLevel) && dirty == old(dirty) && fileOpen == old(fileOpen)
    {
      var buffer := new Row[|rows|](i reads this requires 0 <= i < |rows| => rows[i]);
      assert buffer[..] == rows;
      SortInPlace(buffer, column, ascending);
      rows := buffer[..];
    }

    /** The rows one draw puts in the table: those whose level is visible, in store order. */
    method VisibleRows() returns (shown: seq<Row>)
      ensures shown == Visible(rows, visLevel)
    {
      shown := [];
      var i := 0;
      while i < |rows|
        invariant 0 <= i <= |rows|
        invariant shown == Visible(rows[..i], visLevel)
      {
        VisiblePrefixStep(rows, i, visLevel);
        if IsVisible(visLevel, rows[i].level) {
          shown := shown + [rows[i]];
        }
        i := i + 1;
      }
      assert rows[..i] == rows;
    }

    /** `draw()` without the widgets: applies the frame's Clear, Save Log and level buttons in the
        order they are drawn, sorts if the sort specification changed, returns the rows the table
        shows and marks the view up to date. */
    method Draw(input: FrameInput, now: string) returns (shown: seq<Row>)
      modifies this
      ensures !dirty
      ensures shown == Visible(rows, visLevel)
      ensures visLevel == FrameMask(old(visLevel), input)
      ensures fileOpen == old(fileOpen)
      ensures multiset(rows) == multiset(AfterButtons(old(rows), input, old(fileOpen), startTime, now))
      ensures input.sort.None? ==> rows == AfterButtons(old(rows), input, old(fileOpen), startTime, now)
      ensures input.sort.Some? ==> SortedBy(rows, input.sort.value.column, input.sort.value.ascending)
    {
      ghost var mask := visLevel;
      PressClearAndSave(input, now);
      ToggleButtons(input);
      ghost var toggled := visLevel;
      assert toggled == FrameMask(mask, input);
      if input.sort.Some? {
        SortRows(input.sort.value.column, input.sort.value.ascending);
      }
      shown := VisibleRows();
      dirty := false;
      assert visLevel == toggled;
    }

    /** The Clear and Save Log buttons of one frame, in the order they are drawn. */
    method PressClearAndSave(input: FrameInput, now: string)
      modifies this
      ensures rows == AfterButtons(old(rows), input, fileOpen, startTime, now)
      ensures visLevel == old(visLevel) && dirty == old(dirty) && fileOpen == old(fileOpen)
    {
      if input.clear {
        Clear();
      }
      if input.save {
        var _ := SaveLog(now);
      }
    }

    /** The three level buttons of one frame, in the order they are drawn. */
    method ToggleButtons(input: FrameInput)
      modifies this
      ensures visLevel == FrameMask(old(visLevel), input)
      ensures rows == old(rows) && dirty == old(dirty) && fileOpen == old(fileOpen)
    {
      if input.toggleInfo {
        SetLevel(INFO);
      }
      if input.toggleWarning {
        SetLevel(WARNING);
      }
      if input.toggleError {
        SetLevel(ERROR);
      }
    }
  }

  /** The rows after a frame's Clear and Save Log buttons, before any sort. */
  function AfterButtons(rows: seq<Row>, input: FrameInput, fileOpen: bool, start: string, now: string): seq<Row> {
    (if input.clear then [] else rows) + (if input.save && fileOpen then [SavedRow(start, now)] else [])
  }

  /** A short session: "boot" logged at INFO, "disk fault" at ERROR, then INFO hidden, leaving only
      the fault on screen, and shown again, bringing back all three rows. */
  method BootThenDiskFault(start: string, t0: string, t1: string, t2: string) {
    var logger := new Logger(start, t0, true);
    logger.LogLevel(INFO, t1, "boot");
    logger.LogLevel(ERROR, t2, "disk fault");
    var r0, r1, r2 := Row(INFO, Stamp(t0), INIT_MESSAGE), Row(INFO, Stamp(t1), "boot"), Row(ERROR, Stamp(t2), "disk fault");
    assert logger.rows == [r0, r1, r2];
    logger.SetLevel(INFO);
    ToggledIsXor(ALL_VISIBLE, INFO);
    assert !IsVisible(logger.visLevel, INFO) && IsVisible(logger.visLevel, ERROR);
    var shown := logger.VisibleRows();
    VisibleAppend([r0, r1], [r2], logger.visLevel);
    VisibleAppend([r0], [r1], logger.visLevel);
    assert Visible([r0], logger.visLevel) == [] && Visible([r1], logger.visLevel) == [];
    assert shown == [r2];
    logger.SetLevel(INFO);
    ToggledTwiceRestores(ALL_VISIBLE, INFO);
    shown := logger.VisibleRows();
    VisibleAllLevels(logger.rows, logger.visLevel);
    assert shown == [r0, r1, r2];
  }
}
