/** The per-row job scheduler, `_job_runner` (main.py:412-442), and the
    last-run stamp `_actualizar_timestamps` writes back (main.py:392-405).
    Instants are whole seconds on the UTC clock of `Dates.ClockSeconds`. */
module Scheduler {
  import opened Values
  import opened Text
  import opened Dates
  import opened Numbers
  import opened Sheets
  import opened Accounts

  const IntervalTitle: string := "Intervalo (minutos)"
  const LastRunTitle: string := "Ultima ejecucion"

  /** The configuration columns the scheduler reads, found by slug. */
  datatype ScheduleColumns = ScheduleColumns(interval: Option<Id>, lastRun: Option<Id>)

  function ScheduleColumnsOf(columns: seq<Column>): ScheduleColumns
  {
    var index := ColumnIndex(columns);
    ScheduleColumns(ColumnFor(index, Slug(IntervalTitle)), ColumnFor(index, Slug(LastRunTitle)))
  }

  /** Each scheduling column is found exactly when some column's title has
      its slug, and is then a column of the sheet. */
  lemma ScheduleColumnsSpec(columns: seq<Column>)
    ensures var cols := ScheduleColumnsOf(columns);
      && (cols.interval.Some? <==> exists i :: 0 <= i < |columns| && Key(columns[i]) == Slug(IntervalTitle))
      && (cols.lastRun.Some? <==> exists i :: 0 <= i < |columns| && Key(columns[i]) == Slug(LastRunTitle))
      && (cols.interval.Some? ==> exists i :: 0 <= i < |columns| && columns[i].id == cols.interval.value)
      && (cols.lastRun.Some? ==> exists i :: 0 <= i < |columns| && columns[i].id == cols.lastRun.value)
  {
    ColumnIndexKeys(columns, Slug(IntervalTitle));
    ColumnIndexKeys(columns, Slug(LastRunTitle));
    ColumnIndexIds(columns);
  }

  // ---------------------------------------------------------------------------
  // Reading a row (main.py:425-435)

  /** Cell `c` is in column `col` (never when the column is missing). */
  predicate InColumn(c: Cell, col: Option<Id>)
  {
    col == Some(c.column)
  }

  /** Cell `c` sets the interval: it is in the interval column and has a value. */
  predicate SetsInterval(c: Cell, col: Option<Id>)
  {
    InColumn(c, col) && c.value != Null
  }

  /** The value of the last interval cell that has one (`None` when none has). */
  function IntervalCell(cells: seq<Cell>, col: Option<Id>): Value
  {
    if cells == [] then Null
    else
      var c := cells[|cells| - 1];
      if SetsInterval(c, col) then c.value else IntervalCell(cells[..|cells| - 1], col)
  }

  /** The interval in minutes: `int()` of the last interval cell with a value,
      0 when there is none or `int()` raises. */
  function IntervalOf(cells: seq<Cell>, col: Option<Id>): int
  {
    IntOrZero(IntervalCell(cells, col))
  }

  /** How a last-run stamp is read: with `_parse_iso` as main.py:103-114
      writes it (`AsWritten`, the program itself), or with its `Z` read as
      UTC (`Corrected`, the intended program). */
  datatype StampReading = AsWritten | Corrected

  function ReadStamp(reading: StampReading, v: Value): Option<int>
  {
    match reading
    case AsWritten => ParseIsoAsWritten(v)
    case Corrected => ParseIso(v)
  }

  /** The last run: the reading of `value or display` of the last cell in the
      last-run column, `None` when there is none or it does not parse. */
  function LastRunOf(reading: StampReading, cells: seq<Cell>, col: Option<Id>): Option<int>
  {
    if cells == [] then None
    else
      var c := cells[|cells| - 1];
      if InColumn(c, col) then ReadStamp(reading, Or(c.value, OfDisplay(c.display)))
      else LastRunOf(reading, cells[..|cells| - 1], col)
  }

  /** The cell loop of main.py:428-435. */
  method ReadSchedule(reading: StampReading, cells: seq<Cell>, cols: ScheduleColumns) returns (interval: int, last: Option<int>)
    ensures interval == IntervalOf(cells, cols.interval)
    ensures last == LastRunOf(reading, cells, cols.lastRun)
  {
    interval := 0;
    last := None;
    for k := 0 to |cells|
      invariant interval == IntervalOf(cells[..k], cols.interval)
      invariant last == LastRunOf(reading, cells[..k], cols.lastRun)
    {
      var c := cells[k];
      assert cells[..k + 1][..k] == cells[..k];
      if cols.interval.Some? && c.column == cols.interval.value && c.value != Null {
        interval := IntOrZero(c.value);
      }
      if cols.lastRun.Some? && c.column == cols.lastRun.value {
        last := ReadStamp(reading, Or(c.value, OfDisplay(c.display)));
      }
    }
    assert cells[..|cells|] == cells;
  }

  /** Cell `i` is the last one that sets the interval. */
  predicate LastSetter(cells: seq<Cell>, col: Option<Id>, i: int)
  {
    0 <= i < |cells| && SetsInterval(cells[i], col) &&
    forall j :: i < j < |cells| ==> !SetsInterval(cells[j], col)
  }

  /** Cell `i` is the last one in the last-run column. */
  predicate LastInColumn(cells: seq<Cell>, col: Option<Id>, i: int)
  {
    0 <= i < |cells| && InColumn(cells[i], col) &&
    forall j :: i < j < |cells| ==> !InColumn(cells[j], col)
  }

  /** The interval is 0 when no cell sets it. */
  lemma {:induction false} IntervalUnset(cells: seq<Cell>, col: Option<Id>)
    requires forall i :: 0 <= i < |cells| ==> !SetsInterval(cells[i], col)
    ensures IntervalOf(cells, col) == 0
  {
    if cells != [] {
      var n := |cells| - 1;
      assert forall i :: 0 <= i < n ==> cells[..n][i] == cells[i];
      IntervalUnset(cells[..n], col);
    }
  }

  lemma {:induction false} IntervalCellFromLast(cells: seq<Cell>, col: Option<Id>, i: int)
    requires LastSetter(cells, col, i)
    ensures IntervalCell(cells, col) == cells[i].value
  {
    var n := |cells| - 1;
    if i < n {
      assert forall j :: 0 <= j < n ==> cells[..n][j] == cells[j];
      assert LastSetter(cells[..n], col, i);
      IntervalCellFromLast(cells[..n], col, i);
    }
  }

  /** The interval comes from the last cell that sets it. */
  lemma IntervalFromLast(cells: seq<Cell>, col: Option<Id>, i: int)
    requires LastSetter(cells, col, i)
    ensures IntervalOf(cells, col) == IntOrZero(cells[i].value)
  {
    IntervalCellFromLast(cells, col, i);
  }

  /** There is no last run when the row has no cell in its column. */
  lemma {:induction false} LastRunUnset(reading: StampReading, cells: seq<Cell>, col: Option<Id>)
    requires forall i :: 0 <= i < |cells| ==> !InColumn(cells[i], col)
    ensures LastRunOf(reading, cells, col) == None
  {
    if cells != [] {
      var n := |cells| - 1;
      assert forall i :: 0 <= i < n ==> cells[..n][i] == cells[i];
      LastRunUnset(reading, cells[..n], col);
    }
  }

  /** The last run comes from the last cell of its column. */
  lemma {:induction false} LastRunFromLast(reading: StampReading, cells: seq<Cell>, col: Option<Id>, i: int)
    requires LastInColumn(cells, col, i)
    ensures LastRunOf(reading, cells, col) == ReadStamp(reading, Or(cells[i].value, OfDisplay(cells[i].display)))
  {
    var n := |cells| - 1;
    if i < n {
      assert forall j :: 0 <= j < n ==> cells[..n][j] == cells[j];
      assert LastInColumn(cells[..n], col, i);
      LastRunFromLast(reading, cells[..n], col, i);
    }
  }

  // ---------------------------------------------------------------------------
  // Deciding (main.py:437-440)

  datatype Decision = Idle | Waiting | Due

  /** A row with no positive interval is idle; one without a readable last
      run is due; otherwise it is due once `interval` minutes have passed. */
  function Decide(interval: int, last: Option<int>, now: int): Decision
  {
    if interval <= 0 then Idle
    else if last.None? then Due
    else if now - last.value >= 60 * interval then Due
    else Waiting
  }

  /** The row is due exactly when it has a positive interval and either no
      readable last run or one at least `interval` minutes before `now`; and
      a due row stays due as time goes on. */
  lemma DecideSpec(interval: int, last: Option<int>, now: int, later: int)
    ensures Decide(interval, last, now) == Due <==>
      interval > 0 && (last.None? || now >= last.value + 60 * interval)
    ensures Decide(interval, last, now) == Idle <==> interval <= 0
    ensures Decide(interval, last, now) == Due && now <= later ==> Decide(interval, last, later) == Due
  {
  }

  /** What the next scheduler round runs for a row. */
  datatype Job = Job(row: Id, idFilter: Option<string>, interval: int)

  /** The `ID` filter a row's job passes on: the display text of its first
      cell, `None` when the row has no cells. */
  function RowIdFilter(r: Row): Option<string>
  {
    if r.cells == [] then None else r.cells[0].display
  }

  /** The job of one row at instant `now`, if it is due. */
  function RowJob(reading: StampReading, r: Row, cols: ScheduleColumns, now: int): (job: Option<Job>)
    ensures job.Some? ==> job.value.row == r.id && job.value.idFilter == RowIdFilter(r)
  {
    var interval := IntervalOf(r.cells, cols.interval);
    if Decide(interval, LastRunOf(reading, r.cells, cols.lastRun), now) == Due then
      Some(Job(r.id, RowIdFilter(r), interval))
    else None
  }

  /** Each row's job, if it has one, in row order; row `i` is decided at
      instant `clock[i]`, the clock reading taken when the loop reaches it. */
  function RowJobs(reading: StampReading, rows: seq<Row>, cols: ScheduleColumns, clock: seq<int>): (c: seq<Option<Job>>)
    requires |clock| == |rows|
    ensures |c| == |rows|
  {
    seq(|rows|, i requires 0 <= i < |rows| => RowJob(reading, rows[i], cols, clock[i]))
  }

  /** The jobs of one round, in row order. */
  function DueJobs(reading: StampReading, rows: seq<Row>, cols: ScheduleColumns, clock: seq<int>): seq<Job>
    requires |clock| == |rows|
  {
    Present(RowJobs(reading, rows, cols, clock))
  }

  /** One row of a round (main.py:422-440). */
  method CheckRow(reading: StampReading, r: Row, cols: ScheduleColumns, now: int) returns (job: Option<Job>)
    ensures job == RowJob(reading, r, cols, now)
  {
    var idFilter := if r.cells == [] then None else r.cells[0].display;
    var interval, last := ReadSchedule(reading, r.cells, cols);
    if interval <= 0 {
      return None;
    }
    if last.None? || now - last.value >= 60 * interval {
      return Some(Job(r.id, idFilter, interval));
    }
    return None;
  }

  /** One round over the configuration rows (main.py:415-442). Row `i` is
      decided at `clock[i]`: main.py:440 reads the clock again for each row,
      after the jobs of the rows before it have been awaited. */
  method Tick(reading: StampReading, sheet: Sheet, clock: seq<int>) returns (jobs: seq<Job>)
    requires |clock| == |sheet.rows|
    ensures jobs == DueJobs(reading, sheet.rows, ScheduleColumnsOf(sheet.columns), clock)
  {
    var cols := ScheduleColumnsOf(sheet.columns);
    jobs := CheckRows(reading, sheet.rows, cols, clock);
  }

  /** The row loop of a round. */
  method CheckRows(reading: StampReading, rows: seq<Row>, cols: ScheduleColumns, clock: seq<int>) returns (jobs: seq<Job>)
    requires |clock| == |rows|
    ensures jobs == DueJobs(reading, rows, cols, clock)
  {
    ghost var candidates := RowJobs(reading, rows, cols, clock);
    jobs := [];
    for k := 0 to |rows|
      invariant jobs == Present(candidates[..k])
    {
      assert candidates[..k + 1][..k] == candidates[..k];
      var job := CheckRow(reading, rows[k], cols, clock[k]);
      assert job == candidates[k];
      if job.Some? {
        jobs := jobs + [job.value];
      }
    }
    assert candidates[..|rows|] == candidates;
  }

  /** A round runs a job for exactly the rows due when the loop reaches them. */
  lemma DueJobsSpec(reading: StampReading, rows: seq<Row>, cols: ScheduleColumns, clock: seq<int>)
    requires |clock| == |rows|
    ensures |DueJobs(reading, rows, cols, clock)| <= |rows|
    ensures forall i :: 0 <= i < |rows| && RowJob(reading, rows[i], cols, clock[i]).Some? ==>
      RowJob(reading, rows[i], cols, clock[i]).value in DueJobs(reading, rows, cols, clock)
    ensures forall job :: job in DueJobs(reading, rows, cols, clock) ==>
      exists i :: 0 <= i < |rows| && RowJob(reading, rows[i], cols, clock[i]) == Some(job)
  {
    var candidates := RowJobs(reading, rows, cols, clock);
    PresentSpec(candidates);
    assert forall i :: 0 <= i < |rows| ==> candidates[i] == RowJob(reading, rows[i], cols, clock[i]);
  }

  /** The clock only moves forward during a round: a job due at the round's
      start is still run, so a round at later readings runs every job a
      round at one earlier instant would run. */
  lemma LaterClockRunsMore(reading: StampReading, rows: seq<Row>, cols: ScheduleColumns, now: int, clock: seq<int>)
    requires |clock| == |rows|
    requires forall i :: 0 <= i < |clock| ==> now <= clock[i]
    ensures forall job :: job in DueJobs(reading, rows, cols, seq(|rows|, _ => now)) ==>
      job in DueJobs(reading, rows, cols, clock)
  {
    var start := seq(|rows|, _ => now);
    DueJobsSpec(reading, rows, cols, start);
    DueJobsSpec(reading, rows, cols, clock);
    forall job | job in DueJobs(reading, rows, cols, start)
      ensures job in DueJobs(reading, rows, cols, clock)
    {
      var i :| 0 <= i < |rows| && RowJob(reading, rows[i], cols, start[i]) == Some(job);
      RowJobCases(reading, rows[i], cols, now, clock[i]);
      assert RowJob(reading, rows[i], cols, clock[i]) == Some(job);
    }
  }

  /** Without an interval column no row ever runs; a row whose interval does
      not read as a positive whole number never runs; a row with a positive
      interval and no readable last run runs in every round; and a row that
      is due stays due in later rounds. */
  lemma RowJobCases(reading: StampReading, r: Row, cols: ScheduleColumns, now: int, later: int)
    ensures cols.interval.None? ==> RowJob(reading, r, cols, now).None?
    ensures IntervalOf(r.cells, cols.interval) <= 0 ==> RowJob(reading, r, cols, now).None?
    ensures IntervalOf(r.cells, cols.interval) > 0 && LastRunOf(reading, r.cells, cols.lastRun).None? ==>
      RowJob(reading, r, cols, now).Some?
    ensures RowJob(reading, r, cols, now).Some? && now <= later ==> RowJob(reading, r, cols, later).Some?
  {
    if cols.interval.None? {
      IntervalUnset(r.cells, cols.interval);
    }
    DecideSpec(IntervalOf(r.cells, cols.interval), LastRunOf(reading, r.cells, cols.lastRun), now, later);
  }

  /** A job whose row has no cells, or an empty or missing first display
      value, selects every account of the configuration. */
  lemma JobFilterAll(reading: StampReading, r: Row, cols: ScheduleColumns, now: int, cfg: seq<ConfigRow>)
    requires RowJob(reading, r, cols, now).Some?
    requires RowIdFilter(r) == None || RowIdFilter(r) == Some("")
    ensures Selection(cfg, RowJob(reading, r, cols, now).value.idFilter) == Selection(cfg, None)
  {
    EmptyIdSelectsAll(cfg);
  }

  // ---------------------------------------------------------------------------
  // After a job (main.py:392-405, 443-446)

  /** The row after `update_rows` sets column `col` to `v`. */
  function SetColumn(cells: seq<Cell>, col: Id, v: Value): (r: seq<Cell>)
    ensures |r| == |cells|
    ensures forall i :: 0 <= i < |cells| ==>
      r[i] == (if cells[i].column == col then Cell(col, v, cells[i].display) else cells[i])
  {
    seq(|cells|, i requires 0 <= i < |cells| =>
      if cells[i].column == col then Cell(col, v, cells[i].display) else cells[i])
  }

  /** The stamp a job leaves: the UTC time `t` it finished, in the last-run
      column. A run that raised leaves no stamp, and neither does a sheet
      without the column (the update cannot name it). */
  function AfterJob(r: Row, cols: ScheduleColumns, result: SyncResult, t: DateTime): Row
    requires ValidDateTime(t)
  {
    if result.Synced? && cols.lastRun.Some? then
      Row(r.id, SetColumn(r.cells, cols.lastRun.value, Str(UtcStamp(t))))
    else r
  }

  /** A job that raised is retried: its row is untouched and stays due. */
  lemma FailedJobRetried(reading: StampReading, r: Row, cols: ScheduleColumns, result: SyncResult, t: DateTime, now: int, later: int)
    requires ValidDateTime(t)
    requires !result.Synced?
    requires RowJob(reading, r, cols, now).Some? && now <= later
    ensures RowJob(reading, AfterJob(r, cols, result, t), cols, later).Some?
  {
    RowJobCases(reading, r, cols, now, later);
  }

  lemma {:induction false} IntervalCellKept(cells: seq<Cell>, col: Option<Id>, other: Id, v: Value)
    requires col != Some(other)
    ensures IntervalCell(SetColumn(cells, other, v), col) == IntervalCell(cells, col)
  {
    if cells != [] {
      var n := |cells| - 1;
      assert SetColumn(cells, other, v)[..n] == SetColumn(cells[..n], other, v);
      IntervalCellKept(cells[..n], col, other, v);
    }
  }

  /** Setting another column leaves the interval alone. */
  lemma IntervalKept(cells: seq<Cell>, col: Option<Id>, other: Id, v: Value)
    requires col != Some(other)
    ensures IntervalOf(SetColumn(cells, other, v), col) == IntervalOf(cells, col)
  {
    IntervalCellKept(cells, col, other, v);
  }

  /** After the stamp, the last run reads back as the stamped value. */
  lemma {:induction false} LastRunStamped(reading: StampReading, cells: seq<Cell>, col: Id, v: Value)
    requires Truthy(v)
    requires exists i :: 0 <= i < |cells| && cells[i].column == col
    ensures LastRunOf(reading, SetColumn(cells, col, v), Some(col)) == ReadStamp(reading, v)
  {
    var n := |cells| - 1;
    var s := SetColumn(cells, col, v);
    if cells[n].column != col {
      var i :| 0 <= i < |cells| && cells[i].column == col;
      assert cells[..n][i] == cells[i];
      assert s[..n] == SetColumn(cells[..n], col, v);
      LastRunStamped(reading, cells[..n], col, v);
    }
  }

  /** After a successful job finished at UTC time `t`, the row runs again
      exactly when `interval` minutes have passed since `t`, once the stamp
      is read with its `Z` as UTC. */
  lemma StampedJobDue(r: Row, cols: ScheduleColumns, result: SyncResult, t: DateTime, now: int)
    requires ValidDateTime(t)
    requires result.Synced? && cols.lastRun.Some? && cols.interval != cols.lastRun
    requires exists i :: 0 <= i < |r.cells| && r.cells[i].column == cols.lastRun.value
    requires IntervalOf(r.cells, cols.interval) > 0
    ensures RowJob(Corrected, AfterJob(r, cols, result, t), cols, now).Some? <==>
      now - ClockSeconds(t) >= 60 * IntervalOf(r.cells, cols.interval)
  {
    var stamp := Str(UtcStamp(t));
    assert Truthy(stamp) by {
      UtcStampShape(t);
    }
    IntervalKept(r.cells, cols.interval, cols.lastRun.value, stamp);
    LastRunStamped(Corrected, r.cells, cols.lastRun.value, stamp);
    StampReadBack(t);
  }

  /** The same round trip as the program reads it: after a successful job
      finished at UTC time `t`, the row runs again only once its interval
      and six more hours have passed since `t`. */
  lemma StampedJobDueAsWritten(r: Row, cols: ScheduleColumns, result: SyncResult, t: DateTime, now: int)
    requires ValidDateTime(t)
    requires result.Synced? && cols.lastRun.Some? && cols.interval != cols.lastRun
    requires exists i :: 0 <= i < |r.cells| && r.cells[i].column == cols.lastRun.value
    requires IntervalOf(r.cells, cols.interval) > 0
    ensures RowJob(AsWritten, AfterJob(r, cols, result, t), cols, now).Some? <==>
      now - ClockSeconds(t) >= 60 * IntervalOf(r.cells, cols.interval) + 6 * 3600
  {
    var stamp := Str(UtcStamp(t));
    assert Truthy(stamp) by {
      UtcStampShape(t);
    }
    IntervalKept(r.cells, cols.interval, cols.lastRun.value, stamp);
    LastRunStamped(AsWritten, r.cells, cols.lastRun.value, stamp);
    StampReadBackSixHoursLate(t);
  }
}
