/**
 * `process_gdrive_files` and `process_files`: select the daily export files
 * of a date range, read each into a table, resolve every row's sale date,
 * then clean the combined rows into sale records.
 */
module Ingest {
  import opened Wrappers
  import opened Dates
  import opened FilenameDate
  import opened Categories
  import opened Names
  import opened Seqs

  /**
   * One spreadsheet row. Each numeric cell is `None` when
   * `pd.to_numeric(..., errors='coerce')` finds no number in it; a missing
   * `Description` is `None`; `saleDate` is the parsed `Saledate` cell.
   */
  datatype RawRow = RawRow(
    description: Option<string>,
    netAmount: Option<real>,
    quantity: Option<real>,
    hourId: Option<real>,
    saleDate: Option<Date>)

  /** The columns the cleaning reads from the combined table. */
  datatype Column = Description | ExtendedNetAmount | Quantity | HourId

  const AllColumns: set<Column> := {Description, ExtendedNetAmount, Quantity, HourId}

  /** The column's header in the export. */
  function ColumnName(c: Column): string
  {
    match c
    case Description => "Description"
    case ExtendedNetAmount => "ExtendedNetAmount"
    case Quantity => "Quantity"
    case HourId => "Hour_ID"
  }

  /**
   * A table read from one file: whether it has a `Saledate` column, which of
   * the columns the cleaning reads it has, and its rows.
   */
  datatype RawTable = RawTable(hasSaleDateColumn: bool, columns: set<Column>, rows: seq<RawRow>)

  /** A file of the sales folder; `table` is `None` when it could not be downloaded or read. */
  datatype SourceFile = SourceFile(name: string, table: Option<RawTable>)

  /** A row of the combined table, with the `Date` and `FileDate` columns added per file. */
  datatype DatedRow = DatedRow(row: RawRow, date: Option<Date>, fileDate: Option<Date>)

  /** One point-of-sale line item after cleaning. */
  datatype SaleRecord = SaleRecord(
    date: Option<Date>,
    fileDate: Option<Date>,
    hour: int,
    product: string,
    category: Category,
    revenue: real,
    quantity: real)

  /**
   * The three messages returned with an empty frame, and the `KeyError` that
   * escapes when no file read has a column the cleaning needs.
   */
  datatype LoadError = NoFilesInFolder | NoFilesInRange | NoFileReadable | KeyError(column: Column)

  function Message(e: LoadError): string
  {
    match e
    case NoFilesInFolder => "No files found in the folder"
    case NoFilesInRange => "No files found in the selected date range"
    case NoFileReadable => "Could not process any files"
    case KeyError(c) => ColumnName(c)
  }

  // ---- file selection by the date in the file name ----

  /** A file is kept when its name carries a date inside the bounds that are given. */
  predicate InRange(f: SourceFile, start: Option<Date>, end: Option<Date>)
  {
    var d := ExtractDate(f.name);
    d.Some?
    && (start.None? || !Before(d.value, start.value))
    && (end.None? || !Before(end.value, d.value))
  }

  function FilesInRange(files: seq<SourceFile>, start: Option<Date>, end: Option<Date>): seq<SourceFile>
  {
    Filter(files, f => InRange(f, start, end))
  }

  /** The loop that builds `filtered_files`. */
  method FilterByDate(files: seq<SourceFile>, start: Option<Date>, end: Option<Date>)
    returns (kept: seq<SourceFile>)
    ensures kept == FilesInRange(files, start, end)
  {
    kept := [];
    var i := 0;
    while i < |files|
      invariant 0 <= i <= |files|
      invariant kept == FilesInRange(files[..i], start, end)
    {
      var f := files[i];
      assert files[..i + 1][..i] == files[..i];
      if InRange(f, start, end) {
        kept := kept + [f];
      }
      i := i + 1;
    }
    assert files[..i] == files;
  }

  /** The selection keeps exactly the in-range files, in their original order. */
  lemma FilesInRangeSpec(files: seq<SourceFile>, start: Option<Date>, end: Option<Date>)
    ensures IsSubsequence(FilesInRange(files, start, end), files)
    ensures forall f :: f in FilesInRange(files, start, end) <==> f in files && InRange(f, start, end)
    ensures forall f :: f in FilesInRange(files, start, end) ==> ExtractDate(f.name).Some?
  {
    FilterIsSubsequence(files, f => InRange(f, start, end));
  }

  // ---- reading the selected files ----

  /** The `Date` column: `Saledate` when the table has one, else the file's date, else none. */
  function RowDate(t: RawTable, fileDate: Option<Date>, r: RawRow): (d: Option<Date>)
    ensures t.hasSaleDateColumn ==> d == r.saleDate
    ensures !t.hasSaleDateColumn ==> d == fileDate
  {
    if t.hasSaleDateColumn then r.saleDate else fileDate
  }

  /** A row as it stands in the combined table: `concat` leaves the cells of columns its file lacks empty. */
  function InCombined(t: RawTable, r: RawRow): RawRow
  {
    RawRow(
      if Description in t.columns then r.description else None,
      if ExtendedNetAmount in t.columns then r.netAmount else None,
      if Quantity in t.columns then r.quantity else None,
      if HourId in t.columns then r.hourId else None,
      r.saleDate)
  }

  /** The rows one readable file contributes to `all_data`. */
  function FileRows(f: SourceFile): (rs: seq<DatedRow>)
    requires f.table.Some?
    ensures |rs| == |f.table.value.rows|
    ensures forall i :: 0 <= i < |rs| ==> rs[i].row == InCombined(f.table.value, f.table.value.rows[i])
    ensures forall i :: 0 <= i < |rs| ==> rs[i].fileDate == ExtractDate(f.name)
    ensures forall i :: 0 <= i < |rs| ==>
              rs[i].date == if f.table.value.hasSaleDateColumn then f.table.value.rows[i].saleDate else ExtractDate(f.name)
  {
    var t := f.table.value;
    var fd := ExtractDate(f.name);
    seq(|t.rows|, i requires 0 <= i < |t.rows| => DatedRow(InCombined(t, t.rows[i]), RowDate(t, fd, t.rows[i]), fd))
  }

  /** `pd.concat(all_data)`: the rows of every readable file, file by file. */
  function AllRows(files: seq<SourceFile>): seq<DatedRow>
    decreases |files|
  {
    if files == [] then []
    else
      var f := files[|files| - 1];
      AllRows(files[..|files| - 1]) + (if f.table.Some? then FileRows(f) else [])
  }

  predicate Readable(f: SourceFile)
  {
    f.table.Some?
  }

  /** The columns of `pd.concat(all_data)`: those of any file that was read. */
  function CombinedColumns(files: seq<SourceFile>): (cs: set<Column>)
    decreases |files|
  {
    if files == [] then {}
    else
      var f := files[|files| - 1];
      CombinedColumns(files[..|files| - 1]) + (if f.table.Some? then f.table.value.columns else {})
  }

  /** A column is in the combined table exactly when some file that was read has it. */
  lemma {:induction false} CombinedColumnsSpec(files: seq<SourceFile>)
    ensures forall c :: c in CombinedColumns(files) ==>
              exists i :: 0 <= i < |files| && files[i].table.Some? && c in files[i].table.value.columns
    ensures forall i, c :: 0 <= i < |files| && files[i].table.Some? && c in files[i].table.value.columns ==>
              c in CombinedColumns(files)
    decreases |files|
  {
    if files != [] {
      var front := files[..|files| - 1];
      CombinedColumnsSpec(front);
      forall c | c in CombinedColumns(files)
        ensures exists i :: 0 <= i < |files| && files[i].table.Some? && c in files[i].table.value.columns
      {
        if c in CombinedColumns(front) {
          var i :| 0 <= i < |front| && front[i].table.Some? && c in front[i].table.value.columns;
          assert files[i] == front[i];
        }
      }
      forall i, c | 0 <= i < |files| && files[i].table.Some? && c in files[i].table.value.columns
        ensures c in CombinedColumns(files)
      {
        if i < |files| - 1 {
          assert files[i] == front[i];
        }
      }
    }
  }

  /** The order in which the cleaning reads the columns. */
  function ReadPosition(c: Column): nat
  {
    match c
    case Description => 0
    case ExtendedNetAmount => 1
    case Quantity => 2
    case HourId => 3
  }

  /** The first column, in reading order, that the combined table lacks: the key of the `KeyError`. */
  function FirstMissing(cs: set<Column>): (r: Option<Column>)
    ensures r.None? <==> AllColumns <= cs
    ensures r.Some? ==> r.value !in cs && forall c :: c in AllColumns && ReadPosition(c) < ReadPosition(r.value) ==> c in cs
  {
    if Description !in cs then Some(Description)
    else if ExtendedNetAmount !in cs then Some(ExtendedNetAmount)
    else if Quantity !in cs then Some(Quantity)
    else if HourId !in cs then Some(HourId)
    else None
  }

  /** The loop that fills `all_data`, skipping files that cannot be read. */
  method CollectRows(files: seq<SourceFile>) returns (rows: seq<DatedRow>, tablesRead: nat, columns: set<Column>)
    ensures rows == AllRows(files)
    ensures tablesRead == |Filter(files, Readable)|
    ensures columns == CombinedColumns(files)
  {
    rows, tablesRead, columns := [], 0, {};
    for i := 0 to |files|
      invariant rows == AllRows(files[..i])
      invariant tablesRead == |Filter(files[..i], Readable)|
      invariant columns == CombinedColumns(files[..i])
    {
      assert files[..i + 1][..i] == files[..i];
      var f := files[i];
      if f.table.Some? {
        rows := rows + FileRows(f);
        tablesRead := tablesRead + 1;
        columns := columns + f.table.value.columns;
      }
    }
    assert files[..|files|] == files;
  }

  // ---- cleaning the combined rows ----

  /** `.astype(int)`: truncation toward zero. */
  function TruncateToInt(x: real): (n: int)
    ensures x >= 0.0 ==> n as real <= x < n as real + 1.0
    ensures x < 0.0 ==> n as real - 1.0 < x <= n as real
  {
    if x >= 0.0 then x.Floor else -((-x).Floor)
  }

  /** The record one combined row becomes, or `None` when the cleaning drops it. */
  function BuildRecord(d: DatedRow): (r: Option<SaleRecord>)
    ensures r.Some? <==> d.row.description.Some?
                         && Categorize(CleanProductName(d.row.description.value)) != Ignore
    ensures r.Some? ==> r.value.product == CleanProductName(d.row.description.value)
                        && r.value.category == Categorize(r.value.product)
    ensures r.Some? ==> r.value.date == d.date && r.value.fileDate == d.fileDate
    ensures r.Some? ==> r.value.revenue == (if d.row.netAmount.Some? then d.row.netAmount.value else 0.0)
                        && r.value.quantity == (if d.row.quantity.Some? then d.row.quantity.value else 0.0)
    ensures r.Some? ==> r.value.hour == (if d.row.hourId.Some? then TruncateToInt(d.row.hourId.value) else 0)
  {
    match d.row.description
    case None => None
    case Some(text) =>
      var name := CleanProductName(text);
      var category := Categorize(name);
      if category == Ignore then None
      else
        Some(SaleRecord(
          d.date, d.fileDate,
          if d.row.hourId.Some? then TruncateToInt(d.row.hourId.value) else 0,
          name, category,
          if d.row.netAmount.Some? then d.row.netAmount.value else 0.0,
          if d.row.quantity.Some? then d.row.quantity.value else 0.0))
  }

  /** The cleaning block after `pd.concat`, row by row and in order. */
  function CleanRows(rows: seq<DatedRow>): (records: seq<SaleRecord>)
    ensures |records| <= |rows|
    ensures forall i :: 0 <= i < |records| ==> records[i].category != Ignore
    ensures forall rec :: rec in records ==> exists i :: 0 <= i < |rows| && BuildRecord(rows[i]) == Some(rec)
    ensures forall i :: 0 <= i < |rows| && BuildRecord(rows[i]).Some? ==> BuildRecord(rows[i]).value in records
  {
    CleanedRecords(rows);
    FilterMap(rows, BuildRecord)
  }

  /** The filtered records are exactly those the rows build, and none of them is `Ignore`. */
  lemma CleanedRecords(rows: seq<DatedRow>)
    ensures forall rec :: rec in FilterMap(rows, BuildRecord) ==>
              exists i :: 0 <= i < |rows| && BuildRecord(rows[i]) == Some(rec)
    ensures forall i :: 0 <= i < |rows| && BuildRecord(rows[i]).Some? ==> BuildRecord(rows[i]).value in FilterMap(rows, BuildRecord)
    ensures forall i :: 0 <= i < |FilterMap(rows, BuildRecord)| ==> FilterMap(rows, BuildRecord)[i].category != Ignore
  {
    var records := FilterMap(rows, BuildRecord);
    FilterMapMembership(rows, BuildRecord);
    forall i | 0 <= i < |records|
      ensures records[i].category != Ignore
    {
      var j :| 0 <= j < |rows| && BuildRecord(rows[j]) == Some(records[i]);
    }
  }

  /** Cleaning the rows of two batches is cleaning each batch. */
  lemma CleanRowsAppend(a: seq<DatedRow>, b: seq<DatedRow>)
    ensures CleanRows(a + b) == CleanRows(a) + CleanRows(b)
  {
    FilterMapAppend(a, b, BuildRecord);
  }

  // ---- the whole load ----

  /** The cleaning of the combined table, or the `KeyError` it raises when a column it reads is missing. */
  function Combine(files: seq<SourceFile>): Result<seq<SaleRecord>, LoadError>
  {
    match FirstMissing(CombinedColumns(files))
    case Some(c) => Failure(KeyError(c))
    case None => Success(CleanRows(AllRows(files)))
  }

  /** The files `process_gdrive_files` reads: all of them, or those in range when a bound is given. */
  function Selected(files: seq<SourceFile>, start: Option<Date>, end: Option<Date>): seq<SourceFile>
  {
    if start.Some? || end.Some? then FilesInRange(files, start, end) else files
  }

  /** What `process_gdrive_files` returns for a folder listing and optional bounds. */
  function Load(files: seq<SourceFile>, start: Option<Date>, end: Option<Date>): Result<seq<SaleRecord>, LoadError>
  {
    if files == [] then Failure(NoFilesInFolder)
    else
      var selected := Selected(files, start, end);
      if selected == [] then Failure(NoFilesInRange)
      else if Filter(selected, Readable) == [] then Failure(NoFileReadable)
      else Combine(selected)
  }

  /** What `process_files` returns: no records when nothing could be read. */
  function LoadUploads(files: seq<SourceFile>): Result<seq<SaleRecord>, LoadError>
  {
    if Filter(files, Readable) == [] then Success([]) else Combine(files)
  }

  /** `process_gdrive_files`, with the folder listing and downloads given as `files`. */
  method ProcessDriveFiles(files: seq<SourceFile>, start: Option<Date>, end: Option<Date>)
    returns (result: Result<seq<SaleRecord>, LoadError>)
    ensures result == Load(files, start, end)
  {
    if |files| == 0 {
      return Failure(NoFilesInFolder);
    }
    var selected := files;
    if start.Some? || end.Some? {
      selected := FilterByDate(files, start, end);
    }
    if |selected| == 0 {
      return Failure(NoFilesInRange);
    }
    var rows, tablesRead, columns := CollectRows(selected);
    if tablesRead == 0 {
      return Failure(NoFileReadable);
    }
    var missing := FirstMissing(columns);
    if missing.Some? {
      return Failure(KeyError(missing.value));
    }
    return Success(CleanRows(rows));
  }

  /** `process_files`: uploaded files are all used; nothing readable gives no records. */
  method ProcessUploads(files: seq<SourceFile>) returns (result: Result<seq<SaleRecord>, LoadError>)
    ensures result == LoadUploads(files)
    ensures result.Success? ==> result.value == CleanRows(AllRows(files))
  {
    if |files| == 0 {
      return Success([]);
    }
    var rows, tablesRead, columns := CollectRows(files);
    if tablesRead == 0 {
      NothingReadableNoRows(files);
      return Success([]);
    }
    var missing := FirstMissing(columns);
    if missing.Some? {
      return Failure(KeyError(missing.value));
    }
    return Success(CleanRows(rows));
  }

  /**
   * The cleaning succeeds exactly when every column it reads is in some file
   * that was read; otherwise the `KeyError` names the first missing column,
   * which no file that was read has.
   */
  lemma CombineNeedsColumns(files: seq<SourceFile>)
    ensures Combine(files).Success? <==>
              forall c :: c in AllColumns ==>
                exists i :: 0 <= i < |files| && files[i].table.Some? && c in files[i].table.value.columns
    ensures Combine(files).Failure? ==>
              Combine(files).error.KeyError?
              && forall i :: 0 <= i < |files| && files[i].table.Some? ==> Combine(files).error.column !in files[i].table.value.columns
  {
    CombinedColumnsSpec(files);
    if Combine(files).Success? {
      forall c | c in AllColumns
        ensures exists i :: 0 <= i < |files| && files[i].table.Some? && c in files[i].table.value.columns
      {
        assert c in CombinedColumns(files);
      }
    } else {
      var c := Combine(files).error.column;
      assert c !in CombinedColumns(files);
    }
  }

  /** When no file that was read has a `Description` column, the cleaning raises `KeyError('Description')`. */
  lemma NoDescriptionRaises(files: seq<SourceFile>)
    requires forall i :: 0 <= i < |files| && files[i].table.Some? ==> Description !in files[i].table.value.columns
    ensures Combine(files) == Failure(KeyError(Description))
  {
    CombinedColumnsSpec(files);
  }

  /** Files none of which could be read contribute no rows. */
  lemma {:induction false} NothingReadableNoRows(files: seq<SourceFile>)
    requires forall i :: 0 <= i < |files| ==> !Readable(files[i])
    ensures AllRows(files) == []
    decreases |files|
  {
    if files != [] {
      NothingReadableNoRows(files[..|files| - 1]);
    }
  }

  // ---- what a load guarantees about its records ----

  /** A property of a record's `Date` and `FileDate` survives cleaning. */
  lemma CleanRowsKeepDates(rows: seq<DatedRow>, ok: (Option<Date>, Option<Date>) -> bool)
    requires forall i :: 0 <= i < |rows| ==> ok(rows[i].date, rows[i].fileDate)
    ensures forall r :: r in CleanRows(rows) ==> ok(r.date, r.fileDate)
  {
    FilterMapKeeps(rows, BuildRecord, (r: SaleRecord) => ok(r.date, r.fileDate));
  }

  /** Every combined row carries the date found in its own file's name. */
  lemma {:induction false} AllRowsFileDates(files: seq<SourceFile>, ok: Option<Date> -> bool)
    requires forall i :: 0 <= i < |files| ==> ok(ExtractDate(files[i].name))
    ensures forall i :: 0 <= i < |AllRows(files)| ==> ok(AllRows(files)[i].fileDate)
    decreases |files|
  {
    if files != [] {
      AllRowsFileDates(files[..|files| - 1], ok);
    }
  }

  predicate DateWithin(d: Option<Date>, start: Option<Date>, end: Option<Date>)
  {
    d.Some? && (start.None? || !Before(d.value, start.value)) && (end.None? || !Before(end.value, d.value))
  }

  /**
   * When a bound is given, every loaded record comes from a file whose name
   * carries a date within the bounds.
   */
  lemma LoadRespectsRange(files: seq<SourceFile>, start: Option<Date>, end: Option<Date>)
    requires start.Some? || end.Some?
    requires Load(files, start, end).Success?
    ensures forall r :: r in Load(files, start, end).value ==> DateWithin(r.fileDate, start, end)
  {
    LoadedRecords(files, start, end);
    InRangeRecords(files, start, end);
  }

  /** The records cleaned from the in-range files all carry a file date within the bounds. */
  lemma InRangeRecords(files: seq<SourceFile>, start: Option<Date>, end: Option<Date>)
    ensures forall r :: r in CleanRows(AllRows(FilesInRange(files, start, end))) ==> DateWithin(r.fileDate, start, end)
  {
    var selected := FilesInRange(files, start, end);
    FilesInRangeSpec(files, start, end);
    assert forall i :: 0 <= i < |selected| ==> selected[i] in selected;
    AllRowsFileDates(selected, d => DateWithin(d, start, end));
    CleanRowsKeepDates(AllRows(selected), (d, fd) => DateWithin(fd, start, end));
  }

  /** A successful load is the cleaning of the selected files' rows. */
  lemma LoadedRecords(files: seq<SourceFile>, start: Option<Date>, end: Option<Date>)
    requires Load(files, start, end).Success?
    ensures Load(files, start, end).value == CleanRows(AllRows(Selected(files, start, end)))
    ensures start.Some? || end.Some? ==> Selected(files, start, end) == FilesInRange(files, start, end)
  {
  }

  /**
   * A table with a `Saledate` column dates every record by the `Saledate` of
   * the row it came from, and every described row that is not `Ignore` gives
   * such a record.
   */
  lemma SaleDateColumnDates(f: SourceFile)
    requires f.table.Some? && f.table.value.hasSaleDateColumn
    ensures forall rec :: rec in CleanRows(FileRows(f)) ==>
              exists i :: 0 <= i < |f.table.value.rows| && rec.date == f.table.value.rows[i].saleDate
                          && BuildRecord(FileRows(f)[i]) == Some(rec)
    ensures forall i :: 0 <= i < |f.table.value.rows| && Description in f.table.value.columns
                        && f.table.value.rows[i].description.Some?
                        && Categorize(CleanProductName(f.table.value.rows[i].description.value)) != Ignore ==>
              exists rec :: rec in CleanRows(FileRows(f)) && rec.date == f.table.value.rows[i].saleDate
                            && rec.product == CleanProductName(f.table.value.rows[i].description.value)
  {
    var rs := FileRows(f);
    var t := f.table.value;
    forall rec | rec in CleanRows(rs)
      ensures exists i :: 0 <= i < |t.rows| && rec.date == t.rows[i].saleDate && BuildRecord(rs[i]) == Some(rec)
    {
      var i :| 0 <= i < |rs| && BuildRecord(rs[i]) == Some(rec);
      assert rec.date == rs[i].date;
    }
    forall i | 0 <= i < |t.rows| && Description in t.columns && t.rows[i].description.Some?
               && Categorize(CleanProductName(t.rows[i].description.value)) != Ignore
      ensures exists rec :: rec in CleanRows(rs) && rec.date == t.rows[i].saleDate
                            && rec.product == CleanProductName(t.rows[i].description.value)
    {
      assert rs[i].row.description == t.rows[i].description;
      var rec := BuildRecord(rs[i]).value;
      assert rec in CleanRows(rs);
    }
  }

  /** A table without a `Saledate` column dates every record by its file name. */
  lemma FileDateFallback(f: SourceFile)
    requires f.table.Some? && !f.table.value.hasSaleDateColumn
    ensures forall r :: r in CleanRows(FileRows(f)) ==> r.date == ExtractDate(f.name) == r.fileDate
  {
    var fd := ExtractDate(f.name);
    CleanRowsKeepDates(FileRows(f), (d, fileDate) => d == fd == fileDate);
  }

  /** `sales_20240601.xlsx` without a `Saledate` column: every record is dated 1 June 2024. */
  lemma DailyExportDates(f: SourceFile)
    requires f.name == "sales_20240601.xlsx"
    requires f.table.Some? && !f.table.value.hasSaleDateColumn
    ensures forall r :: r in CleanRows(FileRows(f)) ==> r.date == Some(Date(2024, 6, 1))
  {
    SalesExportName(f.name);
    FileDateFallback(f);
  }
}
