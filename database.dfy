/** The metadata table of src/database.rs: the row an insert writes, the date
    rewriting, and the store that holds the table. */
module Database {
  import opened Wrappers
  import opened Text
  import opened Errors
  import opened Exiftool
  import opened Utils

  // -------------------------------------------------------------- timestamps

  predicate IsLeapYear(y: nat) {
    y % 4 == 0 && (y % 100 != 0 || y % 400 == 0)
  }

  function DaysInMonth(y: nat, m: nat): nat
    requires 1 <= m <= 12
  {
    if m == 2 then (if IsLeapYear(y) then 29 else 28)
    else if m == 4 || m == 6 || m == 9 || m == 11 then 30
    else 31
  }

  /** The positions of a 19-character timestamp that hold separators. */
  predicate IsSeparatorPosition(i: int) {
    i == 4 || i == 7 || i == 10 || i == 13 || i == 16
  }

  /** The number written by the two digits at `i` and `i + 1`. */
  function TwoDigits(s: string, i: nat): nat
    requires i + 1 < |s| && IsDigit(s[i]) && IsDigit(s[i + 1])
  {
    DigitValue(s[i]) * 10 + DigitValue(s[i + 1])
  }

  /** `YYYYsMMsDD HH:MM:SS` with `s` as the date separator, every field of
      fixed width and the date and time valid in the proleptic Gregorian
      calendar. */
  predicate IsTimestamp(s: string, sep: char) {
    && |s| == 19
    && (forall i :: 0 <= i < 19 && !IsSeparatorPosition(i) ==> IsDigit(s[i]))
    && s[4] == sep && s[7] == sep && s[10] == ' ' && s[13] == ':' && s[16] == ':'
    && 1 <= TwoDigits(s, 5) <= 12
    && 1 <= TwoDigits(s, 8) <= DaysInMonth(TwoDigits(s, 0) * 100 + TwoDigits(s, 2), TwoDigits(s, 5))
    && TwoDigits(s, 11) <= 23 && TwoDigits(s, 14) <= 59 && TwoDigits(s, 17) <= 59
  }

  /** `s` with the characters at positions 4 and 7 replaced by `c`. */
  function WithDateSeparator(s: string, c: char): (r: string)
    requires |s| == 19
    ensures |r| == 19 && r[4] == c && r[7] == c
    ensures forall i :: 0 <= i < 19 && i != 4 && i != 7 ==> r[i] == s[i]
  {
    s[..4] + [c] + s[5..7] + [c] + s[8..]
  }

  lemma SeparatorKeepsTimestamp(s: string, old_sep: char, new_sep: char)
    requires IsTimestamp(s, old_sep)
    ensures IsTimestamp(WithDateSeparator(s, new_sep), new_sep)
  {
    var r := WithDateSeparator(s, new_sep);
    assert forall i :: 0 <= i < 19 && !IsSeparatorPosition(i) ==> r[i] == s[i];
  }

  /** What the DateTimeOriginal column may hold. */
  predicate IsStoredTimestamp(s: string) {
    s == NotAvailable || IsTimestamp(s, '-')
  }

  /** `format_date`: a timestamp in the tool's `YYYY:MM:DD HH:MM:SS` form keeps
      its digits and gets dashes between the date fields; anything else is
      "N/A". */
  function FormatDate(date: string): (r: string)
    ensures IsTimestamp(date, ':') ==> |r| == 19 && r[4] == '-' && r[7] == '-'
    ensures IsTimestamp(date, ':') ==> forall i :: 0 <= i < 19 && i != 4 && i != 7 ==> r[i] == date[i]
    ensures !IsTimestamp(date, ':') ==> r == NotAvailable
    ensures IsStoredTimestamp(r)
  {
    if IsTimestamp(date, ':') then
      SeparatorKeepsTimestamp(date, ':', '-');
      WithDateSeparator(date, '-')
    else NotAvailable
  }

  /** Putting the colons back recovers the tool's text. */
  lemma FormatDateRoundTrip(date: string)
    requires IsTimestamp(date, ':')
    ensures WithDateSeparator(FormatDate(date), ':') == date
  {
    var back := WithDateSeparator(FormatDate(date), ':');
    assert forall i :: 0 <= i < 19 ==> back[i] == date[i];
  }

  /** A stored timestamp is not in the tool's form, so it would not be
      accepted again: the two forms are distinct. */
  lemma StoredTimestampIsNotToolForm(s: string)
    requires IsStoredTimestamp(s)
    ensures FormatDate(s) == NotAvailable
  {
    if s != NotAvailable {
      assert s[4] == '-';
    }
  }

  lemma FormatDateExample()
    ensures FormatDate("2023:06:12 15:30:00") == "2023-06-12 15:30:00"
  {
    var s := "2023:06:12 15:30:00";
    assert IsTimestamp(s, ':') by {
      assert forall i :: 0 <= i < 19 && !IsSeparatorPosition(i) ==> IsDigit(s[i]);
    }
    assert WithDateSeparator(s, '-') == "2023-06-12 15:30:00";
  }

  /** February 29th exists only in leap years, and a colon-free text is not
      a timestamp. */
  lemma FormatDateRejects()
    ensures FormatDate("2023:02:29 10:00:00") == NotAvailable
    ensures FormatDate("2024:13:01 10:00:00") == NotAvailable
    ensures FormatDate("not a date") == NotAvailable
  {
    NoLeapDay();
    NoThirteenthMonth();
  }

  lemma NoLeapDay()
    ensures !IsTimestamp("2023:02:29 10:00:00", ':')
  {
    var s := "2023:02:29 10:00:00";
    assert TwoDigits(s, 5) == 2 && TwoDigits(s, 8) == 29;
    assert TwoDigits(s, 0) * 100 + TwoDigits(s, 2) == 2023;
  }

  lemma NoThirteenthMonth()
    ensures !IsTimestamp("2024:13:01 10:00:00", ':')
  {
    var u := "2024:13:01 10:00:00";
    assert TwoDigits(u, 5) == 13;
  }

  // -------------------------------------------------------------------- rows

  /** The twelve capture columns, in table order. */
  datatype Column =
    | DateTimeOriginal | Model | LensModel | Iso | ExposureTime | FNumber
    | FocalLength | Flash | WhiteBalance | ImageWidth | ImageHeight | FocalLengthIn35mmFormat

  /** The record member each column is read from. */
  function Tag(c: Column): string {
    match c
    case DateTimeOriginal => "DateTimeOriginal"
    case Model => "Model"
    case LensModel => "LensModel"
    case Iso => "ISO"
    case ExposureTime => "ExposureTime"
    case FNumber => "FNumber"
    case FocalLength => "FocalLength"
    case Flash => "Flash"
    case WhiteBalance => "WhiteBalance"
    case ImageWidth => "ImageWidth"
    case ImageHeight => "ImageHeight"
    case FocalLengthIn35mmFormat => "FocalLengthIn35mmFormat"
  }

  /** The columns copied from the record as they are. */
  predicate IsVerbatim(c: Column) {
    !(c.DateTimeOriginal? || c.FocalLength? || c.WhiteBalance?)
  }

  /** One row of the `metadata` table: the key, the modification time, and the
      twelve capture columns. */
  datatype Row = Row(
    sourceFile: string,
    modTime: real,
    dateTimeOriginal: string,
    model: string,
    lensModel: string,
    iso: string,
    exposureTime: string,
    fNumber: string,
    focalLength: string,
    flash: string,
    whiteBalance: string,
    imageWidth: string,
    imageHeight: string,
    focalLengthIn35mmFormat: string)

  function Cell(r: Row, c: Column): string {
    match c
    case DateTimeOriginal => r.dateTimeOriginal
    case Model => r.model
    case LensModel => r.lensModel
    case Iso => r.iso
    case ExposureTime => r.exposureTime
    case FNumber => r.fNumber
    case FocalLength => r.focalLength
    case Flash => r.flash
    case WhiteBalance => r.whiteBalance
    case ImageWidth => r.imageWidth
    case ImageHeight => r.imageHeight
    case FocalLengthIn35mmFormat => r.focalLengthIn35mmFormat
  }

  /** The shape every stored row has. */
  ghost predicate WellFormedRow(r: Row) {
    && IsStoredTimestamp(r.dateTimeOriginal)
    && IsCanonicalFocalLength(r.focalLength)
    && r.whiteBalance in Vocabulary
  }

  /** `record[tag].as_str().unwrap_or("N/A")`. */
  function TextOr(record: Json, tag: string): (r: string)
    ensures Field(record, tag).Some? ==> r == Field(record, tag).value
    ensures Field(record, tag).None? ==> r == NotAvailable
  {
    Field(record, tag).GetOr(NotAvailable)
  }

  /** The values `insert_metadata` binds for one file. */
  function MakeRow(path: string, modTime: real, record: Json): (r: Row)
    ensures r.sourceFile == path && r.modTime == modTime
    ensures Field(record, "DateTimeOriginal").None? ==> r.dateTimeOriginal == NotAvailable
    ensures Field(record, "DateTimeOriginal").Some? ==> r.dateTimeOriginal == FormatDate(Field(record, "DateTimeOriginal").value)
    ensures r.focalLength == NormalizeFocalLength(Field(record, "FocalLength"))
    ensures r.whiteBalance == NormalizeWhiteBalance(Field(record, "WhiteBalance"))
  {
    Row(
      path,
      modTime,
      match Field(record, "DateTimeOriginal") { case None => NotAvailable case Some(d) => FormatDate(d) },
      TextOr(record, "Model"),
      TextOr(record, "LensModel"),
      TextOr(record, "ISO"),
      TextOr(record, "ExposureTime"),
      TextOr(record, "FNumber"),
      NormalizeFocalLength(Field(record, "FocalLength")),
      TextOr(record, "Flash"),
      NormalizeWhiteBalance(Field(record, "WhiteBalance")),
      TextOr(record, "ImageWidth"),
      TextOr(record, "ImageHeight"),
      TextOr(record, "FocalLengthIn35mmFormat"))
  }

  /** The verbatim columns hold the record's text, or "N/A" when the member is
      missing or not a string. */
  lemma MakeRowVerbatim(path: string, modTime: real, record: Json, c: Column)
    requires IsVerbatim(c)
    ensures Field(record, Tag(c)).Some? ==> Cell(MakeRow(path, modTime, record), c) == Field(record, Tag(c)).value
    ensures Field(record, Tag(c)).None? ==> Cell(MakeRow(path, modTime, record), c) == NotAvailable
  {
    assert Cell(MakeRow(path, modTime, record), c) == TextOr(record, Tag(c));
  }

  /** A record with no string members, such as `{}`, gives "N/A" in every
      column but white balance, which is "manual". */
  lemma EmptyRecordRow(path: string, modTime: real, record: Json)
    requires forall tag :: Field(record, tag).None?
    ensures forall c :: c != WhiteBalance ==> Cell(MakeRow(path, modTime, record), c) == NotAvailable
    ensures MakeRow(path, modTime, record).whiteBalance == "manual"
  {
    var r := MakeRow(path, modTime, record);
    assert Field(record, "FocalLength").None?;
    assert Field(record, "WhiteBalance").None?;
    forall c | c != WhiteBalance
      ensures Cell(r, c) == NotAvailable
    {
      assert Field(record, Tag(c)).None?;
    }
  }

  /** The row that `{}` produces stores FocalLength "N/A". */
  lemma NullMetadataExample()
    ensures MakeRow("test.jpg", 1234567890.0, JObject(map[])).focalLength == NotAvailable
  {
    EmptyRecordRow("test.jpg", 1234567890.0, JObject(map[]));
    assert Cell(MakeRow("test.jpg", 1234567890.0, JObject(map[])), FocalLength) == NotAvailable;
  }

  // ------------------------------------------------------------------- table

  /** The table, keyed by `source_file`. */
  type Table = map<string, Row>

  /** Each row sits under its own key and has the stored shape. */
  ghost predicate TableInvariant(t: Table) {
    forall p :: p in t ==> t[p].sourceFile == p && WellFormedRow(t[p])
  }

  /** `INSERT OR REPLACE` keyed on the primary key `path`. */
  function Upsert(t: Table, path: string, modTime: real, record: Json): Table
  {
    t[path := MakeRow(path, modTime, record)]
  }

  /** After the insert the table has exactly one row for `path`, the new one,
      and every other row is as it was. */
  lemma UpsertAt(t: Table, path: string, modTime: real, record: Json)
    ensures Upsert(t, path, modTime, record).Keys == t.Keys + {path}
    ensures Upsert(t, path, modTime, record)[path] == MakeRow(path, modTime, record)
    ensures forall q :: q in t && q != path ==> Upsert(t, path, modTime, record)[q] == t[q]
  {
  }

  /** Every row an insert writes has the stored shape. */
  lemma MakeRowWellFormed(path: string, modTime: real, record: Json)
    ensures WellFormedRow(MakeRow(path, modTime, record))
  {
  }

  /** Inserts keep every row under its key and in the stored shape. */
  lemma UpsertKeepsInvariant(t: Table, path: string, modTime: real, record: Json)
    requires TableInvariant(t)
    ensures TableInvariant(Upsert(t, path, modTime, record))
  {
    MakeRowWellFormed(path, modTime, record);
  }

  /** Re-inserting a path replaces every column written before. */
  lemma UpsertReplaces(t: Table, path: string, m1: real, r1: Json, m2: real, r2: Json)
    ensures Upsert(Upsert(t, path, m1, r1), path, m2, r2) == Upsert(t, path, m2, r2)
  {
  }

  /** Inserts of different paths do not interfere. */
  lemma UpsertCommutes(t: Table, p: string, m1: real, r1: Json, q: string, m2: real, r2: Json)
    requires p != q
    ensures Upsert(Upsert(t, p, m1, r1), q, m2, r2) == Upsert(Upsert(t, q, m2, r2), p, m1, r1)
  {
  }

  // ------------------------------------------------------------------- store

  /** The database behind one connection: whether the `metadata` table exists,
      its committed rows, and the rows as the open transaction sees them. */
  class Store {
    var schemaExists: bool
    var rows: Table
    var pending: Option<Table>

    ghost predicate Valid()
      reads this
    {
      && TableInvariant(rows)
      && (pending.Some? ==> TableInvariant(pending.value))
      && (!schemaExists ==> rows == map[] && (pending.Some? ==> pending.value == map[]))
    }

    /** The rows a statement on this connection sees. */
    function View(): Table
      reads this
    {
      if pending.Some? then pending.value else rows
    }

    /** A fresh, empty database. */
    constructor ()
      ensures Valid() && !schemaExists && rows == map[] && pending == None
    {
      schemaExists := false;
      rows := map[];
      pending := None;
    }

    /** `create_tables_if_needed`: afterwards the table exists; rows already
        stored are kept, so a second call changes nothing. The statement may
        fail (`fails`), and then nothing changes. */
    method CreateTablesIfNeeded(fails: bool) returns (r: Outcome<StorageError>)
      requires Valid()
      modifies this
      ensures Valid() && rows == old(rows) && pending == old(pending)
      ensures r == if fails then Fail(CreateFailed) else Pass
      ensures schemaExists == (old(schemaExists) || !fails)
    {
      if fails {
        return Fail(CreateFailed);
      }
      schemaExists := true;
      r := Pass;
    }

    /** `insert_metadata`. Without the table the statement fails; the engine
        may also refuse the row (`rejected`). Either way nothing changes.
        Otherwise the row is upserted into what the connection sees. */
    method InsertMetadata(path: string, modTime: real, record: Json, rejected: bool) returns (r: Outcome<StorageError>)
      requires Valid()
      modifies this
      ensures Valid() && schemaExists == old(schemaExists) && pending.Some? == old(pending).Some?
      ensures r == if !schemaExists then Fail(NoSuchTable) else if rejected then Fail(InsertRejected) else Pass
      ensures View() == if r.Pass? then Upsert(old(View()), path, modTime, record) else old(View())
      ensures pending.Some? ==> rows == old(rows)
    {
      if !schemaExists {
        return Fail(NoSuchTable);
      }
      if rejected {
        return Fail(InsertRejected);
      }
      if pending.Some? {
        UpsertKeepsInvariant(pending.value, path, modTime, record);
        pending := Some(Upsert(pending.value, path, modTime, record));
      } else {
        UpsertKeepsInvariant(rows, path, modTime, record);
        rows := Upsert(rows, path, modTime, record);
      }
      r := Pass;
    }

    /** `Connection::transaction`: a transaction starts from the committed rows. */
    method Begin(fails: bool) returns (r: Outcome<StorageError>)
      requires Valid() && pending.None?
      modifies this
      ensures Valid() && schemaExists == old(schemaExists) && rows == old(rows)
      ensures r == if fails then Fail(BeginFailed) else Pass
      ensures pending == if fails then None else Some(rows)
    {
      if fails {
        return Fail(BeginFailed);
      }
      pending := Some(rows);
      r := Pass;
    }

    /** `Transaction::commit`: the transaction's rows become the committed
        rows. A commit that fails leaves the committed rows as they were, and
        the transaction is gone either way. */
    method Commit(fails: bool) returns (r: Outcome<StorageError>)
      requires Valid() && pending.Some?
      modifies this
      ensures Valid() && schemaExists == old(schemaExists) && pending == None
      ensures r == if fails then Fail(CommitFailed) else Pass
      ensures rows == if fails then old(rows) else old(pending.value)
    {
      if !fails {
        rows := pending.value;
      }
      pending := None;
      r := if fails then Fail(CommitFailed) else Pass;
    }

    /** Dropping a transaction that was not committed rolls it back. */
    method Rollback()
      requires Valid() && pending.Some?
      modifies this
      ensures Valid() && schemaExists == old(schemaExists) && pending == None && rows == old(rows)
    {
      pending := None;
    }
  }
}
