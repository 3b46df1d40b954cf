/** `generate_statistics` of src/statistics.rs: nine grouped counts over the
    metadata table. Each SQL query is modelled by the grouping it performs. */
module Statistics {
  import opened Wrappers
  import opened Errors
  import opened Utils
  import opened Exiftool
  import opened Text
  import opened Database

  // ---------------------------------------------------------------- grouping

  /** What a query groups the rows by. */
  datatype Dimension =
    | PhotosPerYear | CameraModels | LensModels | IsoValues | ShutterSpeeds
    | Apertures | FocalLengths | WhiteBalances | FlashUsage

  /** `COALESCE(strftime('%Y', DateTimeOriginal), 'N/A')` on a stored
      timestamp: the four year digits, or "N/A" when the column holds none. */
  function YearOf(ts: string): (r: string)
    ensures IsTimestamp(ts, '-') ==> |r| == 4 && r == ts[..4]
    ensures !IsTimestamp(ts, '-') ==> r == NotAvailable
  {
    if IsTimestamp(ts, '-') then ts[..4] else NotAvailable
  }

  /** The group a row falls into. The columns other than the timestamp are
      never NULL, so their `COALESCE` keeps them as they are. */
  function Key(r: Row, d: Dimension): string {
    match d
    case PhotosPerYear => YearOf(r.dateTimeOriginal)
    case CameraModels => r.model
    case LensModels => r.lensModel
    case IsoValues => r.iso
    case ShutterSpeeds => r.exposureTime
    case Apertures => r.fNumber
    case FocalLengths => r.focalLength
    case WhiteBalances => r.whiteBalance
    case FlashUsage => r.flash
  }

  /** The paths whose row falls into group `v`. */
  function Members(t: Table, d: Dimension, v: string): set<string> {
    set p | p in t && Key(t[p], d) == v
  }

  /** The groups that occur. */
  function Observed(t: Table, d: Dimension): set<string> {
    set p | p in t :: Key(t[p], d)
  }

  /** `SELECT key, COUNT(*) ... GROUP BY key`: every group that occurs, with
      the number of its rows. */
  function Grouped(t: Table, d: Dimension): map<string, nat> {
    map v | v in Observed(t, d) :: |Members(t, d, v)|
  }

  /** Exactly the groups that occur are reported, each with its number of
      rows. */
  lemma GroupedAt(t: Table, d: Dimension, v: string)
    ensures v in Grouped(t, d) <==> exists p :: p in t && Key(t[p], d) == v
    ensures v in Grouped(t, d) ==> Grouped(t, d)[v] == |Members(t, d, v)|
  {
  }

  /** A group that is reported has at least one row. */
  lemma GroupedPositive(t: Table, d: Dimension, v: string)
    requires v in Grouped(t, d)
    ensures Grouped(t, d)[v] >= 1
  {
    var p :| p in t && Key(t[p], d) == v;
    assert p in Members(t, d, v);
  }

  // ------------------------------------------------------------------ totals

  /** The sum of the counts of a map. */
  ghost function Total(m: map<string, nat>): nat
    decreases |m|
  {
    if m == map[] then 0
    else
      var k :| k in m;
      m[k] + Total(m - {k})
  }

  /** The sum does not depend on which key is taken first. */
  lemma {:induction false} TotalRemove(m: map<string, nat>, k: string)
    requires k in m
    ensures Total(m) == m[k] + Total(m - {k})
    decreases |m|
  {
    var j :| j in m && Total(m) == m[j] + Total(m - {j});
    if j != k {
      var mj := m - {j};
      var mk := m - {k};
      assert |mj| < |m|;
      TotalRemove(mj, k);
      assert |mk| < |m|;
      TotalRemove(mk, j);
      assert mj - {k} == mk - {j};
    }
  }

  /** Raising one count raises the sum by as much. */
  lemma TotalUpdate(m: map<string, nat>, k: string, x: nat)
    ensures Total(m[k := x]) == x + Total(m) - (if k in m then m[k] else 0)
  {
    var n := m[k := x];
    TotalRemove(n, k);
    if k in m {
      TotalRemove(m, k);
      assert n - {k} == m - {k};
    } else {
      assert n - {k} == m;
    }
  }

  lemma MembersInsert(t: Table, p: string, d: Dimension, w: string)
    requires p in t
    ensures w == Key(t[p], d) ==> Members(t, d, w) == Members(t - {p}, d, w) + {p}
    ensures w != Key(t[p], d) ==> Members(t, d, w) == Members(t - {p}, d, w)
    ensures p !in Members(t - {p}, d, w)
  {
  }

  lemma ObservedInsert(t: Table, p: string, d: Dimension)
    requires p in t
    ensures Observed(t, d) == Observed(t - {p}, d) + {Key(t[p], d)}
  {
    var s := t - {p};
    forall w | w in Observed(t, d)
      ensures w in Observed(s, d) + {Key(t[p], d)}
    {
      var q :| q in t && Key(t[q], d) == w;
      if q != p {
        assert q in s;
      }
    }
    forall w | w in Observed(s, d)
      ensures w in Observed(t, d)
    {
      var q :| q in s && Key(s[q], d) == w;
      assert q in t;
    }
  }

  /** The counts after adding the row at `p` to the rows of `t - {p}`. */
  function Bumped(h: map<string, nat>, v: string): map<string, nat> {
    h[v := if v in h then h[v] + 1 else 1]
  }

  lemma GroupedInsertAt(t: Table, p: string, d: Dimension, w: string)
    requires p in t && w in Grouped(t, d)
    ensures w in Bumped(Grouped(t - {p}, d), Key(t[p], d))
    ensures Grouped(t, d)[w] == Bumped(Grouped(t - {p}, d), Key(t[p], d))[w]
  {
    if w == Key(t[p], d) {
      GroupedInsertOwn(t, p, d);
    } else {
      GroupedInsertOther(t, p, d, w);
    }
  }

  lemma GroupedInsertOwn(t: Table, p: string, d: Dimension)
    requires p in t
    ensures Grouped(t, d)[Key(t[p], d)] == Bumped(Grouped(t - {p}, d), Key(t[p], d))[Key(t[p], d)]
  {
    var s, v := t - {p}, Key(t[p], d);
    assert v in Observed(t, d);
    MembersInsert(t, p, d, v);
    if v in Observed(s, d) {
      assert Grouped(s, d)[v] == |Members(s, d, v)|;
    } else {
      assert Members(s, d, v) == {};
    }
  }

  lemma GroupedInsertOther(t: Table, p: string, d: Dimension, w: string)
    requires p in t && w in Grouped(t, d) && w != Key(t[p], d)
    ensures w in Grouped(t - {p}, d)
    ensures Grouped(t, d)[w] == Grouped(t - {p}, d)[w]
  {
    ObservedInsert(t, p, d);
    MembersInsert(t, p, d, w);
  }

  /** Grouping one more row adds one to its group and leaves the others. */
  lemma GroupedInsert(t: Table, p: string, d: Dimension)
    requires p in t
    ensures Grouped(t, d) == Bumped(Grouped(t - {p}, d), Key(t[p], d))
  {
    var g := Grouped(t, d);
    var n := Bumped(Grouped(t - {p}, d), Key(t[p], d));
    ObservedInsert(t, p, d);
    assert g.Keys == n.Keys;
    forall w | w in g
      ensures g[w] == n[w]
    {
      GroupedInsertAt(t, p, d, w);
    }
  }

  /** Taking one row out lowers the sum of the counts by one. */
  lemma GroupedTotalStep(t: Table, p: string, d: Dimension)
    requires p in t
    ensures Total(Grouped(t, d)) == Total(Grouped(t - {p}, d)) + 1
  {
    GroupedInsert(t, p, d);
    var v := Key(t[p], d);
    var h := Grouped(t - {p}, d);
    TotalUpdate(h, v, if v in h then h[v] + 1 else 1);
  }

  /** In every dimension the counts add up to the number of rows. */
  lemma {:induction false} GroupedTotal(t: Table, d: Dimension)
    ensures Total(Grouped(t, d)) == |t|
    decreases |t|
  {
    if t != map[] {
      var p :| p in t;
      assert |t - {p}| == |t| - 1;
      GroupedTotal(t - {p}, d);
      GroupedTotalStep(t, p, d);
    } else {
      assert Grouped(t, d) == map[];
    }
  }

  // -------------------------------------------------------------- statistics

  /** `Statistics`: one map per query. */
  datatype Statistics = Statistics(
    photosPerYear: map<string, nat>,
    cameraModels: map<string, nat>,
    lensModels: map<string, nat>,
    iso: map<string, nat>,
    shutterSpeed: map<string, nat>,
    aperture: map<string, nat>,
    focalLength: map<string, nat>,
    whiteBalance: map<string, nat>,
    flashUsage: map<string, nat>)

  const EmptyStatistics: Statistics :=
    Statistics(map[], map[], map[], map[], map[], map[], map[], map[], map[])

  /** The field that holds the counts for `d`. */
  function Get(s: Statistics, d: Dimension): map<string, nat> {
    match d
    case PhotosPerYear => s.photosPerYear
    case CameraModels => s.cameraModels
    case LensModels => s.lensModels
    case IsoValues => s.iso
    case ShutterSpeeds => s.shutterSpeed
    case Apertures => s.aperture
    case FocalLengths => s.focalLength
    case WhiteBalances => s.whiteBalance
    case FlashUsage => s.flashUsage
  }

  /** One assignment `stats.<field> = results`. */
  function SetField(s: Statistics, d: Dimension, m: map<string, nat>): (r: Statistics)
    ensures forall e :: Get(r, e) == if e == d then m else Get(s, e)
  {
    match d
    case PhotosPerYear => s.(photosPerYear := m)
    case CameraModels => s.(cameraModels := m)
    case LensModels => s.(lensModels := m)
    case IsoValues => s.(iso := m)
    case ShutterSpeeds => s.(shutterSpeed := m)
    case Apertures => s.(aperture := m)
    case FocalLengths => s.(focalLength := m)
    case WhiteBalances => s.(whiteBalance := m)
    case FlashUsage => s.(flashUsage := m)
  }

  /** The statistics of a table: every field is the grouping of its query. */
  function StatisticsOf(t: Table): Statistics {
    Statistics(
      Grouped(t, PhotosPerYear), Grouped(t, CameraModels), Grouped(t, LensModels),
      Grouped(t, IsoValues), Grouped(t, ShutterSpeeds), Grouped(t, Apertures),
      Grouped(t, FocalLengths), Grouped(t, WhiteBalances), Grouped(t, FlashUsage))
  }

  lemma StatisticsOfGet(t: Table, d: Dimension)
    ensures Get(StatisticsOf(t), d) == Grouped(t, d)
  {
    match d
    case PhotosPerYear =>
    case CameraModels =>
    case LensModels =>
    case IsoValues =>
    case ShutterSpeeds =>
    case Apertures =>
    case FocalLengths =>
    case WhiteBalances =>
    case FlashUsage =>
  }

  /** Statistics that agree on every field are equal. */
  lemma GetExtensional(a: Statistics, b: Statistics)
    requires forall d :: Get(a, d) == Get(b, d)
    ensures a == b
  {
    assert Get(a, PhotosPerYear) == Get(b, PhotosPerYear);
    assert Get(a, CameraModels) == Get(b, CameraModels);
    assert Get(a, LensModels) == Get(b, LensModels);
    assert Get(a, IsoValues) == Get(b, IsoValues);
    assert Get(a, ShutterSpeeds) == Get(b, ShutterSpeeds);
    assert Get(a, Apertures) == Get(b, Apertures);
    assert Get(a, FocalLengths) == Get(b, FocalLengths);
    assert Get(a, WhiteBalances) == Get(b, WhiteBalances);
    assert Get(a, FlashUsage) == Get(b, FlashUsage);
  }

  /** The `queries` vector: each title with the grouping its SQL performs. */
  function Queries(): seq<(string, Dimension)> {
    [
      ("Photos Per Year", PhotosPerYear),
      ("Camera Models", CameraModels),
      ("Lens Models", LensModels),
      ("ISO", IsoValues),
      ("Shutter Speed", ShutterSpeeds),
      ("Aperture", Apertures),
      ("Focal Length", FocalLengths),
      ("White Balance", WhiteBalances),
      ("Flash Usage", FlashUsage)
    ]
  }

  /** The `match title` of the loop: the field a title assigns, if any. */
  function FieldOfTitle(title: string): (r: Option<Dimension>)
    ensures forall i :: 0 <= i < |Queries()| && Queries()[i].0 == title ==> r == Some(Queries()[i].1)
  {
    if title == "Photos Per Year" then Some(PhotosPerYear)
    else if title == "Camera Models" then Some(CameraModels)
    else if title == "Lens Models" then Some(LensModels)
    else if title == "ISO" then Some(IsoValues)
    else if title == "Shutter Speed" then Some(ShutterSpeeds)
    else if title == "Aperture" then Some(Apertures)
    else if title == "Focal Length" then Some(FocalLengths)
    else if title == "White Balance" then Some(WhiteBalances)
    else if title == "Flash Usage" then Some(FlashUsage)
    else None
  }

  /** The query that fills `d`. */
  function QueryOf(d: Dimension): (i: nat)
    ensures i < |Queries()| && Queries()[i].1 == d
    ensures forall j :: 0 <= j < |Queries()| && Queries()[j].1 == d ==> j == i
  {
    match d
    case PhotosPerYear => 0
    case CameraModels => 1
    case LensModels => 2
    case IsoValues => 3
    case ShutterSpeeds => 4
    case Apertures => 5
    case FocalLengths => 6
    case WhiteBalances => 7
    case FlashUsage => 8
  }

  /** The fields once the first `i` queries have run. */
  function FilledAfter(t: Table, d: Dimension, i: nat): map<string, nat> {
    if QueryOf(d) < i then Grouped(t, d) else map[]
  }

  /** `generate_statistics`. Without the table the first statement fails;
      otherwise each query's counts land in its own field, and no field is
      written twice. */
  method GenerateStatistics(store: Store) returns (r: Result<Statistics, AppError>)
    requires store.Valid()
    ensures !store.schemaExists ==> r == Failure(Database(NoSuchTable))
    ensures store.schemaExists ==> r == Success(StatisticsOf(store.View()))
  {
    var stats := EmptyStatistics;
    var i := 0;
    while i < |Queries()|
      invariant 0 <= i <= |Queries()|
      invariant i > 0 ==> store.schemaExists
      invariant forall d :: Get(stats, d) == FilledAfter(store.View(), d, i)
    {
      if !store.schemaExists {
        return Failure(Database(NoSuchTable));
      }
      var (title, dim) := Queries()[i];
      var results := Grouped(store.View(), dim);
      match FieldOfTitle(title) {
        case Some(d) => stats := SetField(stats, d, results);
        case None =>
      }
      i := i + 1;
    }
    if !store.schemaExists {
      return Failure(Database(NoSuchTable));
    }
    forall d
      ensures Get(stats, d) == Get(StatisticsOf(store.View()), d)
    {
      StatisticsOfGet(store.View(), d);
    }
    GetExtensional(stats, StatisticsOf(store.View()));
    r := Success(stats);
  }

  // ---------------------------------------------------------------- examples

  /** Inserting a new path adds one to the group of its row. */
  lemma GroupedUpsertNew(t: Table, path: string, modTime: real, record: Json, d: Dimension)
    requires path !in t
    ensures Grouped(Upsert(t, path, modTime, record), d) == Bumped(Grouped(t, d), Key(MakeRow(path, modTime, record), d))
  {
    var u := Upsert(t, path, modTime, record);
    assert u - {path} == t;
    GroupedInsert(u, path, d);
  }

  function DatedRecord(date: string): Json {
    JObject(map["DateTimeOriginal" := JString(date)])
  }

  lemma ToolDate2021()
    ensures FormatDate("2021:05:10 14:30:00") == "2021-05-10 14:30:00"
  {
    var s := "2021:05:10 14:30:00";
    assert IsTimestamp(s, ':') by {
      assert forall i :: 0 <= i < 19 && !IsSeparatorPosition(i) ==> IsDigit(s[i]);
    }
    assert WithDateSeparator(s, '-') == "2021-05-10 14:30:00";
  }

  lemma ToolDate2022()
    ensures FormatDate("2022:07:22 10:15:00") == "2022-07-22 10:15:00"
  {
    var s := "2022:07:22 10:15:00";
    assert IsTimestamp(s, ':') by {
      assert forall i :: 0 <= i < 19 && !IsSeparatorPosition(i) ==> IsDigit(s[i]);
    }
    assert WithDateSeparator(s, '-') == "2022-07-22 10:15:00";
  }

  lemma Year2021()
    ensures YearOf("2021-05-10 14:30:00") == "2021"
  {
    var s := "2021-05-10 14:30:00";
    assert IsTimestamp(s, '-') by {
      assert forall i :: 0 <= i < 19 && !IsSeparatorPosition(i) ==> IsDigit(s[i]);
    }
  }

  lemma Year2022()
    ensures YearOf("2022-07-22 10:15:00") == "2022"
  {
    var s := "2022-07-22 10:15:00";
    assert IsTimestamp(s, '-') by {
      assert forall i :: 0 <= i < 19 && !IsSeparatorPosition(i) ==> IsDigit(s[i]);
    }
  }

  /** The year of the row an insert writes for a dated record. */
  lemma YearOfDatedRow(path: string, modTime: real, date: string, year: string)
    requires YearOf(FormatDate(date)) == year
    ensures Key(MakeRow(path, modTime, DatedRecord(date)), PhotosPerYear) == year
  {
    assert Field(DatedRecord(date), "DateTimeOriginal") == Some(date);
  }

  /** Three inserts into an empty table. */
  function ThreePhotos(p1: string, p2: string, p3: string, m: real, r1: Json, r2: Json, r3: Json): Table {
    Upsert(Upsert(Upsert(map[], p1, m, r1), p2, m, r2), p3, m, r3)
  }

  /** The year under which the row written for `record` is counted. */
  function YearOfRecord(path: string, m: real, record: Json): string {
    Key(MakeRow(path, m, record), PhotosPerYear)
  }

  /** Adding a row under a new path adds one to the count of its year. */
  lemma AddRow(t: Table, g: map<string, nat>, p: string, w: Row, y: string)
    requires p !in t && Grouped(t, PhotosPerYear) == g && Key(w, PhotosPerYear) == y
    ensures Grouped(t[p := w], PhotosPerYear) == Bumped(g, y)
  {
    assert t[p := w] - {p} == t;
    GroupedInsert(t[p := w], p, PhotosPerYear);
  }

  lemma BumpedFirst(y1: string)
    ensures Bumped(map[], y1) == map[y1 := 1]
  {
  }

  lemma BumpedSecond(y1: string, y2: string)
    requires y1 != y2
    ensures Bumped(map[y1 := 1], y2) == map[y1 := 1, y2 := 1]
  {
  }

  lemma BumpedAgain(y1: string, y2: string)
    requires y1 != y2
    ensures Bumped(map[y1 := 1, y2 := 1], y2) == map[y1 := 1, y2 := 2]
  {
  }

  /** Two rows of different years give each year a count of 1. */
  lemma TwoRows(p1: string, p2: string, w1: Row, w2: Row, y1: string, y2: string)
    requires p1 != p2 && y1 != y2 && Key(w1, PhotosPerYear) == y1 && Key(w2, PhotosPerYear) == y2
    ensures Grouped(map[][p1 := w1][p2 := w2], PhotosPerYear) == map[y1 := 1, y2 := 1]
  {
    var t0: Table := map[];
    assert Grouped(t0, PhotosPerYear) == map[];
    AddRow(t0, map[], p1, w1, y1);
    BumpedFirst(y1);
    AddRow(t0[p1 := w1], map[y1 := 1], p2, w2, y2);
    BumpedSecond(y1, y2);
  }

  /** One row of one year and two of another give counts 1 and 2. */
  lemma ThreeRows(p1: string, p2: string, p3: string, w1: Row, w2: Row, w3: Row, y1: string, y2: string)
    requires p1 != p2 && p1 != p3 && p2 != p3 && y1 != y2
    requires Key(w1, PhotosPerYear) == y1 && Key(w2, PhotosPerYear) == y2 && Key(w3, PhotosPerYear) == y2
    ensures Grouped(map[][p1 := w1][p2 := w2][p3 := w3], PhotosPerYear) == map[y1 := 1, y2 := 2]
  {
    var t2: Table := map[][p1 := w1][p2 := w2];
    TwoRows(p1, p2, w1, w2, y1, y2);
    assert p3 !in t2;
    AddRow(t2, map[y1 := 1, y2 := 1], p3, w3, y2);
    BumpedAgain(y1, y2);
  }

  /** One photo from 2021 and two from 2022 give {"2021": 1, "2022": 2}. */
  lemma PhotosPerYearExample()
    ensures Grouped(ThreePhotos("photo1.jpg", "photo2.jpg", "photo3.jpg", 1234567890.0,
                                DatedRecord("2021:05:10 14:30:00"), DatedRecord("2022:07:22 10:15:00"),
                                DatedRecord("2022:07:22 10:15:00")),
                    PhotosPerYear) == map["2021" := 1, "2022" := 2]
  {
    var m := 1234567890.0;
    var r1, r2 := DatedRecord("2021:05:10 14:30:00"), DatedRecord("2022:07:22 10:15:00");
    assert YearOfRecord("photo1.jpg", m, r1) == "2021" by {
      ToolDate2021();
      Year2021();
      YearOfDatedRow("photo1.jpg", m, "2021:05:10 14:30:00", "2021");
    }
    assert YearOfRecord("photo2.jpg", m, r2) == "2022" && YearOfRecord("photo3.jpg", m, r2) == "2022" by {
      ToolDate2022();
      Year2022();
      YearOfDatedRow("photo2.jpg", m, "2022:07:22 10:15:00", "2022");
      YearOfDatedRow("photo3.jpg", m, "2022:07:22 10:15:00", "2022");
    }
    ThreeRows("photo1.jpg", "photo2.jpg", "photo3.jpg", MakeRow("photo1.jpg", m, r1),
              MakeRow("photo2.jpg", m, r2), MakeRow("photo3.jpg", m, r2), "2021", "2022");
  }

  /** A photo without a date is counted under "N/A". */
  lemma UndatedPhotoExample()
    ensures Grouped(Upsert(map[], "photo1.jpg", 1234567890.0, JObject(map[])), PhotosPerYear) == map[NotAvailable := 1]
  {
    var t := Upsert(map[], "photo1.jpg", 1234567890.0, JObject(map[]));
    EmptyRecordRow("photo1.jpg", 1234567890.0, JObject(map[]));
    assert Cell(t["photo1.jpg"], DateTimeOriginal) == NotAvailable;
    GroupedUpsertNew(map[], "photo1.jpg", 1234567890.0, JObject(map[]), PhotosPerYear);
  }

  /** An empty table gives nine empty maps. */
  lemma EmptyTableStatistics()
    ensures StatisticsOf(map[]) == EmptyStatistics
  {
  }
}
