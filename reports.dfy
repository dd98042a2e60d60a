/**
 * The `reports` table of `school_inspection_bot.py` as an append-only store:
 * `save_report` appends one row under a fresh AUTOINCREMENT id, and the
 * range query of `get_reports_by_period` returns the rows whose visit date
 * lies between two texts, ordered by visit date and then supervisor name.
 * Text is compared as SQLite's BINARY collation does, code point by code
 * point.
 */
module Reports {
  import opened Wrappers
  import opened Strings
  import opened Calendar
  import opened IsoDate
  import opened Periods

  /** The six columns the range query selects, in its SELECT order. */
  datatype Row = Row(
    supervisorName: string,
    visitDate: string,
    schoolName: string,
    maintenanceNotes: string,
    acNotes: string,
    cleaningNotes: string)

  /** A stored row with the columns the query does not select. */
  datatype Record = Record(id: int, userId: int, row: Row)

  /** The draft keys `save_report` reads, in the order it reads them. */
  const SupervisorNameKey := "supervisor_name"
  const VisitDateKey := "visit_date"
  const SchoolNameKey := "school_name"
  const MaintenanceNotesKey := "maintenance_notes"
  const AcNotesKey := "ac_notes"
  const CleaningNotesKey := "cleaning_notes"
  const ReportKeys := [SupervisorNameKey, VisitDateKey, SchoolNameKey, MaintenanceNotesKey, AcNotesKey, CleaningNotesKey]

  /** The largest rowid SQLite hands out (a signed 64-bit integer). */
  const MaxRowId := 0x7FFF_FFFF_FFFF_FFFF

  /**
   * MissingField: the KeyError raised for the first absent key. StoreFull:
   * SQLITE_FULL, raised by an AUTOINCREMENT table once the largest rowid has
   * been used.
   */
  datatype SaveError = MissingField(key: string) | StoreFull

  predicate HasReportFields(data: map<string, string>)
  {
    forall k :: k in ReportKeys ==> k in data
  }

  /** The first of `keys` that `data` lacks, as a left-to-right evaluation meets it. */
  function FirstMissing(data: map<string, string>, keys: seq<string>): (r: Option<string>)
    ensures r.None? <==> forall k :: k in keys ==> k in data
    ensures r.Some? ==> r.value in keys && r.value !in data
    ensures r.Some? ==> exists i :: 0 <= i < |keys| && keys[i] == r.value && forall j :: 0 <= j < i ==> keys[j] in data
  {
    if |keys| == 0 then None
    else if keys[0] !in data then Some(keys[0])
    else
      var r := FirstMissing(data, keys[1..]);
      assert forall k :: k in keys ==> k == keys[0] || k in keys[1..];
      if r.Some? then
        var i :| 0 <= i < |keys[1..]| && keys[1..][i] == r.value && forall j :: 0 <= j < i ==> keys[1..][j] in data;
        assert keys[i + 1] == r.value && forall j :: 0 <= j < i + 1 ==> keys[j] in data;
        r
      else r
  }

  /** The row `save_report` inserts for a draft holding every field. */
  function RowOf(data: map<string, string>): Row
    requires HasReportFields(data)
  {
    Row(data[SupervisorNameKey], data[VisitDateKey], data[SchoolNameKey],
        data[MaintenanceNotesKey], data[AcNotesKey], data[CleaningNotesKey])
  }

  /** `ORDER BY visit_date, supervisor_name`: strictly before in that order. */
  predicate KeyLess(a: Row, b: Row)
  {
    LexLess(a.visitDate, b.visitDate)
    || (a.visitDate == b.visitDate && LexLess(a.supervisorName, b.supervisorName))
  }

  lemma KeyLessTransitive(a: Row, b: Row, c: Row)
    requires KeyLess(a, b) && KeyLess(b, c)
    ensures KeyLess(a, c)
  {
    if LexLess(a.visitDate, b.visitDate) && LexLess(b.visitDate, c.visitDate) {
      LexLessTransitive(a.visitDate, b.visitDate, c.visitDate);
    } else if a.visitDate == b.visitDate && b.visitDate == c.visitDate {
      LexLessTransitive(a.supervisorName, b.supervisorName, c.supervisorName);
    }
  }

  lemma KeyLessIrreflexive(a: Row)
    ensures !KeyLess(a, a)
  {
    LexLessIrreflexive(a.visitDate);
    LexLessIrreflexive(a.supervisorName);
  }

  /** No row is strictly before an earlier one; rows with equal keys may come in any order. */
  predicate SortedByKey(s: seq<Row>)
  {
    forall i, j :: 0 <= i < j < |s| ==> !KeyLess(s[j], s[i])
  }

  /** A sorted sequence is ordered by visit date, and by supervisor name within one visit date. */
  lemma SortedMeansOrdered(s: seq<Row>, i: int, j: int)
    requires SortedByKey(s) && 0 <= i < j < |s|
    ensures LexLeq(s[i].visitDate, s[j].visitDate)
    ensures s[i].visitDate == s[j].visitDate ==> LexLeq(s[i].supervisorName, s[j].supervisorName)
  {
    assert !KeyLess(s[j], s[i]);
    LexTrichotomy(s[i].visitDate, s[j].visitDate);
    LexTrichotomy(s[i].supervisorName, s[j].supervisorName);
  }

  /** Inserts `x` after every row whose key is not greater than its own. */
  function Insert(s: seq<Row>, x: Row): (r: seq<Row>)
    requires SortedByKey(s)
    ensures SortedByKey(r)
    ensures multiset(r) == multiset(s) + multiset{x}
  {
    if |s| == 0 then [x]
    else if KeyLess(x, s[0]) then
      InsertFront(s, x);
      [x] + s
    else
      assert s == [s[0]] + s[1..];
      var t := Insert(s[1..], x);
      InsertBehind(s, x, t);
      [s[0]] + t
  }

  lemma {:induction false} InsertFront(s: seq<Row>, x: Row)
    requires SortedByKey(s) && |s| > 0 && KeyLess(x, s[0])
    ensures SortedByKey([x] + s)
  {
    KeyLessIrreflexive(s[0]);
    forall j | 0 <= j < |s| ensures !KeyLess(s[j], x) {
      if KeyLess(s[j], x) {
        KeyLessTransitive(s[j], x, s[0]);
      }
    }
    var r := [x] + s;
    forall i, j | 0 <= i < j < |r| ensures !KeyLess(r[j], r[i]) {
      if i > 0 {
        assert r[i] == s[i - 1] && r[j] == s[j - 1];
      } else {
        assert r[j] == s[j - 1];
      }
    }
  }

  lemma {:induction false} InsertBehind(s: seq<Row>, x: Row, t: seq<Row>)
    requires SortedByKey(s) && |s| > 0 && !KeyLess(x, s[0])
    requires SortedByKey(t) && multiset(t) == multiset(s[1..]) + multiset{x}
    ensures SortedByKey([s[0]] + t)
  {
    var r := [s[0]] + t;
    forall j | 0 <= j < |t| ensures !KeyLess(t[j], s[0]) {
      assert t[j] in multiset(t);
      if t[j] != x {
        assert t[j] in multiset(s[1..]);
        var k :| 0 <= k < |s[1..]| && s[1..][k] == t[j];
        assert s[k + 1] == t[j];
      }
    }
    forall i, j | 0 <= i < j < |r| ensures !KeyLess(r[j], r[i]) {
      if i > 0 {
        assert r[i] == t[i - 1] && r[j] == t[j - 1];
      } else {
        assert r[j] == t[j - 1];
      }
    }
  }

  /** `start <= visit_date <= end` under the BINARY collation (`BETWEEN`). */
  predicate InRange(v: string, lo: string, hi: string)
  {
    LexLeq(lo, v) && LexLeq(v, hi)
  }

  /** The selected columns of every stored record, in insertion order. */
  function RowsOf(records: seq<Record>): seq<Row>
  {
    seq(|records|, i requires 0 <= i < |records| => records[i].row)
  }

  /** The rows of `records` whose visit date lies in the inclusive range, in insertion order. */
  function Select(records: seq<Record>, lo: string, hi: string): (r: seq<Row>)
    ensures |r| <= |records|
  {
    if |records| == 0 then []
    else
      var init := records[..|records| - 1];
      var last := records[|records| - 1];
      Select(init, lo, hi) + (if InRange(last.row.visitDate, lo, hi) then [last.row] else [])
  }

  /** A row is selected exactly when it is stored and its visit date is in range. */
  lemma {:induction false} SelectMembers(records: seq<Record>, lo: string, hi: string, x: Row)
    ensures x in Select(records, lo, hi) <==> x in RowsOf(records) && InRange(x.visitDate, lo, hi)
    decreases |records|
  {
    if |records| > 0 {
      var init := records[..|records| - 1];
      assert RowsOf(records) == RowsOf(init) + [records[|records| - 1].row];
      SelectMembers(init, lo, hi, x);
    }
  }

  lemma SelectStep(records: seq<Record>, i: int, lo: string, hi: string)
    requires 0 <= i < |records|
    ensures Select(records[..i + 1], lo, hi)
            == Select(records[..i], lo, hi) + (if InRange(records[i].row.visitDate, lo, hi) then [records[i].row] else [])
  {
    assert records[..i + 1][..i] == records[..i];
  }

  /**
   * The `reports` table. `lastId` is the AUTOINCREMENT counter: the largest
   * id ever handed out, which a new row always exceeds.
   */
  class ReportStore {
    var records: seq<Record>
    var lastId: int

    /** Ids are increasing in insertion order and none exceeds the counter. */
    predicate Valid()
      reads this
    {
      0 <= lastId <= MaxRowId
      && (forall i :: 0 <= i < |records| ==> 1 <= records[i].id <= lastId)
      && (forall i, j :: 0 <= i < j < |records| ==> records[i].id < records[j].id)
    }

    /** The table as `CREATE TABLE IF NOT EXISTS` leaves a new database. */
    constructor ()
      ensures Valid() && records == [] && lastId == 0
    {
      records := [];
      lastId := 0;
    }

    /**
     * `save_report`: reads the six fields of the draft (a KeyError for the
     * first absent one), inserts them under the next id and returns it.
     */
    method SaveReport(userId: int, data: map<string, string>) returns (r: Result<int, SaveError>)
      requires Valid()
      modifies this
      ensures Valid()
      ensures r.Ok? <==> HasReportFields(data) && old(lastId) < MaxRowId
      ensures !HasReportFields(data) ==> r == Err(MissingField(FirstMissing(data, ReportKeys).value))
      ensures HasReportFields(data) && old(lastId) == MaxRowId ==> r == Err(StoreFull)
      ensures r.Err? ==> records == old(records) && lastId == old(lastId)
      ensures r.Ok? ==> r.value == old(lastId) + 1 && lastId == r.value
      ensures r.Ok? ==> records == old(records) + [Record(r.value, userId, RowOf(data))]
      ensures r.Ok? ==> forall i :: 0 <= i < |old(records)| ==> old(records)[i].id < r.value
    {
      var missing := FirstMissing(data, ReportKeys);
      if missing.Some? {
        return Err(MissingField(missing.value));
      }
      if lastId == MaxRowId {
        return Err(StoreFull);
      }
      var row := RowOf(data);
      lastId := lastId + 1;
      records := records + [Record(lastId, userId, row)];
      r := Ok(lastId);
    }

    /**
     * `SELECT … WHERE visit_date BETWEEN lo AND hi ORDER BY visit_date,
     * supervisor_name`: the rows in range, in key order. The order of rows
     * with equal keys is left open, as SQL leaves it.
     */
    method QueryRange(lo: string, hi: string) returns (rows: seq<Row>)
      ensures SortedByKey(rows)
      ensures multiset(rows) == multiset(Select(records, lo, hi))
    {
      rows := [];
      var i := 0;
      while i < |records|
        invariant 0 <= i <= |records|
        invariant SortedByKey(rows)
        invariant multiset(rows) == multiset(Select(records[..i], lo, hi))
      {
        var rec := records[i];
        SelectStep(records, i, lo, hi);
        ghost var selected := Select(records[..i], lo, hi);
        if InRange(rec.row.visitDate, lo, hi) {
          rows := Insert(rows, rec.row);
          assert multiset(selected + [rec.row]) == multiset(selected) + multiset{rec.row};
        } else {
          assert selected + [] == selected;
        }
        i := i + 1;
      }
      assert records[..i] == records;
    }

    /**
     * `get_reports_by_period`: no reports for an unknown keyword, the
     * OverflowError of the date arithmetic, or the range query between the
     * ISO texts of the period's first and last days.
     */
    method GetReportsByPeriod(period: string, today: Date) returns (r: Result<seq<Row>, PeriodError>)
      requires Calendar.Valid(today)
      ensures !IsPeriod(period) ==> r == Ok([])
      ensures Resolve(period, today) == Err(DateOverflow) ==> r == Err(DateOverflow)
      ensures Resolve(period, today).Ok? ==>
                var range := Resolve(period, today).value;
                r.Ok? && SortedByKey(r.value)
                && multiset(r.value) == multiset(Select(records, Format(range.start), Format(range.end)))
    {
      var range := Resolve(period, today);
      if range.Err? {
        if range.error == InvalidPeriod {
          return Ok([]);
        }
        return Err(DateOverflow);
      }
      var rows := QueryRange(Format(range.value.start), Format(range.value.end));
      r := Ok(rows);
    }
  }

  /**
   * For a visit date stored as `str(d)`, the text range query is the
   * chronological one: a row is selected exactly when it is stored and `d`
   * falls on or between the two days.
   */
  lemma {:induction false} SelectChronological(records: seq<Record>, a: Date, b: Date, d: Date, x: Row)
    requires Valid(a) && Valid(b) && Valid(d) && x.visitDate == Format(d)
    ensures x in Select(records, Format(a), Format(b)) <==>
              x in RowsOf(records) && Ordinal(a) <= Ordinal(d) <= Ordinal(b)
  {
    SelectMembers(records, Format(a), Format(b), x);
    FormatBetween(a, d, b);
  }

  /** A report of the period's range that was saved with a day of that range is found. */
  lemma {:induction false} SelectFindsSaved(records: seq<Record>, range: DateRange, d: Date, i: int)
    requires Valid(range.start) && Valid(range.end) && Valid(d)
    requires 0 <= i < |records| && records[i].row.visitDate == Format(d)
    requires Ordinal(range.start) <= Ordinal(d) <= Ordinal(range.end)
    ensures records[i].row in Select(records, Format(range.start), Format(range.end))
  {
    assert RowsOf(records)[i] == records[i].row;
    SelectMembers(records, Format(range.start), Format(range.end), records[i].row);
    FormatBetween(range.start, d, range.end);
  }
}
