/**
 * The cell contents of the workbook `create_excel_report` builds: a summary
 * sheet first, then one sheet per inspection section listing every report
 * with that section's note. Styling, column widths and the file itself are
 * not modelled; a workbook is its sequence of (title, rows) sheets.
 */
module Spreadsheet {
  import opened Reports

  datatype Cell = Text(text: string) | Number(value: int)
  datatype Sheet = Sheet(title: string, rows: seq<seq<Cell>>)

  /** 'لا يوجد' ("none"): shown for a blank note, and not counted when it is the note. */
  const Sentinel := "لا يوجد"

  /** The sections and the query column holding their notes. */
  const Sections: seq<(string, int)> := [("الصيانة", 3), ("التكييف", 4), ("النظافة", 5)]

  const SummaryTitle := "الملخص"
  const Headers := [Text("التاريخ"), Text("المشرف"), Text("المدرسة"), Text("الملاحظة")]
  /** The four rows above the per-section counts. */
  const SummaryPreamble: seq<seq<Cell>> := [
    [Text("نوع التقرير"), Text("الفترة")],
    [Text("إجمالي التقارير")],
    [Text("")],
    [Text("القسم"), Text("عدد الملاحظات")]]

  /** `report[i]` for the query's column order. */
  function Column(r: Row, i: int): string
    requires 0 <= i < 6
  {
    match i
    case 0 => r.supervisorName
    case 1 => r.visitDate
    case 2 => r.schoolName
    case 3 => r.maintenanceNotes
    case 4 => r.acNotes
    case 5 => r.cleaningNotes
  }

  /** Python's `str.isspace` for one character. */
  predicate IsSpace(c: char)
  {
    || ('\t' <= c <= '\r') || ('\U{1C}' <= c <= '\U{1F}') || c == ' '
    || c == '\U{85}' || c == '\U{A0}' || c == '\U{1680}'
    || ('\U{2000}' <= c <= '\U{200A}') || c == '\U{2028}' || c == '\U{2029}'
    || c == '\U{202F}' || c == '\U{205F}' || c == '\U{3000}'
  }

  predicate AllSpace(s: string)
  {
    forall i :: 0 <= i < |s| ==> IsSpace(s[i])
  }

  function StripLeading(s: string): (r: string)
    ensures |r| <= |s| && r == s[|s| - |r|..]
  {
    if |s| > 0 && IsSpace(s[0]) then StripLeading(s[1..]) else s
  }

  function StripTrailing(s: string): (r: string)
    ensures |r| <= |s| && r == s[..|r|]
  {
    if |s| > 0 && IsSpace(s[|s| - 1]) then StripTrailing(s[..|s| - 1]) else s
  }

  /** `str.strip()`: the text without its leading and trailing whitespace. */
  function Strip(s: string): (r: string)
    ensures |r| <= |s|
  {
    StripTrailing(StripLeading(s))
  }

  /** What `StripLeading` removes is whitespace, and what it keeps does not start with any. */
  lemma {:induction false} StripLeadingSpaces(s: string)
    ensures var r := StripLeading(s);
            (forall i :: 0 <= i < |s| - |r| ==> IsSpace(s[i])) && (|r| > 0 ==> !IsSpace(r[0]))
    decreases |s|
  {
    if |s| > 0 && IsSpace(s[0]) {
      StripLeadingSpaces(s[1..]);
      forall i | 1 <= i < |s| - |StripLeading(s)| ensures IsSpace(s[i]) {
        assert s[i] == s[1..][i - 1];
      }
    }
  }

  /** What `StripTrailing` removes is whitespace, and what it keeps does not end with any. */
  lemma {:induction false} StripTrailingSpaces(s: string)
    ensures var r := StripTrailing(s);
            (forall i :: |r| <= i < |s| ==> IsSpace(s[i])) && (|r| > 0 ==> !IsSpace(r[|r| - 1]))
    decreases |s|
  {
    if |s| > 0 && IsSpace(s[|s| - 1]) {
      StripTrailingSpaces(s[..|s| - 1]);
      forall i | |StripTrailing(s)| <= i < |s| - 1 ensures IsSpace(s[i]) {
        assert s[i] == s[..|s| - 1][i];
      }
    }
  }

  /** `strip()` leaves nothing exactly when the text is all whitespace. */
  lemma StripEmpty(s: string)
    ensures Strip(s) == [] <==> AllSpace(s)
  {
    if Strip(s) == [] {
      StripEmptyAllSpace(s);
    } else {
      StripNonEmpty(s);
    }
  }

  lemma StripEmptyAllSpace(s: string)
    requires Strip(s) == []
    ensures AllSpace(s)
  {
    var l := StripLeading(s);
    StripLeadingSpaces(s);
    StripTrailingSpaces(l);
    assert l == [];
  }

  lemma StripNonEmpty(s: string)
    requires Strip(s) != []
    ensures !AllSpace(s)
  {
    var l := StripLeading(s);
    StripLeadingSpaces(s);
    assert s[|s| - |l|] == l[0];
  }

  /** What `strip()` keeps neither starts nor ends with whitespace. */
  lemma StripEnds(s: string)
    ensures var r := Strip(s); |r| > 0 ==> !IsSpace(r[0]) && !IsSpace(r[|r| - 1])
  {
    var l := StripLeading(s);
    StripLeadingSpaces(s);
    StripTrailingSpaces(l);
  }

  function LowerChar(c: char): char
  {
    if 'A' <= c <= 'Z' then (c as int + 32) as char else c
  }

  /** `str.lower()` on ASCII letters; other characters are kept. */
  function Lower(s: string): (r: string)
    ensures |r| == |s| && forall i :: 0 <= i < |s| ==> r[i] == LowerChar(s[i])
  {
    if s == [] then [] else [LowerChar(s[0])] + Lower(s[1..])
  }

  /** An empty note, or one that strips to nothing: shown as the sentinel. */
  predicate IsBlank(note: string)
  {
    note == [] || Strip(note) == []
  }

  /** The note cell of a section sheet. */
  function NoteCell(note: string): string
  {
    if IsBlank(note) then Sentinel else note
  }

  /** A note the summary counts: non-empty after stripping, and not the sentinel once lowercased. */
  predicate Counted(note: string)
  {
    note != [] && Strip(note) != [] && Lower(Strip(note)) != Sentinel
  }

  /** One report's row in a section sheet. */
  function DetailRow(r: Row, column: int): seq<Cell>
    requires 0 <= column < 6
  {
    [Text(r.visitDate), Text(r.supervisorName), Text(r.schoolName), Text(NoteCell(Column(r, column)))]
  }

  /** Whether each report's note in `column` is counted. */
  function Marks(reports: seq<Row>, column: int): seq<bool>
    requires 0 <= column < 6
  {
    seq(|reports|, i requires 0 <= i < |reports| => Counted(Column(reports[i], column)))
  }

  lemma MarksCounted(reports: seq<Row>, column: int)
    requires 0 <= column < 6
    ensures var m := Marks(reports, column);
            |m| == |reports| && forall i :: 0 <= i < |reports| ==> m[i] == Counted(Column(reports[i], column))
  {
  }

  function Tally(m: seq<bool>): nat
  {
    if |m| == 0 then 0 else Tally(m[..|m| - 1]) + (if m[|m| - 1] then 1 else 0)
  }

  /** The number of reports whose note in `column` is counted. */
  function CountNotes(reports: seq<Row>, column: int): (n: nat)
    requires 0 <= column < 6
    ensures n <= |reports|
  {
    TallyBound(Marks(reports, column));
    Tally(Marks(reports, column))
  }

  /** The rows of one section sheet: the header, then one row per report in query order. */
  method SectionRows(reports: seq<Row>, column: int) returns (rows: seq<seq<Cell>>)
    requires 0 <= column < 6
    ensures |rows| == |reports| + 1 && rows[0] == Headers
    ensures forall i :: 0 <= i < |reports| ==> rows[i + 1] == DetailRow(reports[i], column)
  {
    rows := [Headers];
    var i := 0;
    while i < |reports|
      invariant 0 <= i <= |reports| && |rows| == i + 1 && rows[0] == Headers
      invariant forall j :: 0 <= j < i ==> rows[j + 1] == DetailRow(reports[j], column)
    {
      var note := Column(reports[i], column);
      if note == [] || Strip(note) == [] {
        note := Sentinel;
      }
      assert note == NoteCell(Column(reports[i], column));
      var row := [Text(reports[i].visitDate), Text(reports[i].supervisorName), Text(reports[i].schoolName), Text(note)];
      assert row == DetailRow(reports[i], column);
      assert forall j :: 0 <= j <= i ==> (rows + [row])[j] == rows[j];
      rows := rows + [row];
      i := i + 1;
    }
  }

  /** The number of reports whose note in `column` counts towards the summary. */
  method CountSection(reports: seq<Row>, column: int) returns (count: int)
    requires 0 <= column < 6
    ensures count == CountNotes(reports, column)
  {
    ghost var marks := Marks(reports, column);
    count := 0;
    var i := 0;
    while i < |reports|
      invariant 0 <= i <= |reports| && count == Tally(marks[..i])
    {
      var note := Column(reports[i], column);
      TallyStep(marks, i);
      if note != [] && Strip(note) != [] && Lower(Strip(note)) != Sentinel {
        count := count + 1;
      }
      i := i + 1;
    }
    assert marks[..i] == marks;
  }

  lemma TallyStep(m: seq<bool>, i: int)
    requires 0 <= i < |m|
    ensures Tally(m[..i + 1]) == Tally(m[..i]) + (if m[i] then 1 else 0)
  {
    assert m[..i + 1][..i] == m[..i];
  }

  /** The first loop of `create_excel_report`: one sheet per section, in section order. */
  method SectionSheets(reports: seq<Row>) returns (sheets: seq<Sheet>)
    ensures |sheets| == |Sections|
    ensures forall k :: 0 <= k < |Sections| ==>
              && sheets[k].title == Sections[k].0 && |sheets[k].rows| == |reports| + 1 && sheets[k].rows[0] == Headers
              && forall i :: 0 <= i < |reports| ==> sheets[k].rows[i + 1] == DetailRow(reports[i], Sections[k].1)
  {
    sheets := [];
    var k := 0;
    while k < |Sections|
      invariant 0 <= k <= |Sections| && |sheets| == k
      invariant forall j :: 0 <= j < k ==>
                  && sheets[j].title == Sections[j].0 && |sheets[j].rows| == |reports| + 1 && sheets[j].rows[0] == Headers
                  && forall i :: 0 <= i < |reports| ==> sheets[j].rows[i + 1] == DetailRow(reports[i], Sections[j].1)
    {
      var (name, column) := Sections[k];
      var rows := SectionRows(reports, column);
      sheets := sheets + [Sheet(name, rows)];
      k := k + 1;
    }
  }

  /** The rows of the summary sheet: the preamble with the total, then each section's count. */
  method SummaryRows(reports: seq<Row>) returns (summary: seq<seq<Cell>>)
    ensures |summary| == 4 + |Sections|
    ensures summary[0] == SummaryPreamble[0] && summary[2] == SummaryPreamble[2] && summary[3] == SummaryPreamble[3]
    ensures summary[1] == SummaryPreamble[1] + [Number(|reports|)]
    ensures forall k :: 0 <= k < |Sections| ==>
              summary[4 + k] == [Text(Sections[k].0), Number(CountNotes(reports, Sections[k].1))]
  {
    summary := SummaryPreamble[..1] + [SummaryPreamble[1] + [Number(|reports|)]] + SummaryPreamble[2..];
    var k := 0;
    while k < |Sections|
      invariant 0 <= k <= |Sections| && |summary| == 4 + k
      invariant summary[0] == SummaryPreamble[0] && summary[2] == SummaryPreamble[2] && summary[3] == SummaryPreamble[3]
      invariant summary[1] == SummaryPreamble[1] + [Number(|reports|)]
      invariant forall j :: 0 <= j < k ==> summary[4 + j] == [Text(Sections[j].0), Number(CountNotes(reports, Sections[j].1))]
    {
      var (name, column) := Sections[k];
      var count := CountSection(reports, column);
      summary := summary + [[Text(name), Number(count)]];
      k := k + 1;
    }
  }

  /**
   * `create_excel_report` without its styling and file output: the summary
   * sheet first (inserted at index 0), then the three section sheets in
   * the order they are created.
   */
  method CreateExcelReport(reports: seq<Row>) returns (wb: seq<Sheet>)
    ensures |wb| == 1 + |Sections|
    ensures wb[0].title == SummaryTitle && |wb[0].rows| == 4 + |Sections|
    ensures wb[0].rows[0] == SummaryPreamble[0] && wb[0].rows[2] == SummaryPreamble[2] && wb[0].rows[3] == SummaryPreamble[3]
    ensures wb[0].rows[1] == SummaryPreamble[1] + [Number(|reports|)]
    ensures forall k :: 0 <= k < |Sections| ==>
              wb[0].rows[4 + k] == [Text(Sections[k].0), Number(CountNotes(reports, Sections[k].1))]
    ensures forall k :: 0 <= k < |Sections| ==>
              && wb[k + 1].title == Sections[k].0 && |wb[k + 1].rows| == |reports| + 1 && wb[k + 1].rows[0] == Headers
              && forall i :: 0 <= i < |reports| ==> wb[k + 1].rows[i + 1] == DetailRow(reports[i], Sections[k].1)
  {
    var sheets := SectionSheets(reports);
    var summary := SummaryRows(reports);
    wb := [Sheet(SummaryTitle, summary)] + sheets;
    assert wb[0] == Sheet(SummaryTitle, summary);
    assert forall k :: 0 <= k < |Sections| ==> wb[k + 1] == sheets[k];
  }

  /** A note is shown as the sentinel exactly when it is empty or all whitespace; otherwise verbatim. */
  lemma NoteCellShown(note: string)
    ensures NoteCell(note) == if AllSpace(note) then Sentinel else note
  {
    StripEmpty(note);
  }

  /** Lowercasing ASCII letters cannot turn other text into the sentinel, which has none. */
  lemma LowerIsSentinel(s: string)
    ensures Lower(s) == Sentinel <==> s == Sentinel
  {
    if Lower(s) == Sentinel {
      LowerToSentinel(s);
    }
    if s == Sentinel {
      SentinelLower();
    }
  }

  lemma LowerToSentinel(s: string)
    requires Lower(s) == Sentinel
    ensures s == Sentinel
  {
    forall i | 0 <= i < |s| ensures s[i] == Sentinel[i] {
      assert LowerChar(s[i]) == Sentinel[i];
    }
  }

  lemma SentinelLower()
    ensures Lower(Sentinel) == Sentinel
  {
    var r := Lower(Sentinel);
    forall i | 0 <= i < |r| ensures r[i] == Sentinel[i] {
      assert r[i] == LowerChar(Sentinel[i]);
    }
  }

  /**
   * A note is counted exactly when its cell in the section sheet, stripped
   * and lowercased, is not the sentinel: a blank note and a note reading
   * 'لا يوجد' are both shown and both left out of the count.
   */
  lemma CountedIffCellNotSentinel(note: string)
    ensures Counted(note) <==> Lower(Strip(NoteCell(note))) != Sentinel
    ensures Counted(note) ==> NoteCell(note) == note
  {
    LowerIsSentinel(Strip(NoteCell(note)));
    if IsBlank(note) {
      SentinelStrips();
    }
  }

  lemma SentinelStrips()
    ensures Strip(Sentinel) == Sentinel
  {
    assert !IsSpace(Sentinel[0]);
    assert StripLeading(Sentinel) == Sentinel;
    assert !IsSpace(Sentinel[|Sentinel| - 1]);
    assert StripTrailing(Sentinel) == Sentinel;
  }

  /** A note that is the sentinel, with or without surrounding whitespace, is not counted. */
  lemma SentinelNotCounted(pad1: string, pad2: string)
    requires AllSpace(pad1) && AllSpace(pad2)
    ensures !Counted(pad1 + Sentinel + pad2)
  {
    var s := pad1 + Sentinel + pad2;
    StripPadded(pad1, Sentinel, pad2);
    LowerIsSentinel(Strip(s));
  }

  lemma StripPadded(pad1: string, core: string, pad2: string)
    requires AllSpace(pad1) && AllSpace(pad2)
    requires |core| > 0 && !IsSpace(core[0]) && !IsSpace(core[|core| - 1])
    ensures Strip(pad1 + core + pad2) == core
  {
    var s := pad1 + core + pad2;
    StripLeadingPadded(pad1, core + pad2);
    assert s == pad1 + (core + pad2);
    StripTrailingPadded(core, pad2);
  }

  lemma {:induction false} StripLeadingPadded(pad: string, rest: string)
    requires AllSpace(pad) && |rest| > 0 && !IsSpace(rest[0])
    ensures StripLeading(pad + rest) == rest
    decreases |pad|
  {
    if |pad| > 0 {
      assert (pad + rest)[1..] == pad[1..] + rest;
      StripLeadingPadded(pad[1..], rest);
    } else {
      assert pad + rest == rest;
    }
  }

  lemma {:induction false} StripTrailingPadded(rest: string, pad: string)
    requires AllSpace(pad) && |rest| > 0 && !IsSpace(rest[|rest| - 1])
    ensures StripTrailing(rest + pad) == rest
    decreases |pad|
  {
    if |pad| > 0 {
      assert (rest + pad)[..|rest + pad| - 1] == rest + pad[..|pad| - 1];
      StripTrailingPadded(rest, pad[..|pad| - 1]);
    } else {
      assert rest + pad == rest;
    }
  }

  lemma {:induction false} TallyBound(m: seq<bool>)
    ensures Tally(m) <= |m|
    decreases |m|
  {
    if |m| > 0 {
      TallyBound(m[..|m| - 1]);
    }
  }

  /** The count equals the total exactly when every report's note is counted. */
  lemma CountAll(reports: seq<Row>, column: int)
    requires 0 <= column < 6
    ensures CountNotes(reports, column) == |reports| <==> forall i :: 0 <= i < |reports| ==> Counted(Column(reports[i], column))
  {
    MarksCounted(reports, column);
    TallyAll(Marks(reports, column));
  }

  lemma {:induction false} TallyAll(m: seq<bool>)
    ensures Tally(m) == |m| <==> forall i :: 0 <= i < |m| ==> m[i]
    decreases |m|
  {
    if |m| > 0 {
      TallyAll(m[..|m| - 1]);
      TallyBound(m[..|m| - 1]);
      assert forall i :: 0 <= i < |m| - 1 ==> m[..|m| - 1][i] == m[i];
    }
  }

  lemma {:induction false} TallyNone(m: seq<bool>)
    ensures Tally(m) == 0 <==> forall i :: 0 <= i < |m| ==> !m[i]
    decreases |m|
  {
    if |m| > 0 {
      TallyNone(m[..|m| - 1]);
      assert forall i :: 0 <= i < |m| - 1 ==> m[..|m| - 1][i] == m[i];
    }
  }

  lemma CountNone(reports: seq<Row>, column: int)
    requires 0 <= column < 6
    ensures CountNotes(reports, column) == 0 <==> forall i :: 0 <= i < |reports| ==> !Counted(Column(reports[i], column))
  {
    MarksCounted(reports, column);
    TallyNone(Marks(reports, column));
  }

  /**
   * An example: one report with an empty maintenance note, the AC
   * note "leak" and an empty cleaning note counts 0, 1 and 0, and its
   * maintenance row shows the sentinel while its AC row shows "leak".
   */
  lemma SingleReportExample()
    ensures var reports := [Row("A", "2024-12-16", "S1", "", "leak", "")];
            CountNotes(reports, 3) == 0 && CountNotes(reports, 4) == 1 && CountNotes(reports, 5) == 0
            && DetailRow(reports[0], 3) == [Text("2024-12-16"), Text("A"), Text("S1"), Text(Sentinel)]
            && DetailRow(reports[0], 4) == [Text("2024-12-16"), Text("A"), Text("S1"), Text("leak")]
  {
    var reports := [Row("A", "2024-12-16", "S1", "", "leak", "")];
    LeakCounted();
    OneReportCount(reports[0], 3);
    OneReportCount(reports[0], 4);
    OneReportCount(reports[0], 5);
    assert Column(reports[0], 4) == "leak";
  }

  lemma LeakCounted()
    ensures Counted("leak") && NoteCell("leak") == "leak"
  {
    StripPadded("", "leak", "");
    assert "" + "leak" + "" == "leak";
    assert Lower("leak")[0] == 'l' != Sentinel[0];
  }

  lemma OneReportCount(r: Row, column: int)
    requires 0 <= column < 6
    ensures CountNotes([r], column) == if Counted(Column(r, column)) then 1 else 0
  {
    var m := Marks([r], column);
    assert |m| == 1 && m[0] == Counted(Column(r, column));
    assert m[..0] == [];
    assert Tally(m) == Tally(m[..0]) + (if m[0] then 1 else 0);
  }
}
