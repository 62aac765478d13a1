/**
  The result page as the extractor sees it, the record it builds, and the
  extraction stated as functions: a left fold of one step per table over
  `tables[2:]`, a final flush and a validity gate.

  The HTML parse is not modelled. A page is given as its raw text and the list
  of its `<table>` elements, each reduced to what the extractor asks of it.
 */
module ResultPage {
  import opened Wrappers
  import opened Text

  /** One `<table>` of the page. */
  datatype Table = Table(
    info: Option<string>,          // text of its first `<tr class="info">`, if any
    hasThColor: bool,              // whether it has a `<tr class="thcolor">`
    rows: seq<seq<string>>,        // each `<tr>`, as the texts of its `<td>`s
    markup: string,                // the table's markup, `str(table)`
    cells: seq<seq<string>>,       // each `<td>`, as the texts of its `<p>`s
    paragraphs: seq<string>)       // the texts of its `<p>`s, in document order

  /** A fetched page: the response text and the tables the parser found in it. */
  datatype Page = Page(html: string, tables: seq<Table>)

  datatype Subject = Subject(
    sno: string, subjectName: string, subjectCode: string,
    credits: string, grade: string, gradePoints: string)

  /** `{}` until a summary block is read, then the four grade-point values. */
  datatype Summary =
    | NoSummary
    | Summary(sgpi: string, sgpiTotal: string, cgpi: string, cgpiTotal: string)

  datatype Semester = Semester(name: string, subjects: seq<Subject>, summary: Summary)

  datatype StudentInfo = StudentInfo(rollNumber: string, studentName: string, fatherName: string)

  datatype StudentRecord = StudentRecord(
    rollNumber: string, studentName: string, fatherName: string, semesters: seq<Semester>)

  const RollNumberLabel := "ROLL NUMBER"
  const StudentNameLabel := "STUDENT NAME"
  const FatherNameLabel := "FATHER NAME"

  /** The inline style that marks the grade-point summary block. */
  const SummaryMarker := "background-color: #d99900"

  // ---------------------------------------------------------------- identity

  /** `i` is the position of the first paragraph whose text contains `key`. */
  ghost predicate FirstMatch(ps: seq<string>, key: string, i: int)
  {
    0 <= i < |ps| && Contains(ps[i], key) &&
    forall j :: 0 <= j < i ==> !Contains(ps[j], key)
  }

  /** `find("p", string=lambda x: key in str(x))`: the first paragraph containing `key`. */
  function FindLabel(ps: seq<string>, key: string): (r: Option<nat>)
    ensures r.Some? ==> FirstMatch(ps, key, r.value)
    ensures r.None? ==> forall j :: 0 <= j < |ps| ==> !Contains(ps[j], key)
    decreases |ps|
  {
    if ps == [] then None
    else if Contains(ps[0], key) then Some(0)
    else match FindLabel(ps[1..], key)
      case None => None
      case Some(i) =>
        assert forall j :: 1 <= j < i + 1 ==> ps[j] == ps[1..][j - 1];
        Some(i + 1)
  }

  /** `....find_next("p").text.strip()` after the key: the trimmed text of the
      paragraph after the first one that contains `key`. It fails when no
      paragraph contains the key or the first one that does is the last. */
  function LabelValue(ps: seq<string>, key: string): (r: Option<string>)
    ensures r.Some? <==> exists i :: FirstMatch(ps, key, i) && i + 1 < |ps|
    ensures forall i :: FirstMatch(ps, key, i) && i + 1 < |ps| ==> r == Some(Strip(ps[i + 1]))
  {
    match FindLabel(ps, key)
    case None => None
    case Some(i) => if i + 1 < |ps| then Some(Strip(ps[i + 1])) else None
  }

  /** The three identity fields of the second table; any one missing fails the whole read. */
  function ReadIdentity(ps: seq<string>): (r: Option<StudentInfo>)
    ensures r.Some? <==>
      (exists i :: FirstMatch(ps, RollNumberLabel, i) && i + 1 < |ps|) &&
      (exists i :: FirstMatch(ps, StudentNameLabel, i) && i + 1 < |ps|) &&
      (exists i :: FirstMatch(ps, FatherNameLabel, i) && i + 1 < |ps|)
    ensures r.Some? ==> forall i :: FirstMatch(ps, RollNumberLabel, i) && i + 1 < |ps| ==> r.value.rollNumber == Strip(ps[i + 1])
    ensures r.Some? ==> forall i :: FirstMatch(ps, StudentNameLabel, i) && i + 1 < |ps| ==> r.value.studentName == Strip(ps[i + 1])
    ensures r.Some? ==> forall i :: FirstMatch(ps, FatherNameLabel, i) && i + 1 < |ps| ==> r.value.fatherName == Strip(ps[i + 1])
  {
    match (LabelValue(ps, RollNumberLabel), LabelValue(ps, StudentNameLabel), LabelValue(ps, FatherNameLabel))
    case (Some(roll), Some(name), Some(father)) => Some(StudentInfo(roll, name, father))
    case _ => None
  }

  // ---------------------------------------------------------------- one table

  /** `text.strip().split(":")[-1].strip()`: the key of a semester header. */
  function SemesterLabel(text: string): (r: string)
    ensures ':' !in r
    ensures r != [] ==> r[0] !in Whitespace && r[|r| - 1] !in Whitespace
    ensures ':' !in Strip(text) ==> r == Strip(text)
  {
    var t := Strip(text);
    var r := Strip(AfterLastColon(t));
    StripCharsAbsent(AfterLastColon(t), Whitespace, ':');
    assert Strip(t) == t by {
      StripIdempotent(text);
    }
    r
  }

  /** The subject read from a row of at least six cells. */
  function RowSubject(row: seq<string>): Subject
    requires |row| >= 6
  {
    Subject(Strip(row[0]), Strip(row[1]), Strip(row[2]), Strip(row[3]), Strip(row[4]), Strip(row[5]))
  }

  /** The subjects read from `rows`, in row order: one per row of at least six cells. */
  function Subjects(rows: seq<seq<string>>): (r: seq<Subject>)
    ensures |r| <= |rows|
    decreases |rows|
  {
    if rows == [] then []
    else
      var last := rows[|rows| - 1];
      Subjects(rows[..|rows| - 1]) + (if |last| >= 6 then [RowSubject(last)] else [])
  }

  /** `find_all("tr")[1:]`: every row but the first (the column headings). */
  function Tail<T>(rows: seq<T>): seq<T>
  {
    if rows == [] then [] else rows[1..]
  }

  /** The semester `cur` with `rows` read into its subjects; rows are dropped when there is no semester. */
  function AppendSubjects(cur: Option<Semester>, rows: seq<seq<string>>): (r: Option<Semester>)
    ensures r.Some? == cur.Some?
    ensures r.Some? ==> r.value.name == cur.value.name && r.value.summary == cur.value.summary
  {
    if cur.Some? then Some(cur.value.(subjects := cur.value.subjects + Subjects(rows))) else None
  }

  predicate HasSummaryMarker(t: Table)
  {
    Contains(t.markup, SummaryMarker)
  }

  /** Each of the cells 1-4 holds a second paragraph. */
  predicate SummaryCellsFilled(cells: seq<seq<string>>)
    requires |cells| >= 5
  {
    forall k :: 1 <= k <= 4 ==> |cells[k]| >= 2
  }

  /** `cells[k].find_all("p")[1].text.strip()` for k = 1..4; any missing paragraph fails the read. */
  function ReadSummary(cells: seq<seq<string>>): Option<Summary>
    requires |cells| >= 5
  {
    if SummaryCellsFilled(cells) then
      Some(Summary(Strip(cells[1][1]), Strip(cells[2][1]), Strip(cells[3][1]), Strip(cells[4][1])))
    else None
  }

  /** Every condition under which a table's summary is taken, except that a semester is open. */
  predicate SummaryFits(t: Table)
  {
    HasSummaryMarker(t) && |t.cells| >= 5 && SummaryCellsFilled(t.cells)
  }

  /** The accumulator of the pass: the closed semesters, in order, and the open one. */
  datatype State = State(semesters: seq<Semester>, current: Option<Semester>)

  /** The closed semesters followed by the open one, if any. */
  function Flush(st: State): seq<Semester>
  {
    st.semesters + (if st.current.Some? then [st.current.value] else [])
  }

  /** The header step: an `info` row closes the open semester and opens a new, empty one. */
  function OpenSemester(st: State, t: Table): State
  {
    match t.info
    case None => st
    case Some(text) => State(Flush(st), Some(Semester(SemesterLabel(text), [], NoSummary)))
  }

  /** The header step loses and reorders nothing; a header adds exactly one semester,
      empty and named after the header, and a table without a header adds none. */
  lemma HeaderStep(st: State, t: Table)
    ensures var r := OpenSemester(st, t);
      st.semesters <= r.semesters && Flush(st) <= Flush(r) &&
      |Flush(r)| == |Flush(st)| + (if t.info.Some? then 1 else 0) &&
      (t.info.Some? ==>
        var added := Flush(r)[|Flush(st)|];
        added.name == SemesterLabel(t.info.value) && added.subjects == [] && added.summary == NoSummary)
  {
  }

  /** The subject step: a `thcolor` table adds its rows after the first to the open semester. */
  function AddSubjects(cur: Option<Semester>, t: Table): Option<Semester>
  {
    if t.hasThColor then AppendSubjects(cur, Tail(t.rows)) else cur
  }

  /** The summary step. A failed read leaves the semester as the earlier steps made it. */
  function SetSummary(cur: Option<Semester>, t: Table): (r: Option<Semester>)
    ensures r.Some? == cur.Some?
    ensures r.Some? ==> r.value.name == cur.value.name && r.value.subjects == cur.value.subjects
    ensures !SummaryFits(t) ==> r == cur
  {
    if HasSummaryMarker(t) && |t.cells| >= 5 && cur.Some? then
      (match ReadSummary(t.cells)
       case None => cur
       case Some(s) => Some(cur.value.(summary := s)))
    else cur
  }

  /** One iteration of the loop over the tables. */
  function ProcessTable(st: State, t: Table): State
  {
    var headed := OpenSemester(st, t);
    headed.(current := SetSummary(AddSubjects(headed.current, t), t))
  }

  /** The state after processing `ts` in order, starting with nothing. */
  function Scan(ts: seq<Table>): State
    decreases |ts|
  {
    if ts == [] then State([], None) else ProcessTable(Scan(ts[..|ts| - 1]), ts[|ts| - 1])
  }

  /** `parse_results`: no data for an empty response, for fewer than two tables,
      for an unreadable identity block and when no semester was found. */
  function Extract(page: Page): Option<StudentRecord>
  {
    if |page.html| == 0 || |page.tables| < 2 then None
    else match ReadIdentity(page.tables[1].paragraphs)
      case None => None
      case Some(id) =>
        var semesters := Flush(Scan(page.tables[2..]));
        if semesters == [] then None
        else Some(StudentRecord(id.rollNumber, id.studentName, id.fatherName, semesters))
  }
}
