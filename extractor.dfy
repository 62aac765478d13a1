/**
  `parse_results` as the program runs it: one forward pass over `tables[2:]`
  that appends closed semesters to `semesters`, replaces `current` on each
  semester header, appends subject rows to it and overwrites its summary.
  The pass is proved to compute `ResultPage.Extract`.
 */
module Extractor {
  import opened Wrappers
  import opened ResultPage

  method ParseResults(page: Page) returns (r: Option<StudentRecord>)
    ensures r == Extract(page)
    ensures r.Some? ==>
      |page.html| > 0 && |page.tables| >= 2 && |r.value.semesters| >= 1 &&
      ReadIdentity(page.tables[1].paragraphs) ==
        Some(StudentInfo(r.value.rollNumber, r.value.studentName, r.value.fatherName))
  {
    if |page.html| == 0 {
      return None;  // empty response
    }
    var tables := page.tables;
    if |tables| < 2 {
      return None;  // not the result template
    }
    var identity := ReadIdentity(tables[1].paragraphs);
    if identity.None? {
      return None;  // a label or the paragraph after it is missing
    }

    var semesters, current := ScanTables(tables[2..]);
    if current.Some? {
      semesters := semesters + [current.value];
    }
    assert semesters == Flush(Scan(page.tables[2..]));
    if semesters == [] {
      return None;  // no semester found
    }
    var id := identity.value;
    r := Some(StudentRecord(id.rollNumber, id.studentName, id.fatherName, semesters));
  }

  /** The loop `for table in tables[2:]`. */
  method ScanTables(rest: seq<Table>) returns (semesters: seq<Semester>, current: Option<Semester>)
    ensures State(semesters, current) == Scan(rest)
  {
    semesters, current := [], None;
    var i := 0;
    while i < |rest|
      invariant 0 <= i <= |rest|
      invariant State(semesters, current) == Scan(rest[..i])
    {
      assert rest[..i + 1][..i] == rest[..i];
      semesters, current := ProcessOneTable(semesters, current, rest[i]);
      i := i + 1;
    }
    assert rest[..|rest|] == rest;
  }

  /** The body of the loop over the tables, inside its `try`. */
  method ProcessOneTable(semesters: seq<Semester>, current: Option<Semester>, table: Table)
    returns (semesters': seq<Semester>, current': Option<Semester>)
    ensures State(semesters', current') == ProcessTable(State(semesters, current), table)
  {
    semesters', current' := ReadHeader(semesters, current, table);
    ghost var headed := State(semesters', current');
    if table.hasThColor {
      current' := AppendRows(current', Tail(table.rows));
    }
    assert current' == AddSubjects(headed.current, table);
    current' := ReadSummaryInto(current', table);
  }

  /** The semester header: close the open semester and open a new, empty one. */
  method ReadHeader(semesters: seq<Semester>, current: Option<Semester>, table: Table)
    returns (semesters': seq<Semester>, current': Option<Semester>)
    ensures State(semesters', current') == OpenSemester(State(semesters, current), table)
  {
    semesters', current' := semesters, current;
    if table.info.Some? {
      if current'.Some? {
        semesters' := semesters' + [current'.value];
      }
      current' := Some(Semester(SemesterLabel(table.info.value), [], NoSummary));
    }
  }

  /** The summary block; a failed read abandons only the rest of this table. */
  method ReadSummaryInto(current: Option<Semester>, table: Table) returns (current': Option<Semester>)
    ensures current' == SetSummary(current, table)
  {
    current' := current;
    if HasSummaryMarker(table) {
      var cells := table.cells;
      if |cells| >= 5 && current'.Some? {
        var summary := ReadSummary(cells);
        match summary {
          case None =>
          case Some(s) =>
            current' := Some(current'.value.(summary := s));
        }
      }
    }
  }

  /** The loop over the rows of a subject table. */
  method AppendRows(current: Option<Semester>, rows: seq<seq<string>>) returns (current': Option<Semester>)
    ensures current' == AppendSubjects(current, rows)
  {
    current' := current;
    var j := 0;
    assert rows[..0] == [];
    assert current.Some? ==> current.value.subjects + [] == current.value.subjects;
    while j < |rows|
      invariant 0 <= j <= |rows|
      invariant current.None? ==> current' == None
      invariant current.Some? ==>
        current' == Some(current.value.(subjects := current.value.subjects + Subjects(rows[..j])))
    {
      assert rows[..j + 1][..j] == rows[..j];
      var cells := rows[j];
      ghost var sofar := Subjects(rows[..j]);
      ghost var added := if |cells| >= 6 then [RowSubject(cells)] else [];
      assert Subjects(rows[..j + 1]) == sofar + added;
      if |cells| >= 6 {
        var subject := RowSubject(cells);
        if current'.Some? {
          current' := Some(current'.value.(subjects := current'.value.subjects + [subject]));
        }
      }
      if current.Some? {
        assert current'.value.subjects == current.value.subjects + sofar + added;
        assert current.value.subjects + sofar + added == current.value.subjects + (sofar + added);
      }
      j := j + 1;
    }
    assert rows[..|rows|] == rows;
  }
}
