/**
  What the extraction promises, proved about `ResultPage.Extract` and the
  fold behind it: the page-level "no data" cases, one semester per header
  table in document order, semesters that are only ever appended, and the
  rules for subject rows and summaries within one table.
 */
module ExtractionProperties {
  import opened Wrappers
  import opened Text
  import opened ResultPage

  /** The names of `sems`, in order. */
  function Names(sems: seq<Semester>): seq<string>
  {
    seq(|sems|, i requires 0 <= i < |sems| => sems[i].name)
  }

  /** Naming distributes over concatenation: appending semesters appends their names. */
  lemma NamesAppend(a: seq<Semester>, b: seq<Semester>)
    ensures Names(a + b) == Names(a) + Names(b)
  {
  }

  /** The labels of the tables of `ts` that carry a semester header, in document order. */
  function HeaderLabels(ts: seq<Table>): seq<string>
    decreases |ts|
  {
    if ts == [] then []
    else (if ts[0].info.Some? then [SemesterLabel(ts[0].info.value)] else []) + HeaderLabels(ts[1..])
  }

  lemma {:induction false} HeaderLabelsSnoc(ts: seq<Table>, t: Table)
    ensures HeaderLabels(ts + [t]) ==
      HeaderLabels(ts) + (if t.info.Some? then [SemesterLabel(t.info.value)] else [])
    decreases |ts|
  {
    if ts == [] {
      assert [] + [t] == [t];
    } else {
      assert (ts + [t])[1..] == ts[1..] + [t];
      HeaderLabelsSnoc(ts[1..], t);
    }
  }

  // ---------------------------------------------------------------- the page

  /** The three cases of "no data" that do not depend on the semesters: an empty
      response, fewer than two tables, and a missing identity field. */
  lemma NoDataCases(page: Page)
    ensures |page.html| == 0 ==> Extract(page).None?
    ensures |page.tables| < 2 ==> Extract(page).None?
    ensures (|page.tables| >= 2 &&
      (LabelValue(page.tables[1].paragraphs, RollNumberLabel).None? ||
       LabelValue(page.tables[1].paragraphs, StudentNameLabel).None? ||
       LabelValue(page.tables[1].paragraphs, FatherNameLabel).None?)) ==> Extract(page).None?
  {
  }

  /** The semesters read from `ts` are named after the header tables of `ts`, one each
      and in order; a semester is open after `ts` exactly when `ts` had a header. */
  lemma {:induction false} ScanNames(ts: seq<Table>)
    ensures Names(Flush(Scan(ts))) == HeaderLabels(ts)
    ensures Scan(ts).current.Some? <==> HeaderLabels(ts) != []
    decreases |ts|
  {
    if ts != [] {
      var init, t := ts[..|ts| - 1], ts[|ts| - 1];
      assert ts == init + [t];
      ScanNames(init);
      HeaderLabelsSnoc(init, t);
      var st := Scan(init);
      var headed := OpenSemester(st, t);
      var st' := Scan(ts);
      assert st' == ProcessTable(st, t);
      assert st'.semesters == headed.semesters;
      if t.info.Some? {
        assert st'.current.Some? && st'.current.value.name == SemesterLabel(t.info.value);
        assert Flush(st') == Flush(st) + [st'.current.value];
        NamesAppend(Flush(st), [st'.current.value]);
      } else {
        assert st'.semesters == st.semesters;
        assert Names(Flush(st')) == Names(Flush(st));
      }
    }
  }

  /** Once the identity block reads, the result is a record exactly when some table
      after the first two carries a semester header; its semesters are then named
      after those headers, one per header table, in document order, and its identity
      fields are the values read from the second table. */
  lemma SemestersFollowHeaders(page: Page)
    requires |page.html| > 0 && |page.tables| >= 2
    requires ReadIdentity(page.tables[1].paragraphs).Some?
    ensures Extract(page).Some? <==> HeaderLabels(page.tables[2..]) != []
    ensures Extract(page).Some? ==>
      var rec, id := Extract(page).value, ReadIdentity(page.tables[1].paragraphs).value;
      Names(rec.semesters) == HeaderLabels(page.tables[2..]) &&
      |rec.semesters| == |HeaderLabels(page.tables[2..])| &&
      rec.rollNumber == id.rollNumber && rec.studentName == id.studentName &&
      rec.fatherName == id.fatherName
  {
    ScanNames(page.tables[2..]);
  }

  /** The first table, and everything of the second but its paragraphs, never affect the result. */
  lemma FirstTwoTablesContributeNoSemester(html: string, t0: Table, t1: Table, u0: Table, u1: Table, rest: seq<Table>)
    requires t1.paragraphs == u1.paragraphs
    ensures Extract(Page(html, [t0, t1] + rest)) == Extract(Page(html, [u0, u1] + rest))
  {
  }

  /** `semesters` only grows by appending: what is closed after a prefix of the
      tables is a prefix of what is closed after all of them. */
  lemma {:induction false} SemestersOnlyGrow(ts: seq<Table>, i: nat)
    requires i <= |ts|
    ensures Scan(ts[..i]).semesters <= Scan(ts).semesters
    decreases |ts|
  {
    if i == |ts| {
      assert ts[..i] == ts;
    } else {
      var init := ts[..|ts| - 1];
      assert init[..i] == ts[..i];
      SemestersOnlyGrow(init, i);
      var st := Scan(init);
      assert Scan(ts) == ProcessTable(st, ts[|ts| - 1]);
      assert st.semesters <= Scan(ts).semesters;
    }
  }

  // ---------------------------------------------------------------- subject rows

  /** Reading rows distributes over concatenation: each row is read on its own, in order. */
  lemma {:induction false} SubjectsAppend(a: seq<seq<string>>, b: seq<seq<string>>)
    ensures Subjects(a + b) == Subjects(a) + Subjects(b)
    decreases |b|
  {
    if b == [] {
      assert a + b == a;
    } else {
      var b' := b[..|b| - 1];
      assert (a + b)[..|a + b| - 1] == a + b';
      SubjectsAppend(a, b');
    }
  }

  /** A row of at least six cells gives exactly its own subject. */
  lemma SubjectOfRow(row: seq<string>)
    requires |row| >= 6
    ensures Subjects([row]) == [RowSubject(row)]
  {
  }

  /** A row of fewer than six cells is dropped without affecting its siblings. */
  lemma ShortRowDropped(a: seq<seq<string>>, row: seq<string>, b: seq<seq<string>>)
    requires |row| < 6
    ensures Subjects(a + [row] + b) == Subjects(a + b)
  {
    SubjectsAppend(a + [row], b);
    SubjectsAppend(a, [row]);
    SubjectsAppend(a, b);
    assert [row][..0] == [];
  }

  // ---------------------------------------------------------------- one table

  /** A table without a semester header: the closed semesters stay as they are;
      with no open semester nothing is read; otherwise the open semester keeps its
      name, gains the subject rows of a `thcolor` table after its first row, and
      takes the table's summary when the summary can be read, replacing any earlier one. */
  lemma TableWithoutHeader(st: State, t: Table)
    requires t.info.None?
    ensures ProcessTable(st, t).semesters == st.semesters
    ensures st.current.None? ==> ProcessTable(st, t).current.None?
    ensures st.current.Some? ==>
      var c, c' := st.current.value, ProcessTable(st, t).current;
      c'.Some? && c'.value.name == c.name &&
      c'.value.subjects == c.subjects + (if t.hasThColor then Subjects(Tail(t.rows)) else []) &&
      c'.value.summary == (if SummaryFits(t) then ReadSummary(t.cells).value else c.summary)
  {
  }

  /** A table with a semester header: the open semester is closed first, and the new
      one, named after the header, receives this table's own subject rows and summary. */
  lemma TableWithHeader(st: State, t: Table)
    requires t.info.Some?
    ensures ProcessTable(st, t).semesters == Flush(st)
    ensures ProcessTable(st, t).current == Some(Semester(
      SemesterLabel(t.info.value),
      if t.hasThColor then Subjects(Tail(t.rows)) else [],
      if SummaryFits(t) then ReadSummary(t.cells).value else NoSummary))
  {
    var subjects := if t.hasThColor then Subjects(Tail(t.rows)) else [];
    assert [] + subjects == subjects;
  }

  /** The label of the header `"Semester : I"` is `"I"`. */
  lemma SemesterLabelExample()
    ensures SemesterLabel("Semester : I") == "I"
  {
    var s := "Semester : I";
    assert s[0] == 'S' && s[|s| - 1] == 'I';
    StripCharsOfStripped(s, Whitespace);
    var a := AfterLastColon(s);
    assert s[9] == ':';
    assert forall i :: 10 <= i < |s| ==> s[i] != ':';
    assert |a| == 2;
    assert a == " I";
    assert " I"[1..] == "I";
    StripCharsOfStripped("I", Whitespace);
  }

  /** A page whose identity block reads, followed by one header table
      `"Semester : I"` and one subject table with a heading row and two full rows,
      gives one semester `"I"` holding those two subjects in row order. */
  lemma OneSemesterExample(html: string, t0: Table, t1: Table, header: Table, subjects: Table,
                           heading: seq<string>, row1: seq<string>, row2: seq<string>)
    requires |html| > 0
    requires ReadIdentity(t1.paragraphs).Some?
    requires header.info == Some("Semester : I") && !header.hasThColor && !HasSummaryMarker(header)
    requires subjects.info.None? && subjects.hasThColor && !HasSummaryMarker(subjects)
    requires subjects.rows == [heading, row1, row2] && |row1| >= 6 && |row2| >= 6
    ensures var id := ReadIdentity(t1.paragraphs).value;
      Extract(Page(html, [t0, t1, header, subjects])) ==
        Some(StudentRecord(id.rollNumber, id.studentName, id.fatherName,
          [Semester("I", [RowSubject(row1), RowSubject(row2)], NoSummary)]))
  {
    assert [t0, t1, header, subjects][2..] == [header, subjects];
    ExampleSemesters(header, subjects, heading, row1, row2);
  }

  lemma ExampleSemesters(header: Table, subjects: Table, heading: seq<string>, row1: seq<string>, row2: seq<string>)
    requires header.info == Some("Semester : I") && !header.hasThColor && !HasSummaryMarker(header)
    requires subjects.info.None? && subjects.hasThColor && !HasSummaryMarker(subjects)
    requires subjects.rows == [heading, row1, row2] && |row1| >= 6 && |row2| >= 6
    ensures Flush(Scan([header, subjects])) == [Semester("I", [RowSubject(row1), RowSubject(row2)], NoSummary)]
  {
    var ts := [header, subjects];
    var st1 := OneHeader(header);
    var sem := TwoRows(st1, subjects, heading, row1, row2);
    assert ts[..1] == [header];
    assert Scan(ts) == State([], Some(sem));
  }

  /** The state after a lone header table `"Semester : I"` with nothing else in it. */
  lemma OneHeader(header: Table) returns (st: State)
    requires header.info == Some("Semester : I") && !header.hasThColor && !HasSummaryMarker(header)
    ensures st == Scan([header]) && st == State([], Some(Semester("I", [], NoSummary)))
  {
    SemesterLabelExample();
    assert [header][..0] == [];
    st := Scan([header]);
  }

  /** The subject table of the example read into the freshly opened semester `"I"`. */
  lemma TwoRows(st: State, subjects: Table, heading: seq<string>, row1: seq<string>, row2: seq<string>)
    returns (sem: Semester)
    requires st == State([], Some(Semester("I", [], NoSummary)))
    requires subjects.info.None? && subjects.hasThColor && !HasSummaryMarker(subjects)
    requires subjects.rows == [heading, row1, row2] && |row1| >= 6 && |row2| >= 6
    ensures sem == Semester("I", [RowSubject(row1), RowSubject(row2)], NoSummary)
    ensures ProcessTable(st, subjects) == State([], Some(sem))
  {
    var rows := Tail(subjects.rows);
    assert rows == [row1] + [row2];
    SubjectsAppend([row1], [row2]);
    SubjectOfRow(row1);
    SubjectOfRow(row2);
    TableWithoutHeader(st, subjects);
    sem := Semester("I", [RowSubject(row1), RowSubject(row2)], NoSummary);
    var st2 := ProcessTable(st, subjects);
    assert st2.current.value.subjects == [] + Subjects(rows);
    assert [] + Subjects(rows) == [RowSubject(row1), RowSubject(row2)];
    assert st2.current == Some(sem);
  }
}
