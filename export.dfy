/** The daily export of app/export.py: one archive sheet per non-empty partition, built
    from the roster and the day's attendance, and then the reset of every partition's
    attendance. The spreadsheet itself is abstract: the archive file of a partition and
    date holds the sheet's rows. */
module Export {
  import opened Strings
  import opened Records
  import opened Storage
  import opened Sorting
  import Logic

  // ---------------------------------------------------------------------------
  // Cells
  // ---------------------------------------------------------------------------

  /** The day holds an event of this kind. */
  predicate HasEvent(day: Day, kind: string) {
    exists i :: 0 <= i < |day| && day[i].kind == kind
  }

  /** The times of the day's events of one kind, in recording order. */
  function TimesOf(day: Day, kind: string): (r: seq<string>)
    ensures |r| <= |day|
    ensures r == [] <==> !HasEvent(day, kind)
  {
    if day == [] then []
    else
      var rest := TimesOf(day[1..], kind);
      assert forall i :: 1 <= i < |day| ==> day[i] == day[1..][i - 1];
      if day[0].kind == kind then [day[0].time] + rest else rest
  }

  /** Times of a longer day: the times of the earlier events, then those of the later. */
  lemma {:induction false} TimesOfAppend(a: Day, b: Day, kind: string)
    ensures TimesOf(a + b, kind) == TimesOf(a, kind) + TimesOf(b, kind)
  {
    if a == [] {
      assert a + b == b;
    } else {
      assert (a + b)[0] == a[0];
      assert (a + b)[1..] == a[1..] + b;
      TimesOfAppend(a[1..], b, kind);
    }
  }

  /** The arrival cell: the arrival times one per line, or absent when there is none. */
  function ArrivalCell(day: Day): (cell: string)
    ensures !HasEvent(day, ARRIVAL) ==> cell == ABSENT
    ensures HasEvent(day, ARRIVAL) ==> cell == Join(TimesOf(day, ARRIVAL), "\n")
  {
    var arrivals := TimesOf(day, ARRIVAL);
    if arrivals != [] then Join(arrivals, "\n") else ABSENT
  }

  /** The departure cell: the departure times one per line; when there is none, absent
      if there was no arrival either, and not departed after an arrival. */
  function DepartureCell(day: Day): (cell: string)
    ensures HasEvent(day, DEPARTURE) ==> cell == Join(TimesOf(day, DEPARTURE), "\n")
    ensures !HasEvent(day, DEPARTURE) && !HasEvent(day, ARRIVAL) ==> cell == ABSENT
    ensures !HasEvent(day, DEPARTURE) && HasEvent(day, ARRIVAL) ==> cell == NOT_DEPARTED
  {
    var arrivals := TimesOf(day, ARRIVAL);
    var departures := TimesOf(day, DEPARTURE);
    if departures != [] then Join(departures, "\n")
    else if arrivals == [] then ABSENT
    else NOT_DEPARTED
  }

  /** On a day built by the automatic toggle alone, nothing recorded shows absent twice, a
      single arrival shows not departed, and from the second event on both cells list
      times. */
  lemma AutomaticDayCells(day: Day)
    requires Logic.Alternating(day)
    ensures day == [] ==> ArrivalCell(day) == ABSENT && DepartureCell(day) == ABSENT
    ensures |day| == 1 ==> ArrivalCell(day) == day[0].time && DepartureCell(day) == NOT_DEPARTED
    ensures |day| >= 2 ==> HasEvent(day, ARRIVAL) && HasEvent(day, DEPARTURE)
  {
    if |day| == 1 {
      assert day[0].kind == ARRIVAL;
      assert TimesOf(day, ARRIVAL) == [day[0].time] by {
        assert day[1..] == [];
      }
      assert forall i :: 0 <= i < |day| ==> day[i].kind != DEPARTURE;
    }
    if |day| >= 2 {
      assert day[0].kind == ARRIVAL;
      assert day[1].kind == DEPARTURE;
    }
  }

  // ---------------------------------------------------------------------------
  // Rows of one partition
  // ---------------------------------------------------------------------------

  /** The sort key of a row. */
  function RowName(r: Row): string {
    r.name
  }

  /** The row of one roster student: the student's name, the partition being exported
      (not the stage and department stored in the roster entry), the date, both cells
      from the student's events of that date, and empty notes. */
  function StudentRow(student: Student, log: AttendanceLog, stage: string, department: string,
                      date: string, number: nat): (r: Row)
    ensures r.number == number && r.name == student.name && r.notes == ""
    ensures r.stage == stage && r.department == department && r.date == date
    ensures !(StudentKey(student) in log && date in log[StudentKey(student)]) ==>
      r.arrival == ABSENT && r.departure == ABSENT
    ensures StudentKey(student) in log && date in log[StudentKey(student)] ==>
      var day := log[StudentKey(student)][date];
      r.arrival == ArrivalCell(day) && r.departure == DepartureCell(day)
  {
    var key := StudentKey(student);
    if key in log && date in log[key] then
      var day := log[key][date];
      Row(number, student.name, stage, department, date, ArrivalCell(day), DepartureCell(day), "")
    else
      Row(number, student.name, stage, department, date, ABSENT, ABSENT, "")
  }

  /** The rows as the student loop appends them, numbered in roster order. */
  function DraftRows(students: seq<Student>, log: AttendanceLog, stage: string, department: string,
                     date: string): (r: seq<Row>)
    ensures |r| == |students|
    ensures forall i :: 0 <= i < |r| ==> r[i] == StudentRow(students[i], log, stage, department, date, i + 1)
  {
    seq(|students|, i requires 0 <= i < |students| => StudentRow(students[i], log, stage, department, date, i + 1))
  }

  /** Rows renumbered `1..n` in their present order. */
  function Renumbered(rows: seq<Row>): (r: seq<Row>)
    ensures |r| == |rows|
    ensures forall i :: 0 <= i < |r| ==> r[i] == rows[i].(number := i + 1)
  {
    seq(|rows|, i requires 0 <= i < |rows| => rows[i].(number := i + 1))
  }

  /** The sheet of a partition: the draft rows sorted by name, then renumbered. */
  function SheetRows(students: seq<Student>, log: AttendanceLog, stage: string, department: string,
                     date: string): seq<Row>
  {
    Renumbered(SortBy(DraftRows(students, log, stage, department, date), RowName))
  }

  /** A sheet has one row per roster student, numbered `1..n` in order, sorted by name,
      all carrying the partition and the date. */
  lemma SheetShape(students: seq<Student>, log: AttendanceLog, stage: string, department: string, date: string)
    ensures var r := SheetRows(students, log, stage, department, date);
      && |r| == |students|
      && (forall i :: 0 <= i < |r| ==> r[i].number == i + 1)
      && (forall i :: 0 <= i < |r| ==> r[i].stage == stage && r[i].department == department && r[i].date == date)
      && SortedBy(r, RowName)
  {
    var draft := DraftRows(students, log, stage, department, date);
    var sorted := SortBy(draft, RowName);
    SortBySorted(draft, RowName);
    var r := Renumbered(sorted);
    forall i | 0 <= i < |r| ensures r[i].stage == stage && r[i].department == department && r[i].date == date {
      assert sorted[i] in multiset(draft);
      var j :| 0 <= j < |draft| && draft[j] == sorted[i];
    }
    assert forall i :: 0 <= i < |r| ==> RowName(r[i]) == RowName(sorted[i]);
  }

  /** Every roster student has a row in the sheet, with the cells of that student's day. */
  lemma SheetRowOf(students: seq<Student>, log: AttendanceLog, stage: string, department: string,
                   date: string, j: nat) returns (i: nat)
    requires j < |students|
    ensures var r := SheetRows(students, log, stage, department, date);
      i < |r| && r[i] == StudentRow(students[j], log, stage, department, date, i + 1)
  {
    var draft := DraftRows(students, log, stage, department, date);
    var sorted := SortBy(draft, RowName);
    assert draft[j] in multiset(sorted);
    i :| 0 <= i < |sorted| && sorted[i] == draft[j];
  }

  /** Every row of the sheet is the row of some roster student. */
  lemma SheetRowFrom(students: seq<Student>, log: AttendanceLog, stage: string, department: string,
                     date: string, i: nat) returns (j: nat)
    requires i < |students|
    ensures var r := SheetRows(students, log, stage, department, date);
      j < |students| && i < |r| && r[i] == StudentRow(students[j], log, stage, department, date, i + 1)
  {
    var draft := DraftRows(students, log, stage, department, date);
    var sorted := SortBy(draft, RowName);
    assert sorted[i] in multiset(draft);
    j :| 0 <= j < |draft| && draft[j] == sorted[i];
  }

  /** The student loop of `export_data`: one row appended per roster student, numbered
      by the length of the list so far. */
  method DraftSheet(students: seq<Student>, attendance: AttendanceLog, stage: string, department: string,
                    date: string) returns (data: seq<Row>)
    ensures data == DraftRows(students, attendance, stage, department, date)
  {
    data := [];
    var i := 0;
    while i < |students|
      invariant 0 <= i <= |students| && |data| == i
      invariant forall k :: 0 <= k < i ==> data[k] == StudentRow(students[k], attendance, stage, department, date, k + 1)
    {
      var student := students[i];
      var key := StudentKey(student);
      var arrival: string;
      var departure: string;
      if key in attendance && date in attendance[key] {
        var records := attendance[key][date];
        arrival := ArrivalCell(records);
        departure := DepartureCell(records);
      } else {
        arrival := ABSENT;
        departure := ABSENT;
      }
      var row := Row(|data| + 1, student.name, stage, department, date, arrival, departure, "");
      assert row == StudentRow(student, attendance, stage, department, date, i + 1);
      data := data + [row];
      i := i + 1;
    }
  }

  /** The renumbering loop: each row's number is rewritten in place to its position. */
  method NumberInOrder(rows: seq<Row>) returns (data: seq<Row>)
    ensures data == Renumbered(rows)
  {
    data := rows;
    var k := 0;
    while k < |data|
      invariant 0 <= k <= |data| && |data| == |rows|
      invariant forall m :: 0 <= m < k ==> data[m] == rows[m].(number := m + 1)
      invariant forall m :: k <= m < |data| ==> data[m] == rows[m]
    {
      data := data[k := data[k].(number := k + 1)];
      k := k + 1;
    }
  }

  /** The sheet of one partition, as `export_data` builds it: a row appended per student,
      the list sorted by name, then the numbers rewritten in place. */
  method BuildSheet(students: seq<Student>, attendance: AttendanceLog, stage: string, department: string,
                    date: string) returns (data: seq<Row>)
    ensures data == SheetRows(students, attendance, stage, department, date)
  {
    data := DraftSheet(students, attendance, stage, department, date);
    data := SortBy(data, RowName);
    data := NumberInOrder(data);
  }

  // ---------------------------------------------------------------------------
  // Archive then reset
  // ---------------------------------------------------------------------------

  /** Every `(stage, department)` pair with the stage from `stages`, stage by stage and
      department by department. */
  function Pairs(stages: seq<string>, departments: seq<string>): seq<(string, string)> {
    if stages == [] then []
    else StagePairs(stages[0], departments) + Pairs(stages[1..], departments)
  }

  /** The pairs of one stage, in department order. */
  function StagePairs(stage: string, departments: seq<string>): seq<(string, string)> {
    if departments == [] then []
    else [(stage, departments[0])] + StagePairs(stage, departments[1..])
  }

  /** The partitions an export walks over. */
  function AllPartitions(): seq<(string, string)> {
    Pairs(STAGES, DEPARTMENTS)
  }

  /** Where the archive loop stands: still going with these files, or stopped by the
      exception raised while writing the sheet of a partition. */
  datatype Archive = Archived(files: Files) | Aborted(files: Files, stage: string, department: string)

  /** The files after the two loads at the top of one pass. */
  function PassLoads(files: Files, failing: set<Path>, stage: string, department: string): Files {
    AfterLoad(AfterLoad(files, failing, StudentsPath(stage, department), Roster([])),
              failing, AttendancePath(stage, department), Attendance(map[]))
  }

  /** One pass of the archive loop: an empty roster writes nothing more; otherwise the
      sheet is written, and a write that fails raises. */
  function ArchivePass(files: Files, failing: set<Path>, stage: string, department: string, date: string): Archive
  {
    var loaded := PassLoads(files, failing, stage, department);
    var students := RosterOf(files, stage, department);
    var log := AttendanceOf(AfterLoad(files, failing, StudentsPath(stage, department), Roster([])), stage, department);
    var path := RecordFile(stage, department, date);
    if students == [] then Archived(loaded)
    else if path in failing then Aborted(loaded, stage, department)
    else Archived(loaded[path := Stored(Sheet(SheetRows(students, log, stage, department, date)))])
  }

  /** The archive loop over `parts`, ending at the first exception. */
  function ArchiveAll(files: Files, failing: set<Path>, date: string, parts: seq<(string, string)>): Archive
    decreases |parts|
  {
    if parts == [] then Archived(files)
    else
      match ArchivePass(files, failing, parts[0].0, parts[0].1, date)
      case Aborted(f, s, d) => Aborted(f, s, d)
      case Archived(f) => ArchiveAll(f, failing, date, parts[1..])
  }

  /** The reset loop: `{}` saved as the attendance of each partition of `parts`. */
  function ResetAll(files: Files, failing: set<Path>, parts: seq<(string, string)>): Files
    decreases |parts|
  {
    if parts == [] then files
    else ResetAll(AfterSave(files, failing, AttendancePath(parts[0].0, parts[0].1), Attendance(map[])),
                  failing, parts[1..])
  }

  /** How an export ends: completely, or at the partition whose sheet could not be
      written. */
  datatype ExportOutcome = Exported | ArchiveFailed(stage: string, department: string)

  /** The outcome an archive loop reports. */
  function OutcomeOf(a: Archive): ExportOutcome {
    match a
    case Aborted(_, s, d) => ArchiveFailed(s, d)
    case Archived(_) => Exported
  }

  /** The outcome of an export from the files it starts with. */
  function ExportOutcomeOf(files: Files, failing: set<Path>, date: string): ExportOutcome {
    OutcomeOf(ArchiveAll(files, failing, date, AllPartitions()))
  }

  /** The files after an export: the archive loop, then the reset only if the loop ran to
      its end. */
  function ExportFiles(files: Files, failing: set<Path>, date: string): Files {
    match ArchiveAll(files, failing, date, AllPartitions())
    case Aborted(f, _, _) => f
    case Archived(f) => ResetAll(f, failing, AllPartitions())
  }

  /** One pass of the archive loop of `export_data`: false when writing the sheet raised. */
  method ArchivePartition(store: Store, stage: string, department: string, date: string)
    returns (written: bool)
    modifies store
    ensures ArchivePass(old(store.files), store.failing, stage, department, date)
         == if written then Archived(store.files) else Aborted(store.files, stage, department)
  {
    var students := store.LoadStudents(stage, department);
    var attendance := store.LoadAttendance(stage, department);
    if students == [] {
      return true;
    }
    var data := BuildSheet(students, attendance, stage, department, date);
    written := store.SaveData(RecordFile(stage, department, date), Sheet(data));
  }

  /** The pairs are exactly the stages crossed with the departments. */
  lemma {:induction false} PairsCover(stages: seq<string>, departments: seq<string>, s: string, d: string)
    ensures (s, d) in Pairs(stages, departments) <==> s in stages && d in departments
  {
    if stages != [] {
      PairsCover(stages[1..], departments, s, d);
      StagePairsCover(stages[0], departments, s, d);
      assert s in stages <==> s == stages[0] || s in stages[1..];
    }
  }

  lemma {:induction false} StagePairsCover(stage: string, departments: seq<string>, s: string, d: string)
    ensures (s, d) in StagePairs(stage, departments) <==> s == stage && d in departments
  {
    if departments != [] {
      StagePairsCover(stage, departments[1..], s, d);
      assert d in departments <==> d == departments[0] || d in departments[1..];
    }
  }

  /** A pass reads the roster and attendance it loads without changing what any later
      load returns: rosters, attendance logs and the card registry look the same after it. */
  lemma ArchivePassKeepsViews(files: Files, failing: set<Path>, stage: string, department: string,
                              date: string, s: string, d: string)
    ensures var f := ArchivePass(files, failing, stage, department, date).files;
      && RosterOf(f, s, d) == RosterOf(files, s, d)
      && AttendanceOf(f, s, d) == AttendanceOf(files, s, d)
      && CardsOf(f) == CardsOf(files)
  {
    var once := AfterLoad(files, failing, StudentsPath(stage, department), Roster([]));
    RosterLoadKeepsViews(files, failing, stage, department, s, d);
    AttendanceLoadKeepsViews(once, failing, stage, department, s, d);
    var loaded := PassLoads(files, failing, stage, department);
    var path := RecordFile(stage, department, date);
    if RosterOf(files, stage, department) != [] && path !in failing {
      var sheet := Stored(Sheet(SheetRows(RosterOf(files, stage, department), AttendanceOf(once, stage, department),
                                          stage, department, date)));
      RecordWriteKeepsViews(loaded, path, sheet, s, d);
    }
  }

  /** Writing an archive sheet touches no roster, attendance or registry file. */
  lemma RecordWriteKeepsViews(files: Files, path: Path, e: Entry, s: string, d: string)
    requires path.RecordFile?
    ensures RosterOf(files[path := e], s, d) == RosterOf(files, s, d)
    ensures AttendanceOf(files[path := e], s, d) == AttendanceOf(files, s, d)
    ensures CardsOf(files[path := e]) == CardsOf(files)
  {
  }

  /** The whole archive loop changes no roster, no attendance log and no card binding. */
  lemma {:induction false} ArchiveKeepsViews(files: Files, failing: set<Path>, date: string,
                                             parts: seq<(string, string)>, s: string, d: string)
    ensures var f := ArchiveAll(files, failing, date, parts).files;
      && RosterOf(f, s, d) == RosterOf(files, s, d)
      && AttendanceOf(f, s, d) == AttendanceOf(files, s, d)
      && CardsOf(f) == CardsOf(files)
    decreases |parts|
  {
    if parts != [] {
      ArchivePassKeepsViews(files, failing, parts[0].0, parts[0].1, date, s, d);
      var pass := ArchivePass(files, failing, parts[0].0, parts[0].1, date);
      if pass.Archived? {
        ArchiveKeepsViews(pass.files, failing, date, parts[1..], s, d);
      }
    }
  }

  /** One pass and then the rest of the loop. */
  lemma ArchiveAllStep(files: Files, failing: set<Path>, date: string, parts: seq<(string, string)>,
                       files': Files, written: bool)
    requires parts != []
    requires ArchivePass(files, failing, parts[0].0, parts[0].1, date)
          == if written then Archived(files') else Aborted(files', parts[0].0, parts[0].1)
    ensures !written ==> ArchiveAll(files, failing, date, parts) == Aborted(files', parts[0].0, parts[0].1)
    ensures written ==> ArchiveAll(files, failing, date, parts) == ArchiveAll(files', failing, date, parts[1..])
  {
  }

  /** The archive loop over `p + q`: the loop over `p`, then, unless it stopped, the loop
      over `q` from where it left the files. */
  lemma {:induction false} ArchiveAllAppend(files: Files, failing: set<Path>, date: string,
                                            p: seq<(string, string)>, q: seq<(string, string)>)
    ensures ArchiveAll(files, failing, date, p + q)
         == match ArchiveAll(files, failing, date, p)
            case Aborted(f, s, d) => Aborted(f, s, d)
            case Archived(f) => ArchiveAll(f, failing, date, q)
    decreases |p|
  {
    if p == [] {
      assert p + q == q;
    } else {
      assert (p + q)[0] == p[0];
      assert (p + q)[1..] == p[1..] + q;
      var pass := ArchivePass(files, failing, p[0].0, p[0].1, date);
      if pass.Archived? {
        ArchiveAllAppend(pass.files, failing, date, p[1..], q);
      }
    }
  }

  /** The reset loop over `p + q`: the loop over `p`, then the loop over `q`. */
  lemma {:induction false} ResetAllAppend(files: Files, failing: set<Path>, p: seq<(string, string)>,
                                          q: seq<(string, string)>)
    ensures ResetAll(files, failing, p + q) == ResetAll(ResetAll(files, failing, p), failing, q)
    decreases |p|
  {
    if p == [] {
      assert p + q == q;
    } else {
      assert (p + q)[0] == p[0];
      assert (p + q)[1..] == p[1..] + q;
      ResetAllAppend(AfterSave(files, failing, AttendancePath(p[0].0, p[0].1), Attendance(map[])),
                     failing, p[1..], q);
    }
  }

  /** The pairs of the stages from `i` on: those of stage `i`, then those of the rest. */
  lemma PairsFrom(stages: seq<string>, departments: seq<string>, i: nat)
    requires i < |stages|
    ensures Pairs(stages[i..], departments) == StagePairs(stages[i], departments) + Pairs(stages[i + 1..], departments)
  {
    assert stages[i..][1..] == stages[i + 1..];
  }

  /** The pairs of one stage from department `j` on: department `j`, then the rest. */
  lemma StagePairsFrom(stage: string, departments: seq<string>, j: nat)
    requires j < |departments|
    ensures StagePairs(stage, departments[j..]) != []
    ensures StagePairs(stage, departments[j..])[0] == (stage, departments[j])
    ensures StagePairs(stage, departments[j..])[1..] == StagePairs(stage, departments[j + 1..])
  {
    assert departments[j..][1..] == departments[j + 1..];
  }

  /** The inner archive loop, over the departments of one stage. */
  method ArchiveStage(store: Store, stage: string, departments: seq<string>, date: string)
    returns (outcome: ExportOutcome)
    modifies store
    ensures ArchiveAll(old(store.files), store.failing, date, StagePairs(stage, departments)).files == store.files
    ensures outcome == OutcomeOf(ArchiveAll(old(store.files), store.failing, date, StagePairs(stage, departments)))
  {
    ghost var whole := ArchiveAll(store.files, store.failing, date, StagePairs(stage, departments));
    assert departments[0..] == departments;
    var j := 0;
    while j < |departments|
      invariant 0 <= j <= |departments|
      invariant ArchiveAll(store.files, store.failing, date, StagePairs(stage, departments[j..])) == whole
    {
      StagePairsFrom(stage, departments, j);
      ghost var files1 := store.files;
      var written := ArchivePartition(store, stage, departments[j], date);
      ArchiveAllStep(files1, store.failing, date, StagePairs(stage, departments[j..]), store.files, written);
      if !written {
        return ArchiveFailed(stage, departments[j]);
      }
      j := j + 1;
    }
    assert departments[j..] == [];
    return Exported;
  }

  /** The archive loop from stage `i` on, given what the loop over stage `i` did: it
      stopped there, or it goes on with the stages after `i`. */
  lemma ArchiveStageThen(files: Files, failing: set<Path>, date: string, stages: seq<string>,
                         departments: seq<string>, i: nat, files': Files, outcome: ExportOutcome)
    requires i < |stages|
    requires ArchiveAll(files, failing, date, StagePairs(stages[i], departments)).files == files'
    requires outcome == OutcomeOf(ArchiveAll(files, failing, date, StagePairs(stages[i], departments)))
    ensures outcome.ArchiveFailed? ==>
      && ArchiveAll(files, failing, date, Pairs(stages[i..], departments)).files == files'
      && OutcomeOf(ArchiveAll(files, failing, date, Pairs(stages[i..], departments))) == outcome
    ensures outcome == Exported ==>
      ArchiveAll(files, failing, date, Pairs(stages[i..], departments))
      == ArchiveAll(files', failing, date, Pairs(stages[i + 1..], departments))
  {
    PairsFrom(stages, departments, i);
    ArchiveAllAppend(files, failing, date, StagePairs(stages[i], departments), Pairs(stages[i + 1..], departments));
  }

  /** The archive loop of `export_data` over `stages` by `departments`: it stops at the
      first sheet that cannot be written. */
  method ArchiveLoop(store: Store, stages: seq<string>, departments: seq<string>, date: string)
    returns (outcome: ExportOutcome)
    modifies store
    ensures ArchiveAll(old(store.files), store.failing, date, Pairs(stages, departments)).files == store.files
    ensures outcome == OutcomeOf(ArchiveAll(old(store.files), store.failing, date, Pairs(stages, departments)))
  {
    ghost var whole := ArchiveAll(store.files, store.failing, date, Pairs(stages, departments));
    assert stages[0..] == stages;
    var i := 0;
    while i < |stages|
      invariant 0 <= i <= |stages|
      invariant ArchiveAll(store.files, store.failing, date, Pairs(stages[i..], departments)) == whole
    {
      ghost var files1 := store.files;
      outcome := ArchiveStage(store, stages[i], departments, date);
      ArchiveStageThen(files1, store.failing, date, stages, departments, i, store.files, outcome);
      if outcome.ArchiveFailed? {
        return;
      }
      i := i + 1;
    }
    assert stages[i..] == [];
    return Exported;
  }

  /** `export_data`: the outer `try` turns the first failed sheet write into the error
      outcome, which skips the rest of the archive loop and the whole reset. */
  method ExportData(store: Store, date: string) returns (outcome: ExportOutcome)
    modifies store
    ensures outcome == ExportOutcomeOf(old(store.files), store.failing, date)
    ensures store.files == ExportFiles(old(store.files), store.failing, date)
  {
    outcome := ArchiveLoop(store, STAGES, DEPARTMENTS, date);
    if outcome.ArchiveFailed? {
      return;
    }
    ResetAttendance(store, STAGES, DEPARTMENTS);
  }

  /** The inner reset loop, over the departments of one stage. */
  method ResetStage(store: Store, stage: string, departments: seq<string>)
    modifies store
    ensures store.files == ResetAll(old(store.files), store.failing, StagePairs(stage, departments))
  {
    ghost var whole := ResetAll(store.files, store.failing, StagePairs(stage, departments));
    assert departments[0..] == departments;
    var j := 0;
    while j < |departments|
      invariant 0 <= j <= |departments|
      invariant ResetAll(store.files, store.failing, StagePairs(stage, departments[j..])) == whole
    {
      StagePairsFrom(stage, departments, j);
      var _ := store.SaveAttendance(stage, departments[j], map[]);
      j := j + 1;
    }
    assert departments[j..] == [];
  }

  /** The reset loop of `export_data`: the attendance of every partition of `stages` by
      `departments` saved as `{}`; a save that fails is reported by `save_data` and does
      not stop the loop. */
  method ResetAttendance(store: Store, stages: seq<string>, departments: seq<string>)
    modifies store
    ensures store.files == ResetAll(old(store.files), store.failing, Pairs(stages, departments))
  {
    ghost var whole := ResetAll(store.files, store.failing, Pairs(stages, departments));
    assert stages[0..] == stages;
    var i := 0;
    while i < |stages|
      invariant 0 <= i <= |stages|
      invariant ResetAll(store.files, store.failing, Pairs(stages[i..], departments)) == whole
    {
      PairsFrom(stages, departments, i);
      ResetAllAppend(store.files, store.failing, StagePairs(stages[i], departments),
                     Pairs(stages[i + 1..], departments));
      ResetStage(store, stages[i], departments);
      i := i + 1;
    }
    assert stages[i..] == [];
  }

  // ---------------------------------------------------------------------------
  // What an export leaves behind
  // ---------------------------------------------------------------------------

  /** Some pair of `parts` names the partition whose attendance file is `path`. */
  predicate ResetsPath(parts: seq<(string, string)>, path: Path) {
    exists k :: 0 <= k < |parts| && AttendancePath(parts[k].0, parts[k].1) == path
  }

  /** A loop over `parts` saves to `path` when its first pair does or the rest of it does. */
  lemma ResetsPathStep(parts: seq<(string, string)>, path: Path)
    requires parts != []
    ensures ResetsPath(parts, path) <==> AttendancePath(parts[0].0, parts[0].1) == path || ResetsPath(parts[1..], path)
  {
    if ResetsPath(parts, path) && AttendancePath(parts[0].0, parts[0].1) != path {
      var k :| 0 <= k < |parts| && AttendancePath(parts[k].0, parts[k].1) == path;
      assert parts[1..][k - 1] == parts[k];
    }
    if ResetsPath(parts[1..], path) {
      var k :| 0 <= k < |parts[1..]| && AttendancePath(parts[1..][k].0, parts[1..][k].1) == path;
      assert parts[k + 1] == parts[1..][k];
    }
  }

  /** Saving `{}` as one partition's attendance empties that partition's log, if the save
      succeeds, and leaves every other log as it was. */
  lemma ResetOneAttendance(files: Files, failing: set<Path>, path: Path, s: string, d: string)
    requires path.AttendanceFile?
    ensures AttendanceOf(AfterSave(files, failing, path, Attendance(map[])), s, d)
         == if path == AttendancePath(s, d) && path !in failing then map[] else AttendanceOf(files, s, d)
  {
  }

  /** After the reset loop, a partition's attendance is `{}` when the loop saved to its
      file and the save succeeded, and what it was otherwise. */
  lemma {:induction false} ResetAttendanceResult(files: Files, failing: set<Path>, parts: seq<(string, string)>,
                                                 s: string, d: string)
    ensures AttendanceOf(ResetAll(files, failing, parts), s, d)
         == if ResetsPath(parts, AttendancePath(s, d)) && AttendancePath(s, d) !in failing
            then map[] else AttendanceOf(files, s, d)
    decreases |parts|
  {
    if parts != [] {
      var path := AttendancePath(parts[0].0, parts[0].1);
      ResetsPathStep(parts, AttendancePath(s, d));
      ResetOneAttendance(files, failing, path, s, d);
      ResetAttendanceResult(AfterSave(files, failing, path, Attendance(map[])), failing, parts[1..], s, d);
    }
  }

  /** Saving one attendance file touches no roster, no registry and no other kind of file. */
  lemma ResetOneKeepsOthers(files: Files, failing: set<Path>, path: Path, s: string, d: string, p: Path)
    requires path.AttendanceFile?
    ensures var r := AfterSave(files, failing, path, Attendance(map[]));
      && RosterOf(r, s, d) == RosterOf(files, s, d)
      && CardsOf(r) == CardsOf(files)
      && (!p.AttendanceFile? ==> (p in r <==> p in files) && (p in r ==> r[p] == files[p]))
  {
  }

  /** The reset loop changes no roster, the registry or any file other than an
      attendance file. */
  lemma {:induction false} ResetKeepsOthers(files: Files, failing: set<Path>, parts: seq<(string, string)>,
                                            s: string, d: string, p: Path)
    ensures var r := ResetAll(files, failing, parts);
      && RosterOf(r, s, d) == RosterOf(files, s, d)
      && CardsOf(r) == CardsOf(files)
      && (!p.AttendanceFile? ==> (p in r <==> p in files) && (p in r ==> r[p] == files[p]))
    decreases |parts|
  {
    if parts != [] {
      var path := AttendancePath(parts[0].0, parts[0].1);
      ResetOneKeepsOthers(files, failing, path, s, d, p);
      ResetKeepsOthers(AfterSave(files, failing, path, Attendance(map[])), failing, parts[1..], s, d, p);
    }
  }

  /** The archive entry an export writes for a partition, from the files it starts with. */
  function ExpectedSheet(files: Files, stage: string, department: string, date: string): Entry {
    Stored(Sheet(SheetRows(RosterOf(files, stage, department), AttendanceOf(files, stage, department),
                           stage, department, date)))
  }

  /** A partition whose sheet can be written: its roster is empty, or its archive file is
      writable. */
  predicate SheetWritable(files: Files, failing: set<Path>, date: string, part: (string, string)) {
    RosterOf(files, part.0, part.1) == [] || RecordFile(part.0, part.1, date) !in failing
  }

  /** The archive loop runs to its end exactly when every partition's sheet can be
      written; when it stops, it names a partition of the loop whose roster is not empty
      and whose archive file cannot be written. */
  lemma {:induction false} ArchiveOutcome(files: Files, failing: set<Path>, date: string, parts: seq<(string, string)>)
    ensures ArchiveAll(files, failing, date, parts).Archived?
        <==> forall k :: 0 <= k < |parts| ==> SheetWritable(files, failing, date, parts[k])
    ensures var a := ArchiveAll(files, failing, date, parts);
      a.Aborted? ==>
        && (a.stage, a.department) in parts
        && RosterOf(files, a.stage, a.department) != []
        && RecordFile(a.stage, a.department, date) in failing
    decreases |parts|
  {
    if parts != [] {
      var pass := ArchivePass(files, failing, parts[0].0, parts[0].1, date);
      if pass.Archived? {
        ArchiveOutcome(pass.files, failing, date, parts[1..]);
        forall k | 0 <= k < |parts[1..]|
          ensures SheetWritable(pass.files, failing, date, parts[1..][k]) == SheetWritable(files, failing, date, parts[1..][k])
        {
          ArchivePassKeepsViews(files, failing, parts[0].0, parts[0].1, date, parts[1..][k].0, parts[1..][k].1);
        }
        var a := ArchiveAll(files, failing, date, parts);
        if a.Aborted? {
          ArchivePassKeepsViews(files, failing, parts[0].0, parts[0].1, date, a.stage, a.department);
        }
        if forall k :: 0 <= k < |parts[1..]| ==> SheetWritable(files, failing, date, parts[1..][k]) {
          forall k | 0 <= k < |parts| ensures SheetWritable(files, failing, date, parts[k]) {
            if k > 0 {
              assert parts[k] == parts[1..][k - 1];
            }
          }
        }
      } else {
        assert !SheetWritable(files, failing, date, parts[0]);
      }
    }
  }

  /** A pass that did not raise writes the sheet of its partition when the roster has
      students, and changes no other archive file. */
  lemma ArchivePassSheet(files: Files, failing: set<Path>, stage: string, department: string, date: string, p: Path)
    requires ArchivePass(files, failing, stage, department, date).Archived?
    requires p.RecordFile?
    ensures var f := ArchivePass(files, failing, stage, department, date).files;
      if p == RecordFile(stage, department, date) && RosterOf(files, stage, department) != []
      then p in f && f[p] == ExpectedSheet(files, stage, department, date)
      else (p in f <==> p in files) && (p in f ==> f[p] == files[p])
  {
    var once := AfterLoad(files, failing, StudentsPath(stage, department), Roster([]));
    AttendanceLoadKeepsViews(files, failing, stage, department, stage, department);
    RosterLoadKeepsViews(files, failing, stage, department, stage, department);
    assert AttendanceOf(once, stage, department) == AttendanceOf(files, stage, department);
  }

  /** After an archive loop that ran to its end, the archive file of each partition of
      the loop with students, for the export date, holds that partition's sheet; every
      other archive file is as it was. */
  lemma {:induction false} ArchiveSheets(files: Files, failing: set<Path>, date: string,
                                         parts: seq<(string, string)>, p: Path)
    requires ArchiveAll(files, failing, date, parts).Archived?
    requires p.RecordFile?
    ensures var f := ArchiveAll(files, failing, date, parts).files;
      if p.date == date && (p.stage, p.department) in parts && RosterOf(files, p.stage, p.department) != []
      then p in f && f[p] == ExpectedSheet(files, p.stage, p.department, date)
      else (p in f <==> p in files) && (p in f ==> f[p] == files[p])
    decreases |parts|
  {
    if parts != [] {
      var stage := parts[0].0;
      var department := parts[0].1;
      var pass := ArchivePass(files, failing, stage, department, date);
      ArchivePassSheet(files, failing, stage, department, date, p);
      ArchiveSheets(pass.files, failing, date, parts[1..], p);
      ArchivePassKeepsViews(files, failing, stage, department, date, p.stage, p.department);
      assert (p.stage, p.department) in parts <==> (p.stage, p.department) == parts[0] || (p.stage, p.department) in parts[1..];
    }
  }

  /** An export that fails part-way changes no partition's attendance, no roster and no
      card binding: the reset never runs. */
  lemma ExportAbortKeepsAttendance(files: Files, failing: set<Path>, date: string, s: string, d: string)
    requires ExportOutcomeOf(files, failing, date).ArchiveFailed?
    ensures AttendanceOf(ExportFiles(files, failing, date), s, d) == AttendanceOf(files, s, d)
    ensures RosterOf(ExportFiles(files, failing, date), s, d) == RosterOf(files, s, d)
    ensures CardsOf(ExportFiles(files, failing, date)) == CardsOf(files)
  {
    ArchiveKeepsViews(files, failing, date, AllPartitions(), s, d);
  }

  /** An export that completes leaves every stage-by-department partition with empty
      attendance (whether or not it had students, whatever keys its log held), unless the
      save of that file failed; it changes no roster and no card binding. */
  lemma ExportResetsAttendance(files: Files, failing: set<Path>, date: string, s: string, d: string)
    requires ExportOutcomeOf(files, failing, date) == Exported
    ensures s in STAGES && d in DEPARTMENTS && AttendancePath(s, d) !in failing ==>
      AttendanceOf(ExportFiles(files, failing, date), s, d) == map[]
    ensures !ResetsPath(AllPartitions(), AttendancePath(s, d)) ==>
      AttendanceOf(ExportFiles(files, failing, date), s, d) == AttendanceOf(files, s, d)
    ensures RosterOf(ExportFiles(files, failing, date), s, d) == RosterOf(files, s, d)
    ensures CardsOf(ExportFiles(files, failing, date)) == CardsOf(files)
  {
    var archived := ArchiveAll(files, failing, date, AllPartitions()).files;
    ArchiveKeepsViews(files, failing, date, AllPartitions(), s, d);
    ResetAttendanceResult(archived, failing, AllPartitions(), s, d);
    ResetKeepsOthers(archived, failing, AllPartitions(), s, d, CardsFile);
    PairsReset(STAGES, DEPARTMENTS, s, d);
  }

  /** The reset loop over `stages` by `departments` saves to the attendance file of every
      partition it crosses. */
  lemma PairsReset(stages: seq<string>, departments: seq<string>, s: string, d: string)
    ensures s in stages && d in departments ==> ResetsPath(Pairs(stages, departments), AttendancePath(s, d))
  {
    var parts := Pairs(stages, departments);
    PairsCover(stages, departments, s, d);
    if s in stages && d in departments {
      var k :| 0 <= k < |parts| && parts[k] == (s, d);
      assert AttendancePath(parts[k].0, parts[k].1) == AttendancePath(s, d);
    }
  }

  /** An export that completes leaves, for every partition with students, the archive
      file of that partition and date holding its sheet, built from the roster and the
      attendance it started with; no other archive file changes. */
  lemma ExportWritesSheets(files: Files, failing: set<Path>, date: string, p: Path)
    requires ExportOutcomeOf(files, failing, date) == Exported
    requires p.RecordFile?
    ensures var f := ExportFiles(files, failing, date);
      if p.date == date && p.stage in STAGES && p.department in DEPARTMENTS && RosterOf(files, p.stage, p.department) != []
      then p in f && f[p] == ExpectedSheet(files, p.stage, p.department, date)
      else (p in f <==> p in files) && (p in f ==> f[p] == files[p])
  {
    var archived := ArchiveAll(files, failing, date, AllPartitions()).files;
    ArchiveSheets(files, failing, date, AllPartitions(), p);
    ResetKeepsOthers(archived, failing, AllPartitions(), p.stage, p.department, p);
    PairsCover(STAGES, DEPARTMENTS, p.stage, p.department);
  }

  /** The archive loop over `stages` by `departments` runs to its end exactly when no
      partition with students has an archive file that cannot be written; when it stops,
      it names such a partition. */
  lemma PairsOutcome(files: Files, failing: set<Path>, date: string, stages: seq<string>, departments: seq<string>)
    ensures OutcomeOf(ArchiveAll(files, failing, date, Pairs(stages, departments))) == Exported
        <==> forall s, d :: s in stages && d in departments && RosterOf(files, s, d) != [] ==>
               RecordFile(s, d, date) !in failing
    ensures var o := OutcomeOf(ArchiveAll(files, failing, date, Pairs(stages, departments)));
      o.ArchiveFailed? ==>
        && o.stage in stages && o.department in departments
        && RosterOf(files, o.stage, o.department) != []
        && RecordFile(o.stage, o.department, date) in failing
  {
    var parts := Pairs(stages, departments);
    ArchiveOutcome(files, failing, date, parts);
    var o := OutcomeOf(ArchiveAll(files, failing, date, parts));
    if o.ArchiveFailed? {
      PairsCover(stages, departments, o.stage, o.department);
    }
    if forall k :: 0 <= k < |parts| ==> SheetWritable(files, failing, date, parts[k]) {
      forall s, d | s in stages && d in departments && RosterOf(files, s, d) != []
        ensures RecordFile(s, d, date) !in failing
      {
        PairsCover(stages, departments, s, d);
        var k :| 0 <= k < |parts| && parts[k] == (s, d);
        assert SheetWritable(files, failing, date, parts[k]);
      }
    } else {
      var k :| 0 <= k < |parts| && !SheetWritable(files, failing, date, parts[k]);
      PairsCover(stages, departments, parts[k].0, parts[k].1);
      assert parts[k] in parts;
    }
  }

  /** An export completes exactly when no partition with students has an archive file
      that cannot be written; a failed export names such a partition. */
  lemma ExportOutcomeCases(files: Files, failing: set<Path>, date: string)
    ensures ExportOutcomeOf(files, failing, date) == Exported
        <==> forall s, d :: s in STAGES && d in DEPARTMENTS && RosterOf(files, s, d) != [] ==>
               RecordFile(s, d, date) !in failing
    ensures var o := ExportOutcomeOf(files, failing, date);
      o.ArchiveFailed? ==>
        && o.stage in STAGES && o.department in DEPARTMENTS
        && RosterOf(files, o.stage, o.department) != []
        && RecordFile(o.stage, o.department, date) in failing
  {
    PairsOutcome(files, failing, date, STAGES, DEPARTMENTS);
  }
}
