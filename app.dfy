/** The decision logic of the handlers of `AttendanceApp` in app/ui.py, without the
    widgets: the search box, adding a student, direct registration, the card flow, the
    move dialog and the cells of the records view. What the user types, picks or confirms
    is a parameter; the global `card_students` registry is a `CardRegistry` object. */
module App {
  import opened Strings
  import opened Records
  import opened Storage
  import opened Sorting
  import opened Logic
  import Export

  /** The sort key of a roster entry. */
  function StudentName(s: Student): string {
    s.name
  }

  /** The roster after adding a student: appended, then sorted by name. */
  function AddToRoster(students: seq<Student>, s: Student): (r: seq<Student>)
    ensures multiset(r) == multiset(students) + multiset{s}
    ensures |r| == |students| + 1
  {
    SortBy(students + [s], StudentName)
  }

  /** Adding keeps every entry, adds the new one and leaves the roster sorted by name;
      when the name was absent from a roster without repeated names, the result has
      none either. */
  lemma AddToRosterFacts(students: seq<Student>, s: Student)
    ensures SortedBy(AddToRoster(students, s), StudentName)
    ensures forall n :: HasName(AddToRoster(students, s), n) <==> HasName(students, n) || n == s.name
    ensures UniqueNames(students) && !HasName(students, s.name) ==> UniqueNames(AddToRoster(students, s))
  {
    var t := students + [s];
    var r := AddToRoster(students, s);
    SortBySorted(t, StudentName);
    forall n ensures HasName(r, n) <==> HasName(t, n) {
      if HasName(r, n) {
        PermutationHasName(r, t, n);
      }
      if HasName(t, n) {
        PermutationHasName(t, r, n);
      }
    }
    forall n ensures HasName(t, n) <==> HasName(students, n) || n == s.name {
      if HasName(t, n) {
        var i :| 0 <= i < |t| && t[i].name == n;
        if i < |students| {
          assert students[i].name == n;
        }
      }
      if HasName(students, n) {
        var i :| 0 <= i < |students| && students[i].name == n;
        assert t[i].name == n;
      }
      assert t[|students|].name == s.name;
    }
    if UniqueNames(students) && !HasName(students, s.name) {
      assert UniqueNames(t) by {
        forall i, j | 0 <= i < j < |t| ensures t[i].name != t[j].name {
          if j == |students| {
            assert students[i].name != s.name;
          }
        }
      }
      UniquePermutation(t, r);
    }
  }

  /** A permutation holds the same names. */
  lemma PermutationHasName(a: seq<Student>, b: seq<Student>, n: string)
    requires multiset(a) == multiset(b)
    requires HasName(a, n)
    ensures HasName(b, n)
  {
    var i :| 0 <= i < |a| && a[i].name == n;
    assert a[i] in multiset(b);
    var j :| 0 <= j < |b| && b[j] == a[i];
  }

  /** In a roster without repeated names, no entry occurs twice. */
  lemma {:induction false} UniqueCount(a: seq<Student>, x: Student)
    requires UniqueNames(a)
    ensures multiset(a)[x] <= 1
  {
    if a != [] {
      assert a == [a[0]] + a[1..];
      assert UniqueNames(a[1..]) by {
        forall i, j | 0 <= i < j < |a[1..]| ensures a[1..][i].name != a[1..][j].name {
          assert a[1..][i] == a[i + 1] && a[1..][j] == a[j + 1];
        }
      }
      UniqueCount(a[1..], x);
    }
  }

  /** A permutation of a roster without repeated names has none either. */
  lemma UniquePermutation(a: seq<Student>, b: seq<Student>)
    requires multiset(a) == multiset(b)
    requires UniqueNames(a)
    ensures UniqueNames(b)
  {
    forall i, j | 0 <= i < j < |b| ensures b[i].name != b[j].name {
      var x, y := b[i], b[j];
      if x == y {
        assert b == b[..j] + [y] + b[j + 1..];
        assert x in b[..j] by { assert b[..j][i] == x; }
        assert multiset(b)[x] >= 2 by {
          assert multiset(b) == multiset(b[..j]) + multiset{y} + multiset(b[j + 1..]);
        }
        UniqueCount(a, x);
      } else {
        assert x in multiset(a) && y in multiset(a);
        var p :| 0 <= p < |a| && a[p] == x;
        var q :| 0 <= q < |a| && a[q] == y;
        if p < q {
          assert a[p].name != a[q].name;
        } else {
          assert a[q].name != a[p].name;
        }
      }
    }
  }

  /** The exactly matching students of `direct_register`: the name equals the search
      text, ignoring case, in roster order. */
  function ExactMatches(students: seq<Student>, text: string): (r: seq<Student>)
    ensures |r| <= |students|
    ensures forall s :: s in r <==> s in students && Lower(s.name) == Lower(text)
  {
    if students == [] then []
    else
      var rest := ExactMatches(students[1..], text);
      assert students == [students[0]] + students[1..];
      if Lower(text) == Lower(students[0].name) then [students[0]] + rest else rest
  }

  /** The exact matches hold every entry whose name equals the text, ignoring case, as
      often as the roster holds it, and no other entry; so one match means one such entry. */
  lemma {:induction false} ExactMatchesCounts(students: seq<Student>, text: string, s: Student)
    ensures multiset(ExactMatches(students, text))[s]
         == if Lower(s.name) == Lower(text) then multiset(students)[s] else 0
  {
    if students != [] {
      assert students == [students[0]] + students[1..];
      ExactMatchesCounts(students[1..], text, s);
    }
  }

  /** The exact matches of two rosters in a row are those of the first, then those of the
      second: the matches come out in roster order. */
  lemma {:induction false} ExactMatchesAppend(a: seq<Student>, b: seq<Student>, text: string)
    ensures ExactMatches(a + b, text) == ExactMatches(a, text) + ExactMatches(b, text)
  {
    if a == [] {
      assert a + b == b;
    } else {
      assert (a + b)[1..] == a[1..] + b;
      assert (a + b)[0] == a[0];
      ExactMatchesAppend(a[1..], b, text);
    }
  }

  /** An exact match is also a match of the search box. */
  lemma ExactMatchesAreMatches(students: seq<Student>, text: string, s: Student)
    requires s in ExactMatches(students, text)
    ensures s in Matching(students, text)
  {
    assert StartsWith(Lower(s.name), Lower(text));
  }

  /** What adding a student reports. */
  datatype AddResult = BlankName | AlreadyExists | Added(saved: bool)

  /** What direct registration does: record the student picked from the list, or,
      failing a valid pick, look the typed name up. */
  datatype RegisterResult =
    | RecordedPick(picked: Student)
    | BlankSearch
    | NotFound
    | Ambiguous
    | RecordedMatch(matched: Student)

  /** The answers of the enrollment dialogs for an unknown card: declined, no option
      chosen, or a student picked from the existing names or entered as new (`None` when
      the dialog was cancelled). */
  datatype Enrollment = Declined | NoOption | ExistingName(picked: Option<Student>) | NewName(entered: Option<Student>)

  /** The student the dialogs produced, if any. */
  function EnrolledStudent(answer: Enrollment): (r: Option<Student>)
    ensures answer.Declined? || answer.NoOption? ==> r.None?
    ensures answer.ExistingName? ==> r == answer.picked
    ensures answer.NewName? ==> r == answer.entered
  {
    match answer
    case ExistingName(p) => p
    case NewName(p) => p
    case _ => None
  }

  /** What the card handler did. */
  datatype CardResult =
    | KnownCard(bound: Student)
    | Abandoned
    | CardsNotSaved(student: Student)
    | Enrolled(student: Student, added: bool)

  /** What the move dialog did. */
  datatype MoveReply = SameTarget | NoSelection | NotConfirmed | Finished(outcome: MoveOutcome, plan: Plan)

  /** The files after the roster step of a completed enrollment: the roster is loaded,
      and saved with the student added when the name was absent. */
  function EnrollRoster(files: Files, failing: set<Path>, s: Student): Files {
    var path := StudentsPath(s.stage, s.department);
    var roster := RosterOf(files, s.stage, s.department);
    var loaded := AfterLoad(files, failing, path, Roster([]));
    if HasName(roster, s.name) then loaded else AfterSave(loaded, failing, path, Roster(AddToRoster(roster, s)))
  }

  /** The files after a completed enrollment whose registry save succeeded: the roster
      step, then the event. */
  function EnrollEffect(files: Files, failing: set<Path>, s: Student, date: string, time: string): Files {
    RecordEffect(EnrollRoster(files, failing, s), failing, s, None, date, time)
  }

  /** Writing a file other than the registry leaves the registry as it was. */
  lemma OtherWriteKeepsCards(files: Files, failing: set<Path>, path: Path, v: Value)
    requires path != CardsFile
    ensures CardsOf(AfterSave(files, failing, path, v)) == CardsOf(files)
    ensures CardsOf(AfterLoad(files, failing, path, v)) == CardsOf(files)
  {
  }

  /** The roster step keeps the registry and the attendance. */
  lemma EnrollRosterKeeps(files: Files, failing: set<Path>, s: Student)
    ensures CardsOf(EnrollRoster(files, failing, s)) == CardsOf(files)
    ensures AttendanceOf(EnrollRoster(files, failing, s), s.stage, s.department) == AttendanceOf(files, s.stage, s.department)
  {
    var path := StudentsPath(s.stage, s.department);
    var roster := RosterOf(files, s.stage, s.department);
    var loaded := AfterLoad(files, failing, path, Roster([]));
    OtherWriteKeepsCards(files, failing, path, Roster([]));
    NamespacesSeparate(files, failing, s.stage, s.department, s.stage, s.department, Roster([]));
    if !HasName(roster, s.name) {
      OtherWriteKeepsCards(loaded, failing, path, Roster(AddToRoster(roster, s)));
      NamespacesSeparate(loaded, failing, s.stage, s.department, s.stage, s.department, Roster(AddToRoster(roster, s)));
    }
  }

  /** After the roster step the name is in the roster whenever it was there or the save
      succeeds. */
  lemma EnrollRosterHasName(files: Files, failing: set<Path>, s: Student)
    requires HasName(RosterOf(files, s.stage, s.department), s.name) || StudentsPath(s.stage, s.department) !in failing
    ensures HasName(RosterOf(EnrollRoster(files, failing, s), s.stage, s.department), s.name)
  {
    var path := StudentsPath(s.stage, s.department);
    var roster := RosterOf(files, s.stage, s.department);
    var loaded := AfterLoad(files, failing, path, Roster([]));
    assert RosterOf(loaded, s.stage, s.department) == roster;
    if !HasName(roster, s.name) {
      AddToRosterFacts(roster, s);
      SaveThenLoad(loaded, failing, s.stage, s.department, AddToRoster(roster, s), map[], map[]);
    }
  }

  /** Recording an event leaves the registry alone. */
  lemma RecordKeepsCards(files: Files, failing: set<Path>, s: Student, date: string, time: string)
    ensures CardsOf(RecordEffect(files, failing, s, None, date, time)) == CardsOf(files)
  {
    var path := AttendancePath(s.stage, s.department);
    var loaded := AfterLoad(files, failing, path, Attendance(map[]));
    OtherWriteKeepsCards(files, failing, path, Attendance(map[]));
    OtherWriteKeepsCards(loaded, failing, path,
                         Attendance(Record(AttendanceOf(files, s.stage, s.department), StudentKey(s), date, None, time)));
  }

  /** Saving the registry leaves every roster and attendance log alone. */
  lemma CardsWriteKeepsPartitions(files: Files, failing: set<Path>, cards: CardMap, stage: string, department: string)
    ensures RosterOf(AfterSave(files, failing, CardsFile, Cards(cards)), stage, department) == RosterOf(files, stage, department)
    ensures AttendanceOf(AfterSave(files, failing, CardsFile, Cards(cards)), stage, department) == AttendanceOf(files, stage, department)
  {
  }

  /** After an enrollment whose registry save succeeded, the registry holds the new
      binding, the student's partition holds the name whenever it was there or its save
      succeeded, and the student's attendance has the automatic event appended. */
  lemma EnrollEffectView(files: Files, failing: set<Path>, cards: CardMap, uid: string, s: Student,
                         date: string, time: string)
    requires CardsFile !in failing
    ensures var before := AfterSave(files, failing, CardsFile, Cards(cards[uid := s]));
      var after := EnrollEffect(before, failing, s, date, time);
      && CardsOf(after) == cards[uid := s]
      && (HasName(RosterOf(files, s.stage, s.department), s.name) || StudentsPath(s.stage, s.department) !in failing
          ==> HasName(RosterOf(after, s.stage, s.department), s.name))
      && (AttendancePath(s.stage, s.department) !in failing ==>
            AttendanceOf(after, s.stage, s.department)
            == Record(AttendanceOf(files, s.stage, s.department), StudentKey(s), date, None, time))
  {
    var before := AfterSave(files, failing, CardsFile, Cards(cards[uid := s]));
    CardsWriteKeepsPartitions(files, failing, cards[uid := s], s.stage, s.department);
    SaveThenLoad(files, failing, s.stage, s.department, [], map[], cards[uid := s]);
    var added := EnrollRoster(before, failing, s);
    EnrollRosterKeeps(before, failing, s);
    if HasName(RosterOf(files, s.stage, s.department), s.name) || StudentsPath(s.stage, s.department) !in failing {
      EnrollRosterHasName(before, failing, s);
    }
    RecordEffectView(added, failing, s, None, date, time, s.stage, s.department);
    RecordKeepsCards(added, failing, s, date, time);
  }

  /** After a move with something moved and a successful registry save, the saved
      registry is the relocated one: each card of a moved student names the target
      partition. */
  lemma MoveCardsView(files: Files, failing: set<Path>, cards: CardMap, moved: seq<string>,
                      stage: string, department: string, stage': string, department': string)
    requires CardsFile !in failing
    ensures CardsOf(AfterSave(files, failing, CardsFile, Cards(Relocate(cards, moved, stage, department, stage', department'))))
         == Relocate(cards, moved, stage, department, stage', department')
  {
  }

  /** The departure cell of the records view: the departure times, or not departed when
      there is none (even on a day without any arrival). */
  function ViewDepartureCell(day: Day): (cell: string)
    ensures Export.HasEvent(day, DEPARTURE) ==> cell == Join(Export.TimesOf(day, DEPARTURE), "\n")
    ensures !Export.HasEvent(day, DEPARTURE) ==> cell == NOT_DEPARTED
  {
    var departures := Export.TimesOf(day, DEPARTURE);
    if departures != [] then Join(departures, "\n") else NOT_DEPARTED
  }

  /** The records view and the archive sheet show the same departure cell except on a
      day with neither an arrival nor a departure, which the sheet marks absent and the
      view marks not departed. (The arrival cells are the same expression.) */
  lemma ViewDepartureAgreesWithSheet(day: Day)
    ensures Export.HasEvent(day, ARRIVAL) || Export.HasEvent(day, DEPARTURE) ==>
      ViewDepartureCell(day) == Export.DepartureCell(day)
    ensures !Export.HasEvent(day, ARRIVAL) && !Export.HasEvent(day, DEPARTURE) ==>
      ViewDepartureCell(day) == NOT_DEPARTED && Export.DepartureCell(day) == ABSENT
  {
  }

  /** The state of the main window the handlers share. */
  class AttendanceApp {
    const store: Store
    const registry: CardRegistry
    /** The students listed by the last search, which a list pick indexes. */
    var currentMatches: seq<Student>

    constructor (store: Store, registry: CardRegistry)
      ensures this.store == store && this.registry == registry && currentMatches == []
    {
      this.store := store;
      this.registry := registry;
      currentMatches := [];
    }

    /** `search_student`: the typed text is stripped, then the partition is searched as
        `search_students` does; the hits become the list a pick indexes. */
    method SearchStudent(entry: string, stage: string, department: string)
      modifies this, store
      ensures currentMatches == Search(RosterOf(old(store.files), stage, department), Strip(entry))
      ensures store.files == AfterLoad(old(store.files), store.failing, StudentsPath(stage, department), Roster([]))
    {
      var text := Strip(entry);
      var students := store.LoadStudents(stage, department);
      if text == [] {
        currentMatches := students;
        return;
      }
      currentMatches := FilterByName(students, text);
    }

    /** `save_student` of the add dialog. */
    method SaveStudent(nameEntry: string, stage: string, department: string) returns (result: AddResult)
      modifies store
      ensures Strip(nameEntry) == [] ==> result == BlankName && store.files == old(store.files)
      ensures Strip(nameEntry) != [] ==>
        var roster := RosterOf(old(store.files), stage, department);
        var path := StudentsPath(stage, department);
        var loaded := AfterLoad(old(store.files), store.failing, path, Roster([]));
        && (HasName(roster, Strip(nameEntry)) ==> result == AlreadyExists && store.files == loaded)
        && (!HasName(roster, Strip(nameEntry)) ==>
              && result == Added(path !in store.failing)
              && store.files == AfterSave(loaded, store.failing, path,
                                          Roster(AddToRoster(roster, Student(Strip(nameEntry), stage, department)))))
    {
      var name := Strip(nameEntry);
      if name == [] {
        return BlankName;
      }
      var students := store.LoadStudents(stage, department);
      var existing := FindByName(students, name);
      if existing.Some? {
        return AlreadyExists;
      }
      students := students + [Student(name, stage, department)];
      students := SortBy(students, StudentName);
      var saved := store.SaveStudents(stage, department, students);
      return Added(saved);
    }

    /** `direct_register`: `pick` is the selected list row, if any. */
    method DirectRegister(pick: Option<nat>, entry: string, stage: string, department: string,
                          date: string, time: string) returns (result: RegisterResult)
      modifies store
      ensures pick.Some? && pick.value < |currentMatches| ==>
        && result == RecordedPick(currentMatches[pick.value])
        && store.files == RecordEffect(old(store.files), store.failing, currentMatches[pick.value], None, date, time)
      ensures !(pick.Some? && pick.value < |currentMatches|) && Strip(entry) == [] ==>
        result == BlankSearch && store.files == old(store.files)
      ensures !(pick.Some? && pick.value < |currentMatches|) && Strip(entry) != [] ==>
        var matches := ExactMatches(RosterOf(old(store.files), stage, department), Strip(entry));
        var loaded := AfterLoad(old(store.files), store.failing, StudentsPath(stage, department), Roster([]));
        && (matches == [] ==> result == NotFound && store.files == loaded)
        && (|matches| > 1 ==> result == Ambiguous && store.files == loaded)
        && (|matches| == 1 ==>
              result == RecordedMatch(matches[0])
              && store.files == RecordEffect(loaded, store.failing, matches[0], None, date, time))
    {
      if pick.Some? && pick.value < |currentMatches| {
        var student := currentMatches[pick.value];
        var _ := RecordAttendance(store, student, None, date, time);
        return RecordedPick(student);
      }
      var text := Strip(entry);
      if text == [] {
        return BlankSearch;
      }
      var students := store.LoadStudents(stage, department);
      var matches := ExactMatches(students, text);
      if matches == [] {
        return NotFound;
      } else if |matches| > 1 {
        return Ambiguous;
      }
      var student := matches[0];
      var _ := RecordAttendance(store, student, None, date, time);
      return RecordedMatch(student);
    }

    /** `process_card` for a normalised `uid`, with the dialogs' answers. */
    method ProcessCard(uid: string, answer: Enrollment, date: string, time: string) returns (result: CardResult)
      modifies store, registry
      ensures uid in old(registry.bindings) ==>
        && result == KnownCard(old(registry.bindings)[uid])
        && registry.bindings == old(registry.bindings)
        && store.files == RecordEffect(old(store.files), store.failing, old(registry.bindings)[uid], None, date, time)
      ensures uid !in old(registry.bindings) && EnrolledStudent(answer).None? ==>
        result == Abandoned && registry.bindings == old(registry.bindings) && store.files == old(store.files)
      ensures uid !in old(registry.bindings) && EnrolledStudent(answer).Some? ==>
        var s := EnrolledStudent(answer).value;
        var saved := AfterSave(old(store.files), store.failing, CardsFile, Cards(old(registry.bindings)[uid := s]));
        && registry.bindings == old(registry.bindings)[uid := s]
        && (CardsFile in store.failing ==> result == CardsNotSaved(s) && store.files == old(store.files))
        && (CardsFile !in store.failing ==>
              && result == Enrolled(s, !HasName(RosterOf(old(store.files), s.stage, s.department), s.name))
              && store.files == EnrollEffect(saved, store.failing, s, date, time))
    {
      if uid in registry.bindings {
        var bound := registry.bindings[uid];
        var _ := RecordAttendance(store, bound, None, date, time);
        return KnownCard(bound);
      }
      var student: Student;
      match answer {
        case Declined => return Abandoned;
        case NoOption => return Abandoned;
        case ExistingName(picked) =>
          if picked.None? {
            return Abandoned;
          }
          student := picked.value;
        case NewName(entered) =>
          if entered.None? {
            return Abandoned;
          }
          student := entered.value;
      }
      registry.Bind(uid, student);
      var cardsSaved := store.SaveCards(registry.bindings);
      if !cardsSaved {
        return CardsNotSaved(student);
      }
      ghost var roster0 := RosterOf(old(store.files), student.stage, student.department);
      var students := store.LoadStudents(student.stage, student.department);
      assert students == roster0;
      var found := FindByName(students, student.name);
      if found.None? {
        students := students + [student];
        students := SortBy(students, StudentName);
        var _ := store.SaveStudents(student.stage, student.department, students);
      }
      var _ := RecordAttendance(store, student, None, date, time);
      return Enrolled(student, found.None?);
    }

    /** `move_selected_students` of the move dialog: `selected` are the ticked names and
        `confirmed` the answer to the confirmation question. On a move that moved
        someone, the edited registry is saved after both rosters. */
    method MoveSelectedStudents(stage: string, department: string, stage': string, department': string,
                                selected: seq<string>, confirmed: bool) returns (reply: MoveReply)
      modifies store, registry
      ensures stage == stage' && department == department' ==>
        reply == SameTarget && store.files == old(store.files) && registry.bindings == old(registry.bindings)
      ensures !(stage == stage' && department == department') && selected == [] ==>
        reply == NoSelection && store.files == old(store.files) && registry.bindings == old(registry.bindings)
      ensures !(stage == stage' && department == department') && selected != [] && !confirmed ==>
        reply == NotConfirmed && store.files == old(store.files) && registry.bindings == old(registry.bindings)
      ensures !(stage == stage' && department == department') && selected != [] && confirmed ==>
        var plan := MovePlan(old(store.files), store.failing, stage, department, stage', department', selected);
        && reply == Finished(Verdict(plan), plan)
        && (plan.moved == [] ==>
              && store.files == AfterMoveLoads(old(store.files), store.failing, stage, department, stage', department')
              && registry.bindings == old(registry.bindings))
        && (plan.moved != [] ==>
              && registry.bindings == Relocate(old(registry.bindings), plan.moved, stage, department, stage', department')
              && store.files == AfterSave(MoveSaves(old(store.files), store.failing, stage, department, stage', department', selected),
                                          store.failing, CardsFile, Cards(registry.bindings)))
    {
      if stage == stage' && department == department' {
        return SameTarget;
      }
      if selected == [] {
        return NoSelection;
      }
      if !confirmed {
        return NotConfirmed;
      }
      var outcome, plan := MoveStudents(store, registry, stage, department, stage', department', selected);
      if plan.moved != [] {
        var _ := store.SaveCards(registry.bindings);
      }
      return Finished(outcome, plan);
    }
  }
}
