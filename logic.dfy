/** The operations of app/logic.py: the attendance toggle, the partition search and the
    cross-partition move with its card rebinding. */
module Logic {
  import opened Strings
  import opened Records
  import opened Storage

  // ---------------------------------------------------------------------------
  // Attendance toggle
  // ---------------------------------------------------------------------------

  /** The events recorded for `key` on `date` (none when the key or the date is missing). */
  function DayOf(log: AttendanceLog, key: string, date: string): Day {
    if key in log && date in log[key] then log[key][date] else []
  }

  /** The kind of the next event: an explicit operation is taken as given; otherwise the
      first event of a day is an arrival, and each later one is the opposite of the last
      kind, where anything but an arrival counts as a departure. */
  function NextKind(day: Day, operation: Option<string>): (kind: string)
    ensures operation.Some? ==> kind == operation.value
    ensures operation.None? ==> kind == ARRIVAL || kind == DEPARTURE
    ensures operation.None? && day == [] ==> kind == ARRIVAL
    ensures operation.None? && day != [] ==> kind != day[|day| - 1].kind
    ensures operation.None? && day != [] ==> (kind == DEPARTURE <==> day[|day| - 1].kind == ARRIVAL)
  {
    match operation
    case Some(op) => op
    case None =>
      if day == [] then ARRIVAL
      else if day[|day| - 1].kind == ARRIVAL then DEPARTURE
      else ARRIVAL
  }

  /** The log after one `record_attendance`: exactly one event is appended to the day's
      list, the key and the date being created when missing; every other key, every other
      date and every earlier event stay as they were. */
  function Record(log: AttendanceLog, key: string, date: string, operation: Option<string>, time: string)
    : (r: AttendanceLog)
    ensures key in r && date in r[key]
    ensures r[key][date] == DayOf(log, key, date) + [Event(NextKind(DayOf(log, key, date), operation), time)]
    ensures r.Keys == log.Keys + {key}
    ensures forall k :: k in log && k != key ==> r[k] == log[k]
    ensures key in log ==> r[key].Keys == log[key].Keys + {date}
    ensures key !in log ==> r[key].Keys == {date}
    ensures key in log ==> forall d :: d in log[key] && d != date ==> r[key][d] == log[key][d]
  {
    var history := if key in log then log[key] else map[];
    var day := DayOf(log, key, date);
    log[key := history[date := day + [Event(NextKind(day, operation), time)]]]
  }

  /** The log after one automatic record per time in `times`, for one key and date. */
  function AutoRecords(log: AttendanceLog, key: string, date: string, times: seq<string>): AttendanceLog
    decreases |times|
  {
    if times == [] then log
    else Record(AutoRecords(log, key, date, times[..|times| - 1]), key, date, None, times[|times| - 1])
  }

  /** The kind the `i`-th automatic event of a day takes: arrivals at even positions. */
  function AutoKind(i: nat): string {
    if i % 2 == 0 then ARRIVAL else DEPARTURE
  }

  /** Arrival, departure, arrival, ...: the kinds alternate, starting with an arrival. */
  predicate Alternating(day: Day) {
    forall i :: 0 <= i < |day| ==> day[i].kind == AutoKind(i)
  }

  /** The day that automatic records at `times` build from nothing. */
  function AutoDay(times: seq<string>): (day: Day)
    ensures |day| == |times|
  {
    seq(|times|, i requires 0 <= i < |times| => Event(AutoKind(i), times[i]))
  }

  /** The day `Record` writes to is the old day plus the one new event. */
  lemma RecordDay(log: AttendanceLog, key: string, date: string, operation: Option<string>, time: string)
    ensures DayOf(Record(log, key, date, operation, time), key, date)
         == DayOf(log, key, date) + [Event(NextKind(DayOf(log, key, date), operation), time)]
  {
  }

  /** One more automatic event extends `AutoDay` by one position. */
  lemma AutoDayStep(times: seq<string>, time: string)
    ensures AutoDay(times) + [Event(NextKind(AutoDay(times), None), time)] == AutoDay(times + [time])
  {
    var n := |times|;
    if n > 0 {
      assert AutoDay(times)[n - 1].kind == AutoKind(n - 1);
      assert AutoKind(n - 1) == ARRIVAL <==> AutoKind(n) == DEPARTURE;
    }
    assert NextKind(AutoDay(times), None) == AutoKind(n);
  }

  /** Automatic records on a day that starts empty build exactly `AutoDay(times)`. */
  lemma {:induction false} AutoRecordsDay(log: AttendanceLog, key: string, date: string, times: seq<string>)
    requires DayOf(log, key, date) == []
    ensures DayOf(AutoRecords(log, key, date, times), key, date) == AutoDay(times)
    decreases |times|
  {
    if times == [] {
      assert AutoDay(times) == [];
    } else {
      var prefix := times[..|times| - 1];
      var last := times[|times| - 1];
      AutoRecordsDay(log, key, date, prefix);
      RecordDay(AutoRecords(log, key, date, prefix), key, date, None, last);
      AutoDayStep(prefix, last);
      assert prefix + [last] == times;
    }
  }

  /** Repeated automatic records on a day that starts empty strictly alternate, starting
      with an arrival, and carry the given times in order. */
  lemma AutoRecordsAlternate(log: AttendanceLog, key: string, date: string, times: seq<string>)
    requires DayOf(log, key, date) == []
    ensures |DayOf(AutoRecords(log, key, date, times), key, date)| == |times|
    ensures Alternating(DayOf(AutoRecords(log, key, date, times), key, date))
    ensures forall i :: 0 <= i < |times| ==> DayOf(AutoRecords(log, key, date, times), key, date)[i].time == times[i]
  {
    AutoRecordsDay(log, key, date, times);
  }

  /** The files after `record_attendance`: the partition's attendance file is loaded
      (created empty when missing) and saved back with the event appended. */
  function RecordEffect(files: Files, failing: set<Path>, student: Student, operation: Option<string>,
                        date: string, time: string): Files
  {
    var path := AttendancePath(student.stage, student.department);
    var log := AttendanceOf(files, student.stage, student.department);
    AfterSave(AfterLoad(files, failing, path, Attendance(map[])), failing, path,
              Attendance(Record(log, StudentKey(student), date, operation, time)))
  }

  /** After `record_attendance`, loading the student's partition gives the old log with
      the event appended (or the old log when the write failed); rosters and the other
      partitions' attendance are untouched. */
  lemma RecordEffectView(files: Files, failing: set<Path>, student: Student, operation: Option<string>,
                         date: string, time: string, stage: string, department: string)
    ensures var after := RecordEffect(files, failing, student, operation, date, time);
      && AttendanceOf(after, student.stage, student.department)
         == (if AttendancePath(student.stage, student.department) in failing
             then AttendanceOf(files, student.stage, student.department)
             else Record(AttendanceOf(files, student.stage, student.department), StudentKey(student), date, operation, time))
      && RosterOf(after, stage, department) == RosterOf(files, stage, department)
      && (PartitionKey(stage, department) != PartitionKey(student.stage, student.department) ==>
            AttendanceOf(after, stage, department) == AttendanceOf(files, stage, department))
  {
    var path := AttendancePath(student.stage, student.department);
    var loaded := AfterLoad(files, failing, path, Attendance(map[]));
    AttendanceLoadKeepsViews(files, failing, student.stage, student.department, student.stage, student.department);
    AttendanceLoadKeepsViews(files, failing, student.stage, student.department, stage, department);
    var log := Record(AttendanceOf(files, student.stage, student.department), StudentKey(student), date, operation, time);
    SaveThenLoad(loaded, failing, student.stage, student.department, [], log, map[]);
    if PartitionKey(stage, department) != PartitionKey(student.stage, student.department) {
      OtherPartitionsUnchanged(loaded, failing, student.stage, student.department, stage, department, Attendance(log));
    }
    NamespacesSeparate(loaded, failing, student.stage, student.department, stage, department, Attendance(log));
  }

  /** `record_attendance`: the returned flag is the result of the save. */
  method RecordAttendance(store: Store, student: Student, operation: Option<string>, date: string, time: string)
    returns (saved: bool)
    modifies store
    ensures saved == (AttendancePath(student.stage, student.department) !in store.failing)
    ensures store.files == RecordEffect(old(store.files), store.failing, student, operation, date, time)
  {
    var attendance: AttendanceLog := store.LoadAttendance(student.stage, student.department);
    ghost var log0 := attendance;
    var key := StudentKey(student);
    ghost var history := if key in log0 then log0[key] else map[];
    if key !in attendance {
      attendance := attendance[key := map[]];
    } else {
      assert attendance == log0[key := history];
    }
    if date !in attendance[key] {
      attendance := attendance[key := attendance[key][date := []]];
    } else {
      assert attendance[key] == history[date := DayOf(log0, key, date)];
    }
    var op: string;
    if operation.None? {
      if |attendance[key][date]| == 0 {
        op := ARRIVAL;
      } else {
        var last := attendance[key][date][|attendance[key][date]| - 1].kind;
        op := if last == ARRIVAL then DEPARTURE else ARRIVAL;
      }
    } else {
      op := operation.value;
    }
    assert attendance[key][date] == DayOf(log0, key, date);
    assert op == NextKind(DayOf(log0, key, date), operation);
    ghost var day := DayOf(log0, key, date) + [Event(op, time)];
    assert attendance == log0[key := history[date := DayOf(log0, key, date)]];
    assert attendance[key][date := day] == history[date := day];
    attendance := attendance[key := attendance[key][date := attendance[key][date] + [Event(op, time)]]];
    assert attendance == log0[key := history[date := day]];
    saved := store.SaveAttendance(student.stage, student.department, attendance);
  }

  // ---------------------------------------------------------------------------
  // Search
  // ---------------------------------------------------------------------------

  /** The case-insensitive substring test of the search. */
  predicate NameMatches(s: Student, text: string) {
    Contains(Lower(s.name), Lower(text))
  }

  /** The students whose name matches, in roster order. */
  function Matching(students: seq<Student>, text: string): (r: seq<Student>)
    ensures |r| <= |students|
    ensures forall s :: s in r <==> s in students && NameMatches(s, text)
  {
    if students == [] then []
    else
      var rest := Matching(students[1..], text);
      assert students == [students[0]] + students[1..];
      if NameMatches(students[0], text) then [students[0]] + rest else rest
  }

  /** The search keeps every matching entry as often as the roster holds it, and drops
      every other one. */
  lemma {:induction false} MatchingCounts(students: seq<Student>, text: string, s: Student)
    ensures multiset(Matching(students, text))[s] == if NameMatches(s, text) then multiset(students)[s] else 0
  {
    if students != [] {
      assert students == [students[0]] + students[1..];
      MatchingCounts(students[1..], text, s);
    }
  }

  /** Filtering distributes over concatenation, so matches come out in roster order. */
  lemma {:induction false} MatchingAppend(a: seq<Student>, b: seq<Student>, text: string)
    ensures Matching(a + b, text) == Matching(a, text) + Matching(b, text)
  {
    if a == [] {
      assert a + b == b;
    } else {
      assert (a + b)[1..] == a[1..] + b;
      assert (a + b)[0] == a[0];
      MatchingAppend(a[1..], b, text);
    }
  }

  /** The matches among the first `i + 1` students: those among the first `i`, then
      student `i` if it matches. */
  lemma MatchingSnoc(students: seq<Student>, i: nat, text: string)
    requires i < |students|
    ensures Matching(students[..i + 1], text)
         == Matching(students[..i], text) + if NameMatches(students[i], text) then [students[i]] else []
  {
    assert students[..i + 1] == students[..i] + [students[i]];
    MatchingAppend(students[..i], [students[i]], text);
    assert [students[i]][1..] == [];
  }

  /** `search_students` on a loaded roster: everything for empty text, otherwise the
      matching students in order. */
  function Search(students: seq<Student>, text: string): (r: seq<Student>)
    ensures text == [] ==> r == students
    ensures text != [] ==> r == Matching(students, text)
  {
    if text == [] then students else Matching(students, text)
  }

  /** Every name contains the empty text, so the early return for empty text gives what
      the filter would have given. */
  lemma {:induction false} EmptyTextMatchesAll(students: seq<Student>)
    ensures Matching(students, "") == students
  {
    if students != [] {
      assert StartsWith(Lower(students[0].name), Lower(""));
      EmptyTextMatchesAll(students[1..]);
    }
  }

  /** `search_students`. */
  method SearchStudents(store: Store, stage: string, department: string, text: string)
    returns (result: seq<Student>)
    modifies store
    ensures result == Search(RosterOf(old(store.files), stage, department), text)
    ensures store.files == AfterLoad(old(store.files), store.failing, StudentsPath(stage, department), Roster([]))
  {
    var students := store.LoadStudents(stage, department);
    if text == [] {
      return students;
    }
    result := FilterByName(students, text);
  }

  /** The comprehension of the search, as a loop. */
  method FilterByName(students: seq<Student>, text: string) returns (result: seq<Student>)
    ensures result == Matching(students, text)
  {
    result := [];
    var i := 0;
    while i < |students|
      invariant 0 <= i <= |students|
      invariant result == Matching(students[..i], text)
    {
      MatchingSnoc(students, i, text);
      if Contains(Lower(students[i].name), Lower(text)) {
        result := result + [students[i]];
      }
      i := i + 1;
    }
    assert students[..i] == students;
  }

  /** The first student with exactly this name, if any. */
  method FindByName(students: seq<Student>, name: string) returns (found: Option<Student>)
    ensures found.None? <==> !HasName(students, name)
    ensures found.Some? ==> found.value in students && found.value.name == name
  {
    var i := 0;
    while i < |students|
      invariant 0 <= i <= |students|
      invariant forall j :: 0 <= j < i ==> students[j].name != name
    {
      if students[i].name == name {
        return Some(students[i]);
      }
      i := i + 1;
    }
    return None;
  }

  // ---------------------------------------------------------------------------
  // Card registry and move
  // ---------------------------------------------------------------------------

  /** The registry after rebinding one moved student: every card bound to exactly
      `(name, stage, department)` now names the target partition. */
  function Rebound(cards: CardMap, name: string, stage: string, department: string,
                   stage': string, department': string): CardMap
  {
    map u | u in cards :: if cards[u] == Student(name, stage, department) then Student(name, stage', department') else cards[u]
  }

  /** The registry after a move of the `moved` names from one partition to another: a
      card keeps its uid; it names the target partition exactly when it was bound to a
      moved name in the source partition. */
  function Relocate(cards: CardMap, moved: seq<string>, stage: string, department: string,
                    stage': string, department': string): (r: CardMap)
    ensures r.Keys == cards.Keys
    ensures forall u :: u in cards ==> r[u].name == cards[u].name
  {
    map u | u in cards ::
      if cards[u].name in moved && cards[u].stage == stage && cards[u].department == department
      then Student(cards[u].name, stage', department') else cards[u]
  }

  /** Rebinding one more moved name extends the relocation by that name. */
  lemma RelocateStep(cards: CardMap, moved: seq<string>, name: string, stage: string, department: string,
                     stage': string, department': string)
    ensures Rebound(Relocate(cards, moved, stage, department, stage', department'), name, stage, department, stage', department')
         == Relocate(cards, moved + [name], stage, department, stage', department')
  {
    var a := Rebound(Relocate(cards, moved, stage, department, stage', department'), name, stage, department, stage', department');
    var b := Relocate(cards, moved + [name], stage, department, stage', department');
    forall u | u in cards ensures a[u] == b[u] {
      assert cards[u].name in moved + [name] <==> cards[u].name in moved || cards[u].name == name;
    }
  }

  /** After a move, a card bound to a moved student's old identity looks up the student in
      the target partition; every other card looks up what it did before. */
  lemma RelocatedLookup(cards: CardMap, moved: seq<string>, uid: string, stage: string, department: string,
                        stage': string, department': string)
    requires uid in cards
    ensures var r := Relocate(cards, moved, stage, department, stage', department');
      && uid in r
      && (cards[uid].name in moved && cards[uid].stage == stage && cards[uid].department == department
          ==> r[uid] == Student(cards[uid].name, stage', department'))
      && (!(cards[uid].name in moved && cards[uid].stage == stage && cards[uid].department == department)
          ==> r[uid] == cards[uid])
  {
  }

  /** The in-memory card registry (`card_students`), whose entries a move edits in place. */
  class CardRegistry {
    var bindings: CardMap

    constructor (cards: CardMap)
      ensures bindings == cards
    {
      bindings := cards;
    }

    /** `card_students[uid] = student`: overwrites any earlier binding of the card. */
    method Bind(uid: string, student: Student)
      modifies this
      ensures bindings == old(bindings)[uid := student]
    {
      bindings := bindings[uid := student];
    }

    /** The loop of the move over `card_students.items()` for one moved name. */
    method Rebind(name: string, stage: string, department: string, stage': string, department': string)
      modifies this
      ensures bindings == Rebound(old(bindings), name, stage, department, stage', department')
    {
      ghost var before := bindings;
      var pending := bindings.Keys;
      while pending != {}
        invariant pending <= before.Keys
        invariant bindings.Keys == before.Keys
        invariant forall u :: u in pending ==> bindings[u] == before[u]
        invariant forall u :: u in before && u !in pending ==>
          bindings[u] == Rebound(before, name, stage, department, stage', department')[u]
        decreases pending
      {
        var uid :| uid in pending;
        if bindings[uid] == Student(name, stage, department) {
          bindings := bindings[uid := Student(name, stage', department')];
        }
        pending := pending - {uid};
      }
    }
  }

  /** The names a move takes and the names it skips as duplicates, in request order. */
  datatype Plan = Plan(moved: seq<string>, skipped: seq<string>)

  /** The decisions of the move loop: a requested name that is not in the source is
      ignored; one already in the target, or moved earlier in the same call, is skipped; any
      other is moved. */
  function PlanMove(source: seq<Student>, targetNames: set<string>, names: seq<string>): Plan
    decreases |names|
  {
    if names == [] then Plan([], [])
    else
      var p := PlanMove(source, targetNames, names[..|names| - 1]);
      var name := names[|names| - 1];
      if !HasName(source, name) then p
      else if name in targetNames || name in p.moved then Plan(p.moved, p.skipped + [name])
      else Plan(p.moved + [name], p.skipped)
  }

  /** The plan of a move: every moved name was requested, is in the source and was not in
      the target, and none is moved twice; every skipped name was requested, is in the source
      and was in the target or already moved; and every requested name in the source is
      either moved or skipped. */
  lemma {:induction false} PlanMoveFacts(source: seq<Student>, targetNames: set<string>, names: seq<string>)
    ensures var p := PlanMove(source, targetNames, names);
      && |p.moved| + |p.skipped| <= |names|
      && (forall i :: 0 <= i < |p.moved| ==>
            p.moved[i] in names && HasName(source, p.moved[i]) && p.moved[i] !in targetNames)
      && (forall i, j :: 0 <= i < j < |p.moved| ==> p.moved[i] != p.moved[j])
      && (forall n :: n in p.skipped ==>
            n in names && HasName(source, n) && (n in targetNames || n in p.moved))
      && (forall n :: n in names && HasName(source, n) ==> n in p.moved || n in p.skipped)
    decreases |names|
  {
    if names != [] {
      var prefix := names[..|names| - 1];
      PlanMoveFacts(source, targetNames, prefix);
      assert forall n :: n in prefix ==> n in names;
      assert forall n :: n in names ==> n in prefix || n == names[|names| - 1];
    }
  }

  /** Roster entries for the moved names, in the target partition. */
  function Relocated(moved: seq<string>, stage: string, department: string): (r: seq<Student>)
    ensures |r| == |moved|
    ensures forall i :: 0 <= i < |r| ==> r[i] == Student(moved[i], stage, department)
  {
    seq(|moved|, i requires 0 <= i < |moved| => Student(moved[i], stage, department))
  }

  /** One more requested name: the plan of the first `i + 1` names extends the plan of
      the first `i` by the decision on name `i`. */
  lemma PlanMoveSnoc(source: seq<Student>, targetNames: set<string>, names: seq<string>, i: nat)
    requires i < |names|
    ensures var p := PlanMove(source, targetNames, names[..i]);
      PlanMove(source, targetNames, names[..i + 1])
      == if !HasName(source, names[i]) then p
         else if names[i] in targetNames || names[i] in p.moved then Plan(p.moved, p.skipped + [names[i]])
         else Plan(p.moved + [names[i]], p.skipped)
  {
    assert names[..i + 1][..i] == names[..i];
  }

  /** Appending one more moved entry to the target appends one more relocated entry. */
  lemma RelocatedSnoc(target: seq<Student>, moved: seq<string>, name: string, stage: string, department: string)
    ensures target + Relocated(moved, stage, department) + [Student(name, stage, department)]
         == target + Relocated(moved + [name], stage, department)
  {
    assert Relocated(moved, stage, department) + [Student(name, stage, department)]
        == Relocated(moved + [name], stage, department);
    Strings.AppendAssoc(target, Relocated(moved, stage, department), [Student(name, stage, department)]);
  }

  /** A move never gives the target a second entry with the same name. */
  lemma MoveKeepsTargetUnique(source: seq<Student>, target: seq<Student>, names: seq<string>,
                              stage: string, department: string)
    requires UniqueNames(target)
    ensures UniqueNames(target + Relocated(PlanMove(source, Names(target), names).moved, stage, department))
  {
    var moved := PlanMove(source, Names(target), names).moved;
    PlanMoveFacts(source, Names(target), names);
    var t := target + Relocated(moved, stage, department);
    forall i, j | 0 <= i < j < |t| ensures t[i].name != t[j].name {
      if j >= |target| {
        assert t[j].name == moved[j - |target|];
        if i < |target| {
          assert HasName(target, t[i].name);
        }
      }
    }
  }

  /** The source roster without the moved names, in order. */
  function WithoutNames(students: seq<Student>, moved: seq<string>): (r: seq<Student>)
    ensures |r| <= |students|
    ensures forall s :: s in r <==> s in students && s.name !in moved
    ensures forall s :: multiset(r)[s] == if s.name in moved then 0 else multiset(students)[s]
  {
    if students == [] then []
    else
      var rest := WithoutNames(students[1..], moved);
      assert students == [students[0]] + students[1..];
      if students[0].name in moved then rest else [students[0]] + rest
  }

  /** The report of a move. */
  datatype MoveOutcome = SamePartition | AllDuplicates | NothingMoved | Moved(count: nat)

  /** The report for a plan, as the end of `move_students` chooses it. */
  function Verdict(plan: Plan): MoveOutcome {
    if plan.moved == [] then (if plan.skipped != [] then AllDuplicates else NothingMoved)
    else Moved(|plan.moved|)
  }

  /** The roster files after the two loads of a move. */
  function AfterMoveLoads(files: Files, failing: set<Path>, stage: string, department: string,
                          stage': string, department': string): Files
  {
    AfterLoad(AfterLoad(files, failing, StudentsPath(stage, department), Roster([])),
              failing, StudentsPath(stage', department'), Roster([]))
  }

  /** The target roster as the move loads it (after the source load). */
  function MoveTarget(files: Files, failing: set<Path>, stage: string, department: string,
                      stage': string, department': string): seq<Student>
  {
    RosterOf(AfterLoad(files, failing, StudentsPath(stage, department), Roster([])), stage', department')
  }

  /** What a move decides, from the files it starts with. */
  function MovePlan(files: Files, failing: set<Path>, stage: string, department: string,
                    stage': string, department': string, names: seq<string>): Plan
  {
    PlanMove(RosterOf(files, stage, department),
             Names(MoveTarget(files, failing, stage, department, stage', department')), names)
  }

  /** The files after a move that moved someone: the source saved without the moved
      names, then the target saved with them appended. */
  function MoveSaves(files: Files, failing: set<Path>, stage: string, department: string,
                     stage': string, department': string, names: seq<string>): Files
  {
    var loaded := AfterMoveLoads(files, failing, stage, department, stage', department');
    var plan := MovePlan(files, failing, stage, department, stage', department', names);
    var target := MoveTarget(files, failing, stage, department, stage', department');
    AfterSave(AfterSave(loaded, failing, StudentsPath(stage, department),
                        Roster(WithoutNames(RosterOf(files, stage, department), plan.moved))),
              failing, StudentsPath(stage', department'),
              Roster(target + Relocated(plan.moved, stage', department')))
  }

  /** When the two partitions have different files and both saves succeed, loading after
      the move gives the source without exactly the moved names and the target with them
      appended in the target partition; the attendance of every partition is untouched. */
  lemma MoveRosters(files: Files, failing: set<Path>, stage: string, department: string,
                    stage': string, department': string, names: seq<string>, s: string, d: string)
    requires PartitionKey(stage, department) != PartitionKey(stage', department')
    requires StudentsPath(stage, department) !in failing && StudentsPath(stage', department') !in failing
    ensures var after := MoveSaves(files, failing, stage, department, stage', department', names);
      var plan := MovePlan(files, failing, stage, department, stage', department', names);
      && RosterOf(after, stage, department) == WithoutNames(RosterOf(files, stage, department), plan.moved)
      && RosterOf(after, stage', department')
         == RosterOf(files, stage', department') + Relocated(plan.moved, stage', department')
      && AttendanceOf(after, s, d) == AttendanceOf(files, s, d)
  {
    var once := AfterLoad(files, failing, StudentsPath(stage, department), Roster([]));
    RosterLoadKeepsViews(files, failing, stage, department, stage, department);
    RosterLoadKeepsViews(files, failing, stage, department, stage', department');
    RosterLoadKeepsViews(files, failing, stage, department, s, d);
    var loaded := AfterMoveLoads(files, failing, stage, department, stage', department');
    RosterLoadKeepsViews(once, failing, stage', department', stage, department);
    RosterLoadKeepsViews(once, failing, stage', department', stage', department');
    RosterLoadKeepsViews(once, failing, stage', department', s, d);
    var plan := MovePlan(files, failing, stage, department, stage', department', names);
    var source := Roster(WithoutNames(RosterOf(files, stage, department), plan.moved));
    var target := Roster(RosterOf(files, stage', department') + Relocated(plan.moved, stage', department'));
    var saved := AfterSave(loaded, failing, StudentsPath(stage, department), source);
    SaveThenLoad(loaded, failing, stage, department, source.students, map[], map[]);
    OtherPartitionsUnchanged(loaded, failing, stage, department, stage', department', source);
    NamespacesSeparate(loaded, failing, stage, department, s, d, source);
    SaveThenLoad(saved, failing, stage', department', target.students, map[], map[]);
    OtherPartitionsUnchanged(saved, failing, stage', department', stage, department, target);
    NamespacesSeparate(saved, failing, stage', department', s, d, target);
  }

  /** `move_students`. The card registry is edited in place, as the source edits the
      `card_students` dictionary it is given; saving the registry is the caller's job. */
  method MoveStudents(store: Store, registry: CardRegistry, stage: string, department: string,
                      stage': string, department': string, names: seq<string>)
    returns (outcome: MoveOutcome, plan: Plan)
    modifies store, registry
    ensures stage == stage' && department == department' ==>
      && outcome == SamePartition && plan == Plan([], [])
      && store.files == old(store.files) && registry.bindings == old(registry.bindings)
    ensures !(stage == stage' && department == department') ==>
      && plan == MovePlan(old(store.files), store.failing, stage, department, stage', department', names)
      && outcome == Verdict(plan)
      && (plan.moved == [] ==>
            && store.files == AfterMoveLoads(old(store.files), store.failing, stage, department, stage', department')
            && registry.bindings == old(registry.bindings))
      && (plan.moved != [] ==>
            && store.files == MoveSaves(old(store.files), store.failing, stage, department, stage', department', names)
            && registry.bindings == Relocate(old(registry.bindings), plan.moved, stage, department, stage', department'))
  {
    if stage == stage' && department == department' {
      return SamePartition, Plan([], []);
    }
    var source := store.LoadStudents(stage, department);
    var target := store.LoadStudents(stage', department');
    ghost var loaded := store.files;
    ghost var target0 := target;
    ghost var cards0 := registry.bindings;
    var moved: seq<string> := [];
    var skipped: seq<string> := [];
    var targetNames := Names(target);
    var i := 0;
    while i < |names|
      invariant 0 <= i <= |names|
      invariant store.files == loaded
      invariant Plan(moved, skipped) == PlanMove(source, Names(target0), names[..i])
      invariant forall n :: n in targetNames <==> n in Names(target0) || n in moved
      invariant target == target0 + Relocated(moved, stage', department')
      invariant registry.bindings == Relocate(cards0, moved, stage, department, stage', department')
    {
      var name := names[i];
      PlanMoveSnoc(source, Names(target0), names, i);
      var found := FindByName(source, name);
      if found.Some? {
        if name in targetNames {
          skipped := skipped + [name];
        } else {
          RelocatedSnoc(target0, moved, name, stage', department');
          target := target + [Student(name, stage', department')];
          RelocateStep(cards0, moved, name, stage, department, stage', department');
          moved := moved + [name];
          targetNames := targetNames + {name};
          registry.Rebind(name, stage, department, stage', department');
        }
      }
      i := i + 1;
    }
    assert names[..i] == names;
    plan := Plan(moved, skipped);
    if moved == [] {
      outcome := if skipped != [] then AllDuplicates else NothingMoved;
      return;
    }
    var remaining := WithoutNames(source, moved);
    var _ := store.SaveStudents(stage, department, remaining);
    var _ := store.SaveStudents(stage', department', target);
    outcome := Moved(|moved|);
  }
}
