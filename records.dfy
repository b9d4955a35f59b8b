/** The shapes of the JSON records the engine stores, the literal tokens it writes, and
    the fixed stage and department lists of app/constants.py. */
module Records {
  import opened Strings

  /** An optional value: Python's `None` or a value. */
  datatype Option<T> = None | Some(value: T)

  /** A roster entry, and also the identity snapshot a card is bound to. */
  datatype Student = Student(name: string, stage: string, department: string)

  /** One attendance event: `{"type": kind, "time": time}`. The kind is a free string:
      the automatic rule only ever writes `ARRIVAL` or `DEPARTURE`, but an explicit
      operation is stored as given. */
  datatype Event = Event(kind: string, time: string)

  /** The events of one student on one date, in the order they were recorded. */
  type Day = seq<Event>

  /** ISO date string to that day's events. */
  type History = map<string, Day>

  /** A partition's attendance file: student key to history. */
  type AttendanceLog = map<string, History>

  /** The card registry: normalised card identifier to bound student. */
  type CardMap = map<string, Student>

  /** One exported archive row (the eight sheet columns). */
  datatype Row = Row(number: nat, name: string, stage: string, department: string,
                     date: string, arrival: string, departure: string, notes: string)

  /** The kind token of an arrival. */
  const ARRIVAL: string := "حضور"
  /** The kind token of a departure. */
  const DEPARTURE: string := "انصراف"
  /** The label of a missing arrival (and of a missing departure when nothing was recorded). */
  const ABSENT: string := "غياب"
  /** The label of a missing departure after an arrival. */
  const NOT_DEPARTED: string := "لم ينصرف"

  /** The stages every export walks over, in order. */
  const STAGES: seq<string> := ["مرحلة أولى", "مرحلة ثانية", "مرحلة ثالثة"]

  /** The departments every export walks over, in order. */
  const DEPARTMENTS: seq<string> :=
    ["تجميع", "كهرباء", "ديكور", "مكننة", "سباكة", "زراعي", "اجهزة طبية", "تجاري"]

  /** The attendance key of a student: `name|stage|department`. */
  function StudentKey(s: Student): string {
    s.name + "|" + s.stage + "|" + s.department
  }

  /** Distinct students have distinct keys as long as neither name nor stage contains
      the separator `|`. */
  lemma StudentKeyInjective(s: Student, t: Student)
    requires '|' !in s.name && '|' !in s.stage && '|' !in t.name && '|' !in t.stage
    requires StudentKey(s) == StudentKey(t)
    ensures s == t
  {
    assert StudentKey(s) == s.name + ['|'] + (s.stage + "|" + s.department);
    assert StudentKey(t) == t.name + ['|'] + (t.stage + "|" + t.department);
    SplitAtFirst(s.name, s.stage + "|" + s.department, t.name, t.stage + "|" + t.department, '|');
    assert s.stage + "|" + s.department == s.stage + ['|'] + s.department;
    assert t.stage + "|" + t.department == t.stage + ['|'] + t.department;
    SplitAtFirst(s.stage, s.department, t.stage, t.department, '|');
  }

  /** A roster holds the name. */
  predicate HasName(students: seq<Student>, name: string) {
    exists i :: 0 <= i < |students| && students[i].name == name
  }

  /** The set of names in a roster. */
  function Names(students: seq<Student>): (r: set<string>)
    ensures forall n :: n in r <==> HasName(students, n)
  {
    set i | 0 <= i < |students| :: students[i].name
  }

  /** No two roster entries share a name. */
  predicate UniqueNames(students: seq<Student>) {
    forall i, j :: 0 <= i < j < |students| ==> students[i].name != students[j].name
  }
}
