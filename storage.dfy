/** The partition-keyed store of app/storage.py. The files on disk are a map from path
    to entry; the JSON documents are the `Value` datatype. Writes to a path in
    `failing` fail (a missing folder that cannot be made, a read-only disk): that is
    the environment, fixed for the life of the store. */
module Storage {
  import opened Records

  /** `get_stage_department_path`: the file name stem of a partition. */
  function PartitionKey(stage: string, department: string): string {
    stage + "_" + department
  }

  /** Distinct partitions get distinct keys when no stage name contains `_`. */
  lemma PartitionKeyInjective(stage: string, department: string, stage': string, department': string)
    requires '_' !in stage && '_' !in stage'
    requires PartitionKey(stage, department) == PartitionKey(stage', department')
    ensures stage == stage' && department == department'
  {
    assert PartitionKey(stage, department) == stage + ['_'] + department;
    assert PartitionKey(stage', department') == stage' + ['_'] + department';
    Strings.SplitAtFirst(stage, department, stage', department', '_');
  }

  /** The fixed stage names hold no `_`, so the partitions of an export never share a file. */
  lemma StagesHaveNoSeparator()
    ensures forall i :: 0 <= i < |STAGES| ==> '_' !in STAGES[i]
  {
  }

  /** The files of the store: the students folder and the attendance folder (one file per
      partition key each), the card registry, and the exported day sheets. */
  datatype Path =
    | StudentsFile(key: string)
    | AttendanceFile(key: string)
    | CardsFile
    | RecordFile(stage: string, department: string, date: string)

  /** A JSON document as the engine uses it. */
  datatype Value =
    | Roster(students: seq<Student>)
    | Attendance(log: AttendanceLog)
    | Cards(cards: CardMap)
    | Sheet(rows: seq<Row>)

  /** A file on disk: a readable document, or one that does not parse. */
  datatype Entry = Stored(value: Value) | Unreadable

  type Files = map<Path, Entry>

  function StudentsPath(stage: string, department: string): Path {
    StudentsFile(PartitionKey(stage, department))
  }

  function AttendancePath(stage: string, department: string): Path {
    AttendanceFile(PartitionKey(stage, department))
  }

  /** What `load_data(path, default)` returns: the stored document, or the default when
      the file is missing or unreadable. */
  function Load(files: Files, path: Path, default: Value): (v: Value)
    ensures path !in files ==> v == default
    ensures path in files && files[path].Unreadable? ==> v == default
    ensures path in files && files[path].Stored? ==> v == files[path].value
  {
    if path in files && files[path].Stored? then files[path].value else default
  }

  /** The files after `load_data(path, default)`: a missing file is created holding the
      default, unless the write fails; an existing one, readable or not, is left alone. */
  function AfterLoad(files: Files, failing: set<Path>, path: Path, default: Value): (r: Files)
    ensures path !in files && path !in failing ==> r == files[path := Stored(default)]
    ensures path in files || path in failing ==> r == files
  {
    if path in files || path in failing then files else files[path := Stored(default)]
  }

  /** The files after `save_data(path, v)`: the file holds `v`, unless the write fails. */
  function AfterSave(files: Files, failing: set<Path>, path: Path, v: Value): (r: Files)
    ensures path !in failing ==> r == files[path := Stored(v)]
    ensures path in failing ==> r == files
  {
    if path in failing then files else files[path := Stored(v)]
  }

  /** The roster `load_stage_department_students` returns. */
  function RosterOf(files: Files, stage: string, department: string): seq<Student> {
    match Load(files, StudentsPath(stage, department), Roster([]))
    case Roster(s) => s
    case _ => []
  }

  /** The attendance log `load_stage_department_attendance` returns. */
  function AttendanceOf(files: Files, stage: string, department: string): AttendanceLog {
    match Load(files, AttendancePath(stage, department), Attendance(map[]))
    case Attendance(log) => log
    case _ => map[]
  }

  /** The card registry `get_card_students` returns. */
  function CardsOf(files: Files): CardMap {
    match Load(files, CardsFile, Cards(map[]))
    case Cards(c) => c
    case _ => map[]
  }

  /** A later load sees what an earlier load returned: loading never changes the answer. */
  lemma LoadIsStable(files: Files, failing: set<Path>, path: Path, default: Value)
    ensures Load(AfterLoad(files, failing, path, default), path, default) == Load(files, path, default)
  {
  }

  /** Loading a file never written returns the default: `[]` for a roster, `{}` for
      attendance and for the card registry. */
  lemma MissingLoadsDefault(files: Files, stage: string, department: string)
    requires StudentsPath(stage, department) !in files
    requires AttendancePath(stage, department) !in files
    requires CardsFile !in files
    ensures RosterOf(files, stage, department) == []
    ensures AttendanceOf(files, stage, department) == map[]
    ensures CardsOf(files) == map[]
  {
  }

  /** Loading a missing file stores the default when the write succeeds, so the file now
      exists and holds exactly the default. */
  lemma MissingLoadStoresDefault(files: Files, failing: set<Path>, path: Path, default: Value)
    requires path !in files && path !in failing
    ensures path in AfterLoad(files, failing, path, default)
    ensures AfterLoad(files, failing, path, default)[path] == Stored(default)
  {
  }

  /** Save then load gives back the saved roster, attendance log or registry. */
  lemma SaveThenLoad(files: Files, failing: set<Path>, stage: string, department: string,
                     students: seq<Student>, log: AttendanceLog, cards: CardMap)
    ensures StudentsPath(stage, department) !in failing ==>
      RosterOf(AfterSave(files, failing, StudentsPath(stage, department), Roster(students)), stage, department) == students
    ensures AttendancePath(stage, department) !in failing ==>
      AttendanceOf(AfterSave(files, failing, AttendancePath(stage, department), Attendance(log)), stage, department) == log
    ensures CardsFile !in failing ==>
      CardsOf(AfterSave(files, failing, CardsFile, Cards(cards))) == cards
  {
  }

  /** Loading a roster file with the default `[]` changes what no later load returns:
      a file it creates reads back as the `[]` that its absence read as. */
  lemma RosterLoadKeepsViews(files: Files, failing: set<Path>, stage: string, department: string,
                             s: string, d: string)
    ensures var r := AfterLoad(files, failing, StudentsPath(stage, department), Roster([]));
      && RosterOf(r, s, d) == RosterOf(files, s, d)
      && AttendanceOf(r, s, d) == AttendanceOf(files, s, d)
      && CardsOf(r) == CardsOf(files)
  {
  }

  /** Loading an attendance file with the default `{}` changes what no later load returns. */
  lemma AttendanceLoadKeepsViews(files: Files, failing: set<Path>, stage: string, department: string,
                                 s: string, d: string)
    ensures var r := AfterLoad(files, failing, AttendancePath(stage, department), Attendance(map[]));
      && RosterOf(r, s, d) == RosterOf(files, s, d)
      && AttendanceOf(r, s, d) == AttendanceOf(files, s, d)
      && CardsOf(r) == CardsOf(files)
  {
  }

  /** Rosters and attendance live in separate folders: saving or creating a roster file
      never changes any partition's attendance, and the other way round. */
  lemma NamespacesSeparate(files: Files, failing: set<Path>, stage: string, department: string,
                           stage': string, department': string, v: Value)
    ensures AttendanceOf(AfterSave(files, failing, StudentsPath(stage, department), v), stage', department')
         == AttendanceOf(files, stage', department')
    ensures AttendanceOf(AfterLoad(files, failing, StudentsPath(stage, department), v), stage', department')
         == AttendanceOf(files, stage', department')
    ensures RosterOf(AfterSave(files, failing, AttendancePath(stage, department), v), stage', department')
         == RosterOf(files, stage', department')
    ensures RosterOf(AfterLoad(files, failing, AttendancePath(stage, department), v), stage', department')
         == RosterOf(files, stage', department')
  {
  }

  /** Writing one partition's file leaves every partition with a different key alone. */
  lemma OtherPartitionsUnchanged(files: Files, failing: set<Path>, stage: string, department: string,
                                 stage': string, department': string, v: Value)
    requires PartitionKey(stage, department) != PartitionKey(stage', department')
    ensures RosterOf(AfterSave(files, failing, StudentsPath(stage, department), v), stage', department')
         == RosterOf(files, stage', department')
    ensures AttendanceOf(AfterSave(files, failing, AttendancePath(stage, department), v), stage', department')
         == AttendanceOf(files, stage', department')
  {
  }

  /** The files of the program, with the paths whose writes fail. */
  class Store {
    var files: Files
    const failing: set<Path>

    constructor (files0: Files, failing0: set<Path>)
      ensures files == files0 && failing == failing0
    {
      files := files0;
      failing := failing0;
    }

    /** `load_data`. */
    method LoadData(path: Path, default: Value) returns (v: Value)
      modifies this
      ensures v == Load(old(files), path, default)
      ensures files == AfterLoad(old(files), failing, path, default)
    {
      if path in files {
        match files[path]
        case Stored(x) => v := x;
        case Unreadable => v := default;
      } else {
        v := default;
        if path !in failing {
          files := files[path := Stored(default)];
        }
      }
    }

    /** `save_data`: true exactly when the write succeeded. */
    method SaveData(path: Path, v: Value) returns (ok: bool)
      modifies this
      ensures ok == (path !in failing)
      ensures files == AfterSave(old(files), failing, path, v)
    {
      ok := path !in failing;
      if ok {
        files := files[path := Stored(v)];
      }
    }

    /** `load_stage_department_students`. */
    method LoadStudents(stage: string, department: string) returns (students: seq<Student>)
      modifies this
      ensures students == RosterOf(old(files), stage, department)
      ensures files == AfterLoad(old(files), failing, StudentsPath(stage, department), Roster([]))
    {
      var v := LoadData(StudentsPath(stage, department), Roster([]));
      students := if v.Roster? then v.students else [];
    }

    /** `save_stage_department_students`. */
    method SaveStudents(stage: string, department: string, students: seq<Student>) returns (ok: bool)
      modifies this
      ensures ok == (StudentsPath(stage, department) !in failing)
      ensures files == AfterSave(old(files), failing, StudentsPath(stage, department), Roster(students))
    {
      ok := SaveData(StudentsPath(stage, department), Roster(students));
    }

    /** `load_stage_department_attendance`. */
    method LoadAttendance(stage: string, department: string) returns (log: AttendanceLog)
      modifies this
      ensures log == AttendanceOf(old(files), stage, department)
      ensures files == AfterLoad(old(files), failing, AttendancePath(stage, department), Attendance(map[]))
    {
      var v := LoadData(AttendancePath(stage, department), Attendance(map[]));
      log := if v.Attendance? then v.log else map[];
    }

    /** `save_stage_department_attendance`. */
    method SaveAttendance(stage: string, department: string, log: AttendanceLog) returns (ok: bool)
      modifies this
      ensures ok == (AttendancePath(stage, department) !in failing)
      ensures files == AfterSave(old(files), failing, AttendancePath(stage, department), Attendance(log))
    {
      ok := SaveData(AttendancePath(stage, department), Attendance(log));
    }

    /** `save_card_students` / `save_data(CARDS_FILE, ...)`. */
    method SaveCards(cards: CardMap) returns (ok: bool)
      modifies this
      ensures ok == (CardsFile !in failing)
      ensures files == AfterSave(old(files), failing, CardsFile, Cards(cards))
    {
      ok := SaveData(CardsFile, Cards(cards));
    }
  }
}
