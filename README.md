# Smart-Attendance: the attendance and roster engine, in Dafny

This project models the bookkeeping core of Smart-Attendance. It is a school attendance
program. Students are kept in rosters partitioned by stage and department. Card swipes,
or picks from the search list, toggle each student's daily arrival and departure events.
A swiped card that is not yet known is bound to a student through a short enrollment
dialog. Students can be moved between partitions, which rebinds their cards. A daily
export archives one sheet per partition and then empties every partition's attendance.

The model follows the program's modules:

| Dafny module | file | models |
|---|---|---|
| `Strings` | `strings.dfy` | the `str` operations the code relies on: `strip`, `upper`, `lower`, `replace(" ", "")`, `in` and `join` |
| `Records` | `records.dfy` | the JSON record shapes, the literal kind and label tokens, the stage and department lists, and the `name\|stage\|department` key |
| `Sorting` | `sorting.dfy` | `list.sort(key=...)` by a name key |
| `Storage` | `storage.dfy` | `app/storage.py`: a `Store` object over a map from path to file, with `load_data`, `save_data` and the partition loaders and savers |
| `Logic` | `logic.dfy` | `app/logic.py`: the attendance toggle, the partition search, the move between partitions, and the in-memory card registry the move edits |
| `Reader` | `reader.dfy` | `app/serial_reader.py`: uid normalisation, port detection, and the `CardReader` flags and worker loop |
| `Export` | `export.dfy` | `app/export.py`: the sheet rows and their labels, the archive loop, and the reset that runs only after it |
| `App` | `app.dfy` | the decision logic of the `AttendanceApp` handlers in `app/ui.py` |

State that the source changes in place is modelled imperatively:

- The files are the `files` field of `Storage.Store`.
- The global `card_students` dictionary is the `bindings` field of `Logic.CardRegistry`.
- The reader's flags are fields of `Reader.CardReader`.
- The shared search list of the main window is a field of `App.AttendanceApp`.

The loops of the source are `while` loops, each proved against a specification function.
Examples are `Logic.PlanMove`, `Logic.Relocate`, `Export.SheetRows`, `Export.ArchiveAll`,
`Export.ResetAll` and `Reader.Delivered`. The properties the program relies on are then
proved about those functions as lemmas.

Two ways a file operation can go wrong are modelled explicitly:

- **Writes that fail.** The set `Store.failing` lists the paths whose writes fail, for
  example a folder that cannot be made or a read-only disk.
  - `save_data` returns `False` for such a path.
  - `load_data` of such a missing file leaves it missing.
  - Writing the archive sheet to such a path is the exception that ends the export.
- **Unreadable files.** An `Unreadable` file loads as the default.

`app/ui.py` repeats several functions of the other files:

- `normalize_uid` (`app/ui.py:89-90`), `auto_detect_port` (`app/ui.py:93-100`) and
  `AttendanceApp.record_attendance` (`app/ui.py:728-752`) are copies of the
  `serial_reader.py` and `logic.py` versions. Each is modelled once, by
  `Reader.NormalizeUid`, `Reader.AutoDetectPort` and `Logic.RecordAttendance`.
- The move loop inside `move_selected_students` (`app/ui.py:1233-1263`) makes the same
  decisions as `logic.move_students`. `App.AttendanceApp.MoveSelectedStudents` calls
  `Logic.MoveStudents` and then saves the registry, as the handler does.
- `Reader.CardReader` models the class of `app/serial_reader.py`. The window does not
  use it: `card_mode_worker` (`app/ui.py:487-508`) runs its own copy of the read loop and
  hands each uid to `process_card` through `master.after`. On a port that does not open,
  that copy calls `stop_card_mode` (`app/ui.py:435-438`), which clears only
  `card_mode_running` and leaves `reader_enabled` set. The window's copy of the loop is
  not modelled separately; `App.AttendanceApp.ProcessCard` models what happens to each uid.

## Model

| member | source | states |
|---|---|---|
| `Strings.Strip` | app/serial_reader.py:11 | `strip()`: the result is no longer than the input and neither starts nor ends with whitespace |
| `Strings.StripBlank` | app/ui.py:590-597 | a text strips to nothing exactly when every character is whitespace; this is the blank test of the search, add and register handlers |
| `Strings.StripKeepsFirst` | app/serial_reader.py:11 | a text starting with a character other than whitespace keeps that first character after `strip()` |
| `Strings.StripOfTrimmed` | app/serial_reader.py:11 | stripping a text without leading or trailing whitespace changes nothing |
| `Strings.TrimLeftCutsSpace` | app/serial_reader.py:11 | everything removed at the front is whitespace |
| `Strings.TrimRightCutsSpace` | app/serial_reader.py:11 | everything removed at the back is whitespace |
| `Strings.Upper` | app/serial_reader.py:11 | `upper()` keeps the length and maps each character |
| `Strings.Lower` | app/logic.py:56-57 | `lower()` keeps the length and maps each character |
| `Strings.RemoveChar` | app/serial_reader.py:11 | `replace(" ", "")`: the removed character no longer occurs, and every other character of the input still does |
| `Strings.RemoveCharAppend` | app/serial_reader.py:11 | `replace(" ", "")` keeps the other characters in order: it distributes over concatenation |
| `Strings.RemoveAbsentChar` | app/serial_reader.py:11 | removing a character that does not occur changes nothing |
| `Strings.RemoveCharKeepsEnds` | app/serial_reader.py:11 | when the text starts and ends with other characters, the result is not empty and keeps both end characters |
| `Strings.RemoveCharLast` | app/serial_reader.py:11 | when the text ends with another character, the result is not empty and keeps that last character |
| `Strings.ContainsAt` | app/logic.py:57 | the substring test holds when the needle occurs at some position |
| `Strings.ContainsWitness` | app/logic.py:57 | when the substring test holds, the needle occurs at some position |
| `Strings.Join` | app/export.py:51 | `"\n".join`: empty for no parts, the part itself for one part, and it always starts with the first part |
| `Strings.JoinSnoc` | app/export.py:51 | joining one more part appends the separator and that part, so the parts appear in order with one separator between each two |
| `Strings.IndexOfSplit` | app/storage.py:59 | the first separator of `a + sep + b` is right after `a` when `a` holds none |
| `Strings.SplitAtFirst` | app/storage.py:59 | `a + sep + b` splits uniquely at the separator when neither first part holds it |
| `Records.StudentKeyInjective` | app/logic.py:20 | distinct students get distinct attendance keys when no name or stage holds `\|` |
| `Records.Names` | app/logic.py:76 | the name set of a roster holds exactly the names of its entries |
| `Sorting.LexLeTotal` | app/ui.py:666 | the string order compares any two names |
| `Sorting.LexLeTrans` | app/ui.py:666 | the string order is transitive |
| `Sorting.Insert` | app/ui.py:666 | inserting adds exactly one element and keeps every other one |
| `Sorting.SortBy` | app/export.py:75 | the sort is a permutation of its input |
| `Sorting.InsertSorted` | app/export.py:75 | inserting into a sorted list keeps it sorted |
| `Sorting.SortBySorted` | app/export.py:75 | the sort's result is ordered by the key |
| `Storage.PartitionKeyInjective` | app/storage.py:58-59 | two partitions share a file key only if they are the same partition, provided no stage holds `_` |
| `Storage.StagesHaveNoSeparator` | app/constants.py:5-9 | no fixed stage name holds `_`, so the export's partitions never share a file |
| `Storage.Load` | app/storage.py:27-41 | a missing or unreadable file loads as the default, and a readable one as what it holds |
| `Storage.AfterLoad` | app/storage.py:34-41 | a load creates a missing file holding the default, unless the write fails, and otherwise changes nothing |
| `Storage.AfterSave` | app/storage.py:44-55 | a save makes the file hold the value, unless the write fails, in which case nothing changes |
| `Storage.LoadIsStable` | app/storage.py:34-41 | loading twice gives what loading once gave: the stored default reads back as the default |
| `Storage.MissingLoadsDefault` | app/storage.py:62-65 | a partition never stored loads as the empty roster, the empty attendance and the empty registry |
| `Storage.MissingLoadStoresDefault` | app/storage.py:36-38 | loading a missing file that can be written stores the default there |
| `Storage.SaveThenLoad` | app/storage.py:67-81 | after a successful save, loading the roster, attendance or registry gives back exactly what was saved |
| `Storage.RosterLoadKeepsViews` | app/storage.py:62-65 | loading a roster changes no roster, attendance or registry that a later load returns |
| `Storage.AttendanceLoadKeepsViews` | app/storage.py:73-76 | loading an attendance file changes no roster, attendance or registry that a later load returns |
| `Storage.NamespacesSeparate` | app/storage.py:64-80 | saving or creating a roster never changes any attendance, and the other way round |
| `Storage.OtherPartitionsUnchanged` | app/storage.py:58-81 | writing one partition's file leaves every partition with another key unchanged |
| `Storage.Store.constructor` | app/storage.py:27-55 | a store starts with the given files and the given paths whose writes fail, which `load_data` and `save_data` then consult |
| `Storage.Store.LoadData` | app/storage.py:27-41 | returns `Load` of the old files and leaves the files as `AfterLoad` says |
| `Storage.Store.SaveData` | app/storage.py:44-55 | returns true exactly when the path can be written, and leaves the files as `AfterSave` says |
| `Storage.Store.LoadStudents` | app/storage.py:62-65 | returns the partition's roster from the students folder, creating it as `[]` when missing |
| `Storage.Store.SaveStudents` | app/storage.py:67-70 | saves the roster to the students folder and reports whether the write succeeded |
| `Storage.Store.LoadAttendance` | app/storage.py:73-76 | returns the partition's log from the attendance folder, creating it as `{}` when missing |
| `Storage.Store.SaveAttendance` | app/storage.py:78-81 | saves the log to the attendance folder and reports whether the write succeeded |
| `Storage.Store.SaveCards` | app/serial_reader.py:78-79 | saves the registry to the cards file and reports whether the write succeeded |
| `Logic.NextKind` | app/logic.py:30-37 | an explicit operation is taken as given; otherwise the first event of a day is an arrival, and a later one is a departure exactly when the last event is an arrival, so after any other last kind, an arrival or a token an explicit operation wrote, it is an arrival |
| `Logic.Record` | app/logic.py:20-42 | exactly one event is appended to the day of the key and date, both created when missing; every other key, date and earlier event is unchanged |
| `Logic.AutoRecordsDay` | app/logic.py:30-42 | automatic records on an empty day build exactly the day "arrival, departure, arrival, ..." at the given times |
| `Logic.AutoRecordsAlternate` | app/logic.py:30-35 | repeated automatic records on an empty day strictly alternate, starting with an arrival, and keep the times in order |
| `Logic.RecordEffectView` | app/logic.py:14-44 | after a toggle, the student's partition loads as the old log with the event appended, or as the old log when the save fails; rosters and other partitions are unchanged |
| `Logic.RecordAttendance` | app/logic.py:14-44 | the store after the toggle is the loaded file saved with one event appended as `Record` says; the flag reports the save |
| `Logic.Matching` | app/logic.py:57 | the filter keeps exactly the entries whose lower-cased name contains the lower-cased text |
| `Logic.MatchingCounts` | app/logic.py:57 | the filter keeps each matching entry as often as the roster holds it and drops every other one |
| `Logic.MatchingAppend` | app/logic.py:57 | the filter preserves order: it distributes over concatenation |
| `Logic.Search` | app/logic.py:50-57 | empty text returns the roster unchanged; any other text returns the filtered roster |
| `Logic.EmptyTextMatchesAll` | app/logic.py:53-54 | the early return for empty text gives what the filter would have given |
| `Logic.SearchStudents` | app/logic.py:50-57 | returns `Search` of the loaded roster; the only write is the load's creation of a missing file |
| `Logic.FilterByName` | app/ui.py:604-607 | the comprehension as a loop returns exactly the filtered roster |
| `Logic.FindByName` | app/logic.py:79-83 | finds a student with the name exactly when the roster holds the name, and the one found is in the roster |
| `Logic.Relocate` | app/logic.py:99-106 | rebinding keeps every card and every bound name, and changes only the partition |
| `Logic.RelocateStep` | app/logic.py:99-106 | the rebinding for one more moved name extends the rebinding for the earlier ones |
| `Logic.RelocatedLookup` | app/logic.py:99-106 | a card bound to `(name, source)` for a moved name now names the target partition, and every other card is unchanged |
| `Logic.CardRegistry.constructor` | app/ui.py:117 | the registry starts with the loaded bindings |
| `Logic.CardRegistry.Bind` | app/ui.py:975 | binding a card overwrites any earlier binding of that uid and nothing else |
| `Logic.CardRegistry.Rebind` | app/logic.py:99-106 | the loop over the registry rebinds every card bound to exactly `(name, source)` and no other card |
| `Logic.PlanMoveFacts` | app/logic.py:76-96 | moved names were requested, are in the source, were not in the target and are unique; skipped names are in the source and were in the target or already moved; every requested name in the source is moved or skipped |
| `Logic.Relocated` | app/logic.py:90-94 | each moved name becomes an entry of the target partition |
| `Logic.MoveKeepsTargetUnique` | app/logic.py:85-96 | a move never gives a target without repeated names a second entry with the same name |
| `Logic.WithoutNames` | app/logic.py:113 | the new source keeps, with their counts, exactly the entries whose name was not moved |
| `Logic.MoveRosters` | app/logic.py:113-118 | after a move between partitions with different files, when both saves succeed, the source loses exactly the moved names and the target gains them appended with the target partition; no attendance changes |
| `Logic.MoveStudents` | app/logic.py:60-121 | a same-partition move changes nothing; otherwise the plan is `PlanMove` of the loaded rosters, the verdict follows it, nothing is saved when nothing moved, and the store and registry end as `MoveSaves` and `Relocate` say |
| `Reader.NormalizeUid` | app/serial_reader.py:10-11 | the normalised uid holds no space, neither starts nor ends with whitespace, and is not empty when the input starts with a character other than whitespace |
| `Reader.NormalizeBlank` | app/serial_reader.py:10-11 | a uid normalises to nothing exactly when it is all whitespace |
| `Reader.NormalizedEnds` | app/serial_reader.py:11 | on a stripped text, upper-casing and removing spaces keeps the ends free of whitespace and leaves something exactly when there was something |
| `Reader.UpperKeepsSpace` | app/serial_reader.py:11 | upper-casing neither creates nor removes whitespace |
| `Reader.NormalizeIdempotent` | app/serial_reader.py:10-11 | normalising twice gives what normalising once gives |
| `Reader.AutoDetectPort` | app/serial_reader.py:14-23 | nothing exactly when there is no port; otherwise the first port naming a known adapter, and the first port when none does |
| `Reader.LineUidsWellFormed` | app/serial_reader.py:63-66 | one line hands over at most one uid, never empty and never holding a space |
| `Reader.DeliveredWellFormed` | app/serial_reader.py:60-69 | the uids of a trace are no more than its passes, each non-empty and without spaces |
| `Reader.DeliveredAppend` | app/serial_reader.py:60-69 | a trace that keeps running delivers its uids in arrival order, followed by those of what comes after it |
| `Reader.DeliveredShift` | app/serial_reader.py:60-69 | what a trace delivers from a position depends only on the passes from that position on |
| `Reader.DeliveredFromAppend` | app/serial_reader.py:60-69 | from any position where the trace keeps running, the delivered uids split over concatenation |
| `Reader.CardReader.constructor` | app/serial_reader.py:26-33 | a new reader has both flags false and no open handle |
| `Reader.CardReader.Start` | app/serial_reader.py:35-45 | does nothing when already running, and otherwise sets both flags |
| `Reader.CardReader.Stop` | app/serial_reader.py:47-51 | from any state, clears both flags and closes the handle |
| `Reader.CardReader.Worker` | app/serial_reader.py:53-72 | a port that does not open stops the reader and delivers nothing; otherwise each non-blank line is delivered once, normalised and in order, until a stop or a read error; a stop clears the flags, an error only closes the handle |
| `Export.TimesOf` | app/export.py:43-48 | the times of one kind are no more than the events, and empty exactly when no event has that kind |
| `Export.TimesOfAppend` | app/export.py:43-48 | the times of a longer day are those of the earlier events followed by those of the later ones |
| `Export.ArrivalCell` | app/export.py:50-53 | the arrival times one per line, or absent when there is no arrival |
| `Export.DepartureCell` | app/export.py:54-58 | the departure times one per line; without a departure, absent when there was no arrival either and not departed after an arrival |
| `Export.AutomaticDayCells` | app/export.py:50-58 | on a day built by the toggle alone: nothing recorded shows absent twice, one arrival shows not departed, and from two events on both cells list times |
| `Export.StudentRow` | app/export.py:36-72 | a row carries the student's name, the exported partition, the date and empty notes; a student without a day today is absent twice, and any other has the cells of that day |
| `Export.DraftRows` | app/export.py:35-72 | one row per roster student, in roster order, numbered by position |
| `Export.Renumbered` | app/export.py:76-77 | every row keeps its fields and gets its position as its number |
| `Export.SheetShape` | app/export.py:35-77 | the sheet has one row per roster student, numbered `1..n` in order, sorted by name, each carrying the partition and the date |
| `Export.SheetRowOf` | app/export.py:35-77 | every roster student has a row in the sheet with that student's cells |
| `Export.SheetRowFrom` | app/export.py:35-77 | every row of the sheet is the row of some roster student |
| `Export.DraftSheet` | app/export.py:33-72 | the student loop builds exactly the draft rows |
| `Export.NumberInOrder` | app/export.py:76-77 | the renumbering loop gives exactly the renumbered rows |
| `Export.BuildSheet` | app/export.py:33-77 | the rows written for a partition are exactly the sheet: drafted, sorted by name, then renumbered |
| `Export.ArchivePartition` | app/export.py:27-173 | one pass loads the roster and attendance, writes nothing more for an empty roster, and otherwise writes the sheet, failing exactly when the write fails |
| `Export.PairsCover` | app/export.py:24-25 | the loop visits a partition exactly when its stage and department are in the lists |
| `Export.StagePairsCover` | app/export.py:25 | the inner loop visits exactly the departments of the list for its stage |
| `Export.ArchivePassKeepsViews` | app/export.py:27-173 | a pass changes no roster, attendance or registry that a later load returns |
| `Export.RecordWriteKeepsViews` | app/export.py:173 | writing an archive sheet changes no roster, attendance or registry |
| `Export.ArchiveKeepsViews` | app/export.py:24-173 | the whole archive loop changes no roster, attendance or registry |
| `Export.ArchiveAllStep` | app/export.py:24-173 | the loop over a list is one pass followed by the loop over the rest, unless that pass raised |
| `Export.ArchiveAllAppend` | app/export.py:24-25 | the loop over two lists is the loop over the first, then, unless it stopped, the loop over the second |
| `Export.ResetAllAppend` | app/export.py:175-177 | the reset over two lists is the reset over the first and then the reset over the second |
| `Export.ArchiveStage` | app/export.py:25-173 | the inner loop over one stage's departments ends as `ArchiveAll` over that stage's partitions says |
| `Export.ArchiveLoop` | app/export.py:24-173 | the archive loop ends as `ArchiveAll` over every partition says, stopping at the first sheet that cannot be written |
| `Export.ExportData` | app/export.py:20-186 | the outcome and the files are those of the archive loop, followed by the reset only if the archive loop completed |
| `Export.ResetStage` | app/export.py:176-177 | the inner reset loop saves `{}` as the attendance of each department of its stage |
| `Export.ResetAttendance` | app/export.py:175-177 | the reset loop saves `{}` as every partition's attendance and goes on past failed saves |
| `Export.ResetsPathStep` | app/export.py:175-177 | the reset over a list saves to a file when its first partition or the rest of the list does |
| `Export.ResetOneAttendance` | app/export.py:177 | one reset save empties that partition's attendance if the save succeeds, and leaves every other log unchanged |
| `Export.ResetAttendanceResult` | app/export.py:175-177 | after the reset loop, a partition's attendance is `{}` when the loop saved to its file and the save succeeded, and otherwise what it was |
| `Export.ResetOneKeepsOthers` | app/export.py:177 | one reset save changes no roster, the registry, or any file other than an attendance file |
| `Export.ResetKeepsOthers` | app/export.py:175-177 | the reset loop changes no roster, the registry, or any file other than an attendance file |
| `Export.ArchiveOutcome` | app/export.py:24-173 | the archive loop completes exactly when every partition's sheet can be written; when it stops, it names a partition with students whose sheet cannot be written |
| `Export.ArchivePassSheet` | app/export.py:30-173 | a pass that did not raise writes its partition's sheet when the roster has students, and changes no other archive file |
| `Export.ArchiveSheets` | app/export.py:24-173 | after a completed archive loop, each partition with students holds its sheet for the date, and every other archive file is unchanged |
| `Export.ExportAbortKeepsAttendance` | app/export.py:181-186 | an export that fails part-way resets nothing: every attendance, roster and card binding is as it was |
| `Export.ExportResetsAttendance` | app/export.py:175-177 | a completed export leaves every stage-by-department partition with `{}` attendance unless that save failed, whether or not it had students; it changes no roster and no card binding |
| `Export.PairsReset` | app/export.py:175-177 | the reset saves to every partition of the stage and department lists |
| `Export.ExportWritesSheets` | app/export.py:24-177 | a completed export leaves each partition with students holding the sheet built from its starting roster and attendance, and changes no other archive file |
| `Export.PairsOutcome` | app/export.py:24-173 | over any stage and department lists, the archive loop completes exactly when no partition with students has a sheet that cannot be written, and a stop names such a partition |
| `Export.ExportOutcomeCases` | app/export.py:20-186 | an export completes exactly when no partition with students has a sheet that cannot be written, and a failed export names such a partition |
| `App.AddToRoster` | app/ui.py:664-666 | adding appends exactly one entry and keeps all the others |
| `App.AddToRosterFacts` | app/ui.py:664-666 | after adding, the roster is sorted by name and holds exactly the old names plus the new one, and it stays without repeated names when the name was new |
| `App.PermutationHasName` | app/ui.py:666 | re-sorting keeps every name |
| `App.UniqueCount` | app/ui.py:659-662 | a roster without repeated names holds no entry twice |
| `App.UniquePermutation` | app/ui.py:666 | re-sorting a roster without repeated names keeps it so |
| `App.ExactMatches` | app/ui.py:714 | the exact matches are the entries whose name equals the text, ignoring case, and are no more than the roster |
| `App.ExactMatchesCounts` | app/ui.py:714-724 | the exact matches hold each entry whose name equals the text, ignoring case, as often as the roster does, and no other entry; this is what the handler's none, one or several test counts |
| `App.ExactMatchesAppend` | app/ui.py:714 | the exact matches keep roster order: they distribute over concatenation |
| `App.ExactMatchesAreMatches` | app/ui.py:714 | an exact match is also a match of the search box |
| `App.EnrolledStudent` | app/ui.py:962-973 | declining or choosing no option gives no student; otherwise the student is what the chosen dialog returned |
| `App.EnrollRosterKeeps` | app/ui.py:977-987 | the roster step of an enrollment changes neither the registry nor the attendance |
| `App.EnrollRosterHasName` | app/ui.py:977-987 | after the roster step the name is in the partition when it was there already or the save succeeds |
| `App.OtherWriteKeepsCards` | app/ui.py:977-996 | writing or creating any file other than the registry leaves the registry unchanged |
| `App.RecordKeepsCards` | app/ui.py:996 | recording an event leaves the registry unchanged |
| `App.CardsWriteKeepsPartitions` | app/ui.py:976 | saving the registry changes no roster and no attendance |
| `App.EnrollEffectView` | app/ui.py:975-996 | after a completed enrollment whose registry save succeeded, the registry holds the new binding, the partition holds the name when it was there or its save succeeded, and the attendance has the automatic event appended |
| `App.MoveCardsView` | app/ui.py:1267 | after a move that moved someone and a successful registry save, the saved registry is the relocated one |
| `App.ViewDepartureCell` | app/ui.py:395-398 | the records view shows the departure times, and not departed when there is none |
| `App.ViewDepartureAgreesWithSheet` | app/ui.py:397-398 | the view and the sheet show the same departure cell, except on a day with neither kind of event, which the sheet marks absent and the view not departed |
| `App.AttendanceApp.constructor` | app/ui.py:129-305 | the window starts with the given store and registry and an empty search list |
| `App.AttendanceApp.SearchStudent` | app/ui.py:589-613 | the search list becomes `Search` of the partition for the stripped text; only the load writes |
| `App.AttendanceApp.SaveStudent` | app/ui.py:648-668 | a blank name changes nothing; a name already in the partition is rejected after the load; otherwise the roster is saved with the student added and re-sorted, and the result reports the save |
| `App.AttendanceApp.DirectRegister` | app/ui.py:697-726 | a valid pick records for that student; otherwise blank text does nothing, and a name with zero or several exact matches records nothing, while exactly one match records one event for it |
| `App.AttendanceApp.ProcessCard` | app/ui.py:952-996 | a known card records for its bound student and changes no binding; an abandoned enrollment writes nothing; a completed one binds the card, stops if the registry save fails, and otherwise adds the student only if absent and records one event |
| `App.AttendanceApp.MoveSelectedStudents` | app/ui.py:1210-1285 | a same-partition move, an empty selection or a refusal changes nothing; a confirmed move ends as `MoveStudents` says, plus the registry save when something moved |

## Left out

- The Tkinter windows, widgets, message boxes and clock of `app/ui.py` are left out. The dialogs' answers are parameters (`App.Enrollment`, the pick, the ticked names, the confirmation).
- The loads that the enrollment and move dialogs make to fill their lists are left out: `prompt_for_existing_name`, `prompt_for_new_name` and `move_students` (the dialog's own). Those loads can create missing roster files.
- The duplicate check inside `prompt_for_new_name` is left out: its answer is a parameter. `ProcessCard` still adds the student only when the name is absent.
- `App.ViewDepartureCell` models only the labels of `update_records_display`. Splitting the key back into name, stage and department, and the order of the rows, are left out.
- Drawing the spreadsheet with pandas and openpyxl (`app/export.py:79-173`) is left out. An archive file holds the sheet's rows, and the one way it can fail is that its path cannot be written.
- Absence counting from the archived sheets (`app/logic.py:124-148`, `app/ui.py:998-1107`) is left out. It reads `.xlsx` files through pandas.
- Threads are left out: the reader thread, the export thread, `master.after` and `time.sleep`. `Reader.CardReader.Worker` sees a trace of polls. The other thread's `stop()` is a `StopRequested` poll, and it takes effect once the loop has seen it.
- pyserial is left out. A port is a device and a description, and a line read is a `Line` poll.
- `datetime.now()` is left out. The date and the time are parameters.
- JSON encoding, the real filesystem and folder creation are left out. The files are a map, and failing writes are a fixed set of paths.
- The seeding of fake students, the editable `stages.json` file with `manage_departments`, and module initialisation are left out. The export walks the fixed stage and department lists.
- The `all_students` cache refreshes and the screen refreshes after a change are left out. They only feed the display.
- A move's three saves are not atomic in the source, and the model does not add atomicity. `Logic.MoveRosters` describes the case where both roster saves succeed. The store after any mix of failures is still stated exactly by `Logic.MoveStudents`.
- `Strings.Upper`, `Strings.Lower`: these map only the ASCII letters. Python's case mapping of other scripts is left out. The Arabic names the program stores have no case.
- `Sorting.SortBy`: the contracts state a permutation that is sorted. They do not state that equal names keep their relative order.
- `logic.record_attendance` returns nothing and `AttendanceApp.record_attendance` refreshes the view. `Logic.RecordAttendance` returns the save's result instead; no caller uses it.
- A readable file of the wrong JSON shape, such as a roster that is not a list of
  records, loads as the default in the model (`Storage.RosterOf`, `Storage.AttendanceOf`,
  `Storage.CardsOf`). In the source `load_data` returns it, and the caller raises later;
  in the export, `student['name']` then raises and the export ends before the reset.
  That failure path is left out.
- A `ReadError` poll of `Reader.CardReader.Worker` also stands for a line that is not
  valid UTF-8 and for a callback that raises. The source's loop ends on those too, but
  in the callback case only after the uid was handed over; the model does not deliver
  the uid of a `ReadError` poll.
- `Logic.MoveStudents` returns the outcome and the plan instead of the source's message strings.
