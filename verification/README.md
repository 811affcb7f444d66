# Teacher-management record layer in Dafny

This project models the record layer of a small teacher-management tool
written in Java. The layer has three parts:

- **Entities.** `Teacher` is a five-field record. `TrainingSession` keeps a
  list of participating teacher ids. `TeachingRequirement` derives its
  status from the list of teachers assigned to it.
- **Keyed repositories.**
  - `dao/impl/FileTeacherDAO.java` is the teacher store the application
    wires in. It is a map from id to teacher.
  - `dao/impl/TeacherDAOImpl.java` is a list-backed teacher store.
  - `model/FileTeacherDAO.java` is an earlier JSON-backed draft.
  - `dao/FileTrainingSessionDAO.java` is an in-memory session map.
  - The two repository interfaces `TeacherDAO` and `TeachingRequirementDAO`.
- **Use-case controllers.** The administrator's controller manages teachers.
  The class director's controller manages teaching requirements.

Each entity class is a Dafny `class` with the same fields. Its setters
are methods with `modifies` clauses. Each entity also has a `View()`
function returning its value as a datatype, so setter contracts can say
"the new value is the old value with one field replaced". For
`TeachingRequirement`, every mutator is also an `Edit` value, and `Apply`
gives its effect on a record. Lemmas over sequences of edits
(`ApplyAll`) state the invariants: the identity is permanent, the status
stays derived, and the assignments stay distinct.

Repositories store object references (`map<int32, Teacher>`,
`seq<Teacher>`, `map<string, TeachingRequirement>`). So the controllers'
fetch–mutate–update pattern aliases the stored object, as in Java: the
edit is visible in the store even when the later flush fails.

The environment becomes parameters:

- A write to the data file is the boolean `flushOk`, saying whether the
  write succeeded.
- A data file read back is a `Snapshot`: no file, an unreadable file, a
  stored object that is not a list, or a list of entries. Each entry is a
  teacher, a foreign object or null.
- Random UUIDs are the parameter `id`. Clock readings are the parameter
  `now`.

`HashMap.values()` copies are specified as bags (`multiset`), since
`HashMap` leaves their order unspecified.

Java interfaces become ghost predicates. `TeacherDaoContract` and the
predicates of `RequirementDao` relate the map before a call, the map after
it and the result. Every store method ensures the predicate of its
interface operation.

The stores do not all behave alike, and the model keeps their differences:

- `save` in both map-backed teacher stores (`dao/impl/FileTeacherDAO.java`
  and `model/FileTeacherDAO.java`) overwrites an existing id; only the
  list-backed store rejects one.
- `updateTrainingSession` and `deleteTrainingSession` throw
  `NoSuchElementException` for a missing id, while the teacher stores answer
  `false`.
- `ClassDirectorController.updateRequirement` overrides the course name and
  code only when they are non-blank, but schedule, location, qualifications
  and notes whenever the argument is non-null, even when it is empty.
- `loadAll` of `dao/impl/FileTeacherDAO.java` reports success for a list
  even when it skipped foreign entries or entries with id 0.
- `new TeacherDAOImpl(...)` lets the `ClassCastException` of its `loadAll`
  escape when the stored object is not a list, so no store is created.

## Model

| member | source | states |
|---|---|---|
| Ints.ParseInt | dao/impl/FileTeacherDAO.java:140 | `Integer.parseInt`: a 32-bit value only for a non-empty string starting with a sign or a digit; one starting with a digit gives a non-negative value |
| Ints.NatDigitsValue | dao/impl/FileTeacherDAO.java:140 | reading back the decimal digits of a natural number gives that number |
| Ints.ParseIntDecimalString | dao/impl/FileTeacherDAO.java:140 | parsing the decimal form of any int gives that int back |
| Strings.TrimStart | controller/ClassDirectorController.java:48-49 | the leading characters removed are exactly those at or below U+0020, and the result does not start with one |
| Strings.TrimEnd | controller/ClassDirectorController.java:48-49 | the trailing characters removed are exactly those at or below U+0020, and the result does not end with one |
| Strings.Trim | controller/ClassDirectorController.java:48-49 | `trim()` leaves neither end at or below U+0020 |
| Strings.BlankIffAllTrimmed | controller/ClassDirectorController.java:48-49 | `s.trim().isEmpty()` holds exactly when every character is at or below U+0020 |
| Strings.LowerChar | controller/AdminController.java:75 | upper-case ASCII letters map to lower-case ones; every other character is kept |
| Strings.ToLower | controller/AdminController.java:75 | `toLowerCase()` keeps the length and leaves no upper-case ASCII letter |
| Strings.LowerKeepsBlank | controller/ClassDirectorController.java:173-177 | lower-casing a string neither makes it blank nor stops it being blank |
| Strings.ContainsIffOccurs | controller/AdminController.java:75 | `contains` holds exactly when the keyword occurs at some position |
| Strings.ContainsEmpty | controller/AdminController.java:75 | every string contains the empty string |
| Lists.FirstIndex | model/TeachingRequirement.java:187 | the position of the first occurrence: it holds the element and nothing before it does |
| Lists.RemoveFirstShape | model/TeachingRequirement.java:187 | `List.remove(Object)` leaves an absent element's list unchanged and otherwise cuts out exactly the first occurrence, keeping the order |
| Lists.RemoveFirstMultiset | model/TrainingSession.java:74-76 | removal takes exactly one copy of the element out of the bag |
| Lists.RemoveFirstNoDup | model/TrainingSession.java:74-76 | on a duplicate-free list, removal keeps it duplicate-free and leaves the element absent |
| Lists.AppendNoDup | model/TrainingSession.java:67-71 | appending an absent element keeps a list duplicate-free |
| Maps.ValuesRemove | dao/impl/FileTeacherDAO.java:66 | any key's value can be taken out of the bag of values first |
| Maps.ValuesAdd | dao/impl/FileTeacherDAO.java:66 | a new key adds its value to the bag exactly once |
| Maps.ValuesMembers | dao/impl/FileTeacherDAO.java:66 | the bag holds exactly the map's values, one per key |
| Maps.ListedEntries | dao/impl/FileTeacherDAO.java:66 | a list holding the map's values as a bag has one element per key, each a value of the map, and lists every key's value |
| Maps.ListedValues | dao/impl/FileTeacherDAO.java:66 | a list holding the map's values as a bag contains exactly the map's values |
| Maps.ValuesList | dao/impl/FileTeacherDAO.java:66 | `new ArrayList<>(m.values())` returns each key's value once, in some order |
| Teachers.Teacher.constructor | model/Teacher.java:13-19 | stores the five fields exactly as given |
| Teachers.Teacher.SetId | model/Teacher.java:23 | any int is accepted; only the id changes |
| Teachers.Teacher.SetName | model/Teacher.java:26 | only the name changes |
| Teachers.Teacher.SetContact | model/Teacher.java:29 | only the contact changes |
| Teachers.Teacher.SetAvailable | model/Teacher.java:32 | only the availability changes |
| Teachers.Teacher.SetQualifications | model/Teacher.java:35 | only the qualifications change |
| Sessions.WithParticipant | model/TrainingSession.java:67-71 | after `addTeacher` the id is present and no earlier participant is lost |
| Sessions.ParticipantsStayDistinct | model/TrainingSession.java:67-76 | no sequence of additions and removals creates a duplicate participant |
| Sessions.WithParticipantIdempotent | model/TrainingSession.java:67-71 | adding a teacher twice is the same as adding once |
| Sessions.TrainingSession.constructor | model/TrainingSession.java:16-23 | stores name, date, location and content, with a fixed id and an empty participant list |
| Sessions.TrainingSession.SetName | model/TrainingSession.java:34-36 | only the name changes |
| Sessions.TrainingSession.SetDate | model/TrainingSession.java:42-44 | only the date changes |
| Sessions.TrainingSession.SetLocation | model/TrainingSession.java:50-52 | only the location changes |
| Sessions.TrainingSession.SetContent | model/TrainingSession.java:58-60 | only the content changes |
| Sessions.TrainingSession.AddTeacher | model/TrainingSession.java:67-71 | appends the id unless present; a duplicate-free list stays duplicate-free; other fields untouched |
| Sessions.TrainingSession.RemoveTeacher | model/TrainingSession.java:74-76 | removes the first occurrence; on a duplicate-free list the id is then absent |
| Requirements.DerivedStatus | model/TeachingRequirement.java:214-223 | UNASSIGNED exactly when no teacher is assigned; FULLY_ASSIGNED is never derived |
| Requirements.Apply | model/TeachingRequirement.java:107-199 | no mutator changes the id or the creation time; a plain field setter keeps status and assignments and stamps the modification time |
| Requirements.IdentityIsPermanent | model/TeachingRequirement.java:17-44 | id and creation time survive any sequence of mutators |
| Requirements.StatusStaysDerived | model/TeachingRequirement.java:170-190 | without `setStatus`, the status stays the derived one under any sequence of mutators |
| Requirements.SetStatusBypassesDerivation | model/TeachingRequirement.java:159-162 | `setStatus` can leave an empty assignment list marked FULLY_ASSIGNED |
| Requirements.AssignmentsStayDistinct | model/TeachingRequirement.java:177-190 | without the bulk setter, the assignment list never gains a duplicate |
| Requirements.AssignTwice | model/TeachingRequirement.java:177-183 | assigning the same teacher twice equals assigning once, timestamp included |
| Requirements.TeachingRequirement.Empty | model/TeachingRequirement.java:72-80 | a new requirement: empty lists, UNASSIGNED, notes "", both timestamps from the clock |
| Requirements.TeachingRequirement.constructor | model/TeachingRequirement.java:85-95 | the given fields verbatim; a null qualification list keeps the empty one |
| Requirements.TeachingRequirement.SetCourseName | model/TeachingRequirement.java:107-110 | sets the course name and the modification time only |
| Requirements.TeachingRequirement.SetCourseCode | model/TeachingRequirement.java:116-119 | sets the course code and the modification time only |
| Requirements.TeachingRequirement.SetSchedule | model/TeachingRequirement.java:125-128 | sets the schedule and the modification time only |
| Requirements.TeachingRequirement.SetLocation | model/TeachingRequirement.java:134-137 | sets the location and the modification time only |
| Requirements.TeachingRequirement.SetRequiredQualifications | model/TeachingRequirement.java:143-146 | sets the qualification list and the modification time only |
| Requirements.TeachingRequirement.AddRequiredQualification | model/TeachingRequirement.java:149-152 | appends one qualification and stamps the modification time |
| Requirements.TeachingRequirement.SetStatus | model/TeachingRequirement.java:159-162 | overwrites the status; it is derived afterwards exactly when the new value equals the derived one |
| Requirements.TeachingRequirement.SetAssignedTeacherIds | model/TeachingRequirement.java:170-174 | replaces the list and re-derives the status |
| Requirements.TeachingRequirement.AssignTeacher | model/TeachingRequirement.java:177-183 | a present id changes nothing; otherwise appended, status PARTIALLY_ASSIGNED, no duplicate introduced |
| Requirements.TeachingRequirement.RemoveTeacher | model/TeachingRequirement.java:186-190 | removes one copy of the id, always re-derives the status and stamps the time; on a duplicate-free list the id is gone |
| Requirements.TeachingRequirement.SetNotes | model/TeachingRequirement.java:196-199 | sets the notes and the modification time only |
| Requirements.TeachingRequirement.UpdateStatus | model/TeachingRequirement.java:214-223 | the status becomes the one derived from the assignment list; nothing else changes |
| FileTeacherDaoImpl.TeacherEntries | dao/impl/FileTeacherDAO.java:109-117 | the first loading loop keeps at most as many teachers as there were entries, each one a Teacher element of the list |
| FileTeacherDaoImpl.CollectTeachers | dao/impl/FileTeacherDAO.java:109-117 | the loop over the deserialised list collects exactly `TeacherEntries`, in list order |
| TeacherDaoContract.SaveMeets | dao/TeacherDAO.java:14-19 | a successful `save` makes the teacher findable under its id and changes no other entry |
| TeacherDaoContract.UpdateMeets | dao/TeacherDAO.java:21-26 | a successful `update` makes the teacher findable under its id and keeps the set of ids |
| TeacherDaoContract.DeleteMeets | dao/TeacherDAO.java:28-33 | a successful `deleteById` leaves the id unfindable and removes exactly one entry |
| TeacherDaoContract.FindMeets | dao/TeacherDAO.java:35-40 | `findById` answers null exactly for an id that is not registered |
| TeacherDaoContract.GetAllMeets | dao/TeacherDAO.java:42-46 | `getAll` lists one teacher per id: each a registered one, and every registered one |
| FileTeacherDaoImpl.TeacherEntriesMembers | dao/impl/FileTeacherDAO.java:109-117 | the first loading loop keeps exactly the Teacher entries |
| FileTeacherDaoImpl.Index | dao/impl/FileTeacherDAO.java:120-127 | the second loading loop never stores id 0 and has no more keys than loaded teachers |
| FileTeacherDaoImpl.IndexKeys | dao/impl/FileTeacherDAO.java:120-127 | the rebuilt map has no key 0 and maps each key to a loaded teacher carrying that id |
| FileTeacherDaoImpl.IndexHasEveryId | dao/impl/FileTeacherDAO.java:120-127 | every loaded teacher with a non-zero id is in the map |
| FileTeacherDaoImpl.IndexLastWins | dao/impl/FileTeacherDAO.java:120-127 | of several teachers with one id, the last one loaded is kept |
| FileTeacherDaoImpl.FileTeacherDao.constructor | dao/impl/FileTeacherDAO.java:15-18 | the store starts with what `loadAll` reads |
| FileTeacherDaoImpl.FileTeacherDao.Save | dao/impl/FileTeacherDAO.java:32-35 | puts the teacher under its id with no duplicate check; the result is the flush's; meets the `save` contract |
| FileTeacherDaoImpl.FileTeacherDao.Update | dao/impl/FileTeacherDAO.java:38-44 | an unknown id fails with the map untouched; otherwise only that key is replaced and the result is the flush's |
| FileTeacherDaoImpl.FileTeacherDao.DeleteById | dao/impl/FileTeacherDAO.java:47-52 | an unknown id fails with the map untouched; otherwise only that key is removed and the result is the flush's |
| FileTeacherDaoImpl.FileTeacherDao.Delete | dao/impl/FileTeacherDAO.java:55-57 | the same outcome as `deleteById` |
| FileTeacherDaoImpl.FileTeacherDao.FindById | dao/impl/FileTeacherDAO.java:60-62 | the stored object for the id, or null |
| FileTeacherDaoImpl.FileTeacherDao.GetAll | dao/impl/FileTeacherDAO.java:65-67 | a fresh list holding every stored teacher once per id |
| FileTeacherDaoImpl.FileTeacherDao.FindAll | dao/impl/FileTeacherDAO.java:70-72 | the same list as `getAll` |
| FileTeacherDaoImpl.FileTeacherDao.SaveAll | dao/impl/FileTeacherDAO.java:75-83 | reports whether the write succeeded; the map is never rolled back |
| FileTeacherDaoImpl.FileTeacherDao.LoadAll | dao/impl/FileTeacherDAO.java:86-135 | a missing file gives an empty map and true; a non-list or unreadable file gives an empty map and false; a list gives the index of its Teacher entries with id ≠ 0, the last duplicate winning, and true; every key then maps to a teacher with that id |
| FileTeacherDaoImpl.FileTeacherDao.GetTeacherById | dao/impl/FileTeacherDAO.java:138-145 | null for a string `parseInt` rejects; otherwise exactly `findById` of the parsed id: the teacher stored under it, or null |
| FileTeacherDaoImpl.GetTeacherByDecimalId | dao/impl/FileTeacherDAO.java:138-145 | looking up the decimal form of an id is looking up the id |
| TeacherListDaoImpl.FindIndex | dao/impl/TeacherDAOImpl.java:65-70 | the first position holding the id, or none when no teacher has it |
| TeacherListDaoImpl.WithoutId | dao/impl/TeacherDAOImpl.java:55 | `removeIf` never lengthens the list; what it keeps is stated by `WithoutIdMembers` |
| TeacherListDaoImpl.WithoutIdMembers | dao/impl/TeacherDAOImpl.java:55 | `removeIf` keeps exactly the teachers with another id; the length drops exactly when one had the id |
| TeacherListDaoImpl.AsMapKeys | dao/impl/TeacherDAOImpl.java:31-75 | the map a list represents has exactly the list's ids as keys, each mapped to a listed teacher with that id |
| TeacherListDaoImpl.AsMapAt | dao/impl/TeacherDAOImpl.java:65-70 | on distinct ids, each listed teacher is the map's entry for its id |
| TeacherListDaoImpl.FindIndexAsMap | dao/impl/TeacherDAOImpl.java:65-70 | on distinct ids, `findById` agrees with the represented map |
| TeacherListDaoImpl.AsMapReplace | dao/impl/TeacherDAOImpl.java:44-47 | overwriting a slot with a same-id teacher keeps ids distinct and updates the map at that id only |
| TeacherListDaoImpl.ReplaceFirst | dao/impl/TeacherDAOImpl.java:44-47 | the slot `update` finds is the first with the id, and replacing it updates the map at that id |
| TeacherListDaoImpl.RemoveAll | dao/impl/TeacherDAOImpl.java:54-62 | `removeIf` drops the id from the represented map, keeps ids distinct, and shrinks the list exactly when the id was there |
| TeacherListDaoImpl.WithoutIdDistinct | dao/impl/TeacherDAOImpl.java:55 | `removeIf` keeps ids distinct |
| TeacherListDaoImpl.AsMapWithout | dao/impl/TeacherDAOImpl.java:55 | `removeIf` removes exactly that key from the represented map |
| TeacherListDaoImpl.AsMapValues | dao/impl/TeacherDAOImpl.java:73-75 | on distinct ids the list holds exactly the represented map's values |
| TeacherListDaoImpl.TeacherDaoImpl.Open | dao/impl/TeacherDAOImpl.java:25-28 | `new TeacherDAOImpl(...)`: a stored object that is not a list throws ClassCastException and yields no store; otherwise a fresh store holding what `loadAll` read (empty for a missing or unreadable file) |
| TeacherListDaoImpl.TeacherDaoImpl.Save | dao/impl/TeacherDAOImpl.java:31-39 | a present id gives false with the list unchanged; otherwise appended at the end, result the flush's; distinct ids stay distinct and the `save` contract holds |
| TeacherListDaoImpl.TeacherDaoImpl.Update | dao/impl/TeacherDAOImpl.java:42-51 | replaces the first teacher with the id in place, keeping length and order; false when none; distinct ids stay distinct and the `update` contract holds |
| TeacherListDaoImpl.TeacherDaoImpl.Delete | dao/impl/TeacherDAOImpl.java:54-62 | removes every teacher with the id, keeping the others in order; false when there was none; distinct ids stay distinct and the `delete` contract holds |
| TeacherListDaoImpl.TeacherDaoImpl.FindById | dao/impl/TeacherDAOImpl.java:65-70 | the first listed teacher carrying the id (`findFirst`), or null exactly when none has it; on distinct ids, the represented map's entry |
| TeacherListDaoImpl.TeacherDaoImpl.FindAll | dao/impl/TeacherDAOImpl.java:73-75 | a copy equal to the list, in order |
| TeacherListDaoImpl.TeacherDaoImpl.SaveAll | dao/impl/TeacherDAOImpl.java:78-86 | reports whether the write succeeded |
| TeacherListDaoImpl.TeacherDaoImpl.LoadAll | dao/impl/TeacherDAOImpl.java:90-108 | a missing file gives an empty list and true; an unreadable one an empty list and false; a non-list throws ClassCastException with the list unchanged; a list is taken whole |
| TeacherListDaoImpl.AllTeacherEntries | dao/impl/TeacherDAOImpl.java:100 | a list made only of teachers is taken whole, element by element |
| GsonTeacherDao.AfterFlush | model/FileTeacherDAO.java:65-71 | a failed write throws the "save error" RuntimeException; otherwise the given result |
| GsonTeacherDao.FileTeacherDao.constructor | model/FileTeacherDAO.java:18-22 | a JSON null gives an empty map; otherwise the map read |
| GsonTeacherDao.FileTeacherDao.Save | model/FileTeacherDAO.java:74-78 | puts the teacher under its id, overwriting; true unless the write throws |
| GsonTeacherDao.FileTeacherDao.Update | model/FileTeacherDAO.java:81-88 | a present id is replaced and gives true unless the write throws; an absent id gives false with the map unchanged |
| GsonTeacherDao.FileTeacherDao.DeleteById | model/FileTeacherDAO.java:91-97 | a present id is removed and gives true unless the write throws; an absent id gives false with the map unchanged |
| GsonTeacherDao.FileTeacherDao.FindById | model/FileTeacherDAO.java:100-102 | the stored teacher for the id, or null |
| GsonTeacherDao.FileTeacherDao.GetAll | model/FileTeacherDAO.java:105-111 | empty exactly for an empty map; otherwise every value once per key |
| GsonTeacherDao.FileTeacherDao.SaveAll | model/FileTeacherDAO.java:114-117 | true unless the write throws |
| GsonTeacherDao.FileTeacherDao.LoadAll | model/FileTeacherDAO.java:120-122 | does not reread the file: true exactly when the map is non-empty |
| GsonTeacherDao.FileTeacherDao.GetTeacherById | model/FileTeacherDAO.java:125-132 | null for a string `parseInt` rejects; otherwise exactly `findById` of the parsed id: the teacher stored under it, or null |
| GsonTeacherDao.FileTeacherDao.SaveToFile | model/FileTeacherDAO.java:65-71 | throws the "save error" RuntimeException when the write fails |
| GsonTeacherDao.GetTeacherByDecimalId | model/FileTeacherDAO.java:125-132 | looking up the decimal form of an id is looking up the id |
| TrainingSessionDao.FileTrainingSessionDao.constructor | dao/FileTrainingSessionDAO.java:8 | the map starts empty |
| TrainingSessionDao.FileTrainingSessionDao.AddTrainingSession | dao/FileTrainingSessionDAO.java:11-13 | puts the session under its id, overwriting; keys keep matching ids |
| TrainingSessionDao.FileTrainingSessionDao.GetTrainingSessionById | dao/FileTrainingSessionDAO.java:16-18 | the stored session, or null exactly when the id is absent |
| TrainingSessionDao.FileTrainingSessionDao.GetAllTrainingSessions | dao/FileTrainingSessionDAO.java:21-23 | a fresh list with every stored session once per id |
| TrainingSessionDao.FileTrainingSessionDao.UpdateTrainingSession | dao/FileTrainingSessionDAO.java:26-32 | replaces only that key; an absent id throws "Training session not found." with the map unchanged |
| TrainingSessionDao.FileTrainingSessionDao.DeleteTrainingSession | dao/FileTrainingSessionDAO.java:35-40 | removes only that key; an absent id throws "Training session not found." with the map unchanged |
| RequirementDao.SaveMeets | dao/TeachingRequirementDAO.java:8-14 | a successful `save` makes the new requirement findable under its id and adds exactly one entry |
| RequirementDao.UpdateMeets | dao/TeachingRequirementDAO.java:16-22 | a successful `update` makes the given requirement findable under its id and keeps the set of ids |
| RequirementDao.DeleteMeets | dao/TeachingRequirementDAO.java:24-30 | a successful `delete` leaves the id unfindable and removes exactly one entry |
| RequirementDao.FindMeets | dao/TeachingRequirementDAO.java:32-38 | `findById` answers null exactly for an id that does not exist |
| RequirementDao.FindAllMeets | dao/TeachingRequirementDAO.java:40-45 | `findAll` lists one requirement per id: each a stored one, and every stored one |
| RequirementDao.RequirementStore.constructor | dao/TeachingRequirementDAO.java:7 | the store starts empty, with every key the id of its requirement |
| RequirementDao.RequirementStore.Save | dao/TeachingRequirementDAO.java:8-14 | stores a new requirement, result the flush's; an existing id gives false with nothing changed |
| RequirementDao.RequirementStore.Update | dao/TeachingRequirementDAO.java:16-22 | replaces an existing requirement, result the flush's; an unknown id gives false with nothing changed |
| RequirementDao.RequirementStore.Delete | dao/TeachingRequirementDAO.java:24-30 | removes an existing requirement, result the flush's; an unknown id gives false with nothing changed |
| RequirementDao.RequirementStore.FindById | dao/TeachingRequirementDAO.java:32-38 | the requirement with that id, or null when it does not exist |
| RequirementDao.RequirementStore.FindAll | dao/TeachingRequirementDAO.java:40-45 | every stored requirement once |
| RequirementDao.RequirementStore.SaveAll | dao/TeachingRequirementDAO.java:47-52 | reports whether the write succeeded |
| AdminControllers.QualificationMatches | controller/AdminController.java:75 | a teacher matches exactly when the lower-cased keyword occurs at some position of the lower-cased qualifications |
| AdminControllers.WithQualification | controller/AdminController.java:73-77 | the search's filter keeps only listed teachers that match, and never more than it was given |
| AdminControllers.WithQualificationMembers | controller/AdminController.java:73-77 | the search filter keeps exactly the teachers whose lower-cased qualifications contain the lower-cased keyword |
| AdminControllers.EmptyKeywordMatchesAll | controller/AdminController.java:73-77 | an empty keyword matches every teacher |
| AdminControllers.Overrides | controller/AdminController.java:41-44 | name, contact and qualifications change only for a non-null, non-empty argument, availability only for a non-null one; the id never changes |
| AdminControllers.OverridesIdempotent | controller/AdminController.java:41-44 | applying the same overrides twice equals applying them once |
| AdminControllers.AdminController.constructor | controller/AdminController.java:20-22 | keeps the given store |
| AdminControllers.AdminController.AddTeacher | controller/AdminController.java:27-30 | a new teacher with exactly the given fields is stored under the id; the result is `save`'s |
| AdminControllers.AdminController.UpdateTeacher | controller/AdminController.java:35-47 | an unknown id gives false and changes nothing; otherwise the stored object itself gets the overrides and the result is `update`'s; when keys match ids the map is unchanged |
| AdminControllers.AdminController.EditTeacher | controller/AdminController.java:41-44 | the setter calls turn the teacher into its overridden value |
| AdminControllers.AdminController.DeleteTeacher | controller/AdminController.java:52-54 | the outcome of the store's `delete` |
| AdminControllers.AdminController.ListAllTeachers | controller/AdminController.java:59-61 | every stored teacher once per id |
| AdminControllers.AdminController.FindTeacherById | controller/AdminController.java:66-68 | the stored teacher for the id, or null |
| AdminControllers.AdminController.SearchTeachersByQualification | controller/AdminController.java:73-77 | exactly the stored teachers whose lower-cased qualifications contain the lower-cased keyword |
| ClassDirectorControllers.ValidCourse | controller/ClassDirectorController.java:48-51 | `createRequirement` accepts exactly a non-null course name and code that each hold a character above U+0020 |
| ClassDirectorControllers.Filled | controller/ClassDirectorController.java:93-99 | a non-null string passes the blank check exactly when it holds a character above U+0020 |
| ClassDirectorControllers.Drafted | controller/ClassDirectorController.java:54-56 | the built requirement has the given id, course name, code, schedule, location and notes, the given qualifications or an empty list for null, no assignments, status UNASSIGNED and both timestamps `now` |
| ClassDirectorControllers.Overrides | controller/ClassDirectorController.java:93-115 | the overrides never touch id, creation time, status or assignments, so a derived status stays derived |
| ClassDirectorControllers.CourseOverrides | controller/ClassDirectorController.java:93-99 | the course-name and course-code overrides keep identity, status and assignments |
| ClassDirectorControllers.PlaceOverrides | controller/ClassDirectorController.java:101-107 | the schedule and location overrides keep identity, status and assignments |
| ClassDirectorControllers.DetailOverrides | controller/ClassDirectorController.java:109-115 | the qualification and notes overrides keep identity, status and assignments |
| ClassDirectorControllers.Step | controller/ClassDirectorController.java:93-115 | one guarded setter never touches identity, status or assignments |
| ClassDirectorControllers.OverridesFields | controller/ClassDirectorController.java:93-115 | name and code change only when non-blank; schedule, location, qualifications and notes change whenever non-null, even when empty |
| ClassDirectorControllers.OverridesTouch | controller/ClassDirectorController.java:93-115 | the modification time moves to `now` exactly when some setter runs; with nothing to override the requirement is unchanged |
| ClassDirectorControllers.Keyword | controller/ClassDirectorController.java:177 | the search keyword is no longer than the name and holds no upper-case ASCII letter |
| ClassDirectorControllers.KeywordNotEmpty | controller/ClassDirectorController.java:173-177 | a course name that passes the blank check never yields the empty keyword |
| ClassDirectorControllers.NameMatches | controller/ClassDirectorController.java:180-183 | a requirement matches exactly when it has a course name whose lower-cased form contains the keyword at some position |
| ClassDirectorControllers.WithStatus | controller/ClassDirectorController.java:161-163 | the status filter keeps only listed requirements with that status |
| ClassDirectorControllers.WithName | controller/ClassDirectorController.java:179-184 | the name filter keeps only listed requirements that match |
| ClassDirectorControllers.WithStatusMembers | controller/ClassDirectorController.java:161-163 | the status filter keeps exactly the requirements with that status |
| ClassDirectorControllers.WithNameMembers | controller/ClassDirectorController.java:179-184 | the name filter keeps exactly the requirements with a non-null course name containing the keyword |
| ClassDirectorControllers.ClassDirectorController.constructor | controller/ClassDirectorController.java:24-26 | keeps the given store |
| ClassDirectorControllers.ClassDirectorController.CreateRequirement | controller/ClassDirectorController.java:39-63 | a null or blank course name or code gives null and leaves the store untouched; otherwise the built requirement is saved, and returned exactly when saving succeeded |
| ClassDirectorControllers.ClassDirectorController.UpdateRequirement | controller/ClassDirectorController.java:77-119 | an unknown id gives false; otherwise the stored object gets the overrides, the map is unchanged and the result is `update`'s |
| ClassDirectorControllers.ClassDirectorController.EditRequirement | controller/ClassDirectorController.java:93-115 | the setter calls turn the requirement into its overridden value |
| ClassDirectorControllers.ClassDirectorController.EditCourse | controller/ClassDirectorController.java:93-99 | the course-name and course-code setter calls |
| ClassDirectorControllers.ClassDirectorController.EditPlace | controller/ClassDirectorController.java:101-107 | the schedule and location setter calls |
| ClassDirectorControllers.ClassDirectorController.EditDetails | controller/ClassDirectorController.java:109-115 | the qualification and notes setter calls |
| ClassDirectorControllers.ClassDirectorController.DeleteRequirement | controller/ClassDirectorController.java:127-129 | the outcome of the store's `delete` |
| ClassDirectorControllers.ClassDirectorController.GetAllRequirements | controller/ClassDirectorController.java:136-138 | every stored requirement once |
| ClassDirectorControllers.ClassDirectorController.GetRequirementById | controller/ClassDirectorController.java:146-148 | the stored requirement for the id, or null |
| ClassDirectorControllers.ClassDirectorController.GetRequirementsByStatus | controller/ClassDirectorController.java:156-164 | a null status gives an empty list; otherwise exactly the stored requirements with that status |
| ClassDirectorControllers.ClassDirectorController.SearchRequirementsByCourseName | controller/ClassDirectorController.java:172-185 | a null or blank name gives an empty list; otherwise exactly the stored requirements whose lower-cased course name contains the trimmed lower-cased keyword, which is never empty |

## Left out

- Persistence itself is not modelled: Java object serialization, Gson JSON,
  and creating the data directory and the JSON file. A write is the boolean
  `flushOk`. A read is a `Snapshot` value or, for the JSON draft, the map
  Gson produced.
- Console output is left out. This covers the warnings printed by `loadAll`
  and `delete` and the "no teachers" message of the JSON draft's `getAll`.
- The JSON draft's constructor throws when the file cannot be read or
  created. Only the successful read is modelled.
- `UUID.randomUUID()` and `System.currentTimeMillis()` are the parameters
  `id` and `now`. The no-argument requirement constructor reads the clock
  twice; the model uses one reading for both timestamps. The setters run by
  one controller call also share one reading. Nothing is claimed about the
  clock increasing.
- `toLowerCase` maps only ASCII letters. `trim` is Java's exact rule, which
  strips characters at or below U+0020. `Integer.parseInt` accepts only ASCII
  digits; Java also accepts other Unicode decimal digits.
- The order of `HashMap.values()` is unspecified. Lists drawn from maps are
  specified as bags, and the search results as membership in both directions.
- Null `String` fields are not modelled for `Teacher` and `TrainingSession`,
  and null list elements are not modelled either. For `TeachingRequirement`,
  only the four `String` fields (course name, course code, schedule,
  location) and the notes can be null, as `Option`.
- Requirements.TeachingRequirement.SetRequiredQualifications: takes a list,
  never null. Java stores a null argument, and later readers of the list
  then see null.
- Requirements.TeachingRequirement.SetStatus: takes a status, never null.
  Java stores a null status.
- Requirements.TeachingRequirement.SetAssignedTeacherIds: takes a list,
  never null. In Java a null argument is stored and then `updateStatus`
  throws `NullPointerException`, leaving the old status in place.
- TeacherListDaoImpl.TeacherDaoImpl.LoadAll: a `Snapshot` cannot hold a
  stored null object. In Java the cast of null succeeds, `loadAll` answers
  true and the list becomes null, so later calls throw.
- GsonTeacherDao.FileTeacherDao.DeleteById: the stored map holds no null
  values. A JSON entry whose value is null would make Java's
  `remove(id) != null` false, answering false for a present key.
- AdminControllers.AdminController.AddTeacher: takes a plain `bool`. A null
  `Boolean` argument would throw `NullPointerException` while unboxing.
- Java lists passed into or returned from an entity are not modelled as
  shared with the caller. `setRequiredQualifications`,
  `setAssignedTeacherIds` and the list getters share them in Java. The model
  stores sequence values, so a caller mutating such a list later is not
  captured.
- `TeacherDAO` and `TeachingRequirementDAO` are ghost contract predicates,
  not Java-style interfaces. Each controller is bound to one store:
  - the administrator's controller to `dao/impl/FileTeacherDAO.java`, which
    is the store `Main` wires in;
  - the class director's controller to `RequirementDao.RequirementStore`.
- `TeachingRequirementDAO` has no implementation in the repository;
  `dao/impl/FileTeachingRequirementDAO.java` is an empty class.
  `RequirementStore` is this model's map-backed realisation of its
  documented contract. Its `save` rejects an id already stored, and every
  change is followed by a flush. The interface's `loadAll` is left out,
  because nothing defines what it reads.
- TeacherListDaoImpl.TeacherDaoImpl.LoadAll: requires every element of a
  loaded list to be a teacher. Java's unchecked cast accepts foreign or null
  elements, and the list store's later calls then throw. `Open` has the
  same precondition.
- TeacherListDaoImpl.TeacherDaoImpl.Save: the repository-contract
  postcondition (and the same for `Update`, `Delete`, `FindById` and
  `FindAll`) is stated only for a list with distinct ids. A list loaded
  with duplicate ids represents no single map.
- AdminControllers.AdminController.UpdateTeacher: the "map unchanged"
  conclusion is stated only when every key maps to a teacher carrying that
  id. A caller who changes a stored teacher's id through `setId` breaks
  this.
- The console menus, `Main`, `controller/TeacherController.java`, the
  field-only duplicate under `modle/` and the bare `TrainingSessionDAO`
  interface are not part of this model.
