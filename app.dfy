/**
 * The attendance store of App.tsx: the active view, the ordered roster and
 * the most-recent-first record list, each collection written through to a
 * named browser-storage slot.
 */
module AppState {
  import opened Types

  const StudentsSlot: string := "attendance_students"
  const RecordsSlot: string := "attendance_records"

  /** What a storage slot holds: a serialized roster or a serialized record list. */
  datatype Stored = StudentList(students: seq<Student>) | RecordList(records: seq<AttendanceRecord>)

  /** Index `i` holds the first roster entry whose id is `id`. */
  predicate FirstWithId(roster: seq<Student>, i: int, id: string) {
    && 0 <= i < |roster|
    && roster[i].id == id
    && forall j :: 0 <= j < i ==> roster[j].id != id
  }

  /**
   * `students.find(s => s.id === id)`: the first roster entry with that id,
   * or None when there is none.
   */
  function FindStudent(roster: seq<Student>, id: string): (r: Option<Student>)
    ensures r.None? <==> forall i :: 0 <= i < |roster| ==> roster[i].id != id
    ensures r.Some? ==> exists i :: FirstWithId(roster, i, id) && roster[i] == r.value
  {
    if roster == [] then None
    else if roster[0].id == id then
      assert FirstWithId(roster, 0, id);
      Some(roster[0])
    else
      var r := FindStudent(roster[1..], id);
      assert r.Some? ==> exists i :: FirstWithId(roster, i, id) && roster[i] == r.value by {
        if r.Some? {
          var i :| FirstWithId(roster[1..], i, id) && roster[1..][i] == r.value;
          assert FirstWithId(roster, i + 1, id) by {
            forall j | 0 <= j < i + 1 ensures roster[j].id != id {
              if j > 0 { assert roster[j] == roster[1..][j - 1]; }
            }
          }
        }
      }
      r
  }

  /**
   * `prev.filter(s => s.id !== id)`: the roster without the students that
   * carry `id`, the others kept in their order.
   */
  function WithoutId(roster: seq<Student>, id: string): (r: seq<Student>)
    ensures |r| <= |roster|
    ensures forall s :: s in r <==> s in roster && s.id != id
    ensures (forall i :: 0 <= i < |roster| ==> roster[i].id != id) ==> r == roster
  {
    if roster == [] then []
    else if roster[0].id == id then WithoutId(roster[1..], id)
    else [roster[0]] + WithoutId(roster[1..], id)
  }

  /** Filtering distributes over concatenation: relative order is kept. */
  lemma {:induction false} WithoutIdConcat(a: seq<Student>, b: seq<Student>, id: string)
    ensures WithoutId(a + b, id) == WithoutId(a, id) + WithoutId(b, id)
  {
    if a == [] {
      assert a + b == b;
    } else {
      assert (a + b)[1..] == a[1..] + b;
      WithoutIdConcat(a[1..], b, id);
    }
  }

  /** The roster after deleting `id` has no entry with that id, so a later lookup fails. */
  lemma DeletedNotFound(roster: seq<Student>, id: string)
    ensures FindStudent(WithoutId(roster, id), id) == None
  {
  }

  /** Deleting the same id twice is the same as deleting it once. */
  lemma WithoutIdIdempotent(roster: seq<Student>, id: string)
    ensures WithoutId(WithoutId(roster, id), id) == WithoutId(roster, id)
  {
  }

  /** The record `logAttendance` prepends for a found student (App.tsx:44-50). */
  function PresentRecord(recordId: string, student: Student, timestamp: string): (rec: AttendanceRecord)
  {
    AttendanceRecord(recordId, student.id, student.name, timestamp, Present)
  }

  /**
   * The record list after `logAttendance(studentId)`: unchanged for an id the
   * roster does not hold, otherwise one new PRESENT record at the head.
   */
  function LoggedRecords(roster: seq<Student>, records: seq<AttendanceRecord>,
                         studentId: string, recordId: string, timestamp: string)
    : (r: seq<AttendanceRecord>)
    ensures FindStudent(roster, studentId).None? ==> r == records
    ensures FindStudent(roster, studentId).Some? ==>
              && |r| == |records| + 1
              && r[1..] == records
              && r[0].id == recordId
              && r[0].studentId == studentId
              && r[0].studentName == FindStudent(roster, studentId).value.name
              && r[0].timestamp == timestamp
              && r[0].status == Present
  {
    match FindStudent(roster, studentId)
    case None => records
    case Some(s) => [PresentRecord(recordId, s, timestamp)] + records
  }

  /** Once `id` is deleted from the roster, logging attendance for it changes nothing. */
  lemma DeleteThenLogIsNoop(roster: seq<Student>, records: seq<AttendanceRecord>,
                            id: string, recordId: string, timestamp: string)
    ensures LoggedRecords(WithoutId(roster, id), records, id, recordId, timestamp) == records
  {
  }

  /** The roster the load effect starts from (App.tsx:17, 19): empty when the slot is absent. */
  function LoadStudents(saved: map<string, Stored>): (r: seq<Student>)
    requires StudentsSlot in saved ==> saved[StudentsSlot].StudentList?
    ensures StudentsSlot !in saved ==> r == []
    ensures StudentsSlot in saved ==> r == saved[StudentsSlot].students
  {
    if StudentsSlot in saved then saved[StudentsSlot].students else []
  }

  /** The record list the load effect starts from (App.tsx:18, 20): empty when the slot is absent. */
  function LoadRecords(saved: map<string, Stored>): (r: seq<AttendanceRecord>)
    requires RecordsSlot in saved ==> saved[RecordsSlot].RecordList?
    ensures RecordsSlot !in saved ==> r == []
    ensures RecordsSlot in saved ==> r == saved[RecordsSlot].records
  {
    if RecordsSlot in saved then saved[RecordsSlot].records else []
  }

  /** The slots hold what the load effect can parse: a roster and a record list. */
  predicate WellTyped(saved: map<string, Stored>) {
    && (StudentsSlot in saved ==> saved[StudentsSlot].StudentList?)
    && (RecordsSlot in saved ==> saved[RecordsSlot].RecordList?)
  }

  /**
   * The storage after both write-through effects have run for `roster`
   * and `records`; every other key is left as it was.
   */
  function Flushed(saved: map<string, Stored>, roster: seq<Student>, records: seq<AttendanceRecord>)
    : (r: map<string, Stored>)
    ensures WellTyped(r)
    ensures r.Keys == saved.Keys + {StudentsSlot, RecordsSlot}
    ensures forall k :: k in saved && k != StudentsSlot && k != RecordsSlot ==> r[k] == saved[k]
    ensures LoadStudents(r) == roster && LoadRecords(r) == records
  {
    saved[StudentsSlot := StudentList(roster)][RecordsSlot := RecordList(records)]
  }

  /** The state owner of App.tsx: three state fields and the storage they are written to. */
  class App {
    var activeView: AppView
    var students: seq<Student>
    var records: seq<AttendanceRecord>
    var storage: map<string, Stored>

    /** Write-through holds: each slot holds exactly the in-memory collection. */
    predicate Valid()
      reads this
    {
      && StudentsSlot in storage && storage[StudentsSlot] == StudentList(students)
      && RecordsSlot in storage && storage[RecordsSlot] == RecordList(records)
    }

    /**
     * Mounting the app: the view starts at the dashboard, the collections
     * are loaded from `saved` and both slots are written back.
     */
    constructor (saved: map<string, Stored>)
      requires WellTyped(saved)
      ensures Valid()
      ensures activeView == Dashboard
      ensures students == LoadStudents(saved)
      ensures records == LoadRecords(saved)
      ensures storage == Flushed(saved, students, records)
    {
      activeView := Dashboard;
      students := LoadStudents(saved);
      records := LoadRecords(saved);
      storage := Flushed(saved, LoadStudents(saved), LoadRecords(saved));
    }

    /** `setActiveView(v)`: only the active view changes. */
    method Navigate(v: AppView)
      modifies this
      ensures activeView == v
      ensures students == old(students) && records == old(records) && storage == old(storage)
    {
      activeView := v;
    }

    /** `addStudent`: append at the end of the roster, then write the roster slot. */
    method AddStudent(s: Student)
      requires Valid()
      modifies this
      ensures Valid()
      ensures students == old(students) + [s]
      ensures |students| == |old(students)| + 1 && students[..|old(students)|] == old(students)
      ensures records == old(records) && activeView == old(activeView)
      ensures storage == old(storage)[StudentsSlot := StudentList(students)]
    {
      students := students + [s];
      storage := storage[StudentsSlot := StudentList(students)];
    }

    /** `deleteStudent`: filter the roster by id, then write the roster slot; records stay. */
    method DeleteStudent(id: string)
      requires Valid()
      modifies this
      ensures Valid()
      ensures students == WithoutId(old(students), id)
      ensures records == old(records) && activeView == old(activeView)
      ensures storage == old(storage)[StudentsSlot := StudentList(students)]
    {
      students := WithoutId(students, id);
      storage := storage[StudentsSlot := StudentList(students)];
    }

    /**
     * `logAttendance`: a silent no-op for an id the roster does not hold;
     * otherwise prepend a PRESENT record and write the record slot.
     */
    method LogAttendance(studentId: string, recordId: string, timestamp: string)
      requires Valid()
      modifies this
      ensures Valid()
      ensures records == LoggedRecords(old(students), old(records), studentId, recordId, timestamp)
      ensures students == old(students) && activeView == old(activeView)
      ensures FindStudent(students, studentId).None? ==> storage == old(storage)
      ensures storage == old(storage)[RecordsSlot := RecordList(records)]
    {
      var student := FindStudent(students, studentId);
      if student.None? {
        return;
      }
      records := [PresentRecord(recordId, student.value, timestamp)] + records;
      storage := storage[RecordsSlot := RecordList(records)];
    }
  }
}
