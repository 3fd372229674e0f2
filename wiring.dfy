/**
 * How App.tsx wires its screens to the store: the capture screen's
 * `onAttendanceMarked` is `logAttendance` (App.tsx:94) and the enrollment
 * form's `onAdd` is `addStudent` (App.tsx:100). Both screens see the roster
 * the store holds.
 */
module Wiring {
  import opened Types
  import opened AppState
  import opened Enrollment
  import opened Capture
  import opened Recognition

  /**
   * One press of the capture button, run to completion: the guard, the
   * request (when one is sent), the verdict and the attendance it logs. At
   * most one record is added, and only for a roster member the service named.
   */
  method CaptureAttendance(app: App, screen: CaptureScreen,
                           videoMounted: bool, canvasMounted: bool, hasContext: bool,
                           captured: string, reply: Reply, percentText: string,
                           recordId: string, timestamp: string)
    returns (request: Option<seq<Part>>, marked: Option<string>)
    requires app.Valid()
    modifies app, screen
    ensures app.Valid()
    ensures app.students == old(app.students) && app.activeView == old(app.activeView)
    ensures !GuardPasses(old(screen.isProcessing), videoMounted, canvasMounted, old(app.students)) ==>
              && request == None && marked == None
              && screen.isProcessing == old(screen.isProcessing)
              && screen.lastResult == old(screen.lastResult)
    ensures GuardPasses(old(screen.isProcessing), videoMounted, canvasMounted, old(app.students)) ==>
              && !screen.isProcessing
              && (!hasContext ==> request == None && marked == None && screen.lastResult == AnalyzingResult)
              && (hasContext ==>
                    && request.Some? && IsRequest(request.value, captured, app.students)
                    && marked == Dispatch(app.students, Resolved(reply), percentText).mark
                    && screen.lastResult == Dispatch(app.students, Resolved(reply), percentText).view)
    ensures marked.None? ==> app.records == old(app.records) && app.storage == old(app.storage)
    ensures marked.Some? ==>
              app.records == LoggedRecords(old(app.students), old(app.records), marked.value, recordId, timestamp)
    ensures marked.Some? ==> app.storage == old(app.storage)[RecordsSlot := RecordList(app.records)]
    ensures marked.Some? ==>
              && |app.records| == |old(app.records)| + 1
              && app.records[1..] == old(app.records)
              && app.records[0].studentId == marked.value
              && app.records[0].status == Present
  {
    request, marked := None, None;
    var start := screen.BeginCapture(app.students, videoMounted, canvasMounted, hasContext);
    if start != Awaiting {
      return;
    }
    var sent, result := IdentifyStudent(captured, app.students, reply);
    request := sent;
    marked := screen.FinishCapture(app.students, result, percentText);
    if marked.Some? {
      app.LogAttendance(marked.value, recordId, timestamp);
    }
  }

  /**
   * A service answer naming a student that is on the roster logs exactly one
   * PRESENT record for that student, carrying the student's name.
   */
  lemma MatchedAnswerLogsOnce(roster: seq<Student>, records: seq<AttendanceRecord>,
                              answer: RecognitionResult, percentText: string,
                              recordId: string, timestamp: string)
    requires answer.studentId.Some? && answer.studentId.value != ""
    requires FindStudent(roster, answer.studentId.value).Some?
    ensures var v := Dispatch(roster, answer, percentText);
            && v.mark == answer.studentId
            && var logged := LoggedRecords(roster, records, v.mark.value, recordId, timestamp);
               && logged == [PresentRecord(recordId, FindStudent(roster, v.mark.value).value, timestamp)] + records
  {
  }

  /** An answer without a usable id, or a failed call, never logs attendance. */
  lemma UnmatchedAnswerLogsNothing(roster: seq<Student>, reply: Reply, percentText: string)
    requires reply.Failed? || Resolved(reply).studentId.None? || Resolved(reply).studentId == Some("")
    ensures Dispatch(roster, Resolved(reply), percentText).mark == None
  {
  }

  /** Every roster entry has the fields the enrollment form insists on. */
  predicate AllEnrollable(roster: seq<Student>) {
    forall i :: 0 <= i < |roster| ==> Enrollable(roster[i])
  }

  /** Deleting keeps the roster invariant: a filtered roster holds only old entries. */
  lemma DeletePreservesEnrollable(roster: seq<Student>, id: string)
    requires AllEnrollable(roster)
    ensures AllEnrollable(WithoutId(roster, id))
  {
  }

  /**
   * Submitting the enrollment form: a complete draft becomes a new last
   * roster entry with the fresh id; an incomplete one changes nothing. Either
   * way the roster keeps the form's invariant and the records are untouched.
   */
  method EnrollStudent(app: App, form: EnrollmentForm, freshId: string) returns (added: Option<Student>)
    requires app.Valid()
    modifies app, form
    ensures app.Valid()
    ensures Complete(old(form.draft)) ==>
              && added == Some(Enrolled(freshId, old(form.draft)))
              && app.students == old(app.students) + [added.value]
              && form.draft == EmptyDraft && !form.showAddModal
              && app.storage == old(app.storage)[StudentsSlot := StudentList(app.students)]
    ensures !Complete(old(form.draft)) ==>
              && added == None
              && app.students == old(app.students) && app.storage == old(app.storage)
              && form.draft == old(form.draft) && form.showAddModal == old(form.showAddModal)
    ensures form.isUploading == old(form.isUploading)
    ensures AllEnrollable(old(app.students)) ==> AllEnrollable(app.students)
    ensures app.records == old(app.records) && app.activeView == old(app.activeView)
  {
    added := form.Submit(freshId);
    if added.Some? {
      app.AddStudent(added.value);
    }
  }

  /** A one-student sample roster. */
  const Ana: Student := Student("s1", "Ana", "CS01", "data:image/jpeg;base64,img1", "")

  /**
   * Logging "s1" against the one-student roster adds one record named "Ana";
   * logging the unknown "s2" afterwards adds nothing.
   */
  lemma SampleSession()
    ensures var once := LoggedRecords([Ana], [], "s1", "r1", "t1");
            && |once| == 1 && once[0].studentName == "Ana" && once[0].status == Present
            && LoggedRecords([Ana], once, "s2", "r2", "t2") == once
  {
  }
}
