/**
 * The enrollment form of components/StudentList.tsx: the draft student
 * record, whether the enrollment dialog is open and whether a photo file is
 * being read.
 */
module Enrollment {
  import opened Types

  /** The form's `newStudent` record (StudentList.tsx:13): everything of a Student but its id. */
  datatype Draft = Draft(name: string, rollNumber: string, department: string, photoUrl: string)

  const EmptyDraft: Draft := Draft("", "", "", "")

  /** `handleSubmit`'s validation (StudentList.tsx:48): name, roll number and photo are all present. */
  predicate Complete(d: Draft) {
    Truthy(d.name) && Truthy(d.rollNumber) && Truthy(d.photoUrl)
  }

  /**
   * The submit button's `disabled` expression (StudentList.tsx:225), negated:
   * a complete draft and no file read in progress.
   */
  function SubmitEnabled(d: Draft, isUploading: bool): (enabled: bool)
    ensures enabled <==> d.photoUrl != "" && d.name != "" && d.rollNumber != "" && !isUploading
  {
    !(!Truthy(d.photoUrl) || !Truthy(d.name) || !Truthy(d.rollNumber) || isUploading)
  }

  /** An enabled submit button always passes `handleSubmit`'s validation. */
  lemma EnabledSubmitIsAccepted(d: Draft, isUploading: bool)
    requires SubmitEnabled(d, isUploading)
    ensures Complete(d)
  {
  }

  /** The student `onAdd` receives: a fresh id followed by the draft's fields (StudentList.tsx:53-56). */
  function Enrolled(freshId: string, d: Draft): (s: Student)
    ensures s.id == freshId
    ensures Draft(s.name, s.rollNumber, s.department, s.photoUrl) == d
  {
    Student(freshId, d.name, d.rollNumber, d.photoUrl, d.department)
  }

  /**
   * A roster entry is one the form could have produced: its fields, read back
   * as a draft, pass the same validation `handleSubmit` applies.
   */
  predicate Enrollable(s: Student) {
    Complete(Draft(s.name, s.rollNumber, s.department, s.photoUrl))
  }

  /** Every student a valid submit hands to `onAdd` satisfies the roster invariant. */
  lemma EnrolledIsEnrollable(freshId: string, d: Draft)
    requires Complete(d)
    ensures Enrollable(Enrolled(freshId, d))
  {
  }

  /** The department badge (StudentList.tsx:102): "General" stands in for an empty department. */
  function DepartmentLabel(department: string): (shown: string)
    ensures department != "" ==> shown == department
    ensures department == "" ==> shown == "General"
    ensures shown != ""
  {
    if Truthy(department) then department else "General"
  }

  /** The form state of one mounted StudentList. */
  class EnrollmentForm {
    var draft: Draft
    var showAddModal: bool
    var isUploading: bool

    /** Initial state (StudentList.tsx:12-14): empty draft, dialog closed, nothing being read. */
    constructor ()
      ensures draft == EmptyDraft && !showAddModal && !isUploading
    {
      draft := EmptyDraft;
      showAddModal := false;
      isUploading := false;
    }

    /** The "Enroll Student" button (StudentList.tsx:75): opens the dialog. */
    method OpenModal()
      modifies this
      ensures showAddModal
      ensures draft == old(draft) && isUploading == old(isUploading)
    {
      showAddModal := true;
    }

    /** The dialog's close button (StudentList.tsx:126): closes it and keeps the draft. */
    method CloseModal()
      modifies this
      ensures !showAddModal
      ensures draft == old(draft) && isUploading == old(isUploading)
    {
      showAddModal := false;
    }

    /** The name input (StudentList.tsx:191). */
    method EditName(name: string)
      modifies this
      ensures draft == old(draft).(name := name)
      ensures showAddModal == old(showAddModal) && isUploading == old(isUploading)
    {
      draft := draft.(name := name);
    }

    /** The roll number input (StudentList.tsx:204). */
    method EditRollNumber(rollNumber: string)
      modifies this
      ensures draft == old(draft).(rollNumber := rollNumber)
      ensures showAddModal == old(showAddModal) && isUploading == old(isUploading)
    {
      draft := draft.(rollNumber := rollNumber);
    }

    /** The department input (StudentList.tsx:214). */
    method EditDepartment(department: string)
      modifies this
      ensures draft == old(draft).(department := department)
      ensures showAddModal == old(showAddModal) && isUploading == old(isUploading)
    {
      draft := draft.(department := department);
    }

    /**
     * `handleFileChange` (StudentList.tsx:17-20): a chosen file starts a read;
     * no file changes nothing.
     */
    method ChooseFile(fileChosen: bool)
      modifies this
      ensures isUploading == (old(isUploading) || fileChosen)
      ensures draft == old(draft) && showAddModal == old(showAddModal)
    {
      if fileChosen {
        isUploading := true;
      }
    }

    /**
     * `reader.onloadend` (StudentList.tsx:23-26): the read's result becomes
     * the photo and the read is over. A null result (the read failed) is
     * stored as the empty photo, which every later test treats the same way.
     */
    method LoadEnd(result: Option<string>)
      modifies this
      ensures draft == old(draft).(photoUrl := if result.Some? then result.value else "")
      ensures !isUploading && showAddModal == old(showAddModal)
    {
      var photo := if result.Some? then result.value else "";
      draft := draft.(photoUrl := photo);
      isUploading := false;
    }

    /** `reader.onerror` (StudentList.tsx:28-32): the read is over; the draft is untouched. */
    method LoadError()
      modifies this
      ensures !isUploading
      ensures draft == old(draft) && showAddModal == old(showAddModal)
    {
      isUploading := false;
    }

    /** `removePhoto` (StudentList.tsx:38-44): clears the photo and nothing else. */
    method RemovePhoto()
      modifies this
      ensures draft == old(draft).(photoUrl := "")
      ensures draft.name == old(draft).name && draft.rollNumber == old(draft).rollNumber
      ensures draft.department == old(draft).department
      ensures showAddModal == old(showAddModal) && isUploading == old(isUploading)
    {
      draft := draft.(photoUrl := "");
    }

    /**
     * `handleSubmit` (StudentList.tsx:46-61). An incomplete draft is refused:
     * nothing is handed to `onAdd` and no state changes. A complete one is
     * handed to `onAdd` exactly once (the result), the draft is reset and the
     * dialog closes.
     */
    method Submit(freshId: string) returns (added: Option<Student>)
      modifies this
      ensures !Complete(old(draft)) ==>
                added == None && draft == old(draft) && showAddModal == old(showAddModal)
      ensures Complete(old(draft)) ==>
                && added == Some(Enrolled(freshId, old(draft)))
                && Enrollable(added.value)
                && draft == EmptyDraft && !showAddModal
      ensures isUploading == old(isUploading)
    {
      if !Truthy(draft.name) || !Truthy(draft.rollNumber) || !Truthy(draft.photoUrl) {
        return None;
      }
      added := Some(Enrolled(freshId, draft));
      draft := EmptyDraft;
      showAddModal := false;
    }
  }
}
