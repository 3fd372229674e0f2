# Attendance tracker: a verified model of its store and event handlers

This project models the logic of a browser-based attendance tracker. An
operator enrolls students with a reference photo. A camera frame is
compared against the roster by an external image-understanding service.
Each match is logged as a PRESENT attendance record. The model covers four
parts of the program:

- **The store** (`App.tsx`, module `AppState`, class `AppState.App`). It
  holds the active view, the ordered roster and the most-recent-first record
  list. Each collection is written through to a browser-storage slot
  (`attendance_students`, `attendance_records`) and reloaded from it at
  mount. The slots are a `map<string, Stored>`.
- **The enrollment form** (`components/StudentList.tsx`, module `Enrollment`,
  class `Enrollment.EnrollmentForm`). It holds the draft student and the
  dialog and upload flags. It covers validation, reset on submit, photo
  removal, the file-read completion and error handlers, the submit-button
  predicate and the department badge fallback.
- **The capture screen** (`components/CameraView.tsx`, module `Capture`,
  class `Capture.CaptureScreen`). It covers the guards of `handleCapture`, the
  `isProcessing` bracket and the translation of a recognition result. The
  asynchronous handler is split into `BeginCapture` (up to the call) and
  `FinishCapture` (the answer arriving).
- **The recognition adapter** (`services/geminiService.ts`, module
  `Recognition`). It covers the empty-roster short-circuit, the request
  layout built by a loop, the `split(',')[1]` payload extraction, and the
  uniform error result. The remote call is an oracle: its outcome (`Reply`)
  is a parameter.

Module `Wiring` connects the screens to the store the way `App.tsx` does:
`onAttendanceMarked` is `logAttendance` and `onAdd` is `addStudent`.

Ids, timestamps, the captured frame, the file-read result and whether the
video, canvas and 2D context exist are parameters supplied by the caller.

Behaviour of the code worth noting:

- An absent storage slot leaves its collection empty at mount.
- `addStudent` does not validate. Validation lives only in the form's
  `handleSubmit`. So "every roster entry has a name, roll number and photo"
  is an invariant of the wiring (`Wiring.EnrollStudent`), not of the store.
- The service's answer gets no schema check beyond `JSON.parse`. Any parsed
  answer reaches the capture handler unchanged.
- `if (result.studentId)` tests truthiness. An empty-string id takes the
  "no match" branch, the same as `null`.
- `deleteStudent` filters out every entry with the id. So a later
  `logAttendance` for that id is a no-op even when the id was not unique
  (`AppState.DeleteThenLogIsNoop` needs no uniqueness assumption).
- The browser fires `loadend` after `error` on a failed file read. So
  `reader.onerror` (`LoadError`) leaves the photo alone, and the
  `reader.onloadend` that follows (`LoadEnd(None)`) stores the null result.
  The model writes null as the empty photo, because every reader of
  `photoUrl` only tests its truthiness.

## Model

| member | source | states |
|---|---|---|
| AppState.FindStudent | App.tsx:41-42 | None exactly when no roster entry has the id; otherwise the entry at the first index with that id |
| AppState.WithoutId | App.tsx:36-38 | the result holds exactly the old entries whose id differs, is no longer, and equals the roster when no entry has the id |
| AppState.WithoutIdConcat | App.tsx:37 | filtering distributes over concatenation, so the survivors keep their relative order |
| AppState.WithoutIdIdempotent | App.tsx:37 | deleting an id twice is the same as deleting it once |
| AppState.DeletedNotFound | App.tsx:37-41 | after deleting an id, looking it up finds nothing |
| AppState.LoggedRecords | App.tsx:40-51 | unknown id: records unchanged; known id: one more record, the old list as tail, head with the given id, PRESENT status and the name of the first roster entry with that id |
| AppState.DeleteThenLogIsNoop | App.tsx:36-51 | logging attendance for a just-deleted id leaves the records unchanged, unique id or not |
| AppState.Flushed | App.tsx:23-30 | after both writes the two slots reload as exactly the written collections and every other key is untouched |
| AppState.App.constructor | App.tsx:11-30 | mount: view DASHBOARD, collections loaded from storage, both slots written back |
| AppState.App.Navigate | App.tsx:88 | navigation sets the active view and changes nothing else |
| AppState.App.AddStudent | App.tsx:32-34 | roster is the old roster plus the student at the end, earlier entries unchanged; records untouched; roster slot rewritten |
| AppState.App.DeleteStudent | App.tsx:36-38 | roster is the filtered roster; records untouched; roster slot rewritten |
| AppState.App.LogAttendance | App.tsx:40-51 | records become LoggedRecords of the old state; an unknown id writes nothing; roster untouched |
| Enrollment.EnabledSubmitIsAccepted | components/StudentList.tsx:225 | an enabled submit button always passes handleSubmit's validation |
| Enrollment.EnrolledIsEnrollable | components/StudentList.tsx:48-56 | a student built from a valid draft has name, roll number and photo |
| Enrollment.EnrollmentForm.constructor | components/StudentList.tsx:12-14 | empty draft, dialog closed, no read in progress |
| Enrollment.EnrollmentForm.OpenModal | components/StudentList.tsx:75 | opens the dialog, draft untouched |
| Enrollment.EnrollmentForm.CloseModal | components/StudentList.tsx:126 | closes the dialog, draft kept |
| Enrollment.EnrollmentForm.EditName | components/StudentList.tsx:191 | only the draft's name changes |
| Enrollment.EnrollmentForm.EditRollNumber | components/StudentList.tsx:204 | only the draft's roll number changes |
| Enrollment.EnrollmentForm.EditDepartment | components/StudentList.tsx:214 | only the draft's department changes |
| Enrollment.EnrollmentForm.ChooseFile | components/StudentList.tsx:17-20 | a chosen file starts a read; no file changes nothing |
| Enrollment.EnrollmentForm.LoadEnd | components/StudentList.tsx:23-26 | the read's result becomes the photo (null as empty) and the read is over |
| Enrollment.EnrollmentForm.LoadError | components/StudentList.tsx:28-32 | the read is over and the draft is untouched |
| Enrollment.EnrollmentForm.RemovePhoto | components/StudentList.tsx:38-44 | clears the photo; name, roll number, department and flags unchanged |
| Enrollment.EnrollmentForm.Submit | components/StudentList.tsx:46-61 | incomplete draft: nothing added, state unchanged; complete: the student is added once, the draft is emptied and the dialog closes |
| Capture.GuardMatchesButton | components/CameraView.tsx:55 | a capture past the guard had an enabled button; with both elements mounted the two agree |
| Capture.Dispatch | components/CameraView.tsx:70-84 | marks exactly when the id is truthy and on the roster, and marks that id with a success panel naming the student; an unknown id shows "Match found but data error."; a null or empty id shows the reason or "No match found." |
| Capture.CaptureScreen.constructor | components/CameraView.tsx:15-20 | not processing, idle empty panel |
| Capture.CaptureScreen.CameraFailed | components/CameraView.tsx:35-38 | the panel reports "Could not access camera." |
| Capture.CaptureScreen.BeginCapture | components/CameraView.tsx:54-68 | a refused capture changes nothing; otherwise "Analyzing face..." is shown and processing lasts only while a call is pending |
| Capture.CaptureScreen.FinishCapture | components/CameraView.tsx:68-87 | the panel shows the verdict, processing is over, the marked id is the verdict's |
| Capture.CaptureScreen.MarkNext | components/CameraView.tsx:190 | the panel is reset to idle with empty name and message |
| Recognition.Split | services/geminiService.ts:40 | segments are comma-free, at least one, and the whole string when it has no separator |
| Recognition.JoinSplit | services/geminiService.ts:40 | joining the segments gives the string back |
| Recognition.SplitJoin | services/geminiService.ts:40 | splitting a join of separator-free segments gives the segments back |
| Recognition.Payload | services/geminiService.ts:29-40 | absent exactly when there is no comma; never contains a comma |
| Recognition.PayloadAfterFirstComma | services/geminiService.ts:29-40 | the payload of "prefix,rest" is rest up to its first comma |
| Recognition.PayloadOfDataUrl | services/geminiService.ts:29-40 | for "prefix,payload" with no other comma the payload is returned whole |
| Recognition.RequestIsDetermined | services/geminiService.ts:23-43 | the request layout fixes every part of the request |
| Recognition.BuildParts | services/geminiService.ts:23-43 | 3 + 2n parts: two text parts, the target image, then each student's label followed by its image, in roster order |
| Recognition.IdentifyStudent | services/geminiService.ts:7-78 | empty roster: no request and the "No students registered in the system." result; otherwise the full request is sent and the result is the resolved reply |
| Wiring.CaptureAttendance | App.tsx:91-95 | one capture end to end: a refused capture sends nothing and logs nothing; without a 2D context the panel reads "Analyzing face..." and nothing is sent; otherwise processing ends, and at most one record is logged, exactly for a roster id the service named, with only the record slot rewritten |
| Wiring.MatchedAnswerLogsOnce | components/CameraView.tsx:70-78 | an answer naming a roster member marks that id and the log gains exactly one PRESENT record for that student |
| Wiring.UnmatchedAnswerLogsNothing | components/CameraView.tsx:82-83 | a null or empty id, or a failed call, never marks attendance |
| Wiring.DeletePreservesEnrollable | App.tsx:36-38 | deleting keeps every roster entry complete |
| Wiring.EnrollStudent | App.tsx:97-102 | a valid submit appends the enrolled student and rewrites only the roster slot; an invalid one changes nothing; the upload flag is kept; the roster stays complete |
| Wiring.SampleSession | App.tsx:40-51 | a one-student sample: logging "s1" adds one "Ana" record, then logging the unknown "s2" adds nothing |

## Left out

- The remote service call and its JSON parsing (services/geminiService.ts:46-72) are foreign library calls. Their outcome is the `Reply` oracle, and no schema check is claimed.
- Camera and canvas work (`getUserMedia`, stopping tracks, `drawImage`, `toDataURL`) is device I/O. The captured frame is a parameter, and a missing 2D context is the `hasContext` flag. The "Camera Active" indicator is not modelled.
- `FileReader` and `readAsDataURL` are I/O. Only the completion and error handlers are modelled.
- `Math.random` ids and `new Date().toISOString()` timestamps are caller-supplied parameters.
- `JSON.stringify`/`JSON.parse` and `localStorage` are not modelled. A slot holds the collection itself. Storage-quota errors from `setItem` are not modelled.
- The roster summary in the request's second text part is kept as the list it serializes, not as JSON text.
- AppState.App.AddStudent: like AppState.App.DeleteStudent, the store does not model that React writes a slot only after a re-render. The model writes in the same step, which leaves the same final storage.
- AppState.App.constructor: the load effect does not tolerate corrupt stored data (`JSON.parse` throws, App.tsx:19-20), so the constructor requires well-typed slots (`WellTyped`) and models no recovery. On mount, React first writes the initial empty collections to both slots and then writes the loaded ones; only the final state is modelled.
- Capture.Dispatch: the confidence percentage `Math.round(result.confidence * 100)` is floating point. Its decimal rendering is the caller-supplied `percentText`.
- Capture.CaptureScreen.FinishCapture: the asynchronous wait is not modelled. Results that arrive after navigating away, and overlapping handlers, are out of scope. The begin and finish steps run in sequence.
- An answer missing fields after `JSON.parse` (for example from an empty response text) has no `RecognitionResult` form. Its absent `studentId` and `reason` act like the null id and empty reason that the model does cover.
- A parsed `null` answer (response text `"null"`, services/geminiService.ts:72) is not modelled: `Reply.Answered` always carries an object. In the code, `result.studentId` then throws at components/CameraView.tsx:70 outside any `try`, so `setIsProcessing(false)` at line 87 never runs and capture stays disabled until the screen remounts. The "processing ends" promise of `Capture.CaptureScreen.FinishCapture` and `Wiring.CaptureAttendance` holds only for object answers.
- The operator-visible `alert` calls (components/StudentList.tsx:31 and 49) and the `console.error` logs (components/StudentList.tsx:29, components/CameraView.tsx:36, services/geminiService.ts:75) are I/O and are not modelled.
- The file-input reset in `removePhoto` (components/StudentList.tsx:41-43) is DOM state and is not modelled. It lets the operator pick the same file again and get a `change` event.
- Dashboard.tsx (fixed chart data, the locale-dependent "Present Today" count), AttendanceLog.tsx (rendering only), the page titles in App.tsx:61-72, the Sidebar's mobile-menu state, and the inert search, export and pagination controls have no logic worth a model.
- The `studentReferences` array (services/geminiService.ts:17-21) is computed but never used.
