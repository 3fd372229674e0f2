/**
 * The shared domain types of the attendance tracker (types.ts), plus the
 * Option wrapper used where the source has `undefined` or `null`.
 */
module Types {

  datatype Option<+T> = None | Some(value: T)

  /** An enrolled student (types.ts:2-8). `photoUrl` holds a data URL. */
  datatype Student = Student(
    id: string,
    name: string,
    rollNumber: string,
    photoUrl: string,
    department: string)

  /** The closed status set of an attendance record (types.ts:15). */
  datatype Status = Present | Late

  /**
   * One logged attendance event (types.ts:10-16). `studentName` is a copy of
   * the student's name taken when the record was logged.
   */
  datatype AttendanceRecord = AttendanceRecord(
    id: string,
    studentId: string,
    studentName: string,
    timestamp: string,
    status: Status)

  /**
   * What the recognition service answers (types.ts:18-22). `studentId` is
   * nullable; `confidence` is a JavaScript number, kept here as a real.
   */
  datatype RecognitionResult = RecognitionResult(
    studentId: Option<string>,
    confidence: real,
    reason: string)

  /** The four screens the view router can show (types.ts:24). */
  datatype AppView = Dashboard | Recognition | Students | Logs

  /**
   * JavaScript truthiness of a string: only the empty string is falsy.
   * The source tests strings this way (`!name`, `reason || ...`).
   */
  predicate Truthy(s: string) {
    s != []
  }
}
