/**
 * The capture screen of components/CameraView.tsx: the re-entrancy and
 * empty-roster guards of `handleCapture`, the `isProcessing` bracket around
 * the recognition call, and the translation of a recognition result into the
 * screen's result panel and at most one attendance mark. The asynchronous
 * handler is split into a begin step (up to the call) and a finish step (the
 * call's result arriving).
 */
module Capture {
  import opened Types
  import AppState

  datatype ResultStatus = Idle | Success | Fail

  /** The `lastResult` panel state (CameraView.tsx:16-20). */
  datatype LastResult = LastResult(name: string, status: ResultStatus, message: string)

  const IdleResult: LastResult := LastResult("", Idle, "")
  const AnalyzingResult: LastResult := LastResult("", Idle, "Analyzing face...")
  const CameraErrorResult: LastResult := LastResult("", Fail, "Could not access camera.")
  const DataErrorResult: LastResult := LastResult("", Fail, "Match found but data error.")
  const NoMatchMessage: string := "No match found."

  /** The capture button's `disabled` expression (CameraView.tsx:123), negated. */
  function CaptureEnabled(isProcessing: bool, students: seq<Student>): (enabled: bool)
    ensures enabled <==> !isProcessing && |students| > 0
  {
    !(isProcessing || |students| == 0)
  }

  /**
   * `handleCapture`'s guard (CameraView.tsx:55), negated: not already
   * processing, video and canvas elements mounted, and a non-empty roster.
   */
  function GuardPasses(isProcessing: bool, videoMounted: bool, canvasMounted: bool,
                       students: seq<Student>): (passes: bool)
    ensures passes <==> !isProcessing && videoMounted && canvasMounted && students != []
  {
    !(isProcessing || !videoMounted || !canvasMounted || |students| == 0)
  }

  /** A capture gets past the guard only when the button is enabled; with both elements mounted, always. */
  lemma GuardMatchesButton(isProcessing: bool, videoMounted: bool, canvasMounted: bool,
                           students: seq<Student>)
    ensures GuardPasses(isProcessing, videoMounted, canvasMounted, students) ==>
              CaptureEnabled(isProcessing, students)
    ensures videoMounted && canvasMounted ==>
              (GuardPasses(isProcessing, videoMounted, canvasMounted, students) <==>
               CaptureEnabled(isProcessing, students))
  {
  }

  /** The result panel for an identified student (CameraView.tsx:73-77). */
  function IdentifiedResult(name: string, percentText: string): (panel: LastResult) {
    LastResult(name, Success, "Identified: " + name + " (" + percentText + "%)")
  }

  /** What a recognition result turns into: the new panel, and the id to mark, if any. */
  datatype Verdict = Verdict(view: LastResult, mark: Option<string>)

  /**
   * CameraView.tsx:70-84. A truthy `studentId` naming a roster entry marks that
   * student and reports success; a truthy `studentId` the roster does not
   * hold reports a data error; a null or empty `studentId` reports the reason,
   * or "No match found." when the reason is empty. Only the first case marks.
   * `percentText` is the rendering of `Math.round(confidence * 100)`.
   */
  function Dispatch(students: seq<Student>, result: RecognitionResult, percentText: string)
    : (v: Verdict)
    ensures v.mark.Some? <==> v.view.status == Success
    ensures v.mark.Some? <==>
              result.studentId.Some? && result.studentId.value != ""
              && AppState.FindStudent(students, result.studentId.value).Some?
    ensures v.mark.Some? ==>
              && v.mark.value == result.studentId.value
              && v.view == IdentifiedResult(AppState.FindStudent(students, v.mark.value).value.name, percentText)
    ensures result.studentId.Some? && result.studentId.value != ""
            && AppState.FindStudent(students, result.studentId.value).None? ==>
              v.view == DataErrorResult
    ensures (result.studentId.None? || result.studentId.value == "") ==>
              && v.view.name == "Unknown" && v.view.status == Fail
              && (result.reason != "" ==> v.view.message == result.reason)
              && (result.reason == "" ==> v.view.message == NoMatchMessage)
  {
    if result.studentId.Some? && Truthy(result.studentId.value) then
      match AppState.FindStudent(students, result.studentId.value)
      case Some(student) => Verdict(IdentifiedResult(student.name, percentText), Some(student.id))
      case None => Verdict(DataErrorResult, None)
    else
      Verdict(LastResult("Unknown", Fail, if Truthy(result.reason) then result.reason else NoMatchMessage), None)
  }

  /** How the begin step of a capture ended. */
  datatype Start =
    | Ignored      // the guard returned early
    | NoContext    // the canvas had no 2D context: nothing was sent
    | Awaiting     // the frame was captured and the recognition call is pending

  /** The state of one mounted capture screen. */
  class CaptureScreen {
    var isProcessing: bool
    var lastResult: LastResult

    /** Initial state (CameraView.tsx:15-20). */
    constructor ()
      ensures !isProcessing && lastResult == IdleResult
    {
      isProcessing := false;
      lastResult := IdleResult;
    }

    /** The camera could not be opened (CameraView.tsx:35-38). */
    method CameraFailed()
      modifies this
      ensures lastResult == CameraErrorResult && isProcessing == old(isProcessing)
    {
      lastResult := CameraErrorResult;
    }

    /**
     * `handleCapture` up to the recognition call (CameraView.tsx:55-68). A
     * capture the guard refuses changes nothing. Otherwise the screen shows
     * "Analyzing face..." and is processing while the call is pending; without
     * a 2D context the handler ends at once and processing is over.
     */
    method BeginCapture(students: seq<Student>, videoMounted: bool, canvasMounted: bool,
                        hasContext: bool)
      returns (start: Start)
      modifies this
      ensures !GuardPasses(old(isProcessing), videoMounted, canvasMounted, students) ==>
                start == Ignored && isProcessing == old(isProcessing) && lastResult == old(lastResult)
      ensures GuardPasses(old(isProcessing), videoMounted, canvasMounted, students) ==>
                && lastResult == AnalyzingResult
                && start == (if hasContext then Awaiting else NoContext)
                && isProcessing == hasContext
    {
      if isProcessing || !videoMounted || !canvasMounted || |students| == 0 {
        return Ignored;
      }
      isProcessing := true;
      lastResult := AnalyzingResult;
      if !hasContext {
        isProcessing := false;
        return NoContext;
      }
      start := Awaiting;
    }

    /**
     * `handleCapture` after the recognition call resolved to `result`
     * (CameraView.tsx:70-87): the panel shows the verdict, processing is
     * over, and `marked` is the id handed to `onAttendanceMarked`, if any.
     */
    method FinishCapture(students: seq<Student>, result: RecognitionResult, percentText: string)
      returns (marked: Option<string>)
      requires isProcessing
      modifies this
      ensures !isProcessing
      ensures lastResult == Dispatch(students, result, percentText).view
      ensures marked == Dispatch(students, result, percentText).mark
    {
      var verdict := Dispatch(students, result, percentText);
      lastResult := verdict.view;
      marked := verdict.mark;
      isProcessing := false;
    }

    /** The "Mark Next" button (CameraView.tsx:190): back to an empty idle panel. */
    method MarkNext()
      modifies this
      ensures lastResult == IdleResult && isProcessing == old(isProcessing)
    {
      lastResult := IdleResult;
    }
  }
}
