/**
 * The recognition adapter of services/geminiService.ts: the empty-roster
 * short-circuit, the layout of the request sent to the image service, the
 * extraction of base64 payloads from data URLs and the uniform error result.
 * The remote call itself is an oracle: its outcome is a parameter.
 */
module Recognition {
  import opened Types

  /**
   * JavaScript's `s.split(sep)` for a one-character separator: the maximal
   * separator-free segments, in order. The empty string splits into [""].
   */
  function Split(s: string, sep: char): (parts: seq<string>)
    ensures |parts| >= 1
    ensures forall i :: 0 <= i < |parts| ==> sep !in parts[i]
    ensures sep !in s <==> |parts| == 1
    ensures sep !in s ==> parts == [s]
    decreases |s|
  {
    if s == [] then [[]]
    else
      var rest := Split(s[1..], sep);
      if s[0] == sep then [[]] + rest
      else
        assert s == [s[0]] + s[1..];
        assert sep in s <==> sep in s[1..];
        [[s[0]] + rest[0]] + rest[1..]
  }

  /** The inverse of Split: the segments glued back with the separator between them. */
  function Join(parts: seq<string>, sep: char): (joined: string)
    requires |parts| >= 1
    decreases |parts|
  {
    if |parts| == 1 then parts[0] else parts[0] + [sep] + Join(parts[1..], sep)
  }

  /** Splitting loses nothing: joining the segments gives the string back. */
  lemma {:induction false} JoinSplit(s: string, sep: char)
    ensures Join(Split(s, sep), sep) == s
    decreases |s|
  {
    if s != [] {
      var rest := Split(s[1..], sep);
      JoinSplit(s[1..], sep);
      if s[0] != sep {
        if |rest| == 1 {
          assert Split(s, sep) == [[s[0]] + rest[0]];
        } else {
          var parts := Split(s, sep);
          assert parts[1..] == rest[1..];
          assert Join(parts, sep) == [s[0]] + rest[0] + [sep] + Join(rest[1..], sep);
          assert Join(rest, sep) == rest[0] + [sep] + Join(rest[1..], sep);
          assert s == [s[0]] + s[1..];
        }
      } else {
        assert Split(s, sep)[1..] == rest;
        assert s == [sep] + s[1..];
      }
    }
  }

  /** A separator-free prefix followed by the separator becomes the first segment. */
  lemma {:induction false} SplitAfterPrefix(prefix: string, sep: char, rest: string)
    requires sep !in prefix
    ensures Split(prefix + [sep] + rest, sep) == [prefix] + Split(rest, sep)
    decreases |prefix|
  {
    var s := prefix + [sep] + rest;
    if prefix == [] {
      assert s[1..] == rest;
    } else {
      assert s[1..] == prefix[1..] + [sep] + rest;
      SplitAfterPrefix(prefix[1..], sep, rest);
      assert [prefix[0]] + prefix[1..] == prefix;
    }
  }

  /** Splitting is determined by its segments: Join followed by Split gives them back. */
  lemma {:induction false} SplitJoin(parts: seq<string>, sep: char)
    requires |parts| >= 1
    requires forall i :: 0 <= i < |parts| ==> sep !in parts[i]
    ensures Split(Join(parts, sep), sep) == parts
    decreases |parts|
  {
    if |parts| > 1 {
      SplitJoin(parts[1..], sep);
      SplitAfterPrefix(parts[0], sep, Join(parts[1..], sep));
      assert [parts[0]] + parts[1..] == parts;
    }
  }

  /**
   * `dataUrl.split(',')[1]`: the base64 payload of a data URL, the text after
   * the first comma up to any second comma; None (JavaScript's undefined)
   * when the string holds no comma.
   */
  function Payload(dataUrl: string): (r: Option<string>)
    ensures r.None? <==> ',' !in dataUrl
    ensures r.Some? ==> ',' !in r.value
  {
    var parts := Split(dataUrl, ',');
    if |parts| > 1 then Some(parts[1]) else None
  }

  /** The payload of "prefix,rest" is the first segment of rest. */
  lemma PayloadAfterFirstComma(prefix: string, rest: string)
    requires ',' !in prefix
    ensures Payload(prefix + "," + rest) == Some(Split(rest, ',')[0])
  {
    SplitAfterPrefix(prefix, ',', rest);
  }

  /** For "prefix,payload" with no comma in either part, the payload is returned whole. */
  lemma PayloadOfDataUrl(prefix: string, payload: string)
    requires ',' !in prefix && ',' !in payload
    ensures Payload(prefix + "," + payload) == Some(payload)
  {
    PayloadAfterFirstComma(prefix, payload);
  }

  /** One roster entry of the request's second text part (geminiService.ts:25). */
  datatype StudentSummary = StudentSummary(id: string, name: string, roll: string)

  /**
   * One part of the request. `RosterText` is the "Reference Students: ..."
   * text part, kept as the list it serializes; `InlineData` carries an image,
   * whose data is absent when the data URL has no comma.
   */
  datatype Part =
    | Text(text: string)
    | RosterText(entries: seq<StudentSummary>)
    | InlineData(mimeType: string, data: Option<string>)

  const InstructionPrompt: string :=
    "Task: Identify the person in the first image (the 'Target') by comparing it to the provided reference images. Each reference image is associated with a Student ID and Name."

  const NoStudentsReason: string := "No students registered in the system."
  const ServiceErrorReason: string := "Error communicating with AI service."

  /** The result for an empty roster (geminiService.ts:11-13). */
  const NoStudentsResult: RecognitionResult := RecognitionResult(None, 0.0, NoStudentsReason)

  /** The result for any failure of the call or of parsing its answer (geminiService.ts:74-77). */
  const ServiceErrorResult: RecognitionResult := RecognitionResult(None, 0.0, ServiceErrorReason)

  /** `students.map(s => ({ id, name, roll }))`: one summary per student, in roster order. */
  function Summaries(students: seq<Student>): (r: seq<StudentSummary>)
    ensures |r| == |students|
    ensures forall i :: 0 <= i < |students| ==>
              r[i] == StudentSummary(students[i].id, students[i].name, students[i].rollNumber)
  {
    seq(|students|, i requires 0 <= i < |students| =>
      StudentSummary(students[i].id, students[i].name, students[i].rollNumber))
  }

  /** The label in front of a student's reference image (geminiService.ts:36). */
  function ReferenceLabel(s: Student): (text: string) {
    "Reference for Student ID: " + s.id + " (" + s.name + ")"
  }

  /** An image part for a data URL, declared as JPEG (geminiService.ts:26-31, 37-42). */
  function JpegPart(dataUrl: string): (part: Part) {
    InlineData("image/jpeg", Payload(dataUrl))
  }

  /**
   * The layout of a request for `captured` and a roster: the instruction prompt, the
   * roster summary, the target image, then for each student in roster order
   * its label immediately followed by its reference image.
   */
  predicate IsRequest(parts: seq<Part>, captured: string, students: seq<Student>) {
    && |parts| == 3 + 2 * |students|
    && parts[0] == Text(InstructionPrompt)
    && parts[1] == RosterText(Summaries(students))
    && parts[2] == JpegPart(captured)
    && forall i :: 0 <= i < |students| ==>
         parts[3 + 2 * i] == Text(ReferenceLabel(students[i]))
         && parts[4 + 2 * i] == JpegPart(students[i].photoUrl)
  }

  /** The layout fixes the request completely: two requests for the same inputs are equal. */
  lemma RequestIsDetermined(p: seq<Part>, q: seq<Part>, captured: string, students: seq<Student>)
    requires IsRequest(p, captured, students) && IsRequest(q, captured, students)
    ensures p == q
  {
    forall k | 3 <= k < |p| ensures p[k] == q[k] {
      var i := (k - 3) / 2;
      assert 0 <= i < |students| && (k == 3 + 2 * i || k == 4 + 2 * i);
      assert p[3 + 2 * i] == Text(ReferenceLabel(students[i])) == q[3 + 2 * i];
      assert p[4 + 2 * i] == JpegPart(students[i].photoUrl) == q[4 + 2 * i];
    }
  }

  /**
   * geminiService.ts:23-43: the three leading parts, then a label and an
   * image pushed for each student in turn.
   */
  method BuildParts(captured: string, students: seq<Student>) returns (parts: seq<Part>)
    ensures IsRequest(parts, captured, students)
  {
    parts := [Text(InstructionPrompt), RosterText(Summaries(students)), JpegPart(captured)];
    var n := 0;
    while n < |students|
      invariant 0 <= n <= |students|
      invariant |parts| == 3 + 2 * n
      invariant parts[0] == Text(InstructionPrompt)
      invariant parts[1] == RosterText(Summaries(students))
      invariant parts[2] == JpegPart(captured)
      invariant forall i :: 0 <= i < n ==>
                  parts[3 + 2 * i] == Text(ReferenceLabel(students[i]))
                  && parts[4 + 2 * i] == JpegPart(students[i].photoUrl)
    {
      parts := parts + [Text(ReferenceLabel(students[n]))];
      parts := parts + [JpegPart(students[n].photoUrl)];
      n := n + 1;
    }
  }

  /**
   * What the remote call resolved to: a parsed answer (no schema check is
   * made on it), or a failure of the call or of JSON parsing.
   */
  datatype Reply = Answered(result: RecognitionResult) | Failed

  /** What `identifyStudent` resolves to once a request was sent and answered by `reply`. */
  function Resolved(reply: Reply): (r: RecognitionResult)
    ensures reply.Failed? ==> r == ServiceErrorResult
    ensures reply.Answered? ==> r == reply.result
  {
    if reply.Answered? then reply.result else ServiceErrorResult
  }

  /**
   * `identifyStudent` (geminiService.ts:7-78). `request` is the request
   * sent, None when nothing is sent; `reply` is what that request resolved to.
   */
  method IdentifyStudent(captured: string, students: seq<Student>, reply: Reply)
    returns (request: Option<seq<Part>>, result: RecognitionResult)
    ensures students == [] ==> request == None && result == NoStudentsResult
    ensures students != [] ==>
              && request.Some? && IsRequest(request.value, captured, students)
              && result == Resolved(reply)
  {
    if |students| == 0 {
      return None, NoStudentsResult;
    }
    var parts := BuildParts(captured, students);
    request := Some(parts);
    match reply
    case Answered(r) => result := r;
    case Failed => result := ServiceErrorResult;
  }
}
