/**
 * Request payload validation for the task API: each schema is modelled as a
 * function from the raw (JSON-decoded) payload to either the validated,
 * transformed payload or the first issue found, in field declaration order.
 */
module Schemas {
  import opened Common
  import opened TaskModel
  import Text

  /** Why a payload was rejected. */
  datatype IssueKind = Missing | TooShort | TooLong | NotAnOption | BelowMinimum
  datatype Issue = Issue(field: string, kind: IssueKind)

  const MaxDescriptionLength: nat := 1000

  /** The minimum of an added progress value, 0.01. */
  const MinProgressValue: real := 0.01

  // ---------------------------------------------------------------------------
  // String.prototype.trim

  /** WhiteSpace and LineTerminator code points as ECMAScript's `trim` strips them. */
  predicate IsJsWhitespace(c: char) {
    || c == '\t' || c == '\n' || c == '\U{000B}' || c == '\U{000C}' || c == '\r' || c == ' '
    || c == '\U{00A0}' || c == '\U{1680}' || ('\U{2000}' <= c <= '\U{200A}')
    || c == '\U{2028}' || c == '\U{2029}' || c == '\U{202F}' || c == '\U{205F}'
    || c == '\U{3000}' || c == '\U{FEFF}'
  }

  /** Neither end of `s` is whitespace. */
  predicate NoEdgeWhitespace(s: string) {
    |s| == 0 || (!IsJsWhitespace(s[0]) && !IsJsWhitespace(s[|s| - 1]))
  }

  /** How many whitespace characters `s` starts with. */
  function LeadingWhitespace(s: string): (n: nat)
    ensures n <= |s|
    ensures forall i :: 0 <= i < n ==> IsJsWhitespace(s[i])
    ensures n < |s| ==> !IsJsWhitespace(s[n])
  {
    if |s| == 0 || !IsJsWhitespace(s[0]) then 0 else 1 + LeadingWhitespace(s[1..])
  }

  /** How many whitespace characters `s` ends with. */
  function TrailingWhitespace(s: string): (n: nat)
    ensures n <= |s|
    ensures forall i :: |s| - n <= i < |s| ==> IsJsWhitespace(s[i])
    ensures n < |s| ==> !IsJsWhitespace(s[|s| - 1 - n])
  {
    if |s| == 0 || !IsJsWhitespace(s[|s| - 1]) then 0
    else 1 + TrailingWhitespace(s[..|s| - 1])
  }

  /** `r` is `s[a..a + |r|]` and everything outside that slice is whitespace. */
  predicate IsTrimmedSlice(s: string, r: string, a: int) {
    && 0 <= a && a + |r| <= |s| && r == s[a..a + |r|]
    && (forall i :: 0 <= i < a ==> IsJsWhitespace(s[i]))
    && (forall i :: a + |r| <= i < |s| ==> IsJsWhitespace(s[i]))
  }

  /**
   * `s.trim()`: the longest middle slice of `s` whose ends are not
   * whitespace; only whitespace is cut away.
   */
  function Trim(s: string): (r: string)
    ensures |r| <= |s|
    ensures NoEdgeWhitespace(r)
    ensures exists a :: 0 <= a <= |s| && IsTrimmedSlice(s, r, a)
  {
    var a := LeadingWhitespace(s);
    var rest := s[a..];
    var r := rest[..|rest| - TrailingWhitespace(rest)];
    assert IsTrimmedSlice(s, r, a);
    r
  }

  /** Trimming a string without edge whitespace changes nothing. */
  lemma TrimKeepsTrimmed(s: string)
    requires NoEdgeWhitespace(s)
    ensures Trim(s) == s
  {
    assert LeadingWhitespace(s) == 0;
    assert TrailingWhitespace(s) == 0;
  }

  // ---------------------------------------------------------------------------
  // Field schemas

  /** `taskTypeSchema`: the picklist 'daily' | 'progress' | 'one-time'. */
  function ParseTaskType(raw: Option<string>): (r: Result<TaskType, Issue>)
    ensures r == Ok(Daily) <==> raw == Some("daily")
    ensures r == Ok(Progress) <==> raw == Some("progress")
    ensures r == Ok(OneTime) <==> raw == Some("one-time")
  {
    match raw
    case None => Err(Issue("type", Missing))
    case Some(s) =>
      if s == "daily" then Ok(Daily)
      else if s == "progress" then Ok(Progress)
      else if s == "one-time" then Ok(OneTime)
      else Err(Issue("type", NotAnOption))
  }

  /** `string()` then `minLength(1)`; no trimming, so whitespace-only titles pass. */
  function ValidateTitle(raw: Option<string>): (r: Result<string, Issue>)
    ensures r.Ok? <==> raw.Some? && |raw.value| >= 1
    ensures r.Ok? ==> r.value == raw.value
  {
    match raw
    case None => Err(Issue("title", Missing))
    case Some(s) => if |s| < 1 then Err(Issue("title", TooShort)) else Ok(s)
  }

  /**
   * `descriptionSchema`: optional; the raw length is checked against 1000
   * before anything else, then the text is trimmed and then newline runs are
   * collapsed.
   */
  function ValidateDescription(raw: Option<string>): (r: Result<Option<string>, Issue>)
    ensures r.Ok? <==> raw.None? || |raw.value| <= MaxDescriptionLength
    ensures r.Ok? ==> (r.value.None? <==> raw.None?)
    ensures r.Ok? && raw.Some? ==> r.value.value == Text.NormalizeDescription(Trim(raw.value))
  {
    match raw
    case None => Ok(None)
    case Some(s) =>
      if |s| > MaxDescriptionLength then Err(Issue("description", TooLong))
      else Ok(Some(Text.NormalizeDescription(Trim(s))))
  }

  /** A description as the schema produces it. */
  predicate WellFormedDescription(d: string) {
    && !Text.HasTripleNewline(d)
    && NoEdgeWhitespace(d)
    && |d| <= MaxDescriptionLength
  }

  /**
   * An accepted description has no run of three newlines, no whitespace at
   * either end, and at most 1000 characters.
   */
  lemma AcceptedDescriptionWellFormed(raw: string)
    requires ValidateDescription(Some(raw)).Ok?
    ensures WellFormedDescription(ValidateDescription(Some(raw)).value.value)
  {
    var t := Trim(raw);
    var d := Text.NormalizeDescription(t);
    Text.NormalizedHasNoTriple(t);
    if |t| > 0 {
      Text.NormalizeKeepsFirst(t);
      Text.NormalizeKeepsLast(t);
    }
  }

  /** A description that is already well formed passes through unchanged. */
  lemma WellFormedDescriptionIsFixed(d: string)
    requires WellFormedDescription(d)
    ensures ValidateDescription(Some(d)) == Ok(Some(d))
  {
    TrimKeepsTrimmed(d);
    Text.NormalizeKeepsTripleFree(d);
  }

  // ---------------------------------------------------------------------------
  // Payload schemas. Raw payloads carry each declared key as absent or as a
  // value of its declared JSON type; keys the schema does not declare are
  // listed where a client is known to send them.

  datatype CreateInput = CreateInput(
    title: Option<string>,
    description: Option<string>,
    taskType: Option<string>,
    targetDays: Option<real>,
    targetValue: Option<real>,
    unit: Option<string>,
    checkInEnabled: Option<bool>)

  /** `createTaskSchema`. */
  function ValidateCreate(raw: CreateInput): (r: Result<CreateTaskData, Issue>)
    ensures r.Ok? <==>
              && raw.title.Some? && |raw.title.value| >= 1
              && (raw.description.None? || |raw.description.value| <= MaxDescriptionLength)
              && raw.taskType.Some? && raw.taskType.value in {"daily", "progress", "one-time"}
    ensures r.Ok? ==>
              && r.value.title == raw.title.value
              && r.value.description == ValidateDescription(raw.description).value
              && ParseTaskType(raw.taskType) == Ok(r.value.taskType)
              && r.value.targetDays == raw.targetDays
              && r.value.targetValue == raw.targetValue
              && r.value.unit == raw.unit
              && r.value.checkInEnabled == raw.checkInEnabled
  {
    var title :- ValidateTitle(raw.title);
    var description :- ValidateDescription(raw.description);
    var taskType :- ParseTaskType(raw.taskType);
    Ok(CreateTaskData(title, description, taskType, raw.targetDays, raw.targetValue,
                      raw.unit, raw.checkInEnabled))
  }

  /** One entry of a progress history, as the update schema declares it. */
  datatype CompletedValue = CompletedValue(id: real, date: string, value: real)

  /**
   * A raw update body. `currentValue` is sent by clients (they send the whole
   * task back) but the update schema does not declare it.
   */
  datatype UpdateInput = UpdateInput(
    id: Option<string>,
    title: Option<string>,
    description: Option<string>,
    taskType: Option<string>,
    checkInEnabled: Option<bool>,
    targetDays: Option<real>,
    completedDates: Option<seq<string>>,
    targetValue: Option<real>,
    unit: Option<string>,
    completedValues: Option<seq<CompletedValue>>,
    completedAt: Option<string>,
    currentValue: Option<real>)

  /**
   * A validated update body as the PUT handler reads it; `currentValue` is
   * what the handler sees under that key.
   */
  datatype UpdatePayload = UpdatePayload(
    id: string,
    title: string,
    description: Option<string>,
    taskType: TaskType,
    checkInEnabled: bool,
    targetDays: Option<real>,
    completedDates: Option<seq<string>>,
    targetValue: Option<real>,
    unit: Option<string>,
    completedValues: Option<seq<CompletedValue>>,
    completedAt: Option<string>,
    currentValue: Option<real>)

  /** Fields shared by the as-written update schema and its corrected form. */
  function ValidateUpdateWith(raw: UpdateInput, currentValue: Option<real>): (r: Result<UpdatePayload, Issue>)
    ensures r.Ok? <==>
              && raw.id.Some?
              && raw.title.Some? && |raw.title.value| >= 1
              && (raw.description.None? || |raw.description.value| <= MaxDescriptionLength)
              && raw.taskType.Some? && raw.taskType.value in {"daily", "progress", "one-time"}
              && raw.checkInEnabled.Some?
    ensures r.Ok? ==>
              && r.value.id == raw.id.value
              && r.value.title == raw.title.value
              && r.value.description == ValidateDescription(raw.description).value
              && ParseTaskType(raw.taskType) == Ok(r.value.taskType)
              && r.value.checkInEnabled == raw.checkInEnabled.value
              && r.value.targetDays == raw.targetDays
              && r.value.completedDates == raw.completedDates
              && r.value.targetValue == raw.targetValue
              && r.value.unit == raw.unit
              && r.value.completedValues == raw.completedValues
              && r.value.completedAt == raw.completedAt
              && r.value.currentValue == currentValue
  {
    var id :- if raw.id.Some? then Ok(raw.id.value) else Err(Issue("id", Missing));
    var title :- ValidateTitle(raw.title);
    var description :- ValidateDescription(raw.description);
    var taskType :- ParseTaskType(raw.taskType);
    var checkInEnabled :- if raw.checkInEnabled.Some? then Ok(raw.checkInEnabled.value)
                          else Err(Issue("checkInEnabled", Missing));
    Ok(UpdatePayload(id, title, description, taskType, checkInEnabled, raw.targetDays,
                     raw.completedDates, raw.targetValue, raw.unit, raw.completedValues,
                     raw.completedAt, currentValue))
  }

  /**
   * `updateTaskSchema` as written: it declares no `currentValue` key, and an
   * object schema drops undeclared keys, so the handler never sees one.
   */
  function ValidateUpdate(raw: UpdateInput): (r: Result<UpdatePayload, Issue>)
    ensures r.Ok? ==> r.value.currentValue.None?
  {
    ValidateUpdateWith(raw, None)
  }

  /** Whatever `currentValue` the client sends, the as-written schema produces the same payload. */
  lemma UpdateIgnoresCurrentValue(raw: UpdateInput, v: Option<real>)
    ensures ValidateUpdate(raw.(currentValue := v)) == ValidateUpdate(raw)
  {
  }

  /**
   * The update schema with the `currentValue` key the PUT handler reads:
   * the client's value reaches the handler.
   */
  function ValidateUpdateKeepingProgress(raw: UpdateInput): (r: Result<UpdatePayload, Issue>)
    ensures r.Ok? <==> ValidateUpdate(raw).Ok?
    ensures r.Ok? ==> r.value.currentValue == raw.currentValue
    ensures r.Ok? ==> r.value == ValidateUpdate(raw).value.(currentValue := raw.currentValue)
  {
    ValidateUpdateWith(raw, raw.currentValue)
  }

  /** `checkInEnabled` is optional on create and required on update. */
  lemma CheckInEnabledOptionalOnCreateOnly(c: CreateInput, u: UpdateInput)
    requires ValidateCreate(c).Ok?
    ensures ValidateCreate(c.(checkInEnabled := None)).Ok?
    ensures ValidateUpdate(u.(checkInEnabled := None)).Err?
  {
  }

  datatype CheckInInput = CheckInInput(completed: Option<bool>, value: Option<real>)
  datatype CheckInData = CheckInData(completed: bool, value: Option<real>)

  /** `checkInSchema`: `completed` is required; `value` is optional and unbounded. */
  function ValidateCheckIn(raw: CheckInInput): (r: Result<CheckInData, Issue>)
    ensures r.Ok? <==> raw.completed.Some?
    ensures r.Ok? ==> r.value.completed == raw.completed.value && r.value.value == raw.value
  {
    match raw.completed
    case None => Err(Issue("completed", Missing))
    case Some(c) => Ok(CheckInData(c, raw.value))
  }

  /** `addProgressValueSchema`: a required value of at least 0.01. */
  function ValidateAddProgressValue(raw: Option<real>): (r: Result<real, Issue>)
    ensures r.Ok? <==> raw.Some? && raw.value >= MinProgressValue
    ensures r.Ok? ==> r.value == raw.value && r.value > 0.0
  {
    match raw
    case None => Err(Issue("value", Missing))
    case Some(v) => if v < MinProgressValue then Err(Issue("value", BelowMinimum)) else Ok(v)
  }
}
