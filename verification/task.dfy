/**
 * The task entity: a three-way tagged union (daily habit, cumulative progress,
 * one-time goal) with the pure derivations the client and the server share:
 * completion, percentage progress and "done today".
 */
module TaskModel {
  import opened Common

  /** The discriminator: `'daily' | 'progress' | 'one-time'`. */
  datatype TaskType = Daily | Progress | OneTime

  /** The variant-specific part of a task; each variant's fields are disjoint. */
  datatype Details =
    | DailyDetails(targetDays: real, completedDates: seq<string>)
    | ProgressDetails(targetValue: real, currentValue: real, unit: string)
    | OneTimeDetails(completedAt: Option<string>)
  {
    /** The tag this variant carries. */
    function Kind(): TaskType {
      match this
      case DailyDetails(_, _) => Daily
      case ProgressDetails(_, _, _) => Progress
      case OneTimeDetails(_) => OneTime
    }
  }

  /**
   * A task as the server returns it. `createdAt`/`updatedAt` are ISO
   * timestamps, kept as opaque strings; `description` is absent or a string.
   */
  datatype Task = Task(
    id: string,
    title: string,
    description: Option<string>,
    createdAt: string,
    updatedAt: string,
    checkInEnabled: bool,
    details: Details)
  {
    function Type(): TaskType { details.Kind() }
  }

  /** The payload of a create request once validated. */
  datatype CreateTaskData = CreateTaskData(
    title: string,
    description: Option<string>,
    taskType: TaskType,
    targetDays: Option<real>,
    targetValue: Option<real>,
    unit: Option<string>,
    checkInEnabled: Option<bool>)

  // Type guards

  predicate IsDailyTask(t: Task) { t.Type() == Daily }
  predicate IsProgressTask(t: Task) { t.Type() == Progress }
  predicate IsOneTimeTask(t: Task) { t.Type() == OneTime }

  /** Exactly one of the three type guards holds for any task. */
  lemma ExactlyOneGuard(t: Task)
    ensures IsDailyTask(t) || IsProgressTask(t) || IsOneTimeTask(t)
    ensures !(IsDailyTask(t) && IsProgressTask(t))
    ensures !(IsDailyTask(t) && IsOneTimeTask(t))
    ensures !(IsProgressTask(t) && IsOneTimeTask(t))
    ensures IsDailyTask(t) <==> t.details.DailyDetails?
    ensures IsProgressTask(t) <==> t.details.ProgressDetails?
    ensures IsOneTimeTask(t) <==> t.details.OneTimeDetails?
  {
  }

  /**
   * Whether the goal is reached. For daily and progress tasks with a
   * positive target this is exactly a full progress bar; a full bar always
   * means the goal is reached.
   */
  function IsTaskCompleted(t: Task): (r: bool)
    ensures HasPositiveTarget(t) && !t.details.OneTimeDetails? ==> (r <==> GetTaskProgress(t) == 100.0)
    ensures HasPositiveTarget(t) && GetTaskProgress(t) == 100.0 ==> r
  {
    match t.details
    case DailyDetails(targetDays, dates) =>
      var reached := |dates| as real >= targetDays;
      if targetDays > 0.0 then RatioReachesHundred(|dates| as real, targetDays); reached else reached
    case ProgressDetails(targetValue, currentValue, _) =>
      var reached := currentValue >= targetValue;
      if targetValue > 0.0 then RatioReachesHundred(currentValue, targetValue); reached else reached
    case OneTimeDetails(completedAt) => completedAt.Some?
  }

  /** JavaScript truthiness of an optional string: present and non-empty. */
  predicate Truthy(s: Option<string>) {
    s.Some? && s.value != ""
  }

  function Min(a: real, b: real): real {
    if a <= b then a else b
  }

  /**
   * The progress denominators are positive. The source has no guard against
   * a zero target (it would yield NaN or Infinity), so the percentage is only
   * defined for positive targets.
   */
  predicate HasPositiveTarget(t: Task) {
    match t.details
    case DailyDetails(targetDays, _) => targetDays > 0.0
    case ProgressDetails(targetValue, _, _) => targetValue > 0.0
    case OneTimeDetails(_) => true
  }

  /** Percentage of the goal reached, capped at 100. */
  function GetTaskProgress(t: Task): (r: real)
    requires HasPositiveTarget(t)
    ensures r <= 100.0
    ensures IsDailyTask(t) ==> 0.0 <= r
    ensures IsProgressTask(t) && t.details.currentValue >= 0.0 ==> 0.0 <= r
    ensures IsOneTimeTask(t) ==> (r == 100.0 || r == 0.0)
    ensures IsOneTimeTask(t) ==> (r == 100.0 <==> Truthy(t.details.completedAt))
  {
    match t.details
    case DailyDetails(targetDays, dates) =>
      Min(100.0, (|dates| as real / targetDays) * 100.0)
    case ProgressDetails(targetValue, currentValue, _) =>
      Min(100.0, (currentValue / targetValue) * 100.0)
    case OneTimeDetails(completedAt) =>
      if Truthy(completedAt) then 100.0 else 0.0
  }

  /** With a positive denominator, `x / d * 100` reaches 100 exactly when `x >= d`. */
  lemma RatioReachesHundred(x: real, d: real)
    requires d > 0.0
    ensures (x / d) * 100.0 >= 100.0 <==> x >= d
  {
    var q := x / d;
    assert q * d == x;
  }

  /**
   * A one-time task is completed whenever `completedAt` is present, but its
   * progress is 100 only when that string is non-empty; an empty
   * `completedAt` counts as completed at 0%.
   */
  lemma OneTimeCompletionVersusProgress(t: Task)
    requires IsOneTimeTask(t)
    ensures IsTaskCompleted(t) && GetTaskProgress(t) == 0.0 <==> t.details.completedAt == Some("")
    ensures !IsTaskCompleted(t) ==> GetTaskProgress(t) == 0.0
    ensures GetTaskProgress(t) == 100.0 ==> IsTaskCompleted(t)
  {
  }

  /** `Array.prototype.includes` on strings. */
  function Includes(xs: seq<string>, x: string): (r: bool)
    ensures r <==> x in xs
  {
    if |xs| == 0 then false
    else xs[0] == x || Includes(xs[1..], x)
  }

  /** Whether a daily task has `today` among its completion dates. */
  function IsDailyTaskCompletedToday(t: Task, today: string): (r: bool)
    requires IsDailyTask(t)
    ensures r <==> exists i :: 0 <= i < |t.details.completedDates| && t.details.completedDates[i] == today
  {
    Includes(t.details.completedDates, today)
  }
}
