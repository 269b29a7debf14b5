/**
 * The decision logic of the `/api/tasks` handlers: which status each
 * request gets, and how a flat update body becomes a task again. Request
 * bodies are validated before a handler runs, so an invalid body is answered
 * with 400 whether or not a user is signed in.
 */
module TaskRoutes {
  import opened Common
  import opened TaskModel
  import opened Schemas
  import opened TaskQueries

  /** The signed-in user, as the authentication middleware supplies it. */
  datatype User = User(id: string)

  datatype ResponseBody =
    | TaskJson(task: Task)
    | TaskListJson(tasks: seq<Task>)
    | ErrorJson(message: string)
    | IssueJson(issue: Issue)
    | NoContent

  datatype Response = Response(status: int, body: ResponseBody)

  const Unauthorized: Response := Response(401, ErrorJson("Unauthorized"))
  const TaskNotFound: Response := Response(404, ErrorJson("Task not found"))
  const IdMismatch: Response := Response(400, ErrorJson("ID mismatch"))

  /** An exception escaping a handler (a failed insert) becomes a 500. */
  const InternalError: Response := Response(500, ErrorJson("Internal Server Error"))

  function Invalid(issue: Issue): Response {
    Response(400, IssueJson(issue))
  }

  /** GET /api/tasks */
  function ListTasks(db: Db, user: Option<User>): (r: Response)
    ensures user.None? <==> r == Unauthorized
    ensures user.Some? ==> r == Response(200, TaskListJson(GetAllTasks(db, user.value.id)))
  {
    match user
    case None => Unauthorized
    case Some(u) => Response(200, TaskListJson(GetAllTasks(db, u.id)))
  }

  /** GET /api/tasks/:id */
  function GetTask(db: Db, user: Option<User>, id: string): (r: Response)
    ensures user.None? ==> r == Unauthorized
    ensures user.Some? ==> (r == TaskNotFound <==> !Owns(db, id, user.value.id))
    ensures user.Some? && Owns(db, id, user.value.id) ==>
              r.status == 200 && r.body == TaskJson(GetTaskById(db, id, Some(user.value.id)).value)
  {
    match user
    case None => Unauthorized
    case Some(u) =>
      match GetTaskById(db, id, Some(u.id))
      case None => TaskNotFound
      case Some(t) => Response(200, TaskJson(t))
  }

  /** POST /api/tasks */
  function PostTask(db: Db, user: Option<User>, raw: CreateInput, freshId: string, now: string): (w: Write<Response>)
    ensures ValidateCreate(raw).Err? ==> w == Write(db, Invalid(ValidateCreate(raw).error))
    ensures ValidateCreate(raw).Ok? && user.None? ==> w == Write(db, Unauthorized)
    ensures Valid(db) && ValidateCreate(raw).Ok? && user.Some? && freshId !in Ids(db.tasks) ==>
              && w.result.status == 201
              && w.result.body.TaskJson?
              && Some(w.result.body.task) == GetTaskById(w.db, freshId, Some(user.value.id))
    ensures Valid(db) ==> Valid(w.db)
  {
    match ValidateCreate(raw)
    case Err(issue) => Write(db, Invalid(issue))
    case Ok(data) =>
      match user
      case None => Write(db, Unauthorized)
      case Some(u) =>
        var created := CreateTask(db, u.id, data, freshId, now);
        match created.result
        case None => Write(db, InternalError)
        case Some(t) =>
          assert Valid(db) ==> GetTaskById(created.db, freshId, Some(u.id)) == Some(t) by {
            if Valid(db) { CreateThenGet(db, u.id, data, freshId, now); }
          }
          Write(created.db, Response(201, TaskJson(t)))
  }

  /**
   * The PUT handler's rebuilding of a task from the flat payload: the
   * payload's `type` picks the variant, only that variant's fields are kept,
   * and missing ones take the defaults 30 days, no dates, target 100,
   * current value 0 and unit "units".
   */
  function RebuildTask(p: UpdatePayload): (t: TaskEdit)
    ensures t.id == p.id && t.title == p.title && t.description == p.description
    ensures t.checkInEnabled == p.checkInEnabled
    ensures t.details.Kind() == p.taskType
    ensures p.taskType == Daily ==>
              t.details == DailyDetails(p.targetDays.GetOr(30.0), p.completedDates.GetOr([]))
    ensures p.taskType == Progress ==>
              t.details == ProgressDetails(p.targetValue.GetOr(100.0), p.currentValue.GetOr(0.0),
                                           p.unit.GetOr("units"))
    ensures p.taskType == OneTime ==> t.details == OneTimeDetails(p.completedAt)
  {
    var details :=
      match p.taskType
      case Daily => DailyDetails(p.targetDays.GetOr(DefaultTargetDays), p.completedDates.GetOr([]))
      case Progress =>
        ProgressDetails(p.targetValue.GetOr(DefaultTargetValue), p.currentValue.GetOr(0.0),
                        p.unit.GetOr(DefaultUnit))
      case OneTime => OneTimeDetails(p.completedAt);
    TaskEdit(p.id, p.title, p.description, p.checkInEnabled, details)
  }

  /** PUT /api/tasks/:id, given the outcome of validating its body. */
  function PutValidated(db: Db, user: Option<User>, pathId: string, payload: Result<UpdatePayload, Issue>, now: string): (w: Write<Response>)
    ensures payload.Err? ==> w == Write(db, Invalid(payload.error))
    ensures payload.Ok? && user.None? ==> w == Write(db, Unauthorized)
    ensures payload.Ok? && user.Some? && payload.value.id != pathId ==> w == Write(db, IdMismatch)
    ensures payload.Ok? && user.Some? && payload.value.id == pathId ==>
              && (w.result == TaskNotFound <==> !Owns(db, pathId, user.value.id))
              && (!Owns(db, pathId, user.value.id) ==> w.db == db)
              && (Owns(db, pathId, user.value.id) ==>
                    && w.result.status == 200
                    && w == (var u := UpdateTask(db, user.value.id, RebuildTask(payload.value), now);
                             Write(u.db, Response(200, TaskJson(u.result.value)))))
  {
    match payload
    case Err(issue) => Write(db, Invalid(issue))
    case Ok(data) =>
      match user
      case None => Write(db, Unauthorized)
      case Some(u) =>
        if data.id != pathId then Write(db, IdMismatch)
        else
          var updated := UpdateTask(db, u.id, RebuildTask(data), now);
          match updated.result
          case None => Write(updated.db, TaskNotFound)
          case Some(t) => Write(updated.db, Response(200, TaskJson(t)))
  }

  /** PUT /api/tasks/:id with the update schema as written. */
  function PutTaskAsWritten(db: Db, user: Option<User>, pathId: string, raw: UpdateInput, now: string): (w: Write<Response>)
    ensures (ValidateUpdate(raw).Ok? && user.Some? && raw.id == Some(pathId)
             && Owns(db, pathId, user.value.id)) ==> w.result.status == 200
  {
    PutValidated(db, user, pathId, ValidateUpdate(raw), now)
  }

  /** PUT /api/tasks/:id with the update schema that declares `currentValue`. */
  function PutTask(db: Db, user: Option<User>, pathId: string, raw: UpdateInput, now: string): (w: Write<Response>)
    ensures ValidateUpdate(raw).Ok? <==> ValidateUpdateKeepingProgress(raw).Ok?
    ensures ValidateUpdate(raw).Err? ==> w.result.status == 400 && w.db == db
    ensures ValidateUpdate(raw).Ok? && user.None? ==> w == Write(db, Unauthorized)
  {
    PutValidated(db, user, pathId, ValidateUpdateKeepingProgress(raw), now)
  }

  /** DELETE /api/tasks/:id */
  function DeleteRoute(db: Db, user: Option<User>, id: string): (w: Write<Response>)
    ensures user.None? ==> w == Write(db, Unauthorized)
    ensures user.Some? ==>
              && (w.result == Response(204, NoContent) <==> Owns(db, id, user.value.id))
              && (w.result == TaskNotFound <==> !Owns(db, id, user.value.id))
              && w.db == DeleteTask(db, id, user.value.id).db
  {
    match user
    case None => Write(db, Unauthorized)
    case Some(u) =>
      var deleted := DeleteTask(db, id, u.id);
      if !deleted.result then Write(deleted.db, TaskNotFound)
      else Write(deleted.db, Response(204, NoContent))
  }

  /** POST /api/tasks/:id/checkin */
  function CheckInRoute(db: Db, user: Option<User>, id: string, raw: CheckInInput, now: string): (w: Write<Response>)
    ensures raw.completed.None? ==> w.result.status == 400 && w.db == db
    ensures raw.completed.Some? && user.None? ==> w == Write(db, Unauthorized)
    ensures raw.completed.Some? && user.Some? ==>
              && (w.result == TaskNotFound <==> !Owns(db, id, user.value.id))
              && (Owns(db, id, user.value.id) ==>
                    && GetTaskById(w.db, id, Some(user.value.id)).Some?
                    && w.result == Response(200, TaskJson(GetTaskById(w.db, id, Some(user.value.id)).value)))
  {
    match ValidateCheckIn(raw)
    case Err(issue) => Write(db, Invalid(issue))
    case Ok(data) =>
      match user
      case None => Write(db, Unauthorized)
      case Some(u) =>
        var checked := RecordCheckIn(db, id, u.id, data.completed, data.value, now);
        RecordCheckInReadsBack(db, id, u.id, data.completed, data.value, now);
        match checked.result
        case None => Write(checked.db, TaskNotFound)
        case Some(t) => Write(checked.db, Response(200, TaskJson(t)))
  }

  // ---------------------------------------------------------------------------
  // Echoing a task back through PUT

  function TypeName(k: TaskType): string {
    match k
    case Daily => "daily"
    case Progress => "progress"
    case OneTime => "one-time"
  }

  /** The body a client sends to save a task it holds: the whole task as JSON. */
  function EchoBody(t: Task): UpdateInput {
    var base := UpdateInput(Some(t.id), Some(t.title), t.description, Some(TypeName(t.Type())),
                            Some(t.checkInEnabled), None, None, None, None, None, None, None);
    match t.details
    case DailyDetails(targetDays, dates) => base.(targetDays := Some(targetDays), completedDates := Some(dates))
    case ProgressDetails(targetValue, currentValue, unit) =>
      base.(targetValue := Some(targetValue), unit := Some(unit), currentValue := Some(currentValue))
    case OneTimeDetails(completedAt) => base.(completedAt := completedAt)
  }

  function EditOf(t: Task): TaskEdit {
    TaskEdit(t.id, t.title, t.description, t.checkInEnabled, t.details)
  }

  /** A task that the create or update schema could have produced. */
  predicate Storable(t: Task) {
    |t.title| >= 1 && (t.description.Some? ==> WellFormedDescription(t.description.value))
  }

  /**
   * With the corrected schema, rebuilding the body a client sends for a
   * task gives back exactly that task's editable fields.
   */
  lemma EchoRebuildsTask(t: Task)
    requires Storable(t)
    ensures ValidateUpdateKeepingProgress(EchoBody(t)).Ok?
    ensures RebuildTask(ValidateUpdateKeepingProgress(EchoBody(t)).value) == EditOf(t)
  {
    if t.description.Some? {
      WellFormedDescriptionIsFixed(t.description.value);
    }
  }

  /**
   * With the schema as written, the same echo loses a progress task's
   * current value: the rebuilt task always carries 0.
   */
  lemma EchoAsWrittenZeroesProgress(t: Task)
    requires Storable(t)
    requires IsProgressTask(t)
    ensures ValidateUpdate(EchoBody(t)).Ok?
    ensures RebuildTask(ValidateUpdate(EchoBody(t)).value).details.currentValue == 0.0
  {
    if t.description.Some? {
      WellFormedDescriptionIsFixed(t.description.value);
    }
  }

  /**
   * Saving a stored progress task unchanged through PUT as written resets
   * the stored current value to 0, whatever it was.
   */
  lemma PutEchoAsWrittenResetsProgress(db: Db, u: User, t: Task, now: string)
    requires Owns(db, t.id, u.id)
    requires GetTaskById(db, t.id, Some(u.id)) == Some(t)
    requires Storable(t) && IsProgressTask(t)
    ensures var w := PutTaskAsWritten(db, Some(u), t.id, EchoBody(t), now);
            && w.result.status == 200
            && var stored := GetTaskById(w.db, t.id, Some(u.id));
            && stored.Some? && stored.value.details.ProgressDetails?
            && stored.value.details.currentValue == 0.0
  {
    EchoAsWrittenZeroesProgress(t);
    var edit := RebuildTask(ValidateUpdate(EchoBody(t)).value);
    UpdateTaskResult(db, u.id, edit, now);
  }

  /**
   * With the corrected schema, saving a stored task unchanged through PUT
   * stores and returns the same task, only with `updatedAt` bumped.
   */
  lemma PutEchoKeepsTask(db: Db, u: User, t: Task, now: string)
    requires Owns(db, t.id, u.id)
    requires GetTaskById(db, t.id, Some(u.id)) == Some(t)
    requires Storable(t)
    ensures var w := PutTask(db, Some(u), t.id, EchoBody(t), now);
            && w.result == Response(200, TaskJson(t.(updatedAt := now)))
            && GetTaskById(w.db, t.id, Some(u.id)) == Some(t.(updatedAt := now))
  {
    EchoRebuildsTask(t);
    var edit := EditOf(t);
    UpdateTaskResult(db, u.id, edit, now);
    if IsDailyTask(t) {
      UpdateDailyTaskReadsBack(db, u.id, edit, now);
    }
  }
}
