/**
 * The owner-scoped task repository over two tables: task rows (one row per
 * task, with nullable type-specific columns) and daily-completion rows
 * (taskId, date), the second referencing the first with ON DELETE CASCADE.
 * Every operation is a pure transition on the two tables; the clock and the
 * fresh id are parameters.
 */
module TaskQueries {
  import opened Common
  import opened TaskModel

  /** A row of the `tasks` table; `None` is SQL NULL. */
  datatype TaskRow = TaskRow(
    id: string,
    userId: string,
    title: string,
    description: Option<string>,
    taskType: TaskType,
    createdAt: string,
    updatedAt: string,
    checkInEnabled: Option<bool>,
    targetDays: Option<real>,
    targetValue: Option<real>,
    currentValue: Option<real>,
    unit: Option<string>,
    completedAt: Option<string>)

  /** A row of the `daily_completions` table. */
  datatype CompletionRow = CompletionRow(taskId: string, completedDate: string)

  /** Both tables, each in storage order. */
  datatype Db = Db(tasks: seq<TaskRow>, completions: seq<CompletionRow>)

  /** The outcome of an operation: the new tables and the operation's result. */
  datatype Write<T> = Write(db: Db, result: T)

  /** The fields of a task that `updateTask` reads. */
  datatype TaskEdit = TaskEdit(
    id: string,
    title: string,
    description: Option<string>,
    checkInEnabled: bool,
    details: Details)

  const DefaultTargetDays: real := 30.0
  const DefaultTargetValue: real := 100.0
  const DefaultUnit: string := "units"

  function Ids(rows: seq<TaskRow>): set<string> {
    set r | r in rows :: r.id
  }

  /**
   * The constraints the tables keep: `id` is the primary key of `tasks`, and
   * every completion references an existing task.
   */
  predicate Valid(db: Db) {
    && (forall i, j :: 0 <= i < j < |db.tasks| ==> db.tasks[i].id != db.tasks[j].id)
    && (forall c :: c in db.completions ==> c.taskId in Ids(db.tasks))
  }

  /** The WHERE clause `id = ? [AND user_id = ?]`. */
  predicate Matches(row: TaskRow, id: string, userId: Option<string>) {
    row.id == id && (userId.None? || row.userId == userId.value)
  }

  /** The position of the first row the WHERE clause selects. */
  function FindRow(rows: seq<TaskRow>, id: string, userId: Option<string>): (r: Option<nat>)
    ensures r.Some? ==> r.value < |rows| && Matches(rows[r.value], id, userId)
    ensures r.Some? ==> forall j :: 0 <= j < r.value ==> !Matches(rows[j], id, userId)
    ensures r.None? ==> forall j :: 0 <= j < |rows| ==> !Matches(rows[j], id, userId)
  {
    if |rows| == 0 then None
    else if Matches(rows[0], id, userId) then Some(0)
    else match FindRow(rows[1..], id, userId)
      case None => None
      case Some(k) => Some(k + 1)
  }

  /** The first matching position is the one `FindRow` reports. */
  lemma FindRowFirstMatch(rows: seq<TaskRow>, id: string, userId: Option<string>, k: nat)
    requires k < |rows| && Matches(rows[k], id, userId)
    requires forall j :: 0 <= j < k ==> !Matches(rows[j], id, userId)
    ensures FindRow(rows, id, userId) == Some(k)
  {
    assert FindRow(rows, id, userId).Some?;
  }

  /** Whether `userId` owns a task with this id. */
  predicate Owns(db: Db, id: string, userId: string) {
    FindRow(db.tasks, id, Some(userId)).Some?
  }

  /** The dates of the completion rows of one task, in storage order. */
  function DatesOf(cs: seq<CompletionRow>, taskId: string): seq<string>
    decreases |cs|
  {
    if |cs| == 0 then []
    else DatesOf(cs[..|cs| - 1], taskId)
         + (if cs[|cs| - 1].taskId == taskId then [cs[|cs| - 1].completedDate] else [])
  }

  /** Completion rows inserted for one task, one per date, in order. */
  function CompletionRows(taskId: string, dates: seq<string>): (r: seq<CompletionRow>)
    ensures |r| == |dates|
    ensures forall k :: 0 <= k < |r| ==> r[k] == CompletionRow(taskId, dates[k])
  {
    seq(|dates|, k requires 0 <= k < |dates| => CompletionRow(taskId, dates[k]))
  }

  /** `DELETE FROM daily_completions WHERE task_id = ?`. */
  function DeleteCompletions(cs: seq<CompletionRow>, taskId: string): (r: seq<CompletionRow>)
    ensures forall c :: c in r <==> c in cs && c.taskId != taskId
    decreases |cs|
  {
    if |cs| == 0 then []
    else DeleteCompletions(cs[..|cs| - 1], taskId)
         + (if cs[|cs| - 1].taskId != taskId then [cs[|cs| - 1]] else [])
  }

  // ---------------------------------------------------------------------------
  // Decoding

  /** `rowToTask`: a row and its completion dates as a task, NULLs replaced by defaults. */
  function RowToTask(row: TaskRow, completedDates: seq<string>): (t: Task)
    ensures t.id == row.id && t.title == row.title && t.description == row.description
    ensures t.createdAt == row.createdAt && t.updatedAt == row.updatedAt
    ensures t.Type() == row.taskType
  {
    var details :=
      match row.taskType
      case Daily => DailyDetails(row.targetDays.GetOr(DefaultTargetDays), completedDates)
      case Progress =>
        ProgressDetails(row.targetValue.GetOr(DefaultTargetValue), row.currentValue.GetOr(0.0),
                        row.unit.GetOr(DefaultUnit))
      case OneTime => OneTimeDetails(row.completedAt);
    Task(row.id, row.title, row.description, row.createdAt, row.updatedAt,
         row.checkInEnabled.GetOr(false), details)
  }

  /** The row that stores a task with every column filled in. */
  function TaskToRow(t: Task, userId: string): TaskRow {
    var base := TaskRow(t.id, userId, t.title, t.description, t.Type(), t.createdAt, t.updatedAt,
                        Some(t.checkInEnabled), None, None, None, None, None);
    match t.details
    case DailyDetails(targetDays, _) => base.(targetDays := Some(targetDays))
    case ProgressDetails(targetValue, currentValue, unit) =>
      base.(targetValue := Some(targetValue), currentValue := Some(currentValue), unit := Some(unit))
    case OneTimeDetails(completedAt) => base.(completedAt := completedAt)
  }

  /** Decoding a fully written row gives the task back; only daily tasks take their dates from the ledger. */
  lemma RowToTaskInvertsTaskToRow(t: Task, userId: string)
    ensures RowToTask(TaskToRow(t, userId), if IsDailyTask(t) then t.details.completedDates else []) == t
  {
  }

  /** Each NULL column decodes to its documented default. */
  lemma RowToTaskDefaults(row: TaskRow, dates: seq<string>)
    ensures row.checkInEnabled.None? ==> !RowToTask(row, dates).checkInEnabled
    ensures row.taskType == Daily && row.targetDays.None? ==>
              RowToTask(row, dates).details.targetDays == 30.0
    ensures row.taskType == Progress ==>
              && (row.targetValue.None? ==> RowToTask(row, dates).details.targetValue == 100.0)
              && (row.currentValue.None? ==> RowToTask(row, dates).details.currentValue == 0.0)
              && (row.unit.None? ==> RowToTask(row, dates).details.unit == "units")
    ensures row.taskType == Daily ==> RowToTask(row, dates).details.completedDates == dates
  {
  }

  // ---------------------------------------------------------------------------
  // Reads

  /**
   * The grouping loop of `getAllTasks`: completions are visited in storage
   * order and each one whose task is among `taskIds` is appended to that
   * task's list.
   */
  function GroupCompletions(cs: seq<CompletionRow>, taskIds: set<string>): (m: map<string, seq<string>>)
    ensures forall id :: id in m ==> id in taskIds
    decreases |cs|
  {
    if |cs| == 0 then map[]
    else
      var m := GroupCompletions(cs[..|cs| - 1], taskIds);
      var c := cs[|cs| - 1];
      if c.taskId in taskIds then m[c.taskId := (if c.taskId in m then m[c.taskId] else []) + [c.completedDate]]
      else m
  }

  /** The list a group holds, `[]` when the map has none. */
  function Lookup(m: map<string, seq<string>>, id: string): seq<string> {
    if id in m then m[id] else []
  }

  /** Grouping gives each selected task exactly its own completion dates, in order. */
  lemma {:induction false} GroupingIsDatesOf(cs: seq<CompletionRow>, taskIds: set<string>, id: string)
    requires id in taskIds
    ensures Lookup(GroupCompletions(cs, taskIds), id) == DatesOf(cs, id)
    decreases |cs|
  {
    if |cs| > 0 {
      GroupingIsDatesOf(cs[..|cs| - 1], taskIds, id);
    }
  }

  function RowsOf(rows: seq<TaskRow>, userId: string): (r: seq<TaskRow>)
    ensures forall row :: row in r <==> row in rows && row.userId == userId
    decreases |rows|
  {
    if |rows| == 0 then []
    else (if rows[0].userId == userId then [rows[0]] else []) + RowsOf(rows[1..], userId)
  }

  /** `getAllTasks`: every task of the user, each with the dates grouped from the ledger. */
  function GetAllTasks(db: Db, userId: string): (r: seq<Task>)
    ensures |r| == |RowsOf(db.tasks, userId)|
  {
    var rows := RowsOf(db.tasks, userId);
    var taskIds := set row | row in rows :: row.id;
    var completions := if |rows| > 0 then db.completions else [];
    var byTask := GroupCompletions(completions, taskIds);
    seq(|rows|, i requires 0 <= i < |rows| => RowToTask(rows[i], Lookup(byTask, rows[i].id)))
  }

  /** `getTaskById`: the first selected row; only a daily task reads its completion rows. */
  function GetTaskById(db: Db, id: string, userId: Option<string>): (r: Option<Task>)
    ensures r.Some? <==> exists j :: 0 <= j < |db.tasks| && Matches(db.tasks[j], id, userId)
    ensures r.Some? ==> r.value.id == id
  {
    match FindRow(db.tasks, id, userId)
    case None => None
    case Some(i) =>
      var row := db.tasks[i];
      Some(RowToTask(row, if row.taskType == Daily then DatesOf(db.completions, id) else []))
  }

  /** The row a user owns under an id. */
  function OwnedRow(db: Db, id: string, userId: string): TaskRow
    requires Owns(db, id, userId)
  {
    db.tasks[FindRow(db.tasks, id, Some(userId)).value]
  }

  /** Reading a task through its owner: the owner's row decoded with the task's own dates. */
  lemma GetOwnedTask(db: Db, id: string, userId: string)
    ensures GetTaskById(db, id, Some(userId)).Some? <==> Owns(db, id, userId)
    ensures Owns(db, id, userId) ==>
              var row := OwnedRow(db, id, userId);
              && row.userId == userId
              && GetTaskById(db, id, Some(userId)).value
                 == RowToTask(row, if row.taskType == Daily then DatesOf(db.completions, id) else [])
  {
  }

  /**
   * `getAllTasks` returns exactly the user's tasks, each equal to what
   * `getTaskById` returns for it, so dates come from the task's own
   * completion rows and only daily tasks carry them.
   */
  lemma GetAllTasksIsOwnerScoped(db: Db, userId: string)
    requires Valid(db)
    ensures forall t :: t in GetAllTasks(db, userId) ==>
              Owns(db, t.id, userId) && GetTaskById(db, t.id, Some(userId)) == Some(t)
    ensures forall row :: row in db.tasks && row.userId == userId ==>
              exists t :: t in GetAllTasks(db, userId) && t.id == row.id
  {
    var rows := RowsOf(db.tasks, userId);
    var taskIds := set row | row in rows :: row.id;
    var completions := if |rows| > 0 then db.completions else [];
    var byTask := GroupCompletions(completions, taskIds);
    var r := GetAllTasks(db, userId);
    forall t | t in r
      ensures Owns(db, t.id, userId) && GetTaskById(db, t.id, Some(userId)) == Some(t)
    {
      var i :| 0 <= i < |r| && r[i] == t;
      var row := rows[i];
      assert row in rows;
      var j :| 0 <= j < |db.tasks| && db.tasks[j] == row;
      var k := FindRow(db.tasks, row.id, Some(userId)).value;
      assert k == j;
      GroupingIsDatesOf(completions, taskIds, row.id);
    }
    forall row | row in db.tasks && row.userId == userId
      ensures exists t :: t in r && t.id == row.id
    {
      assert row in rows;
      var i :| 0 <= i < |rows| && rows[i] == row;
      assert r[i].id == row.id;
    }
  }

  /** Another user's id never reads a task. */
  lemma GetTaskByIdIsOwnerScoped(db: Db, id: string, userId: string)
    requires Valid(db)
    requires exists j :: 0 <= j < |db.tasks| && db.tasks[j].id == id && db.tasks[j].userId != userId
    ensures GetTaskById(db, id, Some(userId)) == None
  {
  }

  // ---------------------------------------------------------------------------
  // Helper facts about the tables

  lemma DatesOfConcat(a: seq<CompletionRow>, b: seq<CompletionRow>, id: string)
    ensures DatesOf(a + b, id) == DatesOf(a, id) + DatesOf(b, id)
    decreases |b|
  {
    if |b| == 0 {
      assert a + b == a;
    } else {
      assert (a + b)[..|a + b| - 1] == a + b[..|b| - 1];
      DatesOfConcat(a, b[..|b| - 1], id);
    }
  }

  lemma {:induction false} DatesOfCompletionRows(taskId: string, dates: seq<string>, id: string)
    ensures DatesOf(CompletionRows(taskId, dates), id) == (if id == taskId then dates else [])
    decreases |dates|
  {
    if |dates| > 0 {
      var rows := CompletionRows(taskId, dates);
      assert rows[..|rows| - 1] == CompletionRows(taskId, dates[..|dates| - 1]);
      DatesOfCompletionRows(taskId, dates[..|dates| - 1], id);
      assert dates == dates[..|dates| - 1] + [dates[|dates| - 1]];
    }
  }

  lemma {:induction false} DatesOfDeleted(cs: seq<CompletionRow>, taskId: string, id: string)
    ensures DatesOf(DeleteCompletions(cs, taskId), id) == (if id == taskId then [] else DatesOf(cs, id))
    decreases |cs|
  {
    if |cs| > 0 {
      var init := cs[..|cs| - 1];
      var last := cs[|cs| - 1];
      DatesOfDeleted(init, taskId, id);
      DatesOfConcat(DeleteCompletions(init, taskId), if last.taskId != taskId then [last] else [], id);
    }
  }

  lemma {:induction false} DatesOfMissing(cs: seq<CompletionRow>, id: string)
    requires forall c :: c in cs ==> c.taskId != id
    ensures DatesOf(cs, id) == []
    decreases |cs|
  {
    if |cs| > 0 {
      DatesOfMissing(cs[..|cs| - 1], id);
    }
  }

  /** Rows keep their ids and owners, position by position. */
  predicate SameKeys(rows: seq<TaskRow>, rows': seq<TaskRow>) {
    && |rows| == |rows'|
    && forall j :: 0 <= j < |rows| ==> rows[j].id == rows'[j].id && rows[j].userId == rows'[j].userId
  }

  lemma FindRowSameKeys(rows: seq<TaskRow>, rows': seq<TaskRow>, id: string, userId: Option<string>)
    requires SameKeys(rows, rows')
    ensures FindRow(rows', id, userId) == FindRow(rows, id, userId)
  {
    var a := FindRow(rows, id, userId);
    var b := FindRow(rows', id, userId);
    if a.Some? {
      assert Matches(rows'[a.value], id, userId);
      assert b.Some? && b.value <= a.value;
      assert Matches(rows[b.value], id, userId);
    } else if b.Some? {
      assert Matches(rows[b.value], id, userId);
    }
  }

  /** `UPDATE tasks SET … WHERE id = ? AND user_id = ?`, the SET clause given as `f`. */
  function UpdateWhere(rows: seq<TaskRow>, id: string, userId: string, f: TaskRow -> TaskRow): (r: seq<TaskRow>)
    ensures |r| == |rows|
    ensures forall j :: 0 <= j < |rows| ==>
              r[j] == (if Matches(rows[j], id, Some(userId)) then f(rows[j]) else rows[j])
  {
    seq(|rows|, j requires 0 <= j < |rows| =>
      if Matches(rows[j], id, Some(userId)) then f(rows[j]) else rows[j])
  }

  lemma IdsSameKeys(rows: seq<TaskRow>, rows': seq<TaskRow>)
    requires SameKeys(rows, rows')
    ensures Ids(rows) == Ids(rows')
  {
    forall x | x in Ids(rows) ensures x in Ids(rows') {
      var r :| r in rows && r.id == x;
      var j :| 0 <= j < |rows| && rows[j] == r;
      assert rows'[j] in rows';
    }
    forall x | x in Ids(rows') ensures x in Ids(rows) {
      var r :| r in rows' && r.id == x;
      var j :| 0 <= j < |rows'| && rows'[j] == r;
      assert rows[j] in rows;
    }
  }

  // ---------------------------------------------------------------------------
  // Writes

  /** `createTask`: the inserted row for a validated payload. */
  function NewRow(userId: string, data: CreateTaskData, freshId: string, now: string): (row: TaskRow)
    ensures row.id == freshId && row.userId == userId && row.taskType == data.taskType
    ensures row.createdAt == now && row.updatedAt == now
  {
    var base := TaskRow(freshId, userId, data.title, data.description, data.taskType, now, now,
                        Some(data.checkInEnabled.GetOr(false)), None, None, None, None, None);
    match data.taskType
    case Daily => base.(targetDays := Some(data.targetDays.GetOr(DefaultTargetDays)))
    case Progress =>
      base.(targetValue := Some(data.targetValue.GetOr(DefaultTargetValue)),
            currentValue := Some(0.0),
            unit := Some(data.unit.GetOr(DefaultUnit)))
    case OneTime => base
  }

  /**
   * `createTask` with the generated id and the clock as parameters. An id
   * that is already taken violates the primary key: the insert fails and
   * nothing is written.
   */
  function CreateTask(db: Db, userId: string, data: CreateTaskData, freshId: string, now: string): (w: Write<Option<Task>>)
    ensures freshId in Ids(db.tasks) ==> w == Write(db, None)
    ensures freshId !in Ids(db.tasks) ==>
              && w.result.Some?
              && w.db == Db(db.tasks + [NewRow(userId, data, freshId, now)], db.completions)
    ensures Valid(db) ==> Valid(w.db)
    ensures w.result.Some? ==>
              var t := w.result.value;
              && t.id == freshId && t.title == data.title && t.description == data.description
              && t.Type() == data.taskType
              && t.createdAt == now && t.updatedAt == now
              && t.checkInEnabled == data.checkInEnabled.GetOr(false)
              && (match t.details
                  case DailyDetails(targetDays, dates) =>
                    targetDays == data.targetDays.GetOr(30.0) && dates == []
                  case ProgressDetails(targetValue, currentValue, unit) =>
                    targetValue == data.targetValue.GetOr(100.0) && currentValue == 0.0
                    && unit == data.unit.GetOr("units")
                  case OneTimeDetails(completedAt) => completedAt.None?)
  {
    if freshId in Ids(db.tasks) then Write(db, None)
    else
      var row := NewRow(userId, data, freshId, now);
      var db' := Db(db.tasks + [row], db.completions);
      assert Ids(db'.tasks) == Ids(db.tasks) + {freshId} by {
        assert forall r :: r in db'.tasks <==> r in db.tasks || r == row;
      }
      Write(db', Some(RowToTask(row, [])))
  }

  /** A created task reads back, through its owner, exactly as `createTask` returned it. */
  lemma CreateThenGet(db: Db, userId: string, data: CreateTaskData, freshId: string, now: string)
    requires Valid(db)
    requires freshId !in Ids(db.tasks)
    ensures var w := CreateTask(db, userId, data, freshId, now);
            GetTaskById(w.db, freshId, Some(userId)) == w.result
  {
    var w := CreateTask(db, userId, data, freshId, now);
    var rows := w.db.tasks;
    forall j | 0 <= j < |db.tasks| ensures !Matches(rows[j], freshId, Some(userId)) {
      assert db.tasks[j] in db.tasks;
    }
    FindRowFirstMatch(rows, freshId, Some(userId), |db.tasks|);
    DatesOfMissing(db.completions, freshId);
  }

  /** The SET clause of `updateTask` for one task. */
  function EditRow(t: TaskEdit, now: string): TaskRow -> TaskRow {
    (row: TaskRow) =>
      var base := row.(title := t.title, description := t.description,
                       checkInEnabled := Some(t.checkInEnabled), updatedAt := now);
      match t.details
      case DailyDetails(targetDays, _) => base.(targetDays := Some(targetDays))
      case ProgressDetails(targetValue, currentValue, unit) =>
        base.(targetValue := Some(targetValue), currentValue := Some(currentValue), unit := Some(unit))
      case OneTimeDetails(completedAt) => base.(completedAt := completedAt)
  }

  /**
   * `updateTask`: an owner-scoped UPDATE; when it affects no row the result
   * is `None`. For a daily task the completion rows of the task are deleted
   * and the task's dates inserted again. The task is then read back.
   */
  function UpdateTask(db: Db, userId: string, t: TaskEdit, now: string): (w: Write<Option<Task>>)
    ensures !Owns(db, t.id, userId) ==> w == Write(db, None)
    ensures Owns(db, t.id, userId) ==> w.result.Some? && w.result == GetTaskById(w.db, t.id, Some(userId))
  {
    var rows := UpdateWhere(db.tasks, t.id, userId, EditRow(t, now));
    if !Owns(db, t.id, userId) then Write(db, None)
    else
      var completions :=
        if t.details.DailyDetails? then
          DeleteCompletions(db.completions, t.id) + CompletionRows(t.id, t.details.completedDates)
        else db.completions;
      var db' := Db(rows, completions);
      assert SameKeys(db.tasks, rows);
      FindRowSameKeys(db.tasks, rows, t.id, Some(userId));
      Write(db', GetTaskById(db', t.id, Some(userId)))
  }

  /** The task table after `updateTask`, and its relation to the stored one. */
  lemma UpdateTaskRows(db: Db, userId: string, t: TaskEdit, now: string)
    requires Owns(db, t.id, userId)
    ensures var rows := UpdateTask(db, userId, t, now).db.tasks;
            && rows == UpdateWhere(db.tasks, t.id, userId, EditRow(t, now))
            && SameKeys(db.tasks, rows)
            && Ids(rows) == Ids(db.tasks)
            && FindRow(rows, t.id, Some(userId)) == FindRow(db.tasks, t.id, Some(userId))
  {
    var rows := UpdateWhere(db.tasks, t.id, userId, EditRow(t, now));
    assert SameKeys(db.tasks, rows);
    FindRowSameKeys(db.tasks, rows, t.id, Some(userId));
    IdsSameKeys(db.tasks, rows);
  }

  /**
   * A successful update writes the edited fields and bumps `updatedAt`, but
   * keeps the stored type, owner and `createdAt`; when the submitted variant
   * matches the stored type the task reads back with exactly the submitted
   * details.
   */
  lemma UpdateTaskResult(db: Db, userId: string, t: TaskEdit, now: string)
    requires Owns(db, t.id, userId)
    ensures var w := UpdateTask(db, userId, t, now);
            var stored := OwnedRow(db, t.id, userId);
            var r := w.result.value;
            && r.id == t.id && r.title == t.title && r.description == t.description
            && r.checkInEnabled == t.checkInEnabled && r.updatedAt == now
            && r.Type() == stored.taskType && r.createdAt == stored.createdAt
            && OwnedRow(w.db, t.id, userId).userId == userId
            && (r.Type() == t.details.Kind() && !t.details.DailyDetails? ==> r.details == t.details)
  {
    UpdateTaskRows(db, userId, t, now);
  }

  /**
   * A successful daily update leaves exactly the submitted dates in the
   * ledger for that task, and every other task's completion rows as they
   * were.
   */
  lemma UpdateTaskLedger(db: Db, userId: string, t: TaskEdit, now: string)
    requires Owns(db, t.id, userId)
    ensures var w := UpdateTask(db, userId, t, now);
            && (t.details.DailyDetails? ==> DatesOf(w.db.completions, t.id) == t.details.completedDates)
            && (forall id :: id != t.id ==> DatesOf(w.db.completions, id) == DatesOf(db.completions, id))
  {
    var w := UpdateTask(db, userId, t, now);
    if t.details.DailyDetails? {
      var del := DeleteCompletions(db.completions, t.id);
      var ins := CompletionRows(t.id, t.details.completedDates);
      assert w.db.completions == del + ins;
      forall id ensures DatesOf(w.db.completions, id) == (if id == t.id then t.details.completedDates else DatesOf(db.completions, id)) {
        DatesOfConcat(del, ins, id);
        DatesOfDeleted(db.completions, t.id, id);
        DatesOfCompletionRows(t.id, t.details.completedDates, id);
      }
    }
  }

  /** A daily task updated with the stored type reads back with exactly the submitted details. */
  lemma UpdateDailyTaskReadsBack(db: Db, userId: string, t: TaskEdit, now: string)
    requires Owns(db, t.id, userId)
    requires t.details.DailyDetails? && OwnedRow(db, t.id, userId).taskType == Daily
    ensures UpdateTask(db, userId, t, now).result.value.details == t.details
  {
    UpdateTaskRows(db, userId, t, now);
    UpdateTaskLedger(db, userId, t, now);
  }

  /** Updates keep the table constraints and touch no other task's row. */
  lemma UpdateTaskFrame(db: Db, userId: string, t: TaskEdit, now: string)
    requires Valid(db)
    requires Owns(db, t.id, userId)
    ensures var w := UpdateTask(db, userId, t, now);
            && Valid(w.db)
            && (forall j :: 0 <= j < |db.tasks| && db.tasks[j].id != t.id ==> w.db.tasks[j] == db.tasks[j])
  {
    var w := UpdateTask(db, userId, t, now);
    UpdateTaskRows(db, userId, t, now);
    assert t.id in Ids(db.tasks) by {
      assert OwnedRow(db, t.id, userId) in db.tasks;
    }
    forall c | c in w.db.completions ensures c.taskId in Ids(w.db.tasks) {
      if t.details.DailyDetails? && c !in db.completions {
        var ins := CompletionRows(t.id, t.details.completedDates);
        assert c in ins;
      }
    }
  }

  /** `deleteTask`: an owner-scoped DELETE whose cascade removes the task's completion rows. */
  function DeleteTask(db: Db, id: string, userId: string): (w: Write<bool>)
    ensures w.result <==> Owns(db, id, userId)
    ensures !w.result ==> w.db == db
    ensures w.result ==> w.db.completions == DeleteCompletions(db.completions, id)
    ensures forall row :: row in w.db.tasks <==> row in db.tasks && !Matches(row, id, Some(userId))
  {
    var rows := DeleteWhere(db.tasks, id, userId);
    DeleteWhereCount(db.tasks, id, userId);
    if |rows| == |db.tasks| then Write(db, false)
    else Write(Db(rows, DeleteCompletions(db.completions, id)), true)
  }

  function DeleteWhere(rows: seq<TaskRow>, id: string, userId: string): (r: seq<TaskRow>)
    ensures |r| <= |rows|
    ensures forall row :: row in r <==> row in rows && !Matches(row, id, Some(userId))
    decreases |rows|
  {
    if |rows| == 0 then []
    else (if Matches(rows[0], id, Some(userId)) then [] else [rows[0]]) + DeleteWhere(rows[1..], id, userId)
  }

  /** The DELETE affects some row exactly when the WHERE clause selects one. */
  lemma {:induction false} DeleteWhereCount(rows: seq<TaskRow>, id: string, userId: string)
    ensures FindRow(rows, id, Some(userId)).None? <==> |DeleteWhere(rows, id, userId)| == |rows|
    ensures FindRow(rows, id, Some(userId)).None? ==> DeleteWhere(rows, id, userId) == rows
    decreases |rows|
  {
    if |rows| > 0 {
      DeleteWhereCount(rows[1..], id, userId);
      assert rows == [rows[0]] + rows[1..];
    }
  }

  /** After a successful delete neither the task nor its completion rows remain, and the constraints hold. */
  lemma DeleteTaskEffect(db: Db, id: string, userId: string)
    requires Valid(db)
    ensures var w := DeleteTask(db, id, userId);
            && Valid(w.db)
            && (w.result ==> GetTaskById(w.db, id, None).None? && DatesOf(w.db.completions, id) == [])
            && (forall other :: other != id ==> DatesOf(w.db.completions, other) == DatesOf(db.completions, other))
  {
    var w := DeleteTask(db, id, userId);
    if w.result {
      var row := OwnedRow(db, id, userId);
      assert row in db.tasks;
      forall r | r in w.db.tasks ensures r.id != id {
      }
      forall other ensures DatesOf(w.db.completions, other) == (if other == id then [] else DatesOf(db.completions, other)) {
        DatesOfDeleted(db.completions, id, other);
      }
      assert Valid(w.db) by {
        forall c | c in w.db.completions ensures c.taskId in Ids(w.db.tasks) {
          assert c in db.completions;
          var r :| r in db.tasks && r.id == c.taskId;
          assert r in w.db.tasks;
        }
        forall i, j | 0 <= i < j < |w.db.tasks| ensures w.db.tasks[i].id != w.db.tasks[j].id {
          DeleteWhereDistinct(db.tasks, id, userId);
        }
      }
    }
  }

  predicate DistinctIds(rows: seq<TaskRow>) {
    forall i, j :: 0 <= i < j < |rows| ==> rows[i].id != rows[j].id
  }

  lemma {:induction false} DeleteWhereDistinct(rows: seq<TaskRow>, id: string, userId: string)
    requires DistinctIds(rows)
    ensures DistinctIds(DeleteWhere(rows, id, userId))
    decreases |rows|
  {
    if |rows| > 0 {
      DeleteWhereDistinct(rows[1..], id, userId);
      var tail := DeleteWhere(rows[1..], id, userId);
      forall k | 0 <= k < |tail| ensures tail[k].id != rows[0].id {
        assert tail[k] in rows[1..];
      }
    }
  }

  // ---------------------------------------------------------------------------
  // Check-in

  /** `now.split('T')[0]`: the date part of an ISO timestamp (everything before the first 'T'). */
  function DatePart(now: string): (r: string)
    ensures 'T' !in r
    ensures r <= now
    ensures |r| < |now| ==> now[|r|] == 'T'
  {
    if |now| == 0 || now[0] == 'T' then [] else [now[0]] + DatePart(now[1..])
  }

  /**
   * `recordCheckIn`: reads the owner's task; a skipped check-in returns it
   * untouched; otherwise a daily task gains today's date once, a progress
   * task gains a positive value, and a one-time task is marked completed
   * today.
   */
  function RecordCheckIn(db: Db, taskId: string, userId: string, completed: bool, value: Option<real>, now: string): (w: Write<Option<Task>>)
    ensures !Owns(db, taskId, userId) ==> w == Write(db, None)
    ensures Owns(db, taskId, userId) && !completed ==>
              w == Write(db, GetTaskById(db, taskId, Some(userId)))
    ensures w.result.Some? ==> w.result.value.id == taskId
  {
    match GetTaskById(db, taskId, Some(userId))
    case None => Write(db, None)
    case Some(task) =>
      if !completed then Write(db, Some(task))
      else
        var today := DatePart(now);
        match task.details
        case DailyDetails(targetDays, dates) =>
          if Includes(dates, today) then Write(db, Some(task))
          else
            var db' := Db(UpdateWhere(db.tasks, taskId, userId, (row: TaskRow) => row.(updatedAt := now)),
                          db.completions + [CompletionRow(taskId, today)]);
            Write(db', Some(task.(updatedAt := now, details := DailyDetails(targetDays, dates + [today]))))
        case ProgressDetails(targetValue, currentValue, unit) =>
          if value.Some? && value.value > 0.0 then
            var newValue := currentValue + value.value;
            var db' := Db(UpdateWhere(db.tasks, taskId, userId,
                                      (row: TaskRow) => row.(currentValue := Some(newValue), updatedAt := now)),
                          db.completions);
            Write(db', Some(task.(updatedAt := now, details := ProgressDetails(targetValue, newValue, unit))))
          else Write(db, Some(task))
        case OneTimeDetails(_) =>
          var db' := Db(UpdateWhere(db.tasks, taskId, userId,
                                    (row: TaskRow) => row.(completedAt := Some(today), updatedAt := now)),
                        db.completions);
          Write(db', Some(task.(updatedAt := now, details := OneTimeDetails(Some(today)))))
  }

  /** The table a check-in writes, and its relation to the stored one. */
  lemma RecordCheckInRows(db: Db, taskId: string, userId: string, completed: bool, value: Option<real>, now: string)
    requires Owns(db, taskId, userId)
    ensures var rows := RecordCheckIn(db, taskId, userId, completed, value, now).db.tasks;
            && SameKeys(db.tasks, rows)
            && Ids(rows) == Ids(db.tasks)
            && FindRow(rows, taskId, Some(userId)) == FindRow(db.tasks, taskId, Some(userId))
            && (forall j :: 0 <= j < |db.tasks| && db.tasks[j].id != taskId ==> rows[j] == db.tasks[j])
  {
    var rows := RecordCheckIn(db, taskId, userId, completed, value, now).db.tasks;
    assert SameKeys(db.tasks, rows);
    FindRowSameKeys(db.tasks, rows, taskId, Some(userId));
    IdsSameKeys(db.tasks, rows);
  }

  /** The task a check-in returns is the one then stored: the snapshot and the tables agree. */
  lemma RecordCheckInReadsBack(db: Db, taskId: string, userId: string, completed: bool, value: Option<real>, now: string)
    ensures var w := RecordCheckIn(db, taskId, userId, completed, value, now);
            w.result == GetTaskById(w.db, taskId, Some(userId))
  {
    if Owns(db, taskId, userId) && completed {
      var w := RecordCheckIn(db, taskId, userId, completed, value, now);
      RecordCheckInRows(db, taskId, userId, completed, value, now);
      var i := FindRow(db.tasks, taskId, Some(userId)).value;
      var row := db.tasks[i];
      var today := DatePart(now);
      match row.taskType
      case Daily =>
        var dates := DatesOf(db.completions, taskId);
        if today !in dates {
          assert w.db.tasks[i] == row.(updatedAt := now);
          assert DatesOf(w.db.completions, taskId) == dates + [today];
        }
      case Progress =>
        if value.Some? && value.value > 0.0 {
          assert w.db.tasks[i]
                 == row.(currentValue := Some(row.currentValue.GetOr(0.0) + value.value), updatedAt := now);
        }
      case OneTime =>
        assert w.db.tasks[i] == row.(completedAt := Some(today), updatedAt := now);
    }
  }

  /**
   * The transitions of a completed check-in on an owned task, by type:
   * a daily task gains today once (no duplicate and no timestamp bump when
   * already there), a progress task gains the value only when it is
   * positive, a one-time task is completed today whatever it held before.
   */
  lemma RecordCheckInTransitions(db: Db, taskId: string, userId: string, value: Option<real>, now: string)
    requires Owns(db, taskId, userId)
    ensures var stored := GetTaskById(db, taskId, Some(userId)).value;
            var w := RecordCheckIn(db, taskId, userId, true, value, now);
            var r := w.result.value;
            var today := DatePart(now);
            && r.Type() == stored.Type()
            && r.title == stored.title && r.createdAt == stored.createdAt
            && r.checkInEnabled == stored.checkInEnabled
            && (match stored.details
                case DailyDetails(targetDays, dates) =>
                  if today in dates then w == Write(db, Some(stored))
                  else r.details == DailyDetails(targetDays, dates + [today]) && r.updatedAt == now
                       && w.db.completions == db.completions + [CompletionRow(taskId, today)]
                case ProgressDetails(targetValue, currentValue, unit) =>
                  if value.Some? && value.value > 0.0 then
                    r.details == ProgressDetails(targetValue, currentValue + value.value, unit)
                    && r.updatedAt == now && w.db.completions == db.completions
                  else w == Write(db, Some(stored))
                case OneTimeDetails(_) =>
                  r.details == OneTimeDetails(Some(today)) && r.updatedAt == now
                  && w.db.completions == db.completions)
  {
  }

  /** A check-in keeps the table constraints and leaves every other task's rows and dates alone. */
  lemma RecordCheckInFrame(db: Db, taskId: string, userId: string, completed: bool, value: Option<real>, now: string)
    requires Valid(db)
    ensures var w := RecordCheckIn(db, taskId, userId, completed, value, now);
            && Valid(w.db)
            && |w.db.tasks| == |db.tasks|
            && (forall j :: 0 <= j < |db.tasks| && db.tasks[j].id != taskId ==> w.db.tasks[j] == db.tasks[j])
            && (forall id :: id != taskId ==> DatesOf(w.db.completions, id) == DatesOf(db.completions, id))
  {
    var w := RecordCheckIn(db, taskId, userId, completed, value, now);
    if Owns(db, taskId, userId) {
      RecordCheckInRows(db, taskId, userId, completed, value, now);
      assert taskId in Ids(db.tasks) by {
        assert OwnedRow(db, taskId, userId) in db.tasks;
      }
      forall id | id != taskId ensures DatesOf(w.db.completions, id) == DatesOf(db.completions, id) {
        if w.db.completions != db.completions {
          DatesOfConcat(db.completions, [CompletionRow(taskId, DatePart(now))], id);
        }
      }
    }
  }

  /** Checking a daily task in twice with the same clock changes nothing the second time. */
  lemma DailyCheckInIdempotent(db: Db, taskId: string, userId: string, value: Option<real>, now: string)
    requires Owns(db, taskId, userId)
    requires GetTaskById(db, taskId, Some(userId)).value.details.DailyDetails?
    ensures var w1 := RecordCheckIn(db, taskId, userId, true, value, now);
            var w2 := RecordCheckIn(w1.db, taskId, userId, true, value, now);
            w2 == Write(w1.db, w1.result)
  {
    var w1 := RecordCheckIn(db, taskId, userId, true, value, now);
    RecordCheckInRows(db, taskId, userId, true, value, now);
    RecordCheckInReadsBack(db, taskId, userId, true, value, now);
    RecordCheckInTransitions(db, taskId, userId, value, now);
    assert Owns(w1.db, taskId, userId);
    RecordCheckInTransitions(w1.db, taskId, userId, value, now);
  }
}
