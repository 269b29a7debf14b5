/**
 * The client-side task store as a state machine over (task list, loading
 * flag, error message). Each API call is an input outcome: the value the
 * server returned, or the failure it raised. Entries pair a task with the
 * store's local `isArchived` flag, which the task type itself does not carry.
 */
module TaskStore {
  import opened Common
  import opened TaskModel

  /** A list entry: the task and whether it is archived locally. */
  datatype Entry = Entry(task: Task, archived: bool)

  datatype State = State(tasks: seq<Entry>, isLoading: bool, error: Option<string>)

  /**
   * The outcome of an API call. A failure carries the message of the thrown
   * `Error`, or `None` when something other than an `Error` was thrown.
   */
  datatype ApiResult<T> = Success(value: T) | Failure(message: Option<string>)

  /** `e instanceof Error ? e.message : fallback`. */
  function ErrorText<T>(r: ApiResult<T>, fallback: string): string
    requires r.Failure?
  {
    r.message.GetOr(fallback)
  }

  /** Tasks received from the API carry no archive flag, which reads as not archived. */
  function FromApi(ts: seq<Task>): (r: seq<Entry>)
    ensures |r| == |ts|
    ensures forall i :: 0 <= i < |ts| ==> r[i] == Entry(ts[i], false)
  {
    seq(|ts|, i requires 0 <= i < |ts| => Entry(ts[i], false))
  }

  // ---------------------------------------------------------------------------
  // Derived views

  /** `activeTasks`: the entries not archived, in list order. */
  function ActiveTasks(es: seq<Entry>): (r: seq<Entry>)
    ensures forall e :: e in r <==> e in es && !e.archived
    ensures |r| <= |es|
  {
    if |es| == 0 then []
    else (if es[0].archived then [] else [es[0]]) + ActiveTasks(es[1..])
  }

  /** `archivedTasks`: the archived entries, in list order. */
  function ArchivedTasks(es: seq<Entry>): (r: seq<Entry>)
    ensures forall e :: e in r <==> e in es && e.archived
    ensures |r| <= |es|
  {
    if |es| == 0 then []
    else (if es[0].archived then [es[0]] else []) + ArchivedTasks(es[1..])
  }

  /** The two views split the list: every entry is in exactly one of them, as often as in the list. */
  lemma {:induction false} ViewsPartitionTasks(es: seq<Entry>)
    ensures multiset(ActiveTasks(es)) + multiset(ArchivedTasks(es)) == multiset(es)
    ensures |ActiveTasks(es)| + |ArchivedTasks(es)| == |es|
  {
    if |es| > 0 {
      ViewsPartitionTasks(es[1..]);
      assert es == [es[0]] + es[1..];
    }
  }

  /** The active view keeps list order: the view of a concatenation is the concatenation of the views. */
  lemma {:induction false} ActiveKeepsOrder(a: seq<Entry>, b: seq<Entry>)
    ensures ActiveTasks(a + b) == ActiveTasks(a) + ActiveTasks(b)
    decreases |a|
  {
    if |a| == 0 {
      assert a + b == b;
    } else {
      assert (a + b)[1..] == a[1..] + b;
      ActiveKeepsOrder(a[1..], b);
      assert ActiveTasks(a + b) == (if a[0].archived then [] else [a[0]]) + ActiveTasks(a[1..] + b);
    }
  }

  /** The archived view keeps list order in the same sense. */
  lemma {:induction false} ArchivedKeepsOrder(a: seq<Entry>, b: seq<Entry>)
    ensures ArchivedTasks(a + b) == ArchivedTasks(a) + ArchivedTasks(b)
    decreases |a|
  {
    if |a| == 0 {
      assert a + b == b;
    } else {
      assert (a + b)[1..] == a[1..] + b;
      ArchivedKeepsOrder(a[1..], b);
      assert ArchivedTasks(a + b) == (if a[0].archived then [a[0]] else []) + ArchivedTasks(a[1..] + b);
    }
  }

  function NotCompleted(es: seq<Entry>): (r: seq<Entry>)
    ensures forall e :: e in r <==> e in es && !IsTaskCompleted(e.task)
    ensures |r| <= |es|
  {
    if |es| == 0 then []
    else (if IsTaskCompleted(es[0].task) then [] else [es[0]]) + NotCompleted(es[1..])
  }

  /** Dropping completed entries keeps list order. */
  lemma {:induction false} NotCompletedKeepsOrder(a: seq<Entry>, b: seq<Entry>)
    ensures NotCompleted(a + b) == NotCompleted(a) + NotCompleted(b)
    decreases |a|
  {
    if |a| == 0 {
      assert a + b == b;
    } else {
      assert (a + b)[1..] == a[1..] + b;
      NotCompletedKeepsOrder(a[1..], b);
    }
  }

  /** `getTasksForCheckIn`: the active entries whose goal is not reached, in list order. */
  function GetTasksForCheckIn(s: State): (r: seq<Entry>)
    ensures forall e :: e in r <==> e in s.tasks && !e.archived && !IsTaskCompleted(e.task)
    ensures |r| <= |s.tasks|
  {
    NotCompleted(ActiveTasks(s.tasks))
  }

  /**
   * The check-in list is a filter: the list for a concatenation is the
   * concatenation of the lists, so entries keep their order and are not
   * repeated.
   */
  lemma CheckInListKeepsOrder(a: seq<Entry>, b: seq<Entry>, isLoading: bool, error: Option<string>)
    ensures GetTasksForCheckIn(State(a + b, isLoading, error))
            == GetTasksForCheckIn(State(a, isLoading, error)) + GetTasksForCheckIn(State(b, isLoading, error))
  {
    ActiveKeepsOrder(a, b);
    NotCompletedKeepsOrder(ActiveTasks(a), ActiveTasks(b));
  }

  /** The position of the first entry with this id (`findIndex`). */
  function FindIndex(es: seq<Entry>, id: string): (r: Option<nat>)
    ensures r.Some? ==> r.value < |es| && es[r.value].task.id == id
    ensures r.Some? ==> forall j :: 0 <= j < r.value ==> es[j].task.id != id
    ensures r.None? ==> forall j :: 0 <= j < |es| ==> es[j].task.id != id
  {
    if |es| == 0 then None
    else if es[0].task.id == id then Some(0)
    else match FindIndex(es[1..], id)
      case None => None
      case Some(k) => Some(k + 1)
  }

  /** `getTaskById`: the first entry with this id. */
  function GetTaskById(s: State, id: string): (r: Option<Entry>)
    ensures r.Some? <==> exists j :: 0 <= j < |s.tasks| && s.tasks[j].task.id == id
    ensures r.Some? ==> r.value in s.tasks && r.value.task.id == id
    ensures r.Some? ==> exists j :: 0 <= j < |s.tasks| && r.value == s.tasks[j]
                                   && forall k :: 0 <= k < j ==> s.tasks[k].task.id != id
  {
    match FindIndex(s.tasks, id)
    case None => None
    case Some(i) => Some(s.tasks[i])
  }

  // ---------------------------------------------------------------------------
  // Transitions

  /** `fetchTasks`: a success replaces the list; a failure keeps the last good list. */
  function FetchTasks(s: State, fetched: ApiResult<seq<Task>>): (s': State)
    ensures !s'.isLoading
    ensures fetched.Success? ==> s'.tasks == FromApi(fetched.value) && s'.error == None
    ensures fetched.Failure? ==> s'.tasks == s.tasks && s'.error.Some?
  {
    match fetched
    case Success(ts) => State(FromApi(ts), false, None)
    case Failure(_) => State(s.tasks, false, Some(ErrorText(fetched, "Failed to fetch tasks")))
  }

  /** `addTask`: a created task is appended; a failure leaves the list and returns nothing. */
  function AddTask(s: State, created: ApiResult<Task>): (r: (State, Option<Task>))
    ensures !r.0.isLoading
    ensures created.Success? ==>
              r.0.tasks == s.tasks + [Entry(created.value, false)] && r.0.error == None
              && r.1 == Some(created.value)
    ensures created.Failure? ==> r.0.tasks == s.tasks && r.0.error.Some? && r.1 == None
  {
    match created
    case Success(t) => (State(s.tasks + [Entry(t, false)], false, None), Some(t))
    case Failure(_) => (State(s.tasks, false, Some(ErrorText(created, "Failed to create task"))), None)
  }

  /** The entries whose task id differs (`filter(t => t.id !== taskId)`). */
  function WithoutId(es: seq<Entry>, id: string): (r: seq<Entry>)
    ensures forall e :: e in r <==> e in es && e.task.id != id
    ensures |r| <= |es|
  {
    if |es| == 0 then []
    else (if es[0].task.id == id then [] else [es[0]]) + WithoutId(es[1..], id)
  }

  /** Removal keeps order: removing from a concatenation removes from each part. */
  lemma {:induction false} WithoutIdKeepsOrder(a: seq<Entry>, b: seq<Entry>, id: string)
    ensures WithoutId(a + b, id) == WithoutId(a, id) + WithoutId(b, id)
    decreases |a|
  {
    if |a| == 0 {
      assert a + b == b;
    } else {
      assert (a + b)[1..] == a[1..] + b;
      WithoutIdKeepsOrder(a[1..], b, id);
    }
  }

  /** Removing an id that no entry has changes nothing. */
  lemma {:induction false} WithoutAbsentId(es: seq<Entry>, id: string)
    requires forall e :: e in es ==> e.task.id != id
    ensures WithoutId(es, id) == es
    decreases |es|
  {
    if |es| > 0 {
      WithoutAbsentId(es[1..], id);
      assert es == [es[0]] + es[1..];
    }
  }

  /** `removeTask`: on success every entry with the id goes; a failure leaves the list. */
  function RemoveTask(s: State, id: string, deleted: ApiResult<()>): (s': State)
    ensures !s'.isLoading
    ensures deleted.Success? ==> s'.tasks == WithoutId(s.tasks, id) && s'.error == None
    ensures deleted.Failure? ==> s'.tasks == s.tasks && s'.error.Some?
  {
    match deleted
    case Success(_) => State(WithoutId(s.tasks, id), false, None)
    case Failure(_) => State(s.tasks, false, Some(ErrorText(deleted, "Failed to delete task")))
  }

  /**
   * `archiveTask`: the first entry with the id is archived locally at once,
   * then the change is sent to the API; a failed send sets the error but the
   * local archive stays. The loading flag is not touched and the error is not
   * cleared.
   */
  function ArchiveTask(s: State, id: string, persisted: ApiResult<()>): (s': State)
    ensures s'.isLoading == s.isLoading
    ensures |s'.tasks| == |s.tasks|
    ensures FindIndex(s.tasks, id).None? ==> s' == s
    ensures FindIndex(s.tasks, id).Some? ==>
              var i := FindIndex(s.tasks, id).value;
              && s'.tasks == s.tasks[i := Entry(s.tasks[i].task, true)]
              && (persisted.Success? ==> s'.error == s.error)
              && (persisted.Failure? ==> s'.error.Some?)
  {
    match FindIndex(s.tasks, id)
    case None => s
    case Some(i) =>
      var tasks := s.tasks[i := Entry(s.tasks[i].task, true)];
      match persisted
      case Success(_) => s.(tasks := tasks)
      case Failure(_) => s.(tasks := tasks, error := Some(ErrorText(persisted, "Failed to archive task")))
  }

  /**
   * Reference definition: the list with its first entry of this id replaced
   * (and nothing else changed).
   */
  function ReplaceFirst(es: seq<Entry>, id: string, e: Entry): seq<Entry> {
    if |es| == 0 then []
    else if es[0].task.id == id then [e] + es[1..]
    else [es[0]] + ReplaceFirst(es[1..], id, e)
  }

  /**
   * `processCheckIn`: the server's task replaces the first entry with that
   * id; when it reaches its goal the entry is archived (the server's task
   * carries no archive flag, so completion alone decides). A failed check-in
   * leaves the list as it was.
   */
  function ProcessCheckIn(s: State, id: string, checkedIn: ApiResult<Task>, persisted: ApiResult<()>): (s': State)
    ensures !s'.isLoading
    ensures |s'.tasks| == |s.tasks|
    ensures checkedIn.Failure? ==> s'.tasks == s.tasks && s'.error.Some?
    ensures checkedIn.Success? && FindIndex(s.tasks, id).None? ==> s'.tasks == s.tasks && s'.error == None
    ensures checkedIn.Success? && FindIndex(s.tasks, id).Some? ==>
              var i := FindIndex(s.tasks, id).value;
              && s'.tasks[i].task == checkedIn.value
              && (checkedIn.value.id == id ==>
                    && (forall j :: 0 <= j < |s.tasks| && j != i ==> s'.tasks[j] == s.tasks[j])
                    && (s'.tasks[i].archived <==> IsTaskCompleted(checkedIn.value)))
  {
    match checkedIn
    case Failure(_) => State(s.tasks, false, Some(ErrorText(checkedIn, "Failed to process check-in")))
    case Success(updated) =>
      var tasks :=
        match FindIndex(s.tasks, id)
        case None => s.tasks
        case Some(i) => s.tasks[i := Entry(updated, false)];
      var s1 := State(tasks, true, None);
      var s2 := if IsTaskCompleted(updated) then ArchiveTask(s1, id, persisted) else s1;
      s2.(isLoading := false)
  }

  /** The index-based replacement is the reference replacement. */
  lemma {:induction false} ReplaceAtFirstIndex(es: seq<Entry>, id: string, e: Entry)
    requires FindIndex(es, id).Some?
    ensures es[FindIndex(es, id).value := e] == ReplaceFirst(es, id, e)
    decreases |es|
  {
    if es[0].task.id != id {
      ReplaceAtFirstIndex(es[1..], id, e);
    }
  }

  /**
   * A check-in that does not reach the goal replaces the first entry with
   * that id and changes nothing else; one that reaches it leaves that entry
   * archived, even when persisting the archive fails.
   */
  lemma CheckInReplacesFirst(s: State, id: string, t: Task, persisted: ApiResult<()>)
    requires t.id == id
    requires FindIndex(s.tasks, id).Some?
    ensures var s' := ProcessCheckIn(s, id, Success(t), persisted);
            s'.tasks == ReplaceFirst(s.tasks, id, Entry(t, IsTaskCompleted(t)))
  {
    var i := FindIndex(s.tasks, id).value;
    var s' := ProcessCheckIn(s, id, Success(t), persisted);
    ReplaceAtFirstIndex(s.tasks, id, Entry(t, IsTaskCompleted(t)));
    if IsTaskCompleted(t) {
      var tasks := s.tasks[i := Entry(t, false)];
      assert FindIndex(tasks, id) == Some(i) by {
        assert tasks[i].task.id == id;
        assert forall j :: 0 <= j < i ==> tasks[j].task.id != id;
        var k := FindIndex(tasks, id);
        assert k.Some?;
      }
      assert s'.tasks == tasks[i := Entry(t, true)];
      assert tasks[i := Entry(t, true)] == s.tasks[i := Entry(t, true)];
    }
  }

  /** The error is cleared by every successful operation except `archiveTask`, which keeps it. */
  lemma SuccessClearsError(s: State, ts: seq<Task>, t: Task, id: string)
    ensures FetchTasks(s, Success(ts)).error == None
    ensures AddTask(s, Success(t)).0.error == None
    ensures RemoveTask(s, id, Success(())).error == None
    ensures ProcessCheckIn(s, id, Success(t), Success(())).error == None
    ensures ArchiveTask(s, id, Success(())).error == s.error
  {
  }
}
