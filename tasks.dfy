/** js/tasks.js: the `TasksManager` holding the user's to-do items. */
module Tasks {
  import opened Wrappers
  import opened Sequences
  import opened Sorting
  import opened Strings
  import opened Dates
  import DateUtils
  import L = Listeners

  /** A task; `dueDate`, `createdAt` and `updatedAt` are timestamps in milliseconds. */
  datatype Task = Task(
    id: string,
    title: string,
    dueDate: int,
    priority: string,
    completed: bool,
    createdAt: int,
    updatedAt: int)

  /** The fields a caller passes to `createTask` or `updateTask`; `None` is a field left out. */
  datatype TaskData = TaskData(
    title: Option<string>,
    dueDate: Option<int>,
    priority: Option<string>,
    completed: Option<bool>)

  const Priorities: seq<string> := ["Low", "Medium", "High"]

  /** No two tasks share an id. */
  predicate UniqueIds(tasks: seq<Task>)
  {
    forall i, j :: 0 <= i < j < |tasks| ==> tasks[i].id != tasks[j].id
  }

  /** `findIndex(task => task.id === id)`. */
  function IndexOf(tasks: seq<Task>, id: string): (r: Option<nat>)
    ensures r.Some? ==> r.value < |tasks| && tasks[r.value].id == id
    ensures r.Some? ==> forall j :: 0 <= j < r.value ==> tasks[j].id != id
    ensures r.None? <==> forall j :: 0 <= j < |tasks| ==> tasks[j].id != id
  {
    FirstIndex(tasks, (t: Task) => t.id == id)
  }

  /** The task `createTask` builds: a missing title, due date, priority or status takes its default. */
  function NewTask(data: TaskData, id: string, now: int): (t: Task)
    ensures t.id == id && t.createdAt == now && t.updatedAt == now
    ensures t.title != "" && t.priority != ""
    ensures data.title.Some? && data.title.value != "" ==> t.title == data.title.value
    ensures data.priority.Some? && data.priority.value != "" ==> t.priority == data.priority.value
    ensures t.dueDate == (if data.dueDate.Some? then data.dueDate.value else now)
    ensures t.completed <==> data.completed == Some(true)
    ensures data.title.None? || data.title == Some("") ==> t.title == "Untitled Task"
    ensures data.priority.None? || data.priority == Some("") ==> t.priority == "Medium"
  {
    Task(
      id,
      Or(data.title, "Untitled Task"),
      data.dueDate.GetOr(now),
      Or(data.priority, "Medium"),
      data.completed.GetOr(false),
      now,
      now)
  }

  /** `{...task, ...taskData, updatedAt}`: the passed fields replace the stored ones, stamped with `now`. */
  function Merge(t: Task, patch: TaskData, now: int): (m: Task)
    ensures m.id == t.id && m.createdAt == t.createdAt && m.updatedAt == now
    ensures m.title == (if patch.title.Some? then patch.title.value else t.title)
    ensures m.dueDate == (if patch.dueDate.Some? then patch.dueDate.value else t.dueDate)
    ensures m.priority == (if patch.priority.Some? then patch.priority.value else t.priority)
    ensures m.completed == (if patch.completed.Some? then patch.completed.value else t.completed)
  {
    t.(title := patch.title.GetOr(t.title),
       dueDate := patch.dueDate.GetOr(t.dueDate),
       priority := patch.priority.GetOr(t.priority),
       completed := patch.completed.GetOr(t.completed),
       updatedAt := now)
  }

  /** The patch `toggleTaskCompletion` sends: `{ completed: !task.completed }`. */
  function TogglePatch(t: Task): TaskData
  {
    TaskData(None, None, None, Some(!t.completed))
  }

  /** Toggling flips the status and touches nothing but the time stamp. */
  lemma ToggleFlips(t: Task, now: int)
    ensures Merge(t, TogglePatch(t), now) == t.(completed := !t.completed, updatedAt := now)
  {
  }

  /** Toggling twice restores the status. */
  lemma {:induction false} ToggleTwice(t: Task, first: int, second: int)
    ensures var once := Merge(t, TogglePatch(t), first);
      Merge(once, TogglePatch(once), second) == t.(updatedAt := second)
  {
    ToggleFlips(t, first);
    ToggleFlips(t.(completed := !t.completed, updatedAt := first), second);
  }

  /** `tasks.filter(task => task.id !== id)`. */
  function WithoutId(tasks: seq<Task>, id: string): (r: seq<Task>)
    ensures forall t :: t in r <==> t in tasks && t.id != id
    ensures forall t :: multiset(r)[t] == if t.id != id then multiset(tasks)[t] else 0
    ensures |r| == |tasks| <==> IndexOf(tasks, id).None?
    ensures IndexOf(tasks, id).None? ==> r == tasks
    ensures Subsequence(r, tasks)
  {
    var p := (t: Task) => t.id != id;
    FilterKeepsAll(tasks, p);
    Filter(tasks, p)
  }

  /** Not completed and due before `now` (`dueDate < now`). */
  predicate IsOverdue(t: Task, now: int)
  {
    !t.completed && t.dueDate < now
  }

  /**
   * Not completed, and the due date's midnight lies in `[today, tomorrow)`, where `today` is the
   * midnight of `now` and `tomorrow` the one after it.
   */
  predicate IsDueToday(t: Task, now: int)
  {
    var today := DayOf(now) * DayMs;
    var tomorrow := today + DayMs;
    var due := DayOf(t.dueDate) * DayMs;
    !t.completed && today <= due < tomorrow
  }

  /** Due today means due on the same calendar day as `now`. */
  lemma DueTodaySameDay(t: Task, now: int)
    ensures IsDueToday(t, now) <==> !t.completed && DayOf(t.dueDate) == DayOf(now)
  {
  }

  /** `{ 'Low': 1, 'Medium': 2, 'High': 3 }[priority] || 0`. */
  function PriorityRank(priority: string): (rank: int)
    ensures 0 <= rank <= 3
    ensures rank == 0 <==> priority !in Priorities
  {
    if priority == "Low" then 1
    else if priority == "Medium" then 2
    else if priority == "High" then 3
    else 0
  }

  /** The sort orders `sortTasks` offers. */
  datatype TaskField = DueDate | CreatedAt | UpdatedAt | Priority | Title

  function ByDueDate(t: Task): SortKey { Num(t.dueDate) }
  function ByCreatedAt(t: Task): SortKey { Num(t.createdAt) }
  function ByUpdatedAt(t: Task): SortKey { Num(t.updatedAt) }
  function ByPriority(t: Task): SortKey { Num(PriorityRank(t.priority)) }
  function ByTitle(t: Task): SortKey { Text(t.title) }

  /** Dates compare as numbers, priorities by rank, titles as strings. */
  function TaskKey(field: TaskField): Task -> SortKey
  {
    match field
    case DueDate => ByDueDate
    case CreatedAt => ByCreatedAt
    case UpdatedAt => ByUpdatedAt
    case Priority => ByPriority
    case Title => ByTitle
  }

  /** The tasks whose key under `field` is `k`. */
  function SameKey(field: TaskField, k: SortKey): Task -> bool
  {
    (t: Task) => TaskKey(field)(t) == k
  }

  /**
   * The three tasks a first start shows.
   * The source gives these times in UTC (a trailing `Z`); they are written here as wall-clock
   * times, so they are exact only when the fixed UTC offset is 0.
   */
  function SampleTasks(): (tasks: seq<Task>)
    ensures |tasks| == 3 && UniqueIds(tasks)
  {
    [
      Task("task1", "Complete research for client proposal", Timestamp(2023, 10, 14, 16, 0), "High", false,
        Timestamp(2023, 10, 13, 9, 30), Timestamp(2023, 10, 13, 9, 30)),
      Task("task2", "Schedule team meeting for Q2 planning", Timestamp(2023, 10, 15, 12, 0), "Medium", false,
        Timestamp(2023, 10, 13, 10, 15), Timestamp(2023, 10, 13, 10, 15)),
      Task("task3", "Update expense reports", Timestamp(2023, 10, 13, 17, 0), "Low", true,
        Timestamp(2023, 10, 12, 14, 0), Timestamp(2023, 10, 13, 11, 30))
    ]
  }

  class TasksManager {
    /** The tasks, newest first as created. */
    var tasks: seq<Task>
    const priorities: seq<string>
    var listeners: L.ListenerMap

    constructor()
      ensures tasks == [] && priorities == Priorities && listeners == map[]
    {
      tasks := [];
      priorities := Priorities;
      listeners := map[];
    }

    /** `loadTasks()`: the stored tasks, or the samples when storage holds none. */
    method LoadTasks(stored: seq<Task>)
      modifies this
      ensures tasks == if stored == [] then SampleTasks() else stored
      ensures listeners == old(listeners)
    {
      tasks := stored;
      if |tasks| == 0 {
        tasks := SampleTasks();
      }
    }

    /** `getAllTasks()`: a copy of the list. */
    function GetAllTasks(): (r: seq<Task>)
      reads this
      ensures r == tasks
    {
      tasks
    }

    /** `getTaskById(id)`: the first task with that id, or none. */
    function GetTaskById(id: string): (r: Option<Task>)
      reads this
      ensures r.Some? ==> r.value in tasks && r.value.id == id
      ensures r.None? <==> forall t :: t in tasks ==> t.id != id
      ensures r.Some? ==> exists i :: (0 <= i < |tasks| && tasks[i] == r.value
        && forall j :: 0 <= j < i ==> tasks[j].id != id)
    {
      match IndexOf(tasks, id)
      case None => None
      case Some(i) => Some(tasks[i])
    }

    /** `createTask(taskData)` with the generated id and the current time passed in; the task goes first. */
    method CreateTask(data: TaskData, id: string, now: int) returns (task: Task)
      modifies this
      ensures task == NewTask(data, id, now)
      ensures tasks == [task] + old(tasks)
      ensures GetTaskById(id) == Some(task)
      ensures old(UniqueIds(tasks)) && old(GetTaskById(id)).None? ==> UniqueIds(tasks)
      ensures listeners == old(listeners)
    {
      task := NewTask(data, id, now);
      tasks := [task] + tasks;
      assert tasks[0] == task;
    }

    /** `updateTask(id, taskData)` at time `now`; with no such task nothing changes and the result is none. */
    method UpdateTask(id: string, patch: TaskData, now: int) returns (r: Option<Task>)
      modifies this
      ensures old(IndexOf(tasks, id)).None? ==> r.None? && tasks == old(tasks)
      ensures old(IndexOf(tasks, id)).Some? ==>
        var i := old(IndexOf(tasks, id)).value;
        r == Some(Merge(old(tasks)[i], patch, now)) && tasks == old(tasks)[i := r.value]
      ensures r.Some? ==> GetTaskById(id) == r
      ensures old(UniqueIds(tasks)) ==> UniqueIds(tasks)
      ensures listeners == old(listeners)
    {
      var index := IndexOf(tasks, id);
      if index.None? {
        return None;
      }
      var updated := Merge(tasks[index.value], patch, now);
      var before := tasks;
      tasks := tasks[index.value := updated];
      FirstIndexSameAnswers(before, tasks, (t: Task) => t.id == id, (t: Task) => t.id == id);
      r := Some(updated);
    }

    /** `deleteTask(id)`: drops every task with that id; true exactly when there was one. */
    method DeleteTask(id: string) returns (deleted: bool)
      modifies this
      ensures tasks == WithoutId(old(tasks), id)
      ensures deleted <==> old(GetTaskById(id)).Some?
      ensures GetTaskById(id).None?
      ensures listeners == old(listeners)
    {
      var initialLength := |tasks|;
      tasks := WithoutId(tasks, id);
      deleted := |tasks| != initialLength;
    }

    /**
     * `toggleTaskCompletion(id)` at time `now`: the task found by its id has its status flipped
     * through `updateTask`; everything else about it stays.
     */
    method ToggleTaskCompletion(id: string, now: int) returns (r: Option<Task>)
      modifies this
      ensures old(GetTaskById(id)).None? ==> r.None? && tasks == old(tasks)
      ensures old(GetTaskById(id)).Some? ==>
        var i := old(IndexOf(tasks, id)).value;
        var t := old(tasks)[i];
        r == Some(t.(completed := !t.completed, updatedAt := now)) && tasks == old(tasks)[i := r.value]
      ensures listeners == old(listeners)
    {
      var task := GetTaskById(id);
      if task.None? {
        return None;
      }
      ToggleFlips(task.value, now);
      r := UpdateTask(id, TogglePatch(task.value), now);
    }

    /** `getPendingTasks()`: the unfinished tasks, in order. */
    function GetPendingTasks(): (r: seq<Task>)
      reads this
      ensures forall t :: t in r <==> t in tasks && !t.completed
      ensures Subsequence(r, tasks)
      ensures forall t :: multiset(r)[t] == if !t.completed then multiset(tasks)[t] else 0
    {
      Filter(tasks, (t: Task) => !t.completed)
    }

    /** `getCompletedTasks()`: the finished tasks, in order. */
    function GetCompletedTasks(): (r: seq<Task>)
      reads this
      ensures forall t :: t in r <==> t in tasks && t.completed
      ensures Subsequence(r, tasks)
      ensures forall t :: multiset(r)[t] == if t.completed then multiset(tasks)[t] else 0
    {
      Filter(tasks, (t: Task) => t.completed)
    }

    /** `getOverdueTasks()` at time `now`: unfinished tasks whose due date has passed. */
    function GetOverdueTasks(now: int): (r: seq<Task>)
      reads this
      ensures forall t :: t in r <==> t in tasks && IsOverdue(t, now)
      ensures Subsequence(r, tasks)
      ensures forall t :: multiset(r)[t] == if IsOverdue(t, now) then multiset(tasks)[t] else 0
    {
      Filter(tasks, (t: Task) => IsOverdue(t, now))
    }

    /** `getTasksDueToday()` at time `now`: unfinished tasks due on the same day as `now`. */
    function GetTasksDueToday(now: int): (r: seq<Task>)
      reads this
      ensures forall t :: t in r <==> t in tasks && !t.completed && DayOf(t.dueDate) == DayOf(now)
      ensures Subsequence(r, tasks)
      ensures forall t :: multiset(r)[t] == if IsDueToday(t, now) then multiset(tasks)[t] else 0
    {
      forall t ensures IsDueToday(t, now) <==> !t.completed && DayOf(t.dueDate) == DayOf(now) {
        DueTodaySameDay(t, now);
      }
      Filter(tasks, (t: Task) => IsDueToday(t, now))
    }

    /** `getTasksByPriority(priority)`: the tasks of exactly that priority, in order. */
    function GetTasksByPriority(priority: string): (r: seq<Task>)
      reads this
      ensures forall t :: t in r <==> t in tasks && t.priority == priority
      ensures Subsequence(r, tasks)
      ensures forall t :: multiset(r)[t] == if t.priority == priority then multiset(tasks)[t] else 0
    {
      Filter(tasks, (t: Task) => t.priority == priority)
    }

    /**
     * `sortTasks(sortBy, ascending)`, by default earliest due first: a copy ordered by the field,
     * tasks with equal keys keeping their relative order, the list itself untouched.
     */
    function SortTasks(sortBy: TaskField := DueDate, ascending: bool := true): (r: seq<Task>)
      reads this
      ensures multiset(r) == multiset(tasks)
      ensures Sorted(r, TaskKey(sortBy), ascending)
      ensures forall k :: Filter(r, SameKey(sortBy, k)) == Filter(tasks, SameKey(sortBy, k))
    {
      var key := TaskKey(sortBy);
      SortSorted(tasks, key, ascending);
      forall k ensures Filter(Sort(tasks, key, ascending), SameKey(sortBy, k)) == Filter(tasks, SameKey(sortBy, k)) {
        SortStable(tasks, key, ascending, SameKey(sortBy, k), k);
      }
      Sort(tasks, key, ascending)
    }

    /** `on(event, callback)`. */
    method On(event: string, callback: L.HandlerId)
      modifies this
      ensures listeners == L.On(old(listeners), event, callback)
      ensures tasks == old(tasks)
    {
      listeners := L.On(listeners, event, callback);
    }

    /** `off(event, callback)`. */
    method Off(event: string, callback: L.HandlerId)
      modifies this
      ensures listeners == L.Off(old(listeners), event, callback)
      ensures tasks == old(tasks)
    {
      listeners := L.Off(listeners, event, callback);
    }

    /** `trigger(event, data)`: the callbacks it calls with the data, in order. */
    function Trigger(event: string): (hs: seq<L.HandlerId>)
      reads this
      ensures event !in listeners ==> hs == []
      ensures event in listeners ==> hs == listeners[event]
    {
      L.Recipients(listeners, event)
    }
  }

  /** Every task is either pending or completed, and none is both. */
  lemma PendingCompletedPartition(m: TasksManager)
    ensures multiset(m.GetPendingTasks()) + multiset(m.GetCompletedTasks()) == multiset(m.tasks)
  {
    var p := m.GetPendingTasks();
    var c := m.GetCompletedTasks();
    assert forall t :: (multiset(p) + multiset(c))[t] == multiset(m.tasks)[t];
  }

  /** Overdue and due-today tasks are all pending. */
  lemma OverdueAndDueTodayArePending(m: TasksManager, now: int)
    ensures forall t :: t in m.GetOverdueTasks(now) ==> t in m.GetPendingTasks()
    ensures forall t :: t in m.GetTasksDueToday(now) ==> t in m.GetPendingTasks()
  {
  }

  /** A pending task due at this time yesterday is overdue and not due today. */
  lemma DueYesterdayIsOverdue(m: TasksManager, t: Task, now: int)
    requires t in m.tasks && !t.completed && t.dueDate == now - DayMs
    ensures t in m.GetOverdueTasks(now)
    ensures t !in m.GetTasksDueToday(now)
  {
    DateUtils.DivUnique(now - DayMs, DayMs, DayOf(now) - 1, now % DayMs);
  }

  lemma SortTwoExample(high: Task, medium: Task)
    requires high.priority == "High" && medium.priority == "Medium"
    ensures Sort([high, medium], ByPriority, false) == [high, medium]
  {
    assert [high, medium][1..] == [medium];
    assert Sort([medium], ByPriority, false) == [medium];
  }

  lemma InsertLastExample(low: Task, high: Task, medium: Task)
    requires low.priority == "Low" && high.priority == "High" && medium.priority == "Medium"
    ensures Insert(low, [high, medium], ByPriority, false) == [high, medium, low]
  {
    assert [high, medium][1..] == [medium];
    assert Insert(low, [], ByPriority, false) == [low];
    assert Insert(low, [medium], ByPriority, false) == [medium, low];
  }

  /** Descending by priority, tasks of priority Low, High and Medium come out High, Medium, Low. */
  lemma PriorityDescendingExample(low: Task, high: Task, medium: Task)
    requires low.priority == "Low" && high.priority == "High" && medium.priority == "Medium"
    ensures Sort([low, high, medium], TaskKey(Priority), false) == [high, medium, low]
  {
    assert TaskKey(Priority) == ByPriority;
    assert [low, high, medium][1..] == [high, medium];
    SortTwoExample(high, medium);
    InsertLastExample(low, high, medium);
  }
}
