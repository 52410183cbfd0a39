/**
 * The three tables the handlers work on — `todos`, the rank columns of `users`, and the
 * append-only `rank_upgrades` — their rows, the per-row rules of the todo handlers
 * (src/controllers/todoController.js), and the invariants those rules keep.
 */
module Tables {
  import opened Common
  import opened Ranks
  import Text

  type UserId = string
  type TodoId = string

  /** A row of `todos`. `completedAt` tells whether `completed_at` holds a timestamp (true) or
      is NULL (false); `createdAt` is the `created_at` timestamp. */
  datatype Todo = Todo(owner: UserId, task: string, completed: bool, completedAt: bool, createdAt: int)

  /** The columns of a row of `users` that this service reads and writes; `rankUpgradedAt`
      tells whether `rank_upgraded_at` is set. */
  datatype User = User(username: string, currentRank: string, totalCompleted: int, rankUpgradedAt: bool)

  /** A row of `rank_upgrades`; rank names are stored as strings. */
  datatype UpgradeEvent = UpgradeEvent(upgradeId: string, userId: UserId, fromRank: string,
                                       toRank: string, tasksCompleted: int)

  /** `updateTodo`'s write to the row: the trimmed text when a task is supplied (an empty
      result is accepted), the flag when one is supplied, and `completed_at` set on a
      false-to-true change, cleared on a true-to-false change and left alone otherwise.
      The timestamp rule tests the stored flag by truthiness, so it behaves as a
      comparison of booleans. The owner and the creation time never change. */
  function EditTodo(t: Todo, task: Option<string>, completed: Option<bool>): (r: Todo)
    ensures r.owner == t.owner && r.createdAt == t.createdAt
    ensures r.task == (if task.Some? then Text.Trim(task.value) else t.task)
    ensures r.completed == (if completed.Some? then completed.value else t.completed)
    ensures !t.completed && r.completed ==> r.completedAt
    ensures t.completed && !r.completed ==> !r.completedAt
    ensures r.completed == t.completed ==> r.completedAt == t.completedAt
  {
    var text := if task.Some? then Text.Trim(task.value) else t.task;
    match completed
    case None => t.(task := text)
    case Some(c) =>
      var stamp := if c && !t.completed then true
                   else if !c && t.completed then false
                   else t.completedAt;
      t.(task := text, completed := c, completedAt := stamp)
  }

  /** A row whose `completed_at` agrees with its flag still agrees after any edit. */
  lemma EditTodoKeepsStamp(t: Todo, task: Option<string>, completed: Option<bool>)
    requires t.completedAt == t.completed
    ensures EditTodo(t, task, completed).completedAt == EditTodo(t, task, completed).completed
  {
  }

  /** What a flag write does to the owner's counter. */
  datatype CounterStep = NoChange | Completed | Uncompleted

  /** The test of line 190, `completed !== undefined && completed !== wasCompleted`, with
      both sides booleans: the counter moves only when the supplied flag differs from the
      stored one: up exactly when a true flag meets an open row, down exactly when a false
      flag meets a completed row. */
  function CounterStepOf(completed: Option<bool>, wasCompleted: bool): (r: CounterStep)
    ensures r == Completed <==> completed == Some(true) && !wasCompleted
    ensures r == Uncompleted <==> completed == Some(false) && wasCompleted
  {
    if completed.Some? && completed.value != wasCompleted then
      if completed.value then Completed else Uncompleted
    else NoChange
  }

  /** The counter follows the flag: it moves up exactly when the edit turns the flag on and
      down exactly when the edit turns it off. */
  lemma CounterStepFollowsFlag(t: Todo, task: Option<string>, completed: Option<bool>)
    ensures var r := EditTodo(t, task, completed);
            CounterStepOf(completed, t.completed) ==
            (if r.completed == t.completed then NoChange
             else if r.completed then Completed else Uncompleted)
  {
  }

  /** A JavaScript value as the comparison on line 190 sees it: the JSON flag is a boolean,
      the stored `BOOLEAN` column (a `TINYINT(1)`) comes back from the driver as a number. */
  datatype JsValue = JsBool(b: bool) | JsNumber(n: int)

  /** `a !== b`: values of different types, or of one type with different contents. */
  predicate StrictNotEqual(a: JsValue, b: JsValue)
  {
    a != b
  }

  /** How the driver returns a stored flag: 1 or 0. */
  function ColumnValue(flag: bool): JsValue
  {
    JsNumber(if flag then 1 else 0)
  }

  /** Line 190 as written, with the stored flag in the form the driver returns it: a
      supplied flag meets a number, never a boolean, so it always moves the counter. */
  function CounterStepAsWritten(completed: Option<bool>, wasCompleted: JsValue): (r: CounterStep)
    ensures completed.None? ==> r == NoChange
    ensures completed.Some? && wasCompleted.JsNumber? ==>
              r == (if completed.value then Completed else Uncompleted)
  {
    if completed.Some? && StrictNotEqual(JsBool(completed.value), wasCompleted) then
      if completed.value then Completed else Uncompleted
    else NoChange
  }

  /** As written, every supplied flag moves the counter, even one equal to the stored flag:
      completing an already completed todo counts it a second time, and "un-completing" an
      open todo takes one off the counter. */
  lemma CounterStepAsWrittenMovesOnEveryFlag(completed: bool, wasCompleted: bool)
    ensures CounterStepAsWritten(Some(completed), ColumnValue(wasCompleted)) ==
            (if completed then Completed else Uncompleted)
    ensures CounterStepAsWritten(Some(true), ColumnValue(true)) == Completed
    ensures CounterStepOf(Some(true), true) == NoChange
  {
  }

  /** `UPDATE users SET total_completed_tasks = total_completed_tasks + 1`: the named user's
      counter goes up by one; no other column and no other row changes, and with no row for
      the user nothing changes. */
  function Incremented(users: map<UserId, User>, u: UserId): (r: map<UserId, User>)
    ensures r.Keys == users.Keys
    ensures forall v :: v in users && v != u ==> r[v] == users[v]
    ensures u in users ==> r[u] == users[u].(totalCompleted := users[u].totalCompleted + 1)
  {
    if u in users then users[u := users[u].(totalCompleted := users[u].totalCompleted + 1)]
    else users
  }

  /** `UPDATE users SET total_completed_tasks = GREATEST(0, total_completed_tasks - 1)`: the
      named user's counter goes down by one but not below zero; no other column and no other
      row changes. */
  function Decremented(users: map<UserId, User>, u: UserId): (r: map<UserId, User>)
    ensures r.Keys == users.Keys
    ensures forall v :: v in users && v != u ==> r[v] == users[v]
    ensures u in users ==> r[u] == users[u].(totalCompleted := Max(0, users[u].totalCompleted - 1))
  {
    if u in users then
      var c := users[u].totalCompleted;
      users[u := users[u].(totalCompleted := if c - 1 > 0 then c - 1 else 0)]
    else users
  }

  function Max(a: int, b: int): int { if a >= b then a else b }

  /** The floor: decrementing a zero counter leaves it at zero, and a non-negative counter
      stays non-negative. */
  lemma DecrementedFloor(users: map<UserId, User>, u: UserId)
    requires u in users && users[u].totalCompleted >= 0
    ensures Decremented(users, u)[u].totalCompleted >= 0
    ensures users[u].totalCompleted == 0 ==> Decremented(users, u) == users
  {
    if users[u].totalCompleted == 0 {
      assert users[u].(totalCompleted := 0) == users[u];
    }
  }

  /** Un-completing and completing again restores the counter of a user with at least one
      completed task; completing and un-completing restores any non-negative counter. */
  lemma CounterRoundTrip(users: map<UserId, User>, u: UserId)
    ensures u in users && users[u].totalCompleted >= 1 ==> Incremented(Decremented(users, u), u) == users
    ensures u in users && users[u].totalCompleted >= 0 ==> Decremented(Incremented(users, u), u) == users
  {
    if u in users {
      var row := users[u];
      if row.totalCompleted >= 1 {
        assert Incremented(Decremented(users, u), u)[u] == row;
        assert Incremented(Decremented(users, u), u) == users;
      }
      if row.totalCompleted >= 0 {
        assert Decremented(Incremented(users, u), u)[u] == row;
        assert Decremented(Incremented(users, u), u) == users;
      }
    }
  }

  /** The ids of the completed todos a user owns. */
  function CompletedOf(todos: map<TodoId, Todo>, u: UserId): set<TodoId>
  {
    set id | id in todos && todos[id].owner == u && todos[id].completed
  }

  /** Every row's `completed_at` is set exactly when its flag is. */
  ghost predicate StampsAgree(todos: map<TodoId, Todo>)
  {
    forall id :: id in todos ==> todos[id].completedAt == todos[id].completed
  }

  /** Every user's counter equals the number of completed todos the user owns. */
  ghost predicate CountersTrackTodos(todos: map<TodoId, Todo>, users: map<UserId, User>)
  {
    forall u :: u in users ==> users[u].totalCompleted == |CompletedOf(todos, u)|
  }

  /** An event is recorded only at a boundary crossing, and names the tier of its count. */
  predicate IsCrossing(e: UpgradeEvent)
  {
    CheckRankUpgrade(e.tasksCompleted - 1, e.tasksCompleted).Some? &&
    e.toRank == Name(CalculateRank(e.tasksCompleted))
  }

  ghost predicate EventsAreCrossings(upgrades: seq<UpgradeEvent>)
  {
    forall i :: 0 <= i < |upgrades| ==> IsCrossing(upgrades[i])
  }

  /** Whether some event already carries this id (the table's primary key). */
  predicate UsedUpgradeId(upgrades: seq<UpgradeEvent>, id: string)
  {
    exists i :: 0 <= i < |upgrades| && upgrades[i].upgradeId == id
  }

  ghost predicate UpgradeIdsUnique(upgrades: seq<UpgradeEvent>)
  {
    forall i, j :: 0 <= i < j < |upgrades| ==> upgrades[i].upgradeId != upgrades[j].upgradeId
  }

  /** Every recorded event sits at one of the five boundary counts, and names the tier
      that count starts. */
  lemma CrossingCounts(e: UpgradeEvent)
    requires IsCrossing(e)
    ensures e.tasksCompleted in {10, 25, 50, 100, 200}
    ensures ParseRank(e.toRank).Some? &&
            Thresholds(ParseRank(e.toRank).value).min == e.tasksCompleted
  {
    var c := e.tasksCompleted;
    CheckRankUpgradeStep(c);
    ParseRankName(CalculateRank(c));
  }

  /** Changing one row's flag moves its owner's completed set by that row and leaves every
      other user's set alone. */
  lemma CompletedOfUpdate(todos: map<TodoId, Todo>, id: TodoId, t: Todo, u: UserId)
    requires id in todos && todos[id].owner == t.owner
    ensures u != t.owner ==> CompletedOf(todos[id := t], u) == CompletedOf(todos, u)
    ensures u == t.owner && t.completed == todos[id].completed ==>
              |CompletedOf(todos[id := t], u)| == |CompletedOf(todos, u)|
    ensures u == t.owner && t.completed && !todos[id].completed ==>
              |CompletedOf(todos[id := t], u)| == |CompletedOf(todos, u)| + 1
    ensures u == t.owner && !t.completed && todos[id].completed ==>
              |CompletedOf(todos[id := t], u)| == |CompletedOf(todos, u)| - 1
  {
    var before := CompletedOf(todos, u);
    var after := CompletedOf(todos[id := t], u);
    if u == t.owner {
      if t.completed == todos[id].completed {
        assert after == before;
      } else if t.completed {
        assert after == before + {id};
      } else {
        assert after == before - {id};
      }
    } else {
      assert after == before;
    }
  }

  /** Adding an open row changes nobody's completed set. */
  lemma CompletedOfInsert(todos: map<TodoId, Todo>, id: TodoId, t: Todo, u: UserId)
    requires id !in todos && !t.completed
    ensures CompletedOf(todos[id := t], u) == CompletedOf(todos, u)
  {
  }

  /** Removing a row takes it out of its owner's completed set, if it was there. */
  lemma CompletedOfRemove(todos: map<TodoId, Todo>, id: TodoId, u: UserId)
    requires id in todos
    ensures u != todos[id].owner || !todos[id].completed ==>
              CompletedOf(todos - {id}, u) == CompletedOf(todos, u)
    ensures u == todos[id].owner && todos[id].completed ==>
              |CompletedOf(todos - {id}, u)| == |CompletedOf(todos, u)| - 1
  {
    if u == todos[id].owner && todos[id].completed {
      assert CompletedOf(todos - {id}, u) == CompletedOf(todos, u) - {id};
    } else {
      assert CompletedOf(todos - {id}, u) == CompletedOf(todos, u);
    }
  }
}
