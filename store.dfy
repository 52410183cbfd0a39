/**
 * The three tables as one mutable store, and the request handlers of the todo controller
 * (src/controllers/todoController.js) plus `updateUserRank` (src/services/rankService.js),
 * which write to it. `updateTodo`, `deleteTodo` and `updateUserRank` each run as one
 * transaction: a statement that fails rolls back everything the handler wrote before it.
 * `createTodo` runs no transaction: its insert stays even when the read-back after it fails.
 */
module Store {
  import opened Common
  import opened Ranks
  import opened Tables
  import opened RankService
  import opened RankQueries
  import opened Sorting
  import Text

  /** The storage statements a handler issues, in the order a handler issues them. */
  datatype Statement = Connect | Lookup | WriteTodo | WriteCounter | ReadBack | Commit

  /** The storage either serves every statement, or rejects one of them. */
  datatype StorageFault = Healthy | FailsAt(at: Statement)

  /** Whether the fault strikes one of the statements a run issues. */
  predicate Strikes(fault: StorageFault, issued: set<Statement>)
  {
    fault.FailsAt? && fault.at in issued
  }

  /** A todo together with its id, as a query returns it. */
  datatype TodoRow = TodoRow(id: TodoId, todo: Todo)

  /** The rank upgrade a successful update reply carries. */
  datatype RankUpgradeNotice = RankUpgradeNotice(fromRank: string, toRank: Rank, rankInfo: Threshold)

  datatype UpdateReply = UpdateReply(todo: Todo, rankUpgrade: Option<RankUpgradeNotice>)

  /** `rankUpdateResult && rankUpdateResult.upgraded`: only a reported upgrade reaches the reply. */
  function NoticeOf(result: Option<RankUpdateResult>): (n: Option<RankUpgradeNotice>)
    ensures n.Some? <==> result.Some? && result.value.Upgraded?
  {
    match result
    case Some(Upgraded(from, to)) => Some(RankUpgradeNotice(from, to, Thresholds(to)))
    case _ => None
  }

  /** `getStats`: `COUNT(*)` and two `SUM`s, which are NULL over no rows. */
  datatype Stats = Stats(total: nat, completed: Option<nat>, pending: Option<nat>)

  function OwnedBy(todos: map<TodoId, Todo>, u: UserId): set<TodoId>
  {
    set id | id in todos && todos[id].owner == u
  }

  function OpenOf(todos: map<TodoId, Todo>, u: UserId): set<TodoId>
  {
    set id | id in todos && todos[id].owner == u && !todos[id].completed
  }

  /** `ORDER BY created_at DESC`. */
  predicate NewerFirst(a: TodoRow, b: TodoRow)
  {
    a.todo.createdAt >= b.todo.createdAt
  }

  lemma NewerFirstIsPreorder()
    ensures TotalPreorder(NewerFirst)
  {
  }

  /** The statements `updateTodo` issues on a healthy run. */
  function UpdateStatements(todos: map<TodoId, Todo>, userId: UserId, todoId: TodoId,
                            task: Option<string>, completed: Option<bool>): set<Statement>
  {
    if todoId !in todos || todos[todoId].owner != userId || (task.None? && completed.None?) then
      {Connect, Lookup}
    else if CounterStepOf(completed, todos[todoId].completed) == NoChange then
      {Connect, Lookup, WriteTodo, ReadBack, Commit}
    else
      {Connect, Lookup, WriteTodo, WriteCounter, ReadBack, Commit}
  }

  /** The statements `deleteTodo` issues on a healthy run. */
  function DeleteStatements(todos: map<TodoId, Todo>, userId: UserId, todoId: TodoId): set<Statement>
  {
    if todoId !in todos || todos[todoId].owner != userId then {Connect, Lookup}
    else if todos[todoId].completed then {Connect, Lookup, WriteTodo, WriteCounter, Commit}
    else {Connect, Lookup, WriteTodo, Commit}
  }

  /** The counter write an edit calls for. */
  function CountersAfter(users: map<UserId, User>, userId: UserId, step: CounterStep): map<UserId, User>
  {
    match step
    case NoChange => users
    case Completed => Incremented(users, userId)
    case Uncompleted => Decremented(users, userId)
  }

  /** An edit by the owner, with its counter write, keeps every counter equal to the number of
      completed todos its user owns. */
  lemma EditKeepsCounters(todos: map<TodoId, Todo>, users: map<UserId, User>, userId: UserId,
                          todoId: TodoId, task: Option<string>, completed: Option<bool>)
    requires CountersTrackTodos(todos, users)
    requires todoId in todos && todos[todoId].owner == userId
    ensures var t := EditTodo(todos[todoId], task, completed);
            var step := CounterStepOf(completed, todos[todoId].completed);
            CountersTrackTodos(todos[todoId := t], CountersAfter(users, userId, step))
  {
    var t := EditTodo(todos[todoId], task, completed);
    var step := CounterStepOf(completed, todos[todoId].completed);
    var users' := CountersAfter(users, userId, step);
    CounterStepFollowsFlag(todos[todoId], task, completed);
    forall u | u in users' ensures users'[u].totalCompleted == |CompletedOf(todos[todoId := t], u)| {
      CompletedOfUpdate(todos, todoId, t, u);
      if u == userId && step == Uncompleted {
        assert todoId in CompletedOf(todos, u);
      }
    }
  }

  /** Deleting an owned todo, with the decrement a completed one calls for, keeps every
      counter equal to the number of completed todos its user owns. */
  lemma DeleteKeepsCounters(todos: map<TodoId, Todo>, users: map<UserId, User>, userId: UserId,
                            todoId: TodoId)
    requires CountersTrackTodos(todos, users)
    requires todoId in todos && todos[todoId].owner == userId
    ensures CountersTrackTodos(todos - {todoId},
                               if todos[todoId].completed then Decremented(users, userId) else users)
  {
    var users' := if todos[todoId].completed then Decremented(users, userId) else users;
    forall u | u in users' ensures users'[u].totalCompleted == |CompletedOf(todos - {todoId}, u)| {
      CompletedOfRemove(todos, todoId, u);
      if u == userId && todos[todoId].completed {
        assert todoId in CompletedOf(todos, u);
      }
    }
  }

  /** `updateUserRank` keeps every counter, so it keeps them equal to the completed todos. */
  lemma RankUpdateKeepsCounters(todos: map<TodoId, Todo>, users: map<UserId, User>,
                                upgrades: seq<UpgradeEvent>, userId: UserId, upgradeId: string,
                                fault: RankFault)
    requires CountersTrackTodos(todos, users)
    ensures CountersTrackTodos(todos, RankUpdateOf(users, upgrades, userId, upgradeId, fault).users)
  {
  }

  /** The state and reply a committed edit leaves: the row rewritten by `EditTodo`, the reply
      carrying that row, and by the counter step either nothing more, a decrement, or an
      increment followed by `updateUserRank`, whose upgrade alone reaches the reply. */
  ghost predicate EditApplied(todos0: map<TodoId, Todo>, users0: map<UserId, User>, upgrades0: seq<UpgradeEvent>,
                              userId: UserId, todoId: TodoId, task: Option<string>, completed: Option<bool>,
                              upgradeId: string, rankFault: RankFault,
                              todos: map<TodoId, Todo>, users: map<UserId, User>, upgrades: seq<UpgradeEvent>,
                              reply: UpdateReply)
  {
    todoId in todos0 &&
    var edited := EditTodo(todos0[todoId], task, completed);
    var step := CounterStepOf(completed, todos0[todoId].completed);
    var rank := RankUpdateOf(Incremented(users0, userId), upgrades0, userId, upgradeId, rankFault);
    todos == todos0[todoId := edited] && reply.todo == edited &&
    (step == NoChange ==> users == users0 && upgrades == upgrades0 && reply.rankUpgrade.None?) &&
    (step == Uncompleted ==>
       users == Decremented(users0, userId) && upgrades == upgrades0 && reply.rankUpgrade.None?) &&
    (step == Completed ==>
       users == rank.users && upgrades == rank.upgrades && reply.rankUpgrade == NoticeOf(Some(rank.result)))
  }

  /** A committed edit keeps the store's invariant, whatever `updateUserRank` does. */
  lemma EditKeepsInvariant(todos: map<TodoId, Todo>, users: map<UserId, User>, upgrades: seq<UpgradeEvent>,
                           userId: UserId, todoId: TodoId, task: Option<string>, completed: Option<bool>,
                           upgradeId: string, rankFault: RankFault)
    requires StampsAgree(todos) && CountersTrackTodos(todos, users)
    requires EventsAreCrossings(upgrades) && UpgradeIdsUnique(upgrades)
    requires todoId in todos && todos[todoId].owner == userId
    ensures forall todos', users', upgrades', reply ::
              EditApplied(todos, users, upgrades, userId, todoId, task, completed, upgradeId, rankFault,
                          todos', users', upgrades', reply) ==>
              StampsAgree(todos') && CountersTrackTodos(todos', users') &&
              EventsAreCrossings(upgrades') && UpgradeIdsUnique(upgrades')
  {
    var edited := EditTodo(todos[todoId], task, completed);
    var step := CounterStepOf(completed, todos[todoId].completed);
    EditTodoKeepsStamp(todos[todoId], task, completed);
    EditKeepsCounters(todos, users, userId, todoId, task, completed);
    if step == Completed {
      RankUpdateKeepsCounters(todos[todoId := edited], Incremented(users, userId), upgrades, userId, upgradeId, rankFault);
      RankUpdateKeepsLogValid(Incremented(users, userId), upgrades, userId, upgradeId, rankFault);
    }
  }

  /** Completing an open todo whose owner then lands on a boundary count rewrites the owner's
      stored tier, logs exactly one event from the stored tier to the new one, and reports
      that upgrade in the reply; an owner below a boundary gets no event and no notice. */
  lemma CompletionAtBoundaryUpgrades(todos: map<TodoId, Todo>, users: map<UserId, User>,
                                     upgrades: seq<UpgradeEvent>, userId: UserId, todoId: TodoId,
                                     upgradeId: string)
    requires todoId in todos && todos[todoId].owner == userId && !todos[todoId].completed
    requires userId in users && !UsedUpgradeId(upgrades, upgradeId)
    ensures forall todos': map<TodoId, Todo>, users': map<UserId, User>, upgrades': seq<UpgradeEvent>,
                   reply: UpdateReply ::
              EditApplied(todos, users, upgrades, userId, todoId, None, Some(true), upgradeId, NoFault,
                          todos', users', upgrades', reply) ==>
              var before := users[userId];
              var total := before.totalCompleted + 1;
              users'[userId].totalCompleted == total &&
              (total in {10, 25, 50, 100, 200} ==>
                 users'[userId].currentRank == Name(CalculateRank(total)) &&
                 upgrades' == upgrades + [UpgradeEvent(upgradeId, userId, before.currentRank,
                                                       Name(CalculateRank(total)), total)] &&
                 reply.rankUpgrade == Some(RankUpgradeNotice(before.currentRank, CalculateRank(total),
                                                             Thresholds(CalculateRank(total))))) &&
              (total !in {10, 25, 50, 100, 200} ==>
                 users'[userId].currentRank == before.currentRank && upgrades' == upgrades &&
                 reply.rankUpgrade.None?)
  {
    var incremented := Incremented(users, userId);
    var total := users[userId].totalCompleted + 1;
    assert incremented[userId].totalCompleted == total;
    if total in {10, 25, 50, 100, 200} {
      RankUpdateCrossing(incremented, upgrades, userId, upgradeId);
    } else {
      CheckRankUpgradeStep(total);
      RankUpdateNoCrossing(incremented, upgrades, userId, upgradeId, NoFault);
    }
  }

  /** Taking an element of `all` out of the unscanned part adds one to the scanned part. */
  lemma ScanStep<T>(all: set<T>, remaining: set<T>, x: T)
    requires x in all && x in remaining
    ensures |all - (remaining - {x})| == |all - remaining| + 1
  {
    assert all - (remaining - {x}) == (all - remaining) + {x};
  }

  /** Taking an element outside `all` out of the unscanned part leaves the scanned part. */
  lemma ScanSkip<T>(all: set<T>, remaining: set<T>, x: T)
    requires x !in all
    ensures all - (remaining - {x}) == all - remaining
  {
  }

  /** What a scan of `table` for `userId`'s todos holds once `remaining` is left: every row
      is an owned todo as stored (`ids` lists their ids), every owned todo already passed is
      listed, and there is one row per owned todo passed. */
  ghost predicate ScanProgress(table: map<TodoId, Todo>, userId: UserId, remaining: set<TodoId>,
                               rows: seq<TodoRow>, ids: seq<TodoId>)
  {
    remaining <= table.Keys && |ids| == |rows| &&
    (forall i :: 0 <= i < |rows| ==>
       ids[i] == rows[i].id && rows[i].id in table &&
       table[rows[i].id] == rows[i].todo && rows[i].todo.owner == userId) &&
    (forall id :: id in OwnedBy(table, userId) && id !in remaining ==> id in ids) &&
    |rows| == |OwnedBy(table, userId) - remaining|
  }

  lemma ScanProgressStep(table: map<TodoId, Todo>, userId: UserId, remaining: set<TodoId>,
                         rows: seq<TodoRow>, ids: seq<TodoId>, id: TodoId)
    requires ScanProgress(table, userId, remaining, rows, ids) && id in remaining
    ensures table[id].owner == userId ==>
              ScanProgress(table, userId, remaining - {id}, rows + [TodoRow(id, table[id])], ids + [id])
    ensures table[id].owner != userId ==> ScanProgress(table, userId, remaining - {id}, rows, ids)
  {
    if table[id].owner == userId {
      ScanStep(OwnedBy(table, userId), remaining, id);
    } else {
      ScanSkip(OwnedBy(table, userId), remaining, id);
    }
  }

  lemma ScanProgressDone(table: map<TodoId, Todo>, userId: UserId, rows: seq<TodoRow>, ids: seq<TodoId>)
    requires ScanProgress(table, userId, {}, rows, ids)
    ensures |rows| == |OwnedBy(table, userId)|
    ensures forall id :: id in OwnedBy(table, userId) ==> exists i :: 0 <= i < |rows| && rows[i].id == id
  {
    assert OwnedBy(table, userId) - {} == OwnedBy(table, userId);
    forall id | id in OwnedBy(table, userId) ensures exists i :: 0 <= i < |rows| && rows[i].id == id {
      var i :| 0 <= i < |ids| && ids[i] == id;
      assert rows[i].id == id;
    }
  }

  /** `SELECT * FROM todos WHERE user_id = ?`: each of the user's todos once. */
  method ScanTodos(table: map<TodoId, Todo>, userId: UserId) returns (rows: seq<TodoRow>)
    ensures |rows| == |OwnedBy(table, userId)|
    ensures forall i :: 0 <= i < |rows| ==>
              rows[i].id in table && table[rows[i].id] == rows[i].todo && rows[i].todo.owner == userId
    ensures forall id :: id in OwnedBy(table, userId) ==> exists i :: 0 <= i < |rows| && rows[i].id == id
  {
    var remaining := table.Keys;
    rows := [];
    ghost var ids: seq<TodoId> := [];
    while remaining != {}
      invariant ScanProgress(table, userId, remaining, rows, ids)
      decreases remaining
    {
      var id :| id in remaining;
      ScanProgressStep(table, userId, remaining, rows, ids, id);
      if table[id].owner == userId {
        rows, ids := rows + [TodoRow(id, table[id])], ids + [id];
      }
      remaining := remaining - {id};
    }
    ScanProgressDone(table, userId, rows, ids);
  }

  /** `rows` is a full scan of the users table: it lists every user exactly once, the `i`th
      row being that of user `ids[i]`. */
  ghost predicate IsUserScan(table: map<UserId, User>, rows: seq<LeaderRow>, ids: seq<UserId>)
  {
    |ids| == |rows| &&
    (forall i, j :: 0 <= i < j < |ids| ==> ids[i] != ids[j]) &&
    (forall u :: u in table <==> u in ids) &&
    (forall i :: 0 <= i < |rows| ==> ids[i] in table && rows[i] == RowOf(table[ids[i]]))
  }

  /** What a scan of the users table holds once `remaining` is left: every row is the row of
      a user (`ids` lists whose), every user already passed is listed once, and there is one
      row per user passed. */
  ghost predicate UserScanProgress(table: map<UserId, User>, remaining: set<UserId>,
                                   rows: seq<LeaderRow>, ids: seq<UserId>)
  {
    remaining <= table.Keys && |ids| == |rows| &&
    (forall i :: 0 <= i < |rows| ==> ids[i] in table && ids[i] !in remaining &&
                                     rows[i] == RowOf(table[ids[i]])) &&
    (forall i, j :: 0 <= i < j < |ids| ==> ids[i] != ids[j]) &&
    (forall u :: u in table && u !in remaining ==> u in ids) &&
    |rows| == |table.Keys - remaining|
  }

  lemma UserScanProgressStep(table: map<UserId, User>, remaining: set<UserId>,
                             rows: seq<LeaderRow>, ids: seq<UserId>, u: UserId)
    requires UserScanProgress(table, remaining, rows, ids) && u in remaining
    ensures UserScanProgress(table, remaining - {u}, rows + [RowOf(table[u])], ids + [u])
  {
    ScanStep(table.Keys, remaining, u);
  }

  lemma UserScanProgressDone(table: map<UserId, User>, rows: seq<LeaderRow>, ids: seq<UserId>)
    requires UserScanProgress(table, {}, rows, ids)
    ensures IsUserScan(table, rows, ids)
    ensures |rows| == |table|
    ensures forall x :: x in rows ==> exists u :: u in table && x == RowOf(table[u])
    ensures forall u :: u in table ==> RowOf(table[u]) in rows
  {
    assert table.Keys - {} == table.Keys;
    forall u | u in ids ensures u in table {
      var i :| 0 <= i < |ids| && ids[i] == u;
    }
    forall x | x in rows ensures exists u :: u in table && x == RowOf(table[u]) {
      var i :| 0 <= i < |rows| && rows[i] == x;
      assert ids[i] in table && x == RowOf(table[ids[i]]);
    }
    forall u | u in table ensures RowOf(table[u]) in rows {
      var i :| 0 <= i < |ids| && ids[i] == u;
      assert rows[i] == RowOf(table[u]);
    }
  }

  /** `SELECT username, current_rank, total_completed_tasks, rank_upgraded_at FROM users`:
      one row per user, every user once; `ids` names the user of each row. */
  method ScanUsers(table: map<UserId, User>) returns (rows: seq<LeaderRow>, ghost ids: seq<UserId>)
    ensures IsUserScan(table, rows, ids)
    ensures |rows| == |table|
    ensures forall x :: x in rows ==> exists u :: u in table && x == RowOf(table[u])
    ensures forall u :: u in table ==> RowOf(table[u]) in rows
  {
    var remaining := table.Keys;
    rows := [];
    ids := [];
    while remaining != {}
      invariant UserScanProgress(table, remaining, rows, ids)
      decreases remaining
    {
      var u :| u in remaining;
      UserScanProgressStep(table, remaining, rows, ids, u);
      rows, ids := rows + [RowOf(table[u])], ids + [u];
      remaining := remaining - {u};
    }
    UserScanProgressDone(table, rows, ids);
  }

  /** The tables of a fresh database, where every user's counter starts at zero, satisfy
      the store's invariant. */
  lemma EmptyTablesValid(users0: map<UserId, User>)
    requires forall u :: u in users0 ==> users0[u].totalCompleted == 0
    ensures StampsAgree(map[]) && CountersTrackTodos(map[], users0)
    ensures EventsAreCrossings([]) && UpgradeIdsUnique([])
  {
    forall u | u in users0
      ensures users0[u].totalCompleted == |CompletedOf(map[], u)|
    {
      assert CompletedOf(map[], u) == {};
    }
  }

  /** The todo store, the users' rank columns and the upgrade log. */
  class Database {
    var todos: map<TodoId, Todo>
    var users: map<UserId, User>
    var upgrades: seq<UpgradeEvent>

    /** The store's invariant: completion stamps agree with flags, counters equal the number
        of completed todos, and the log holds boundary crossings with distinct ids. */
    ghost predicate Valid()
      reads this
    {
      StampsAgree(todos) && CountersTrackTodos(todos, users) &&
      EventsAreCrossings(upgrades) && UpgradeIdsUnique(upgrades)
    }

    /** A store over tables that already satisfy the invariant; `EmptyTablesValid` shows
        that a fresh database (no todos, no events, every counter at zero) is one. */
    constructor (todos0: map<TodoId, Todo>, users0: map<UserId, User>, upgrades0: seq<UpgradeEvent>)
      requires StampsAgree(todos0) && CountersTrackTodos(todos0, users0)
      requires EventsAreCrossings(upgrades0) && UpgradeIdsUnique(upgrades0)
      ensures todos == todos0 && users == users0 && upgrades == upgrades0
      ensures Valid()
    {
      todos, users, upgrades := todos0, users0, upgrades0;
    }

    /** `connection.rollback()`: the tables as they were at `beginTransaction`. */
    method Rollback(todos0: map<TodoId, Todo>, users0: map<UserId, User>, upgrades0: seq<UpgradeEvent>)
      modifies this
      ensures todos == todos0 && users == users0 && upgrades == upgrades0
    {
      todos, users, upgrades := todos0, users0, upgrades0;
    }

    /** `updateUserRank(userId, connection)`, run inside the caller's transaction. */
    method UpdateUserRank(userId: UserId, upgradeId: string, fault: RankFault)
      returns (result: RankUpdateResult)
      modifies this
      ensures todos == old(todos)
      ensures var r := RankUpdateOf(old(users), old(upgrades), userId, upgradeId, fault);
              users == r.users && upgrades == r.upgrades && result == r.result
    {
      if fault == ReadFails {
        return RankFailure("Failed to update rank");
      }
      if userId !in users {
        return RankFailure("User not found");
      }
      var user := users[userId];
      var completedTasks := user.totalCompleted;
      var newRank := CalculateRank(completedTasks);
      var upgrade := CheckRankUpgrade(completedTasks - 1, completedTasks);
      if upgrade.Some? && upgrade.value.upgraded {
        result := RecordUpgrade(userId, upgradeId, fault);
        return;
      }
      return NotUpgraded(newRank);
    }

    /** The crossing branch of `updateUserRank`: the tier write, then the event insert; a
        failure of either is caught, keeping whatever was written before it. */
    method RecordUpgrade(userId: UserId, upgradeId: string, fault: RankFault)
      returns (result: RankUpdateResult)
      requires userId in users && fault != ReadFails
      modifies this
      ensures todos == old(todos)
      ensures var user := old(users)[userId];
              var newRank := CalculateRank(user.totalCompleted);
              var rewritten := old(users)[userId := user.(currentRank := Name(newRank), rankUpgradedAt := true)];
              var event := UpgradeEvent(upgradeId, userId, user.currentRank, Name(newRank), user.totalCompleted);
              (fault == RankWriteFails ==>
                 users == old(users) && upgrades == old(upgrades) && result == RankFailure("Failed to update rank")) &&
              (fault != RankWriteFails ==> users == rewritten) &&
              (fault == EventInsertFails || UsedUpgradeId(old(upgrades), upgradeId) ==>
                 upgrades == old(upgrades) && result == RankFailure("Failed to update rank")) &&
              (fault == NoFault && !UsedUpgradeId(old(upgrades), upgradeId) ==>
                 upgrades == old(upgrades) + [event] && result == Upgraded(user.currentRank, newRank))
    {
      if fault == RankWriteFails {
        return RankFailure("Failed to update rank");
      }
      var user := users[userId];
      var oldRank := user.currentRank;
      var completedTasks := user.totalCompleted;
      var newRank := CalculateRank(completedTasks);
      users := users[userId := user.(currentRank := Name(newRank), rankUpgradedAt := true)];
      if fault == EventInsertFails || UsedUpgradeId(upgrades, upgradeId) {
        return RankFailure("Failed to update rank");
      }
      upgrades := upgrades + [UpgradeEvent(upgradeId, userId, oldRank, Name(newRank), completedTasks)];
      return Upgraded(oldRank, newRank);
    }

    /** `createTodo`. The task is validated before any statement; the insert and the read-back
        are not in a transaction, so a failed read-back leaves the new row in place. A taken id
        is a primary-key violation of the insert. Replies 201 on success. */
    method CreateTodo(userId: UserId, task: Option<string>, todoId: TodoId, now: int, fault: StorageFault)
      returns (r: Outcome<TodoRow>)
      modifies this
      ensures users == old(users) && upgrades == old(upgrades)
      ensures task.None? || Text.Trim(task.value) == [] ==>
                r == BadRequest("Task is required") && todos == old(todos)
      ensures task.Some? && Text.Trim(task.value) != [] &&
              (Strikes(fault, {Connect, WriteTodo}) || todoId in old(todos)) ==>
                r == ServerError("Failed to create todo") && todos == old(todos)
      ensures task.Some? && Text.Trim(task.value) != [] &&
              !Strikes(fault, {Connect, WriteTodo}) && todoId !in old(todos) ==>
                todos == old(todos)[todoId := Todo(userId, Text.Trim(task.value), false, false, now)] &&
                (r.Ok? <==> fault != FailsAt(ReadBack)) &&
                (r.Ok? ==> r.value == TodoRow(todoId, todos[todoId])) &&
                (!r.Ok? ==> r == ServerError("Failed to create todo"))
      ensures old(Valid()) ==> Valid()
    {
      if task.None? || Text.Trim(task.value) == [] {
        return BadRequest("Task is required");
      }
      if fault == FailsAt(Connect) || fault == FailsAt(WriteTodo) || todoId in todos {
        return ServerError("Failed to create todo");
      }
      ghost var before := todos;
      todos := todos[todoId := Todo(userId, Text.Trim(task.value), false, false, now)];
      forall u | u in users ensures CompletedOf(todos, u) == CompletedOf(before, u) {
        CompletedOfInsert(before, todoId, todos[todoId], u);
      }
      if fault == FailsAt(ReadBack) {
        return ServerError("Failed to create todo");
      }
      return Ok(TodoRow(todoId, todos[todoId]));
    }

    /** `updateTodo`: 404 before 403 before 400, then the writes of `WriteEdit`. A failing
        statement rolls everything back and replies 500. */
    method UpdateTodo(userId: UserId, todoId: TodoId, task: Option<string>, completed: Option<bool>,
                      upgradeId: string, rankFault: RankFault, fault: StorageFault)
      returns (r: Outcome<UpdateReply>)
      modifies this
      ensures Strikes(fault, UpdateStatements(old(todos), userId, todoId, task, completed)) ==>
                r == ServerError("Failed to update todo") &&
                todos == old(todos) && users == old(users) && upgrades == old(upgrades)
      ensures !Strikes(fault, UpdateStatements(old(todos), userId, todoId, task, completed)) ==>
                (todoId !in old(todos) ==> r == NotFound("Todo not found")) &&
                (todoId in old(todos) && old(todos)[todoId].owner != userId ==>
                   r == Forbidden("Unauthorized to update this todo")) &&
                (todoId in old(todos) && old(todos)[todoId].owner == userId && task.None? && completed.None? ==>
                   r == BadRequest("No fields to update")) &&
                (!r.Ok? ==> todos == old(todos) && users == old(users) && upgrades == old(upgrades))
      ensures r.Ok? <==> !Strikes(fault, UpdateStatements(old(todos), userId, todoId, task, completed)) &&
                         todoId in old(todos) && old(todos)[todoId].owner == userId &&
                         (task.Some? || completed.Some?)
      ensures r.Ok? ==> EditApplied(old(todos), old(users), old(upgrades), userId, todoId, task, completed,
                                    upgradeId, rankFault, todos, users, upgrades, r.value)
      ensures old(Valid()) ==> Valid()
    {
      if fault == FailsAt(Connect) || fault == FailsAt(Lookup) {
        return ServerError("Failed to update todo");
      }
      if todoId !in todos {
        return NotFound("Todo not found");
      }
      if todos[todoId].owner != userId {
        return Forbidden("Unauthorized to update this todo");
      }
      if task.None? && completed.None? {
        return BadRequest("No fields to update");
      }
      if old(Valid()) {
        EditKeepsInvariant(todos, users, upgrades, userId, todoId, task, completed, upgradeId, rankFault);
      }
      r := WriteEdit(userId, todoId, task, completed, upgradeId, rankFault, fault);
    }

    /** The writes of `updateTodo` once the todo is found, owned and given a field: the row
        write, the counter write a flag change calls for and, on completion, `updateUserRank`,
        whose failures are swallowed. */
    method WriteEdit(userId: UserId, todoId: TodoId, task: Option<string>, completed: Option<bool>,
                     upgradeId: string, rankFault: RankFault, fault: StorageFault)
      returns (r: Outcome<UpdateReply>)
      requires todoId in todos && todos[todoId].owner == userId && (task.Some? || completed.Some?)
      requires !Strikes(fault, {Connect, Lookup})
      modifies this
      ensures Strikes(fault, UpdateStatements(old(todos), userId, todoId, task, completed)) ==>
                r == ServerError("Failed to update todo") &&
                todos == old(todos) && users == old(users) && upgrades == old(upgrades)
      ensures !Strikes(fault, UpdateStatements(old(todos), userId, todoId, task, completed)) ==>
                r.Ok? &&
                EditApplied(old(todos), old(users), old(upgrades), userId, todoId, task, completed,
                            upgradeId, rankFault, todos, users, upgrades, r.value)
    {
      var todos0, users0, upgrades0 := todos, users, upgrades;
      var existing := todos[todoId];
      var wasCompleted := existing.completed;
      if fault == FailsAt(WriteTodo) {
        Rollback(todos0, users0, upgrades0);
        return ServerError("Failed to update todo");
      }
      todos := todos[todoId := EditTodo(existing, task, completed)];
      // The counter moves when the supplied flag differs from the stored one, compared as booleans.
      var step := CounterStepOf(completed, wasCompleted);
      var rankUpdateResult: Option<RankUpdateResult> := None;
      if step != NoChange && fault == FailsAt(WriteCounter) {
        Rollback(todos0, users0, upgrades0);
        return ServerError("Failed to update todo");
      }
      if step == Completed {
        users := Incremented(users, userId);
        var result := UpdateUserRank(userId, upgradeId, rankFault);
        rankUpdateResult := Some(result);
      } else if step == Uncompleted {
        users := Decremented(users, userId);
      }
      var updated := todos[todoId];
      if fault == FailsAt(ReadBack) || fault == FailsAt(Commit) {
        Rollback(todos0, users0, upgrades0);
        return ServerError("Failed to update todo");
      }
      r := Ok(UpdateReply(updated, NoticeOf(rankUpdateResult)));
    }

    /** `deleteTodo`: 404 before 403, then the delete and, for a completed todo, the floored
        decrement of the caller's counter. Tiers and the log are never touched. */
    method DeleteTodo(userId: UserId, todoId: TodoId, fault: StorageFault) returns (r: Outcome<()>)
      modifies this
      ensures upgrades == old(upgrades)
      ensures Strikes(fault, DeleteStatements(old(todos), userId, todoId)) ==>
                r == ServerError("Failed to delete todo") && todos == old(todos) && users == old(users)
      ensures !Strikes(fault, DeleteStatements(old(todos), userId, todoId)) ==>
                (todoId !in old(todos) ==> r == NotFound("Todo not found")) &&
                (todoId in old(todos) && old(todos)[todoId].owner != userId ==>
                   r == Forbidden("Unauthorized to delete this todo")) &&
                (!r.Ok? ==> todos == old(todos) && users == old(users))
      ensures r.Ok? <==> !Strikes(fault, DeleteStatements(old(todos), userId, todoId)) &&
                         todoId in old(todos) && old(todos)[todoId].owner == userId
      ensures r.Ok? ==>
                todos == old(todos) - {todoId} &&
                users == if old(todos)[todoId].completed then Decremented(old(users), userId) else old(users)
      ensures old(Valid()) ==> Valid()
    {
      if fault == FailsAt(Connect) {
        return ServerError("Failed to delete todo");
      }
      var todos0, users0, upgrades0 := todos, users, upgrades;
      if fault == FailsAt(Lookup) {
        Rollback(todos0, users0, upgrades0);
        return ServerError("Failed to delete todo");
      }
      if todoId !in todos {
        Rollback(todos0, users0, upgrades0);
        return NotFound("Todo not found");
      }
      if todos[todoId].owner != userId {
        Rollback(todos0, users0, upgrades0);
        return Forbidden("Unauthorized to delete this todo");
      }
      var wasCompleted := todos[todoId].completed;
      if fault == FailsAt(WriteTodo) {
        Rollback(todos0, users0, upgrades0);
        return ServerError("Failed to delete todo");
      }
      todos := todos - {todoId};
      if wasCompleted {
        if fault == FailsAt(WriteCounter) {
          Rollback(todos0, users0, upgrades0);
          return ServerError("Failed to delete todo");
        }
        users := Decremented(users, userId);
      }
      if fault == FailsAt(Commit) {
        Rollback(todos0, users0, upgrades0);
        return ServerError("Failed to delete todo");
      }
      r := Ok(());
      if old(Valid()) {
        DeleteKeepsCounters(todos0, users0, userId, todoId);
      }
    }

    /** `getTodoById`: 404 before 403, nothing written. */
    function GetTodoById(userId: UserId, todoId: TodoId, storageFails: bool): (r: Outcome<Todo>)
      reads this
      ensures r.ServerError? <==> storageFails
      ensures !storageFails && todoId !in todos ==> r == NotFound("Todo not found")
      ensures !storageFails && todoId in todos && todos[todoId].owner != userId ==>
                r == Forbidden("Unauthorized to access this todo")
      ensures r.Ok? <==> !storageFails && todoId in todos && todos[todoId].owner == userId
      ensures r.Ok? ==> r.value == todos[todoId]
    {
      if storageFails then ServerError("Failed to retrieve todo")
      else if todoId !in todos then NotFound("Todo not found")
      else if todos[todoId].owner != userId then Forbidden("Unauthorized to access this todo")
      else Ok(todos[todoId])
    }

    /** `getStats`: the caller's todos counted, completed and open. Every counted todo is
        either completed or open, and a user with no todos gets NULL sums. */
    function GetStats(userId: UserId, storageFails: bool): (r: Outcome<Stats>)
      reads this
      ensures r.Ok? <==> !storageFails
      ensures r.ServerError? <==> storageFails
      ensures r.Ok? ==>
                r.value.total == |OwnedBy(todos, userId)| &&
                (r.value.total == 0 <==> r.value.completed.None?) &&
                (r.value.completed.None? <==> r.value.pending.None?) &&
                (r.value.total > 0 ==>
                   r.value.completed == Some(|CompletedOf(todos, userId)|) &&
                   r.value.total == r.value.completed.value + r.value.pending.value)
    {
      if storageFails then ServerError("Failed to retrieve statistics")
      else
        var all := OwnedBy(todos, userId);
        var done := CompletedOf(todos, userId);
        var open := OpenOf(todos, userId);
        assert all == done + open;
        assert done * open == {};
        var total := |all|;
        if total == 0 then Ok(Stats(0, None, None))
        else Ok(Stats(total, Some(|done|), Some(|open|)))
    }

    /** `getTodos`: exactly the caller's todos, each once, newest first. */
    method GetTodos(userId: UserId, storageFails: bool) returns (r: Outcome<seq<TodoRow>>)
      ensures r.Ok? <==> !storageFails
      ensures r.ServerError? <==> storageFails
      ensures r.Ok? ==> SortedBy(r.value, NewerFirst)
      ensures r.Ok? ==> |r.value| == |OwnedBy(todos, userId)|
      ensures r.Ok? ==> forall i :: 0 <= i < |r.value| ==>
                var row := r.value[i];
                row.id in todos && todos[row.id] == row.todo && row.todo.owner == userId
      ensures r.Ok? ==> forall id :: id in OwnedBy(todos, userId) ==>
                exists i :: 0 <= i < |r.value| && r.value[i].id == id
    {
      if storageFails {
        return ServerError("Failed to retrieve todos");
      }
      var rows := ScanTodos(todos, userId);
      NewerFirstIsPreorder();
      var sorted := Sort(rows, NewerFirst);
      forall i | 0 <= i < |sorted| ensures sorted[i] in rows {
        assert sorted[i] in multiset(sorted);
      }
      forall id | id in OwnedBy(todos, userId) ensures exists i :: 0 <= i < |sorted| && sorted[i].id == id {
        var k :| 0 <= k < |rows| && rows[k].id == id;
        assert rows[k] in multiset(sorted);
      }
      return Ok(sorted);
    }

    /** `getLeaderboard`: the users ordered by tier position, then by counter descending, cut
        to the limit the query asks for. The reply is the leaderboard query over a scan that
        lists every user exactly once. */
    method GetLeaderboard(limitQuery: Option<string>, storageFails: bool) returns (r: Outcome<seq<LeaderRow>>)
      ensures exists rows, ids :: IsUserScan(users, rows, ids) &&
                                  r == Leaderboard(rows, LeaderboardLimit(limitQuery), storageFails)
      ensures r.Ok? <==> !storageFails && LeaderboardLimit(limitQuery) >= 0
      ensures r.ServerError? <==> storageFails || LeaderboardLimit(limitQuery) < 0
      ensures r.Ok? ==> SortedBy(r.value, Precedes)
      ensures r.Ok? ==> |r.value| == Min(LeaderboardLimit(limitQuery), |users|)
      ensures r.Ok? ==> forall x :: x in r.value ==> exists u :: u in users && x == RowOf(users[u])
      ensures r.Ok? ==> forall x, u :: x in r.value && u in users && RowOf(users[u]) !in r.value ==>
                          Precedes(x, RowOf(users[u]))
    {
      var rows, ids := ScanUsers(users);
      r := Leaderboard(rows, LeaderboardLimit(limitQuery), storageFails);
      if r.Ok? {
        forall x | x in r.value ensures x in rows {
          assert x in multiset(r.value);
        }
        forall x, u | x in r.value && u in users && RowOf(users[u]) !in r.value
          ensures Precedes(x, RowOf(users[u]))
        {
          assert RowOf(users[u]) in multiset(rows) - multiset(r.value);
        }
      }
    }
  }

  /** The columns the leaderboard query selects from a user's row. */
  function RowOf(user: User): LeaderRow
  {
    LeaderRow(user.username, user.currentRank, user.totalCompleted, user.rankUpgradedAt)
  }
}
