/**
 The repository and manager calls that change the task table (task/manager/repository.go,
 task/manager/manager.go). A call that changes the table makes one step of the state
 machine in TaskTable. The clock, and the rows other transactions hold locked, are parameters.
 */
module Repository {
  import opened Options
  import opened TaskModel
  import opened TaskTable
  import opened ClaimOrder
  import NextStep

  /** Twice the heartbeat timeout of 30 s, in nanoseconds. */
  const TIMEOUT_BUFFER := 2 * 30 * 1_000_000_000

  /** A running task whose deadline passed more than the buffer ago. */
  predicate Overdue(t: Task, now: int) {
    !t.deleted && t.status.Running? && t.startAt.Some? && now > t.startAt.value + t.timeout + TIMEOUT_BUFFER
  }

  predicate HeldBy(t: Task, worker: string) {
    !t.deleted && t.status.Running? && t.workerId == worker
  }

  function OverdueIn(rows: Table, now: int): set<TaskId> {
    set id | id in rows && Overdue(rows[id], now)
  }

  function HeldIn(rows: Table, worker: string): set<TaskId> {
    set id | id in rows && HeldBy(rows[id], worker)
  }

  /** ORDER BY priority DESC, updated_at ASC. */
  predicate Precedes(a: Task, b: Task) {
    a.priority > b.priority || (a.priority == b.priority && a.updatedAt <= b.updatedAt)
  }

  /** What Validate asks of the modelled columns. */
  predicate Acceptable(t: Task) {
    t.taskType != "" && t.subjectId != 0 && t.payload != "" && t.timeout > 0
  }

  /** A task as a client hands it in; its status may be left blank. */
  datatype Draft = Draft(status: Option<Status>, row: Task)
  {
    function Defaulted(): Task {
      row.(status := if status.None? then Pending else status.value)
    }
  }

  function Rows(drafts: map<TaskId, Draft>): Table {
    map id | id in drafts :: drafts[id].Defaulted()
  }

  /** The rows the claim query of one task type selects. */
  function ClaimableOf(rows: Table, taskType: string): set<TaskId> {
    set id | id in rows && rows[id].taskType == taskType && Claimable(rows, id)
  }

  /** The tasks of the lowest step of a batch. */
  function LowestStep(news: Table): set<TaskId> {
    set id | id in news && forall j | j in news :: news[id].step <= news[j].step
  }

  method FirstStep(news: Table) returns (lowest: set<TaskId>)
    ensures lowest == LowestStep(news)
  {
    lowest := {};
    if news != map[] {
      var first := NextStep.LeastStep(news, news.Keys);
      lowest := set id | id in news && news[id].step == news[first].step;
    }
  }

  /** What a queue that fails after `accepts` messages has taken of those due. */
  ghost predicate Sent<T>(due: set<T>, accepts: nat, sent: set<T>) {
    sent <= due && |sent| == if |due| <= accepts then |due| else accepts
  }

  /** Sends one message for each element; stops at the first that the queue refuses. */
  method Push<T(==)>(due: set<T>, accepts: nat) returns (ok: bool, sent: set<T>)
    ensures Sent(due, accepts, sent) && (ok <==> |due| <= accepts)
    ensures ok ==> sent == due
  {
    var left := due;
    sent := {};
    while left != {} && |sent| < accepts
      invariant left !! sent && left + sent == due && |left| + |sent| == |due| && |sent| <= accepts
      decreases left
    {
      var x :| x in left;
      left, sent := left - {x}, sent + {x};
    }
    ok := left == {};
  }

  /** The task types a saved result wakes workers for, as the committed table shows them. */
  function WokenBy(committed: Table, saved: Task): set<string> {
    if saved.CanRetry() then {saved.taskType}
    else if !saved.status.Success? then {}
    else if saved.appGroup != "" then NextStep.TriggeredTypes(committed, saved.subjectId, saved.appGroup)
    else if ClaimableOf(committed, saved.taskType) != {} then {saved.taskType} else {}
  }

  class TaskRepository {
    var rows: Table
    ghost var claims: seq<TaskId>

    ghost function View(): World
      reads this
    {
      World(rows, claims)
    }

    constructor ()
      ensures View() == World(map[], [])
    {
      rows, claims := map[], [];
    }

    /**
     Inserts a batch under fresh ids, all or nothing, and wakes a worker for each task of its
     lowest step; when the queue fails the tasks are in the table all the same.
     */
    method CreateTasks(drafts: map<TaskId, Draft>, accepts: nat) returns (ok: bool, woken: set<TaskId>)
      requires drafts.Keys !! rows.Keys
      modifies this
      ensures var news := Rows(drafts);
              var valid := forall id | id in news :: Acceptable(news[id]);
              && (ok <==> valid && |LowestStep(news)| <= accepts)
              && View() == (if valid then Step(old(View()), Create(news)) else old(View()))
              && if valid then Sent(LowestStep(news), accepts, woken) else woken == {}
      ensures var valid := forall id | id in drafts ::
                             && drafts[id].row.taskType != "" && drafts[id].row.subjectId != 0
                             && drafts[id].row.payload != "" && drafts[id].row.timeout > 0;
              var inserted := map id | id in drafts ::
                drafts[id].row.(status := if drafts[id].status.None? then Pending else drafts[id].status.value);
              rows == if valid then old(rows) + inserted else old(rows)
      ensures ok ==> forall id | id in drafts ::
                (id in woken <==> forall j | j in drafts :: drafts[id].row.step <= drafts[j].row.step)
    {
      var news := Rows(drafts);
      if !forall id | id in news :: Acceptable(news[id]) {
        return false, {};
      }
      rows := rows + news;
      var lowest := FirstStep(news);
      ok, woken := Push(lowest, accepts);
    }

    /**
     Picks the first claimable row in query order that no other transaction has locked, and
     marks it running; nothing is claimed only if no such row exists.
     */
    method GetOnePendingTask(taskType: string, worker: string, locked: set<TaskId>, now: int)
      returns (found: Option<TaskId>)
      modifies this
      ensures found.None? ==>
                && View() == old(View())
                && forall j | j in rows && rows[j].taskType == taskType && Claimable(rows, j) :: j in locked
      ensures found.Some? ==>
                var id, was := found.value, old(rows);
                && id !in locked && Claimable(was, id) && was[id].taskType == taskType
                && (forall j | j in was && was[j].taskType == taskType && Claimable(was, j) && j !in locked ::
                      && was[j].priority <= was[id].priority
                      && (was[j].priority == was[id].priority ==> was[id].updatedAt <= was[j].updatedAt))
                && (locked == {} ==> FirstChoice(old(View()), Claim(id, worker, now)))
                && View() == Step(old(View()), Claim(id, worker, now))
                && rows == was[id := was[id].(status := Running, workerId := worker,
                                              startAt := Some(now), updatedAt := now)]
    {
      var todo := ClaimableOf(rows, taskType) - locked;
      ghost var candidates := todo;
      assert ClaimableOf(rows, taskType) <= candidates + locked;
      found := None;
      while todo != {}
        invariant todo <= candidates && (found.None? ==> todo == candidates)
        invariant found.Some? ==> found.value in candidates - todo
        invariant found.Some? ==> forall j | j in candidates - todo :: Precedes(rows[found.value], rows[j])
        decreases todo
      {
        var id :| id in todo;
        if found.None? || !Precedes(rows[found.value], rows[id]) {
          found := Some(id);
        }
        todo := todo - {id};
      }
      if found.Some? {
        var entity := new TaskEntity(rows[found.value]);
        entity.MarkAsRunning(worker, now);
        rows := rows[found.value := Saved(entity.Row(), now)];
        claims := claims + [found.value];
      }
    }

    /** Counts the rows a worker could claim. */
    method GetPendingTaskCount(taskType: string) returns (count: nat)
      ensures count == |ClaimableOf(rows, taskType)|
      ensures count == |set id | id in rows && rows[id].taskType == taskType && Claimable(rows, id)|
      ensures count == 0 <==> ClaimableOf(rows, taskType) == {}
    {
      count := 0;
      var todo := rows.Keys;
      ghost var found: set<TaskId> := {};
      while todo != {}
        invariant todo <= rows.Keys && count == |found|
        invariant found == set id | id in rows && id !in todo && rows[id].taskType == taskType && Claimable(rows, id)
        decreases todo
      {
        var id :| id in todo;
        if rows[id].taskType == taskType && Claimable(rows, id) {
          count, found := count + 1, found + {id};
        }
        todo := todo - {id};
      }
      assert found == ClaimableOf(rows, taskType);
    }

    /**
     Saves a result whatever the row's status is; only a missing or deleted row, or a queue that
     fails before all messages due are sent, leaves the table as it is. What to wake is read from the
     committed table, which does not show the result yet.
     */
    method SaveTaskResult(id: TaskId, outcome: Outcome, now: int, accepts: nat)
      returns (ok: bool, woken: set<string>)
      modifies this
      ensures var due := if Live(old(rows), id) then WokenBy(old(rows), AsResult(old(rows)[id], outcome, now)) else {};
              Sent(due, accepts, woken) && (ok <==> Live(old(rows), id) && |due| <= accepts)
      ensures View() == if ok then Step(old(View()), Result(id, outcome, now)) else old(View())
      ensures ok ==>
                var was := old(rows)[id];
                woken == if !outcome.Succeeded? && was.redo + 1 < was.maxRedo then {was.taskType}
                         else if !outcome.Succeeded? then {}
                         else if was.appGroup != "" then NextStep.TriggeredTypes(old(rows), was.subjectId, was.appGroup)
                         else if ClaimableOf(old(rows), was.taskType) != {} then {was.taskType}
                         else {}
      ensures ok ==>
                var was := old(rows)[id];
                rows == old(rows)[id := was.(
                          status := (match outcome case Succeeded => Success case Errored => Failed case _ => Timeout),
                          redo := if outcome.Succeeded? then was.redo else was.redo + 1,
                          endAt := Some(now),
                          updatedAt := now)]
    {
      if !Live(rows, id) {
        return false, {};
      }
      var entity := new TaskEntity(rows[id]);
      match outcome {
        case Succeeded => entity.MarkAsSuccess(now);
        case DeadlineExceeded => entity.MarkAsTimeout(now);
        case Errored => entity.MarkAsFailed(now);
      }
      var saved := entity.Row();
      var due := {};
      if saved.CanRetry() {
        due := {saved.taskType};
      } else if saved.status.Success? {
        if saved.appGroup != "" {
          due := NextStep.GetNextStepPendingTaskTypes(rows, saved.subjectId, saved.appGroup);
        } else {
          var count := GetPendingTaskCount(saved.taskType);
          due := if count > 0 then {saved.taskType} else {};
        }
      }
      ok, woken := Push(due, accepts);
      if ok {
        rows := rows[id := Saved(saved, now)];
      }
    }

    method CancelTask(id: TaskId, now: int) returns (ok: bool)
      modifies this
      ensures ok <==> id in old(rows) && !old(rows)[id].deleted
                      && (old(rows)[id].status == Pending || old(rows)[id].status == Failed)
      ensures View() == Step(old(View()), Cancel(id, now))
      ensures rows == if !ok then old(rows) else
                old(rows)[id := old(rows)[id].(status := Canceled, endAt := Some(now), updatedAt := now)]
    {
      if !Live(rows, id) {
        return false;
      }
      var entity := new TaskEntity(rows[id]);
      if entity.status != Pending && entity.status != Failed {
        return false;
      }
      entity.MarkAsCanceled(now);
      rows := rows[id := Saved(entity.Row(), now)];
      ok := true;
    }

    /** Soft deletion. */
    method DeleteTask(id: TaskId)
      modifies this
      ensures View() == Step(old(View()), Delete(id))
      ensures rows == if id in old(rows) then old(rows)[id := old(rows)[id].(deleted := true)] else old(rows)
    {
      if id in rows {
        rows := rows[id := rows[id].(deleted := true)];
      }
    }

    /** Times out exactly the overdue tasks and returns those the callback puts back in the queue. */
    method CheckAndTimeoutTasks(now: int) returns (requeued: set<TaskId>)
      modifies this
      ensures View() == Step(old(View()), Sweep(OverdueIn(old(rows), now), TimedOut, now))
      ensures rows == map id | id in old(rows) ::
                var t := old(rows)[id];
                if && !t.deleted && t.status == Running && t.startAt.Some?
                   && now > t.startAt.value + t.timeout + 60_000_000_000
                then t.(status := Timeout, redo := t.redo + 1, endAt := Some(now), updatedAt := now)
                else t
      ensures requeued == set id | id in OverdueIn(old(rows), now) && old(rows)[id].redo + 1 < old(rows)[id].maxRedo
    {
      var todo, timeoutIds := rows.Keys, {};
      while todo != {}
        invariant todo <= rows.Keys
        invariant timeoutIds == set id | id in rows && id !in todo && Overdue(rows[id], now)
        decreases todo
      {
        var id :| id in todo;
        var t := rows[id];
        if !t.deleted && t.status.Running? && t.startAt.Some? {
          var timeoutTime := t.startAt.value + t.timeout;
          if now > timeoutTime && now > timeoutTime + TIMEOUT_BUFFER {
            timeoutIds := timeoutIds + {id};
          }
        }
        todo := todo - {id};
      }
      rows := Swept(rows, timeoutIds, TimedOut, now);
      requeued := set id | id in timeoutIds && rows[id].CanRetry();
    }

    /** On restart every running task counts as a failed attempt. */
    method InitTaskDBStatus(now: int)
      modifies this
      ensures View() == Step(old(View()), Sweep(old(rows).Keys, Interrupted, now))
      ensures rows == map id | id in old(rows) ::
                var t := old(rows)[id];
                if !t.deleted && t.status == Running
                then t.(status := Failed, redo := t.redo + 1, updatedAt := now)
                else t
    {
      rows := Swept(rows, rows.Keys, Interrupted, now);
    }

    /**
     Times out the tasks of a dead worker. The returned task types are meant for requeueing,
     but retryability is asked of entities read while they were still running, so there are none.
     */
    method HandleDeadWorkerTasks(worker: string, now: int) returns (taskTypes: set<string>)
      modifies this
      ensures View() == Step(old(View()), Sweep(HeldIn(old(rows), worker), TimedOut, now))
      ensures rows == map id | id in old(rows) ::
                var t := old(rows)[id];
                if !t.deleted && t.status == Running && t.workerId == worker
                then t.(status := Timeout, redo := t.redo + 1, endAt := Some(now), updatedAt := now)
                else t
      ensures taskTypes == {}
      ensures taskTypes == DueTypes(old(rows), worker, now) <==>
                forall id | id in HeldIn(old(rows), worker) :: old(rows)[id].maxRedo <= old(rows)[id].redo + 1
    {
      NothingDueExactly(rows, worker, now);
      SweptOfWorker(rows, worker, now);
      var running := map id | id in HeldIn(rows, worker) :: rows[id];
      assert running.Keys == HeldIn(rows, worker);
      rows := Swept(rows, running.Keys, TimedOut, now);
      taskTypes := TypesToRetry(running);
    }
  }

  lemma SweptOfWorker(rows: Table, worker: string, now: int)
    ensures Swept(rows, HeldIn(rows, worker), TimedOut, now) == map id | id in rows ::
              var t := rows[id];
              if !t.deleted && t.status == Running && t.workerId == worker
              then t.(status := Timeout, redo := t.redo + 1, endAt := Some(now), updatedAt := now)
              else t
  {
  }

  /** The distinct types of the entities that can be retried. */
  function TypesToRetry(entities: Table): set<string> {
    set id | id in entities && entities[id].CanRetry() :: entities[id].taskType
  }

  /** The types of the tasks a dead worker held that can be retried once the sweep has timed them out. */
  function DueTypes(rows: Table, worker: string, now: int): set<string> {
    var after := Swept(rows, HeldIn(rows, worker), TimedOut, now);
    set id | id in HeldIn(rows, worker) && after[id].CanRetry() :: after[id].taskType
  }

  /** Nothing is due after a worker's death exactly when no task it held has a retry left. */
  lemma NothingDueExactly(rows: Table, worker: string, now: int)
    ensures DueTypes(rows, worker, now) == {} <==>
            forall id | id in HeldIn(rows, worker) :: rows[id].maxRedo <= rows[id].redo + 1
  {
    var after := Swept(rows, HeldIn(rows, worker), TimedOut, now);
    if id :| id in HeldIn(rows, worker) && rows[id].redo + 1 < rows[id].maxRedo {
      assert after[id].CanRetry() && after[id].taskType in DueTypes(rows, worker, now);
    }
  }

  /** One held task with two retries left is due, and HandleDeadWorkerTasks, which returns nothing, forgets it. */
  method DeadWorkerTaskIsForgotten(t: Task, now: int) returns (listed: set<string>)
    requires t.redo + 2 <= t.maxRedo && !t.deleted
    ensures listed == {} && DueTypes(map[1 := AsRunning(t, "w", now)], "w", now) == {t.taskType}
  {
    var repo := new TaskRepository();
    var rows := map[1 := AsRunning(t, "w", now)];
    repo.rows := rows;
    listed := repo.HandleDeadWorkerTasks("w", now);
    assert 1 in HeldIn(rows, "w") && Swept(rows, HeldIn(rows, "w"), TimedOut, now)[1].CanRetry();
    assert t.taskType in DueTypes(rows, "w", now);
  }

  /**
   A claimed task is held by its worker, becomes overdue a minute after its timeout, and once
   a sweep for that worker has passed can be claimed again exactly if it has a retry left.
   */
  lemma LostTaskComesBack(w: World, id: TaskId, worker: string, now: int, later: int)
    requires Claimable(w.rows, id)
    ensures var w1 := Step(w, Claim(id, worker, now));
            var w2 := Step(w1, Sweep(HeldIn(w1.rows, worker), TimedOut, later));
            && id in HeldIn(w1.rows, worker)
            && (id in OverdueIn(w1.rows, later) <==> later > now + w.rows[id].timeout + 60_000_000_000)
            && (Claimable(w2.rows, id) <==> w.rows[id].redo + 1 < w.rows[id].maxRedo)
  {
  }

  /** A task that has just failed queues behind every task of its priority that changed earlier. */
  lemma RetryGoesToTheBack(w: World, id: TaskId, j: TaskId, now: int)
    requires Live(w.rows, id) && j in w.rows && j != id
    requires w.rows[j].priority == w.rows[id].priority && w.rows[j].updatedAt < now
    ensures var rows := Step(w, Result(id, Errored, now)).rows;
            Precedes(rows[j], rows[id]) && !Precedes(rows[id], rows[j])
  {
  }
}
