/**
 Rows of the `core_task` table and the transitions a task entity makes on them
 (task/model/entity.go). A row is a value; `TaskEntity` is the in-memory object that
 is loaded from a row, changed by one of the `MarkAs` methods and saved back.
 */
module TaskModel {
  import opened Options

  datatype Status = Pending | Running | Success | Failed | Canceled | Timeout

  /** How an execution ended: nil error, deadline exceeded, any other error. */
  datatype Outcome = Succeeded | DeadlineExceeded | Errored

  /** The columns that scheduling reads or writes. Times are nanoseconds. */
  datatype Task = Task(
    taskType: string,
    payload: string,
    subjectId: nat,
    appGroup: string,
    step: int,
    priority: int,
    status: Status,
    redo: int,
    maxRedo: int,
    timeout: int,
    workerId: string,
    startAt: Option<int>,
    endAt: Option<int>,
    updatedAt: int,
    deleted: bool)
  {
    /** Settled for good: what the claim gate asks of every lower step. */
    predicate IsDone() {
      status.Success? || status.Canceled?
    }

    /** One of the three statuses a worker may claim from. */
    predicate IsOpen() {
      status.Pending? || status.Failed? || status.Timeout?
    }

    predicate CanRetry() {
      redo < maxRedo && (status.Failed? || status.Timeout?)
    }
  }

  function AsRunning(t: Task, worker: string, now: int): Task {
    t.(status := Running, workerId := worker, startAt := Some(now))
  }

  function AsSuccess(t: Task, now: int): Task {
    t.(status := Success, endAt := Some(now))
  }

  function AsFailed(t: Task, now: int): Task {
    t.(status := Failed, redo := t.redo + 1, endAt := Some(now))
  }

  function AsTimeout(t: Task, now: int): Task {
    t.(status := Timeout, redo := t.redo + 1, endAt := Some(now))
  }

  function AsCanceled(t: Task, now: int): Task {
    t.(status := Canceled, endAt := Some(now))
  }

  function AsResult(t: Task, outcome: Outcome, now: int): Task {
    match outcome
    case Succeeded => AsSuccess(t, now)
    case DeadlineExceeded => AsTimeout(t, now)
    case Errored => AsFailed(t, now)
  }

  class TaskEntity {
    const loaded: Task
    var status: Status
    var redo: int
    var workerId: string
    var startAt: Option<int>
    var endAt: Option<int>

    /** The row this entity would be saved as. */
    function Row(): Task
      reads this
    {
      loaded.(status := status, redo := redo, workerId := workerId, startAt := startAt, endAt := endAt)
    }

    constructor (row: Task)
      ensures Row() == row
    {
      loaded := row;
      status, redo, workerId := row.status, row.redo, row.workerId;
      startAt, endAt := row.startAt, row.endAt;
    }

    method MarkAsRunning(worker: string, now: int)
      modifies this
      ensures Row() == AsRunning(old(Row()), worker, now)
    {
      status := Running;
      workerId := worker;
      startAt := Some(now);
    }

    method MarkAsSuccess(now: int)
      modifies this
      ensures Row() == AsSuccess(old(Row()), now)
    {
      status := Success;
      endAt := Some(now);
    }

    method MarkAsFailed(now: int)
      modifies this
      ensures Row() == AsFailed(old(Row()), now)
    {
      status := Failed;
      endAt := Some(now);
      redo := redo + 1;
    }

    method MarkAsTimeout(now: int)
      modifies this
      ensures Row() == AsTimeout(old(Row()), now)
    {
      status := Timeout;
      endAt := Some(now);
      redo := redo + 1;
    }

    method MarkAsCanceled(now: int)
      modifies this
      ensures Row() == AsCanceled(old(Row()), now)
    {
      status := Canceled;
      endAt := Some(now);
    }
  }
}
