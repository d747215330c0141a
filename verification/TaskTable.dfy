/**
 The task table as a state machine. Every repository call is one atomic step on the
 table (task/manager/repository.go, task/manager/manager.go); an interleaving of any
 number of workers, sweeps and clients is a sequence of events.
 */
module TaskTable {
  import opened Options
  import opened TaskModel

  type TaskId = nat
  type Table = map<TaskId, Task>

  /** The table together with the history of claims, oldest first. */
  datatype World = World(rows: Table, claims: seq<TaskId>)

  /** `Interrupted` is the restart sweep, `TimedOut` the timeout and dead-worker sweeps. */
  datatype SweepKind = Interrupted | TimedOut

  datatype Event =
    | Create(news: Table)
    | Claim(id: TaskId, worker: string, now: int)
    | Result(id: TaskId, outcome: Outcome, now: int)
    | Sweep(ids: set<TaskId>, kind: SweepKind, now: int)
    | Cancel(id: TaskId, now: int)
    | Delete(id: TaskId)

  predicate Live(rows: Table, id: TaskId) {
    id in rows && !rows[id].deleted
  }

  predicate SameGroup(a: Task, b: Task) {
    a.subjectId == b.subjectId && a.appGroup == b.appGroup
  }

  /** `a` is an earlier step of the flow `b` belongs to. */
  predicate Below(a: Task, b: Task) {
    SameGroup(a, b) && a.step < b.step
  }

  /** Row `j` keeps the NOT EXISTS gate of the claim query shut for `t`. */
  predicate Blocks(rows: Table, j: TaskId, t: Task) {
    Live(rows, j) && Below(rows[j], t) && !rows[j].IsDone()
  }

  predicate GateOpen(rows: Table, t: Task) {
    forall j | j in rows :: !Blocks(rows, j, t)
  }

  predicate Claimable(rows: Table, id: TaskId) {
    Live(rows, id) && rows[id].IsOpen() && rows[id].redo < rows[id].maxRedo && GateOpen(rows, rows[id])
  }

  function Saved(t: Task, now: int): Task {
    t.(updatedAt := now)
  }

  function AsSwept(t: Task, kind: SweepKind, now: int): Task {
    match kind
    case Interrupted => t.(status := Failed, redo := t.redo + 1, updatedAt := now)
    case TimedOut => t.(status := Timeout, redo := t.redo + 1, endAt := Some(now), updatedAt := now)
  }

  /** The guarded batch update: only rows that are still running are touched. */
  function Swept(rows: Table, ids: set<TaskId>, kind: SweepKind, now: int): Table {
    map id | id in rows ::
      if id in ids && !rows[id].deleted && rows[id].status.Running? then AsSwept(rows[id], kind, now) else rows[id]
  }

  predicate Cancelable(rows: Table, id: TaskId) {
    Live(rows, id) && (rows[id].status.Pending? || rows[id].status.Failed?)
  }

  /** One repository call. A call whose guard fails leaves the table as it is. */
  function Step(w: World, e: Event): World {
    match e
    case Create(news) =>
      if news.Keys !! w.rows.Keys then w.(rows := w.rows + news) else w
    case Claim(id, worker, now) =>
      if Claimable(w.rows, id)
      then World(w.rows[id := Saved(AsRunning(w.rows[id], worker, now), now)], w.claims + [id])
      else w
    case Result(id, outcome, now) =>
      if Live(w.rows, id)
      then w.(rows := w.rows[id := Saved(AsResult(w.rows[id], outcome, now), now)])
      else w
    case Sweep(ids, kind, now) =>
      w.(rows := Swept(w.rows, ids, kind, now))
    case Cancel(id, now) =>
      if Cancelable(w.rows, id)
      then w.(rows := w.rows[id := Saved(AsCanceled(w.rows[id], now), now)])
      else w
    case Delete(id) =>
      if Live(w.rows, id) then w.(rows := w.rows[id := w.rows[id].(deleted := true)]) else w
  }

  function Run(w: World, es: seq<Event>): World
    decreases |es|
  {
    if es == [] then w else Run(Step(w, es[0]), es[1..])
  }

  /** Results arrive only for rows that are running, as a well-behaved worker fleet sends them. */
  predicate Timely(w: World, e: Event) {
    e.Result? && Live(w.rows, e.id) ==> w.rows[e.id].status.Running?
  }
}
