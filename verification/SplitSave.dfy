/**
 Result and cancel calls as the code makes them (task/manager/manager.go,
 task/manager/repository.go): each reads its row without a lock and writes it back in a
 later statement, while any other call may act in between.
 */
module SplitSave {
  import opened TaskModel
  import opened TaskTable
  import opened ClaimBound
  import opened StepOrder

  datatype Seen = Seen(id: TaskId, row: Task)

  /** The table, and the row each call in flight has read. */
  datatype State = State(world: World, seen: map<nat, Seen>)

  datatype Move =
    | Call(event: Event)
    | Read(call: nat, id: TaskId)
    | Save(call: nat, outcome: Outcome, now: int)
    | CancelSeen(call: nat, now: int)

  /** The save writes every column, over whatever the row has become. */
  function SaveStale(w: World, id: TaskId, seen: Task, outcome: Outcome, now: int): World {
    w.(rows := w.rows[id := Saved(AsResult(seen, outcome, now), now)])
  }

  /** An update from an entity leaves out the columns in which the entity has a zero value. */
  function Overlaid(cur: Task, t: Task): Task {
    cur.(
      taskType := if t.taskType == "" then cur.taskType else t.taskType,
      payload := if t.payload == "" then cur.payload else t.payload,
      subjectId := if t.subjectId == 0 then cur.subjectId else t.subjectId,
      appGroup := if t.appGroup == "" then cur.appGroup else t.appGroup,
      step := if t.step == 0 then cur.step else t.step,
      priority := if t.priority == 0 then cur.priority else t.priority,
      status := t.status,
      redo := if t.redo == 0 then cur.redo else t.redo,
      maxRedo := if t.maxRedo == 0 then cur.maxRedo else t.maxRedo,
      timeout := if t.timeout == 0 then cur.timeout else t.timeout,
      workerId := if t.workerId == "" then cur.workerId else t.workerId,
      startAt := if t.startAt.None? then cur.startAt else t.startAt,
      endAt := if t.endAt.None? then cur.endAt else t.endAt)
  }

  predicate CancelableRow(t: Task) {
    t.status.Pending? || t.status.Failed?
  }

  function CancelStale(w: World, id: TaskId, seen: Task, now: int): World {
    if CancelableRow(seen) && Live(w.rows, id)
    then w.(rows := w.rows[id := Saved(Overlaid(w.rows[id], AsCanceled(seen, now)), now)])
    else w
  }

  function Next(s: State, m: Move): State {
    match m
    case Call(event) => s.(world := Step(s.world, event))
    case Read(call, id) =>
      if call !in s.seen && Live(s.world.rows, id) then s.(seen := s.seen[call := Seen(id, s.world.rows[id])]) else s
    case Save(call, outcome, now) =>
      if call in s.seen
      then State(SaveStale(s.world, s.seen[call].id, s.seen[call].row, outcome, now), s.seen - {call})
      else s
    case CancelSeen(call, now) =>
      if call in s.seen
      then State(CancelStale(s.world, s.seen[call].id, s.seen[call].row, now), s.seen - {call})
      else s
  }

  ghost predicate Trace(ss: seq<State>, ms: seq<Move>) {
    |ss| == |ms| + 1 && forall i | 0 <= i < |ms| :: ss[i + 1] == Next(ss[i], ms[i])
  }

  /** The columns no call changes. */
  predicate SameTask(a: Task, b: Task) {
    SameGroup(a, b) && a.step == b.step && a.maxRedo == b.maxRedo
  }

  /** Rows that were read were live, are still in the table and keep their place in the flow and their retry limit. */
  predicate Consistent(s: State) {
    forall c | c in s.seen ::
      && s.seen[c].id in s.world.rows && !s.seen[c].row.deleted
      && SameTask(s.seen[c].row, s.world.rows[s.seen[c].id])
  }

  /** Undivided result and cancel calls are a read followed at once by its write. */
  lemma UndividedIsAtomic(s: State, c: nat, id: TaskId, outcome: Outcome, now: int)
    requires c !in s.seen && Live(s.world.rows, id)
    ensures Next(Next(s, Read(c, id)), Save(c, outcome, now)) == State(Step(s.world, Result(id, outcome, now)), s.seen)
    ensures Next(Next(s, Read(c, id)), CancelSeen(c, now)) == State(Step(s.world, Cancel(id, now)), s.seen)
  {
    assert s.seen[c := Seen(id, s.world.rows[id])] - {c} == s.seen;
  }

  // ---------------------------------------------------------------- undisturbed calls

  /** A write finds the row as its read saw it. */
  predicate Undisturbed(s: State, m: Move) {
    (m.Save? || m.CancelSeen?) && m.call in s.seen ==>
      Live(s.world.rows, s.seen[m.call].id) && s.world.rows[s.seen[m.call].id] == s.seen[m.call].row
  }

  /** The undivided call a move completes, if any. */
  function Completed(s: State, m: Move): seq<Event> {
    match m
    case Call(event) => [event]
    case Read(_, _) => []
    case Save(call, outcome, now) => if call in s.seen then [Result(s.seen[call].id, outcome, now)] else []
    case CancelSeen(call, now) => if call in s.seen then [Cancel(s.seen[call].id, now)] else []
  }

  function AllCompleted(ss: seq<State>, ms: seq<Move>, k: nat): seq<Event>
    requires k <= |ms| <= |ss|
  {
    if k == 0 then [] else AllCompleted(ss, ms, k - 1) + Completed(ss[k - 1], ms[k - 1])
  }

  lemma {:induction false} RunInTwoParts(w: World, a: seq<Event>, b: seq<Event>)
    ensures Run(w, a + b) == Run(Run(w, a), b)
    decreases |a|
  {
    if a == [] {
      assert a + b == b;
    } else {
      assert (a + b)[1..] == a[1..] + b;
      RunInTwoParts(Step(w, a[0]), a[1..], b);
    }
  }

  lemma UndisturbedMoveIsAtomic(s: State, m: Move)
    requires Undisturbed(s, m)
    ensures Next(s, m).world == Run(s.world, Completed(s, m))
  {
    var es := Completed(s, m);
    if es != [] {
      assert es[1..] == [] && Run(s.world, es) == Step(s.world, es[0]);
    }
  }

  /** A run whose writes find their rows unchanged is a run of undivided calls; the theorems about those apply. */
  lemma {:induction false} UndisturbedRunIsAtomic(ss: seq<State>, ms: seq<Move>, k: nat)
    requires Trace(ss, ms) && k <= |ms| && forall i | 0 <= i < k :: Undisturbed(ss[i], ms[i])
    ensures ss[k].world == Run(ss[0].world, AllCompleted(ss, ms, k))
    decreases k
  {
    if k == 0 {
    } else {
      UndisturbedRunIsAtomic(ss, ms, k - 1);
      UndisturbedMoveIsAtomic(ss[k - 1], ms[k - 1]);
      RunInTwoParts(ss[0].world, AllCompleted(ss, ms, k - 1), Completed(ss[k - 1], ms[k - 1]));
    }
  }

  // ---------------------------------------------------------------- the claim bound

  /** Writing `redo` over row `cur` and leaving an open status hands a retry back. */
  predicate HandsBack(cur: Task, redo: int) {
    redo + 1 < cur.maxRedo && redo + (if cur.IsOpen() then 1 else 0) < cur.redo
  }

  /** Told from the row read and the row found: the write raises the claims row `id` can receive. */
  predicate Restores(s: State, m: Move, id: TaskId) {
    && id in s.world.rows
    && (m.Save? || m.CancelSeen?) && m.call in s.seen && s.seen[m.call].id == id
    && var cur, read := s.world.rows[id], s.seen[m.call].row;
    && HandsBack(cur, read.redo)
    && (m.CancelSeen? ==> CancelableRow(read) && !cur.deleted && read.redo != 0)
  }

  ghost function Total(s: State, id: TaskId): nat
    requires id in s.world.rows
  {
    ClaimsOf(s.world, id) + Budget(s.world.rows[id])
  }

  /** The `i`-th move of a run does not raise the claims made plus the claims left. */
  ghost predicate Spends(ss: seq<State>, id: TaskId, i: nat)
    requires i + 1 < |ss| && id in ss[i].world.rows && id in ss[i + 1].world.rows
  {
    Total(ss[i + 1], id) <= Total(ss[i], id)
  }

  lemma ConsistentKept(s: State, m: Move)
    requires Consistent(s)
    ensures Consistent(Next(s, m))
  {
  }

  lemma SaveSpendsExactly(s: State, c: nat, outcome: Outcome, now: int, id: TaskId)
    requires Consistent(s) && id in s.world.rows
    ensures var m := Save(c, outcome, now); Total(Next(s, m), id) <= Total(s, id) <==> !Restores(s, m, id)
  {
  }

  lemma CancelSpendsExactly(s: State, c: nat, now: int, id: TaskId)
    requires Consistent(s) && id in s.world.rows
    ensures var m := CancelSeen(c, now); Total(Next(s, m), id) <= Total(s, id) <==> !Restores(s, m, id)
  {
  }

  /** A move raises the claims made plus the claims left exactly when it restores a retry. */
  lemma MoveSpendsExactly(s: State, m: Move, id: TaskId)
    requires Consistent(s) && id in s.world.rows
    ensures id in Next(s, m).world.rows
    ensures Total(Next(s, m), id) <= Total(s, id) <==> !Restores(s, m, id)
  {
    match m
    case Call(event) => StepSpendsBudget(s.world, event, id);
    case Read(_, _) =>
    case Save(c, outcome, now) => SaveSpendsExactly(s, c, outcome, now, id);
    case CancelSeen(c, now) => CancelSpendsExactly(s, c, now, id);
  }

  lemma {:induction false} RowsStay(ss: seq<State>, ms: seq<Move>, id: TaskId, k: nat)
    requires Trace(ss, ms) && Consistent(ss[0]) && id in ss[0].world.rows && k <= |ms|
    ensures Consistent(ss[k]) && id in ss[k].world.rows
    decreases k
  {
    if k == 0 {
    } else {
      RowsStay(ss, ms, id, k - 1);
      ConsistentKept(ss[k - 1], ms[k - 1]);
    }
  }

  /** Over a run, claims made plus claims left never rise exactly when no write restores a retry. */
  lemma NeverRisesExactly(ss: seq<State>, ms: seq<Move>, id: TaskId)
    requires Trace(ss, ms) && Consistent(ss[0]) && id in ss[0].world.rows
    ensures forall i | 0 <= i <= |ms| :: id in ss[i].world.rows
    ensures (forall i | 0 <= i < |ms| :: Spends(ss, id, i)) <==>
            (forall i | 0 <= i < |ms| :: !Restores(ss[i], ms[i], id))
  {
    forall i | 0 <= i <= |ms|
      ensures id in ss[i].world.rows
    {
      RowsStay(ss, ms, id, i);
    }
    forall i | 0 <= i < |ms|
      ensures Spends(ss, id, i) <==> !Restores(ss[i], ms[i], id)
    {
      RowsStay(ss, ms, id, i);
      MoveSpendsExactly(ss[i], ms[i], id);
    }
  }

  /** The claim bound with split calls: it holds at every moment of a run in which no write restores a retry. */
  lemma {:induction false} ClaimsNeverExceedRetries(ss: seq<State>, ms: seq<Move>, id: TaskId, k: nat)
    requires Trace(ss, ms) && Consistent(ss[0]) && id in ss[0].world.rows && k <= |ms|
    requires forall i | 0 <= i < k :: !Restores(ss[i], ms[i], id)
    ensures id in ss[k].world.rows && Total(ss[k], id) <= Total(ss[0], id)
    ensures ClaimsOf(ss[k].world, id) - ClaimsOf(ss[0].world, id) <=
            Max0(ss[0].world.rows[id].maxRedo - ss[0].world.rows[id].redo)
    decreases k
  {
    if k == 0 {
    } else {
      ClaimsNeverExceedRetries(ss, ms, id, k - 1);
      RowsStay(ss, ms, id, k - 1);
      MoveSpendsExactly(ss[k - 1], ms[k - 1], id);
    }
  }

  lemma LoneRowIsClaimed(t: Task, claims: seq<TaskId>, worker: string)
    requires t.IsOpen() && !t.deleted && t.redo < t.maxRedo
    ensures Step(World(map[0 := t], claims), Claim(0, worker, 0))
            == World(map[0 := Saved(AsRunning(t, worker, 0), 0)], claims + [0])
  {
  }

  /** A result saved over a sweep that came in between: a row with two retries is claimed three times. */
  lemma SplitSaveBreaksBound(t: Task) returns (s: State)
    requires t.status.Pending? && !t.deleted && t.maxRedo == t.redo + 2
    ensures ClaimsOf(s.world, 0) == 3 > t.maxRedo - t.redo
  {
    LoneRowIsClaimed(t, [], "a");
    var seen := Saved(AsRunning(t, "a", 0), 0);
    s := Next(State(World(map[0 := t], []), map[]), Call(Claim(0, "a", 0)));
    s := Next(s, Read(7, 0));
    var swept := AsSwept(seen, TimedOut, 0);
    s := Next(s, Call(Sweep({0}, TimedOut, 0)));
    assert s.world == World(map[0 := swept], [0]);
    LoneRowIsClaimed(swept, [0], "b");
    s := Next(s, Call(Claim(0, "b", 0)));
    assert Restores(s, Save(7, Errored, 0), 0);
    var failed := Saved(AsFailed(seen, 0), 0);
    s := Next(s, Save(7, Errored, 0));
    assert s.world == World(map[0 := failed], [0, 0]);
    LoneRowIsClaimed(failed, [0, 0], "c");
    s := Next(s, Call(Claim(0, "c", 0)));
    assert s.world.claims == [0, 0, 0];
  }

  // ---------------------------------------------------------------- the step order

  /** A split failure disturbs the step order wherever its row stands, a deleted row included: the save revives it. */
  ghost predicate DisturbsOrder(s: State, m: Move) {
    match m
    case Call(event) => Disturbs(s.world, event)
    case Save(call, outcome, _) =>
      call in s.seen && !outcome.Succeeded? && ClaimedAbove(s.world, s.seen[call].row)
    case _ => false
  }

  /** Writing a settled status over a row keeps the order. */
  lemma SettledRowKeepsOrder(w: World, id: TaskId, t: Task)
    requires Ordered(w) && id in w.rows && SameTask(t, w.rows[id]) && t.IsDone()
    ensures Ordered(w.(rows := w.rows[id := t]))
  {
    var w' := w.(rows := w.rows[id := t]);
    forall i, j | i in w.claims && j in w'.rows
      ensures !Blocks(w'.rows, j, w'.rows[i])
    {
      assert !Blocks(w.rows, j, w.rows[i]);
    }
  }

  /** Writing an open status over a row keeps the order exactly when nothing was claimed above it. */
  lemma OpenRowKeepsOrderExactly(w: World, id: TaskId, t: Task)
    requires Ordered(w) && id in w.rows && SameTask(t, w.rows[id]) && t.IsOpen() && !t.deleted
    ensures Ordered(w.(rows := w.rows[id := t])) <==> !ClaimedAbove(w, t)
  {
    var w' := w.(rows := w.rows[id := t]);
    if i :| i in w.claims && i in w.rows && Below(t, w.rows[i]) {
      assert Blocks(w'.rows, id, w'.rows[i]);
    } else {
      forall i, j | i in w.claims && j in w'.rows
        ensures !Blocks(w'.rows, j, w'.rows[i])
      {
        assert !Blocks(w.rows, j, w.rows[i]);
      }
    }
  }

  /** A move keeps the step order exactly when it does not disturb it. */
  lemma MoveKeepsOrderExactly(s: State, m: Move)
    requires Consistent(s) && Ordered(s.world)
    ensures Ordered(Next(s, m).world) <==> !DisturbsOrder(s, m)
  {
    match m
    case Call(event) =>
      if Disturbs(s.world, event) {
        DisturbedLosesOrder(s.world, event);
      } else {
        UndisturbedStaysOrdered(s.world, event);
      }
    case Read(_, _) =>
    case Save(call, outcome, now) =>
      if call in s.seen {
        var t := Saved(AsResult(s.seen[call].row, outcome, now), now);
        if outcome.Succeeded? {
          SettledRowKeepsOrder(s.world, s.seen[call].id, t);
        } else {
          OpenRowKeepsOrderExactly(s.world, s.seen[call].id, t);
        }
      }
    case CancelSeen(call, now) =>
      if call in s.seen && Live(s.world.rows, s.seen[call].id) {
        var id := s.seen[call].id;
        SettledRowKeepsOrder(s.world, id, Saved(Overlaid(s.world.rows[id], AsCanceled(s.seen[call].row, now)), now));
      }
  }

  lemma TraceMoveKeepsOrderExactly(ss: seq<State>, ms: seq<Move>, i: nat)
    requires Trace(ss, ms) && i < |ms| && Consistent(ss[i]) && Ordered(ss[i].world)
    ensures Ordered(ss[i + 1].world) <==> !DisturbsOrder(ss[i], ms[i])
    ensures Consistent(ss[i + 1])
  {
    MoveKeepsOrderExactly(ss[i], ms[i]);
    ConsistentKept(ss[i], ms[i]);
  }

  /** Over a run with split calls, the step order holds throughout exactly when no move disturbs it. */
  lemma {:induction false} OrderHoldsExactly(ss: seq<State>, ms: seq<Move>, k: nat)
    requires Trace(ss, ms) && Consistent(ss[0]) && Ordered(ss[0].world) && k <= |ms|
    ensures (forall i | 0 <= i <= k :: Ordered(ss[i].world)) <==>
            (forall i | 0 <= i < k :: !DisturbsOrder(ss[i], ms[i]))
    ensures (forall i | 0 <= i <= k :: Ordered(ss[i].world)) ==> Consistent(ss[k])
    decreases k
  {
    if k == 0 {
    } else {
      OrderHoldsExactly(ss, ms, k - 1);
      if forall i | 0 <= i <= k - 1 :: Ordered(ss[i].world) {
        TraceMoveKeepsOrderExactly(ss, ms, k - 1);
      }
    }
  }
}
