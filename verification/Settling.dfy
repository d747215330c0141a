/**
 Every task flow settles: a run over a fixed table can change it only boundedly often,
 and when nothing is running or claimable each unfinished task is exhausted or sits
 above an exhausted one.
 */
module Settling {
  import opened TaskModel
  import opened TaskTable

  /** Retries are within bounds, and a running task still has one to spend. */
  predicate Budgeted(t: Task) {
    t.redo <= t.maxRedo && (t.status.Running? ==> t.redo < t.maxRedo)
  }

  predicate AllBudgeted(rows: Table) {
    forall i | i in rows :: Budgeted(rows[i])
  }

  /** Changes a row can still undergo. */
  function Weight(t: Task): nat
    requires Budgeted(t)
  {
    if t.deleted || t.IsDone() then 0
    else if t.status.Running? then 2 * (t.maxRedo - t.redo)
    else 2 * (t.maxRedo - t.redo) + 1
  }

  ghost function Sum(weights: map<TaskId, int>, ids: set<TaskId>): int
    requires ids <= weights.Keys
  {
    if ids == {} then 0 else
      var i :| i in ids;
      weights[i] + Sum(weights, ids - {i})
  }

  function Weights(rows: Table): map<TaskId, int>
    requires AllBudgeted(rows)
  {
    map i | i in rows :: Weight(rows[i])
  }

  ghost function Total(rows: Table): int
    requires AllBudgeted(rows)
  {
    Sum(Weights(rows), rows.Keys)
  }

  /** Nothing but the fixed table is at stake: no creations, and results only while running. */
  predicate Confined(w: World, es: seq<Event>)
    decreases |es|
  {
    es == [] || (!es[0].Create? && Timely(w, es[0]) && Confined(Step(w, es[0]), es[1..]))
  }

  /** Calls that change the table, deletions not counted. */
  ghost function Changes(w: World, es: seq<Event>): nat
    decreases |es|
  {
    if es == [] then 0 else
      (if Step(w, es[0]).rows != w.rows && !es[0].Delete? then 1 else 0) + Changes(Step(w, es[0]), es[1..])
  }

  lemma StepKeepsBudget(w: World, e: Event)
    requires AllBudgeted(w.rows) && !e.Create? && Timely(w, e)
    ensures AllBudgeted(Step(w, e).rows) && Step(w, e).rows.Keys == w.rows.Keys
  {
  }

  /** A row a call touches loses weight; every other row keeps it. */
  lemma TouchedRowLosesWeight(w: World, e: Event, i: TaskId)
    requires AllBudgeted(w.rows) && !e.Create? && Timely(w, e) && i in w.rows
    requires AllBudgeted(Step(w, e).rows)
    ensures i in Step(w, e).rows && Weight(Step(w, e).rows[i]) <= Weight(w.rows[i])
    ensures !e.Delete? && Step(w, e).rows[i] != w.rows[i] ==> Weight(Step(w, e).rows[i]) < Weight(w.rows[i])
  {
  }

  lemma {:induction false} SumFalls(a: map<TaskId, int>, b: map<TaskId, int>, ids: set<TaskId>, lost: set<TaskId>)
    requires a.Keys == b.Keys && lost <= ids <= a.Keys
    requires forall i | i in ids :: b[i] <= a[i]
    requires forall i | i in lost :: b[i] < a[i]
    ensures Sum(b, ids) <= Sum(a, ids)
    ensures lost != {} ==> Sum(b, ids) < Sum(a, ids)
    decreases ids
  {
    if ids == {} {
    } else {
      var i :| i in ids && Sum(a, ids) == a[i] + Sum(a, ids - {i}) && Sum(b, ids) == b[i] + Sum(b, ids - {i});
      SumFalls(a, b, ids - {i}, lost - {i});
      assert lost - {i} == {} ==> lost <= {i};
    }
  }

  lemma {:induction false} SumIsNonNegative(a: map<TaskId, int>, ids: set<TaskId>)
    requires ids <= a.Keys && forall i | i in ids :: 0 <= a[i]
    ensures 0 <= Sum(a, ids)
    decreases ids
  {
    if ids == {} {
    } else {
      var i :| i in ids && Sum(a, ids) == a[i] + Sum(a, ids - {i});
      SumIsNonNegative(a, ids - {i});
    }
  }

  lemma TotalFalls(a: Table, b: Table)
    requires AllBudgeted(a) && AllBudgeted(b) && a.Keys == b.Keys && forall i | i in a :: Weight(b[i]) <= Weight(a[i])
    ensures Total(b) <= Total(a)
    ensures (exists i | i in a :: Weight(b[i]) < Weight(a[i])) ==> Total(b) < Total(a)
  {
    var lost := set i | i in a && Weight(b[i]) < Weight(a[i]);
    SumFalls(Weights(a), Weights(b), a.Keys, lost);
    if i :| i in a && Weight(b[i]) < Weight(a[i]) {
      assert i in lost;
    }
  }

  /** A call that changes the table, deletions aside, lowers the changes it can still undergo. */
  lemma ChangeLowersTotal(w: World, e: Event)
    requires AllBudgeted(w.rows) && !e.Create? && Timely(w, e)
    ensures AllBudgeted(Step(w, e).rows) && Step(w, e).rows.Keys == w.rows.Keys
    ensures Total(Step(w, e).rows) + (if Step(w, e).rows != w.rows && !e.Delete? then 1 else 0)
            <= Total(w.rows)
  {
    StepKeepsBudget(w, e);
    var rows' := Step(w, e).rows;
    forall i | i in w.rows
      ensures Weight(rows'[i]) <= Weight(w.rows[i])
      ensures !e.Delete? && rows'[i] != w.rows[i] ==> Weight(rows'[i]) < Weight(w.rows[i])
    {
      TouchedRowLosesWeight(w, e, i);
    }
    TotalFalls(w.rows, rows');
    if rows' != w.rows && !e.Delete? {
      var i :| i in w.rows && rows'[i] != w.rows[i];
      assert Weight(rows'[i]) < Weight(w.rows[i]);
    }
  }

  /** No run over a fixed table changes it more often than the retries of its tasks allow. */
  lemma {:induction false} RunsSettle(w: World, es: seq<Event>)
    requires AllBudgeted(w.rows) && Confined(w, es)
    ensures AllBudgeted(Run(w, es).rows) && Run(w, es).rows.Keys == w.rows.Keys
    ensures Changes(w, es) + Total(Run(w, es).rows) <= Total(w.rows)
    decreases |es|
  {
    if es == [] {
    } else {
      ChangeLowersTotal(w, es[0]);
      RunsSettle(Step(w, es[0]), es[1..]);
    }
  }

  /** The changes the retries of each task allow: two for every retry left, and one more. */
  function Allowances(rows: Table): map<TaskId, int> {
    map i | i in rows :: 2 * (rows[i].maxRedo - rows[i].redo) + 1
  }

  predicate Fresh(rows: Table) {
    forall i | i in rows :: rows[i].status.Pending? && !rows[i].deleted && rows[i].redo <= rows[i].maxRedo
  }

  lemma FreshTotal(rows: Table)
    requires Fresh(rows)
    ensures AllBudgeted(rows) && Total(rows) == Sum(Allowances(rows), rows.Keys)
  {
    assert Weights(rows) == Allowances(rows);
  }

  /** From a freshly created table: redo stays within maxRedo, and the change count is bounded by its retries. */
  lemma FreshTableSettles(w: World, es: seq<Event>)
    requires Fresh(w.rows) && Confined(w, es)
    ensures Changes(w, es) <= Sum(Allowances(w.rows), w.rows.Keys)
    ensures AllBudgeted(Run(w, es).rows)
  {
    FreshTotal(w.rows);
    RunsSettle(w, es);
    SumIsNonNegative(Weights(Run(w, es).rows), w.rows.Keys);
  }

  /** An open task without retries left. */
  predicate Exhausted(rows: Table, i: TaskId) {
    Live(rows, i) && rows[i].IsOpen() && rows[i].redo >= rows[i].maxRedo
  }

  predicate Quiescent(rows: Table) {
    forall i | i in rows :: !Claimable(rows, i) && !(Live(rows, i) && rows[i].status.Running?)
  }

  predicate AboveExhausted(rows: Table, i: TaskId) {
    i in rows && exists j | j in rows :: Exhausted(rows, j) && Below(rows[j], rows[i])
  }

  function LowerSteps(rows: Table, i: TaskId): set<TaskId>
    requires i in rows
  {
    set j | j in rows && rows[j].step < rows[i].step
  }

  /** Following blockers downwards in a quiescent table ends at an exhausted task. */
  lemma {:induction false} BlockedByExhausted(rows: Table, i: TaskId)
    requires Quiescent(rows) && Live(rows, i) && !rows[i].IsDone() && !Exhausted(rows, i)
    ensures AboveExhausted(rows, i)
    decreases |LowerSteps(rows, i)|
  {
    assert !Claimable(rows, i);
    var j :| j in rows && Blocks(rows, j, rows[i]);
    if Exhausted(rows, j) {
    } else {
      assert LowerSteps(rows, j) <= LowerSteps(rows, i) - {j};
      SubsetIsSmaller(LowerSteps(rows, j), LowerSteps(rows, i), j);
      BlockedByExhausted(rows, j);
    }
  }

  lemma {:induction false} SubsetIsSmaller(a: set<TaskId>, b: set<TaskId>, x: TaskId)
    requires a <= b - {x} && x in b
    ensures |a| < |b|
    decreases b
  {
    if a == {} {
    } else {
      var y :| y in a;
      SubsetIsSmaller(a - {y}, b - {y}, x);
    }
  }

  /** The stuck tables are exactly those whose unfinished tasks are exhausted or above an exhausted task. */
  lemma QuiescentExactly(rows: Table)
    ensures Quiescent(rows) <==>
            forall i | Live(rows, i) :: rows[i].IsDone() || Exhausted(rows, i)
                                        || (rows[i].IsOpen() && AboveExhausted(rows, i))
  {
    if Quiescent(rows) {
      forall i | Live(rows, i)
        ensures rows[i].IsDone() || Exhausted(rows, i) || (rows[i].IsOpen() && AboveExhausted(rows, i))
      {
        if !rows[i].IsDone() && !Exhausted(rows, i) { BlockedByExhausted(rows, i); }
      }
    }
    if forall i | Live(rows, i) ::
         rows[i].IsDone() || Exhausted(rows, i) || (rows[i].IsOpen() && AboveExhausted(rows, i))
    {
      forall i | i in rows && Live(rows, i) && AboveExhausted(rows, i)
        ensures !GateOpen(rows, rows[i])
      {
        var j :| j in rows && Exhausted(rows, j) && Below(rows[j], rows[i]);
        assert Blocks(rows, j, rows[i]);
      }
    }
  }

  /** A table that is not stuck can still change within the bound: a worker claims, or a running task reports. */
  lemma UnsettledCanMove(w: World) returns (e: Event)
    requires !Quiescent(w.rows)
    ensures (e.Claim? || e.Result?) && Timely(w, e) && Step(w, e).rows != w.rows
  {
    var i :| i in w.rows && (Claimable(w.rows, i) || (Live(w.rows, i) && w.rows[i].status.Running?));
    e := if Claimable(w.rows, i) then Claim(i, "", 0) else Result(i, Succeeded, 0);
    assert Step(w, e).rows[i].status != w.rows[i].status;
  }
}
