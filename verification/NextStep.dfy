/**
 The scan for the next step of a flow (GetNextStepTasks in task/manager/repository.go and
 GetNextStepPendingTaskTypes in task/manager/manager.go) against the gate of the claim query.
 The scan counts a canceled task as unfinished, the gate counts it as settled.
 */
module NextStep {
  import opened TaskModel
  import opened TaskTable

  /** The live rows of one flow. */
  function Flow(rows: Table, subjectId: nat, appGroup: string): set<TaskId> {
    set id | id in rows && !rows[id].deleted && rows[id].subjectId == subjectId && rows[id].appGroup == appGroup
  }

  predicate Listed(t: Task) {
    t.status.Pending? || t.status.Failed? || t.status.Running?
  }

  /** No task of `ids` on an earlier step than `step` is short of success. */
  predicate NoneUnfinishedBefore(rows: Table, ids: set<TaskId>, step: int)
    requires ids <= rows.Keys
  {
    forall j | j in ids && !rows[j].status.Success? :: step <= rows[j].step
  }

  /** The listed tasks of the first step that is not all success. */
  function NextTasks(rows: Table, ids: set<TaskId>): set<TaskId>
    requires ids <= rows.Keys
  {
    set id | id in ids && Listed(rows[id]) && NoneUnfinishedBefore(rows, ids, rows[id].step)
  }

  predicate Increasing(s: seq<int>) {
    forall i, j | 0 <= i < j < |s| :: s[i] < s[j]
  }

  predicate OccursIn(rows: Table, ids: set<TaskId>, step: int)
    requires ids <= rows.Keys
  {
    exists id | id in ids :: rows[id].step == step
  }

  method LeastStep(rows: Table, ids: set<TaskId>) returns (m: TaskId)
    requires ids != {} && ids <= rows.Keys
    ensures m in ids && forall id | id in ids :: rows[m].step <= rows[id].step
  {
    m :| m in ids;
    var todo := ids - {m};
    while todo != {}
      invariant todo <= ids && m in ids && forall id | id in ids && id !in todo :: rows[m].step <= rows[id].step
      decreases todo
    {
      var id :| id in todo;
      if rows[id].step < rows[m].step { m := id; }
      todo := todo - {id};
    }
  }

  /** The steps of a set of tasks, each once, in increasing order. */
  method SortedSteps(rows: Table, ids: set<TaskId>) returns (steps: seq<int>)
    requires ids <= rows.Keys
    ensures Increasing(steps)
    ensures forall id | id in ids :: rows[id].step in steps
    ensures forall k | 0 <= k < |steps| :: OccursIn(rows, ids, steps[k])
  {
    steps := [];
    var todo := ids;
    while todo != {}
      invariant todo <= ids && Increasing(steps)
      invariant forall id | id in ids && id !in todo :: rows[id].step in steps
      invariant forall k | 0 <= k < |steps| :: OccursIn(rows, ids, steps[k])
      invariant forall k, id | 0 <= k < |steps| && id in todo :: steps[k] < rows[id].step
      decreases todo
    {
      var m := LeastStep(rows, todo);
      steps := steps + [rows[m].step];
      todo := set id | id in todo && rows[id].step != rows[m].step;
    }
  }

  /** Groups a query result by step. */
  method ByStep(rows: Table, ids: set<TaskId>) returns (byStep: map<int, set<TaskId>>)
    requires ids <= rows.Keys
    ensures forall id | id in ids :: rows[id].step in byStep
    ensures forall s | s in byStep :: byStep[s] == (set id | id in ids && rows[id].step == s) && byStep[s] != {}
  {
    byStep := map[];
    var todo := ids;
    while todo != {}
      invariant todo <= ids
      invariant forall id | id in ids - todo :: rows[id].step in byStep
      invariant forall s | s in byStep ::
                  byStep[s] == (set id | id in ids && id !in todo && rows[id].step == s) && byStep[s] != {}
      decreases todo
    {
      var id :| id in todo;
      var s := rows[id].step;
      byStep := byStep[s := (if s in byStep then byStep[s] else {}) + {id}];
      todo := todo - {id};
    }
  }

  /** The scan: group by step, sort the steps, stop at the first step that is not all success. */
  method GetNextStepTasks(rows: Table, subjectId: nat, appGroup: string) returns (result: set<TaskId>)
    ensures result == NextTasks(rows, Flow(rows, subjectId, appGroup))
    ensures forall id :: id in result <==>
              && id in rows && !rows[id].deleted && rows[id].subjectId == subjectId && rows[id].appGroup == appGroup
              && (rows[id].status == Pending || rows[id].status == Failed || rows[id].status == Running)
              && forall j | j in rows && !rows[j].deleted && rows[j].subjectId == subjectId
                            && rows[j].appGroup == appGroup && rows[j].status != Success ::
                   rows[id].step <= rows[j].step
  {
    var ids := Flow(rows, subjectId, appGroup);
    var byStep := ByStep(rows, ids);
    var steps := SortedSteps(rows, ids);
    var i := 0;
    while i < |steps|
      invariant 0 <= i <= |steps|
      invariant forall id | id in ids && rows[id].step in steps[..i] :: rows[id].status.Success?
    {
      var s := steps[i];
      if exists id | id in byStep[s] :: !rows[id].status.Success? {
        result := set id | id in byStep[s] && Listed(rows[id]);
        FirstUnfinishedStep(rows, ids, steps, i);
        return;
      }
      i := i + 1;
    }
    result := {};
    assert steps[..i] == steps;
  }

  /** When every earlier step is all success and this one is not, its listed tasks are the next tasks. */
  lemma FirstUnfinishedStep(rows: Table, ids: set<TaskId>, steps: seq<int>, i: nat)
    requires ids <= rows.Keys && i < |steps| && Increasing(steps)
    requires forall id | id in ids :: rows[id].step in steps
    requires forall id | id in ids && rows[id].step in steps[..i] :: rows[id].status.Success?
    requires exists id | id in ids :: rows[id].step == steps[i] && !rows[id].status.Success?
    ensures NextTasks(rows, ids) == set id | id in ids && rows[id].step == steps[i] && Listed(rows[id])
  {
  }

  function PendingTypes(rows: Table, ids: set<TaskId>): set<string>
    requires ids <= rows.Keys
  {
    set id | id in ids && rows[id].status.Pending? :: rows[id].taskType
  }

  /** What the scan of a flow triggers. */
  function TriggeredTypes(rows: Table, subjectId: nat, appGroup: string): set<string> {
    PendingTypes(rows, NextTasks(rows, Flow(rows, subjectId, appGroup)))
  }

  method GetNextStepPendingTaskTypes(rows: Table, subjectId: nat, appGroup: string) returns (types: set<string>)
    ensures types == TriggeredTypes(rows, subjectId, appGroup)
    ensures types == set id | id in NextTasks(rows, Flow(rows, subjectId, appGroup)) && rows[id].status == Pending
                              :: rows[id].taskType
  {
    var next := GetNextStepTasks(rows, subjectId, appGroup);
    types := {};
    var todo := next;
    while todo != {}
      invariant todo <= next && types == PendingTypes(rows, next - todo)
      decreases todo
    {
      var id :| id in todo;
      var done := next - todo;
      todo := todo - {id};
      assert next - todo == done + {id};
      if rows[id].status.Pending? {
        types := types + {rows[id].taskType};
      }
    }
    assert next - todo == next;
  }

  /** The flow's tasks that the claim gate lets through. */
  function Gated(rows: Table, subjectId: nat, appGroup: string): set<TaskId> {
    set id | id in Flow(rows, subjectId, appGroup) && GateOpen(rows, rows[id])
  }

  /** Whatever the scan lists is let through by the claim gate. */
  lemma ScanPassesGate(rows: Table, subjectId: nat, appGroup: string)
    ensures NextTasks(rows, Flow(rows, subjectId, appGroup)) <= Gated(rows, subjectId, appGroup)
  {
  }

  /** A canceled task sits on an earlier step than a pending task the gate lets through. */
  ghost predicate CanceledBelowPending(rows: Table, subjectId: nat, appGroup: string) {
    exists c, p | c in Flow(rows, subjectId, appGroup) && p in Gated(rows, subjectId, appGroup) ::
      rows[c].status.Canceled? && rows[p].status.Pending? && rows[c].step < rows[p].step
  }

  /** Below a pending task that passes the gate only a canceled task can stop the scan. */
  lemma PendingThroughBoth(rows: Table, subjectId: nat, appGroup: string, p: TaskId)
    requires !CanceledBelowPending(rows, subjectId, appGroup)
    requires p in Gated(rows, subjectId, appGroup) && rows[p].status.Pending?
    ensures p in NextTasks(rows, Flow(rows, subjectId, appGroup))
  {
  }

  /**
   The types the scan triggers are the types of the pending tasks that may be claimed,
   exactly when no canceled task sits below such a task.
   */
  lemma TriggeredTypesExactly(rows: Table, subjectId: nat, appGroup: string)
    ensures TriggeredTypes(rows, subjectId, appGroup)
            == PendingTypes(rows, Gated(rows, subjectId, appGroup))
            <==> !CanceledBelowPending(rows, subjectId, appGroup)
  {
    var ids := Flow(rows, subjectId, appGroup);
    var scan, gate := NextTasks(rows, ids), Gated(rows, subjectId, appGroup);
    ScanPassesGate(rows, subjectId, appGroup);
    if CanceledBelowPending(rows, subjectId, appGroup) {
      var c, p :| c in ids && p in gate
                  && rows[c].status.Canceled? && rows[p].status.Pending? && rows[c].step < rows[p].step;
      assert rows[p].taskType in PendingTypes(rows, gate);
      forall q | q in ids && rows[q].step <= rows[c].step
        ensures rows[q].IsDone()
      {
        assert !Blocks(rows, q, rows[p]);
      }
      assert PendingTypes(rows, scan) == {};
    } else {
      forall p | p in gate && rows[p].status.Pending?
        ensures p in scan
      {
        PendingThroughBoth(rows, subjectId, appGroup, p);
      }
    }
  }

  /** A running task is the only one of its flow up to its step that is short of success. */
  predicate Completes(rows: Table, id: TaskId)
    requires id in rows
  {
    forall j | j in Flow(rows, rows[id].subjectId, rows[id].appGroup) && j != id && rows[j].step <= rows[id].step ::
      rows[j].status.Success?
  }

  /** A success that does not complete its step leaves the triggered types as they are. */
  lemma UnfinishedStepTriggersTheSame(rows: Table, id: TaskId, now: int)
    requires Live(rows, id) && rows[id].status.Running? && !Completes(rows, id)
    ensures var t := rows[id];
            TriggeredTypes(rows, t.subjectId, t.appGroup)
            == TriggeredTypes(rows[id := Saved(AsSuccess(t, now), now)], t.subjectId, t.appGroup)
  {
    var t := rows[id];
    var after := rows[id := Saved(AsSuccess(t, now), now)];
    var ids := Flow(rows, t.subjectId, t.appGroup);
    assert Flow(after, t.subjectId, t.appGroup) == ids;
    var j :| j in ids && j != id && rows[j].step <= t.step && !rows[j].status.Success?;
    forall p | p in ids && rows[p].status.Pending?
      ensures p in NextTasks(rows, ids) <==> p in NextTasks(after, ids)
    {
      assert NoneUnfinishedBefore(rows, ids, rows[p].step) <==> NoneUnfinishedBefore(after, ids, rows[p].step);
    }
  }

  /** A success read before it is committed completes nothing: its step looks unfinished and holds no pending task. */
  lemma CompletedStepTriggersNothing(rows: Table, id: TaskId)
    requires Live(rows, id) && rows[id].status.Running? && Completes(rows, id)
    ensures TriggeredTypes(rows, rows[id].subjectId, rows[id].appGroup) == {}
  {
    var ids := Flow(rows, rows[id].subjectId, rows[id].appGroup);
    assert id in ids;
  }

  /** A pending task of the flow is on the first step that is unfinished apart from task `id`. */
  predicate PendingNext(rows: Table, id: TaskId)
    requires id in rows
  {
    var ids := Flow(rows, rows[id].subjectId, rows[id].appGroup);
    exists p | p in ids ::
      && rows[p].status.Pending?
      && forall j | j in ids && j != id && !rows[j].status.Success? :: rows[p].step <= rows[j].step
  }

  /** The success of a running task makes something due exactly when a pending task is next. */
  lemma DueExactlyWhenPendingNext(rows: Table, id: TaskId, now: int)
    requires Live(rows, id) && rows[id].status.Running?
    ensures var t := rows[id];
            TriggeredTypes(rows[id := Saved(AsSuccess(t, now), now)], t.subjectId, t.appGroup) != {}
            <==> PendingNext(rows, id)
  {
    var t := rows[id];
    var after := rows[id := Saved(AsSuccess(t, now), now)];
    var ids := Flow(rows, t.subjectId, t.appGroup);
    assert Flow(after, t.subjectId, t.appGroup) == ids;
    if PendingNext(rows, id) {
      var p :| p in ids && rows[p].status.Pending?
               && forall j | j in ids && j != id && !rows[j].status.Success? :: rows[p].step <= rows[j].step;
      assert p in NextTasks(after, ids);
      assert after[p].taskType in PendingTypes(after, NextTasks(after, ids));
    }
  }

  /**
   The trigger of a success reads the table without that success. It wakes what it should
   except when the success completes its step and a pending task is next.
   */
  lemma StaleTriggerRightExactly(rows: Table, id: TaskId, now: int)
    requires Live(rows, id) && rows[id].status.Running?
    ensures var t := rows[id];
            TriggeredTypes(rows, t.subjectId, t.appGroup)
            == TriggeredTypes(rows[id := Saved(AsSuccess(t, now), now)], t.subjectId, t.appGroup)
            <==> !(Completes(rows, id) && PendingNext(rows, id))
  {
    if Completes(rows, id) {
      CompletedStepTriggersNothing(rows, id);
      DueExactlyWhenPendingNext(rows, id, now);
    } else {
      UnfinishedStepTriggersTheSame(rows, id, now);
    }
  }

  /** A flow of two steps stalls: the success of the first wakes nobody for the second. */
  lemma TwoStepFlowStalls(t: Task, u: Task, now: int)
    requires t.status.Running? && u.status.Pending? && Below(t, u) && !t.deleted && !u.deleted
    ensures var rows := map[0 := t, 1 := u];
            && TriggeredTypes(rows, t.subjectId, t.appGroup) == {}
            && TriggeredTypes(rows[0 := Saved(AsSuccess(t, now), now)], t.subjectId, t.appGroup) == {u.taskType}
  {
    var rows: Table := map[0 := t, 1 := u];
    CompletedStepTriggersNothing(rows, 0);
    var after := rows[0 := Saved(AsSuccess(t, now), now)];
    assert NextTasks(after, Flow(after, t.subjectId, t.appGroup)) == {1};
    assert after[1].taskType in TriggeredTypes(after, t.subjectId, t.appGroup);
  }

  /**
   Canceling the last unfinished task of a step stalls the flow: the claim gate opens for the pending
   tasks above it, but the scan stops at the canceled task and triggers nothing.
   */
  lemma CancelStallsFlow(w: World, id: TaskId, p: TaskId, now: int)
    requires Cancelable(w.rows, id) && Completes(w.rows, id)
    requires Live(w.rows, p) && w.rows[p].status.Pending? && Below(w.rows[id], w.rows[p])
    requires forall j | Live(w.rows, j) && j != id && Below(w.rows[j], w.rows[p]) :: w.rows[j].IsDone()
    ensures var rows := Step(w, Cancel(id, now)).rows;
            && TriggeredTypes(rows, w.rows[id].subjectId, w.rows[id].appGroup) == {}
            && rows[p] == w.rows[p] && GateOpen(rows, rows[p])
            && p !in NextTasks(rows, Flow(rows, w.rows[id].subjectId, w.rows[id].appGroup))
  {
    var rows := Step(w, Cancel(id, now)).rows;
    var ids := Flow(rows, w.rows[id].subjectId, w.rows[id].appGroup);
    assert id in ids && ids == Flow(w.rows, w.rows[id].subjectId, w.rows[id].appGroup);
    forall q | q in NextTasks(rows, ids)
      ensures !rows[q].status.Pending?
    {
      assert rows[q].step <= rows[id].step;
    }
  }
}
