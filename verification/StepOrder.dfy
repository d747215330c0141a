/**
 Steps of one flow run in order: once a task has been claimed, every earlier step of its
 group is settled. The order survives a call exactly when the call is not a late failure
 or a late creation below a claimed task.
 */
module StepOrder {
  import opened TaskModel
  import opened TaskTable

  /** Every claimed row has only settled rows below it. */
  ghost predicate Ordered(w: World) {
    && (forall i | i in w.claims :: i in w.rows)
    && (forall i | i in w.claims :: GateOpen(w.rows, w.rows[i]))
  }

  ghost predicate RunningWasClaimed(w: World) {
    forall i | i in w.rows && w.rows[i].status.Running? :: i in w.claims
  }

  /** Some task of a later step of `t`'s group has been claimed. */
  ghost predicate ClaimedAbove(w: World, t: Task) {
    exists i | i in w.claims :: i in w.rows && Below(t, w.rows[i])
  }

  /** The calls that break the order, told from the state before the call. */
  ghost predicate Disturbs(w: World, e: Event) {
    match e
    case Result(id, outcome, _) =>
      !outcome.Succeeded? && Live(w.rows, id) && ClaimedAbove(w, w.rows[id])
    case Create(news) =>
      && news.Keys !! w.rows.Keys
      && exists j | j in news :: !news[j].deleted && !news[j].IsDone() && ClaimedAbove(w, news[j])
    case _ => false
  }

  lemma UndisturbedStaysOrdered(w: World, e: Event)
    requires Ordered(w) && !Disturbs(w, e)
    ensures Ordered(Step(w, e))
  {
  }

  lemma DisturbedLosesOrder(w: World, e: Event)
    requires Ordered(w) && Disturbs(w, e)
    ensures !Ordered(Step(w, e))
  {
    var w' := Step(w, e);
    match e
    case Result(id, outcome, now) =>
      var i :| i in w.claims && i in w.rows && Below(w.rows[id], w.rows[i]);
      assert Blocks(w'.rows, id, w'.rows[i]);
    case Create(news) =>
      var j :| j in news && !news[j].deleted && !news[j].IsDone() && ClaimedAbove(w, news[j]);
      var i :| i in w.claims && i in w.rows && Below(news[j], w.rows[i]);
      assert Blocks(w'.rows, j, w'.rows[i]);
  }

  ghost predicate AlwaysOrdered(w: World, es: seq<Event>)
    decreases |es|
  {
    Ordered(w) && (es == [] || AlwaysOrdered(Step(w, es[0]), es[1..]))
  }

  ghost predicate NeverDisturbed(w: World, es: seq<Event>)
    decreases |es|
  {
    es == [] || (!Disturbs(w, es[0]) && NeverDisturbed(Step(w, es[0]), es[1..]))
  }

  /** Exactly the runs without a disturbing call keep the step order throughout. */
  lemma {:induction false} OrderHoldsExactlyWhenUndisturbed(w: World, es: seq<Event>)
    requires Ordered(w)
    ensures AlwaysOrdered(w, es) <==> NeverDisturbed(w, es)
    decreases |es|
  {
    if es == [] {
    } else {
      if Disturbs(w, es[0]) {
        DisturbedLosesOrder(w, es[0]);
      } else {
        UndisturbedStaysOrdered(w, es[0]);
        OrderHoldsExactlyWhenUndisturbed(Step(w, es[0]), es[1..]);
      }
    }
  }

  /** A creation call brings whole new groups, all of their rows pending. */
  predicate CreatesWholeGroups(w: World, e: Event) {
    e.Create? ==>
      forall j | j in e.news ::
        e.news[j].status.Pending? && forall i | i in w.rows :: !SameGroup(e.news[j], w.rows[i])
  }

  predicate Orderly(w: World, es: seq<Event>)
    decreases |es|
  {
    es == [] || (Timely(w, es[0]) && CreatesWholeGroups(w, es[0]) && Orderly(Step(w, es[0]), es[1..]))
  }

  lemma OrderlyCallNeverDisturbs(w: World, e: Event)
    requires Ordered(w) && Timely(w, e) && CreatesWholeGroups(w, e)
    ensures !Disturbs(w, e)
  {
  }

  lemma RunningStaysClaimed(w: World, e: Event)
    requires RunningWasClaimed(w) && CreatesWholeGroups(w, e)
    ensures RunningWasClaimed(Step(w, e))
  {
  }

  /**
   Step order over whole runs: with timely results and groups created whole, in every
   state of the run a claimed task has only settled earlier steps.
   */
  lemma {:induction false} StepOrderOverRuns(w: World, es: seq<Event>)
    requires Ordered(w) && RunningWasClaimed(w) && Orderly(w, es)
    ensures NeverDisturbed(w, es)
    ensures Ordered(Run(w, es)) && RunningWasClaimed(Run(w, es))
    decreases |es|
  {
    if es == [] {
    } else {
      OrderlyCallNeverDisturbs(w, es[0]);
      UndisturbedStaysOrdered(w, es[0]);
      RunningStaysClaimed(w, es[0]);
      StepOrderOverRuns(Step(w, es[0]), es[1..]);
    }
  }

  /** Two live tasks of different steps of one group are never running together. */
  lemma NeverTwoStepsRunning(es: seq<Event>, i: TaskId, j: TaskId)
    requires Orderly(World(map[], []), es)
    ensures
      var rows := Run(World(map[], []), es).rows;
      Live(rows, i) && Live(rows, j) && rows[i].status.Running? && rows[j].status.Running?
      && SameGroup(rows[i], rows[j])
      ==> rows[i].step == rows[j].step
  {
    StepOrderOverRuns(World(map[], []), es);
    var rows := Run(World(map[], []), es).rows;
    if Live(rows, i) && Live(rows, j) && rows[i].status.Running? && rows[j].status.Running? {
      assert !Blocks(rows, i, rows[j]);
      assert !Blocks(rows, j, rows[i]);
    }
  }

  /** One late failure after success is enough to run a settled step again beside its successor. */
  lemma LateFailureRunsTwoSteps(a: Task, b: Task) returns (w: World)
    requires a.status.Pending? && b.status.Pending? && !a.deleted && !b.deleted
    requires a.redo + 1 < a.maxRedo && b.redo < b.maxRedo && Below(a, b)
    ensures w.rows.Keys == {0, 1} && Below(w.rows[0], w.rows[1])
    ensures w.rows[0].status.Running? && w.rows[1].status.Running?
  {
    w := World(map[0 := a, 1 := b], []);
    assert Claimable(w.rows, 0);
    w := Step(Step(w, Claim(0, "x", 0)), Result(0, Succeeded, 0));
    assert w.rows.Keys == {0, 1} && w.rows[0].status.Success? && w.rows[1] == b;
    assert Claimable(w.rows, 1);
    w := Step(Step(w, Claim(1, "y", 0)), Result(0, Errored, 0));
    assert w.rows.Keys == {0, 1} && w.rows[0].redo == a.redo + 1 && w.rows[1].status.Running?;
    assert Claimable(w.rows, 0);
    w := Step(w, Claim(0, "x", 0));
  }
}
