/**
 However calls interleave, with late and duplicate results included, a task is claimed
 at most `maxRedo - redo` times, counted from any moment of its life.
 */
module ClaimBound {
  import opened TaskModel
  import opened TaskTable

  function Max0(n: int): nat {
    if n < 0 then 0 else n
  }

  /** Claims a row can still receive: leaving an open status spends one retry. */
  function Budget(t: Task): nat {
    Max0(t.maxRedo - t.redo - if t.IsOpen() then 0 else 1)
  }

  function ClaimsOf(w: World, id: TaskId): nat {
    multiset(w.claims)[id]
  }

  /** The claims made so far and the claims still possible never grow together. */
  lemma StepSpendsBudget(w: World, e: Event, id: TaskId)
    requires id in w.rows
    ensures id in Step(w, e).rows
    ensures ClaimsOf(Step(w, e), id) + Budget(Step(w, e).rows[id]) <= ClaimsOf(w, id) + Budget(w.rows[id])
  {
  }

  /** The claim bound, for every run from every table. */
  lemma {:induction false} ClaimsNeverExceedRetries(w: World, es: seq<Event>, id: TaskId)
    requires id in w.rows
    ensures id in Run(w, es).rows
    ensures ClaimsOf(Run(w, es), id) + Budget(Run(w, es).rows[id]) <= ClaimsOf(w, id) + Budget(w.rows[id])
    ensures ClaimsOf(Run(w, es), id) - ClaimsOf(w, id) <= Max0(w.rows[id].maxRedo - w.rows[id].redo)
    decreases |es|
  {
    if es == [] {
    } else {
      StepSpendsBudget(w, es[0], id);
      ClaimsNeverExceedRetries(Step(w, es[0]), es[1..], id);
    }
  }

  /** Claim and fail `k` times in a row. */
  function ClaimAndFail(id: TaskId, k: nat): seq<Event> {
    if k == 0 then [] else [Claim(id, "w", 0), Result(id, Errored, 0)] + ClaimAndFail(id, k - 1)
  }

  /** The bound is reached: a claimable row can be claimed exactly as often as it has retries left. */
  lemma {:induction false} BoundIsReached(w: World, id: TaskId, k: nat)
    requires Live(w.rows, id) && w.rows[id].IsOpen() && GateOpen(w.rows, w.rows[id])
    requires k == w.rows[id].maxRedo - w.rows[id].redo
    ensures ClaimsOf(Run(w, ClaimAndFail(id, k)), id) == ClaimsOf(w, id) + k
    decreases k
  {
    if k == 0 {
    } else {
      var w1 := Step(w, Claim(id, "w", 0));
      assert multiset(w1.claims) == multiset(w.claims) + multiset{id};
      var w2 := Step(w1, Result(id, Errored, 0));
      var es, rest := ClaimAndFail(id, k), ClaimAndFail(id, k - 1);
      assert es[1..][1..] == rest && es[0].Claim? && es[1..][0].Result?;
      forall j | j in w2.rows
        ensures !Blocks(w2.rows, j, w2.rows[id])
      {
        assert !Blocks(w.rows, j, w.rows[id]);
      }
      BoundIsReached(w2, id, k - 1);
      assert Run(w, es) == Run(w1, es[1..]) == Run(w2, rest);
    }
  }
}
