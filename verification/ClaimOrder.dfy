/**
 The order in which claimable rows of one task type are taken (the ORDER BY of the claim
 query in task/manager/repository.go): higher priority first, and longest unchanged first
 within a priority.
 */
module ClaimOrder {
  import opened TaskModel
  import opened TaskTable
  import opened ClaimBound

  /** A claim made with no row locked takes a row no claimable row of its type comes before. */
  predicate FirstChoice(w: World, e: Event) {
    e.Claim? && Claimable(w.rows, e.id) ==>
      forall j | j in w.rows && w.rows[j].taskType == w.rows[e.id].taskType && Claimable(w.rows, j) ::
        && w.rows[j].priority <= w.rows[e.id].priority
        && (w.rows[j].priority == w.rows[e.id].priority ==> w.rows[e.id].updatedAt <= w.rows[j].updatedAt)
  }

  /** The call neither addresses row `id` nor opens or adds a row of an earlier step below it. */
  predicate Spares(w: World, e: Event, id: TaskId)
    requires id in w.rows
  {
    match e
    case Create(news) => forall j | j in news :: news[j].deleted || news[j].IsDone() || !Below(news[j], w.rows[id])
    case Claim(_, _, _) => true
    case Result(j, outcome, _) =>
      j != id && (outcome.Succeeded? || j !in w.rows || !Below(w.rows[j], w.rows[id]))
    case Sweep(_, _, _) => true
    case Cancel(j, _) => j != id
    case Delete(j) => j != id
  }

  lemma RowsKeepTypeAndPriority(w: World, e: Event, id: TaskId)
    requires id in w.rows
    ensures id in Step(w, e).rows
    ensures Step(w, e).rows[id].taskType == w.rows[id].taskType && Step(w, e).rows[id].priority == w.rows[id].priority
  {
  }

  /** A claimable row stays claimable, and as it is, until it is claimed or a call concerns it. */
  lemma SparedStaysClaimable(w: World, e: Event, id: TaskId)
    requires Claimable(w.rows, id) && Spares(w, e, id) && !(e.Claim? && e.id == id)
    ensures Claimable(Step(w, e).rows, id) && Step(w, e).rows[id] == w.rows[id]
  {
    var rows := Step(w, e).rows;
    forall j | j in rows
      ensures !Blocks(rows, j, rows[id])
    {
      assert j in w.rows ==> !Blocks(w.rows, j, w.rows[id]);
    }
  }

  ghost predicate AllFirstChoices(w: World, es: seq<Event>)
    decreases |es|
  {
    es == [] || (FirstChoice(w, es[0]) && AllFirstChoices(Step(w, es[0]), es[1..]))
  }

  ghost predicate AllSpare(w: World, es: seq<Event>, id: TaskId)
    decreases |es|
  {
    es == [] || (id in w.rows && Spares(w, es[0], id) && AllSpare(Step(w, es[0]), es[1..], id))
  }

  lemma ClaimCounts(w: World, e: Event, id: TaskId)
    ensures ClaimsOf(Step(w, e), id)
            == ClaimsOf(w, id) + if e.Claim? && e.id == id && Claimable(w.rows, id) then 1 else 0
  {
    if e.Claim? && Claimable(w.rows, e.id) {
      assert multiset(w.claims + [e.id]) == multiset(w.claims) + multiset{e.id};
    }
  }

  lemma {:induction false} ClaimsOnlyGrow(w: World, es: seq<Event>, id: TaskId)
    ensures ClaimsOf(w, id) <= ClaimsOf(Run(w, es), id)
    decreases |es|
  {
    if es == [] {
    } else {
      ClaimCounts(w, es[0], id);
      ClaimsOnlyGrow(Step(w, es[0]), es[1..], id);
    }
  }

  /**
   Of two rows of one type the one with the higher priority is claimed first: as long as the higher
   one is claimable and not claimed, whatever else happens, the lower one is not claimed.
   */
  lemma {:induction false} HigherPriorityFirst(w: World, es: seq<Event>, high: TaskId, low: TaskId)
    requires Claimable(w.rows, high) && low in w.rows && w.rows[low].taskType == w.rows[high].taskType
    requires w.rows[low].priority < w.rows[high].priority
    requires AllFirstChoices(w, es) && AllSpare(w, es, high)
    requires ClaimsOf(Run(w, es), high) == ClaimsOf(w, high)
    ensures ClaimsOf(Run(w, es), low) == ClaimsOf(w, low)
    decreases |es|
  {
    if es == [] {
    } else {
      var e := es[0];
      var w' := Step(w, e);
      ClaimCounts(w, e, high);
      ClaimCounts(w, e, low);
      ClaimsOnlyGrow(w', es[1..], high);
      RowsKeepTypeAndPriority(w, e, low);
      SparedStaysClaimable(w, e, high);
      HigherPriorityFirst(w', es[1..], high, low);
    }
  }

  /** Within a priority the row that has been unchanged longest is claimed first. */
  lemma {:induction false} OlderFirst(w: World, es: seq<Event>, older: TaskId, newer: TaskId)
    requires Claimable(w.rows, older) && newer in w.rows && w.rows[newer].taskType == w.rows[older].taskType
    requires w.rows[newer].priority == w.rows[older].priority && w.rows[older].updatedAt < w.rows[newer].updatedAt
    requires AllFirstChoices(w, es) && AllSpare(w, es, older) && AllAfter(es, w.rows[older].updatedAt)
    requires ClaimsOf(Run(w, es), older) == ClaimsOf(w, older)
    ensures ClaimsOf(Run(w, es), newer) == ClaimsOf(w, newer)
    decreases |es|
  {
    if es == [] {
    } else {
      var e := es[0];
      var w' := Step(w, e);
      ClaimCounts(w, e, older);
      ClaimCounts(w, e, newer);
      ClaimsOnlyGrow(w', es[1..], older);
      RowsKeepTypeAndPriority(w, e, newer);
      RowsGetNewer(w, e, newer, w.rows[older].updatedAt);
      SparedStaysClaimable(w, e, older);
      assert forall i | 0 <= i < |es[1..]| :: es[1..][i] == es[i + 1];
      OlderFirst(w', es[1..], older, newer);
    }
  }

  /** Every call that stamps a row does so after time `t`. */
  predicate AllAfter(es: seq<Event>, t: int) {
    forall i | 0 <= i < |es| :: !es[i].Create? && !es[i].Delete? ==> t < es[i].now
  }

  lemma RowsGetNewer(w: World, e: Event, id: TaskId, t: int)
    requires id in w.rows && t < w.rows[id].updatedAt && (!e.Create? && !e.Delete? ==> t < e.now)
    ensures t < Step(w, e).rows[id].updatedAt
  {
  }
}
