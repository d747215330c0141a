/**
 Late releases (pool/redis.go): a lease that ran out may have been granted to somebody else,
 and the score its holder compares is what keeps a late release from freeing the other's slot.
 */
module LeaseFencing {
  import opened LeasePool

  /** The member of lease `l` was leased again. */
  predicate TakenOver(p: Pool, l: nat) {
    exists j: nat :: l < j < |p.leases| && p.leases[j].member == p.leases[l].member
  }

  /** Times are after the Unix epoch and expiries are positive. */
  ghost predicate Timed(p: Pool) {
    && 0 <= p.now
    && (forall c | c in p.calls :: 0 < p.calls[c].until)
    && (forall i | 0 <= i < |p.leases| :: 0 < p.leases[i].score)
  }

  /** Wherever a member is, it does not carry the score of a lease that was taken over. */
  ghost predicate FencedOff(p: Pool) {
    && (forall l: nat | Open(p, l) && TakenOver(p, l) && p.leases[l].member in p.zset ::
          p.zset[p.leases[l].member] != p.leases[l].score)
    && (forall l: nat, c | Open(p, l) && TakenOver(p, l) && Holds(p, c, p.leases[l].member) ::
          p.calls[c].score != p.leases[l].score)
  }

  predicate Grants(p: Pool, e: Event) {
    e.Put? && e.c in p.calls && p.calls[e.c].Holding? && p.calls[e.c].score <= p.calls[e.c].start
  }

  predicate Repeats(lease: Lease, call: Call) {
    call.Holding? && lease.member == call.member && lease.score == call.until
  }

  /** The acquire leases a member until the very moment an open lease of it runs out. */
  ghost predicate SameExpiry(p: Pool, e: Event) {
    && Grants(p, e)
    && exists l: nat :: Open(p, l) && Repeats(p.leases[l], p.calls[e.c])
  }

  predicate PositiveExpiry(e: Event) {
    e.Start? ==> 0 < e.expire
  }

  lemma GrantTakesOver(p: Pool, e: Event, l: nat)
    requires Grants(p, e) && l < |p.leases|
    ensures var q := Step(p, e);
            && q.leases[l] == p.leases[l]
            && (TakenOver(q, l) <==> TakenOver(p, l) || p.leases[l].member == p.calls[e.c].member)
  {
    var q := Step(p, e);
    if TakenOver(p, l) {
      var j: nat :| l < j < |p.leases| && p.leases[j].member == p.leases[l].member;
      assert q.leases[j].member == q.leases[l].member;
    }
    if p.leases[l].member == p.calls[e.c].member {
      assert q.leases[|p.leases|].member == q.leases[l].member;
    }
  }

  lemma OthersTakeNothingOver(p: Pool, e: Event, l: nat)
    requires !Grants(p, e)
    ensures |Step(p, e).leases| == |p.leases|
    ensures Open(Step(p, e), l) ==> Open(p, l) && Step(p, e).leases[l] == p.leases[l]
    ensures Open(Step(p, e), l) && TakenOver(Step(p, e), l) ==> TakenOver(p, l)
  {
    var q := Step(p, e);
    assert |q.leases| == |p.leases| && forall i | 0 <= i < |p.leases| :: q.leases[i].member == p.leases[i].member;
    if Open(q, l) && TakenOver(q, l) {
      var j: nat :| l < j < |q.leases| && q.leases[j].member == q.leases[l].member;
      assert p.leases[j].member == p.leases[l].member;
    }
  }

  lemma TimedKept(p: Pool, e: Event)
    requires Timed(p) && PositiveExpiry(e)
    ensures Timed(Step(p, e))
  {
  }

  /** An acquire keeps lost leases fenced off exactly when it does not repeat the expiry of an open one. */
  lemma GrantKeepsFenceExactly(p: Pool, e: Event)
    requires OnePlace(p) && FencedOff(p) && Grants(p, e)
    ensures FencedOff(Step(p, e)) <==> !SameExpiry(p, e)
  {
    var q, m := Step(p, e), p.calls[e.c].member;
    assert Holds(p, e.c, m);
    StepKeepsOthers(p, e);
    forall l: nat | l < |p.leases|
      ensures q.leases[l] == p.leases[l] && (TakenOver(q, l) <==> TakenOver(p, l) || p.leases[l].member == m)
    {
      GrantTakesOver(p, e, l);
    }
    if l: nat :| Open(p, l) && Repeats(p.leases[l], p.calls[e.c]) {
      assert Open(q, l) && TakenOver(q, l) && q.zset[m] == q.leases[l].score;
    }
  }

  lemma OthersKeepFence(p: Pool, e: Event)
    requires Timed(p) && FencedOff(p) && !Grants(p, e)
    ensures FencedOff(Step(p, e))
  {
    var q := Step(p, e);
    StepKeepsOthers(p, e);
    forall l: nat | Open(q, l) && TakenOver(q, l)
      ensures Open(p, l) && q.leases[l] == p.leases[l] && TakenOver(p, l)
    {
      OthersTakeNothingOver(p, e, l);
    }
    if e.Put? && e.c in p.calls && p.calls[e.c].Holding? {
      assert Holds(p, e.c, p.calls[e.c].member);
    }
  }

  /** Lost leases are fenced off in every state of a run. */
  ghost predicate FencedOffThroughout(p: Pool, es: seq<Event>)
    decreases |es|
  {
    FencedOff(p) && (es != [] ==> FencedOffThroughout(Step(p, es[0]), es[1..]))
  }

  ghost predicate NeverSameExpiry(p: Pool, es: seq<Event>)
    decreases |es|
  {
    es == [] || (!SameExpiry(p, es[0]) && NeverSameExpiry(Step(p, es[0]), es[1..]))
  }

  /**
   Over a run of safe steps, lost leases are fenced off throughout exactly when no acquire
   repeats an open lease's expiry.
   */
  lemma {:induction false} FencingExactly(p: Pool, es: seq<Event>)
    requires Timed(p) && OnePlace(p) && Fenced(p) && FencedOff(p) && AllSafe(p, es)
    requires forall i | 0 <= i < |es| :: PositiveExpiry(es[i])
    ensures FencedOffThroughout(p, es) <==> NeverSameExpiry(p, es)
    ensures NeverSameExpiry(p, es) ==> FencedOff(Run(p, es))
    decreases |es|
  {
    if es == [] {
    } else {
      var q := Step(p, es[0]);
      OnePlaceKept(p, es[0]);
      FencedKept(p, es[0]);
      TimedKept(p, es[0]);
      if Grants(p, es[0]) {
        GrantKeepsFenceExactly(p, es[0]);
      } else {
        OthersKeepFence(p, es[0]);
      }
      if FencedOff(q) {
        FencingExactly(q, es[1..]);
      }
    }
  }

  /** An acquire puts its member back before the lease it grants would have run out. */
  predicate Prompt(p: Pool, e: Event) {
    Grants(p, e) ==> p.now < p.calls[e.c].until
  }

  ghost predicate AllPrompt(p: Pool, es: seq<Event>)
    decreases |es|
  {
    es == [] || (Prompt(p, es[0]) && AllPrompt(Step(p, es[0]), es[1..]))
  }

  /** A prompt acquire outlasts every open lease of its member. */
  lemma PromptGrantOutlasts(p: Pool, e: Event, l: nat)
    requires OnePlace(p) && Fenced(p) && Grants(p, e) && Prompt(p, e)
    requires Open(p, l) && p.leases[l].member == p.calls[e.c].member
    ensures p.leases[l].score < p.calls[e.c].until
  {
    assert Holds(p, e.c, p.calls[e.c].member);
    if p.now < p.leases[l].score {
      assert Active(p, l);
    }
  }

  lemma {:induction false} PromptRunsNeverRepeat(p: Pool, es: seq<Event>)
    requires OnePlace(p) && Fenced(p) && AllSafe(p, es) && AllPrompt(p, es)
    ensures NeverSameExpiry(p, es)
    decreases |es|
  {
    if es == [] {
    } else {
      if SameExpiry(p, es[0]) {
        var l: nat :| Open(p, l) && Repeats(p.leases[l], p.calls[es[0].c]);
        PromptGrantOutlasts(p, es[0], l);
      }
      OnePlaceKept(p, es[0]);
      FencedKept(p, es[0]);
      PromptRunsNeverRepeat(Step(p, es[0]), es[1..]);
    }
  }

  /**
   Fencing: in every run of safe steps with positive expiries whose acquires put their members back
   in time, the release of a lease whose member was leased again finds a foreign score and does nothing.
   */
  lemma {:induction false} LostLeaseIsFencedOff(p: Pool, es: seq<Event>, l: nat)
    requires p.calls == map[] && p.leases == [] && 0 <= p.now && AllSafe(p, es) && AllPrompt(p, es)
    requires forall i | 0 <= i < |es| :: PositiveExpiry(es[i])
    ensures var q := Run(p, es);
            TakenOver(q, l) && l !in q.matched ==> Step(Step(q, Compare(l)), Reset(l)).zset == q.zset
  {
    PromptRunsNeverRepeat(p, es);
    FencingExactly(p, es);
  }

  lemma WholeRelease(p: Pool, l: nat)
    requires Matches(p, l) && p.matched == {}
    ensures Step(Step(p, Compare(l)), Reset(l))
            == p.(zset := p.zset[p.leases[l].member := 0], leases := p.leases[l := p.leases[l].(released := true)])
  {
  }

  /** One acquire has read the clock; a second leases the slot, loses it to a third, and that one gives it back. */
  lemma LostAndFree(m: Member) returns (p: Pool)
    ensures p == Pool(10, map[m := 0], map[1 := Begun(0, 10)], [Lease(m, 10, false), Lease(m, 20, true)], {})
  {
    p := Step(Pool(0, map[m := 0], map[], [], {}), Start(1, 10));
    UninterruptedAcquire(p, 0, 10, m);
    p := Step(Acquired(p, 0, 10, m), Advance(10));
    assert p == Pool(10, map[m := 10], map[1 := Begun(0, 10)], [Lease(m, 10, false)], {});
    UninterruptedAcquire(p, 2, 10, m);
    p := Acquired(p, 2, 10, m);
    assert p == Pool(10, map[m := 20], map[1 := Begun(0, 10)], [Lease(m, 10, false), Lease(m, 20, false)], {});
    WholeRelease(p, 1);
    p := Step(Step(p, Compare(1)), Reset(1));
  }

  /** A put that is ten units late lets the release of a lease lost long ago free the slot of another. */
  lemma LatePutUnfencesLostLease(m: Member) returns (p: Pool)
    ensures TakenOver(p, 0) && Step(Step(p, Compare(0)), Reset(0)).zset != p.zset
  {
    p := LostAndFree(m);
    assert Least(p.zset, m);
    p := Step(Step(p, Pop(1, m)), Put(1));
    assert p.leases[0] == Lease(m, 10, false) && p.leases[2].member == m && p.zset[m] == 10;
  }
}
