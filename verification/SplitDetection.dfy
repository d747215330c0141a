/**
 How long a death can go unnoticed when check passes take time (task/health/checker.go):
 a pass takes the time when it begins, and its reads and its write-back come later.
 */
module SplitDetection {
  import opened Options
  import opened SplitPass
  import Heartbeat
  import Clocks

  type WorkerId = Heartbeat.WorkerId

  /** The worker sends nothing and is not removed. */
  ghost predicate AllSilent(es: seq<Event>, w: WorkerId) {
    forall i | 0 <= i < |es| :: !(es[i].Set? && es[i].w == w) && !(es[i].Remove? && es[i].w == w)
  }

  predicate WritesTo(e: Event, w: WorkerId) {
    e.Write? && e.w == w
  }

  /** Between `i` and `j` the pass does not end, its reads are served, and nobody writes to `w`. */
  ghost predicate Uncrossed(es: seq<Event>, p: PassId, w: WorkerId, i: nat, j: nat)
    requires j <= |es|
  {
    forall k | i < k < j :: es[k] != End(p) && es[k] != ReadGraces(p, false) && !WritesTo(es[k], w)
  }

  /** A whole pass over worker `w`, begun at `i` and written back at `j`. */
  ghost predicate PassOver(ss: seq<State>, es: seq<Event>, w: WorkerId, i: nat, j: nat) {
    && i < j < |es| && |ss| == |es| + 1 && WritesTo(es[j], w) && es[j].served
    && var p := es[j].p;
    && es[i] == Begin(p) && p !in ss[i].passes && Uncrossed(es, p, w, i, j)
    && exists r, g :: i < r < g < j && es[r] == ReadBeats(p) && es[g] == ReadGraces(p, true)
  }

  /** Whatever is written to `w` comes from a whole pass over it. */
  ghost predicate WholePasses(ss: seq<State>, es: seq<Event>, w: WorkerId) {
    forall j: nat | j < |es| && |ss| == |es| + 1 && WritesTo(es[j], w) && Pending(ss[j], es[j].p, w) ::
      exists i: nat :: PassOver(ss, es, w, i, j)
  }

  /** What a pass that began at `at` has seen of a worker with this record. */
  predicate HasSeen(pass: Pass, at: int, w: WorkerId, record: Heartbeat.Record) {
    && pass.at == at
    && (pass.SawBeats? ==>
          && (w in pass.beats <==> record.beat.Some?)
          && (w in pass.beats ==> Some(pass.beats[w]) == record.beat))
    && (pass.Saw? ==>
          && (w in pass.records <==> record.beat.Some?)
          && (w in pass.records ==> pass.records[w] == record))
  }

  lemma SilentStep(s: State, e: Event, w: WorkerId)
    requires !(e.Set? && e.w == w) && !(e.Remove? && e.w == w) && !WritesTo(e, w)
    ensures At(Step(s, e), w) == At(s, w)
  {
  }

  lemma SeenStep(s: State, e: Event, p: PassId, at: int, w: WorkerId)
    requires p in s.passes && HasSeen(s.passes[p], at, w, At(s, w).record)
    requires e != End(p) && e != ReadGraces(p, false) && !WritesTo(e, w)
    ensures p in Step(s, e).passes && HasSeen(Step(s, e).passes[p], at, w, At(s, w).record)
    ensures s.passes[p].Saw? || (s.passes[p].SawBeats? && e == ReadGraces(p, true)) ==> Step(s, e).passes[p].Saw?
    ensures !s.passes[p].Began? || e == ReadBeats(p) ==> !Step(s, e).passes[p].Began?
  {
  }

  /** During a pass over a silent worker nothing changes it, and what the pass has seen of it is true. */
  lemma {:induction false} DuringPass(ss: seq<State>, es: seq<Event>, p: PassId, w: WorkerId, i: nat, k: nat)
    requires Trace(ss, es) && AllSilent(es, w) && i < k <= |es|
    requires es[i] == Begin(p) && p !in ss[i].passes && Uncrossed(es, p, w, i, k)
    ensures At(ss[k], w) == At(ss[i], w)
    ensures p in ss[k].passes && HasSeen(ss[k].passes[p], ss[i].now, w, At(ss[i], w).record)
    ensures (exists r :: i < r < k && es[r] == ReadBeats(p)) ==> !ss[k].passes[p].Began?
    ensures (exists r, g :: i < r < g < k && es[r] == ReadBeats(p) && es[g] == ReadGraces(p, true)) ==>
              ss[k].passes[p].Saw?
    decreases k
  {
    var e := es[k - 1];
    assert ss[k] == Step(ss[k - 1], e);
    SilentStep(ss[k - 1], e, w);
    if i == k - 1 {
    } else {
      DuringPass(ss, es, p, w, i, k - 1);
      SeenStep(ss[k - 1], e, p, ss[i].now, w);
    }
  }

  /** A whole pass over a silent worker decides on the worker as it is. */
  lemma PassDecides(ss: seq<State>, es: seq<Event>, w: WorkerId, i: nat, j: nat)
    requires Trace(ss, es) && AllSilent(es, w) && PassOver(ss, es, w, i, j)
    ensures var x := At(ss[i], w);
            && At(ss[j], w) == x
            && At(ss[j + 1], w) == if x.record.beat.None? then x else
                 Heartbeat.WrittenBack(x, x.record, ss[i].now, ss[j].now, es[j].buried)
  {
    DuringPass(ss, es, es[j].p, w, i, j);
    assert ss[j + 1] == Step(ss[j], es[j]);
  }

  function Times(ss: seq<State>): seq<int> {
    seq(|ss|, i requires 0 <= i < |ss| => ss[i].now)
  }

  lemma TimeOnlyAdvances(ss: seq<State>, es: seq<Event>)
    requires Trace(ss, es)
    ensures Clocks.NeverBack(Times(ss))
  {
    forall i | 0 < i < |ss| ensures ss[i - 1].now <= ss[i].now {
      assert ss[i - 1 + 1] == Step(ss[i - 1], es[i - 1]);
    }
  }

  /** A silent worker not reported yet: its beat stands, and a grace entry is neither early nor from the future. */
  predicate Waiting(x: Heartbeat.Worker, timestamp: int, now: int) {
    && x.calls == [] && x.record.beat.Some? && x.record.beat.value.Beat? && x.record.beat.value.timestamp == timestamp
    && (x.record.grace.Some? ==>
          x.record.grace.value.Entered? && timestamp + Heartbeat.HEARTBEAT_TIMEOUT < x.record.grace.value.at <= now)
  }

  lemma DecisionKeepsWaiting(x: Heartbeat.Worker, timestamp: int, now: int, clock: int, buried: bool)
    requires Waiting(x, timestamp, now) && now <= clock
    ensures var y := Heartbeat.WrittenBack(x, x.record, now, clock, buried);
            && (y.calls == [] ==> Waiting(y, timestamp, clock))
            && (y.calls == [] && x.record.grace.Some? ==> y.record.grace == x.record.grace)
            && (y.calls == [] && now > timestamp + Heartbeat.HEARTBEAT_TIMEOUT ==> y.record.grace.Some?)
  {
  }

  /** One step of a silent worker: it stays as it is, or a whole pass that began at `b` decides on it. */
  lemma SilentOrDecided(ss: seq<State>, es: seq<Event>, w: WorkerId, k: nat) returns (b: nat, buried: bool)
    requires Trace(ss, es) && AllSilent(es, w) && WholePasses(ss, es, w) && k < |es|
    ensures b <= k && At(ss[b], w) == At(ss[k], w) && ss[b].now <= ss[k].now
    ensures var x := At(ss[b], w);
            || At(ss[k + 1], w) == x
            || At(ss[k + 1], w) == Heartbeat.WrittenBack(x, x.record, ss[b].now, ss[k].now, buried)
  {
    assert ss[k + 1] == Step(ss[k], es[k]);
    b, buried := k, false;
    if WritesTo(es[k], w) && Pending(ss[k], es[k].p, w) {
      var i: nat :| PassOver(ss, es, w, i, k);
      PassDecides(ss, es, w, i, k);
      TimeOnlyAdvances(ss, es);
      Clocks.Ordered(Times(ss), i, k);
      b, buried := i, es[k].buried;
    } else if !WritesTo(es[k], w) {
      SilentStep(ss[k], es[k], w);
    }
  }

  lemma UnreportedBefore(ss: seq<State>, es: seq<Event>, w: WorkerId, k: nat)
    requires Trace(ss, es) && AllSilent(es, w) && WholePasses(ss, es, w) && k < |es| && At(ss[k + 1], w).calls == []
    ensures At(ss[k], w).calls == []
  {
    var b, buried := SilentOrDecided(ss, es, w, k);
  }

  /** Until it is reported, a silent worker waits, and a grace entry it has got stays. */
  lemma {:induction false} WaitsUntilReported(ss: seq<State>, es: seq<Event>, w: WorkerId, timestamp: int, k: nat)
    requires Trace(ss, es) && AllSilent(es, w) && WholePasses(ss, es, w) && k <= |es|
    requires Waiting(At(ss[0], w), timestamp, ss[0].now) && At(ss[k], w).calls == []
    ensures Waiting(At(ss[k], w), timestamp, ss[k].now)
    ensures k > 0 && At(ss[k - 1], w).record.grace.Some? ==>
              At(ss[k], w).record.grace == At(ss[k - 1], w).record.grace
    decreases k
  {
    if k == 0 {
    } else {
      var b, buried := SilentOrDecided(ss, es, w, k - 1);
      assert ss[k] == Step(ss[k - 1], es[k - 1]);
      WaitsUntilReported(ss, es, w, timestamp, k - 1);
      WaitsUntilReported(ss, es, w, timestamp, b);
      DecisionKeepsWaiting(At(ss[b], w), timestamp, ss[b].now, ss[k - 1].now, buried);
    }
  }

  lemma {:induction false} GraceStays(ss: seq<State>, es: seq<Event>, w: WorkerId, timestamp: int, i: nat, k: nat)
    requires Trace(ss, es) && AllSilent(es, w) && WholePasses(ss, es, w) && i <= k <= |es|
    requires Waiting(At(ss[0], w), timestamp, ss[0].now) && At(ss[k], w).calls == []
    requires At(ss[i], w).record.grace.Some?
    ensures At(ss[k], w).record.grace == At(ss[i], w).record.grace
    decreases k
  {
    if i == k {
    } else {
      UnreportedBefore(ss, es, w, k - 1);
      GraceStays(ss, es, w, timestamp, i, k - 1);
      WaitsUntilReported(ss, es, w, timestamp, k);
    }
  }

  /** A pass over `w` that begins in the window after `t` and takes at most `duration`. */
  ghost predicate PassIn(
    ss: seq<State>, es: seq<Event>, w: WorkerId, i: nat, j: nat, t: int, period: int, duration: int)
  {
    PassOver(ss, es, w, i, j) && t < ss[i].now <= t + period && ss[j].now <= ss[i].now + duration
  }

  ghost predicate PassWithin(ss: seq<State>, es: seq<Event>, w: WorkerId, t: int, period: int, duration: int) {
    exists i: nat, j: nat :: PassIn(ss, es, w, i, j, t, period, duration)
  }

  /** From `first` on, passes over `w` begin at most `period` apart and take at most `duration`. */
  ghost predicate PassesEvery(ss: seq<State>, es: seq<Event>, w: WorkerId, first: int, period: int, duration: int) {
    forall t: int | ss != [] && first <= t && t + period + duration <= ss[|ss| - 1].now ::
      PassWithin(ss, es, w, t, period, duration)
  }

  lemma NextPass(
    ss: seq<State>, es: seq<Event>, w: WorkerId, first: int, t: int, period: int, duration: int)
    returns (i: nat, j: nat)
    requires ss != [] && PassesEvery(ss, es, w, first, period, duration)
    requires first <= t && t + period + duration <= ss[|ss| - 1].now
    ensures PassIn(ss, es, w, i, j, t, period, duration)
  {
    assert PassWithin(ss, es, w, t, period, duration);
    i, j :| PassIn(ss, es, w, i, j, t, period, duration);
  }

  /** Whole passes over the same worker do not overlap. */
  lemma PassesFollow(ss: seq<State>, es: seq<Event>, w: WorkerId, i: nat, j: nat, i': nat, j': nat)
    requires Trace(ss, es) && AllSilent(es, w) && PassOver(ss, es, w, i, j) && PassOver(ss, es, w, i', j') && i < i'
    ensures j < i'
  {
    if i' < j {
      if j == j' {
        DuringPass(ss, es, es[j].p, w, i, i');
      }
    }
  }

  /** After a pass begun more than 30 s after the last heartbeat an unreported worker is in its grace period. */
  lemma GraceAfterFirstPass(ss: seq<State>, es: seq<Event>, w: WorkerId, timestamp: int, a: nat, a': nat)
    requires Trace(ss, es) && AllSilent(es, w) && WholePasses(ss, es, w) && PassOver(ss, es, w, a, a')
    requires Waiting(At(ss[0], w), timestamp, ss[0].now) && At(ss[a' + 1], w).calls == []
    requires ss[a].now > timestamp + Heartbeat.HEARTBEAT_TIMEOUT
    ensures var grace := At(ss[a' + 1], w).record.grace;
            grace.Some? && grace.value.Entered? && grace.value.at <= ss[a].now
  {
    PassDecides(ss, es, w, a, a');
    WaitsUntilReported(ss, es, w, timestamp, a);
    TimeOnlyAdvances(ss, es);
    Clocks.Ordered(Times(ss), a, a');
    DecisionKeepsWaiting(At(ss[a], w), timestamp, ss[a].now, ss[a'].now, es[a'].buried);
  }

  /** A pass begun more than 60 s after the one that entered the grace period finds the worker dead. */
  lemma SecondPassReports(
    ss: seq<State>, es: seq<Event>, w: WorkerId, timestamp: int, a: nat, a': nat, b: nat, b': nat)
    requires Trace(ss, es) && AllSilent(es, w) && WholePasses(ss, es, w)
    requires PassOver(ss, es, w, a, a') && PassOver(ss, es, w, b, b')
    requires Waiting(At(ss[0], w), timestamp, ss[0].now) && At(ss[a' + 1], w).calls == []
    requires timestamp + Heartbeat.HEARTBEAT_TIMEOUT < ss[a].now < ss[b].now - Heartbeat.GRACE_PERIOD_TIMEOUT
    ensures At(ss[b' + 1], w).calls != []
  {
    GraceAfterFirstPass(ss, es, w, timestamp, a, a');
    TimeOnlyAdvances(ss, es);
    Clocks.Earlier(Times(ss), a, b);
    PassesFollow(ss, es, w, a, a', b, b');
    PassDecides(ss, es, w, b, b');
    if At(ss[b], w).calls == [] {
      WaitsUntilReported(ss, es, w, timestamp, b);
      GraceStays(ss, es, w, timestamp, a' + 1, b);
      Clocks.Ordered(Times(ss), b, b');
      DeadIsReported(At(ss[b], w), ss[b].now, ss[b'].now, es[b'].buried);
    }
  }

  lemma DeadIsReported(x: Heartbeat.Worker, now: int, clock: int, buried: bool)
    requires Heartbeat.Dies(x.record, now, clock)
    ensures Heartbeat.WrittenBack(x, x.record, now, clock, buried).calls != []
  {
  }

  lemma WriteTakesNoTime(ss: seq<State>, es: seq<Event>, j: nat)
    requires Trace(ss, es) && j < |es| && es[j].Write?
    ensures ss[j + 1].now == ss[j].now
  {
    assert ss[j + 1] == Step(ss[j], es[j]);
  }

  /**
   Detection latency with passes that take time: with passes over the worker beginning at most
   `period` apart, one of them within 30 s of the last heartbeat, and each done within `duration`,
   a silent worker's death callback is made no later than 90 s plus two periods plus one duration
   after that heartbeat.
   */
  lemma DeathIsDetected(
    ss: seq<State>, es: seq<Event>, w: WorkerId, taskId: nat, timestamp: int, first: int, period: int, duration: int)
    requires Trace(ss, es) && AllSilent(es, w) && WholePasses(ss, es, w)
    requires ss[0].now == timestamp && At(ss[0], w) == Heartbeat.Beaten(taskId, timestamp)
    requires 0 < period && 0 <= duration && first <= timestamp + Heartbeat.HEARTBEAT_TIMEOUT
    requires PassesEvery(ss, es, w, first, period, duration)
    requires timestamp + 90 + 2 * period + duration <= ss[|ss| - 1].now
    ensures exists k | 0 <= k < |ss| ::
              At(ss[k], w).calls != [] && ss[k].now <= timestamp + 90 + 2 * period + duration
  {
    var a, a' := NextPass(ss, es, w, first, timestamp + Heartbeat.HEARTBEAT_TIMEOUT, period, duration);
    WriteTakesNoTime(ss, es, a');
    if At(ss[a' + 1], w).calls == [] {
      var b, b' := NextPass(ss, es, w, first, ss[a].now + Heartbeat.GRACE_PERIOD_TIMEOUT, period, duration);
      WriteTakesNoTime(ss, es, b');
      SecondPassReports(ss, es, w, timestamp, a, a', b, b');
    }
  }
}
