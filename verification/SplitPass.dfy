/**
 Check passes as the code makes them (task/health/checker.go): a pass takes the time, reads the
 heartbeats, reads the grace entries, and then writes back worker by worker, while heartbeats
 arrive in between. Any number of passes may be in flight, as when two nodes hold themselves
 to be master; Redis may fail a read of the grace entries or a write.
 */
module SplitPass {
  import opened Options
  import opened Heartbeat

  type PassId = nat

  datatype Pass =
    | Began(at: int)
    | SawBeats(at: int, beats: map<WorkerId, Beat>)
    | Saw(at: int, records: map<WorkerId, Record>)

  datatype State = State(now: int, workers: map<WorkerId, Worker>, passes: map<PassId, Pass>)

  datatype Event =
    | Advance(to: int)
    | Set(w: WorkerId, taskId: nat)
    | Remove(w: WorkerId)
    | Begin(p: PassId)
    | ReadBeats(p: PassId)
    | ReadGraces(p: PassId, served: bool)
    | Write(p: PassId, w: WorkerId, buried: bool, served: bool)
    | End(p: PassId)

  function At(s: State, w: WorkerId): Worker {
    if w in s.workers then s.workers[w] else UNKNOWN
  }

  function BeatsOf(s: State): map<WorkerId, Beat> {
    map w | w in s.workers && s.workers[w].record.beat.Some? :: s.workers[w].record.beat.value
  }

  /** A failed read of the grace entries counts as none. */
  function RecordsOf(s: State, beats: map<WorkerId, Beat>, served: bool): map<WorkerId, Record> {
    map w | w in beats :: Record(Some(beats[w]), if served then At(s, w).record.grace else None)
  }

  /** A failed write leaves the record as it is; a callback made before it has been made. */
  function Late(s: State, p: PassId, w: WorkerId, buried: bool, served: bool): Worker
    requires Pending(s, p, w)
  {
    var x := At(s, w);
    var y := WrittenBack(x, s.passes[p].records[w], s.passes[p].at, s.now, buried);
    if served then y else y.(record := x.record)
  }

  function Step(s: State, e: Event): State {
    match e
    case Advance(to) => if s.now <= to then s.(now := to) else s
    case Set(w, taskId) => s.(workers := s.workers[w := Beaten(taskId, s.now)])
    case Remove(w) => s.(workers := s.workers[w := At(s, w).(record := Record(None, None))])
    case Begin(p) => if p !in s.passes then s.(passes := s.passes[p := Began(s.now)]) else s
    case ReadBeats(p) =>
      if p in s.passes && s.passes[p].Began?
      then s.(passes := s.passes[p := SawBeats(s.passes[p].at, BeatsOf(s))])
      else s
    case ReadGraces(p, served) =>
      if p in s.passes && s.passes[p].SawBeats?
      then s.(passes := s.passes[p := Saw(s.passes[p].at, RecordsOf(s, s.passes[p].beats, served))])
      else s
    case Write(p, w, buried, served) =>
      if Pending(s, p, w)
      then s.(workers := s.workers[w := Late(s, p, w, buried, served)],
              passes := s.passes[p := s.passes[p].(records := s.passes[p].records - {w})])
      else s
    case End(p) => s.(passes := s.passes - {p})
  }

  /** Time, heartbeats and removals act on the workers as with undivided passes; of the rest only a write does. */
  lemma WorkersAsBefore(s: State, e: Event)
    ensures var s' := Step(s, e);
            var was := System(s.now, s.workers);
            match e {
              case Advance(to) => System(s'.now, s'.workers) == Heartbeat.Step(was, Heartbeat.Advance(to))
              case Set(w, taskId) =>
                && System(s'.now, s'.workers) == Heartbeat.Step(was, Heartbeat.Set(w, taskId))
                && At(s', w).record == Record(Some(Beat(s.now, taskId)), None)
              case Remove(w) =>
                && System(s'.now, s'.workers) == Heartbeat.Step(was, Heartbeat.Remove(w))
                && At(s', w).record == Record(None, None)
              case Write(_, w, _, _) => s'.now == s.now && forall x | x != w :: At(s', x) == At(s, x)
              case _ => s'.now == s.now && s'.workers == s.workers
            }
  {
  }

  /** The four commands of a pass over one worker, with nothing in between, are an undivided pass over it. */
  lemma UndividedPassDecides(s: State, p: PassId, w: WorkerId, graces: bool, buried: bool)
    requires p !in s.passes && w in s.workers && s.workers[w].record.beat.Some?
    ensures var saw := Step(Step(Step(s, Begin(p)), ReadBeats(p)), ReadGraces(p, graces));
            var s' := Step(saw, Write(p, w, buried, true));
            var x := s.workers[w];
            s'.workers[w] == WrittenBack(x, ReadOf(x.record, Replies(true, graces, {})), s.now, s.now, buried)
  {
    var s1 := Step(s, Begin(p));
    var s2 := Step(s1, ReadBeats(p));
    assert s1.passes[p] == Began(s.now) && w in s2.passes[p].beats;
    var s3 := Step(s2, ReadGraces(p, graces));
    assert s3.passes[p].records[w] == ReadOf(s.workers[w].record, Replies(true, graces, {}));
  }

  /** A pass that has ended writes nothing. */
  lemma EndedPassWritesNothing(s: State, p: PassId, w: WorkerId, buried: bool, served: bool)
    ensures var s' := Step(s, End(p)); Step(s', Write(p, w, buried, served)) == s' && s'.workers == s.workers
  {
  }

  /** Pass `p` has still to write worker `w` back. */
  predicate Pending(s: State, p: PassId, w: WorkerId) {
    p in s.passes && s.passes[p].Saw? && w in s.passes[p].records
  }

  ghost predicate Trace(ss: seq<State>, es: seq<Event>) {
    |ss| == |es| + 1 && forall i | 0 <= i < |es| :: ss[i + 1] == Step(ss[i], es[i])
  }

  ghost predicate Inv(s: State) {
    forall w | w in s.workers :: GraceAfterBeat(s.workers[w], s.now) && CallsJustified(s.workers[w])
  }

  /** A beat read from worker `x` is not newer than its last one. */
  predicate BeatRead(b: Beat, x: Worker) {
    b.Beat? && x.lastSet.Some? && b.timestamp <= x.lastSet.value
  }

  /** What a pass has read was there. */
  predicate PassSound(s: State, pass: Pass) {
    && pass.at <= s.now
    && (pass.SawBeats? ==> forall w | w in pass.beats :: w in s.workers && BeatRead(pass.beats[w], s.workers[w]))
    && (pass.Saw? ==> forall w | w in pass.records ::
          var r := pass.records[w];
          && w in s.workers && r.beat.Some? && BeatRead(r.beat.value, s.workers[w])
          && (r.grace.Some? && r.grace.value.Entered? ==>
                r.beat.value.timestamp + HEARTBEAT_TIMEOUT < r.grace.value.at))
  }

  /** No beat is from the future, and every pass in flight is sound. */
  ghost predicate PassInv(s: State) {
    && (forall w | w in s.workers && s.workers[w].lastSet.Some? :: s.workers[w].lastSet.value <= s.now)
    && (forall p | p in s.passes :: PassSound(s, s.passes[p]))
  }

  /** The pass decides that a worker with this record enters its grace period. */
  predicate EntersGrace(r: Record, now: int, clock: int) {
    && r.beat.Some? && r.beat.value.Beat? && r.grace.None?
    && GetWorkerStatus(now - r.beat.value.timestamp, r.grace, clock).GracePeriod?
  }

  /**
   The write-backs that do no harm. A death is decided on the last beat, has not been reported with
   success before, and erases the beat if its callback succeeds; a grace entry that is written is
   more than 30 s younger than the last beat.
   */
  predicate Safe(s: State, e: Event) {
    e.Write? && Pending(s, e.p, e.w) ==>
      var x, r, at := At(s, e.w), s.passes[e.p].records[e.w], s.passes[e.p].at;
      && (Dies(r, at, s.now) ==>
            && x.lastSet == Some(r.beat.value.timestamp)
            && (forall k | 0 <= k < |x.calls| :: !x.calls[k].ok)
            && (e.buried && !e.served ==> x.record.beat.None?))
      && (EntersGrace(r, at, s.now) && e.served && x.lastSet.Some? ==> at - x.lastSet.value > HEARTBEAT_TIMEOUT)
  }

  lemma PassStaysSound(s: State, e: Event, pass: Pass)
    requires Inv(s) && PassInv(s) && PassSound(s, pass)
    ensures PassSound(Step(s, e), pass)
  {
  }

  lemma PassInvKept(s: State, e: Event)
    requires Inv(s) && PassInv(s)
    ensures PassInv(Step(s, e))
  {
    var s' := Step(s, e);
    forall p | p in s'.passes
      ensures PassSound(s', s'.passes[p])
    {
      if p in s.passes {
        PassStaysSound(s, e, s.passes[p]);
      }
    }
  }

  lemma OtherStepsKeepInv(s: State, e: Event)
    requires Inv(s) && !e.Write?
    ensures Inv(Step(s, e))
  {
  }

  /** A write-back keeps the worker's invariant exactly when it is safe. */
  lemma WriteKeepsExactly(s: State, e: Event)
    requires Inv(s) && PassInv(s) && e.Write? && Pending(s, e.p, e.w)
    ensures var x := Step(s, e).workers[e.w];
            GraceAfterBeat(x, s.now) && CallsJustified(x) <==> Safe(s, e)
  {
    var x, r, at := s.workers[e.w], s.passes[e.p].records[e.w], s.passes[e.p].at;
    assert PassSound(s, s.passes[e.p]);
    var y := Late(s, e.p, e.w, e.buried, e.served);
    assert GraceAfterBeat(x, s.now) && CallsJustified(x);
    if Dies(r, at, s.now) {
      var k := |x.calls|;
      assert y.calls[k] == Death(r.beat.value.timestamp, s.now, e.buried);
      assert forall i | 0 <= i < k :: y.calls[i] == x.calls[i];
    }
  }

  /** The invariants survive a step exactly when it is safe. */
  lemma StepKeepsExactly(s: State, e: Event)
    requires Inv(s) && PassInv(s)
    ensures Inv(Step(s, e)) <==> Safe(s, e)
  {
    if e.Write? && Pending(s, e.p, e.w) {
      WriteKeepsExactly(s, e);
      assert e.w in Step(s, e).workers;
    } else if !e.Write? {
      OtherStepsKeepInv(s, e);
    }
  }

  lemma TraceStepKeepsExactly(ss: seq<State>, es: seq<Event>, i: nat)
    requires Trace(ss, es) && i < |es| && Inv(ss[i]) && PassInv(ss[i])
    ensures Inv(ss[i + 1]) <==> Safe(ss[i], es[i])
    ensures PassInv(ss[i + 1])
  {
    StepKeepsExactly(ss[i], es[i]);
    PassInvKept(ss[i], es[i]);
  }

  /** Over a run with split passes, the invariants hold throughout exactly when every write-back is safe. */
  lemma {:induction false} JustifiedExactly(ss: seq<State>, es: seq<Event>, k: nat)
    requires Trace(ss, es) && Inv(ss[0]) && PassInv(ss[0]) && k <= |es|
    ensures (forall i | 0 <= i <= k :: Inv(ss[i])) <==> (forall i | 0 <= i < k :: Safe(ss[i], es[i]))
    ensures (forall i | 0 <= i <= k :: Inv(ss[i])) ==> PassInv(ss[k])
    decreases k
  {
    if k == 0 {
    } else {
      JustifiedExactly(ss, es, k - 1);
      if forall i | 0 <= i <= k - 1 :: Inv(ss[i]) {
        TraceStepKeepsExactly(ss, es, k - 1);
      }
    }
  }

  /** No premature death with split and overlapping passes: safe write-backs suffice. */
  lemma NoPrematureDeath(ss: seq<State>, es: seq<Event>, k: nat, w: WorkerId)
    requires Trace(ss, es) && ss[0].workers == map[] && ss[0].passes == map[] && k <= |es|
    requires forall i | 0 <= i < k :: Safe(ss[i], es[i])
    ensures var x := At(ss[k], w);
            && (forall d | d in x.calls :: x.lastSet == Some(d.lastHeartbeat) && d.at > d.lastHeartbeat + 90)
            && (forall i | 0 <= i < |x.calls| - 1 :: !x.calls[i].ok)
  {
    JustifiedExactly(ss, es, k);
    assert w in ss[k].workers ==> CallsJustified(ss[k].workers[w]);
  }

  /** A served write-back is safe whenever no heartbeat has arrived and no death been reported since the read. */
  lemma UndisturbedWriteIsSafe(s: State, p: PassId, w: WorkerId, buried: bool)
    requires Pending(s, p, w) && s.passes[p].records[w].beat.Some? && s.passes[p].records[w].beat.value.Beat?
    requires At(s, w).lastSet == Some(s.passes[p].records[w].beat.value.timestamp)
    requires forall d | d in At(s, w).calls :: !d.ok
    ensures Safe(s, Write(p, w, buried, true))
  {
  }

  /** A death decided on an old beat is reported in the second of a new one, and erases it. */
  lemma StaleDeathKillsAtOnce(t: int, taskId: nat)
    ensures var read := Record(Some(Beat(t, taskId)), Some(Entered(t + 31)));
            var x := WrittenBack(Beaten(taskId, t + 92), read, t + 92, t + 92, true);
            x.calls == [Death(t, t + 92, true)] && x.lastSet == Some(t + 92) && x.record == Record(None, None)
  {
  }

  /** A grace entry decided on an old beat makes the next passes report the worker 61 s after its last one. */
  lemma StaleGraceKillsEarly(t: int, taskId: nat)
    ensures var read := Record(Some(Beat(t, taskId)), None);
            var x := WrittenBack(Beaten(taskId, t + 31), read, t + 31, t + 31, true);
            x.lastSet == Some(t + 31) && Dies(x.record, t + 31 + 61, t + 31 + 61)
  {
  }

  /** Two passes that read the same dead worker both bury it. */
  lemma OverlappingPassesBuryTwice(x: Worker, t: int, clock: int)
    requires Dies(x.record, t, clock) && x.calls == []
    ensures var y := WrittenBack(WrittenBack(x, x.record, t, clock, true), x.record, t, clock, true);
            |y.calls| == 2 && y.calls[0].ok && y.calls[1].ok
  {
  }
}
