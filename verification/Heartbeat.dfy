/**
 The three-stage heartbeat check (task/health/checker.go): a worker is healthy, in its grace
 period, or dead. Times are whole seconds; stored strings are modelled by what they parse to.
 In the runs of this module a check pass is one step; SplitPass takes it apart.
 */
module Heartbeat {
  import opened Options
  import Clocks

  const HEARTBEAT_TIMEOUT := 30
  const GRACE_PERIOD_TIMEOUT := 60

  /** A heartbeat value "timestamp-taskID", or one that does not parse. A task id that does not parse reads as zero. */
  datatype Beat = Beat(timestamp: int, taskId: nat) | MalformedBeat

  /** A grace value "entered-lastHeartbeat", or one that does not parse. */
  datatype Grace = Entered(at: int) | MalformedGrace

  datatype WorkerStatus = Healthy | GracePeriod | Dead

  type WorkerId = string

  /** One worker's fields in the heartbeat hash and the grace hash. */
  datatype Record = Record(beat: Option<Beat>, grace: Option<Grace>)

  /** `elapsed` comes from the time the pass began, `clock` is read again for the grace period. */
  function GetWorkerStatus(elapsed: int, grace: Option<Grace>, clock: int): WorkerStatus {
    if elapsed <= HEARTBEAT_TIMEOUT then Healthy
    else match grace
      case None => GracePeriod
      case Some(MalformedGrace) => GracePeriod
      case Some(Entered(at)) => if clock - at > GRACE_PERIOD_TIMEOUT then Dead else GracePeriod
  }

  predicate Dies(r: Record, now: int, clock: int) {
    r.beat.Some? && r.beat.value.Beat? && GetWorkerStatus(now - r.beat.value.timestamp, r.grace, clock).Dead?
  }

  /**
   What a pass that began at `now` and has read `read` writes over `found`; `buried` tells
   whether the death callback succeeds.
   */
  function Written(found: Record, read: Record, now: int, clock: int, buried: bool): Record {
    match read.beat
    case None => found
    case Some(MalformedBeat) => Record(None, None)
    case Some(Beat(timestamp, _)) =>
      match GetWorkerStatus(now - timestamp, read.grace, clock)
      case Healthy => if read.grace.Some? then found.(grace := None) else found
      case GracePeriod => if read.grace.None? then found.(grace := Some(Entered(now))) else found
      case Dead => if buried then Record(None, None) else found
  }

  /** The three stages and their writes, in seconds. */
  lemma StagesInSeconds(found: Record, t: int, taskId: nat, grace: Option<Grace>, now: int, clock: int, buried: bool)
    ensures var read := Record(Some(Beat(t, taskId)), grace);
            var written := Written(found, read, now, clock, buried);
            && (now - t <= 30 ==>
                  !Dies(read, now, clock) && written == if grace.None? then found else Record(found.beat, None))
            && (now - t > 30 && grace.None? ==>
                  !Dies(read, now, clock) && written == Record(found.beat, Some(Entered(now))))
            && (now - t > 30 && grace == Some(MalformedGrace) ==> !Dies(read, now, clock) && written == found)
            && (forall at | now - t > 30 && grace == Some(Entered(at)) ::
                  && (Dies(read, now, clock) <==> clock - at > 60)
                  && written == if clock - at > 60 && buried then Record(None, None) else found)
    ensures Written(found, Record(Some(MalformedBeat), grace), now, clock, buried) == Record(None, None)
    ensures Written(found, Record(None, grace), now, clock, buried) == found
  {
  }

  // ---------------------------------------------------------------- the checker object

  datatype DeadWorkerInfo = DeadWorkerInfo(lastHeartbeat: int, taskId: nat)

  /** Whether Redis serves the two reads of a pass, and the workers whose writes it fails. */
  datatype Replies = Replies(beats: bool, graces: bool, failing: set<WorkerId>)

  /** What a pass reads of a record: a failed read of the grace entries counts as none. */
  function ReadOf(r: Record, redis: Replies): Record {
    if redis.graces then r else r.(grace := None)
  }

  class Checker {
    var beats: map<WorkerId, Beat>
    var graces: map<WorkerId, Grace>

    function RecordOf(w: WorkerId): Record
      reads this
    {
      Record(if w in beats then Some(beats[w]) else None, if w in graces then Some(graces[w]) else None)
    }

    constructor ()
      ensures forall w :: RecordOf(w) == Record(None, None)
    {
      beats, graces := map[], map[];
    }

    /** Stores the beat and drops any grace entry in one script. */
    method SetHeartbeat(worker: WorkerId, taskId: nat, now: int)
      modifies this
      ensures RecordOf(worker) == Record(Some(Beat(now, taskId)), None)
      ensures forall w | w != worker :: RecordOf(w) == old(RecordOf(w))
    {
      beats := beats[worker := Beat(now, taskId)];
      graces := graces - {worker};
    }

    method DeleteHeartbeat(worker: WorkerId)
      modifies this
      ensures RecordOf(worker) == Record(None, None)
      ensures forall w | w != worker :: RecordOf(w) == old(RecordOf(w))
      ensures beats.Keys == old(beats.Keys) - {worker}
    {
      beats := beats - {worker};
      graces := graces - {worker};
    }

    /** Decides on what was read of one worker and writes it back, unless Redis fails. */
    method CheckWorker(w: WorkerId, read: Record, now: int, clock: int, buried: bool, served: bool)
      returns (dead: Option<DeadWorkerInfo>)
      requires read.beat.Some?
      modifies this
      ensures RecordOf(w) == if served then Written(old(RecordOf(w)), read, now, clock, buried) else old(RecordOf(w))
      ensures forall x | x != w :: RecordOf(x) == old(RecordOf(x))
      ensures dead.Some? <==> Dies(read, now, clock)
      ensures dead.Some? ==> read.beat == Some(Beat(dead.value.lastHeartbeat, dead.value.taskId))
    {
      dead := None;
      match read.beat.value
      case MalformedBeat =>
        if served {
          DeleteHeartbeat(w);
        }
      case Beat(timestamp, taskId) =>
        match GetWorkerStatus(now - timestamp, read.grace, clock)
        case Healthy =>
          if read.grace.Some? && served {
            graces := graces - {w};
          }
        case GracePeriod =>
          if read.grace.None? && served {
            graces := graces[w := Entered(now)];
          }
        case Dead =>
          dead := Some(DeadWorkerInfo(timestamp, taskId));
          if buried && served {
            DeleteHeartbeat(w);
          }
    }

    /**
     One pass over every worker; calls the death callback, if there is one, for exactly the dead
     ones. `clock` is the second reading, `buried` the workers whose callback succeeds.
     */
    method CheckTaskTypeWorkers(now: int, clock: WorkerId -> int, callback: bool, buried: set<WorkerId>, redis: Replies)
      returns (ok: bool, called: map<WorkerId, DeadWorkerInfo>)
      modifies this
      ensures ok <==> redis.beats
      ensures !ok ==> called == map[] && forall w :: RecordOf(w) == old(RecordOf(w))
      ensures ok ==> forall w ::
                RecordOf(w) == if w in redis.failing then old(RecordOf(w)) else
                  Written(old(RecordOf(w)), ReadOf(old(RecordOf(w)), redis), now, clock(w), !callback || w in buried)
      ensures ok ==> forall w :: w in called <==> callback && Dies(ReadOf(old(RecordOf(w)), redis), now, clock(w))
      ensures forall w | w in called :: Some(Beat(called[w].lastHeartbeat, called[w].taskId)) == old(RecordOf(w)).beat
    {
      called := map[];
      if !redis.beats {
        return false, called;
      }
      var heartbeatMap := beats;
      var gracePeriodMap := if redis.graces then graces else map[];
      var todo := heartbeatMap.Keys;
      while todo != {}
        invariant todo <= heartbeatMap.Keys == old(beats).Keys
        invariant forall w | w in todo :: RecordOf(w) == old(RecordOf(w))
        invariant forall w | w !in todo ::
                    var was := old(RecordOf(w));
                    RecordOf(w) == if w in redis.failing then was else
                      Written(was, ReadOf(was, redis), now, clock(w), !callback || w in buried)
        invariant forall w ::
                    w in called <==> callback && w !in todo && Dies(ReadOf(old(RecordOf(w)), redis), now, clock(w))
        invariant forall w | w in called ::
                    Some(Beat(called[w].lastHeartbeat, called[w].taskId)) == old(RecordOf(w)).beat
        decreases todo
      {
        var w :| w in todo;
        todo := todo - {w};
        var read := Record(Some(heartbeatMap[w]), if w in gracePeriodMap then Some(gracePeriodMap[w]) else None);
        assert read == ReadOf(old(RecordOf(w)), redis);
        var dead := CheckWorker(w, read, now, clock(w), !callback || w in buried, w !in redis.failing);
        if callback && dead.Some? {
          called := called[w := dead.value];
        }
      }
      ok := true;
    }
  }

  /** A failed read of the grace entries counts as none, and so restarts a grace period that has begun. */
  lemma FailedGraceReadRestartsGrace(r: Record, t: int, taskId: nat, now: int, clock: int, buried: bool, redis: Replies)
    requires r.beat == Some(Beat(t, taskId)) && now - t > 30
    ensures redis.graces ==> ReadOf(r, redis) == r
    ensures !redis.graces ==>
              && !Dies(ReadOf(r, redis), now, clock)
              && Written(r, ReadOf(r, redis), now, clock, buried) == Record(r.beat, Some(Entered(now)))
  {
  }

  // ---------------------------------------------------------------- runs

  /** A callback made: the heartbeat it reports, when it was made, whether it succeeded. */
  datatype Death = Death(lastHeartbeat: int, at: int, ok: bool)

  /** A worker's record, and its history: the last beat set and the callbacks made since. */
  datatype Worker = Worker(record: Record, lastSet: Option<int>, calls: seq<Death>)

  const UNKNOWN := Worker(Record(None, None), None, [])

  datatype System = System(now: int, workers: map<WorkerId, Worker>)

  datatype Event =
    | Advance(to: int)
    | Set(w: WorkerId, taskId: nat)
    | Remove(w: WorkerId)
    | Pass(buried: set<WorkerId>)

  function WorkerAt(s: System, w: WorkerId): Worker {
    if w in s.workers then s.workers[w] else UNKNOWN
  }

  /** A worker after a pass that began at `now` has written back what it decided on `read`. */
  function WrittenBack(x: Worker, read: Record, now: int, clock: int, buried: bool): Worker {
    Worker(Written(x.record, read, now, clock, buried), x.lastSet,
           if Dies(read, now, clock) then x.calls + [Death(read.beat.value.timestamp, clock, buried)] else x.calls)
  }

  function Passed(x: Worker, now: int, buried: bool): Worker {
    WrittenBack(x, x.record, now, now, buried)
  }

  /** A worker right after its heartbeat. */
  function Beaten(taskId: nat, now: int): Worker {
    Worker(Record(Some(Beat(now, taskId)), None), Some(now), [])
  }

  function Step(s: System, e: Event): System {
    match e
    case Advance(to) => if s.now <= to then s.(now := to) else s
    case Set(w, taskId) => s.(workers := s.workers[w := Beaten(taskId, s.now)])
    case Remove(w) => s.(workers := s.workers[w := WorkerAt(s, w).(record := Record(None, None))])
    case Pass(buried) => s.(workers := map w | w in s.workers :: Passed(s.workers[w], s.now, w in buried))
  }

  ghost predicate Trace(ss: seq<System>, es: seq<Event>) {
    |ss| == |es| + 1 && forall i | 0 <= i < |es| :: ss[i + 1] == Step(ss[i], es[i])
  }

  /** A grace entry is younger than its beat by more than the heartbeat timeout. */
  predicate GraceAfterBeat(x: Worker, now: int) {
    && (x.record.beat.Some? ==>
          x.record.beat.value.Beat? && x.lastSet == Some(x.record.beat.value.timestamp))
    && (x.record.grace.Some? && x.record.grace.value.Entered? ==>
          x.lastSet.Some? && x.lastSet.value + HEARTBEAT_TIMEOUT < x.record.grace.value.at <= now)
  }

  /** Every callback came late enough, for the last beat, and only the last one may have succeeded. */
  predicate CallsJustified(x: Worker) {
    && (forall k | 0 <= k < |x.calls| ::
          && x.lastSet == Some(x.calls[k].lastHeartbeat)
          && x.calls[k].at > x.calls[k].lastHeartbeat + HEARTBEAT_TIMEOUT + GRACE_PERIOD_TIMEOUT)
    && (forall k | 0 <= k < |x.calls| && x.calls[k].ok :: k == |x.calls| - 1 && x.record.beat.None?)
  }

  ghost predicate Inv(s: System) {
    forall w | w in s.workers :: GraceAfterBeat(s.workers[w], s.now) && CallsJustified(s.workers[w])
  }

  lemma PassKeepsWorker(x: Worker, now: int, buried: bool)
    requires GraceAfterBeat(x, now) && CallsJustified(x)
    ensures GraceAfterBeat(Passed(x, now, buried), now) && CallsJustified(Passed(x, now, buried))
  {
  }

  lemma StepKeepsInv(s: System, e: Event)
    requires Inv(s)
    ensures Inv(Step(s, e))
  {
    if e.Pass? {
      forall w | w in s.workers
        ensures var x := Passed(s.workers[w], s.now, w in e.buried); GraceAfterBeat(x, s.now) && CallsJustified(x)
      {
        PassKeepsWorker(s.workers[w], s.now, w in e.buried);
      }
    }
  }

  lemma {:induction false} InvOverRuns(ss: seq<System>, es: seq<Event>, k: nat)
    requires Trace(ss, es) && Inv(ss[0]) && k <= |es|
    ensures Inv(ss[k])
    decreases k
  {
    if k == 0 {
    } else {
      InvOverRuns(ss, es, k - 1);
      StepKeepsInv(ss[k - 1], es[k - 1]);
      assert ss[k] == Step(ss[k - 1], es[k - 1]);
    }
  }

  /**
   No premature death: in every run a callback reports the worker's last heartbeat, comes
   more than 90 s after it, and succeeds at most once before the next heartbeat.
   */
  lemma NoPrematureDeath(ss: seq<System>, es: seq<Event>, k: nat, w: WorkerId)
    requires Trace(ss, es) && ss[0].workers == map[] && k <= |es|
    ensures var x := WorkerAt(ss[k], w);
            && (forall d | d in x.calls :: x.lastSet == Some(d.lastHeartbeat) && d.at > d.lastHeartbeat + 90)
            && (forall i | 0 <= i < |x.calls| - 1 :: !x.calls[i].ok)
  {
    InvOverRuns(ss, es, k);
    assert w in ss[k].workers ==> CallsJustified(ss[k].workers[w]);
  }

  /** A worker that has signed off is not reported, and stays away, until it beats again. */
  lemma {:induction false} RemovedIsNeverReported(ss: seq<System>, es: seq<Event>, w: WorkerId, k: nat)
    requires Trace(ss, es) && 0 < k <= |es| && es[0] == Remove(w)
    requires forall i | 0 <= i < k :: !(es[i].Set? && es[i].w == w)
    ensures WorkerAt(ss[k], w).record == Record(None, None) && WorkerAt(ss[k], w).calls == WorkerAt(ss[0], w).calls
    decreases k
  {
    assert ss[k] == Step(ss[k - 1], es[k - 1]);
    if k == 1 {
    } else {
      RemovedIsNeverReported(ss, es, w, k - 1);
    }
  }

  /** The worker sends nothing and is not removed. */
  predicate Silent(e: Event, w: WorkerId) {
    !(e.Set? && e.w == w) && !(e.Remove? && e.w == w)
  }

  ghost predicate AllSilent(es: seq<Event>, w: WorkerId) {
    forall i | 0 <= i < |es| :: Silent(es[i], w)
  }

  /** A pass at index `i` of the run, in the window after `t`. */
  ghost predicate PassIn(ss: seq<System>, es: seq<Event>, i: nat, t: int, period: int) {
    i < |es| && |ss| == |es| + 1 && es[i].Pass? && t < ss[i].now <= t + period
  }

  ghost predicate PassWithin(ss: seq<System>, es: seq<Event>, t: int, period: int) {
    exists i: nat :: PassIn(ss, es, i, t, period)
  }

  /** From the pass at `first` on, no two passes are more than `period` apart. */
  ghost predicate PassesEvery(ss: seq<System>, es: seq<Event>, first: int, period: int) {
    forall t: int | ss != [] && first <= t && t + period <= ss[|ss| - 1].now :: PassWithin(ss, es, t, period)
  }

  function Times(ss: seq<System>): seq<int> {
    seq(|ss|, i requires 0 <= i < |ss| => ss[i].now)
  }

  lemma TimeOnlyAdvances(ss: seq<System>, es: seq<Event>)
    requires Trace(ss, es)
    ensures Clocks.NeverBack(Times(ss))
  {
    forall i | 0 < i < |ss| ensures ss[i - 1].now <= ss[i].now {
      assert ss[i - 1 + 1] == Step(ss[i - 1], es[i - 1]);
    }
  }

  /** A silent worker not reported yet: its beat stands, and a grace entry, if any, is not from the future. */
  predicate Waiting(x: Worker, timestamp: int, now: int) {
    && x.record.beat.Some? && x.record.beat.value.Beat? && x.record.beat.value.timestamp == timestamp && x.calls == []
    && (x.record.grace.Some? ==> x.record.grace.value.Entered? && x.record.grace.value.at <= now)
  }

  lemma {:induction false} SilentWorkerWaits(
    ss: seq<System>, es: seq<Event>, w: WorkerId, i: nat, k: nat, timestamp: int)
    requires Trace(ss, es) && i <= k <= |es| && AllSilent(es, w)
    requires Waiting(WorkerAt(ss[i], w), timestamp, ss[i].now) && WorkerAt(ss[k], w).calls == []
    ensures Waiting(WorkerAt(ss[k], w), timestamp, ss[k].now)
    ensures WorkerAt(ss[i], w).record.grace.Some? && ss[i].now > timestamp + HEARTBEAT_TIMEOUT ==>
              WorkerAt(ss[k], w).record.grace == WorkerAt(ss[i], w).record.grace
    decreases k
  {
    if i == k {
    } else {
      assert ss[k] == Step(ss[k - 1], es[k - 1]) && Silent(es[k - 1], w);
      SilentWorkerWaits(ss, es, w, i, k - 1, timestamp);
      TimeOnlyAdvances(ss, es);
      Clocks.Ordered(Times(ss), i, k - 1);
    }
  }

  lemma NextPass(ss: seq<System>, es: seq<Event>, first: int, t: int, period: int) returns (i: nat)
    requires ss != [] && PassesEvery(ss, es, first, period) && first <= t && t + period <= ss[|ss| - 1].now
    ensures PassIn(ss, es, i, t, period)
  {
    assert PassWithin(ss, es, t, period);
    i :| PassIn(ss, es, i, t, period);
  }

  /** A pass more than 60 s after one that came more than 30 s after the last heartbeat reports the worker. */
  lemma SecondPassReports(ss: seq<System>, es: seq<Event>, w: WorkerId, timestamp: int, a: nat, b: nat)
    requires Trace(ss, es) && AllSilent(es, w) && a < |es| && b < |es| && es[a].Pass? && es[b].Pass?
    requires Waiting(WorkerAt(ss[0], w), timestamp, ss[0].now) && WorkerAt(ss[a + 1], w).calls == []
    requires timestamp + HEARTBEAT_TIMEOUT < ss[a].now < ss[b].now - GRACE_PERIOD_TIMEOUT
    ensures WorkerAt(ss[b + 1], w).calls != []
  {
    assert ss[a + 1] == Step(ss[a], es[a]) && ss[b + 1] == Step(ss[b], es[b]);
    SilentWorkerWaits(ss, es, w, 0, a, timestamp);
    TimeOnlyAdvances(ss, es);
    Clocks.Earlier(Times(ss), a, b);
    if WorkerAt(ss[b], w).calls == [] {
      SilentWorkerWaits(ss, es, w, a + 1, b, timestamp);
    }
  }

  /**
   Detection latency: with passes at most `period` apart, one of them within 30 s of the last
   heartbeat, a silent worker's death callback is made no later than 90 s plus two periods
   after that heartbeat.
   */
  lemma DeathIsDetected(ss: seq<System>, es: seq<Event>, w: WorkerId, timestamp: int, first: int, period: int)
    requires Trace(ss, es) && AllSilent(es, w) && ss[0].now == timestamp
    requires exists taskId: nat :: WorkerAt(ss[0], w) == Beaten(taskId, timestamp)
    requires 0 < period && first <= timestamp + HEARTBEAT_TIMEOUT && PassesEvery(ss, es, first, period)
    requires timestamp + 90 + 2 * period <= ss[|ss| - 1].now
    ensures exists i | 0 <= i < |ss| :: WorkerAt(ss[i], w).calls != [] && ss[i].now <= timestamp + 90 + 2 * period
  {
    var a := NextPass(ss, es, first, timestamp + HEARTBEAT_TIMEOUT, period);
    assert ss[a + 1] == Step(ss[a], es[a]);
    if WorkerAt(ss[a + 1], w).calls == [] {
      var b := NextPass(ss, es, first, ss[a].now + GRACE_PERIOD_TIMEOUT, period);
      assert ss[b + 1] == Step(ss[b], es[b]);
      SecondPassReports(ss, es, w, timestamp, a, b);
    }
  }
}
