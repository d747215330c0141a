/**
 The concurrent work queue (concqueue/queue.go): submitters, workers, panics, close and
 wait as interleaved atomic steps. Workers differ only in the number they print, so the
 state counts how many stand at each point of the loop. The context is the default one,
 canceled only after the wait.
 */
module WorkQueue {

  type Task = nat

  datatype Outcome = Returned | Failed | Panicked

  /** The value of an int32 counter after `n` increments from zero. */
  function Int32(n: nat): int {
    var low := n % 0x1_0000_0000;
    if low < 0x8000_0000 then low else low - 0x1_0000_0000
  }

  /** The counter is exact up to the largest int32, never leaves its range, and starts again after 2^32. */
  lemma CounterWraps(n: nat)
    ensures -0x8000_0000 <= Int32(n) < 0x8000_0000
    ensures Int32(n) == n <==> n < 0x8000_0000
    ensures Int32(n + 0x1_0000_0000) == Int32(n)
  {
  }

  /** atomic.AddInt32(&n, 1) */
  function Increment(n: int): int {
    if n == 0x7fff_ffff then -0x8000_0000 else n + 1
  }

  datatype Queue = Queue(
    workerCount: nat,
    capacity: nat,
    // the channel
    buffer: seq<Task>,
    chanClosed: bool,
    // the closed flag, the wait group counter and the error counter
    closed: bool,
    wg: int,
    errCount: int,
    // submitters past the closed check and before their send
    inFlight: multiset<Task>,
    // workers: at the select, running a task, after counting a panic, after deciding to restart, returned
    idle: nat,
    running: multiset<Task>,
    panicking: nat,
    restarting: nat,
    exited: nat,
    // history
    accepted: seq<Task>,
    started: seq<Task>,
    finished: multiset<Task>,
    failed: multiset<Task>,
    panics: nat,
    restarts: nat,
    lost: multiset<Task>)

  /** `Send` fills the buffer, `HandOff` meets a worker already waiting at an empty channel. */
  datatype Event =
    | SubmitCheck(t: Task)
    | Send(t: Task)
    | HandOff(t: Task)
    | Receive
    | Finish(t: Task, outcome: Outcome)
    | CheckRestart
    | Restart
    | Exit
    | StopFlag
    | StopClose

  function New(workerCount: nat, capacity: nat): Queue {
    Queue(workerCount, capacity, [], false, false, workerCount, 0, multiset{},
          workerCount, multiset{}, 0, 0, 0, [], [], multiset{}, multiset{}, 0, 0, multiset{})
  }

  function Step(q: Queue, e: Event): Queue {
    match e
    case SubmitCheck(t) =>
      if q.closed then q else q.(inFlight := q.inFlight + multiset{t})
    case Send(t) =>
      if t !in q.inFlight then q
      else if q.chanClosed then q.(inFlight := q.inFlight - multiset{t}, lost := q.lost + multiset{t})
      else if |q.buffer| < q.capacity then
        q.(inFlight := q.inFlight - multiset{t}, accepted := q.accepted + [t], buffer := q.buffer + [t])
      else q
    case HandOff(t) =>
      if t in q.inFlight && !q.chanClosed && q.buffer == [] && q.idle > 0
      then q.(inFlight := q.inFlight - multiset{t}, accepted := q.accepted + [t],
              idle := q.idle - 1, started := q.started + [t], running := q.running + multiset{t})
      else q
    case Receive =>
      if q.idle > 0 && q.buffer != []
      then q.(idle := q.idle - 1, buffer := q.buffer[1..],
              started := q.started + [q.buffer[0]], running := q.running + multiset{q.buffer[0]})
      else q
    case Finish(t, outcome) =>
      if t !in q.running then q else
        var done := q.(running := q.running - multiset{t}, finished := q.finished + multiset{t});
        match outcome {
          case Returned => done.(idle := q.idle + 1)
          case Failed =>
            done.(idle := q.idle + 1, failed := q.failed + multiset{t}, errCount := Increment(q.errCount))
          case Panicked =>
            done.(panicking := q.panicking + 1, panics := q.panics + 1,
                  failed := q.failed + multiset{t}, errCount := Increment(q.errCount))
        }
    case CheckRestart =>
      if q.panicking == 0 then q
      else if q.closed then q.(panicking := q.panicking - 1, idle := q.idle + 1)
      else q.(panicking := q.panicking - 1, restarting := q.restarting + 1)
    case Restart =>
      if q.restarting == 0 then q
      else q.(restarting := q.restarting - 1, wg := q.wg + 1, idle := q.idle + 2, restarts := q.restarts + 1)
    case Exit =>
      if q.idle > 0 && q.chanClosed && q.buffer == []
      then q.(idle := q.idle - 1, exited := q.exited + 1, wg := q.wg - 1)
      else q
    case StopFlag => q.(closed := true)
    case StopClose => if q.closed then q.(chanClosed := true) else q
  }

  function Run(q: Queue, es: seq<Event>): Queue
    decreases |es|
  {
    if es == [] then q else Run(Step(q, es[0]), es[1..])
  }

  /** Workers that have not returned. */
  function Alive(q: Queue): nat {
    q.idle + |q.running| + q.panicking + q.restarting
  }

  /** The wait group counts the live workers, and workers come and go as the flag and the channel allow. */
  predicate Counted(q: Queue) {
    && q.wg == Alive(q)
    && Alive(q) + q.exited == q.workerCount + q.restarts
    // before the flag is set each panic has restarted a worker or is about to
    && (!q.closed ==> q.restarts + q.panicking + q.restarting == q.panics)
    && (q.chanClosed ==> q.closed)
    // workers return only from the closed and drained channel
    && (q.exited > 0 ==> q.chanClosed && q.buffer == [])
    && (q.workerCount == 0 ==> Alive(q) == 0 && q.restarts == 0)
  }

  /** Tasks start in the order they were accepted, and every started task is running or finished, once. */
  predicate Conserved(q: Queue) {
    && q.accepted == q.started + q.buffer
    && multiset(q.started) == q.running + q.finished
  }

  predicate ErrorsCounted(q: Queue) {
    q.errCount == Int32(|q.failed|)
  }

  predicate Inv(q: Queue) {
    Counted(q) && Conserved(q) && ErrorsCounted(q)
  }

  lemma FinishKeepsCounted(q: Queue, t: Task, outcome: Outcome)
    requires Counted(q)
    ensures Counted(Step(q, Finish(t, outcome)))
  {
    if t in q.running {
      assert |q.running - multiset{t}| == |q.running| - 1;
    }
  }

  lemma RestartKeepsCounted(q: Queue, e: Event)
    requires Counted(q) && (e.CheckRestart? || e.Restart? || e.Exit?)
    ensures Counted(Step(q, e))
  {
  }

  lemma StepKeepsCounted(q: Queue, e: Event)
    requires Counted(q)
    ensures Counted(Step(q, e)) && Step(q, e).workerCount == q.workerCount
  {
    if e.Finish? {
      FinishKeepsCounted(q, e.t, e.outcome);
    } else if e.CheckRestart? || e.Restart? || e.Exit? {
      RestartKeepsCounted(q, e);
    }
  }

  lemma TaskMoves(all: multiset<Task>, running: multiset<Task>, done: multiset<Task>, t: Task)
    requires all == running + done && t in running
    ensures all == (running - multiset{t}) + (done + multiset{t})
  {
  }

  lemma Appended(s: seq<Task>, t: Task)
    ensures multiset(s + [t]) == multiset(s) + multiset{t}
  {
  }

  lemma SendKeepsConserved(q: Queue, t: Task)
    requires Conserved(q)
    ensures Conserved(Step(q, Send(t))) && Conserved(Step(q, HandOff(t)))
  {
    Appended(q.started, t);
    assert q.accepted + [t] == q.started + (q.buffer + [t]);
    if q.buffer == [] { assert q.accepted + [t] == q.started + [t] + q.buffer; }
  }

  lemma ReceiveKeepsConserved(q: Queue)
    requires Conserved(q)
    ensures Conserved(Step(q, Receive))
  {
  }

  lemma FinishKeepsConserved(q: Queue, t: Task, outcome: Outcome)
    requires Conserved(q)
    ensures Conserved(Step(q, Finish(t, outcome)))
  {
    if t in q.running {
      TaskMoves(multiset(q.started), q.running, q.finished, t);
    }
  }

  lemma StepKeepsConserved(q: Queue, e: Event)
    requires Conserved(q)
    ensures Conserved(Step(q, e))
  {
    match e
    case Send(t) => SendKeepsConserved(q, t);
    case HandOff(t) => SendKeepsConserved(q, t);
    case Receive => ReceiveKeepsConserved(q);
    case Finish(t, outcome) => FinishKeepsConserved(q, t, outcome);
    case _ =>
  }

  lemma IncrementCounts(n: nat)
    ensures Increment(Int32(n)) == Int32(n + 1)
  {
  }

  lemma StepKeepsErrors(q: Queue, e: Event)
    requires ErrorsCounted(q)
    ensures ErrorsCounted(Step(q, e))
  {
    if e.Finish? && e.t in q.running && !e.outcome.Returned? {
      IncrementCounts(|q.failed|);
      assert |q.failed + multiset{e.t}| == |q.failed| + 1;
    } else {
      assert Step(q, e).failed == q.failed && Step(q, e).errCount == q.errCount;
    }
  }

  lemma StepKeepsInv(q: Queue, e: Event)
    requires Inv(q)
    ensures Inv(Step(q, e)) && Step(q, e).workerCount == q.workerCount
  {
    StepKeepsCounted(q, e);
    StepKeepsConserved(q, e);
    StepKeepsErrors(q, e);
  }

  /** The wait counter equals the live workers at every moment of every run. */
  lemma {:induction false} InvOverRuns(q: Queue, es: seq<Event>)
    requires Inv(q)
    ensures Inv(Run(q, es)) && Run(q, es).workerCount == q.workerCount
    decreases |es|
  {
    if es == [] {
    } else {
      StepKeepsInv(q, es[0]);
      InvOverRuns(Step(q, es[0]), es[1..]);
    }
  }

  /** Until the queue is closed, the pool has grown by one worker for each completed recovery from a panic. */
  lemma PoolGrowsWithPanics(workerCount: nat, capacity: nat, es: seq<Event>)
    ensures var q := Run(New(workerCount, capacity), es);
            !q.closed ==> q.wg == workerCount + q.panics - q.panicking - q.restarting && q.exited == 0
  {
    InvOverRuns(New(workerCount, capacity), es);
  }

  lemma NothingLeft(q: Queue)
    requires Inv(q) && q.wg == 0
    ensures q.running == multiset{}
    ensures q.workerCount > 0 ==> q.chanClosed && q.started == q.accepted && q.finished == multiset(q.accepted)
  {
  }

  /**
   Drain: when the wait group reaches zero, every accepted task has been started in order and
   run exactly once, exactly if there ever was a worker; the counter is the number of failed
   and panicked ones.
   */
  lemma DrainedExactly(workerCount: nat, capacity: nat, es: seq<Event>)
    requires Run(New(workerCount, capacity), es).wg == 0
    ensures var q := Run(New(workerCount, capacity), es);
            && q.running == multiset{} && q.errCount == Int32(|q.failed|)
            && (multiset(q.accepted) == q.finished <==> workerCount > 0 || q.accepted == [])
            && (workerCount > 0 ==> q.chanClosed && q.started == q.accepted)
  {
    InvOverRuns(New(workerCount, capacity), es);
    var q := Run(New(workerCount, capacity), es);
    if workerCount == 0 {
      NeverStarted(New(workerCount, capacity), es);
      assert q.accepted != [] ==> q.accepted[0] in multiset(q.accepted);
    } else {
      NothingLeft(q);
    }
  }

  /** Without workers nothing is ever finished. */
  lemma {:induction false} NeverStarted(q: Queue, es: seq<Event>)
    requires Inv(q) && q.workerCount == 0 && q.finished == multiset{}
    ensures Run(q, es).finished == multiset{}
    decreases |es|
  {
    if es == [] {
    } else {
      StepKeepsInv(q, es[0]);
      NeverStarted(Step(q, es[0]), es[1..]);
    }
  }

  /** Only a closed channel is ever sent on in vain, and it is closed only after the flag is set. */
  predicate Orderly(q: Queue) {
    (q.lost != multiset{} ==> q.chanClosed) && (q.chanClosed ==> q.closed)
  }

  lemma {:induction false} OrderlyOverRuns(q: Queue, es: seq<Event>)
    requires Orderly(q)
    ensures Orderly(Run(q, es))
    decreases |es|
  {
    if es == [] {
    } else {
      OrderlyOverRuns(Step(q, es[0]), es[1..]);
    }
  }

  /** After the flag is set nobody gets past the check any more. */
  lemma {:induction false} NoneInFlightNeverSends(q: Queue, es: seq<Event>)
    requires q.closed && q.inFlight == multiset{} && q.lost == multiset{}
    ensures Run(q, es).lost == multiset{}
    decreases |es|
  {
    if es == [] {
    } else {
      NoneInFlightNeverSends(Step(q, es[0]), es[1..]);
    }
  }

  lemma InFlightSubmitPanics(q: Queue, t: Task)
    requires q.chanClosed && t in q.inFlight
    ensures Run(q, [Send(t)]).lost != multiset{}
  {
    assert Run(q, [Send(t)]) == Run(Step(q, Send(t)), []);
  }

  /**
   Closing is safe exactly when no submitter stands between its check and its send: up to the close
   of any run nothing is sent on the closed channel, and some continuation does so exactly when
   one is in flight at the close.
   */
  lemma {:induction false} ClosingPanicsExactly(workerCount: nat, capacity: nat, es: seq<Event>)
    requires var q := Run(New(workerCount, capacity), es); q.closed && !q.chanClosed
    ensures var q := Run(New(workerCount, capacity), es);
            && q.lost == multiset{}
            && ((exists more :: Run(Step(q, StopClose), more).lost != multiset{}) <==> q.inFlight != multiset{})
  {
    OrderlyOverRuns(New(workerCount, capacity), es);
    var q := Run(New(workerCount, capacity), es);
    var c := Step(q, StopClose);
    if q.inFlight == multiset{} {
      forall more
        ensures Run(c, more).lost == multiset{}
      {
        NoneInFlightNeverSends(c, more);
      }
    } else {
      var t :| t in q.inFlight;
      InFlightSubmitPanics(c, t);
    }
  }

  // ---------------------------------------------------------------- nothing submitted is lost

  /** The tasks whose submitter reads the flag before it is set. */
  function Submitted(es: seq<Event>): multiset<Task>
    decreases |es|
  {
    if es == [] || es[0].StopFlag? then multiset{}
    else (if es[0].SubmitCheck? then multiset{es[0].t} else multiset{}) + Submitted(es[1..])
  }

  /** Where submitted tasks are: accepted, between check and send, or sent on the closed channel. */
  function Submissions(q: Queue): multiset<Task> {
    multiset(q.accepted) + q.inFlight + q.lost
  }

  lemma TaskAccepted(accepted: seq<Task>, inFlight: multiset<Task>, lost: multiset<Task>, t: Task)
    requires t in inFlight
    ensures multiset(accepted + [t]) + (inFlight - multiset{t}) + lost == multiset(accepted) + inFlight + lost
    ensures multiset(accepted) + (inFlight - multiset{t}) + (lost + multiset{t}) == multiset(accepted) + inFlight + lost
  {
    Appended(accepted, t);
  }

  lemma SendKeepsSubmissions(q: Queue, t: Task)
    ensures Submissions(Step(q, Send(t))) == Submissions(q) && Step(q, Send(t)).closed == q.closed
  {
    if t in q.inFlight {
      TaskAccepted(q.accepted, q.inFlight, q.lost, t);
    }
  }

  lemma HandOffKeepsSubmissions(q: Queue, t: Task)
    ensures Submissions(Step(q, HandOff(t))) == Submissions(q) && Step(q, HandOff(t)).closed == q.closed
  {
    if t in q.inFlight {
      TaskAccepted(q.accepted, q.inFlight, q.lost, t);
    }
  }

  lemma CheckAddsSubmission(q: Queue, t: Task)
    ensures var q' := Step(q, SubmitCheck(t));
            && Submissions(q') == Submissions(q) + (if q.closed then multiset{} else multiset{t})
            && q'.closed == q.closed
  {
    var q' := Step(q, SubmitCheck(t));
    assert q'.accepted == q.accepted && q'.lost == q.lost;
  }

  lemma OthersKeepSubmissions(q: Queue, e: Event)
    requires !e.SubmitCheck? && !e.Send? && !e.HandOff?
    ensures Submissions(Step(q, e)) == Submissions(q)
    ensures Step(q, e).closed <==> q.closed || e.StopFlag?
  {
    if e.Finish? {
      FinishKeepsSubmissions(q, e.t, e.outcome);
    }
  }

  lemma FinishKeepsSubmissions(q: Queue, t: Task, outcome: Outcome)
    ensures var q' := Step(q, Finish(t, outcome)); Submissions(q') == Submissions(q) && q'.closed == q.closed
  {
  }

  lemma StepKeepsSubmissions(q: Queue, e: Event)
    ensures Submissions(Step(q, e)) ==
            Submissions(q) + if e.SubmitCheck? && !q.closed then multiset{e.t} else multiset{}
    ensures Step(q, e).closed <==> q.closed || e.StopFlag?
  {
    match e
    case SubmitCheck(t) => CheckAddsSubmission(q, t);
    case Send(t) => SendKeepsSubmissions(q, t);
    case HandOff(t) => HandOffKeepsSubmissions(q, t);
    case _ => OthersKeepSubmissions(q, e);
  }

  /** Conservation of submissions: told from the events alone, no submitted task disappears and none is made up. */
  lemma {:induction false} SubmissionsOverRuns(q: Queue, es: seq<Event>)
    ensures Submissions(Run(q, es)) == Submissions(q) + if q.closed then multiset{} else Submitted(es)
    decreases |es|
  {
    if es == [] {
    } else {
      StepKeepsSubmissions(q, es[0]);
      SubmissionsOverRuns(Step(q, es[0]), es[1..]);
    }
  }

  /** A send on an open channel goes through if there is room, a hand-off if a worker waits at an empty buffer. */
  lemma SendGoesThroughExactly(q: Queue, t: Task)
    requires t in q.inFlight && !q.chanClosed
    ensures |q.buffer| < q.capacity <==> Step(q, Send(t)) != q
    ensures |q.buffer| < q.capacity ==>
              var q' := Step(q, Send(t));
              q'.accepted == q.accepted + [t] && q'.buffer == q.buffer + [t] && q'.inFlight == q.inFlight - multiset{t}
    ensures q.idle > 0 && q.buffer == [] <==> Step(q, HandOff(t)) != q
    ensures q.idle > 0 && q.buffer == [] ==>
              var q' := Step(q, HandOff(t));
              && q'.accepted == q.accepted + [t] && q'.started == q.started + [t]
              && q'.running == q.running + multiset{t} && q'.inFlight == q.inFlight - multiset{t}
  {
    assert |q.accepted + [t]| == |q.accepted| + 1;
  }

  /** The executions that come to an end in a run. */
  function Executed(q: Queue, es: seq<Event>): multiset<Task>
    decreases |es|
  {
    if es == [] then multiset{} else Ended(q, es[0]) + Executed(Step(q, es[0]), es[1..])
  }

  /** The execution an event ends, if any. */
  function Ended(q: Queue, e: Event): multiset<Task> {
    if e.Finish? && e.t in q.running then multiset{e.t} else multiset{}
  }

  lemma FinishedStep(q: Queue, e: Event)
    ensures Step(q, e).finished == q.finished + Ended(q, e)
  {
    if !(e.Finish? && e.t in q.running) {
      assert Step(q, e).finished == q.finished;
    }
  }

  lemma {:induction false} FinishedIsExecuted(q: Queue, es: seq<Event>)
    ensures Run(q, es).finished == q.finished + Executed(q, es)
    decreases |es|
  {
    if es == [] {
    } else {
      FinishedStep(q, es[0]);
      FinishedIsExecuted(Step(q, es[0]), es[1..]);
    }
  }

  /**
   Drain, told from the events: with nobody in flight at the close and at least one worker, once the
   wait is over every task submitted before the flag has been executed exactly once, and no other.
   */
  lemma {:induction false} SubmittedRunOnce(workerCount: nat, capacity: nat, es: seq<Event>, more: seq<Event>)
    requires var q := Run(New(workerCount, capacity), es);
             q.closed && !q.chanClosed && q.inFlight == multiset{} && workerCount > 0
    requires Run(New(workerCount, capacity), es + [StopClose] + more).wg == 0
    ensures Executed(New(workerCount, capacity), es + [StopClose] + more) == Submitted(es)
  {
    var q0 := New(workerCount, capacity);
    var all := es + [StopClose] + more;
    RunThenClose(q0, es, more);
    ToldFromEvents(workerCount, capacity, es);
    ToldFromEvents(workerCount, capacity, all);
    DrainedExactly(workerCount, capacity, all);
    OrderlyOverRuns(q0, es);
    QuietCloseAcceptsNoMore(Run(q0, es), more);
    OnlyAccepted(Run(q0, es));
  }

  lemma RunThenClose(q: Queue, es: seq<Event>, more: seq<Event>)
    ensures Run(q, es + [StopClose] + more) == Run(Step(Run(q, es), StopClose), more)
  {
    var tail := [StopClose] + more;
    assert es + [StopClose] + more == es + tail && tail[1..] == more;
    RunInTwoParts(q, es, tail);
  }

  /** After a close with nobody in flight no task is accepted any more. */
  lemma {:induction false} QuietCloseAcceptsNoMore(q: Queue, more: seq<Event>)
    requires q.closed && q.inFlight == multiset{} && q.lost == multiset{}
    ensures multiset(Run(Step(q, StopClose), more).accepted) == multiset(q.accepted)
  {
    var c := Step(q, StopClose);
    SubmissionsOverRuns(c, more);
    NoneInFlightNeverSends(c, more);
    NoneInFlightStays(c, more);
    OnlyAccepted(c);
    OnlyAccepted(Run(c, more));
    NothingMore(Submissions(c));
  }

  lemma OnlyAccepted(q: Queue)
    requires q.inFlight == multiset{} && q.lost == multiset{}
    ensures Submissions(q) == multiset(q.accepted)
  {
    NothingMore(multiset(q.accepted));
  }

  lemma NothingMore(m: multiset<Task>)
    ensures m + multiset{} == m == multiset{} + m
  {
  }

  /** From a new queue, where submitted and executed tasks are is told from the events alone. */
  lemma {:induction false} ToldFromEvents(workerCount: nat, capacity: nat, es: seq<Event>)
    ensures Submissions(Run(New(workerCount, capacity), es)) == Submitted(es)
    ensures Run(New(workerCount, capacity), es).finished == Executed(New(workerCount, capacity), es)
  {
    var q := New(workerCount, capacity);
    OnlyAccepted(q);
    SubmissionsOverRuns(q, es);
    NothingMore(Submitted(es));
    FinishedIsExecuted(q, es);
    NothingMore(Executed(q, es));
  }

  lemma {:induction false} RunInTwoParts(q: Queue, a: seq<Event>, b: seq<Event>)
    ensures Run(q, a + b) == Run(Run(q, a), b)
    decreases |a|
  {
    if a == [] {
      assert a + b == b;
    } else {
      assert (a + b)[1..] == a[1..] + b;
      RunInTwoParts(Step(q, a[0]), a[1..], b);
    }
  }

  lemma {:induction false} NoneInFlightStays(q: Queue, es: seq<Event>)
    requires q.closed && q.inFlight == multiset{}
    ensures Run(q, es).inFlight == multiset{}
    decreases |es|
  {
    if es == [] {
    } else {
      NoneInFlightStays(Step(q, es[0]), es[1..]);
    }
  }

  predicate WorkerEvent(e: Event) {
    e.Receive? || e.Finish? || e.CheckRestart? || e.Restart? || e.Exit?
  }

  /** Worker steps still to come once the channel is closed. */
  function Remaining(q: Queue): nat {
    3 * |q.buffer| + q.idle + 3 * |q.running| + 2 * q.panicking + 3 * q.restarting
  }

  lemma WorkerStepsRunOut(q: Queue, e: Event)
    requires q.closed && q.chanClosed
    ensures Step(q, e).closed && Step(q, e).chanClosed && Remaining(Step(q, e)) <= Remaining(q)
    ensures WorkerEvent(e) && Step(q, e) != q ==> Remaining(Step(q, e)) < Remaining(q)
  {
    if e.Finish? && e.t in q.running {
      assert |q.running - multiset{e.t}| == |q.running| - 1;
    }
  }

  ghost function WorkerSteps(q: Queue, es: seq<Event>): nat
    decreases |es|
  {
    if es == [] then 0 else
      (if WorkerEvent(es[0]) && Step(q, es[0]) != q then 1 else 0) + WorkerSteps(Step(q, es[0]), es[1..])
  }

  /** After the close, workers take boundedly many steps in any run. */
  lemma {:induction false} WorkersFinish(q: Queue, es: seq<Event>)
    requires q.closed && q.chanClosed
    ensures WorkerSteps(q, es) + Remaining(Run(q, es)) <= Remaining(q)
    decreases |es|
  {
    if es == [] {
    } else {
      WorkerStepsRunOut(q, es[0]);
      WorkersFinish(Step(q, es[0]), es[1..]);
    }
  }

  /** No worker can move. */
  ghost predicate Halted(q: Queue) {
    forall e | WorkerEvent(e) :: Step(q, e) == q
  }

  /** After the close some worker can always move while one is alive, and none once all have returned. */
  lemma NoWorkerIsStuck(q: Queue)
    requires Inv(q) && q.chanClosed
    ensures Halted(q) <==> q.wg == 0
  {
    if q.restarting > 0 {
      assert WorkerEvent(Restart) && Step(q, Restart) != q;
    } else if q.panicking > 0 {
      assert WorkerEvent(CheckRestart) && Step(q, CheckRestart) != q;
    } else if q.running != multiset{} {
      var t :| t in q.running;
      assert WorkerEvent(Finish(t, Returned)) && Step(q, Finish(t, Returned)).idle != q.idle;
    } else if q.idle > 0 {
      assert WorkerEvent(Receive) && WorkerEvent(Exit) && (Step(q, Receive) != q || Step(q, Exit) != q);
    }
  }

  /** Every failed task failed because its outcome says so, and no failure is missing. */
  ghost predicate FailuresMatch(q: Queue, outcomes: Task -> Outcome) {
    forall t :: q.failed[t] == if outcomes(t) == Returned then 0 else q.finished[t]
  }

  /** Tasks end in the events as their outcomes say. */
  predicate Follows(es: seq<Event>, outcomes: Task -> Outcome) {
    forall i | 0 <= i < |es| :: es[i].Finish? ==> es[i].outcome == outcomes(es[i].t)
  }

  lemma ClosedFrame(q: Queue, e: Event)
    requires q.chanClosed
    ensures Step(q, e).chanClosed && Step(q, e).accepted == q.accepted
  {
  }

  lemma FailuresKept(q: Queue, e: Event, outcomes: Task -> Outcome)
    requires FailuresMatch(q, outcomes) && (e.Finish? ==> e.outcome == outcomes(e.t))
    ensures FailuresMatch(Step(q, e), outcomes)
  {
    if e.Finish? && e.t in q.running {
      var q' := Step(q, e);
      assert q'.finished == q.finished + multiset{e.t};
      assert q'.failed == if e.outcome.Returned? then q.failed else q.failed + multiset{e.t};
    } else {
      assert Step(q, e).finished == q.finished && Step(q, e).failed == q.failed;
    }
  }

  lemma ClosedStep(q: Queue, e: Event, outcomes: Task -> Outcome)
    requires Inv(q) && q.chanClosed && FailuresMatch(q, outcomes) && (e.Finish? ==> e.outcome == outcomes(e.t))
    ensures var q' := Step(q, e);
            && Inv(q') && q'.chanClosed && FailuresMatch(q', outcomes)
            && q'.accepted == q.accepted && q'.workerCount == q.workerCount
  {
    StepKeepsInv(q, e);
    FailuresKept(q, e, outcomes);
    ClosedFrame(q, e);
  }

  lemma {:induction false} ClosedRun(q: Queue, es: seq<Event>, outcomes: Task -> Outcome)
    requires Inv(q) && q.chanClosed && FailuresMatch(q, outcomes) && Follows(es, outcomes)
    ensures var q' := Run(q, es);
            && Inv(q') && q'.chanClosed && FailuresMatch(q', outcomes)
            && q'.accepted == q.accepted && q'.workerCount == q.workerCount
    decreases |es|
  {
    if es == [] {
    } else {
      ClosedStep(q, es[0], outcomes);
      ClosedRun(Step(q, es[0]), es[1..], outcomes);
    }
  }

  /**
   However workers and late submitters interleave after the close: the workers take boundedly many
   steps, and where no worker can move any more the wait is over, every accepted task has run
   exactly once and the counter is the number of tasks whose outcome is a failure.
   */
  lemma {:induction false} EveryScheduleDrains(q: Queue, es: seq<Event>, outcomes: Task -> Outcome)
    requires Inv(q) && q.chanClosed && FailuresMatch(q, outcomes) && Follows(es, outcomes)
    ensures WorkerSteps(q, es) <= Remaining(q)
    ensures Halted(Run(q, es)) <==> Run(q, es).wg == 0
    ensures Halted(Run(q, es)) ==>
              var q' := Run(q, es);
              && q'.accepted == q.accepted && (q.workerCount > 0 ==> q'.finished == multiset(q.accepted))
              && FailuresMatch(q', outcomes) && q'.errCount == Int32(|q'.failed|)
  {
    ClosedRun(q, es, outcomes);
    WorkersFinish(q, es);
    NoWorkerIsStuck(Run(q, es));
    if Run(q, es).wg == 0 {
      NothingLeft(Run(q, es));
    }
  }

  lemma Closing(q: Queue)
    requires Inv(q)
    ensures var c := Step(Step(q, StopFlag), StopClose);
            && Inv(c) && c.chanClosed && c.accepted == q.accepted && c.workerCount == q.workerCount
            && c.failed == q.failed && c.finished == q.finished
  {
  }

  /**
   Stop, then wait while workers and submitters take the steps of `schedule`, any schedule that
   ends with no worker able to move; the wait ends within it, with everything run once.
   */
  method StopAndWait(q0: Queue, schedule: seq<Event>, outcomes: Task -> Outcome) returns (q: Queue, errCount: int)
    requires Inv(q0) && FailuresMatch(q0, outcomes) && Follows(schedule, outcomes)
    requires Halted(Run(Step(Step(q0, StopFlag), StopClose), schedule))
    ensures q.accepted == q0.accepted && (q0.workerCount > 0 ==> q.finished == multiset(q0.accepted))
    ensures FailuresMatch(q, outcomes) && errCount == Int32(|q.failed|)
    ensures Inv(q) && q.wg == 0 && q.chanClosed
  {
    Closing(q0);
    q := Step(Step(q0, StopFlag), StopClose);
    ghost var c := q;
    var i := 0;
    while q.wg > 0
      invariant 0 <= i <= |schedule| && Run(q, schedule[i..]) == Run(c, schedule)
      invariant Inv(q) && q.chanClosed && FailuresMatch(q, outcomes)
      invariant q.accepted == q0.accepted && q.workerCount == q0.workerCount
      decreases |schedule| - i
    {
      NoWorkerIsStuck(q);
      assert i < |schedule|;
      ClosedStep(q, schedule[i], outcomes);
      assert schedule[i..][1..] == schedule[i + 1..];
      q := Step(q, schedule[i]);
      i := i + 1;
    }
    NothingLeft(q);
    errCount := q.errCount;
  }
}
