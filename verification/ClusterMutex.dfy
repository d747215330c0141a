/**
 Leader election over one expiring Redis key (mutex/cluster.go). Each Redis command is an
 atomic step; nodes, time and crashes interleave freely between commands. Times are
 milliseconds.
 */
module ClusterMutex {
  import Clocks

  const EXPIRATION := 30_000
  /** Tick intervals are 8 s plus a random part below 5 s. */
  const INTERVAL_BOUND := 8_000 + 5_000

  type NodeId = string

  datatype Key = Absent | Held(owner: NodeId, expiresAt: int)

  predicate Present(key: Key, now: int) {
    key.Held? && now < key.expiresAt
  }

  /** Where a node's goroutine stands between two commands. */
  datatype Phase =
    | Starting   // about to make its first SETNX
    | MustLook   // first SETNX lost, about to GET
    | Idle       // waiting for the ticker
    | SawNone    // GET found no master, about to SETNX
    | SawSelf    // GET found its own name, about to EXPIRE
    | Stopping   // context done while master, about to DEL
    | Gone       // stopped or crashed

  datatype Node = Node(currentMaster: NodeId, phase: Phase)

  datatype Cmd = FirstPreempt | FirstLook | TickGet | TickPreempt | Renew | Stop | ReleaseKey | Crash

  /** One command of node `n`; `served` is false when Redis answers with an error. */
  function Do(n: NodeId, node: Node, key: Key, now: int, cmd: Cmd, served: bool): (Node, Key) {
    match (cmd, node.phase)
    case (FirstPreempt, Starting) =>
      if !served then (node.(phase := Idle), key)
      else if Present(key, now) then (node.(phase := MustLook), key)
      else (Node(n, Idle), Held(n, now + EXPIRATION))
    case (FirstLook, MustLook) =>
      if served && Present(key, now) then (Node(key.owner, Idle), key) else (node.(phase := Idle), key)
    case (TickGet, Idle) =>
      if served && Present(key, now) then (Node(key.owner, if key.owner == n then SawSelf else Idle), key)
      else (node.(phase := SawNone), key)
    case (TickPreempt, SawNone) =>
      if served && !Present(key, now) then (Node(n, Idle), Held(n, now + EXPIRATION)) else (node.(phase := Idle), key)
    case (Renew, SawSelf) =>
      (node.(phase := Idle), if served && Present(key, now) then key.(expiresAt := now + EXPIRATION) else key)
    case (Stop, Idle) =>
      (node.(phase := if Believes(n, node) then Stopping else Gone), key)
    case (ReleaseKey, Stopping) =>
      (node.(phase := Gone), if served then Absent else key)
    case (Crash, _) => (node.(phase := Gone), key)
    case _ => (node, key)
  }

  /** IsMaster of the node called `n`. */
  predicate Believes(n: NodeId, node: Node) {
    n != "" && n == node.currentMaster
  }

  /** A command that Redis fails leaves the key and the cached name; the node goes on as after an error. */
  lemma FailedCommandChangesNothing(n: NodeId, node: Node, key: Key, now: int, cmd: Cmd)
    ensures var (node', key') := Do(n, node, key, now, cmd, false);
            && key' == key && node'.currentMaster == node.currentMaster
            && (cmd == TickGet && node.phase == Idle ==> node'.phase == SawNone)
            && (cmd == ReleaseKey && node.phase == Stopping ==> node'.phase == Gone)
            && (cmd == FirstPreempt && node.phase == Starting ==> node'.phase == Idle)
            && (cmd == TickPreempt && node.phase == SawNone ==> node'.phase == Idle)
            && (cmd == Renew && node.phase == SawSelf ==> node'.phase == Idle)
  {
  }

  /** EXPIRE does not bring an expired key back, and a present key is given away by nobody but its releasing master. */
  lemma KeyChangesHands(n: NodeId, node: Node, key: Key, now: int, cmd: Cmd, served: bool)
    requires Do(n, node, key, now, cmd, served).1 != key
    ensures served
    ensures !Present(key, now) ==>
              || (cmd == FirstPreempt && node.phase == Starting)
              || (cmd == TickPreempt && node.phase == SawNone)
              || (cmd == ReleaseKey && node.phase == Stopping)
    ensures Present(key, now) ==>
              || (cmd == Renew && node.phase == SawSelf)
              || (cmd == ReleaseKey && node.phase == Stopping)
  {
  }

  datatype Cluster = Cluster(now: int, key: Key, nodes: map<NodeId, Node>)

  datatype Event =
    | Join(n: NodeId)
    | Act(n: NodeId, cmd: Cmd, served: bool)
    | Advance(to: int)

  predicate Live(c: Cluster, n: NodeId) {
    n in c.nodes && !c.nodes[n].phase.Gone?
  }

  predicate IsMaster(c: Cluster, n: NodeId) {
    Live(c, n) && Believes(n, c.nodes[n])
  }

  /** A node may join under any non-empty name no live node uses, its own former name included. */
  function Step(c: Cluster, e: Event): Cluster {
    match e
    case Join(n) =>
      if n != "" && !Live(c, n) then c.(nodes := c.nodes[n := Node("", Starting)]) else c
    case Act(n, cmd, served) =>
      if n in c.nodes then
        var (node, key) := Do(n, c.nodes[n], c.key, c.now, cmd, served);
        c.(nodes := c.nodes[n := node], key := key)
      else c
    case Advance(to) => if c.now <= to then c.(now := to) else c
  }

  ghost predicate Trace(cs: seq<Cluster>, es: seq<Event>) {
    |cs| == |es| + 1 && forall i | 0 <= i < |es| :: cs[i + 1] == Step(cs[i], es[i])
  }

  /** A live node that believes itself master owns the unexpired key. */
  ghost predicate LeaseHeld(c: Cluster) {
    forall n | IsMaster(c, n) :: Present(c.key, c.now) && c.key.owner == n
  }

  /** Only a master renews or releases. */
  ghost predicate PhasesMatch(c: Cluster) {
    && "" !in c.nodes
    && forall n | n in c.nodes && (c.nodes[n].phase.SawSelf? || c.nodes[n].phase.Stopping?) :: IsMaster(c, n)
  }

  /** Time does not reach the expiry of the key while its owner is a live master. */
  predicate InTime(c: Cluster, e: Event) {
    e.Advance? && c.now <= e.to && c.key.Held? && IsMaster(c, c.key.owner) ==> e.to < c.key.expiresAt
  }

  lemma PhasesKept(c: Cluster, e: Event)
    requires PhasesMatch(c)
    ensures PhasesMatch(Step(c, e))
  {
  }

  /** The lease survives a step exactly when the master has renewed in time. */
  lemma LeaseKeptExactlyInTime(c: Cluster, e: Event)
    requires LeaseHeld(c) && PhasesMatch(c)
    ensures LeaseHeld(Step(c, e)) <==> InTime(c, e)
  {
    var c' := Step(c, e);
    match e
    case Join(n) =>
      forall m | IsMaster(c', m) ensures IsMaster(c, m) {}
    case Act(n, cmd, served) =>
      forall m | IsMaster(c', m)
        ensures Present(c'.key, c'.now) && c'.key.owner == m
      {
        assert n in c.nodes && c.nodes[n].phase.Stopping? ==> IsMaster(c, n);
        assert m != n || c'.nodes[m].currentMaster == c.nodes[m].currentMaster ==> IsMaster(c, m);
      }
    case Advance(to) =>
      forall m ensures IsMaster(c', m) == IsMaster(c, m) {}
  }

  /** At every moment of a run, live masters hold the lease exactly as long as no renewal was missed. */
  lemma {:induction false} LeaseOverRuns(cs: seq<Cluster>, es: seq<Event>, k: nat)
    requires Trace(cs, es) && LeaseHeld(cs[0]) && PhasesMatch(cs[0]) && k <= |es|
    ensures PhasesMatch(cs[k])
    ensures (forall i | 0 <= i <= k :: LeaseHeld(cs[i])) <==> (forall i | 0 <= i < k :: InTime(cs[i], es[i]))
    decreases k
  {
    if k == 0 {
    } else {
      LeaseOverRuns(cs, es, k - 1);
      assert cs[k] == Step(cs[k - 1], es[k - 1]);
      PhasesKept(cs[k - 1], es[k - 1]);
      if LeaseHeld(cs[k - 1]) { LeaseKeptExactlyInTime(cs[k - 1], es[k - 1]); }
    }
  }

  /** Single master: whenever renewals are in time, no two live nodes are master at once. */
  lemma SingleMaster(cs: seq<Cluster>, es: seq<Event>, k: nat, a: NodeId, b: NodeId)
    requires Trace(cs, es) && cs[0].nodes == map[] && k <= |es|
    requires forall i | 0 <= i < k :: InTime(cs[i], es[i])
    requires IsMaster(cs[k], a) && IsMaster(cs[k], b)
    ensures a == b && Present(cs[k].key, cs[k].now) && cs[k].key.owner == a
  {
    LeaseOverRuns(cs, es, k);
    assert LeaseHeld(cs[k]);
  }

  /** A master that pauses past the expiry without noticing leaves two masters. */
  lemma MissedRenewalMakesTwoMasters(a: NodeId, b: NodeId) returns (c: Cluster)
    requires a != "" && b != "" && a != b
    ensures IsMaster(c, a) && IsMaster(c, b)
  {
    c := Step(Step(Cluster(0, Absent, map[]), Join(a)), Act(a, FirstPreempt, true));
    c := Step(c, Advance(EXPIRATION));
    assert IsMaster(c, a);
    c := Step(Step(c, Join(b)), Act(b, FirstPreempt, true));
  }

  ghost predicate HasMaster(c: Cluster) {
    exists n | n in c.nodes :: IsMaster(c, n)
  }

  /** Without a live master the key is only ever changed by the SETNX that makes one. */
  lemma MasterlessKeyIsFrozen(c: Cluster, e: Event)
    requires PhasesMatch(c) && !HasMaster(c)
    ensures HasMaster(Step(c, e)) || Step(c, e).key == c.key
    ensures c.now <= Step(c, e).now
  {
    if e.Act? && e.n in c.nodes {
      assert !IsMaster(c, e.n);
      if Step(c, e).key != c.key { assert IsMaster(Step(c, e), e.n); }
    }
  }

  lemma {:induction false} FrozenUntilMaster(cs: seq<Cluster>, es: seq<Event>, k: nat)
    requires Trace(cs, es) && PhasesMatch(cs[0]) && k <= |es|
    requires forall i | 0 <= i <= k :: !HasMaster(cs[i])
    ensures PhasesMatch(cs[k]) && cs[k].key == cs[0].key
    decreases k
  {
    if k == 0 {
    } else {
      FrozenUntilMaster(cs, es, k - 1);
      assert cs[k] == Step(cs[k - 1], es[k - 1]);
      PhasesKept(cs[k - 1], es[k - 1]);
      MasterlessKeyIsFrozen(cs[k - 1], es[k - 1]);
    }
  }

  function Times(cs: seq<Cluster>): seq<int> {
    seq(|cs|, i requires 0 <= i < |cs| => cs[i].now)
  }

  lemma TimeOnlyAdvances(cs: seq<Cluster>, es: seq<Event>)
    requires Trace(cs, es)
    ensures Clocks.NeverBack(Times(cs))
  {
    forall i | 0 < i < |cs| ensures cs[i - 1].now <= cs[i].now {
      assert cs[i - 1 + 1] == Step(cs[i - 1], es[i - 1]);
    }
  }

  /** Node `n` starts a tick at `j` and is done with it before `j2 + 1`, all its commands served. */
  ghost predicate Ticks(cs: seq<Cluster>, es: seq<Event>, n: NodeId, j: nat, j2: nat) {
    && |cs| == |es| + 1 && j < j2 < |es|
    && es[j] == Act(n, TickGet, true) && n in cs[j].nodes && cs[j].nodes[n].phase.Idle?
    && n in cs[j + 1].nodes && n in cs[j2].nodes
    && (cs[j + 1].nodes[n].phase.SawNone? ==>
          es[j2] == Act(n, TickPreempt, true) && cs[j2].nodes[n].phase.SawNone?)
    && (cs[j + 1].nodes[n].phase.SawSelf? ==>
          es[j2] == Act(n, Renew, true) && cs[j2].nodes[n].phase.SawSelf?)
  }

  /** A tick that begins after the old key has expired finds a master or makes one. */
  lemma TickAfterExpiryFindsMaster(cs: seq<Cluster>, es: seq<Event>, n: NodeId, j: nat, j2: nat)
    requires Trace(cs, es) && PhasesMatch(cs[0]) && Ticks(cs, es, n, j, j2)
    requires cs[0].key.Held? && cs[0].key.expiresAt <= cs[j].now <= cs[j2].now
    ensures exists i | 0 <= i <= j2 + 1 :: HasMaster(cs[i]) && cs[i].now <= cs[j2].now
  {
    if forall i | 0 <= i <= j2 :: !HasMaster(cs[i]) {
      FrozenUntilMaster(cs, es, j);
      FrozenUntilMaster(cs, es, j2);
      assert cs[j + 1] == Step(cs[j], es[j]);
      assert cs[j2 + 1] == Step(cs[j2], es[j2]);
      assert IsMaster(cs[j2 + 1], n);
      assert HasMaster(cs[j2 + 1]);
    } else {
      var i :| 0 <= i <= j2 && HasMaster(cs[i]);
      TimeOnlyAdvances(cs, es);
      Clocks.Ordered(Times(cs), i, j2);
    }
  }

  ghost predicate TicksWithin(cs: seq<Cluster>, es: seq<Event>, n: NodeId, t: int, interval: int) {
    exists j: nat, j2: nat :: Ticks(cs, es, n, j, j2) && t <= cs[j].now && cs[j2].now < t + interval
  }

  /** In every window of that length within the run, node `n` starts and finishes a tick. */
  ghost predicate TicksEvery(cs: seq<Cluster>, es: seq<Event>, n: NodeId, interval: int) {
    forall t: int | cs != [] && cs[0].now <= t && t + interval <= cs[|cs| - 1].now ::
      TicksWithin(cs, es, n, t, interval)
  }

  /**
   Bounded failover: after the last renewal of a master that is gone, a node that keeps
   ticking makes some live node master within 43 s.
   */
  lemma Failover(cs: seq<Cluster>, es: seq<Event>, n: NodeId, interval: int, renewed: int)
    requires Trace(cs, es) && PhasesMatch(cs[0])
    requires cs[0].key.Held? && cs[0].key.expiresAt == renewed + EXPIRATION && cs[0].now <= renewed + EXPIRATION
    requires 0 < interval <= INTERVAL_BOUND && TicksEvery(cs, es, n, interval)
    requires renewed + EXPIRATION + interval <= cs[|cs| - 1].now
    ensures exists i | 0 <= i < |cs| :: HasMaster(cs[i]) && cs[i].now < renewed + 43_000
  {
    var t := renewed + EXPIRATION;
    assert TicksWithin(cs, es, n, t, interval);
    var j: nat, j2: nat :| Ticks(cs, es, n, j, j2) && t <= cs[j].now && cs[j2].now < t + interval;
    TimeOnlyAdvances(cs, es);
    Clocks.Ordered(Times(cs), j, j2);
    TickAfterExpiryFindsMaster(cs, es, n, j, j2);
  }

  /** A crash takes the master and nothing else: the key stays until it expires, and then a ticking node takes over. */
  lemma CrashFailover(cs: seq<Cluster>, es: seq<Event>, m: NodeId, n: NodeId, served: bool, interval: int, renewed: int)
    requires Trace(cs, es) && |es| > 0 && PhasesMatch(cs[0]) && LeaseHeld(cs[0]) && IsMaster(cs[0], m)
    requires es[0] == Act(m, Crash, served) && cs[0].key.expiresAt == renewed + EXPIRATION
    requires 0 < interval <= INTERVAL_BOUND && TicksEvery(cs[1..], es[1..], n, interval)
    requires renewed + EXPIRATION + interval <= cs[|cs| - 1].now
    ensures !HasMaster(cs[1]) && cs[1].key == cs[0].key
    ensures exists i | 1 < i < |cs| :: HasMaster(cs[i]) && cs[i].now < renewed + 43_000
  {
    assert cs[0 + 1] == Step(cs[0], es[0]);
    PhasesKept(cs[0], es[0]);
    forall a | IsMaster(cs[1], a)
      ensures IsMaster(cs[0], a)
    {
    }
    var cs', es' := cs[1..], es[1..];
    forall i | 0 <= i < |es'|
      ensures cs'[i + 1] == Step(cs'[i], es'[i])
    {
      assert cs[i + 1 + 1] == Step(cs[i + 1], es[i + 1]);
    }
    Failover(cs', es', n, interval, renewed);
    var i :| 0 <= i < |cs'| && HasMaster(cs'[i]) && cs'[i].now < renewed + 43_000;
    assert HasMaster(cs[i + 1]);
  }

  // ---------------------------------------------------------------- ticking keeps the lease

  ghost predicate LiveFrom(cs: seq<Cluster>, n: NodeId, a: nat, b: nat)
    requires b < |cs|
  {
    forall i | a <= i <= b :: Live(cs[i], n)
  }

  ghost predicate TicksBetween(cs: seq<Cluster>, es: seq<Event>, n: NodeId, a: nat, b: nat) {
    exists j: nat, j2: nat :: a <= j && j2 < b && Ticks(cs, es, n, j, j2)
  }

  /** Every node that stays alive for `interval` starts and finishes a served tick in that time. */
  ghost predicate Diligent(cs: seq<Cluster>, es: seq<Event>, interval: int) {
    forall n, a: nat, b: nat | a <= b < |cs| && LiveFrom(cs, n, a, b) && cs[a].now + interval <= cs[b].now ::
      TicksBetween(cs, es, n, a, b)
  }

  /** A node that comes back under the name the key still holds has its first tick before the key expires. */
  predicate ReturnsInTime(c: Cluster, e: Event, interval: int) {
    e.Join? && !Live(c, e.n) && Present(c.key, c.now) && c.key.owner == e.n ==>
      c.now + interval <= c.key.expiresAt
  }

  predicate Renews(c: Cluster, e: Event, n: NodeId) {
    e == Act(n, Renew, true) && n in c.nodes && c.nodes[n].phase.SawSelf?
  }

  /**
   Since `a` node `n` has been alive, the key has been as it is at `k`, and `n` has not renewed it;
   at `a` it had at least one interval to go.
   */
  ghost predicate Rooted(cs: seq<Cluster>, es: seq<Event>, n: NodeId, a: nat, k: nat, interval: int)
    requires k <= |es| < |cs|
  {
    && a <= k && LiveFrom(cs, n, a, k)
    && (forall i | a <= i <= k :: cs[i].key == cs[k].key)
    && (forall i | a <= i < k :: !Renews(cs[i], es[i], n))
    && cs[k].key.Held? && cs[a].now + interval <= cs[k].key.expiresAt
  }

  /** A present key owned by a live node was there before, is just renewed or won, or its owner has just come back. */
  lemma KeyOfLiveNode(c: Cluster, e: Event, n: NodeId, interval: int)
    requires LeaseHeld(c) && PhasesMatch(c) && interval <= EXPIRATION && ReturnsInTime(c, e, interval)
    requires var c' := Step(c, e); Live(c', n) && Present(c'.key, c'.now) && c'.key.owner == n
    ensures var c' := Step(c, e);
            || (Live(c, n) && c.key == c'.key && Present(c.key, c.now) && !Renews(c, e, n))
            || c'.now + interval <= c'.key.expiresAt
  {
    if e.Act? && e.n in c.nodes && e.n != n {
      assert c.nodes[e.n].phase.SawSelf? ==> IsMaster(c, e.n);
    }
  }

  lemma {:induction false} Root(cs: seq<Cluster>, es: seq<Event>, n: NodeId, k: nat, interval: int) returns (a: nat)
    requires Trace(cs, es) && cs[0].nodes == map[] && k <= |es| && interval <= EXPIRATION
    requires forall i | 0 <= i <= k :: LeaseHeld(cs[i]) && PhasesMatch(cs[i])
    requires forall i | 0 <= i < k :: ReturnsInTime(cs[i], es[i], interval)
    requires Live(cs[k], n) && Present(cs[k].key, cs[k].now) && cs[k].key.owner == n
    ensures Rooted(cs, es, n, a, k, interval)
    decreases k
  {
    var c, e := cs[k - 1], es[k - 1];
    assert cs[k] == Step(c, e);
    KeyOfLiveNode(c, e, n, interval);
    if Live(c, n) && c.key == cs[k].key && Present(c.key, c.now) && !Renews(c, e, n) {
      a := Root(cs, es, n, k - 1, interval);
    } else {
      a := k;
    }
  }

  /** A tick of the key's owner renews the key. */
  lemma OwnerTickRenews(cs: seq<Cluster>, es: seq<Event>, n: NodeId, a: nat, k: nat, j: nat, j2: nat, interval: int)
    requires Trace(cs, es) && k <= |es| && Rooted(cs, es, n, a, k, interval)
    requires a <= j && j2 <= k && Ticks(cs, es, n, j, j2)
    requires Present(cs[k].key, cs[k].now) && cs[k].key.owner == n
    ensures Renews(cs[j2], es[j2], n)
  {
    TimeOnlyAdvances(cs, es);
    Clocks.Ordered(Times(cs), j, k);
    assert cs[j + 1] == Step(cs[j], es[j]);
    assert cs[j].key == cs[k].key;
  }

  /** Diligent nodes renew in time. */
  lemma TickingIsInTime(cs: seq<Cluster>, es: seq<Event>, k: nat, interval: int)
    requires Trace(cs, es) && cs[0].nodes == map[] && k < |es| && interval <= EXPIRATION && Diligent(cs, es, interval)
    requires forall i | 0 <= i <= k :: LeaseHeld(cs[i]) && PhasesMatch(cs[i])
    requires forall i | 0 <= i < k :: ReturnsInTime(cs[i], es[i], interval)
    ensures InTime(cs[k], es[k])
  {
    if !InTime(cs[k], es[k]) {
      var n := cs[k].key.owner;
      assert IsMaster(cs[k], n);
      var a := Root(cs, es, n, k, interval);
      assert cs[k + 1] == Step(cs[k], es[k]);
      assert LiveFrom(cs, n, a, k + 1);
      assert TicksBetween(cs, es, n, a, k + 1);
      var j: nat, j2: nat :| a <= j && j2 < k + 1 && Ticks(cs, es, n, j, j2);
      OwnerTickRenews(cs, es, n, a, k, j, j2, interval);
    }
  }

  lemma {:induction false} TickingKeepsLease(cs: seq<Cluster>, es: seq<Event>, k: nat, interval: int)
    requires Trace(cs, es) && cs[0].nodes == map[] && k <= |es| && interval <= EXPIRATION && Diligent(cs, es, interval)
    requires forall i | 0 <= i < |es| :: ReturnsInTime(cs[i], es[i], interval)
    ensures forall i | 0 <= i <= k :: LeaseHeld(cs[i]) && PhasesMatch(cs[i])
    ensures forall i | 0 <= i < k :: InTime(cs[i], es[i])
    decreases k
  {
    if k == 0 {
    } else {
      TickingKeepsLease(cs, es, k - 1, interval);
      TickingIsInTime(cs, es, k - 1, interval);
      assert cs[k] == Step(cs[k - 1], es[k - 1]);
      PhasesKept(cs[k - 1], es[k - 1]);
      LeaseKeptExactlyInTime(cs[k - 1], es[k - 1]);
    }
  }

  /**
   Single master with no assumption about renewals: nodes that tick at their interval keep at most
   one live master, who owns the unexpired key, as long as none comes back under the name the key
   holds with less than an interval to go.
   */
  lemma TickingKeepsSingleMaster(cs: seq<Cluster>, es: seq<Event>, k: nat, interval: int, a: NodeId, b: NodeId)
    requires Trace(cs, es) && cs[0].nodes == map[] && k <= |es|
    requires interval <= INTERVAL_BOUND && Diligent(cs, es, interval)
    requires forall i | 0 <= i < |es| :: ReturnsInTime(cs[i], es[i], interval)
    requires IsMaster(cs[k], a) && IsMaster(cs[k], b)
    ensures a == b && Present(cs[k].key, cs[k].now) && cs[k].key.owner == a
  {
    TickingKeepsLease(cs, es, k, interval);
    SingleMaster(cs, es, k, a, b);
  }

  /** The master's comeback of the last lemma, and another node's start when the key has run out. */
  function Comeback(c: Cluster, a: NodeId, b: NodeId): Cluster
    requires c.key.Held?
  {
    var c1 := Step(Step(Step(c, Join(a)), Act(a, FirstPreempt, true)), Act(a, FirstLook, true));
    Step(Step(Step(c1, Advance(c.key.expiresAt)), Join(b)), Act(b, FirstPreempt, true))
  }

  /**
   Any such comeback can make two masters: the node finds its old name in the key and takes itself
   for master, and the key runs out before its first tick is due.
   */
  lemma LateReturnMakesTwoMasters(c: Cluster, a: NodeId, b: NodeId, interval: int)
    requires a != "" && b != "" && a != b && !Live(c, a) && !Live(c, b)
    requires !ReturnsInTime(c, Join(a), interval)
    ensures var c' := Comeback(c, a, b);
            IsMaster(c', a) && IsMaster(c', b) && c'.now - c.now < interval
  {
    var c1 := Step(Step(Step(c, Join(a)), Act(a, FirstPreempt, true)), Act(a, FirstLook, true));
    assert c1.nodes[a] == Node(a, Idle) && c1.key == c.key;
    assert !Live(c1, b);
  }

  /** Several commands of one node in a row; commands its phase does not call for are skipped. */
  function DoAll(n: NodeId, node: Node, key: Key, now: int, cmds: seq<Cmd>): (Node, Key)
    decreases |cmds|
  {
    if cmds == [] then (node, key) else
      var (node', key') := Do(n, node, key, now, cmds[0], true);
      DoAll(n, node', key', now, cmds[1..])
  }

  /** The shared key, as SETNX, GET, EXPIRE and DEL see it. */
  class RedisKey {
    var now: int
    var key: Key

    constructor (now: int)
      ensures this.now == now && key == Absent
    {
      this.now, key := now, Absent;
    }

    method SetNX(value: NodeId, ttl: int) returns (ok: bool)
      modifies this`key
      ensures ok <==> !Present(old(key), now)
      ensures key == if ok then Held(value, now + ttl) else old(key)
    {
      ok := !Present(key, now);
      if ok { key := Held(value, now + ttl); }
    }

    method Get() returns (found: bool, value: NodeId)
      ensures found <==> Present(key, now)
      ensures found ==> value == key.owner
    {
      found, value := Present(key, now), if key.Held? then key.owner else "";
    }

    method Expire(ttl: int)
      modifies this`key
      ensures key == if Present(old(key), now) then old(key).(expiresAt := now + ttl) else old(key)
    {
      if Present(key, now) { key := key.(expiresAt := now + ttl); }
    }

    method Del()
      modifies this`key
      ensures key == Absent
    {
      key := Absent;
    }
  }

  /** A node's side of the protocol. Each method is the run of its commands with nothing in between. */
  class MutexNode {
    const myName: NodeId
    const redis: RedisKey
    var currentMaster: NodeId

    constructor (redis: RedisKey, myName: NodeId)
      ensures this.redis == redis && this.myName == myName && currentMaster == ""
    {
      this.redis, this.myName, currentMaster := redis, myName, "";
    }

    predicate IsMaster()
      reads this
    {
      myName != "" && myName == currentMaster
    }

    method GetCurrentMaster() returns (found: bool, master: NodeId)
      modifies this`currentMaster
      ensures found <==> Present(redis.key, redis.now)
      ensures found ==> master == redis.key.owner
      ensures currentMaster == if found then redis.key.owner else old(currentMaster)
    {
      found, master := redis.Get();
      if found { currentMaster := master; }
    }

    method TryPreempt(first: bool)
      modifies this`currentMaster, redis`key
      ensures (Node(currentMaster, Idle), redis.key)
              == DoAll(myName, Node(old(currentMaster), if first then Starting else SawNone), old(redis.key), redis.now,
                       if first then [FirstPreempt, FirstLook] else [TickPreempt])
      ensures if Present(old(redis.key), redis.now)
              then redis.key == old(redis.key) && currentMaster == if first then redis.key.owner else old(currentMaster)
              else redis.key == Held(myName, redis.now + 30_000) && currentMaster == myName
    {
      assert [FirstPreempt, FirstLook][1..] == [FirstLook];
      var ok := redis.SetNX(myName, EXPIRATION);
      if ok {
        currentMaster := myName;
      } else if first {
        var _, _ := GetCurrentMaster();
      }
    }

    method Tick()
      modifies this`currentMaster, redis`key
      ensures (Node(currentMaster, Idle), redis.key)
              == DoAll(myName, Node(old(currentMaster), Idle), old(redis.key), redis.now, [TickGet, TickPreempt, Renew])
      ensures if Present(old(redis.key), redis.now) && old(redis.key).owner != myName
              then redis.key == old(redis.key) && currentMaster == redis.key.owner
              else redis.key == Held(myName, redis.now + 30_000) && currentMaster == myName
    {
      var found, master := GetCurrentMaster();
      if !found {
        TryPreempt(false);
      } else if master == myName {
        redis.Expire(EXPIRATION);
      }
    }

    method Release()
      modifies redis`key
      ensures (Node(currentMaster, Gone), redis.key)
              == DoAll(myName, Node(currentMaster, Idle), old(redis.key), redis.now, [Stop, ReleaseKey])
      ensures redis.key == if myName != "" && myName == currentMaster then Absent else old(redis.key)
    {
      if !IsMaster() {
        return;
      }
      redis.Del();
    }
  }
}
