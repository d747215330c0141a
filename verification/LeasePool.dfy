/**
 A pool of leased slots in one Redis sorted set (pool/redis.go). A member's score is the
 time its lease runs out, and the holder's proof when it releases. ZPOPMIN and ZADD are
 separate steps of an acquire, ZSCORE and ZADD of a release: its pipeline is not a
 transaction, so watching the key does not join the two. Scores are integers in nanoseconds.
 */
module LeasePool {
  import opened Options
  import opened Decimal

  datatype Service = Service(name: string, cap: int)

  type Member = string
  type Zset = map<Member, int>

  // ---------------------------------------------------------------- members

  function MemberName(slot: nat, name: string): Member {
    Itoa(slot) + "_" + name
  }

  /** SplitN(member, "_", 2): what follows the first underscore. */
  function ServiceOf(m: Member): Option<string> {
    if m == [] then None else if m[0] == '_' then Some(m[1..]) else ServiceOf(m[1..])
  }

  lemma {:induction false} SplitSkipsNumeral(digits: string, name: string)
    requires AllDigits(digits)
    ensures ServiceOf(digits + "_" + name) == Some(name)
    decreases |digits|
  {
    var m := digits + "_" + name;
    if digits == [] {
      assert m[1..] == name;
    } else {
      assert m[1..] == digits[1..] + "_" + name;
      assert IsDigit(digits[0]);
      SplitSkipsNumeral(digits[1..], name);
    }
  }

  /** A member string names one slot of one service and splits back to the service. */
  lemma MemberNamesAreUnique(i: nat, a: string, j: nat, b: string)
    ensures ServiceOf(MemberName(i, a)) == Some(a)
    ensures MemberName(i, a) == MemberName(j, b) ==> i == j && a == b
  {
    SplitSkipsNumeral(Itoa(i), a);
    SplitSkipsNumeral(Itoa(j), b);
    if MemberName(i, a) == MemberName(j, b) {
      assert |Itoa(i)| == |Itoa(j)|;
      assert Itoa(i) == MemberName(i, a)[..|Itoa(i)|] == MemberName(j, b)[..|Itoa(j)|] == Itoa(j);
    }
  }

  function SlotsOf(s: Service): set<Member> {
    set i: nat | 1 <= i <= s.cap :: MemberName(i, s.name)
  }

  function Members(services: seq<Service>): set<Member> {
    if services == [] then {} else Members(services[..|services| - 1]) + SlotsOf(services[|services| - 1])
  }

  /** The largest configured capacity of a name, zero if it is not configured. */
  function MaxCap(services: seq<Service>, name: string): nat {
    if services == [] then 0 else
      var rest, s := MaxCap(services[..|services| - 1], name), services[|services| - 1];
      if s.name == name && s.cap > rest then s.cap else rest
  }

  /** A service name owns exactly the slots one to its largest capacity. */
  lemma {:induction false} MembersOfService(services: seq<Service>, name: string, m: Member)
    ensures m in Members(services) && ServiceOf(m) == Some(name) <==>
            exists i: nat | 1 <= i <= MaxCap(services, name) :: m == MemberName(i, name)
    decreases |services|
  {
    if services == [] {
      assert MaxCap(services, name) == 0;
    } else {
      var s := services[|services| - 1];
      MembersOfService(services[..|services| - 1], name, m);
      if m in SlotsOf(s) {
        var i: nat :| 1 <= i <= s.cap && m == MemberName(i, s.name);
        MemberNamesAreUnique(i, s.name, i, s.name);
      }
      if i: nat :| 1 <= i <= MaxCap(services, name) && m == MemberName(i, name) {
        MemberNamesAreUnique(i, name, i, name);
      }
    }
  }

  // ---------------------------------------------------------------- protocol

  type Client = nat

  /** An acquire in progress: it has read the clock, or has popped a member and not put it back yet. */
  datatype Call =
    | Begun(start: int, until: int)
    | Holding(start: int, until: int, member: Member, score: int)

  datatype Lease = Lease(member: Member, score: int, released: bool)

  /** `matched` holds the leases whose release has seen its own score and is about to reset it. */
  datatype Pool = Pool(now: int, zset: Zset, calls: map<Client, Call>, leases: seq<Lease>, matched: set<nat>)

  datatype Event =
    | Advance(to: int)
    | Start(c: Client, expire: int)
    | Pop(c: Client, m: Member)
    | Put(c: Client)
    | Crash(c: Client)
    | Compare(l: nat)
    | Reset(l: nat)
    | Refresh(before: set<Member>, after: set<Member>)

  /** The set after a refresh: members new to the configuration at score zero, dropped ones removed. */
  function Refreshed(z: Zset, before: set<Member>, after: set<Member>): Zset {
    map m | m in z.Keys + (after - before) && m !in before - after :: if m in after - before then 0 else z[m]
  }

  predicate Least(z: Zset, m: Member) {
    m in z && forall x | x in z :: z[m] <= z[x]
  }

  /** A lease that has not been given back. */
  predicate Open(p: Pool, l: nat) {
    l < |p.leases| && !p.leases[l].released
  }

  /** The score a release compares: giving a lease back sets the score of its handle to zero. */
  function HandleScore(lease: Lease): int {
    if lease.released then 0 else lease.score
  }

  predicate Matches(p: Pool, l: nat) {
    l < |p.leases| && p.leases[l].member in p.zset && p.zset[p.leases[l].member] == HandleScore(p.leases[l])
  }

  function Step(p: Pool, e: Event): Pool {
    match e
    case Advance(to) => if p.now <= to then p.(now := to) else p
    case Start(c, expire) => if c !in p.calls then p.(calls := p.calls[c := Begun(p.now, p.now + expire)]) else p
    case Pop(c, m) =>
      if c !in p.calls || !p.calls[c].Begun? then p
      else if p.zset == map[] then p.(calls := p.calls - {c})
      else if !Least(p.zset, m) then p
      else p.(zset := p.zset - {m}, calls := p.calls[c := Holding(p.calls[c].start, p.calls[c].until, m, p.zset[m])])
    case Put(c) =>
      if c !in p.calls || !p.calls[c].Holding? then p else
        var Holding(start, until, m, score) := p.calls[c];
        if score > start then p.(zset := p.zset[m := score], calls := p.calls - {c})
        else p.(zset := p.zset[m := until], calls := p.calls - {c}, leases := p.leases + [Lease(m, until, false)])
    case Crash(c) => p.(calls := p.calls - {c})
    case Compare(l) => if Matches(p, l) then p.(matched := p.matched + {l}) else p
    case Reset(l) =>
      if l in p.matched && l < |p.leases|
      then p.(zset := p.zset[p.leases[l].member := 0], leases := p.leases[l := p.leases[l].(released := true)],
              matched := p.matched - {l})
      else p
    case Refresh(before, after) => p.(zset := Refreshed(p.zset, before, after))
  }

  function Run(p: Pool, es: seq<Event>): Pool
    decreases |es|
  {
    if es == [] then p else Run(Step(p, es[0]), es[1..])
  }

  predicate Active(p: Pool, i: nat) {
    Open(p, i) && p.now < p.leases[i].score
  }

  predicate Holds(p: Pool, c: Client, m: Member) {
    c in p.calls && p.calls[c].Holding? && p.calls[c].member == m
  }

  /** A member is in one place at most: the sorted set, or the hands of one acquire. */
  ghost predicate OnePlace(p: Pool) {
    && (forall c, m | Holds(p, c, m) :: m !in p.zset)
    && (forall c, d, m | Holds(p, c, m) && Holds(p, d, m) :: c == d)
    && (forall c | c in p.calls :: p.calls[c].start <= p.now)
  }

  /** Wherever the member of an active lease is, it carries the lease's score; no two active leases share one. */
  ghost predicate Fenced(p: Pool) {
    && (forall i: nat | Active(p, i) && p.leases[i].member in p.zset :: p.zset[p.leases[i].member] == p.leases[i].score)
    && (forall i: nat, c | Active(p, i) && Holds(p, c, p.leases[i].member) :: p.calls[c].score == p.leases[i].score)
    && (forall i: nat, j: nat | Active(p, i) && Active(p, j) && p.leases[i].member == p.leases[j].member :: i == j)
  }

  /** Nothing but the given members is ever in the pool. */
  ghost predicate Within(p: Pool, members: set<Member>) {
    && p.zset.Keys <= members
    && (forall c, m | Holds(p, c, m) :: m in members)
    && (forall i | 0 <= i < |p.leases| :: p.leases[i].member in members)
  }

  /** No member of `ms` is in flight or carried by an active lease, the lease `own` aside. */
  ghost predicate Free(p: Pool, ms: set<Member>, own: int) {
    && (forall c, m | Holds(p, c, m) :: m !in ms)
    && (forall i: nat | Active(p, i) && i != own :: p.leases[i].member !in ms)
  }

  /** A refresh adds only free members, and a release resets a member that is free but for its own lease. */
  ghost predicate Safe(p: Pool, e: Event) {
    && (e.Refresh? ==> Free(p, e.after - e.before, -1))
    && (e.Reset? && e.l in p.matched && e.l < |p.leases| ==> Free(p, {p.leases[e.l].member}, e.l))
  }

  lemma StepKeepsOthers(p: Pool, e: Event)
    ensures var q := Step(p, e);
            && (forall i: nat | Active(q, i) && i < |p.leases| :: Active(p, i) && q.leases[i] == p.leases[i])
            && (forall c, m | Holds(q, c, m) && !(e.Pop? && e.c == c) :: Holds(p, c, m) && q.calls[c] == p.calls[c])
  {
  }

  lemma OnePlaceKept(p: Pool, e: Event)
    requires OnePlace(p) && Safe(p, e)
    ensures OnePlace(Step(p, e))
  {
    StepKeepsOthers(p, e);
    if e.Put? && e.c in p.calls && p.calls[e.c].Holding? {
      assert Holds(p, e.c, p.calls[e.c].member);
    }
  }

  lemma PutKeepsFenced(p: Pool, c: Client)
    requires OnePlace(p) && Fenced(p)
    ensures Fenced(Step(p, Put(c)))
  {
    StepKeepsOthers(p, Put(c));
    if c in p.calls && p.calls[c].Holding? {
      assert Holds(p, c, p.calls[c].member);
    }
  }

  lemma FencedKept(p: Pool, e: Event)
    requires OnePlace(p) && Fenced(p) && Safe(p, e)
    ensures Fenced(Step(p, e))
  {
    if e.Put? {
      PutKeepsFenced(p, e.c);
    } else {
      StepKeepsOthers(p, e);
    }
  }

  /** Setting the score of a member somebody still has to zero breaks the pool. */
  lemma UnsafeBreaks(p: Pool, e: Event, m: Member, own: int)
    requires 0 <= p.now && !Free(p, {m}, own)
    requires var q := Step(p, e);
             && q.calls == p.calls && q.now == p.now && |q.leases| == |p.leases| && m in q.zset && q.zset[m] == 0
             && forall i | 0 <= i < |p.leases| && i != own :: q.leases[i] == p.leases[i]
    ensures !(OnePlace(Step(p, e)) && Fenced(Step(p, e)))
  {
    var q := Step(p, e);
    if c :| Holds(p, c, m) {
      assert Holds(q, c, m);
    } else {
      var i: nat :| Active(p, i) && i != own && p.leases[i].member == m;
      assert Active(q, i);
    }
  }

  /** A step keeps the pool's invariants exactly when it is safe. */
  lemma SafeExactly(p: Pool, e: Event)
    requires OnePlace(p) && Fenced(p) && 0 <= p.now
    ensures OnePlace(Step(p, e)) && Fenced(Step(p, e)) <==> Safe(p, e)
  {
    if Safe(p, e) {
      OnePlaceKept(p, e);
      FencedKept(p, e);
    } else if e.Reset? {
      UnsafeBreaks(p, e, p.leases[e.l].member, e.l);
    } else {
      var ms := e.after - e.before;
      if c, m :| Holds(p, c, m) && m in ms {
        UnsafeBreaks(p, e, m, -1);
      } else {
        var i: nat :| Active(p, i) && p.leases[i].member in ms;
        UnsafeBreaks(p, e, p.leases[i].member, -1);
      }
    }
  }

  /** A release nobody interrupts is safe, and ends no active lease but its own. */
  lemma UndividedReleaseIsSafe(p: Pool, l: nat)
    requires OnePlace(p) && Fenced(p) && l !in p.matched && 0 <= p.now
    ensures var p1 := Step(p, Compare(l));
            var p2 := Step(p1, Reset(l));
            && Safe(p, Compare(l)) && Safe(p1, Reset(l))
            && (p2.zset == if Matches(p, l) then p.zset[p.leases[l].member := 0] else p.zset)
            && forall i: nat | Active(p, i) && i != l ::
                 Active(p2, i) && (p.leases[i].member in p.zset ==> Matches(p2, i))
  {
    var p1 := Step(p, Compare(l));
    assert forall c, m | Holds(p1, c, m) :: Holds(p, c, m);
    assert forall i: nat | Active(p1, i) :: Active(p, i);
  }

  /** ZADD of new members at score zero. */
  function Added(z: Zset, ms: set<Member>): Zset {
    map m | m in z.Keys + ms :: if m in ms then 0 else z[m]
  }

  lemma RefreshedByCommands(z: Zset, before: set<Member>, after: set<Member>)
    ensures Refreshed(z, before, before) == z
    ensures Added(z, after - before) == Refreshed(z, before, before + after)
    ensures Added(z, after - before) - (before - after) == Refreshed(z, before, after)
    ensures Refreshed(Added(z, after - before), before + after, after) == Refreshed(z, before, after)
  {
  }

  /** Members enter the set one command before others leave it, so the two commands of a refresh are refreshes. */
  lemma RefreshIsTwoCommands(p: Pool, before: set<Member>, after: set<Member>)
    ensures Step(Step(p, Refresh(before, before + after)), Refresh(before + after, after))
            == Step(p, Refresh(before, after))
  {
    RefreshedByCommands(p.zset, before, after);
  }

  /** A slot dropped from the configuration and added again while leased is leased twice. */
  lemma ReaddedSlotIsLeasedTwice(m: Member) returns (p: Pool)
    ensures Active(p, 0) && Active(p, 1) && p.leases[0].member == p.leases[1].member == m
  {
    p := Pool(0, map[m := 0], map[], [], {});
    UninterruptedAcquire(p, 0, 10, m);
    p := Acquired(p, 0, 10, m);
    p := Step(Step(p, Refresh({m}, {})), Refresh({}, {m}));
    assert p == Pool(0, map[m := 0], map[], [Lease(m, 10, false)], {});
    UninterruptedAcquire(p, 0, 10, m);
    p := Acquired(p, 0, 10, m);
  }

  /** A release that resets after its lease ran out gives away the slot its successor holds. */
  lemma LateResetLeasesTwice(m: Member) returns (p: Pool)
    ensures Active(p, 1) && Active(p, 2) && p.leases[1].member == p.leases[2].member == m
  {
    p := Pool(0, map[m := 0], map[], [], {});
    UninterruptedAcquire(p, 0, 10, m);
    p := Step(Step(Acquired(p, 0, 10, m), Compare(0)), Advance(10));
    assert p == Pool(10, map[m := 10], map[], [Lease(m, 10, false)], {0});
    UninterruptedAcquire(p, 0, 10, m);
    p := Step(Acquired(p, 0, 10, m), Reset(0));
    assert p == Pool(10, map[m := 0], map[], [Lease(m, 10, true), Lease(m, 20, false)], {});
    UninterruptedAcquire(p, 0, 10, m);
    p := Acquired(p, 0, 10, m);
  }

  lemma WithinKept(p: Pool, e: Event, members: set<Member>)
    requires Within(p, members) && (e.Refresh? ==> e.after <= members)
    ensures Within(Step(p, e), members)
  {
    StepKeepsOthers(p, e);
    if e.Put? && e.c in p.calls && p.calls[e.c].Holding? {
      assert Holds(p, e.c, p.calls[e.c].member);
    }
  }

  ghost predicate AllSafe(p: Pool, es: seq<Event>)
    decreases |es|
  {
    es == [] || (Safe(p, es[0]) && AllSafe(Step(p, es[0]), es[1..]))
  }

  /** The invariants hold in every state of a run. */
  ghost predicate Kept(p: Pool, es: seq<Event>)
    decreases |es|
  {
    OnePlace(p) && Fenced(p) && (es != [] ==> Kept(Step(p, es[0]), es[1..]))
  }

  /** Over a run, the invariants hold throughout exactly when every step is safe. */
  lemma {:induction false} KeptExactly(p: Pool, es: seq<Event>)
    requires OnePlace(p) && Fenced(p) && 0 <= p.now
    ensures Kept(p, es) <==> AllSafe(p, es)
    ensures AllSafe(p, es) ==> OnePlace(Run(p, es)) && Fenced(Run(p, es))
    decreases |es|
  {
    if es == [] {
    } else {
      SafeExactly(p, es[0]);
      if Safe(p, es[0]) {
        KeptExactly(Step(p, es[0]), es[1..]);
      }
    }
  }

  lemma {:induction false} WithinOverRuns(p: Pool, es: seq<Event>, members: set<Member>)
    requires Within(p, members) && forall i | 0 <= i < |es| :: es[i].Refresh? ==> es[i].after <= members
    ensures Within(Run(p, es), members)
    decreases |es|
  {
    if es == [] {
    } else {
      WithinKept(p, es[0], members);
      WithinOverRuns(Step(p, es[0]), es[1..], members);
    }
  }

  /** The unexpired, unreleased leases of one service. */
  function ActiveOf(p: Pool, name: string): set<nat> {
    set i: nat | i < |p.leases| && Active(p, i) && ServiceOf(p.leases[i].member) == Some(name)
  }

  /** Things with distinct slots among `1..cap` are at most `cap`. */
  lemma {:induction false} PigeonHole(slot: map<nat, nat>, cap: nat)
    requires forall i | i in slot :: 1 <= slot[i] <= cap
    requires forall i, j | i in slot && j in slot && slot[i] == slot[j] :: i == j
    ensures |slot| <= cap
    decreases cap
  {
    if i :| i in slot && slot[i] == cap {
      var rest := slot - {i};
      PigeonHole(rest, cap - 1);
      assert slot.Keys == rest.Keys + {i};
    } else if cap > 0 {
      PigeonHole(slot, cap - 1);
    } else {
      assert slot.Keys == {};
    }
  }

  lemma FencedIsExclusive(q: Pool, services: seq<Service>, name: string)
    requires Fenced(q) && Within(q, Members(services))
    ensures |ActiveOf(q, name)| <= MaxCap(services, name)
  {
    forall i | i in ActiveOf(q, name)
      ensures exists k: nat | 1 <= k <= MaxCap(services, name) :: q.leases[i].member == MemberName(k, name)
    {
      MembersOfService(services, name, q.leases[i].member);
    }
    var slot := map i | i in ActiveOf(q, name) ::
      var k: nat :| 1 <= k <= MaxCap(services, name) && q.leases[i].member == MemberName(k, name); k;
    PigeonHole(slot, MaxCap(services, name));
    assert slot.Keys == ActiveOf(q, name);
  }

  /**
   Lease exclusion: in every run of safe steps whose configurations are made of `services`, a
   service never has more unexpired, unreleased leases than its largest capacity.
   */
  lemma {:induction false} LeaseExclusion(p: Pool, es: seq<Event>, services: seq<Service>, name: string)
    requires p.zset.Keys <= Members(services) && p.calls == map[] && p.leases == [] && 0 <= p.now
    requires AllSafe(p, es) && forall i | 0 <= i < |es| :: es[i].Refresh? ==> es[i].after <= Members(services)
    ensures |ActiveOf(Run(p, es), name)| <= MaxCap(services, name)
  {
    KeptExactly(p, es);
    WithinOverRuns(p, es, Members(services));
    FencedIsExclusive(Run(p, es), services, name);
  }

  /** An acquire takes a member of least score: one it finds still out tells it that all are. */
  lemma PopTakesLeast(p: Pool, c: Client, m: Member)
    requires c in p.calls && p.calls[c].Begun? && Holds(Step(p, Pop(c, m)), c, m)
    ensures m in p.zset && Step(p, Pop(c, m)).calls[c].score == p.zset[m]
    ensures forall x | x in p.zset :: p.zset[m] <= p.zset[x]
    ensures Step(p, Pop(c, m)).zset == map x | x in p.zset && x != m :: p.zset[x]
  {
  }

  /** An acquire that finds the set empty fails and leaves it. */
  lemma EmptyPoolRefuses(p: Pool, c: Client, m: Member)
    requires c in p.calls && p.calls[c].Begun? && p.zset == map[]
    ensures Step(p, Pop(c, m)) == p.(calls := map d | d in p.calls && d != c :: p.calls[d])
  {
  }

  /** An acquire nobody interrupts. */
  function Acquired(p: Pool, c: Client, expire: int, m: Member): Pool {
    Step(Step(Step(p, Start(c, expire)), Pop(c, m)), Put(c))
  }

  /** An acquire nobody interrupts either leases the lowest member until `now + expire` or changes nothing. */
  lemma UninterruptedAcquire(p: Pool, c: Client, expire: int, m: Member)
    requires c !in p.calls && Least(p.zset, m)
    ensures var q := Acquired(p, c, expire, m);
            && (p.zset[m] > p.now ==> q == p)
            && (p.zset[m] <= p.now ==>
                  q == p.(zset := p.zset[m := p.now + expire], leases := p.leases + [Lease(m, p.now + expire, false)]))
  {
    assert Acquired(p, c, expire, m).calls == p.calls;
  }

  // ---------------------------------------------------------------- the pool object

  /** A refresh leaves exactly the new members when the set held what both configurations share and nothing foreign. */
  lemma RefreshExactly(z: Zset, before: set<Member>, after: set<Member>)
    ensures Refreshed(z, before, after).Keys == after <==> z.Keys - before <= after && before * after <= z.Keys
    ensures forall m | m in z && m in before * after ::
              m in Refreshed(z, before, after) && Refreshed(z, before, after)[m] == z[m]
    ensures forall m | m in after - before :: m in Refreshed(z, before, after) && Refreshed(z, before, after)[m] == 0
  {
  }

  lemma EmptyDifference(a: set<Member>, b: set<Member>)
    ensures a - b == {} <==> a <= b
  {
    if a - b == {} {
      forall m | m in a
        ensures m in b
      {
        assert m !in a - b;
      }
    }
  }

  class RedisPool {
    var zset: Zset
    var services: seq<Service>
    var expire: int

    constructor (zset: Zset, expire: int)
      ensures this.zset == zset && services == [] && this.expire == expire
    {
      this.zset, services, this.expire := zset, [], expire;
    }

    /** Leases the member with the lowest score, unless even that one is still out. */
    method Acquire(now: int) returns (r: Option<(Member, int)>)
      modifies this`zset
      ensures r.None? ==> zset == old(zset) && forall m | m in zset :: zset[m] > now
      ensures r.Some? ==>
                var (m, score) := r.value;
                && Least(old(zset), m) && old(zset)[m] <= now
                && score == now + expire && zset == old(zset)[m := score]
    {
      if zset == map[] {
        return None;
      }
      var m, score := PopMin();
      if score > now {
        zset := zset[m := score];
        assert zset == old(zset);
        return None;
      }
      zset := zset[m := now + expire];
      r := Some((m, now + expire));
    }

    method PopMin() returns (m: Member, score: int)
      requires zset != map[]
      modifies this`zset
      ensures Least(old(zset), m) && score == old(zset)[m] && zset == old(zset) - {m}
    {
      m :| m in zset;
      var todo := zset.Keys - {m};
      while todo != {}
        invariant todo <= zset.Keys && m in zset && zset == old(zset)
        invariant forall x | x in zset && x !in todo :: zset[m] <= zset[x]
        decreases todo
      {
        var x :| x in todo;
        if zset[x] < zset[m] { m := x; }
        todo := todo - {x};
      }
      score, zset := zset[m], zset - {m};
    }

    /** Gives a member back if it still carries the handle's score, which then becomes zero. */
    method ReleaseMember(m: Member, score: int) returns (ok: bool, newScore: int)
      modifies this`zset
      ensures ok <==> m in old(zset)
      ensures var matches := m in old(zset) && old(zset)[m] == score;
              && zset == (if matches then old(zset)[m := 0] else old(zset))
              && newScore == if matches then 0 else score
    {
      newScore := score;
      if m !in zset {
        return false, score;
      }
      if zset[m] == score {
        newScore := 0;
        zset := zset[m := 0];
      }
      ok := true;
    }

    /** Leases a member and splits its service off; a member that does not split stays leased. */
    method AcquireString(now: int) returns (r: Option<(Member, string)>)
      modifies this`zset
      ensures (forall m | m in old(zset) :: old(zset)[m] > now) ==> r.None? && zset == old(zset)
      ensures !(forall m | m in old(zset) :: old(zset)[m] > now) ==>
                exists m ::
                  && Least(old(zset), m) && zset == old(zset)[m := now + expire]
                  && r == if ServiceOf(m).Some? then Some((m, ServiceOf(m).value)) else None
    {
      var got := Acquire(now);
      if got.None? {
        return None;
      }
      var m := got.value.0;
      var name := ServiceOf(m);
      r := if name.Some? then Some((m, name.value)) else None;
    }

    /**
     Moves the pool from its present configuration to a new one. A taken lock or a failing ZADD
     changes nothing; a failing ZREM leaves the new members in the set and the old configuration in place.
     */
    method RefreshConfig(newServices: seq<Service>, newExpire: int, locked: bool, addFails: bool, removeFails: bool)
      returns (ok: bool)
      modifies this
      ensures var before, after := Members(old(services)), Members(newServices);
              var added := !locked && (after <= before || !addFails);
              && (ok <==> added && (before <= after || !removeFails))
              && zset == Refreshed(old(zset), before, if ok then after else if added then before + after else before)
      ensures services == if ok then newServices else old(services)
      ensures expire == if ok then newExpire else old(expire)
    {
      var oldMembers := GenerateMembers(services);
      var newMembers := GenerateMembers(newServices);
      var toAdd := newMembers - oldMembers;
      var toRemove := oldMembers - newMembers;
      EmptyDifference(newMembers, oldMembers);
      EmptyDifference(oldMembers, newMembers);
      RefreshedByCommands(zset, oldMembers, newMembers);
      if locked {
        return false;
      }
      if toAdd != {} {
        if addFails {
          return false;
        }
        zset := Added(zset, toAdd);
      }
      assert zset == Added(old(zset), toAdd);
      if toRemove != {} {
        if removeFails {
          return false;
        }
        zset := zset - toRemove;
      }
      assert zset == Added(old(zset), toAdd) - toRemove;
      services, expire := newServices, newExpire;
      ok := true;
    }
  }

  method GenerateMembers(services: seq<Service>) returns (members: set<Member>)
    ensures members == Members(services)
  {
    members := {};
    for k := 0 to |services|
      invariant members == Members(services[..k])
    {
      var s := services[k];
      ghost var before := members;
      var i := 1;
      while i <= s.cap
        invariant 1 <= i && (i <= s.cap + 1 || i == 1)
        invariant members == before + SlotsOf(s.(cap := i - 1))
      {
        members := members + {MemberName(i, s.name)};
        i := i + 1;
        assert SlotsOf(s.(cap := i - 1)) == SlotsOf(s.(cap := i - 2)) + {MemberName(i - 1, s.name)};
      }
      assert SlotsOf(s.(cap := i - 1)) == SlotsOf(s);
      assert services[..k + 1][..k] == services[..k];
    }
    assert services[..|services|] == services;
  }
}
