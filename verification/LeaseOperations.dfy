/**
 The pool with undivided releases (pool/redis.go): acquires interleave command by command,
 a release compares and resets in one go, and a refresh never brings a dropped slot back.
 Every such run is safe, so exclusion and fencing hold without conditions on its states.
 */
module LeaseOperations {
  import opened LeasePool
  import opened LeaseFencing

  datatype Operation =
    | Plain(e: Event)
    | Release(l: nat)
    | Reconfigure(before: set<Member>, after: set<Member>)

  /** The commands of an operation; the halves of a release and refreshes are no plain ones. */
  function Commands(o: Operation): seq<Event> {
    match o
    case Plain(e) => if e.Compare? || e.Reset? || e.Refresh? then [] else [e]
    case Release(l) => [Compare(l), Reset(l)]
    case Reconfigure(before, after) => [Refresh(before, after)]
  }

  /** A release operation resets its member, and closes its lease, exactly if the handle's score is still there. */
  lemma ReleaseDoes(p: Pool, l: nat)
    requires p.matched == {}
    ensures var q := Run(p, Commands(Release(l)));
            if l < |p.leases| && p.leases[l].member in p.zset
               && p.zset[p.leases[l].member] == (if p.leases[l].released then 0 else p.leases[l].score)
            then q.zset == p.zset[p.leases[l].member := 0] && l < |q.leases| && q.leases[l].released
            else q == p
  {
    var es := Commands(Release(l));
    assert es[1..] == [Reset(l)] && es[1..][1..] == [];
    assert Run(p, es) == Run(Step(p, es[0]), es[1..]) == Step(Step(p, Compare(l)), Reset(l));
  }

  function AllCommands(os: seq<Operation>): seq<Event>
    decreases |os|
  {
    if os == [] then [] else Commands(os[0]) + AllCommands(os[1..])
  }

  /** No configuration adds a member that an earlier one, or the pool at the start, has had. */
  predicate NeverBringsBack(os: seq<Operation>, known: set<Member>)
    decreases |os|
  {
    if os == [] then true
    else if os[0].Reconfigure? then
      (os[0].after - os[0].before) !! known && NeverBringsBack(os[1..], known + os[0].after)
    else NeverBringsBack(os[1..], known)
  }

  /** What holds between operations: nobody is in the middle of a release. */
  ghost predicate Settled(p: Pool, known: set<Member>) {
    OnePlace(p) && Fenced(p) && Within(p, known) && p.matched == {} && 0 <= p.now
  }

  lemma SafeStepStays(p: Pool, e: Event, known: set<Member>)
    requires Settled(p, known) && Safe(p, e) && !e.Compare? && !e.Reset?
    ensures Settled(Step(p, e), if e.Refresh? then known + e.after else known)
  {
    OnePlaceKept(p, e);
    FencedKept(p, e);
    WithinKept(p, e, if e.Refresh? then known + e.after else known);
  }

  lemma ReleaseStays(p: Pool, l: nat, known: set<Member>)
    requires Settled(p, known)
    ensures Safe(p, Compare(l)) && Safe(Step(p, Compare(l)), Reset(l))
    ensures Settled(Step(Step(p, Compare(l)), Reset(l)), known)
  {
    var p1 := Step(p, Compare(l));
    UndividedReleaseIsSafe(p, l);
    OnePlaceKept(p, Compare(l));
    FencedKept(p, Compare(l));
    WithinKept(p, Compare(l), known);
    OnePlaceKept(p1, Reset(l));
    FencedKept(p1, Reset(l));
    WithinKept(p1, Reset(l), known);
  }

  /** Every run of operations is a run of safe steps. */
  lemma {:induction false} OperationsAreSafe(p: Pool, os: seq<Operation>, known: set<Member>)
    requires Settled(p, known) && NeverBringsBack(os, known)
    ensures AllSafe(p, AllCommands(os))
    decreases |os|
  {
    if os == [] {
    } else {
      var es, rest := AllCommands(os), AllCommands(os[1..]);
      match os[0]
      case Plain(e) =>
        if Commands(os[0]) == [] {
          assert es == rest;
          OperationsAreSafe(p, os[1..], known);
        } else {
          assert es[0] == e && es[1..] == rest;
          SafeStepStays(p, e, known);
          OperationsAreSafe(Step(p, e), os[1..], known);
        }
      case Release(l) =>
        ReleaseStays(p, l, known);
        assert es[0] == Compare(l) && es[1..][0] == Reset(l) && es[1..][1..] == rest;
        OperationsAreSafe(Step(Step(p, Compare(l)), Reset(l)), os[1..], known);
      case Reconfigure(before, after) =>
        var e := Refresh(before, after);
        assert es[0] == e && es[1..] == rest;
        assert Safe(p, e);
        SafeStepStays(p, e, known);
        OperationsAreSafe(Step(p, e), os[1..], known + after);
    }
  }

  /** Every command of a run belongs to one of its operations. */
  lemma {:induction false} Origin(os: seq<Operation>, i: nat) returns (k: nat)
    requires i < |AllCommands(os)|
    ensures k < |os| && AllCommands(os)[i] in Commands(os[k])
    decreases |os|
  {
    var n := |Commands(os[0])|;
    if i < n {
      k := 0;
    } else {
      k := Origin(os[1..], i - n);
      k := k + 1;
    }
  }

  /** A pool nobody has used yet. */
  predicate Unused(p: Pool) {
    p.calls == map[] && p.leases == [] && p.matched == {} && 0 <= p.now
  }

  /**
   Lease exclusion without conditions on the run's states: under a fixed configuration, or with
   changes that never bring a dropped slot back, however acquires interleave with undivided
   releases and crashes, a service never has more active leases than its largest capacity.
   */
  lemma {:induction false} OperationsExclude(p: Pool, os: seq<Operation>, services: seq<Service>, name: string)
    requires Unused(p) && p.zset.Keys <= Members(services) && NeverBringsBack(os, p.zset.Keys)
    requires forall i | 0 <= i < |os| :: os[i].Reconfigure? ==> os[i].after <= Members(services)
    ensures |ActiveOf(Run(p, AllCommands(os)), name)| <= MaxCap(services, name)
  {
    OperationsAreSafe(p, os, p.zset.Keys);
    var es := AllCommands(os);
    forall i | 0 <= i < |es| && es[i].Refresh?
      ensures es[i].after <= Members(services)
    {
      var k := Origin(os, i);
    }
    LeaseExclusion(p, es, services, name);
  }

  /** The release of a lease whose member was leased again changes nothing, in every run of prompt operations. */
  lemma {:induction false} OperationsAreFenced(p: Pool, os: seq<Operation>, l: nat)
    requires Unused(p) && NeverBringsBack(os, p.zset.Keys)
    requires AllPrompt(p, AllCommands(os)) && forall i | 0 <= i < |os| :: os[i].Plain? ==> PositiveExpiry(os[i].e)
    ensures var q := Run(p, AllCommands(os));
            TakenOver(q, l) ==> Step(Step(q, Compare(l)), Reset(l)).zset == q.zset
  {
    OperationsAreSafe(p, os, p.zset.Keys);
    var es := AllCommands(os);
    forall i | 0 <= i < |es|
      ensures PositiveExpiry(es[i])
    {
      var k := Origin(os, i);
    }
    NothingStaysMatched(p, os);
    LostLeaseIsFencedOff(p, es, l);
  }

  lemma {:induction false} NothingStaysMatched(p: Pool, os: seq<Operation>)
    requires p.matched == {}
    ensures Run(p, AllCommands(os)).matched == {}
    decreases |os|
  {
    if os == [] {
    } else {
      var es, rest := AllCommands(os), AllCommands(os[1..]);
      if os[0].Release? {
        assert es[1..][1..] == rest;
        var p2 := Step(Step(p, es[0]), es[1..][0]);
        assert p2.matched == {};
        NothingStaysMatched(p2, os[1..]);
      } else if Commands(os[0]) == [] {
        assert es == rest;
        NothingStaysMatched(p, os[1..]);
      } else {
        assert es[1..] == rest && Step(p, es[0]).matched == {};
        NothingStaysMatched(Step(p, es[0]), os[1..]);
      }
    }
  }

  /** The member is neither in the set nor in anybody's hands. */
  ghost predicate Nowhere(p: Pool, m: Member) {
    m !in p.zset && forall c :: !Holds(p, c, m)
  }

  lemma NowhereStays(p: Pool, e: Event, m: Member)
    requires Nowhere(p, m) && !e.Reset? && (e.Refresh? ==> m !in e.after - e.before)
    ensures Nowhere(Step(p, e), m)
    ensures forall i | |p.leases| <= i < |Step(p, e).leases| :: Step(p, e).leases[i].member != m
  {
    StepKeepsOthers(p, e);
    if e.Put? && e.c in p.calls && p.calls[e.c].Holding? {
      assert Holds(p, e.c, p.calls[e.c].member);
    }
  }

  lemma NowhereAfterRelease(p: Pool, l: nat, m: Member)
    requires Nowhere(p, m) && p.matched == {}
    ensures var q := Step(Step(p, Compare(l)), Reset(l));
            Nowhere(q, m) && q.matched == {} && |q.leases| == |p.leases|
  {
    var q := Step(Step(p, Compare(l)), Reset(l));
    assert forall c | Holds(q, c, m) :: Holds(p, c, m);
  }

  /** Leases are only added; none changes its member. */
  lemma {:induction false} LeasesStayOverCommands(p: Pool, es: seq<Event>)
    ensures |p.leases| <= |Run(p, es).leases|
    ensures forall i | 0 <= i < |p.leases| :: Run(p, es).leases[i].member == p.leases[i].member
    decreases |es|
  {
    if es == [] {
    } else {
      LeasesStayOverCommands(Step(p, es[0]), es[1..]);
    }
  }

  lemma {:induction false} NowhereOverRuns(p: Pool, os: seq<Operation>, m: Member)
    requires Nowhere(p, m) && p.matched == {}
    requires forall i | 0 <= i < |os| :: os[i].Reconfigure? ==> m !in os[i].after - os[i].before
    ensures var q := Run(p, AllCommands(os));
            && Nowhere(q, m) && |p.leases| <= |q.leases|
            && forall i | |p.leases| <= i < |q.leases| :: q.leases[i].member != m
    decreases |os|
  {
    if os == [] {
    } else {
      var es, rest := AllCommands(os), AllCommands(os[1..]);
      if os[0].Release? {
        NowhereAfterRelease(p, os[0].l, m);
        assert es[0] == Compare(os[0].l) && es[1..][0] == Reset(os[0].l) && es[1..][1..] == rest;
        NowhereOverRuns(Step(Step(p, es[0]), es[1..][0]), os[1..], m);
      } else if Commands(os[0]) == [] {
        assert es == rest;
        NowhereOverRuns(p, os[1..], m);
      } else {
        assert es[0] == Commands(os[0])[0] && es[1..] == rest;
        var p1, q := Step(p, es[0]), Run(p, es);
        NowhereStays(p, es[0], m);
        NowhereOverRuns(p1, os[1..], m);
        LeasesStayOverCommands(p1, rest);
        assert forall i | |p.leases| <= i < |p1.leases| :: q.leases[i].member == p1.leases[i].member;
      }
    }
  }

  /**
   A client that crashes between its pop and its put takes the slot with it: nobody leases it
   again in any run of operations until a configuration adds it anew.
   */
  lemma {:induction false} CrashLosesSlot(p: Pool, c: Client, m: Member, os: seq<Operation>)
    requires OnePlace(p) && p.matched == {} && Holds(p, c, m)
    requires forall i | 0 <= i < |os| :: os[i].Reconfigure? ==> m !in os[i].after - os[i].before
    ensures var q := Run(Step(p, Crash(c)), AllCommands(os));
            m !in q.zset && forall i | |p.leases| <= i < |q.leases| :: q.leases[i].member != m
  {
    var p1 := Step(p, Crash(c));
    assert forall d | Holds(p1, d, m) :: Holds(p, d, m);
    NowhereOverRuns(p1, os, m);
  }
}
