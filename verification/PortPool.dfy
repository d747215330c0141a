/** The port pool (pool/portspool/ports.go): a queue of free ports and a list of ports handed out. */
module PortPool {
  import opened Options

  datatype Pool = Pool(available: seq<int>, taken: seq<int>)

  datatype Event = Get | Return(port: int)

  function Without(s: seq<int>, p: int): seq<int> {
    if s == [] then [] else if s[0] == p then s[1..] else [s[0]] + Without(s[1..], p)
  }

  function Step(p: Pool, e: Event): Pool {
    match e
    case Get =>
      if p.available == [] then p else Pool(p.available[1..], p.taken + [p.available[0]])
    case Return(port) =>
      if port !in p.taken then p else Pool(p.available + [port], Without(p.taken, port))
  }

  function Run(p: Pool, es: seq<Event>): Pool
    decreases |es|
  {
    if es == [] then p else Run(Step(p, es[0]), es[1..])
  }

  /** The ports handed out by a run, in order. */
  function HandedOut(p: Pool, es: seq<Event>): seq<int>
    decreases |es|
  {
    if es == [] then [] else
      (if es[0].Get? && p.available != [] then [p.available[0]] else []) + HandedOut(Step(p, es[0]), es[1..])
  }

  /** The ports successfully given back by a run, in order. */
  function GivenBack(p: Pool, es: seq<Event>): seq<int>
    decreases |es|
  {
    if es == [] then [] else
      (if es[0].Return? && es[0].port in p.taken then [es[0].port] else []) + GivenBack(Step(p, es[0]), es[1..])
  }

  function Ports(p: Pool): multiset<int> {
    multiset(p.available) + multiset(p.taken)
  }

  lemma {:induction false} WithoutRemovesOne(s: seq<int>, p: int)
    requires p in s
    ensures multiset(s) == multiset(Without(s, p)) + multiset{p}
    decreases |s|
  {
    assert s == [s[0]] + s[1..];
    if s[0] == p {
    } else {
      WithoutRemovesOne(s[1..], p);
    }
  }

  lemma StepConserves(p: Pool, e: Event)
    ensures Ports(Step(p, e)) == Ports(p)
  {
    if e.Get? && p.available != [] {
      assert p.available == [p.available[0]] + p.available[1..];
    }
    if e.Return? && e.port in p.taken {
      WithoutRemovesOne(p.taken, e.port);
    }
  }

  /** Conservation: no run loses, invents or duplicates a port. */
  lemma {:induction false} RunConserves(p: Pool, es: seq<Event>)
    ensures Ports(Run(p, es)) == Ports(p)
    decreases |es|
  {
    if es == [] {
    } else {
      StepConserves(p, es[0]);
      RunConserves(Step(p, es[0]), es[1..]);
    }
  }

  lemma FirstLeaves(port: int, out: seq<int>, end: seq<int>, rest: seq<int>, back: seq<int>)
    requires out + end == rest + back
    ensures [port] + out + end == [port] + rest + back
  {
    assert [port] + out + end == [port] + (out + end) == [port] + (rest + back);
  }

  /**
   Order: what a run hands out, followed by what it leaves available, is what was available
   followed by what came back. A returned port waits behind every port then available.
   */
  lemma {:induction false} PortsQueueInOrder(p: Pool, es: seq<Event>)
    ensures HandedOut(p, es) + Run(p, es).available == p.available + GivenBack(p, es)
    decreases |es|
  {
    if es == [] {
    } else {
      var q := Step(p, es[0]);
      PortsQueueInOrder(q, es[1..]);
      var h, g := HandedOut(q, es[1..]), GivenBack(q, es[1..]);
      var end := Run(p, es).available;
      if es[0].Get? && p.available != [] {
        FirstLeaves(p.available[0], h, end, q.available, g);
        assert p.available == [p.available[0]] + q.available;
        assert GivenBack(p, es) == [] + g == g;
      } else if es[0].Return? && es[0].port in p.taken {
        assert p.available + ([es[0].port] + g) == q.available + g;
        assert HandedOut(p, es) == [] + h == h;
      } else {
        assert q == p && HandedOut(p, es) == [] + h == h && GivenBack(p, es) == [] + g == g;
      }
    }
  }

  /** The bounds the constructor settles on. */
  function Bounds(minPort: int, maxPort: int): (int, int) {
    var (lo, hi) := if minPort > maxPort then (maxPort, minPort) else (minPort, maxPort);
    (if lo < 0 then 50000 else lo, if hi > 65535 then 60005 else hi)
  }

  /** Every port of the range is available once or taken once, never both. */
  ghost predicate Exact(p: Pool, lo: int, hi: int) {
    forall x :: Ports(p)[x] == if lo <= x <= hi then 1 else 0
  }

  class PortPool {
    var available: seq<int>
    var taken: seq<int>

    function View(): Pool
      reads this
    {
      Pool(available, taken)
    }

    /** Bounds that cross after the defaults are applied make the slice length negative. */
    constructor (minPort: int, maxPort: int)
      requires Bounds(minPort, maxPort).0 <= Bounds(minPort, maxPort).1 + 1
      ensures taken == [] && Exact(View(), Bounds(minPort, maxPort).0, Bounds(minPort, maxPort).1)
      ensures forall i | 0 <= i < |available| :: available[i] == Bounds(minPort, maxPort).0 + i
      ensures 0 <= minPort <= maxPort <= 65535 ==> Exact(View(), minPort, maxPort)
      ensures 0 <= maxPort < minPort <= 65535 ==> Exact(View(), maxPort, minPort)
      ensures minPort < 0 && 49999 <= maxPort <= 65535 ==> Exact(View(), 50000, maxPort)
      ensures 0 <= minPort <= 60006 && 65535 < maxPort ==> Exact(View(), minPort, 60005)
    {
      var lo, hi := minPort, maxPort;
      if lo > hi { lo, hi := hi, lo; }
      if lo < 0 { lo := 50000; }
      if hi > 65535 { hi := 60005; }
      var free: seq<int> := [];
      var i := lo;
      while i <= hi
        invariant lo <= i <= hi + 1 && |free| == i - lo
        invariant forall k | 0 <= k < |free| :: free[k] == lo + k
        invariant forall x :: multiset(free)[x] == if lo <= x < i then 1 else 0
      {
        free := free + [i];
        i := i + 1;
      }
      available, taken := free, [];
    }

    method GetPort() returns (r: Option<int>)
      modifies this
      ensures View() == Step(old(View()), Get)
      ensures r == if old(available) == [] then None else Some(old(available)[0])
    {
      if |available| == 0 {
        return None;
      }
      var port := available[0];
      available := available[1..];
      taken := taken + [port];
      r := Some(port);
    }

    method ReturnPort(port: int) returns (ok: bool)
      modifies this
      ensures View() == Step(old(View()), Return(port))
      ensures ok <==> port in old(taken)
    {
      var index := 0;
      while index < |taken| && taken[index] != port
        invariant 0 <= index <= |taken| && port !in taken[..index]
      {
        index := index + 1;
      }
      if index == |taken| {
        return false;
      }
      WithoutAt(taken, port, index);
      taken := taken[..index] + taken[index + 1..];
      available := available + [port];
      ok := true;
    }
  }

  lemma {:induction false} WithoutAt(s: seq<int>, p: int, k: nat)
    requires k < |s| && s[k] == p && p !in s[..k]
    ensures Without(s, p) == s[..k] + s[k + 1..]
    decreases |s|
  {
    if k == 0 {
    } else {
      assert s[0] in s[..k];
      assert s[1..][..k - 1] == s[..k][1..];
      WithoutAt(s[1..], p, k - 1);
    }
  }

  /** From a fresh pool, after any run, each port of the range is in exactly one place. */
  lemma RunStaysExact(p: Pool, es: seq<Event>, lo: int, hi: int)
    requires Exact(p, lo, hi)
    ensures Exact(Run(p, es), lo, hi)
  {
    RunConserves(p, es);
  }
}
