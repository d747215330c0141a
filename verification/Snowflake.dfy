/**
 Snowflake ids (encryptor/snowflake/snowflake.go): 41 bits of milliseconds since the epoch,
 10 bits of node and 12 bits of sequence in one 64-bit word. Words are natural numbers;
 shifting and or-ing are defined on their binary digits, and a clock before the epoch
 wraps around as two's complement does.
 */
module Snowflake {

  const EPOCH := 1735689600000
  const MAX_SEQ := 4095
  const NODE_SHIFT: nat := 12
  const TIME_SHIFT: nat := 22
  const TIME_LIMIT := 0x200_0000_0000
  const NODE_LIMIT := 1024

  function ShiftLeft(x: nat, k: nat): nat {
    if k == 0 then x else 2 * ShiftLeft(x, k - 1)
  }

  function BitOr(a: nat, b: nat): nat
    decreases a + b
  {
    if a == 0 then b else if b == 0 then a
    else 2 * BitOr(a / 2, b / 2) + (if a % 2 == 1 || b % 2 == 1 then 1 else 0)
  }

  /** Fields that do not overlap are added by or-ing them. */
  lemma {:induction false} OrOfDisjointIsSum(x: nat, k: nat, b: nat)
    requires b < ShiftLeft(1, k)
    ensures BitOr(ShiftLeft(x, k), b) == ShiftLeft(x, k) + b
    decreases k
  {
    if k == 0 || b == 0 || ShiftLeft(x, k) == 0 {
    } else {
      OrOfDisjointIsSum(x, k - 1, b / 2);
    }
  }

  lemma {:induction false} ShiftIsProduct(x: nat, k: nat)
    ensures ShiftLeft(x, k) == x * ShiftLeft(1, k)
    decreases k
  {
    if k == 0 {
    } else {
      ShiftIsProduct(x, k - 1);
    }
  }

  lemma Powers()
    ensures ShiftLeft(1, NODE_SHIFT) == 4096 && ShiftLeft(1, TIME_SHIFT) == 4194304
  {
  }

  lemma WordSize()
    ensures ShiftLeft(1, 64) == WORD
  {
    assert ShiftLeft(1, 12) == 0x1000;
    assert ShiftLeft(1, 24) == 0x100_0000;
    assert ShiftLeft(1, 36) == 0x10_0000_0000;
    assert ShiftLeft(1, 50) == 0x4_0000_0000_0000;
  }

  const WORD := 0x1_0000_0000_0000_0000

  /** The 64 bits of an integer. */
  function Word(x: int): nat {
    x % WORD
  }

  function Pack(elapsed: int, node: int, sequence: nat): nat {
    BitOr(BitOr(Word(ShiftLeft(Word(elapsed), TIME_SHIFT)), Word(ShiftLeft(Word(node), NODE_SHIFT))), sequence)
  }

  lemma {:induction false} OrFits(a: nat, b: nat, k: nat)
    requires a < ShiftLeft(1, k) && b < ShiftLeft(1, k)
    ensures BitOr(a, b) < ShiftLeft(1, k)
    decreases k
  {
    if a == 0 || b == 0 {
    } else {
      OrFits(a / 2, b / 2, k - 1);
    }
  }

  /** Whatever the clock and the node are, an id is a 64-bit word. */
  lemma IdIsAWord(elapsed: int, node: int, sequence: nat)
    requires sequence <= MAX_SEQ
    ensures Pack(elapsed, node, sequence) < WORD
  {
    WordSize();
    var t, n := Word(ShiftLeft(Word(elapsed), TIME_SHIFT)), Word(ShiftLeft(Word(node), NODE_SHIFT));
    OrFits(t, n, 64);
    OrFits(BitOr(t, n), sequence, 64);
  }

  lemma SmallWord(x: int)
    requires 0 <= x < WORD
    ensures Word(x) == x
  {
  }

  /** A shift within a word loses no bits. */
  lemma ShiftFits(x: nat, k: nat)
    requires x < WORD && ShiftLeft(x, k) < WORD
    ensures Word(ShiftLeft(Word(x), k)) == ShiftLeft(x, k)
  {
    SmallWord(x);
    SmallWord(ShiftLeft(x, k));
  }

  lemma ShiftByPower(x: nat, k: nat, power: nat)
    requires ShiftLeft(1, k) == power
    ensures ShiftLeft(x, k) == x * power
  {
    ShiftIsProduct(x, k);
  }

  /** A field below a power of two is or-ed to a multiple of it by adding. */
  lemma OrAdds(x: nat, k: nat, power: nat, b: nat)
    requires ShiftLeft(1, k) == power && b < power
    ensures BitOr(x * power, b) == x * power + b
  {
    ShiftByPower(x, k, power);
    OrOfDisjointIsSum(x, k, b);
  }

  lemma FieldFits(x: nat, k: nat, power: nat)
    requires ShiftLeft(1, k) == power && x < WORD && x * power < WORD
    ensures Word(ShiftLeft(Word(x), k)) == x * power
  {
    ShiftByPower(x, k, power);
    ShiftFits(x, k);
  }

  lemma OrTimeAndNode(elapsed: nat, node: nat, t: nat)
    requires node < NODE_LIMIT && ShiftLeft(1, t) == 4194304
    ensures BitOr(elapsed * 4194304, node * 4096) == (elapsed * 1024 + node) * 4096
  {
    OrAdds(elapsed, t, 4194304, node * 4096);
  }

  /** The sum of the shifted fields, whatever shift counts give the two powers. */
  lemma FieldsAdd(elapsed: nat, node: nat, sequence: nat, t: nat, n: nat)
    requires node < NODE_LIMIT && sequence <= MAX_SEQ
    requires ShiftLeft(1, t) == 4194304 && ShiftLeft(1, n) == 4096
    ensures BitOr(BitOr(elapsed * 4194304, node * 4096), sequence) == (elapsed * 1024 + node) * 4096 + sequence
  {
    OrTimeAndNode(elapsed, node, t);
    OrAdds(elapsed * 1024 + node, n, 4096, sequence);
  }

  /** In range, an id is the positional sum of its fields and fits in 63 bits. */
  lemma PackIsSum(elapsed: nat, node: nat, sequence: nat)
    requires elapsed < TIME_LIMIT && node < NODE_LIMIT && sequence <= MAX_SEQ
    ensures Pack(elapsed, node, sequence) == elapsed * 4194304 + node * 4096 + sequence < 0x8000_0000_0000_0000
  {
    Powers();
    FieldFits(elapsed, TIME_SHIFT, 4194304);
    FieldFits(node, NODE_SHIFT, 4096);
    FieldsAdd(elapsed, node, sequence, TIME_SHIFT, NODE_SHIFT);
  }

  function ElapsedOf(id: nat): nat { id / 4194304 }

  function NodeOf(id: nat): nat { id / 4096 % 1024 }

  function SequenceOf(id: nat): nat { id % 4096 }

  /** The three fields can be read back from an id. */
  lemma FieldsDecode(elapsed: nat, node: nat, sequence: nat)
    requires elapsed < TIME_LIMIT && node < NODE_LIMIT && sequence <= MAX_SEQ
    ensures ElapsedOf(Pack(elapsed, node, sequence)) == elapsed
    ensures NodeOf(Pack(elapsed, node, sequence)) == node
    ensures SequenceOf(Pack(elapsed, node, sequence)) == sequence
  {
    PackIsSum(elapsed, node, sequence);
    var id := Pack(elapsed, node, sequence);
    assert id / 4096 == elapsed * 1024 + node;
  }

  /** Within a node, ids are ordered by time and then by sequence. */
  lemma PackIsMonotone(e1: nat, s1: nat, e2: nat, s2: nat, node: nat)
    requires e1 < TIME_LIMIT && e2 < TIME_LIMIT && node < NODE_LIMIT && s1 <= MAX_SEQ && s2 <= MAX_SEQ
    ensures Pack(e1, node, s1) < Pack(e2, node, s2) <==> e1 < e2 || (e1 == e2 && s1 < s2)
  {
    PackIsSum(e1, node, s1);
    PackIsSum(e2, node, s2);
  }

  datatype Gen = Gen(node: int, sequence: nat, lastTime: int)

  /** The clock as one call reads it: first, and when it stops spinning. */
  datatype Reading = Reading(now: int, later: int)

  /** The sequence is masked with MAX_SEQ: it counts modulo 4096. */
  predicate Wraps(g: Gen, r: Reading) {
    r.now == g.lastTime && (g.sequence + 1) % (MAX_SEQ + 1) == 0
  }

  function After(g: Gen, r: Reading): Gen {
    if r.now != g.lastTime then Gen(g.node, 0, r.now)
    else if Wraps(g, r) then Gen(g.node, 0, r.later)
    else Gen(g.node, (g.sequence + 1) % (MAX_SEQ + 1), r.now)
  }

  /** The id a generator has produced last. */
  function IdOf(g: Gen): nat {
    Pack(g.lastTime - EPOCH, g.node, g.sequence)
  }

  predicate InRange(t: int) {
    0 <= t - EPOCH < TIME_LIMIT
  }

  /** Spinning ends past the last time, and the times read fit their field. */
  predicate Served(g: Gen, r: Reading) {
    (Wraps(g, r) ==> g.lastTime < r.later) && InRange(r.now) && InRange(r.later)
  }

  predicate Proper(g: Gen) {
    0 <= g.node < NODE_LIMIT && g.sequence <= MAX_SEQ
  }

  /** A generator that has produced an id: its time is in range. */
  predicate Used(g: Gen) {
    Proper(g) && InRange(g.lastTime)
  }

  /** The states of a generator over the calls `rs`; call `i` produces the id of state `i + 1`. */
  ghost predicate Run(gs: seq<Gen>, rs: seq<Reading>) {
    && |gs| == |rs| + 1 && Proper(gs[0])
    && forall i | 0 <= i < |rs| :: Served(gs[i], rs[i]) && gs[i + 1] == After(gs[i], rs[i])
  }

  lemma IdsAreOrdered(g: Gen, h: Gen)
    requires Used(g) && Used(h) && g.node == h.node
    ensures IdOf(g) < IdOf(h) <==> g.lastTime < h.lastTime || (g.lastTime == h.lastTime && g.sequence < h.sequence)
  {
    PackIsMonotone(g.lastTime - EPOCH, g.sequence, h.lastTime - EPOCH, h.sequence, g.node);
  }

  /** A call produces a larger id than the one before exactly when the clock has not gone back. */
  lemma NextRisesExactly(g: Gen, r: Reading)
    requires Used(g) && Served(g, r)
    ensures IdOf(g) < IdOf(After(g, r)) <==> g.lastTime <= r.now
  {
    IdsAreOrdered(g, After(g, r));
  }

  lemma {:induction false} RunIsUsed(gs: seq<Gen>, rs: seq<Reading>, i: nat)
    requires Run(gs, rs) && 0 < i < |gs|
    ensures Used(gs[i]) && gs[i].node == gs[0].node
    decreases i
  {
    if i == 1 {
      assert gs[1] == After(gs[0], rs[0]);
    } else {
      RunIsUsed(gs, rs, i - 1);
      assert gs[i - 1 + 1] == After(gs[i - 1], rs[i - 1]);
    }
  }

  ghost predicate Rising(gs: seq<Gen>) {
    forall i, j | 0 < i < j < |gs| :: IdOf(gs[i]) < IdOf(gs[j])
  }

  /** No call after the first reads a time before the last one used. */
  ghost predicate NeverBack(gs: seq<Gen>, rs: seq<Reading>)
    requires |gs| == |rs| + 1
  {
    forall i | 0 < i < |rs| :: gs[i].lastTime <= rs[i].now
  }

  lemma {:induction false} ForwardRises(gs: seq<Gen>, rs: seq<Reading>, i: nat, j: nat)
    requires Run(gs, rs) && NeverBack(gs, rs) && 0 < i < j < |gs|
    ensures IdOf(gs[i]) < IdOf(gs[j])
    decreases j
  {
    RunIsUsed(gs, rs, j - 1);
    NextRisesExactly(gs[j - 1], rs[j - 1]);
    assert gs[j - 1 + 1] == After(gs[j - 1], rs[j - 1]);
    if i == j - 1 {
    } else {
      ForwardRises(gs, rs, i, j - 1);
    }
  }

  /** The ids of a run rise exactly when its clock never goes back. */
  lemma IdsRiseExactly(gs: seq<Gen>, rs: seq<Reading>)
    requires Run(gs, rs)
    ensures Rising(gs) <==> NeverBack(gs, rs)
  {
    if NeverBack(gs, rs) {
      forall i, j | 0 < i < j < |gs|
        ensures IdOf(gs[i]) < IdOf(gs[j])
      {
        ForwardRises(gs, rs, i, j);
      }
    }
    if Rising(gs) {
      forall i | 0 < i < |rs|
        ensures gs[i].lastTime <= rs[i].now
      {
        RunIsUsed(gs, rs, i);
        NextRisesExactly(gs[i], rs[i]);
        assert gs[i + 1] == After(gs[i], rs[i]);
      }
    }
  }

  ghost predicate Distinct(gs: seq<Gen>) {
    forall i, j | 0 < i < j < |gs| :: IdOf(gs[i]) != IdOf(gs[j])
  }

  /** No millisecond is left and come back to. */
  ghost predicate NoReturn(gs: seq<Gen>) {
    forall i, k, j | 0 < i < k < j < |gs| && gs[i].lastTime == gs[j].lastTime :: gs[k].lastTime == gs[i].lastTime
  }

  lemma SameIdExactly(g: Gen, h: Gen)
    requires Used(g) && Used(h) && g.node == h.node
    ensures IdOf(g) == IdOf(h) <==> g == h
  {
    FieldsDecode(g.lastTime - EPOCH, g.node, g.sequence);
    FieldsDecode(h.lastTime - EPOCH, h.node, h.sequence);
  }

  /** Within one visit to a millisecond the sequence counts the calls. */
  lemma {:induction false} StayCounts(gs: seq<Gen>, rs: seq<Reading>, i: nat, j: nat)
    requires Run(gs, rs) && 0 < i <= j < |gs|
    requires forall k | i <= k <= j :: gs[k].lastTime == gs[i].lastTime
    ensures gs[j].sequence == gs[i].sequence + (j - i)
    decreases j
  {
    if i == j {
    } else {
      StayCounts(gs, rs, i, j - 1);
      RunIsUsed(gs, rs, j - 1);
      assert gs[j - 1 + 1] == After(gs[j - 1], rs[j - 1]);
    }
  }

  /** Every visit of a fresh generator starts with sequence 0. */
  lemma {:induction false} VisitStart(gs: seq<Gen>, rs: seq<Reading>, j: nat) returns (a: nat)
    requires Run(gs, rs) && gs[0].lastTime < EPOCH && 0 < j < |gs|
    ensures 0 < a <= j && gs[a].sequence == 0
    ensures forall k | a <= k <= j :: gs[k].lastTime == gs[j].lastTime
    decreases j
  {
    assert gs[j - 1 + 1] == After(gs[j - 1], rs[j - 1]);
    if gs[j].sequence == 0 {
      a := j;
    } else {
      a := VisitStart(gs, rs, j - 1);
    }
  }

  lemma ReturnRepeats(gs: seq<Gen>, rs: seq<Reading>, i: nat, k: nat, j: nat)
    requires Run(gs, rs) && gs[0].lastTime < EPOCH && 0 < i < k < j < |gs|
    requires gs[i].lastTime == gs[j].lastTime != gs[k].lastTime
    ensures !Distinct(gs)
  {
    var a := VisitStart(gs, rs, i);
    var b := VisitStart(gs, rs, j);
    assert a < b;
    RunIsUsed(gs, rs, a);
    RunIsUsed(gs, rs, b);
    assert gs[a] == gs[b];
  }

  /** The ids of a fresh generator are distinct exactly when its clock never returns to a millisecond. */
  lemma IdsDistinctExactly(gs: seq<Gen>, rs: seq<Reading>)
    requires Run(gs, rs) && gs[0].lastTime < EPOCH
    ensures Distinct(gs) <==> NoReturn(gs)
  {
    if i, k, j :| 0 < i < k < j < |gs| && gs[i].lastTime == gs[j].lastTime && gs[k].lastTime != gs[i].lastTime {
      ReturnRepeats(gs, rs, i, k, j);
    }
    if NoReturn(gs) {
      forall i, j | 0 < i < j < |gs|
        ensures IdOf(gs[i]) != IdOf(gs[j])
      {
        RunIsUsed(gs, rs, i);
        RunIsUsed(gs, rs, j);
        SameIdExactly(gs[i], gs[j]);
        if gs[i] == gs[j] { StayCounts(gs, rs, i, j); }
      }
    }
  }

  /** Generators with different nodes never produce the same id, whatever their clocks do. */
  lemma NodesNeverCollide(gs: seq<Gen>, rs: seq<Reading>, hs: seq<Gen>, qs: seq<Reading>, i: nat, j: nat)
    requires Run(gs, rs) && Run(hs, qs) && gs[0].node != hs[0].node && 0 < i < |gs| && 0 < j < |hs|
    ensures IdOf(gs[i]) != IdOf(hs[j])
  {
    RunIsUsed(gs, rs, i);
    RunIsUsed(hs, qs, j);
    FieldsDecode(gs[i].lastTime - EPOCH, gs[i].node, gs[i].sequence);
    FieldsDecode(hs[j].lastTime - EPOCH, hs[j].node, hs[j].sequence);
  }

  /** A clock that steps back by one reading repeats an id. */
  lemma BackwardClockRepeats(node: nat, t: int) returns (gs: seq<Gen>, rs: seq<Reading>)
    requires node < NODE_LIMIT && InRange(t) && InRange(t + 1)
    ensures Run(gs, rs) && gs[0] == Gen(node, 0, 0)
    ensures rs == [Reading(t, t), Reading(t + 1, t + 1), Reading(t, t)] && IdOf(gs[1]) == IdOf(gs[3])
  {
    rs := [Reading(t, t), Reading(t + 1, t + 1), Reading(t, t)];
    gs := [Gen(node, 0, 0), Gen(node, 0, t), Gen(node, 0, t + 1), Gen(node, 0, t)];
  }

  /** An id from its parts, in 64-bit arithmetic. */
  method Compose(now: int, node: int, sequence: nat) returns (id: nat)
    ensures id == IdOf(Gen(node, sequence, now))
    ensures 0 <= node < 1024 && sequence < 4096 && 0 <= now - 1735689600000 < 0x200_0000_0000 ==>
              id == (now - 1735689600000) * 4194304 + node * 4096 + sequence
  {
    var high := BitOr(Word(ShiftLeft(Word(now - EPOCH), TIME_SHIFT)), Word(ShiftLeft(Word(node), NODE_SHIFT)));
    id := BitOr(high, sequence);
    if 0 <= node < NODE_LIMIT && sequence <= MAX_SEQ && InRange(now) {
      PackIsSum(now - EPOCH, node, sequence);
    }
  }

  class Generator {
    const nodeID: int
    var sequence: nat
    var lastTime: int

    function View(): Gen
      reads this
    {
      Gen(nodeID, sequence, lastTime)
    }

    constructor (nodeID: int)
      ensures View() == Gen(nodeID, 0, 0)
    {
      this.nodeID, sequence, lastTime := nodeID, 0, 0;
    }

    /** `clock` holds the successive clock values; if the sequence is used up, one of them is past the last time. */
    method Next(clock: seq<int>) returns (id: nat, used: nat)
      requires clock != []
      requires Wraps(View(), Reading(clock[0], clock[0])) ==> clock[|clock| - 1] > lastTime
      modifies this
      ensures 0 < used <= |clock|
      ensures View() == After(old(View()), Reading(clock[0], clock[used - 1])) && id == IdOf(View())
      ensures old(sequence) < 4096 ==>
                sequence == if clock[0] == old(lastTime) && old(sequence) < 4095 then old(sequence) + 1 else 0
      ensures clock[0] != old(lastTime) || old(sequence) < 4095 ==> lastTime == clock[0]
      ensures 0 <= nodeID < 1024 && 0 <= lastTime - 1735689600000 < 0x200_0000_0000 ==>
                id == (lastTime - 1735689600000) * 4194304 + nodeID * 4096 + sequence
      ensures Wraps(old(View()), Reading(clock[0], clock[0])) ==>
                clock[used - 1] > old(lastTime) && forall i | 0 <= i < used - 1 :: clock[i] <= old(lastTime)
    {
      used := 1;
      var now := clock[0];
      if now == lastTime {
        sequence := (sequence + 1) % (MAX_SEQ + 1);
        if sequence == 0 {
          while now <= lastTime
            invariant 0 < used <= |clock| && now == clock[used - 1]
            invariant forall i | 0 <= i < used - 1 :: clock[i] <= lastTime
            decreases |clock| - used
          {
            now := clock[used];
            used := used + 1;
          }
        }
      } else {
        sequence := 0;
      }
      lastTime := now;
      id := Compose(now, nodeID, sequence);
    }
  }
}
