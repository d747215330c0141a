/**
 Merging of streamed tool-call fragments (llm/provider/openai/stream.go). The cache maps a
 tool-call index to the call assembled so far; what a chunk emits is the cache, in any order.
 */
module StreamMerge {
  import opened Options

  /** The position of a tool call in the response. */
  datatype Index = Index(position: int)

  datatype Delta = Delta(index: Option<Index>, id: string, kind: string, name: string, arguments: string)

  datatype ToolCall = ToolCall(id: string, kind: string, name: string, arguments: string)

  type Cache = map<Index, ToolCall>

  function MergeOne(cache: Cache, d: Delta): Cache {
    match d.index
    case None => cache
    case Some(i) =>
      if i !in cache then cache[i := ToolCall(d.id, d.kind, d.name, d.arguments)]
      else
        var c := cache[i];
        cache[i := c.(id := if d.id != "" then d.id else c.id,
                      name := c.name + d.name,
                      arguments := c.arguments + d.arguments)]
  }

  function MergeAll(cache: Cache, ds: seq<Delta>): Cache {
    if ds == [] then cache else MergeOne(MergeAll(cache, ds[..|ds| - 1]), ds[|ds| - 1])
  }

  // ---------------------------------------------------------------- what the cache holds

  /** The fragments of one index, in arrival order. */
  function Fragments(ds: seq<Delta>, i: Index): seq<Delta> {
    if ds == [] then []
    else Fragments(ds[..|ds| - 1], i) + (if ds[|ds| - 1].index == Some(i) then [ds[|ds| - 1]] else [])
  }

  function Names(ds: seq<Delta>): string {
    if ds == [] then "" else Names(ds[..|ds| - 1]) + ds[|ds| - 1].name
  }

  function Arguments(ds: seq<Delta>): string {
    if ds == [] then "" else Arguments(ds[..|ds| - 1]) + ds[|ds| - 1].arguments
  }

  function LastId(ds: seq<Delta>): string {
    if ds == [] then "" else if ds[|ds| - 1].id != "" then ds[|ds| - 1].id else LastId(ds[..|ds| - 1])
  }

  /** The call a non-empty list of fragments describes. */
  function Assembled(fs: seq<Delta>): ToolCall
    requires fs != []
  {
    ToolCall(LastId(fs), fs[0].kind, Names(fs), Arguments(fs))
  }

  /** The cache agrees with the fragments of one index. */
  predicate FoldAt(cache: Cache, fs: seq<Delta>, i: Index) {
    if fs == [] then i !in cache else i in cache && cache[i] == Assembled(fs)
  }

  /** The cache is, index by index, the fold of the deltas. */
  ghost predicate IsFold(cache: Cache, ds: seq<Delta>) {
    forall i :: FoldAt(cache, Fragments(ds, i), i)
  }

  /** Names and arguments of a list of fragments are put together piece by piece, whatever the pieces. */
  lemma {:induction false} PiecesJoin(a: seq<Delta>, b: seq<Delta>)
    ensures Names(a + b) == Names(a) + Names(b) && Arguments(a + b) == Arguments(a) + Arguments(b)
    decreases |b|
  {
    if b == [] {
      assert a + b == a;
    } else {
      var init := b[..|b| - 1];
      assert (a + b)[..|a + b| - 1] == a + init;
      PiecesJoin(a, init);
    }
  }

  /** The id is that of the last fragment that has one. */
  lemma {:induction false} LastIdIsLast(ds: seq<Delta>, k: nat)
    requires k < |ds| && ds[k].id != "" && forall j | k < j < |ds| :: ds[j].id == ""
    ensures LastId(ds) == ds[k].id
    decreases |ds|
  {
    if k == |ds| - 1 {
    } else {
      LastIdIsLast(ds[..|ds| - 1], k);
    }
  }

  /** A call that comes in three pieces: the id and type once, the name in two halves, the arguments bit by bit. */
  lemma ThreePieces(i: Index, id: string, kind: string, a: string, b: string, x: string, y: string)
    requires id != ""
    ensures var ds := [Delta(Some(i), id, kind, a, ""), Delta(Some(i), "", "", b, x), Delta(Some(i), "", "", "", y)];
            MergeAll(map[], ds) == map[i := ToolCall(id, kind, a + b, x + y)]
  {
    var d0, d1, d2 := Delta(Some(i), id, kind, a, ""), Delta(Some(i), "", "", b, x), Delta(Some(i), "", "", "", y);
    var ds := [d0, d1, d2];
    assert [d0][..0] == [] && [d0, d1][..1] == [d0] && ds[..2] == [d0, d1];
    assert MergeAll(map[], [d0]) == MergeOne(map[], d0);
    assert MergeAll(map[], [d0, d1]) == MergeOne(MergeAll(map[], [d0]), d1);
    assert MergeAll(map[], ds) == MergeOne(MergeAll(map[], [d0, d1]), d2);
    assert a + b + "" == a + b && "" + x + y == x + y;
  }

  lemma FirstFragment(d: Delta)
    ensures Assembled([d]) == ToolCall(d.id, d.kind, d.name, d.arguments)
  {
    var fs := [d];
    assert fs[..|fs| - 1] == [];
    assert Names(fs) == "" + d.name == d.name;
    assert Arguments(fs) == "" + d.arguments == d.arguments;
    assert LastId(fs) == d.id;
  }

  lemma NextFragment(fs: seq<Delta>, d: Delta)
    requires fs != []
    ensures Assembled(fs + [d])
            == ToolCall(if d.id != "" then d.id else LastId(fs), fs[0].kind,
                        Names(fs) + d.name, Arguments(fs) + d.arguments)
  {
  }

  lemma FragmentsGrow(init: seq<Delta>, d: Delta, i: Index)
    ensures Fragments(init + [d], i) == Fragments(init, i) + if d.index == Some(i) then [d] else []
  {
  }

  lemma FoldGrows(cache: Cache, fs: seq<Delta>, d: Delta, i: Index)
    requires FoldAt(cache, fs, i) && d.index == Some(i)
    ensures FoldAt(MergeOne(cache, d), fs + [d], i)
  {
    if fs == [] {
      assert fs + [d] == [d];
      FirstFragment(d);
    } else {
      NextFragment(fs, d);
    }
  }

  /** After any deltas, the cache holds for each index exactly the fold of its fragments. */
  lemma {:induction false} CacheIsFold(ds: seq<Delta>)
    ensures IsFold(MergeAll(map[], ds), ds)
    decreases |ds|
  {
    if ds == [] {
    } else {
      var init, d := ds[..|ds| - 1], ds[|ds| - 1];
      assert ds == init + [d];
      CacheIsFold(init);
      var before, after := MergeAll(map[], init), MergeAll(map[], ds);
      forall i
        ensures FoldAt(after, Fragments(ds, i), i)
      {
        var fs := Fragments(init, i);
        assert FoldAt(before, fs, i);
        FragmentsGrow(init, d, i);
        if d.index == Some(i) {
          FoldGrows(before, fs, d, i);
        } else {
          assert fs + [] == fs;
        }
      }
    }
  }

  // ---------------------------------------------------------------- chunking

  lemma {:induction false} MergeInTwoParts(cache: Cache, a: seq<Delta>, b: seq<Delta>)
    ensures MergeAll(MergeAll(cache, a), b) == MergeAll(cache, a + b)
    decreases |b|
  {
    if b == [] {
      assert a + b == a;
    } else {
      assert (a + b)[..|a + b| - 1] == a + b[..|b| - 1];
      MergeInTwoParts(cache, a, b[..|b| - 1]);
    }
  }

  /** The calls of a cache, each once per index. */
  ghost function Calls(cache: Cache): multiset<ToolCall> {
    if cache == map[] then multiset{} else
      var i :| i in cache;
      multiset{cache[i]} + Calls(cache - {i})
  }

  /** Any entry may be listed first. */
  lemma {:induction false} CallsInAnyOrder(cache: Cache, i: Index)
    requires i in cache
    ensures Calls(cache) == multiset{cache[i]} + Calls(cache - {i})
    decreases cache.Keys
  {
    var j :| j in cache && Calls(cache) == multiset{cache[j]} + Calls(cache - {j});
    if i == j {
    } else {
      var ci, cj := cache - {i}, cache - {j};
      assert ci - {j} == cj - {i} && ci[j] == cache[j] && cj[i] == cache[i];
      CallsInAnyOrder(cj, i);
      CallsInAnyOrder(ci, j);
    }
  }

  class ToolCallCache {
    var cache: Cache

    constructor ()
      ensures cache == map[]
    {
      cache := map[];
    }

    method Merge(deltas: seq<Delta>) returns (result: seq<ToolCall>)
      modifies this
      ensures cache == MergeAll(old(cache), deltas) && multiset(result) == Calls(cache)
    {
      for n := 0 to |deltas|
        invariant cache == MergeAll(old(cache), deltas[..n])
      {
        var d := deltas[n];
        assert deltas[..n + 1][..n] == deltas[..n];
        if d.index.Some? {
          var i := d.index.value;
          if i !in cache {
            cache := cache[i := ToolCall("", d.kind, d.name, d.arguments)];
            if d.id != "" {
              cache := cache[i := cache[i].(id := d.id)];
            }
          } else {
            assert d.name == "" ==> cache[i].name + d.name == cache[i].name;
            assert d.arguments == "" ==> cache[i].arguments + d.arguments == cache[i].arguments;
            if d.id != "" {
              cache := cache[i := cache[i].(id := d.id)];
            }
            if d.name != "" {
              cache := cache[i := cache[i].(name := cache[i].name + d.name)];
            }
            if d.arguments != "" {
              cache := cache[i := cache[i].(arguments := cache[i].arguments + d.arguments)];
            }
          }
        }
      }
      assert deltas[..|deltas|] == deltas;
      result := Flush();
    }

    /** Lists the cache; despite its name the cache is kept. */
    method Flush() returns (result: seq<ToolCall>)
      ensures multiset(result) == Calls(cache)
    {
      result := [];
      var left := cache;
      while left != map[]
        invariant left.Keys <= cache.Keys && forall i | i in left :: left[i] == cache[i]
        invariant multiset(result) + Calls(left) == Calls(cache)
        decreases left.Keys
      {
        var i :| i in left;
        CallsInAnyOrder(left, i);
        result := result + [cache[i]];
        left := left - {i};
      }
    }
  }

  /** A streamed response: its deltas, and whether it ends with finish reason tool_calls. */
  datatype Response = Response(deltas: seq<Delta>, finished: bool)

  function DeltasOf(responses: seq<Response>): seq<Delta> {
    if responses == [] then [] else DeltasOf(responses[..|responses| - 1]) + responses[|responses| - 1].deltas
  }

  /** Everything received up to and including response `k - 1`, merged. */
  function MergedUpTo(responses: seq<Response>, k: nat): Cache
    requires k <= |responses|
  {
    MergeAll(map[], DeltasOf(responses[..k]))
  }

  /** A chunk with deltas, and the finishing one, carries all calls assembled up to it; any other carries none. */
  ghost predicate Carries(calls: seq<ToolCall>, responses: seq<Response>, k: nat)
    requires k < |responses|
  {
    if responses[k].deltas == [] && !responses[k].finished then calls == []
    else multiset(calls) == Calls(MergedUpTo(responses, k + 1))
  }

  /** A chunk of text carries no calls; one with deltas, or the finishing one, those of all deltas so far. */
  lemma ChunkContents(calls: seq<ToolCall>, responses: seq<Response>, k: nat)
    requires k < |responses| && Carries(calls, responses, k)
    ensures responses[k].deltas == [] && !responses[k].finished ==> calls == []
    ensures responses[k].deltas != [] || responses[k].finished ==>
              multiset(calls) == Calls(MergeAll(map[], DeltasOf(responses[..k] + [responses[k]])))
  {
    assert responses[..k + 1] == responses[..k] + [responses[k]];
  }

  lemma MergedGrows(responses: seq<Response>, k: nat)
    requires k < |responses|
    ensures MergedUpTo(responses, k + 1) == MergeAll(MergedUpTo(responses, k), responses[k].deltas)
  {
    assert responses[..k + 1][..k] == responses[..k];
    MergeInTwoParts(map[], DeltasOf(responses[..k]), responses[k].deltas);
  }

  /** What the handler is called with. */
  datatype Handed = Chunk(calls: seq<ToolCall>) | Done | Error

  /**
   The responses are followed by the end of the stream if `eof`, else by an error. `wants(k)` is the
   handler's answer to its k-th call: it gets every response, merged, and then the end, until it refuses.
   */
  method HandleStream(responses: seq<Response>, eof: bool, wants: nat -> bool)
    returns (handed: seq<Handed>, failed: bool)
    ensures 0 < |handed| <= |responses| + 1
    ensures forall k | 0 <= k < |handed| - 1 :: wants(k)
    ensures forall k | 0 <= k < |handed| && k < |responses| ::
              handed[k].Chunk? && Carries(handed[k].calls, responses, k)
    ensures if |handed| <= |responses| then !wants(|handed| - 1)
            else handed[|responses|] == if eof then Done else Error
    ensures failed <==> |handed| > |responses| && !eof && wants(|responses|)
  {
    var cache := new ToolCallCache();
    handed := [];
    for n := 0 to |responses|
      invariant |handed| == n && cache.cache == MergedUpTo(responses, n)
      invariant forall k | 0 <= k < n :: wants(k) && handed[k].Chunk? && Carries(handed[k].calls, responses, k)
    {
      MergedGrows(responses, n);
      var calls := [];
      if responses[n].deltas != [] {
        calls := cache.Merge(responses[n].deltas);
      }
      if responses[n].finished {
        calls := cache.Flush();
      }
      assert Carries(calls, responses, n);
      handed := handed + [Chunk(calls)];
      if !wants(n) {
        return handed, false;
      }
    }
    handed := handed + [if eof then Done else Error];
    failed := !eof && wants(|responses|);
  }

  /** However the same deltas are cut into chunks, the finishing chunk carries the same calls, up to order. */
  lemma {:induction false} ChunkingIsIrrelevant(
    rs: seq<Response>, qs: seq<Response>, a: seq<ToolCall>, b: seq<ToolCall>)
    requires rs != [] && qs != [] && DeltasOf(rs) == DeltasOf(qs)
    requires rs[|rs| - 1].finished && Carries(a, rs, |rs| - 1)
    requires qs[|qs| - 1].finished && Carries(b, qs, |qs| - 1)
    ensures multiset(a) == multiset(b) == Calls(MergeAll(map[], DeltasOf(rs)))
    ensures IsFold(MergeAll(map[], DeltasOf(rs)), DeltasOf(rs))
  {
    assert rs[..|rs|] == rs && qs[..|qs|] == qs;
    CacheIsFold(DeltasOf(rs));
  }
}
