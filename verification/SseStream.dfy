/**
 Snapshot and tail of a message stream kept in memory (apis/sseclient/memory.go and the
 BlockRead loop of apis/sseclient/client.go). Message ids are list positions in decimal.
 */
module SseStream {
  import opened Options
  import opened Decimal

  datatype Item = Item(list: seq<string>, expired: int)

  const MAX_INT := 0x7fff_ffff_ffff_ffff

  /** strconv.Atoi with its error ignored: what is not a numeral reads as zero, what is too large as the bound. */
  function Atoi(s: string): int {
    if IsNumeral(s) then Clamped(Value(s))
    else if s != [] && s[0] == '-' && IsNumeral(s[1..]) then Clamped(0 - Value(s[1..]))
    else if s != [] && s[0] == '+' && IsNumeral(s[1..]) then Clamped(Value(s[1..]))
    else 0
  }

  function Clamped(n: int): int {
    if n > MAX_INT then MAX_INT else if n < -MAX_INT - 1 then -MAX_INT - 1 else n
  }

  /** Numerals are read back with or without a sign; what is out of range becomes the bound. */
  lemma AtoiReadsBack(n: nat)
    ensures Atoi(Itoa(n)) == Atoi("+" + Itoa(n)) == if n <= MAX_INT then n else MAX_INT
    ensures Atoi("-" + Itoa(n)) == if n <= MAX_INT + 1 then 0 - n else -MAX_INT - 1
    ensures Atoi("") == 0
  {
    assert ("+" + Itoa(n))[1..] == Itoa(n) && ("-" + Itoa(n))[1..] == Itoa(n);
  }

  /** The position after `id`; the largest integer wraps around. */
  function Following(id: string): int {
    if Atoi(id) == MAX_INT then -MAX_INT - 1 else Atoi(id) + 1
  }

  /** The id ReadMessages returns with a list. */
  function SnapshotId(list: seq<string>): string {
    if list == [] then "" else Itoa(|list| - 1)
  }

  /** What a read finds; a negative position is an index out of range. */
  datatype Found = Nothing | Message(id: string, text: string) | IndexPanic

  /** The message after `id`, with its own id; a stream that is not there has no messages. */
  function ReadAfter(list: seq<string>, id: string): Found {
    var next := Following(id);
    if list == [] || next >= |list| then Nothing
    else if next < 0 then IndexPanic
    else Message(Itoa(next), list[next])
  }

  /** Reading after an id panics exactly for a negative one other than -1, and for the largest integer and beyond. */
  lemma PanicsExactly(list: seq<string>, id: string)
    requires list != [] && |list| <= MAX_INT
    ensures ReadAfter(list, id) == IndexPanic <==> Atoi(id) < -1 || Atoi(id) == 0x7fff_ffff_ffff_ffff
  {
  }

  function WriteKey(streamId: string): string {
    "stream_write:" + streamId
  }

  function StopKey(streamId: string): string {
    "stream_stop:" + streamId
  }

  /** Reading a stream drops it if it has expired. */
  function WithoutExpired(dataMap: map<string, Item>, key: string, now: int): map<string, Item> {
    if key in dataMap && now > dataMap[key].expired then dataMap - {key} else dataMap
  }

  /** The streams after messages have been appended to one of them. */
  function Appended(dataMap: map<string, Item>, key: string, msgs: seq<string>, expired: int): map<string, Item> {
    if msgs == [] then dataMap
    else dataMap[key := Item((if key in dataMap then dataMap[key].list else []) + msgs, expired)]
  }

  lemma AppendedMore(dataMap: map<string, Item>, key: string, msgs: seq<string>, msg: string, expired: int)
    ensures Appended(Appended(dataMap, key, msgs, expired), key, [msg], expired)
            == Appended(dataMap, key, msgs + [msg], expired)
  {
    if msgs == [] {
      assert msgs + [msg] == [msg];
    } else {
      var list := if key in dataMap then dataMap[key].list else [];
      assert list + msgs + [msg] == list + (msgs + [msg]);
    }
  }

  /** What a reader finds of a stream. */
  function Visible(dataMap: map<string, Item>, key: string, now: int): seq<string> {
    if key in dataMap && now <= dataMap[key].expired then dataMap[key].list else []
  }

  class MemoryCache {
    var dataMap: map<string, Item>

    /** A stream comes into being with its first message. */
    predicate Valid()
      reads this
    {
      forall k | k in dataMap :: dataMap[k].list != []
    }

    constructor ()
      ensures Valid() && dataMap == map[]
    {
      dataMap := map[];
    }

    /** Appends, and moves the expiry; an expired list that nobody has read is continued. */
    method WriteMessage(key: string, msg: string, expiration: int, now: int)
      requires Valid()
      modifies this
      ensures Valid()
      ensures var list := if key in old(dataMap) then old(dataMap)[key].list else [];
              dataMap == old(dataMap)[key := Item(list + [msg], now + expiration)]
    {
      var list := if key in dataMap then dataMap[key].list else [];
      list := list + [msg];
      dataMap := dataMap[key := Item(list, now + expiration)];
    }

    method ReadMessages(key: string, now: int) returns (id: string, messages: seq<string>)
      requires Valid()
      modifies this
      ensures Valid()
      ensures if key in old(dataMap) && now <= old(dataMap)[key].expired
              then messages == old(dataMap)[key].list && id == Itoa(|messages| - 1)
              else messages == [] && id == ""
      ensures dataMap == WithoutExpired(old(dataMap), key, now)
    {
      if key !in dataMap {
        return "", [];
      }
      if dataMap[key].expired < now {
        dataMap := dataMap - {key};
        return "", [];
      }
      var n := |dataMap[key].list|;
      messages := dataMap[key].list;
      id := Itoa(n - 1);
    }

    method ReadAfterID(key: string, id: string, now: int) returns (r: Found)
      requires Valid()
      modifies this
      ensures Valid()
      ensures r == if key in old(dataMap) && now <= old(dataMap)[key].expired
                   then ReadAfter(old(dataMap)[key].list, id) else Nothing
      ensures dataMap == WithoutExpired(old(dataMap), key, now)
    {
      if key !in dataMap {
        return Nothing;
      }
      if dataMap[key].expired < now {
        dataMap := dataMap - {key};
        return Nothing;
      }
      var n := |dataMap[key].list|;
      var next := Following(id);
      if next >= n {
        return Nothing;
      }
      if next < 0 {
        return IndexPanic;
      }
      r := Message(Itoa(next), dataMap[key].list[next]);
    }

    /** Several messages in a row. */
    method WriteAll(key: string, msgs: seq<string>, expiration: int, now: int)
      requires Valid()
      modifies this
      ensures Valid() && dataMap == Appended(old(dataMap), key, msgs, now + expiration)
    {
      for n := 0 to |msgs|
        invariant Valid() && dataMap == Appended(old(dataMap), key, msgs[..n], now + expiration)
      {
        assert msgs[..n + 1] == msgs[..n] + [msgs[n]];
        AppendedMore(old(dataMap), key, msgs[..n], msgs[n], now + expiration);
        WriteMessage(key, msgs[n], expiration, now);
      }
      assert msgs[..|msgs|] == msgs;
    }

    /** Sets the stop signal, which goes to another map, and drops the stream. */
    method Stop(streamId: string)
      requires Valid()
      modifies this
      ensures Valid() && dataMap == old(dataMap) - {WriteKey(streamId)}
    {
      dataMap := dataMap - {WriteKey(streamId)};
    }

    /** Asked for a stop signal, it looks among the streams, where there is none. */
    method Exist(key: string) returns (found: bool)
      ensures found <==> key in dataMap
      ensures StreamsOnly(dataMap.Keys) && (exists id :: key == StopKey(id)) ==> !found
    {
      found := key in dataMap;
      if id :| key == StopKey(id) && StreamsOnly(dataMap.Keys) {
        StopIsNeverSeen(dataMap.Keys, id);
      }
    }
  }

  /** Clients write only under the keys of streams. */
  ghost predicate StreamsOnly(keys: set<string>) {
    forall k | k in keys :: exists id :: k == WriteKey(id)
  }

  lemma KeysDiffer(a: string, b: string)
    ensures WriteKey(a) != StopKey(b)
  {
    assert WriteKey(a)[7] != StopKey(b)[7];
  }

  /** The key of a stop signal is never the key of a stream, so nobody sees a stop. */
  lemma StopIsNeverSeen(keys: set<string>, streamId: string)
    requires StreamsOnly(keys)
    ensures StopKey(streamId) !in keys
  {
    forall id
      ensures WriteKey(id) != StopKey(streamId)
    {
      KeysDiffer(id, streamId);
    }
  }

  /** The lists a reader sees poll after poll while writers append. */
  ghost predicate Growing(feed: seq<seq<string>>) {
    forall i, j | 0 <= i <= j < |feed| :: feed[i] <= feed[j]
  }

  /** Why BlockRead returns, or does not. The bytes of a message that fails at the flush have gone out. */
  datatype Ending = GaveUp | ContextDone | WriteFailed(msg: string) | Panicked

  /** A poll that finds no message at position `next`. */
  predicate Dry(list: seq<string>, next: int) {
    list == [] || next >= |list|
  }

  /** `piece` stands in `list` from position `start` on. */
  predicate Piece(list: seq<string>, start: int, piece: seq<string>) {
    0 <= start && start + |piece| <= |list| && piece == list[start..start + |piece|]
  }

  /** The `i`-th message sent stood at position `start + i` of some polled list. */
  ghost predicate SentFrom(feed: seq<seq<string>>, polls: nat, start: int, sent: seq<string>) {
    polls <= |feed| && forall i | 0 <= i < |sent| :: FoundAt(feed, polls, start + i, sent[i])
  }

  ghost predicate FoundAt(feed: seq<seq<string>>, polls: nat, position: int, msg: string)
    requires polls <= |feed|
  {
    exists k | 0 <= k < polls :: Piece(feed[k], position, [msg])
  }

  lemma FoundAtGrows(feed: seq<seq<string>>, polls: nat, start: int, sent: seq<string>)
    requires polls < |feed| && SentFrom(feed, polls, start, sent)
    ensures SentFrom(feed, polls + 1, start, sent)
  {
    forall i | 0 <= i < |sent|
      ensures FoundAt(feed, polls + 1, start + i, sent[i])
    {
      assert FoundAt(feed, polls, start + i, sent[i]);
    }
  }

  lemma SentGrows(feed: seq<seq<string>>, polls: nat, start: int, sent: seq<string>, msg: string)
    requires 0 < polls <= |feed| && SentFrom(feed, polls, start, sent)
    requires Piece(feed[polls - 1], start + |sent|, [msg])
    ensures SentFrom(feed, polls, start, sent + [msg])
  {
    assert FoundAt(feed, polls, start + |sent|, msg);
    forall i | 0 <= i < |sent| + 1
      ensures FoundAt(feed, polls, start + i, (sent + [msg])[i])
    {
      assert i < |sent| ==> FoundAt(feed, polls, start + i, sent[i]);
    }
  }

  /** What is sent from a growing stream is a contiguous piece of it as the last poll finds it. */
  lemma SentIsAPiece(feed: seq<seq<string>>, polls: nat, start: int, sent: seq<string>)
    requires Growing(feed) && SentFrom(feed, polls, start, sent) && sent != []
    ensures 0 < polls <= |feed| && Piece(feed[polls - 1], start, sent)
  {
    assert FoundAt(feed, polls, start + 0, sent[0]);
    var last := feed[polls - 1];
    forall i | 0 <= i < |sent|
      ensures 0 <= start + i < |last| && last[start + i] == sent[i]
    {
      assert FoundAt(feed, polls, start + i, sent[i]);
      var k :| 0 <= k < polls && Piece(feed[k], start + i, [sent[i]]);
      assert feed[k] <= last && feed[k][start + i] == [sent[i]][0];
    }
    var n := |sent| - 1;
    assert last[start + n] == sent[n];
  }

  /** Before a poll at time `now` writers append some messages. */
  datatype Turn = Turn(arrivals: seq<string>, now: int)

  function AfterTurn(dataMap: map<string, Item>, key: string, turn: Turn, expiration: int): map<string, Item> {
    Appended(dataMap, key, turn.arrivals, turn.now + expiration)
  }

  /** The stream as poll after poll finds it. */
  function Feed(dataMap: map<string, Item>, key: string, turns: seq<Turn>, expiration: int): (feed: seq<seq<string>>)
    ensures |feed| == |turns|
    decreases |turns|
  {
    if turns == [] then [] else
      var d := AfterTurn(dataMap, key, turns[0], expiration);
      [Visible(d, key, turns[0].now)] + Feed(WithoutExpired(d, key, turns[0].now), key, turns[1..], expiration)
  }

  /** The polls from the `k`-th on find the rest of the feed. */
  ghost predicate FeedFrom(
    dataMap: map<string, Item>, key: string, turns: seq<Turn>, expiration: int, feed: seq<seq<string>>, k: nat)
  {
    k <= |turns| == |feed| && Feed(dataMap, key, turns[k..], expiration) == feed[k..]
  }

  /** One poll of the cache, told by positions: a message's id leads to the position after it. */
  method Poll(
    cache: MemoryCache, key: string, turns: seq<Turn>, k: nat, expiration: int, id: string,
    ghost feed: seq<seq<string>>)
    returns (found: Found)
    requires cache.Valid() && k < |turns| == |feed| && |feed[k]| <= MAX_INT
    requires FeedFrom(cache.dataMap, key, turns, expiration, feed, k)
    modifies cache
    ensures cache.Valid() && FeedFrom(cache.dataMap, key, turns, expiration, feed, k + 1)
    ensures found.Nothing? <==> Dry(feed[k], Following(id))
    ensures found.IndexPanic? <==> feed[k] != [] && Following(id) < 0
    ensures found.Message? ==> Piece(feed[k], Following(id), [found.text]) && Following(found.id) == Following(id) + 1
  {
    FeedStep(cache.dataMap, key, turns, expiration, feed, k);
    ReadByPosition(feed[k], id);
    cache.WriteAll(key, turns[k].arrivals, expiration, turns[k].now);
    found := cache.ReadAfterID(key, id, turns[k].now);
    assert found == ReadAfter(feed[k], id);
  }

  lemma ReadByPosition(list: seq<string>, id: string)
    requires |list| <= MAX_INT
    ensures var found := ReadAfter(list, id);
            && (found.Nothing? <==> Dry(list, Following(id)))
            && (found.IndexPanic? <==> list != [] && Following(id) < 0)
            && (found.Message? ==> Piece(list, Following(id), [found.text]) && Following(found.id) == Following(id) + 1)
  {
  }

  /** The position reached after `k` polls: every poll that finds a message moves on by one. */
  function Position(feed: seq<seq<string>>, start: int, k: nat): int
    requires k <= |feed|
  {
    if k == 0 then start else
      var p := Position(feed, start, k - 1);
      if Dry(feed[k - 1], p) then p else p + 1
  }

  /**
   The BlockRead loop over the cache while writers append. The context is done when the turns end
   and sending fails after `accepts` messages. What is sent stood, poll by poll, at the positions
   after `latest`, one message for each poll that finds one, and a message that fails at the next
   position; the loop gives up only after `maxRetry` dry polls in a row.
   */
  method BlockRead(
    cache: MemoryCache, key: string, turns: seq<Turn>, expiration: int, latest: string, maxRetry: int, accepts: nat)
    returns (sent: seq<string>, affectedRows: nat, polls: nat, ending: Ending)
    requires cache.Valid()
    requires var feed := Feed(cache.dataMap, key, turns, expiration);
             forall i | 0 <= i < |feed| :: |feed[i]| <= MAX_INT
    modifies cache
    ensures affectedRows == |sent| <= accepts && polls <= |turns|
    ensures var feed := Feed(old(cache.dataMap), key, turns, expiration);
            Delivered(feed, Following(latest), maxRetry, sent, polls, ending)
    ensures ending.WriteFailed? ==> |sent| == accepts
  {
    ghost var feed := Feed(cache.dataMap, key, turns, expiration);
    ghost var start := Following(latest);
    sent, affectedRows, polls := [], 0, 0;
    assert turns[0..] == turns && feed[0..] == feed;
    var nextID, timeoutCount := latest, 0;
    while timeoutCount < maxRetry && polls < |turns|
      invariant cache.Valid() && FeedFrom(cache.dataMap, key, turns, expiration, feed, polls)
      invariant affectedRows == |sent| <= accepts && Following(nextID) == start + |sent|
      invariant 0 < timeoutCount ==> timeoutCount <= maxRetry
      invariant Underway(feed, start, sent, polls, timeoutCount)
      decreases |turns| - polls
    {
      var found := Poll(cache, key, turns, polls, expiration, nextID, feed);
      var failed := Settle(found, affectedRows == accepts, feed, start, sent, polls, timeoutCount, maxRetry);
      polls := polls + 1;
      if failed.Some? {
        return sent, affectedRows, polls, failed.value;
      }
      if found.Nothing? {
        timeoutCount := timeoutCount + 1;
      } else {
        sent := sent + [found.text];
        nextID := found.id;
        affectedRows := affectedRows + 1;
        timeoutCount := 0;
      }
    }
    if timeoutCount >= maxRetry {
      GivingUp(feed, start, sent, polls, timeoutCount, maxRetry);
      ending := GaveUp;
    } else {
      Finishing(feed, start, sent, polls, timeoutCount, maxRetry);
      ending := ContextDone;
    }
  }

  /** Whether a poll's answer ends the loop, by a panic or because the message cannot be sent. */
  method Settle(
    found: Found, full: bool, ghost feed: seq<seq<string>>, ghost start: int, ghost sent: seq<string>,
    ghost polls: nat, ghost dry: nat, ghost maxRetry: int)
    returns (ending: Option<Ending>)
    requires polls < |feed| && Underway(feed, start, sent, polls, dry)
    requires found.Nothing? <==> Dry(feed[polls], start + |sent|)
    requires found.IndexPanic? <==> feed[polls] != [] && start + |sent| < 0
    requires found.Message? ==> Piece(feed[polls], start + |sent|, [found.text])
    ensures ending.Some? <==> found.IndexPanic? || (found.Message? && full)
    ensures ending.Some? ==> Delivered(feed, start, maxRetry, sent, polls + 1, ending.value)
    ensures ending.Some? && ending.value.WriteFailed? ==> full
    ensures found.Nothing? ==> Underway(feed, start, sent, polls + 1, dry + 1)
    ensures found.Message? && !full ==> Underway(feed, start, sent + [found.text], polls + 1, 0)
  {
    ending := None;
    match found {
      case IndexPanic =>
        Panicking(feed, start, sent, polls, dry, maxRetry);
        ending := Some(Panicked);
      case Nothing =>
        NothingFound(feed, start, sent, polls, dry);
      case Message(_, msg) =>
        if full {
          Failing(feed, start, sent, polls, dry, maxRetry, msg);
          ending := Some(WriteFailed(msg));
        } else {
          MessageFound(feed, start, sent, polls, dry, msg);
        }
    }
  }

  /** What holds between two polls; the last `dry` ones found nothing. */
  ghost predicate Underway(feed: seq<seq<string>>, start: int, sent: seq<string>, polls: nat, dry: nat) {
    && polls <= |feed| && dry <= polls
    && SentFrom(feed, polls, start, sent) && start + |sent| == Position(feed, start, polls)
    && (sent != [] ==> 0 <= start)
    && (start < 0 ==> forall k | 0 <= k < polls :: feed[k] == [])
    && (forall k | polls - dry <= k < polls :: Dry(feed[k], start + |sent|))
  }

  /** What BlockRead promises of the stream it has read. */
  ghost predicate Delivered(
    feed: seq<seq<string>>, start: int, maxRetry: int, sent: seq<string>, polls: nat, ending: Ending)
  {
    && polls <= |feed| && SentFrom(feed, polls, start, sent)
    && (ending.GaveUp? || ending.ContextDone? ==> start + |sent| == Position(feed, start, polls))
    && (ending.GaveUp? ==>
          && maxRetry <= polls
          && forall k | 0 <= k && polls - maxRetry <= k < polls :: Dry(feed[k], start + |sent|))
    && (ending.ContextDone? ==> polls == |feed|)
    && (ending.WriteFailed? ==>
          && 0 < polls && start + |sent| == Position(feed, start, polls - 1)
          && Piece(feed[polls - 1], start + |sent|, [ending.msg]))
    && (ending.Panicked? <==> start < 0 && exists k | 0 <= k < polls :: feed[k] != [])
  }

  lemma GivingUp(feed: seq<seq<string>>, start: int, sent: seq<string>, polls: nat, dry: nat, maxRetry: int)
    requires Underway(feed, start, sent, polls, dry) && maxRetry <= dry && (0 < dry ==> dry <= maxRetry)
    ensures Delivered(feed, start, maxRetry, sent, polls, GaveUp)
  {
  }

  lemma Finishing(feed: seq<seq<string>>, start: int, sent: seq<string>, polls: nat, dry: nat, maxRetry: int)
    requires Underway(feed, start, sent, polls, dry) && polls == |feed|
    ensures Delivered(feed, start, maxRetry, sent, polls, ContextDone)
  {
  }

  lemma Panicking(feed: seq<seq<string>>, start: int, sent: seq<string>, polls: nat, dry: nat, maxRetry: int)
    requires polls < |feed| && Underway(feed, start, sent, polls, dry) && feed[polls] != [] && start + |sent| < 0
    ensures Delivered(feed, start, maxRetry, sent, polls + 1, Panicked)
  {
    FoundAtGrows(feed, polls, start, sent);
  }

  lemma Failing(
    feed: seq<seq<string>>, start: int, sent: seq<string>, polls: nat, dry: nat, maxRetry: int, msg: string)
    requires polls < |feed| && Underway(feed, start, sent, polls, dry) && Piece(feed[polls], start + |sent|, [msg])
    ensures Delivered(feed, start, maxRetry, sent, polls + 1, WriteFailed(msg))
  {
    FoundAtGrows(feed, polls, start, sent);
  }

  lemma FeedStep(
    dataMap: map<string, Item>, key: string, turns: seq<Turn>, expiration: int, feed: seq<seq<string>>, k: nat)
    requires k < |turns| == |feed| && Feed(dataMap, key, turns[k..], expiration) == feed[k..]
    ensures var d := AfterTurn(dataMap, key, turns[k], expiration);
            && feed[k] == Visible(d, key, turns[k].now)
            && Feed(WithoutExpired(d, key, turns[k].now), key, turns[k + 1..], expiration) == feed[k + 1..]
  {
    assert turns[k..][1..] == turns[k + 1..] && feed[k..][1..] == feed[k + 1..];
    assert feed[k..][0] == feed[k];
  }

  lemma NothingFound(feed: seq<seq<string>>, start: int, sent: seq<string>, polls: nat, dry: nat)
    requires polls < |feed| && Underway(feed, start, sent, polls, dry) && Dry(feed[polls], start + |sent|)
    ensures Underway(feed, start, sent, polls + 1, dry + 1)
  {
    FoundAtGrows(feed, polls, start, sent);
  }

  lemma MessageFound(feed: seq<seq<string>>, start: int, sent: seq<string>, polls: nat, dry: nat, msg: string)
    requires polls < |feed| && Underway(feed, start, sent, polls, dry) && Piece(feed[polls], start + |sent|, [msg])
    ensures Underway(feed, start, sent + [msg], polls + 1, 0)
  {
    FoundAtGrows(feed, polls, start, sent);
    SentGrows(feed, polls + 1, start, sent, msg);
  }

  /** A reader that starts from the snapshot's id starts right after the snapshot exactly if it was not empty. */
  lemma TailStartsAfterSnapshot(snapshot: seq<string>)
    requires |snapshot| <= MAX_INT
    ensures Following(SnapshotId(snapshot)) == |snapshot| <==> snapshot != []
  {
  }

  /** After an empty snapshot the first message written is skipped. */
  lemma EmptySnapshotSkipsFirst(list: seq<string>)
    requires |list| >= 2
    ensures ReadAfter(list, SnapshotId([])) == Message(Itoa(1), list[1])
  {
  }

  // ---------------------------------------------------------------- whole clients

  /** Read-back: what is written to a new stream is read before it expires, all of it and in order. */
  method WriteThenRead(cache: MemoryCache, key: string, writes: seq<Turn>, expiration: int, now: int)
    returns (id: string, messages: seq<string>)
    requires cache.Valid() && key !in cache.dataMap && writes != []
    requires forall i | 0 <= i < |writes| :: |writes[i].arrivals| == 1
    modifies cache
    ensures if now <= writes[|writes| - 1].now + expiration
            then messages == Arrived(writes, |writes|) && id == Itoa(|writes| - 1)
            else messages == [] && id == ""
  {
    for n := 0 to |writes|
      invariant cache.Valid()
      invariant n == 0 ==> key !in cache.dataMap
      invariant n > 0 ==> key in cache.dataMap
                          && cache.dataMap[key] == Item(Arrived(writes, n), writes[n - 1].now + expiration)
      invariant |Arrived(writes, n)| == n
    {
      cache.WriteMessage(key, writes[n].arrivals[0], expiration, writes[n].now);
      assert writes[n].arrivals == [writes[n].arrivals[0]];
    }
    id, messages := cache.ReadMessages(key, now);
  }

  /** The messages of the first `k` turns. */
  function Arrived(turns: seq<Turn>, k: nat): seq<string>
    requires k <= |turns|
  {
    if k == 0 then [] else Arrived(turns, k - 1) + turns[k - 1].arrivals
  }

  /** No poll comes after the stream has expired. */
  predicate Unexpired(dataMap: map<string, Item>, key: string, turns: seq<Turn>, expiration: int)
    decreases |turns|
  {
    turns == [] ||
    var d := AfterTurn(dataMap, key, turns[0], expiration);
    key in d && turns[0].now <= d[key].expired && Unexpired(d, key, turns[1..], expiration)
  }

  lemma {:induction false} ArrivedLater(turns: seq<Turn>, k: nat)
    requires 0 < k <= |turns|
    ensures Arrived(turns, k) == turns[0].arrivals + Arrived(turns[1..], k - 1)
    decreases k
  {
    if k == 1 {
      assert Arrived(turns, 1) == Arrived(turns, 0) + turns[0].arrivals;
    } else {
      ArrivedLater(turns, k - 1);
      assert turns[1..][k - 2] == turns[k - 1];
    }
  }

  /** A list after the first `k` turns. */
  function Grown(list: seq<string>, turns: seq<Turn>, k: nat): seq<string>
    requires k <= |turns|
    decreases k
  {
    if k == 0 then list else Grown(list + turns[0].arrivals, turns[1..], k - 1)
  }

  lemma {:induction false} GrownByArrivals(list: seq<string>, turns: seq<Turn>, k: nat)
    requires k <= |turns|
    ensures Grown(list, turns, k) == list + Arrived(turns, k)
    decreases k
  {
    if k == 0 {
      assert list + [] == list;
    } else {
      GrownByArrivals(list + turns[0].arrivals, turns[1..], k - 1);
      ArrivedLater(turns, k);
      Regrouped(list, turns[0].arrivals, Arrived(turns[1..], k - 1));
    }
  }

  lemma {:induction false} FeedIsGrown(
    dataMap: map<string, Item>, key: string, turns: seq<Turn>, expiration: int, i: nat)
    requires key in dataMap && Unexpired(dataMap, key, turns, expiration) && i < |turns|
    ensures Feed(dataMap, key, turns, expiration)[i] == Grown(dataMap[key].list, turns, i + 1)
    decreases i
  {
    FirstTurn(dataMap, key, turns, expiration);
    if i == 0 {
    } else {
      FeedIsGrown(AfterTurn(dataMap, key, turns[0], expiration), key, turns[1..], expiration, i - 1);
    }
  }

  /** The polls of an unexpired stream find its first messages and everything that has arrived since. */
  lemma FeedIsLog(dataMap: map<string, Item>, key: string, turns: seq<Turn>, expiration: int, i: nat)
    requires key in dataMap && Unexpired(dataMap, key, turns, expiration) && i < |turns|
    ensures Feed(dataMap, key, turns, expiration)[i] == dataMap[key].list + Arrived(turns, i + 1)
  {
    FeedIsGrown(dataMap, key, turns, expiration, i);
    GrownByArrivals(dataMap[key].list, turns, i + 1);
  }

  lemma Regrouped(a: seq<string>, b: seq<string>, c: seq<string>)
    ensures a + b + c == a + (b + c)
  {
  }

  lemma FirstTurn(dataMap: map<string, Item>, key: string, turns: seq<Turn>, expiration: int)
    requires key in dataMap && turns != [] && Unexpired(dataMap, key, turns, expiration)
    ensures var d := AfterTurn(dataMap, key, turns[0], expiration);
            && key in d && d[key].list == dataMap[key].list + turns[0].arrivals
            && Feed(dataMap, key, turns, expiration) == [d[key].list] + Feed(d, key, turns[1..], expiration)
  {
  }

  /**
   A client that takes the snapshot of a stream and then follows it from the snapshot's id gets a
   prefix of what has been written, nothing missing and nothing twice, as long as the stream does
   not expire; if it gives up it has got everything.
   */
  method SnapshotPlusTail(
    cache: MemoryCache, key: string, now: int, turns: seq<Turn>, expiration: int, maxRetry: int, accepts: nat)
    returns (snapshot: seq<string>, all: seq<string>, affectedRows: nat, polls: nat, ending: Ending)
    requires cache.Valid() && key in cache.dataMap && now <= cache.dataMap[key].expired
    requires |cache.dataMap[key].list| <= MAX_INT
    requires var feed := Feed(cache.dataMap, key, turns, expiration);
             forall i | 0 <= i < |feed| :: |feed[i]| <= MAX_INT
    modifies cache
    ensures snapshot == old(cache.dataMap)[key].list
    ensures affectedRows == |all| - |snapshot| && polls <= |turns|
    ensures Unexpired(old(cache.dataMap), key, turns, expiration) ==>
              && snapshot <= all <= snapshot + Arrived(turns, polls)
              && (ending.GaveUp? && 0 < maxRetry ==> all == snapshot + Arrived(turns, polls))
  {
    ghost var was := cache.dataMap;
    var id: string;
    id, snapshot := cache.ReadMessages(key, now);
    TailStartsAfterSnapshot(snapshot);
    var sent: seq<string>;
    sent, affectedRows, polls, ending := BlockRead(cache, key, turns, expiration, id, maxRetry, accepts);
    all := snapshot + sent;
    if Unexpired(was, key, turns, expiration) {
      TailOfLog(was, key, turns, expiration, maxRetry, sent, polls, ending);
    }
  }

  lemma TailOfLog(
    dataMap: map<string, Item>, key: string, turns: seq<Turn>, expiration: int, maxRetry: int,
    sent: seq<string>, polls: nat, ending: Ending)
    requires key in dataMap && Unexpired(dataMap, key, turns, expiration) && dataMap[key].list != []
    requires Delivered(Feed(dataMap, key, turns, expiration), |dataMap[key].list|, maxRetry, sent, polls, ending)
    ensures var log := dataMap[key].list + Arrived(turns, polls);
            && dataMap[key].list + sent <= log
            && (ending.GaveUp? && 0 < maxRetry ==> dataMap[key].list + sent == log)
  {
    var feed := Feed(dataMap, key, turns, expiration);
    if sent != [] {
      GrowingLog(dataMap, key, turns, expiration);
      SentIsAPiece(feed, polls, |dataMap[key].list|, sent);
    }
    if 0 < polls {
      FeedIsLog(dataMap, key, turns, expiration, polls - 1);
    }
    if ending.GaveUp? && 0 < maxRetry {
      assert Dry(feed[polls - 1], |dataMap[key].list| + |sent|);
    }
  }

  lemma GrowingLog(dataMap: map<string, Item>, key: string, turns: seq<Turn>, expiration: int)
    requires key in dataMap && Unexpired(dataMap, key, turns, expiration)
    ensures Growing(Feed(dataMap, key, turns, expiration))
  {
    var feed := Feed(dataMap, key, turns, expiration);
    forall i, j | 0 <= i <= j < |feed|
      ensures feed[i] <= feed[j]
    {
      FeedIsLog(dataMap, key, turns, expiration, i);
      FeedIsLog(dataMap, key, turns, expiration, j);
      LogGrows(dataMap[key].list, turns, i + 1, j + 1);
    }
  }

  lemma LogGrows(list: seq<string>, turns: seq<Turn>, i: nat, j: nat)
    requires i <= j <= |turns|
    ensures list + Arrived(turns, i) <= list + Arrived(turns, j)
  {
    ArrivedGrows(turns, i, j);
  }

  lemma {:induction false} ArrivedGrows(turns: seq<Turn>, i: nat, j: nat)
    requires i <= j <= |turns|
    ensures Arrived(turns, i) <= Arrived(turns, j)
    decreases j
  {
    if i == j {
    } else {
      ArrivedGrows(turns, i, j - 1);
    }
  }
}
