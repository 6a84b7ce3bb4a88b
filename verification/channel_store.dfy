/**
 * The in-memory channel history: one append-only log of message records per
 * channel key, read back in pages bounded by `limit` and an optional
 * `before` cursor naming a message id.
 */
module ChannelStore {
  import opened Wrappers
  import opened PyValues

  /** The channel a message without a usable `channelId` is filed under. */
  const Fallback: string := "general"

  /** Channel key -> log of records, oldest first. */
  type History = map<string, seq<Record>>

  /** A truthy `channelId` is a string; other payload shapes are outside the model. */
  predicate TextChannel(data: Record) {
    Truthy(Get(data, "channelId")) ==> Get(data, "channelId").Str?
  }

  /** The key a record is filed under: its `channelId` when truthy, otherwise the fallback channel. */
  function ChannelOf(data: Record): (key: string)
    requires TextChannel(data)
    ensures key != ""
    ensures Truthy(Get(data, "channelId")) ==> Get(data, "channelId") == Str(key)
    ensures !Truthy(Get(data, "channelId")) ==> key == Fallback
  {
    var v := Or(Or(Get(data, "channelId"), Str(Fallback)), Str(Fallback));
    v.s
  }

  /** `_messages_by_channel.get(channel, [])`. */
  function Log(h: History, channel: string): seq<Record> {
    if channel in h then h[channel] else []
  }

  /** The copy `append_message` stores: the conditional re-insertion of `id` can never fire. */
  function CopyRecord(data: Record): (msg: Record)
    ensures msg == data
  {
    var msg := data;
    if "id" !in msg && "id" in data then msg["id" := Get(data, "id")] else msg
  }

  /** `append_message`: adds a copy of `data`, unchanged, at the end of its channel's log. */
  function AppendMessage(h: History, data: Record): (r: History)
    requires TextChannel(data)
    ensures ChannelOf(data) in r
    ensures |Log(r, ChannelOf(data))| == |Log(h, ChannelOf(data))| + 1
    ensures Log(r, ChannelOf(data))[..|Log(h, ChannelOf(data))|] == Log(h, ChannelOf(data))
    ensures Log(r, ChannelOf(data))[|Log(h, ChannelOf(data))|] == data
    ensures forall c :: c != ChannelOf(data) ==> (c in r <==> c in h) && Log(r, c) == Log(h, c)
  {
    var key := ChannelOf(data);
    var h' := if key !in h then h[key := []] else h;
    h'[key := h'[key] + [CopyRecord(data)]]
  }

  /** `m.get("id") == id`. */
  predicate HasId(m: Record, id: string) {
    Get(m, "id") == Str(id)
  }

  /** The position of the first record whose id is `id`, if any. */
  function FindId(log: seq<Record>, id: string): (r: Option<nat>)
    ensures r.Some? ==> r.value < |log| && HasId(log[r.value], id)
    ensures r.Some? ==> forall j :: 0 <= j < r.value ==> !HasId(log[j], id)
    ensures r.None? ==> forall j :: 0 <= j < |log| ==> !HasId(log[j], id)
  {
    if |log| == 0 then None
    else if HasId(log[0], id) then Some(0)
    else match FindId(log[1..], id)
      case None => None
      case Some(k) => Some(k + 1)
  }

  /** Python's normalisation of a slice bound against a length `n`. */
  function Clamp(i: int, n: nat): nat {
    if i < 0 then (if i + n < 0 then 0 else i + n) else (if i > n then n else i)
  }

  /** Python's `s[start:stop]`. */
  function PySlice<T>(s: seq<T>, start: int, stop: int): seq<T> {
    var lo := Clamp(start, |s|);
    var hi := Clamp(stop, |s|);
    if lo < hi then s[lo..hi] else []
  }

  function Min(a: int, b: int): int { if a < b then a else b }
  function Max(a: int, b: int): int { if a < b then b else a }

  /**
   * `log[-limit:] if len(log) > limit else log`: the newest `limit` records for
   * a positive limit; because `-0` is `0`, a zero limit gives the whole log,
   * and a negative limit drops the first `-limit` records.
   */
  function Latest(log: seq<Record>, limit: int): (r: seq<Record>)
    ensures 0 < limit ==> r == log[|log| - Min(limit, |log|)..]
    ensures limit == 0 ==> r == log
    ensures limit < 0 ==> r == log[Min(-limit, |log|)..]
  {
    if |log| > limit then PySlice(log, -limit, |log|) else log
  }

  /** `get_messages(channel, limit, before)`. */
  function GetMessages(h: History, channel: string, limit: int, before: Option<string>): (r: seq<Record>)
    ensures channel !in h ==> r == []
    ensures 0 < limit ==> |r| <= limit
    ensures !Given(before) ==> r == Latest(Log(h, channel), limit)
    ensures Given(before) && FindId(Log(h, channel), before.value).None? ==> r == Latest(Log(h, channel), limit)
    ensures Given(before) && FindId(Log(h, channel), before.value).Some? ==>
      var i := FindId(Log(h, channel), before.value).value;
      r == (if limit < 0 then [] else Log(h, channel)[Max(0, i - limit)..i])
  {
    var log := Log(h, channel);
    if Given(before) then
      match FindId(log, before.value)
      case Some(i) => PySlice(log, Max(0, i - limit), i)
      case None => Latest(log, limit)
    else Latest(log, limit)
  }

  /** Every page is a contiguous, order-preserving window of the channel's log. */
  lemma GetMessagesIsWindow(h: History, channel: string, limit: int, before: Option<string>)
    ensures var log := Log(h, channel);
      exists lo, hi :: 0 <= lo <= hi <= |log| && GetMessages(h, channel, limit, before) == log[lo..hi]
  {
    var log := Log(h, channel);
    var r := GetMessages(h, channel, limit, before);
    if Given(before) && FindId(log, before.value).Some? {
      var i := FindId(log, before.value).value;
      if limit < 0 {
        assert r == log[i..i];
      } else {
        assert r == log[Max(0, i - limit)..i];
      }
    } else if limit > 0 {
      assert r == log[|log| - Min(limit, |log|)..|log|];
    } else if limit == 0 {
      assert r == log[0..|log|];
    } else {
      assert r == log[Min(-limit, |log|)..|log|];
    }
  }

  /** A page read before a cursor that was found holds no record carrying that cursor's id. */
  lemma CursorPageExcludesCursor(h: History, channel: string, limit: int, b: string)
    requires b != "" && FindId(Log(h, channel), b).Some?
    ensures forall m :: m in GetMessages(h, channel, limit, Some(b)) ==> !HasId(m, b)
  {
    var log := Log(h, channel);
    var i := FindId(log, b).value;
    var r := GetMessages(h, channel, limit, Some(b));
    forall m | m in r
      ensures !HasId(m, b)
    {
      var k :| 0 <= k < |r| && r[k] == m;
      assert r == log[Max(0, i - limit)..i];
      assert m == log[Max(0, i - limit) + k];
    }
  }

  /** An unknown cursor, or one no record carries as its id, reads like no cursor at all. */
  lemma UnknownCursorFallsBack(h: History, channel: string, limit: int, b: string)
    requires FindId(Log(h, channel), b).None?
    ensures GetMessages(h, channel, limit, Some(b)) == GetMessages(h, channel, limit, None)
  {
  }

  /** After an append, the record's channel log is the old log followed by the record. */
  lemma AppendExtends(h: History, data: Record)
    requires TextChannel(data)
    ensures Log(AppendMessage(h, data), ChannelOf(data)) == Log(h, ChannelOf(data)) + [data]
  {
    var key := ChannelOf(data);
    var a := Log(AppendMessage(h, data), key);
    var b := Log(h, key) + [data];
    assert |a| == |b|;
    forall i | 0 <= i < |a|
      ensures a[i] == b[i]
    {
      if i < |Log(h, key)| {
        assert a[i] == a[..|Log(h, key)|][i];
      }
    }
  }

  /** Every record of `msgs` is filed under channel `c`. */
  predicate AllTo(msgs: seq<Record>, c: string) {
    forall i :: 0 <= i < |msgs| ==> TextChannel(msgs[i]) && ChannelOf(msgs[i]) == c
  }

  lemma AllToTail(msgs: seq<Record>, c: string)
    requires |msgs| > 0 && AllTo(msgs, c)
    ensures AllTo(msgs[1..], c)
  {
    forall i | 0 <= i < |msgs| - 1
      ensures TextChannel(msgs[1..][i]) && ChannelOf(msgs[1..][i]) == c
    {
      assert msgs[1..][i] == msgs[i + 1];
    }
  }

  /** Appends `msgs` one after another, oldest first. */
  function AppendAll(h: History, msgs: seq<Record>): History
    requires forall i :: 0 <= i < |msgs| ==> TextChannel(msgs[i])
    decreases |msgs|
  {
    if |msgs| == 0 then h else AppendAll(AppendMessage(h, msgs[0]), msgs[1..])
  }

  lemma ConcatFirst<T>(a: seq<T>, s: seq<T>)
    requires |s| > 0
    ensures (a + [s[0]]) + s[1..] == a + s
  {
    assert s == [s[0]] + s[1..];
  }

  /** The first of several appends to one channel: its log gains the first record, and the rest follow. */
  lemma AppendAllFirst(h: History, msgs: seq<Record>, c: string)
    requires |msgs| > 0 && AllTo(msgs, c)
    ensures AllTo(msgs[1..], c)
    ensures Log(AppendMessage(h, msgs[0]), c) == Log(h, c) + [msgs[0]]
    ensures AppendAll(h, msgs) == AppendAll(AppendMessage(h, msgs[0]), msgs[1..])
  {
    AllToTail(msgs, c);
    AppendExtends(h, msgs[0]);
  }

  /** Appending messages addressed to one channel extends that channel's log by exactly those messages, in order. */
  lemma {:induction false} AppendAllLog(h: History, msgs: seq<Record>, c: string)
    requires AllTo(msgs, c)
    ensures Log(AppendAll(h, msgs), c) == Log(h, c) + msgs
    decreases |msgs|
  {
    if |msgs| > 0 {
      AppendAllFirst(h, msgs, c);
      AppendAllLog(AppendMessage(h, msgs[0]), msgs[1..], c);
      ConcatFirst(Log(h, c), msgs);
    }
  }

  /** Appending N messages to an empty channel and reading N back returns them all, in insertion order. */
  lemma HistoryRoundTrip(h: History, msgs: seq<Record>, c: string)
    requires c !in h
    requires AllTo(msgs, c)
    ensures GetMessages(AppendAll(h, msgs), c, |msgs|, None) == msgs
  {
    AppendAllLog(h, msgs, c);
  }

  /** The first record carrying `id` is found at its position. */
  lemma {:induction false} FindIdAt(log: seq<Record>, id: string, i: nat)
    requires i < |log| && HasId(log[i], id)
    requires forall j :: 0 <= j < i ==> !HasId(log[j], id)
    ensures FindId(log, id) == Some(i)
  {
    if i > 0 {
      var tail := log[1..];
      forall j | 0 <= j < i - 1
        ensures !HasId(tail[j], id)
      {
        assert tail[j] == log[j + 1];
      }
      FindIdAt(tail, id, i - 1);
    }
  }

  /**
   * Ten records with ids m1..m10 in one channel: a page of 3 before m7 is
   * the records m4, m5 and m6, whatever else the records hold.
   */
  lemma PaginationExample(log: seq<Record>, channel: string)
    requires |log| == 10
    requires HasId(log[0], "m1") && HasId(log[1], "m2") && HasId(log[2], "m3") && HasId(log[3], "m4")
    requires HasId(log[4], "m5") && HasId(log[5], "m6") && HasId(log[6], "m7") && HasId(log[7], "m8")
    requires HasId(log[8], "m9") && HasId(log[9], "m10")
    ensures GetMessages(map[channel := log], channel, 3, Some("m7")) == [log[3], log[4], log[5]]
  {
    forall j | 0 <= j < 6
      ensures !HasId(log[j], "m7")
    {
      assert Get(log[j], "id").s != "m7";
    }
    FindIdAt(log, "m7", 6);
    assert Log(map[channel := log], channel) == log;
    assert log[3..6] == [log[3], log[4], log[5]];
  }
}
