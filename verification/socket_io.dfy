/**
 * The Socket.IO event handlers. Socket.IO's own room table is abstracted as
 * a registry of session ids (`enter_room` is `Realtime.Connect`) and an
 * `emit` to a room is recorded as an effect addressed to that room's members.
 */
module SocketIo {
  import opened PyValues
  import Realtime
  import ChannelStore

  /** A Socket.IO session id. */
  type Sid = string

  /** The state the handlers read and write: room membership and channel history. */
  datatype Server = Server(rooms: Realtime.Rooms<Sid>, history: ChannelStore.History)

  /** What a handler does, in order: a history append or an emit to a room. */
  datatype Effect =
    | Appended(channel: string, record: Record)
    | Emitted(event: string, room: string, payload: Value, recipients: set<Sid>)

  /** A dict payload whose truthy `channelId` is a string. */
  predicate ChannelIsText(data: Value) {
    data.Obj? ==> ChannelStore.TextChannel(data.fields)
  }

  /** The `connect` handler accepts every session and touches no state. */
  function OnConnect(st: Server, sid: Sid): (r: Server)
    ensures r == st
  {
    st
  }

  /** The `disconnect` handler touches no state. */
  function OnDisconnect(st: Server, sid: Sid): (r: Server)
    ensures r == st
  {
    st
  }

  /** `join`: the room a valid join payload names, when there is one. */
  function JoinTarget(data: Value): (room: string)
    requires ChannelIsText(data)
    requires data.Obj? && Truthy(Get(data.fields, "channelId"))
    ensures room != "" && Get(data.fields, "channelId") == Str(room)
  {
    Get(data.fields, "channelId").s
  }

  /**
   * `join`: a dict payload with a truthy `channelId` adds the session to that
   * room and leaves it in every room it had joined before; anything else is ignored.
   */
  function OnJoin(st: Server, sid: Sid, data: Value): (r: Server)
    requires ChannelIsText(data)
    ensures r.history == st.history
    ensures !(data.Obj? && Truthy(Get(data.fields, "channelId"))) ==> r == st
    ensures data.Obj? && Truthy(Get(data.fields, "channelId")) ==>
      var room := JoinTarget(data);
      && Realtime.Members(r.rooms, room) == Realtime.Members(st.rooms, room) + {sid}
      && Realtime.OthersUnchanged(st.rooms, r.rooms, room)
    ensures forall room :: Realtime.Members(st.rooms, room) <= Realtime.Members(r.rooms, room)
  {
    if data.Obj? && Truthy(Get(data.fields, "channelId")) then
      st.(rooms := Realtime.Connect(st.rooms, Get(data.fields, "channelId").s, sid))
    else st
  }

  /**
   * `message`: a dict payload is appended to the history of its channel, then
   * emitted unchanged as a "message" event to every member of the room named
   * `channelId or "general"`, the sender included; anything else is ignored.
   */
  function OnMessage(st: Server, sid: Sid, data: Value): (r: (Server, seq<Effect>))
    requires ChannelIsText(data)
    ensures !data.Obj? ==> r.0 == st && r.1 == []
    ensures data.Obj? ==>
      && r.0.rooms == st.rooms
      && r.0.history == ChannelStore.AppendMessage(st.history, data.fields)
      && |r.1| == 2 && r.1[0].Appended? && r.1[1].Emitted?
      && r.1[0].channel == r.1[1].room == ChannelStore.ChannelOf(data.fields)
      && r.1[0].record == data.fields
      && r.1[1].event == "message" && r.1[1].payload == data
      && r.1[1].recipients == Realtime.Members(st.rooms, r.1[1].room)
      && ChannelStore.Log(r.0.history, r.1[0].channel)
         == ChannelStore.Log(st.history, r.1[0].channel) + [data.fields]
  {
    if !data.Obj? then (st, [])
    else
      var target := Or(Get(data.fields, "channelId"), Str(ChannelStore.Fallback)).s;
      var history := ChannelStore.AppendMessage(st.history, data.fields);
      ChannelStore.AppendExtends(st.history, data.fields);
      (st.(history := history),
       [Appended(ChannelStore.ChannelOf(data.fields), data.fields),
        Emitted("message", target, data, Realtime.Members(st.rooms, target))])
  }

  /** A call of one Socket.IO handler. */
  datatype Event =
    | Connected(sid: Sid)
    | Disconnected(sid: Sid)
    | Joined(sid: Sid, data: Value)
    | Sent(sid: Sid, data: Value)

  /** The payload of a join or message call has a string `channelId` when it is truthy. */
  predicate Admissible(e: Event) {
    (e.Joined? || e.Sent?) ==> ChannelIsText(e.data)
  }

  predicate AllAdmissible(events: seq<Event>) {
    forall i :: 0 <= i < |events| ==> Admissible(events[i])
  }

  lemma AllAdmissibleTail(events: seq<Event>)
    requires |events| > 0 && AllAdmissible(events)
    ensures AllAdmissible(events[1..])
  {
    forall i | 0 <= i < |events| - 1
      ensures Admissible(events[1..][i])
    {
      assert events[1..][i] == events[i + 1];
    }
  }

  /** The server state after one handler call; no handler takes a session out of a room. */
  function Step(st: Server, e: Event): (r: Server)
    requires Admissible(e)
    ensures forall room :: Realtime.Members(st.rooms, room) <= Realtime.Members(r.rooms, room)
  {
    match e
    case Connected(sid) => OnConnect(st, sid)
    case Disconnected(sid) => OnDisconnect(st, sid)
    case Joined(sid, data) => OnJoin(st, sid, data)
    case Sent(sid, data) => OnMessage(st, sid, data).0
  }

  /** The server state after a sequence of handler calls, oldest first. */
  function Run(st: Server, events: seq<Event>): Server
    requires AllAdmissible(events)
    decreases |events|
  {
    if |events| == 0 then st
    else
      AllAdmissibleTail(events);
      Run(Step(st, events[0]), events[1..])
  }

  /** Room membership only grows over any sequence of handler calls. */
  lemma {:induction false} RunKeepsMembers(st: Server, events: seq<Event>, room: string)
    requires AllAdmissible(events)
    ensures Realtime.Members(st.rooms, room) <= Realtime.Members(Run(st, events).rooms, room)
    decreases |events|
  {
    if |events| > 0 {
      var next := Step(st, events[0]);
      AllAdmissibleTail(events);
      RunKeepsMembers(next, events[1..], room);
    }
  }

  /**
   * A session that joined a channel receives every message later sent to
   * that channel, its own included, whatever handler calls come in between.
   */
  lemma JoinThenMessageDelivers(st: Server, sid: Sid, between: seq<Event>, sender: Sid, channel: string, data: Record)
    requires channel != ""
    requires AllAdmissible(between)
    requires ChannelStore.TextChannel(data) && Get(data, "channelId") == Str(channel)
    ensures var joined := OnJoin(st, sid, Obj(map["channelId" := Str(channel)]));
      sid in OnMessage(Run(joined, between), sender, Obj(data)).1[1].recipients
  {
    var joined := OnJoin(st, sid, Obj(map["channelId" := Str(channel)]));
    assert sid in Realtime.Members(joined.rooms, channel);
    RunKeepsMembers(joined, between, channel);
  }

  /** A message without a usable `channelId` is both filed under and emitted to the fallback channel. */
  lemma MissingChannelUsesFallback(st: Server, sid: Sid, data: Record)
    requires !Truthy(Get(data, "channelId"))
    ensures var effects := OnMessage(st, sid, Obj(data)).1;
      effects[0].channel == ChannelStore.Fallback && effects[1].room == ChannelStore.Fallback
  {
  }
}
