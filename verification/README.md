# TRPG chat and lobby state, modelled in Dafny

This project models the in-memory state of a tabletop-RPG chat backend and proves properties of it. The backend is a FastAPI service with a Socket.IO server. The model covers five pieces of it. Each is written as immutable values with pure transition functions.

- **Channel history** (`channel_store.dfy`). This is a per-channel, append-only log of message records. `append_message` files a record under `channelId or "general"`. `get_messages` reads a page bounded by `limit` and an optional `before` cursor. The page uses Python's exact slice semantics for every integer `limit`.
- **WebSocket room registry** (`realtime.dfy`). This is `RoomConnectionManager`, a map from room id to a set of opaque endpoints, with `connect`, `disconnect` and `broadcast`. A broadcast works on a snapshot of the room. It makes one send attempt per endpoint and prunes every endpoint whose send fails. Which sends fail is an input: the set `dead`.
- **Socket.IO handlers** (`socket_io.dfy`). These are the `connect`, `disconnect`, `join` and `message` handlers. They run over a `Server` value that holds room membership and channel history. Socket.IO's room table is the same map-of-sets registry. `enter_room` is `Realtime.Connect`. An `emit` is an `Effect` addressed to the room's members.
- **Character sheets** (`characters.dfy`). This is per-user CRUD over `_characters_by_user`, including the merge on update that skips `None` values.
- **Game-room lobby** (`game_rooms.dfy`). This covers the `list_rooms` filter pipeline, the `create_room` defaults, `get_room` and `apply_room`.

Support modules:

- `values.dfy`: Python values, with truthiness and `or`.
- `text.dfy`: `strip`, `lower`, substring `in`, `split` and `join`.
- `seqs.dfy`: list comprehensions as `Filter`.
- `dicts.dfy`: a `dict` that keeps insertion order.
- `wrappers.dfy`: `Option`, `Result` and the 404 error.

Inputs the model receives as parameters:

- fresh ids from `uuid4`;
- today's date;
- the authenticated user name;
- the send outcomes of a broadcast.

Behaviour worth knowing:

- The record `append_message` stores keeps its `channelId` exactly as supplied, possibly empty or absent. Only the log key falls back to `"general"`.
- `limit` is not required to be positive. With `limit = 0`, a read without a cursor returns the whole log, because `-0` is `0`. A read at a found cursor returns nothing.
- The Socket.IO `disconnect` handler does nothing itself.

## Model

| member | source | states |
|---|---|---|
| ChannelStore.ChannelOf | app/channel_store.py:42 | The log key is the record's `channelId` when that is truthy, and `"general"` otherwise. It is never empty. |
| ChannelStore.CopyRecord | app/channel_store.py:46-48 | The stored copy equals the input record, so the conditional re-insertion of `id` can never change it. |
| ChannelStore.AppendMessage | app/channel_store.py:40-49 | The chosen channel's log grows by exactly one. Its old prefix is kept and its new last element is the input record, unchanged. Every other channel is untouched. |
| ChannelStore.AppendExtends | app/channel_store.py:43-49 | After an append, the channel's log is the old log followed by the record. |
| ChannelStore.FindId | app/channel_store.py:56-60 | The cursor search returns the first position whose record has the cursor id, or none when no record has it. Records without an `id` never match. |
| ChannelStore.Latest | app/channel_store.py:62-64 | A positive limit gives the newest `min(limit, n)` records in stored order. A zero limit gives the whole log. A negative limit drops the first `-limit` records. |
| ChannelStore.GetMessages | app/channel_store.py:52-65 | An unknown channel gives an empty page. No cursor, or an empty one, gives the latest window. A cursor found at `i` gives `log[max(0, i-limit):i]`, or nothing for a negative limit. An unknown cursor gives the latest window. A positive limit bounds the page size. |
| ChannelStore.GetMessagesIsWindow | app/channel_store.py:52-65 | Every page is a contiguous, order-preserving slice of the channel's log. |
| ChannelStore.CursorPageExcludesCursor | app/channel_store.py:56-60 | A page read before a found cursor lies strictly before it: no record in it carries the cursor id. |
| ChannelStore.UnknownCursorFallsBack | app/channel_store.py:61-62 | A cursor that no record carries reads exactly like no cursor. |
| ChannelStore.AppendAllLog | app/channel_store.py:40-49 | Appending a sequence of records addressed to one channel extends that channel's log by exactly that sequence, in order. |
| ChannelStore.HistoryRoundTrip | app/channel_store.py:40-65 | Appending N records to a fresh channel and reading with limit N and no cursor returns the N records in insertion order. |
| ChannelStore.FindIdAt | app/channel_store.py:57-58 | A record carrying the id, with none carrying it earlier, is what the cursor search finds. |
| ChannelStore.PaginationExample | app/channel_store.py:56-60 | With ids m1..m10, a page of 3 before m7 is the records m4, m5, m6. |
| Realtime.Connect | app/realtime.py:18-20 | `connect` adds the endpoint to the room and creates the room if needed. Other rooms are unchanged. No room is ever left empty. |
| Realtime.ConnectIdempotent | app/realtime.py:18-20 | Connecting twice has the same effect as connecting once. |
| Realtime.Disconnect | app/realtime.py:22-29 | `disconnect` removes the endpoint and keeps the room's other members. Other rooms are unchanged. For an absent room or a non-member it is a no-op. It drops a room once it is emptied, so no room is ever left empty. |
| Realtime.Broadcast | app/realtime.py:31-38 | There is exactly one send attempt per endpoint of the snapshot and none to anyone else. Afterwards the room holds the snapshot minus the endpoints whose send failed. Other rooms are unchanged. The outcome is the same for every iteration order. An unknown room gets no sends and no change. |
| SocketIo.OnConnect | app/socket_io.py:15-17 | The connect handler changes no membership and no history. |
| SocketIo.OnDisconnect | app/socket_io.py:20-22 | The disconnect handler changes no membership and no history. |
| SocketIo.JoinTarget | app/socket_io.py:28-29 | The room a valid join names is its non-empty string `channelId`. |
| SocketIo.OnJoin | app/socket_io.py:25-29 | A non-dict payload or a falsy `channelId` changes nothing. Otherwise the session is added to that room, every room it joined before is kept, and history is untouched. |
| SocketIo.OnMessage | app/socket_io.py:32-42 | A non-dict payload causes no append and no emit. Otherwise there is exactly one history append, then one `"message"` emit. The new history is exactly what `append_message` leaves, so every other channel keeps its log. The emit target equals the append key. The unchanged payload goes to every member of the target room, the sender included. Membership is unchanged. |
| SocketIo.Step | app/socket_io.py:15-42 | One call of any handler never takes a session out of a room. |
| SocketIo.RunKeepsMembers | app/socket_io.py:15-42 | Over any sequence of handler calls, every room keeps every member it had. |
| SocketIo.JoinThenMessageDelivers | app/socket_io.py:29-42 | A session that joined a channel is a recipient of every later message to that channel, its own included, whatever handler calls come in between. |
| SocketIo.MissingChannelUsesFallback | app/socket_io.py:39-41 | A message without a usable `channelId` is both filed under and emitted to `"general"`. |
| Characters.ListCharacters | app/routes_characters.py:25-30 | The list holds every sheet of the user and nothing else, in creation order. A user without a bucket gets an empty list. |
| Characters.GetCharacter | app/routes_characters.py:33-45 | Returns 404 exactly when the user has no sheet with that id, and the stored sheet otherwise. |
| Characters.NewSheet | app/routes_characters.py:54-59 | The new sheet has `id` = the fresh id, overriding any id in the body, and `updated` = today. Other body values are kept and missing declared fields are `None`. |
| Characters.CreateCharacter | app/routes_characters.py:48-63 | The new sheet is stored under the fresh id in the user's bucket, which is created if absent. Other users' buckets are unchanged. |
| Characters.CreateThenGet | app/routes_characters.py:45 | After a create, reading the returned id gives the stored sheet. |
| Characters.CreateAppendsToList | app/routes_characters.py:29 | With a fresh id, the new sheet is listed last. |
| Characters.MergeLoopSpec | app/routes_characters.py:84-87 | The loop over the body's items, visited one by one in any order that lists each key once, ends in the pointwise merge. `id`, `updated` and every non-`None` value are written, every other existing key keeps its value, and no key is dropped. |
| Characters.MergedSheet | app/routes_characters.py:79-88 | After the merge, `id` is the path id and `updated` is today. A key takes the dumped body's value iff that value is not `None`, and otherwise keeps its old value. No key is removed. |
| Characters.MergeByBody | app/routes_characters.py:80-87 | Stated on the request body: a key changes iff the body gives it a non-`None` value. Keys the body omits or sets to `None` keep their values. |
| Characters.UpdateCharacter | app/routes_characters.py:66-89 | An unknown id gives 404 and leaves the store unchanged. Otherwise the merged sheet replaces the old one under the same key, and the key order is unchanged. Other users' buckets are unchanged. |
| Characters.UpdateKeepsListPosition | app/routes_characters.py:84-88 | After an update, the user's list is the old list with only the updated sheet's entry replaced, at the same position. |
| Characters.DeleteCharacter | app/routes_characters.py:92-105 | An unknown id gives 404 and leaves the store unchanged. Otherwise exactly that id leaves the user's map and order. Other users' buckets are unchanged. |
| Characters.DeleteThenGet | app/routes_characters.py:99-104 | After a delete the sheet is not found, and the user's other sheets read as before. |
| GameRooms.ListRooms | app/routes_game_rooms.py:46-80 | A room is listed iff it is stored and passes every active filter: keyword, status set and module. |
| GameRooms.ListRoomsIsOneFilter | app/routes_game_rooms.py:57-79 | The three successive filters equal one filter by their conjunction. |
| GameRooms.ListRoomsKeepsOrder | app/routes_game_rooms.py:57-80 | The listing is an order-preserving subsequence of all rooms in creation order. |
| GameRooms.NoFiltersListsAll | app/routes_game_rooms.py:57 | With no keyword, status or module, every room is listed in creation order. |
| GameRooms.BlankKeywordMatchesAll | app/routes_game_rooms.py:58-67 | A whitespace-only keyword strips to the empty string and matches every room. |
| GameRooms.StatusSetOfList | app/routes_game_rooms.py:69 | A status query that joins comma-free statuses with "," admits exactly those statuses that are not blank, each stripped. |
| GameRooms.BlankStatusFiltersNothing | app/routes_game_rooms.py:68-71 | A status made only of commas and whitespace gives an empty set, so status filtering is off. |
| GameRooms.GetRoom | app/routes_game_rooms.py:83-94 | Returns 404 exactly when the id is absent, and the stored room otherwise. |
| GameRooms.CreateRoom | app/routes_game_rooms.py:97-118 | The owner is the current user, `currentPlayers` is 1 and the status is "recruiting". `maxPlayers` is the body value, or 6 when it is omitted or 0. Text fields and tags default to empty. The room is stored under the fresh id. |
| GameRooms.CreateThenGetRoom | app/routes_game_rooms.py:89-94 | After a create, looking up the fresh id gives the new room. |
| GameRooms.CreateRoomListedLast | app/routes_game_rooms.py:117 | With a fresh id, the new room is listed last. |
| GameRooms.ApplyRoom | app/routes_game_rooms.py:121-133 | Returns 404 iff the room is absent. The signature carries no state out, so nothing changes. |
| Text.ContainsIffOccurs | app/routes_game_rooms.py:63-66 | Python's substring test `k in s` holds iff `k` occurs at some position of `s`. |
| Text.JoinSplit | app/routes_game_rooms.py:69 | `split(",")` loses nothing: joining the parts with "," gives back the string. |
| Text.SplitJoin | app/routes_game_rooms.py:69 | `split(",")` recovers comma-free parts joined with ",", so the split is the inverse of the join. |
| Text.StripSpec | app/routes_game_rooms.py:59 | A stripped string has no whitespace at either end. It is empty iff the input is all whitespace. |

## Left out

- The HTTP, WebSocket and Socket.IO transports are left out. This covers `await websocket.accept()`, `send_text`, the receive loop in `app/main.py`, routing, CORS and the `{"ok": ...}` response envelopes. They are I/O; results are `Result` values and 404 is `HttpError.NotFound`.
- Concurrency is left out. The model is sequential, so a join or leave by another task while a broadcast awaits a send is not modelled.
- Socket.IO internals are left out. This includes the library's own removal of a session from its rooms on disconnect and the wire encoding of an emit.
- SocketIo.JoinThenMessageDelivers and SocketIo.RunKeepsMembers hold for the handlers as written. The library itself removes a disconnected session from its rooms, which is not modelled, so in the running server the delivery guarantee applies to sessions that stay connected.
- Authentication (`app/routes_auth.py`), `app/routes_rooms.py` and `app/routes_channels.py` are not part of this model. The current user is a parameter. `routes_channels` only forwards to `get_messages`.
- `get_modules` and `get_tags` in `app/routes_game_rooms.py` are left out because they return constant lists.
- Pydantic validation and coercion are left out. Schema field names and defaults are used; field types are not checked.
- ChannelStore.AppendMessage, ChannelStore.ChannelOf, SocketIo.OnJoin and SocketIo.OnMessage require a truthy `channelId` to be a string. A non-string one reaches `str()` in `join` but is used raw in `message` and history, and Python's `str()` of other values is not modelled.
- Text.Lower lowercases ASCII letters only, because Unicode case mapping is not modelled.
- Text.Strip treats only the Latin-1 whitespace characters as whitespace, because Unicode whitespace tables are not modelled.
- Floating-point payload values are left out.
- Dict key order inside a record is left out, because records are maps. The insertion order of the character buckets and of the lobby is modelled.
- Aliasing is left out. `get_messages` may return the live list and `update_character` mutates the stored dict; both are modelled as values.
- `uuid4` and `date.today` are left out; their results are parameters. A colliding id overwrites in place, as a Python dict does, and freshness is assumed only in the lemmas that need it.
