/**
 * The game-room lobby: an insertion-ordered dict from room id to room, the
 * `list_rooms` filter pipeline (keyword, comma-separated status set, module),
 * creation with defaults, lookup and the apply endpoint. Fresh ids and
 * today's date are parameters.
 */
module GameRooms {
  import opened Wrappers
  import opened PyValues
  import opened Text
  import opened Seqs
  import Dicts

  datatype Room = Room(
    id: string,
    name: string,
    description: string,
    moduleName: string,  // the `module` key
    moduleIcon: string,
    owner: string,
    maxPlayers: int,
    currentPlayers: int,
    status: string,
    tags: seq<string>,
    createdAt: string)

  /** The `GameRoomCreate` request body; `None` marks a field the client left out. */
  datatype RoomCreate = RoomCreate(
    name: string,
    description: Option<string>,
    moduleName: Option<string>,  // the `module` key
    moduleIcon: Option<string>,
    maxPlayers: Option<int>,
    tags: Option<seq<string>>)

  /** Room id -> room, in creation order. */
  type Lobby = Dicts.Dict<Room>

  /** The normalised search text: `q.strip().lower()`. */
  function Needle(q: string): string {
    Lower(Strip(q))
  }

  /** The keyword occurs in the lowercased name, description, owner or module. */
  predicate KeywordHit(rm: Room, k: string) {
    || Contains(Lower(rm.name), k)
    || Contains(Lower(rm.description), k)
    || Contains(Lower(rm.owner), k)
    || Contains(Lower(rm.moduleName), k)
  }

  /** The module query occurs in the lowercased module or module icon. */
  predicate ModuleHit(rm: Room, m: string) {
    Contains(Lower(rm.moduleName), m) || Contains(Lower(rm.moduleIcon), m)
  }

  /** `{s.strip() for s in status.split(",") if s.strip()}`. */
  function StatusSet(status: string): set<string> {
    set p | p in Split(status, ',') && Strip(p) != "" :: Strip(p)
  }

  /** The statuses a query admits; empty means the status filter is off. */
  function Allowed(status: Option<string>): set<string> {
    if Given(status) then StatusSet(status.value) else {}
  }

  /** A room passes every filter the query switches on. */
  predicate Matches(rm: Room, keyword: Option<string>, status: Option<string>, moduleQuery: Option<string>) {
    && (!Given(keyword) || KeywordHit(rm, Needle(keyword.value)))
    && (Allowed(status) == {} || rm.status in Allowed(status))
    && (!Given(moduleQuery) || ModuleHit(rm, Needle(moduleQuery.value)))
  }

  /**
   * `list_rooms`: the rooms, in creation order, that pass the keyword, status
   * and module filters in turn — exactly the stored rooms that match them all.
   */
  function ListRooms(lobby: Lobby, keyword: Option<string>, status: Option<string>, moduleQuery: Option<string>)
    : (r: seq<Room>)
    ensures forall rm :: rm in r <==> rm in Dicts.Values(lobby) && Matches(rm, keyword, status, moduleQuery)
  {
    var all := Dicts.Values(lobby);
    var byKeyword :=
      if Given(keyword) then
        var k := Needle(keyword.value);
        Filter(all, rm => KeywordHit(rm, k))
      else all;
    var allowed := Allowed(status);
    var byStatus := if allowed != {} then Filter(byKeyword, (rm: Room) => rm.status in allowed) else byKeyword;
    if Given(moduleQuery) then
      var m := Needle(moduleQuery.value);
      Filter(byStatus, rm => ModuleHit(rm, m))
    else byStatus
  }

  /** A filter applied only when `active` is the filter by `!active || p`. */
  lemma OptionalFilter<T>(s: seq<T>, active: bool, p: T -> bool, q: T -> bool)
    requires forall x :: q(x) <==> !active || p(x)
    ensures (if active then Filter(s, p) else s) == Filter(s, q)
  {
    if active {
      FilterAgree(s, p, q);
    } else {
      FilterKeepsAll(s, q);
    }
  }

  /** The filters compose as one filter by their conjunction. */
  lemma ListRoomsIsOneFilter(lobby: Lobby, keyword: Option<string>, status: Option<string>, moduleQuery: Option<string>)
    ensures ListRooms(lobby, keyword, status, moduleQuery)
         == Filter(Dicts.Values(lobby), rm => Matches(rm, keyword, status, moduleQuery))
  {
    var all := Dicts.Values(lobby);
    var k := if Given(keyword) then Needle(keyword.value) else "";
    var allowed := Allowed(status);
    var m := if Given(moduleQuery) then Needle(moduleQuery.value) else "";
    var p1 := (rm: Room) => !Given(keyword) || KeywordHit(rm, k);
    var p2 := (rm: Room) => allowed == {} || rm.status in allowed;
    var p3 := (rm: Room) => !Given(moduleQuery) || ModuleHit(rm, m);

    var byKeyword := if Given(keyword) then Filter(all, rm => KeywordHit(rm, k)) else all;
    OptionalFilter(all, Given(keyword), rm => KeywordHit(rm, k), p1);
    var byStatus := if allowed != {} then Filter(byKeyword, (rm: Room) => rm.status in allowed) else byKeyword;
    OptionalFilter(byKeyword, allowed != {}, (rm: Room) => rm.status in allowed, p2);
    var listed := if Given(moduleQuery) then Filter(byStatus, rm => ModuleHit(rm, m)) else byStatus;
    OptionalFilter(byStatus, Given(moduleQuery), rm => ModuleHit(rm, m), p3);
    assert ListRooms(lobby, keyword, status, moduleQuery) == listed;

    FilterFuse3(all, p1, p2, p3, rm => Matches(rm, keyword, status, moduleQuery));
  }

  /** The listing is an order-preserving subsequence of all rooms in creation order. */
  lemma ListRoomsKeepsOrder(lobby: Lobby, keyword: Option<string>, status: Option<string>, moduleQuery: Option<string>)
    ensures Subseq(ListRooms(lobby, keyword, status, moduleQuery), Dicts.Values(lobby))
  {
    ListRoomsIsOneFilter(lobby, keyword, status, moduleQuery);
    FilterSubseq(Dicts.Values(lobby), rm => Matches(rm, keyword, status, moduleQuery));
  }

  /** With no filter given, every room is listed, in creation order. */
  lemma NoFiltersListsAll(lobby: Lobby)
    ensures ListRooms(lobby, None, None, None) == Dicts.Values(lobby)
  {
  }

  /** A keyword made only of whitespace matches every room. */
  lemma BlankKeywordMatchesAll(rm: Room, keyword: string)
    requires forall i :: 0 <= i < |keyword| ==> IsSpace(keyword[i])
    ensures KeywordHit(rm, Needle(keyword))
  {
    StripSpec(keyword);
    ContainsEmpty(Lower(rm.name));
  }

  /**
   * A status query listing the comma-free `statuses` admits exactly those of
   * them that are not blank, each stripped of surrounding whitespace.
   */
  lemma StatusSetOfList(statuses: seq<string>)
    requires |statuses| >= 1
    requires forall i :: 0 <= i < |statuses| ==> ',' !in statuses[i]
    ensures StatusSet(Join(statuses, ',')) == set p | p in statuses && Strip(p) != "" :: Strip(p)
  {
    SplitJoin(statuses, ',');
  }

  /** A status query made only of commas and whitespace switches the status filter off. */
  lemma BlankStatusFiltersNothing(lobby: Lobby, keyword: Option<string>, status: string, moduleQuery: Option<string>)
    requires forall i :: 0 <= i < |status| ==> status[i] == ',' || IsSpace(status[i])
    ensures ListRooms(lobby, keyword, Some(status), moduleQuery) == ListRooms(lobby, keyword, None, moduleQuery)
  {
    SplitPartsFrom(status, ',');
    forall p | p in Split(status, ',')
      ensures Strip(p) == ""
    {
      assert ',' !in p;
      forall i | 0 <= i < |p|
        ensures IsSpace(p[i])
      {
        assert p[i] in status;
      }
      StripSpec(p);
    }
    assert StatusSet(status) == {};
  }

  /** `get_room`: the stored room, or 404 exactly when the id is unknown. */
  function GetRoom(lobby: Lobby, id: string): (r: Result<Room, HttpError>)
    ensures r.Failure? <==> id !in lobby.entries
    ensures r.Success? ==> r.value == lobby.entries[id]
  {
    match Dicts.Get(lobby, id)
    case Some(rm) => Success(rm)
    case None => Failure(NotFound)
  }

  /** Python's `s or default` on a string. */
  function OrText(s: string, dflt: string): string {
    if s != "" then s else dflt
  }

  /**
   * `create_room`: a room owned by the caller, with one player, status
   * "recruiting", `maxPlayers` defaulting to 6 (also for 0) and empty
   * defaults for the text fields and tags, stored under the fresh id.
   */
  function CreateRoom(lobby: Lobby, owner: string, body: RoomCreate, freshId: string, today: string)
    : (r: (Lobby, Room))
    ensures var room := r.1;
      && room.id == freshId && room.name == body.name && room.owner == owner
      && room.currentPlayers == 1 && room.status == "recruiting" && room.createdAt == today
      && room.description == (if body.description.Some? then body.description.value else "")
      && room.moduleName == (if body.moduleName.Some? then body.moduleName.value else "")
      && room.moduleIcon == (if body.moduleIcon.Some? then body.moduleIcon.value else "")
      && room.tags == (if body.tags.Some? then body.tags.value else [])
      && room.maxPlayers == (if body.maxPlayers.Some? && body.maxPlayers.value != 0 then body.maxPlayers.value else 6)
    ensures r.0.entries == lobby.entries[freshId := r.1]
  {
    // Pydantic fills in the schema defaults for omitted fields.
    var description := if body.description.Some? then body.description.value else "";
    var moduleName := if body.moduleName.Some? then body.moduleName.value else "";
    var moduleIcon := if body.moduleIcon.Some? then body.moduleIcon.value else "";
    var maxPlayers := if body.maxPlayers.Some? then body.maxPlayers.value else 6;
    var tags := if body.tags.Some? then body.tags.value else [];
    var room := Room(
      freshId, body.name, OrText(description, ""), OrText(moduleName, ""), OrText(moduleIcon, ""),
      owner, if maxPlayers != 0 then maxPlayers else 6, 1, "recruiting",
      if tags != [] then tags else [], today);
    (Dicts.Put(lobby, freshId, room), room)
  }

  /** After a create, looking up the fresh id gives the new room. */
  lemma CreateThenGetRoom(lobby: Lobby, owner: string, body: RoomCreate, freshId: string, today: string)
    ensures var (lobby', room) := CreateRoom(lobby, owner, body, freshId, today);
      GetRoom(lobby', freshId) == Success(room)
  {
  }

  /** With a fresh id, the new room is listed last. */
  lemma CreateRoomListedLast(lobby: Lobby, owner: string, body: RoomCreate, freshId: string, today: string)
    requires freshId !in lobby.entries
    ensures var (lobby', room) := CreateRoom(lobby, owner, body, freshId, today);
      ListRooms(lobby', None, None, None) == ListRooms(lobby, None, None, None) + [room]
  {
    var room := CreateRoom(lobby, owner, body, freshId, today).1;
    Dicts.ValuesPutNew(lobby, freshId, room);
  }

  /** `apply_room`: accepted iff the room exists; nothing is stored either way. */
  function ApplyRoom(lobby: Lobby, id: string): (r: Result<(), HttpError>)
    ensures r.Failure? <==> id !in lobby.entries
  {
    if id !in lobby.entries then Failure(NotFound) else Success(())
  }
}
