/**
 * Character sheets: per user, an insertion-ordered dict from character id
 * to the sheet record. Every route reads and writes only the bucket of the
 * user it is called for. Fresh ids and today's date are parameters.
 */
module Characters {
  import opened Wrappers
  import opened PyValues
  import Dicts

  /** User name -> (character id -> sheet). */
  type CharacterStore = map<string, Dicts.Dict<Record>>

  /** The fields the `Character` schema declares; `model_dump` always emits them, `None` when not given. */
  const DeclaredFields: set<string> := {
    "id", "updated", "campaign", "era", "skillCap", "attributesSource", "name",
    "occupation", "age", "gender", "currentResidence", "birthplace",
    "str", "dex", "siz", "app", "con", "int", "pow", "edu", "luc",
    "hpCurrent", "mpCurrent", "sanCurrent", "seriousWound", "unconscious", "dead",
    "temporaryInsanity", "permanentInsanity", "indefiniteInsanity",
    "skillRule", "skills", "weapons", "combat", "possessions", "mythos", "story",
    "companions", "scenarios"
  }

  /** `body.model_dump(exclude_none=False)` for a schema declaring `declared`: those fields plus the extra ones the body carries. */
  function Dump(body: Record, declared: set<string>): Record {
    map k | k in declared + body.Keys :: Get(body, k)
  }

  /** The dump holds every declared field and every body field, with the body's values and `None` elsewhere. */
  lemma DumpSpec(body: Record, declared: set<string>)
    ensures forall k :: k in Dump(body, declared) <==> k in declared || k in body
    ensures forall k :: k in body ==> Dump(body, declared)[k] == body[k]
    ensures forall k :: k in Dump(body, declared) && k !in body ==> Dump(body, declared)[k] == Null
  {
  }

  /** `_characters_by_user.get(user, {})`. */
  function Sheets(store: CharacterStore, user: string): Dicts.Dict<Record> {
    if user in store then store[user] else Dicts.Empty()
  }

  /** Every user other than `user` keeps exactly the bucket they had, or still has none. */
  ghost predicate OtherUsersUnchanged(before: CharacterStore, after: CharacterStore, user: string) {
    forall u :: u != user ==> (u in after <==> u in before) && (u in before ==> after[u] == before[u])
  }

  /** `list_characters`: the user's sheets in creation order — every stored sheet and nothing else. */
  function ListCharacters(store: CharacterStore, user: string): (r: seq<Record>)
    ensures user !in store ==> r == []
    ensures |r| == |Sheets(store, user).order|
    ensures forall i :: 0 <= i < |r| ==> r[i] == Sheets(store, user).entries[Sheets(store, user).order[i]]
    ensures forall id :: id in Sheets(store, user).entries ==> Sheets(store, user).entries[id] in r
    ensures forall c :: c in r ==> exists id :: id in Sheets(store, user).entries && Sheets(store, user).entries[id] == c
  {
    Dicts.ValuesComplete(Sheets(store, user));
    Dicts.Values(Sheets(store, user))
  }

  /** `get_character`: the stored sheet, or 404 when the user has no sheet with that id. */
  function GetCharacter(store: CharacterStore, user: string, id: string): (r: Result<Record, HttpError>)
    ensures r.Failure? <==> id !in Sheets(store, user).entries
    ensures r.Success? ==> r.value == Sheets(store, user).entries[id]
  {
    match Dicts.Get(Sheets(store, user), id)
    case Some(c) => Success(c)
    case None => Failure(NotFound)
  }

  /** The sheet `create_character` stores: the dumped body with `id` set to the fresh id and `updated` to today. */
  function NewSheet(body: Record, declared: set<string>, freshId: string, today: string): (sheet: Record)
    ensures forall k :: k in sheet <==> k in declared || k in body || k == "id" || k == "updated"
    ensures "id" in sheet && sheet["id"] == Str(freshId)
    ensures "updated" in sheet && sheet["updated"] == Str(today)
    ensures forall k :: k in body && k != "id" && k != "updated" ==> sheet[k] == body[k]
    ensures forall k :: k in declared && k !in body && k != "id" && k != "updated" ==> sheet[k] == Null
  {
    DumpSpec(body, declared);
    Dump(body, declared)["id" := Str(freshId)]["updated" := Str(today)]
  }

  /**
   * `create_character`: stores the new sheet under the fresh id, creating the
   * user's bucket when absent; a caller-supplied `id` is overwritten.
   */
  function CreateCharacter(store: CharacterStore, user: string, body: Record, freshId: string, today: string)
    : (r: (CharacterStore, Record))
    ensures r.1 == NewSheet(body, DeclaredFields, freshId, today)
    ensures user in r.0 && Sheets(r.0, user).entries == Sheets(store, user).entries[freshId := r.1]
    ensures OtherUsersUnchanged(store, r.0, user)
  {
    var sheet := NewSheet(body, DeclaredFields, freshId, today);
    (store[user := Dicts.Put(Sheets(store, user), freshId, sheet)], sheet)
  }

  /** After a create, reading the returned id gives back the stored sheet. */
  lemma CreateThenGet(store: CharacterStore, user: string, body: Record, freshId: string, today: string)
    ensures var (store', sheet) := CreateCharacter(store, user, body, freshId, today);
      GetCharacter(store', user, freshId) == Success(sheet)
  {
  }

  /** With a fresh id, a create appends the new sheet at the end of the user's list. */
  lemma CreateAppendsToList(store: CharacterStore, user: string, body: Record, freshId: string, today: string)
    requires freshId !in Sheets(store, user).entries
    ensures var (store', sheet) := CreateCharacter(store, user, body, freshId, today);
      ListCharacters(store', user) == ListCharacters(store, user) + [sheet]
  {
    var raw := CreateCharacter(store, user, body, freshId, today).1;
    Dicts.ValuesPutNew(Sheets(store, user), freshId, raw);
  }

  /** A body value that the merge writes: any non-`None` value, and `id`/`updated` always. */
  predicate Written(raw: Record, k: string) {
    k in raw && (raw[k] != Null || k == "id" || k == "updated")
  }

  /** The merge loop of `update_character` over the existing sheet. */
  function Merge(existing: Record, raw: Record): Record {
    map k | k in existing.Keys + raw.Keys && (k in existing || Written(raw, k)) ::
      if Written(raw, k) then raw[k] else existing[k]
  }

  /** What the merge keeps, what it writes, and that it never drops a key. */
  lemma MergeSpec(existing: Record, raw: Record)
    ensures forall k :: k in Merge(existing, raw) <==> k in existing || Written(raw, k)
    ensures forall k :: Written(raw, k) ==> Merge(existing, raw)[k] == raw[k]
    ensures forall k :: k in existing && !Written(raw, k) ==> Merge(existing, raw)[k] == existing[k]
  {
  }

  /** One pass of `for k, v in raw.items()`: writes `v` when it is not `None`, and `id`/`updated` always. */
  function WriteItem(existing: Record, item: (string, Value)): Record {
    var (k, v) := item;
    if v != Null || k == "id" || k == "updated" then existing[k := v] else existing
  }

  /** The merge loop as written: the items visited one after another, in the order given. */
  function MergeLoop(existing: Record, items: seq<(string, Value)>): Record
    decreases |items|
  {
    if |items| == 0 then existing else MergeLoop(WriteItem(existing, items[0]), items[1..])
  }

  /** The keys a sequence of items visits. */
  function KeysOf(items: seq<(string, Value)>): set<string>
    decreases |items|
  {
    if |items| == 0 then {} else {items[0].0} + KeysOf(items[1..])
  }

  /** No key is visited twice, as in the items of a dict. */
  predicate DistinctKeys(items: seq<(string, Value)>)
    decreases |items|
  {
    |items| == 0 || (items[0].0 !in KeysOf(items[1..]) && DistinctKeys(items[1..]))
  }

  /** The dict whose `items()` are `items`. */
  function ItemsMap(items: seq<(string, Value)>): (m: Record)
    ensures m.Keys == KeysOf(items)
    decreases |items|
  {
    if |items| == 0 then map[] else ItemsMap(items[1..])[items[0].0 := items[0].1]
  }

  /** Writing one item first and merging the rest is merging the dict that also holds that item. */
  lemma MergeWriteFirst(existing: Record, k: string, v: Value, rest: Record)
    requires k !in rest
    ensures Merge(WriteItem(existing, (k, v)), rest) == Merge(existing, rest[k := v])
  {
  }

  /**
   * The loop over `raw.items()` at the heart of `update_character`, in any
   * iteration order that visits each key of `raw` once, leaves exactly the
   * pointwise merge: `id`, `updated` and every non-`None` value of `raw` are
   * written, every other existing key keeps its value, and no key is dropped.
   */
  lemma {:induction false} MergeLoopSpec(existing: Record, items: seq<(string, Value)>)
    requires DistinctKeys(items)
    ensures MergeLoop(existing, items) == Merge(existing, ItemsMap(items))
    ensures var raw, r := ItemsMap(items), MergeLoop(existing, items);
      && (forall k :: k in r <==> k in existing || Written(raw, k))
      && (forall k :: Written(raw, k) ==> r[k] == raw[k])
      && (forall k :: k in existing && !Written(raw, k) ==> r[k] == existing[k])
    decreases |items|
  {
    if |items| > 0 {
      var (k, v) := items[0];
      MergeLoopSpec(WriteItem(existing, items[0]), items[1..]);
      MergeWriteFirst(existing, k, v, ItemsMap(items[1..]));
    }
    MergeSpec(existing, ItemsMap(items));
  }

  /**
   * The merge loop of `update_character` on the dumped body `raw`: every key
   * whose value in `raw` is not `None` takes that value, every other key keeps
   * its old value, no key is removed, `id` becomes the path id and `updated` today.
   */
  function MergedSheet(prev: Record, raw: Record, id: string, today: string): (next: Record)
    ensures "id" in next && next["id"] == Str(id)
    ensures "updated" in next && next["updated"] == Str(today)
    ensures forall k :: k in prev ==> k in next
    ensures forall k :: k != "id" && k != "updated" && k in raw && raw[k] != Null ==> k in next && next[k] == raw[k]
    ensures forall k :: k != "id" && k != "updated" && !(k in raw && raw[k] != Null) ==>
      (k in next <==> k in prev) && (k in prev ==> next[k] == prev[k])
  {
    var written := raw["id" := Str(id)]["updated" := Str(today)];
    MergeSpec(prev, written);
    Merge(prev, written)["updated" := Str(today)]
  }

  /**
   * Stated on the request body: a key takes the body's value iff that value
   * is given and not `None`; keys the body leaves out or sets to `None` keep
   * their old values, whatever fields the schema declares.
   */
  lemma MergeByBody(prev: Record, body: Record, declared: set<string>, id: string, today: string)
    ensures var next := MergedSheet(prev, Dump(body, declared), id, today);
      && (forall k :: k != "id" && k != "updated" && k in body && body[k] != Null ==> k in next && next[k] == body[k])
      && (forall k :: k != "id" && k != "updated" && !(k in body && body[k] != Null) ==>
            (k in next <==> k in prev) && (k in prev ==> next[k] == prev[k]))
  {
    var raw := Dump(body, declared);
    DumpSpec(body, declared);
    forall k | k in raw && k !in body
      ensures raw[k] == Null
    {
    }
  }

  /** `update_character`: 404 with nothing changed when the id is unknown, else the merged sheet replaces the old one in place. */
  function UpdateCharacter(store: CharacterStore, user: string, id: string, body: Record, today: string)
    : (r: (CharacterStore, Result<Record, HttpError>))
    ensures r.1.Failure? <==> id !in Sheets(store, user).entries
    ensures r.1.Failure? ==> r.0 == store
    ensures r.1.Success? ==> r.1.value == MergedSheet(Sheets(store, user).entries[id], Dump(body, DeclaredFields), id, today)
    ensures r.1.Success? ==>
      && user in r.0
      && Sheets(r.0, user).order == Sheets(store, user).order
      && Sheets(r.0, user).entries == Sheets(store, user).entries[id := r.1.value]
    ensures OtherUsersUnchanged(store, r.0, user)
  {
    var sheets := Sheets(store, user);
    if id !in sheets.entries then (store, Failure(NotFound))
    else
      var merged := MergedSheet(sheets.entries[id], Dump(body, DeclaredFields), id, today);
      (store[user := Dicts.Put(sheets, id, merged)], Success(merged))
  }

  /** An update keeps the sheet at its place in the user's list and changes nothing else there. */
  lemma UpdateKeepsListPosition(store: CharacterStore, user: string, id: string, body: Record, today: string, i: nat)
    requires i < |Sheets(store, user).order| && Sheets(store, user).order[i] == id
    ensures var (store', r) := UpdateCharacter(store, user, id, body, today);
      r.Success? && ListCharacters(store', user) == ListCharacters(store, user)[i := r.value]
  {
    var merged := UpdateCharacter(store, user, id, body, today).1.value;
    Dicts.ValuesPutExisting(Sheets(store, user), id, merged, i);
  }

  /** `delete_character`: 404 with nothing changed when the id is unknown, else exactly that sheet is gone. */
  function DeleteCharacter(store: CharacterStore, user: string, id: string): (r: (CharacterStore, Result<(), HttpError>))
    ensures r.1.Failure? <==> id !in Sheets(store, user).entries
    ensures r.1.Failure? ==> r.0 == store
    ensures r.1.Success? ==>
      && user in r.0
      && Sheets(r.0, user).entries == Sheets(store, user).entries - {id}
      && Sheets(r.0, user).order == Dicts.Without(Sheets(store, user).order, id)
    ensures OtherUsersUnchanged(store, r.0, user)
  {
    var sheets := Sheets(store, user);
    if id !in sheets.entries then (store, Failure(NotFound))
    else (store[user := Dicts.Remove(sheets, id)], Success(()))
  }

  /** After a delete, the sheet is not found any more, and the user's other sheets still are. */
  lemma DeleteThenGet(store: CharacterStore, user: string, id: string, other: string)
    requires id in Sheets(store, user).entries
    requires other != id
    ensures var store' := DeleteCharacter(store, user, id).0;
      && GetCharacter(store', user, id) == Failure(NotFound)
      && GetCharacter(store', user, other) == GetCharacter(store, user, other)
  {
  }
}
