/** The owner-scoped game collection of routes/gameRoutes.js. The caller is
    the user the authentication middleware resolved; the collection is a map
    from id to record; each handler gives the status and JSON envelope it
    responds with. */
module Games {
  import opened JsValues

  type UserId = string
  type GameId = nat

  /** A JSON value of a request body or a stored field. Arrays and objects
      are not looked into; they are always truthy. */
  datatype Json = Undefined | Null | Bool(b: bool) | Num(x: real) | Str(s: string) | Compound

  /** JavaScript truthiness (`NaN` is not representable here). */
  predicate JsonTruthy(v: Json) {
    match v
    case Undefined => false
    case Null => false
    case Bool(b) => b
    case Num(x) => x != 0.0
    case Str(s) => s != ""
    case Compound => true
  }

  type Fields = map<string, Json>

  /** `obj[key]`: a missing key reads as `undefined`. */
  function Field(f: Fields, key: string): Json {
    if key in f then f[key] else Undefined
  }

  /** `v || fallback`: one of its operands, truthy exactly when either
      operand is, and the first operand whenever that one is truthy. */
  function Or(v: Json, fallback: Json): (r: Json)
    ensures r == v || r == fallback
    ensures JsonTruthy(r) <==> JsonTruthy(v) || JsonTruthy(fallback)
    ensures JsonTruthy(v) ==> r == v
    ensures !JsonTruthy(v) ==> r == fallback
  {
    if JsonTruthy(v) then v else fallback
  }

  /** A stored record: its fields (the owner under "user") and the creation
      time the store stamps on it. */
  datatype Game = Game(fields: Fields, createdAt: nat)

  predicate OwnedBy(g: Game, caller: UserId) {
    Field(g.fields, "user") == Str(caller)
  }

  datatype Entry = Entry(id: GameId, game: Game)

  datatype Payload = NoData | One(entry: Entry) | Many(entries: seq<Entry>)

  /** The HTTP status and the JSON envelope `{success, message?, data?}`. */
  datatype Response = Response(status: nat, success: bool, message: Option<string>, data: Payload)

  const NotFound: Response := Response(404, false, Some("Game not found"), NoData)
  const TitleRequired: Response := Response(400, false, Some("Title is required"), NoData)
  const GameEmoji: string := "\U{1F3AE}"

  const CreatedKeys: set<string> := {"title", "platform", "status", "rating", "image", "user"}

  /** The record `POST /` stores: the title, four fields with their defaults
      in place of falsy values, and the caller as owner. */
  function GameData(body: Fields, caller: UserId): (data: Fields)
    ensures data.Keys == CreatedKeys
    ensures data["title"] == Field(body, "title")
    ensures JsonTruthy(Field(body, "platform")) ==> data["platform"] == Field(body, "platform")
    ensures !JsonTruthy(Field(body, "platform")) ==> data["platform"] == Str("PC")
    ensures JsonTruthy(Field(body, "status")) ==> data["status"] == Field(body, "status")
    ensures !JsonTruthy(Field(body, "status")) ==> data["status"] == Str("Plan to Play")
    ensures JsonTruthy(Field(body, "rating")) ==> data["rating"] == Field(body, "rating")
    ensures !JsonTruthy(Field(body, "rating")) ==> data["rating"] == Num(0.0)
    ensures JsonTruthy(Field(body, "image")) ==> data["image"] == Field(body, "image")
    ensures !JsonTruthy(Field(body, "image")) ==> data["image"] == Str(GameEmoji)
    ensures data["user"] == Str(caller)
  {
    map[
      "title" := Field(body, "title"),
      "platform" := Or(Field(body, "platform"), Str("PC")),
      "status" := Or(Field(body, "status"), Str("Plan to Play")),
      "rating" := Or(Field(body, "rating"), Num(0.0)),
      "image" := Or(Field(body, "image"), Str(GameEmoji)),
      "user" := Str(caller)
    ]
  }

  /** Only the five named body fields matter to a created record: whatever
      else the body holds, "user" included, is dropped. */
  lemma GameDataIgnoresOtherFields(body: Fields, body': Fields, caller: UserId)
    requires forall k :: k in CreatedKeys - {"user"} ==> Field(body, k) == Field(body', k)
    ensures GameData(body, caller) == GameData(body', caller)
  {
    var d, d' := GameData(body, caller), GameData(body', caller);
    forall k | k in CreatedKeys ensures d[k] == d'[k] {
      if k != "user" {
        assert Field(body, k) == Field(body', k);
      }
    }
  }

  /** `POST /api/games {title: "Elden Ring"}` as user U. */
  lemma CreateDefaultsExample(caller: UserId)
    ensures var d := GameData(map["title" := Str("Elden Ring")], caller);
      d["platform"] == Str("PC") && d["status"] == Str("Plan to Play") &&
      d["rating"] == Num(0.0) && d["image"] == Str(GameEmoji) && d["user"] == Str(caller)
  {
  }

  /** `createdAt: -1`: the newest records first. */
  predicate NewestFirst(s: seq<Entry>) {
    forall i, j :: 0 <= i < j < |s| ==> s[i].game.createdAt >= s[j].game.createdAt
  }

  predicate DistinctIds(s: seq<Entry>) {
    forall i, j :: 0 <= i < j < |s| ==> s[i].id != s[j].id
  }

  /** Puts `x` before the first entry it is at least as new as. */
  function InsertNewestFirst(s: seq<Entry>, x: Entry): (r: seq<Entry>)
    ensures multiset(r) == multiset(s) + multiset{x}
  {
    if s == [] || s[0].game.createdAt <= x.game.createdAt then [x] + s
    else
      assert s == [s[0]] + s[1..];
      [s[0]] + InsertNewestFirst(s[1..], x)
  }

  /** Inserting into a newest-first sequence keeps it newest first. */
  lemma {:induction false} InsertNewestFirstSorted(s: seq<Entry>, x: Entry)
    requires NewestFirst(s)
    ensures NewestFirst(InsertNewestFirst(s, x))
  {
    if s != [] && s[0].game.createdAt > x.game.createdAt {
      InsertNewestFirstSorted(s[1..], x);
      var rest := InsertNewestFirst(s[1..], x);
      forall k | 0 <= k < |rest| ensures rest[k].game.createdAt <= s[0].game.createdAt {
        assert rest[k] in multiset(rest);
        if rest[k] != x {
          assert rest[k] in multiset(s[1..]);
          var j :| 0 <= j < |s[1..]| && s[1..][j] == rest[k];
          assert s[j + 1] == rest[k];
        }
      }
    }
  }

  lemma InsertNewestFirstMembers(s: seq<Entry>, x: Entry)
    ensures forall e :: e in InsertNewestFirst(s, x) <==> e in s || e == x
  {
    var r := InsertNewestFirst(s, x);
    forall e ensures e in r <==> e in s || e == x {
      assert e in r <==> e in multiset(r);
      assert e in s <==> e in multiset(s);
    }
  }

  lemma {:induction false} InsertNewestFirstDistinct(s: seq<Entry>, x: Entry)
    requires DistinctIds(s)
    requires forall e :: e in s ==> e.id != x.id
    ensures DistinctIds(InsertNewestFirst(s, x))
  {
    if s != [] && s[0].game.createdAt > x.game.createdAt {
      InsertNewestFirstDistinct(s[1..], x);
      InsertNewestFirstMembers(s[1..], x);
      var rest := InsertNewestFirst(s[1..], x);
      forall k | 0 <= k < |rest| ensures rest[k].id != s[0].id {
        assert rest[k] in rest;
        if rest[k] != x {
          var j :| 0 <= j < |s[1..]| && s[1..][j] == rest[k];
          assert s[j + 1] == rest[k];
        }
      }
    }
  }

  /** The records of a store, with their ids, that `caller` owns. */
  ghost predicate IsOwnedEntry(games: map<GameId, Game>, caller: UserId, e: Entry) {
    e.id in games && games[e.id] == e.game && OwnedBy(e.game, caller)
  }

  /** The games collection, updated in place by the handlers. Ids are
      handed out from a counter, which stands for the store's unique id
      generation. */
  class GameStore {
    var games: map<GameId, Game>
    var nextId: GameId

    ghost predicate Valid()
      reads this
    {
      forall id :: id in games ==> id < nextId
    }

    constructor ()
      ensures Valid() && games == map[] && nextId == 0
    {
      games := map[];
      nextId := 0;
    }

    /** `GET /`: every record the caller owns, each once, newest first. */
    method List(caller: UserId) returns (r: Response)
      ensures r.status == 200 && r.success && r.message == None && r.data.Many?
      ensures NewestFirst(r.data.entries) && DistinctIds(r.data.entries)
      ensures forall e :: e in r.data.entries <==> IsOwnedEntry(games, caller, e)
    {
      var rest := games.Keys;
      var found: seq<Entry> := [];
      while rest != {}
        invariant rest <= games.Keys
        invariant NewestFirst(found) && DistinctIds(found)
        invariant forall e :: e in found <==> IsOwnedEntry(games, caller, e) && e.id !in rest
        decreases rest
      {
        var id :| id in rest;
        var g := games[id];
        if OwnedBy(g, caller) {
          InsertNewestFirstSorted(found, Entry(id, g));
          InsertNewestFirstMembers(found, Entry(id, g));
          InsertNewestFirstDistinct(found, Entry(id, g));
          found := InsertNewestFirst(found, Entry(id, g));
        }
        rest := rest - {id};
      }
      r := Response(200, true, None, Many(found));
    }

    /** `GET /:id`: the record when the caller owns it; a missing id and
        another user's id give the same 404. */
    method Get(caller: UserId, id: GameId) returns (r: Response)
      ensures id in games && OwnedBy(games[id], caller) ==>
                r == Response(200, true, None, One(Entry(id, games[id])))
      ensures !(id in games && OwnedBy(games[id], caller)) ==> r == NotFound
    {
      if id in games && OwnedBy(games[id], caller) {
        r := Response(200, true, None, One(Entry(id, games[id])));
      } else {
        r := NotFound;
      }
    }

    /** `POST /`: refuses a falsy title; otherwise stores exactly one new
        record built by `GameData`, owned by the caller and stamped `now`. */
    method Create(caller: UserId, body: Fields, now: nat) returns (r: Response)
      requires Valid()
      modifies this
      ensures Valid()
      ensures !JsonTruthy(Field(body, "title")) ==>
                r == TitleRequired && games == old(games) && nextId == old(nextId)
      ensures JsonTruthy(Field(body, "title")) ==>
                && old(nextId) !in old(games)
                && games == old(games)[old(nextId) := Game(GameData(body, caller), now)]
                && r == Response(201, true, Some("Game created successfully"),
                                 One(Entry(old(nextId), games[old(nextId)])))
      ensures forall k :: k in old(games) ==> k in games && games[k] == old(games)[k]
    {
      if !JsonTruthy(Field(body, "title")) {
        return TitleRequired;
      }
      var gameData := GameData(body, caller);
      var id := nextId;
      games := games[id := Game(gameData, now)];
      nextId := nextId + 1;
      r := Response(201, true, Some("Game created successfully"), One(Entry(id, games[id])));
    }

    /** `PUT /:id`: a missing or foreign id gives 404 and changes nothing;
        on an owned id the body's fields are merged into that record only.
        The body is not filtered, so it may rewrite "user" as well. */
    method Update(caller: UserId, id: GameId, body: Fields) returns (r: Response)
      requires Valid()
      modifies this
      ensures Valid() && nextId == old(nextId)
      ensures !(id in old(games) && OwnedBy(old(games)[id], caller)) ==>
                r == NotFound && games == old(games)
      ensures id in old(games) && OwnedBy(old(games)[id], caller) ==>
                && games == old(games)[id := Game(old(games)[id].fields + body, old(games)[id].createdAt)]
                && r == Response(200, true, Some("Game updated successfully"), One(Entry(id, games[id])))
      ensures games.Keys == old(games.Keys)
      ensures forall k :: k in old(games) && k != id ==> games[k] == old(games)[k]
      ensures forall k :: k in old(games) && !OwnedBy(old(games)[k], caller) ==> games[k] == old(games)[k]
    {
      if !(id in games && OwnedBy(games[id], caller)) {
        return NotFound;
      }
      var game := games[id];
      games := games[id := Game(game.fields + body, game.createdAt)];
      r := Response(200, true, Some("Game updated successfully"), One(Entry(id, games[id])));
    }

    /** `DELETE /:id`: a missing or foreign id gives 404 and changes nothing;
        an owned id is removed and nothing else. */
    method Delete(caller: UserId, id: GameId) returns (r: Response)
      requires Valid()
      modifies this
      ensures Valid() && nextId == old(nextId)
      ensures !(id in old(games) && OwnedBy(old(games)[id], caller)) ==>
                r == NotFound && games == old(games)
      ensures id in old(games) && OwnedBy(old(games)[id], caller) ==>
                games == old(games) - {id} &&
                r == Response(200, true, Some("Game deleted successfully"), NoData)
      ensures forall k :: k in old(games) && k != id ==> k in games && games[k] == old(games)[k]
      ensures forall k :: k in old(games) && !OwnedBy(old(games)[k], caller) ==>
                k in games && games[k] == old(games)[k]
    {
      if !(id in games && OwnedBy(games[id], caller)) {
        return NotFound;
      }
      games := games - {id};
      r := Response(200, true, Some("Game deleted successfully"), NoData);
    }
  }

}
