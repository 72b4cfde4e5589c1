/**
 The request handlers of the API over an in-memory store: one map per table
 and one fresh-id counter per table. Read handlers are functions of the
 store; the POST, PUT and DELETE handlers are methods that change it.
 */
module App {
  import opened Json
  import opened Records
  import opened Tables

  /** A response body: an error or message object, one serialized row, or a list of them. */
  datatype Payload =
    | Error(error: string)
    | Message(msg: string)
    | PlanetData(planetId: nat, planet: Planet)
    | PersonData(personId: nat, person: Person)
    | FavoriteData(favoriteId: nat, favorite: Favorite)
    | PlanetList(planets: seq<(nat, Planet)>)
    | PersonList(people: seq<(nat, Person)>)
    | UserList(users: seq<(nat, User)>)
    | FavoriteList(favorites: seq<(nat, Favorite)>)

  /** An HTTP status code with its JSON body. */
  datatype Response = Response(status: nat, body: Payload)

  const PlanetNotFound := Response(404, Error("Planet not found"))
  const PersonNotFound := Response(404, Error("Person not found"))
  const FavoriteNotFound := Response(404, Error("Favorite not found"))
  const UserIdRequired := Response(400, Error("User ID required"))
  const PlanetDeleted := Response(200, Message("Planet deleted"))
  const PersonDeleted := Response(200, Message("Person deleted"))
  const FavoriteDeleted := Response(200, Message("Favorite deleted"))

  /** `GET /user`: a fixed greeting; it does not read any table. */
  function Hello(): (r: Response)
    ensures r.status == 200 && r.body == Message("Hello, this is your GET /user response ")
  {
    Response(200, Message("Hello, this is your GET /user response "))
  }

  /** Some stored favorite matches the user and the target. */
  ghost predicate HasMatch(favs: map<nat, Favorite>, user: Json, target: Target)
  {
    exists k :: k in favs && Matches(favs[k], user, target)
  }

  /**
   `Favorite.query.filter_by(...).first()` over the ids in [lo, hi): the
   lowest id whose favorite matches, or None when none does.
   */
  function FirstMatch(favs: map<nat, Favorite>, user: Json, target: Target, lo: nat, hi: nat): (found: Option<nat>)
    ensures found.Some? ==> lo <= found.value < hi && found.value in favs && Matches(favs[found.value], user, target)
    ensures found.Some? ==> forall j :: lo <= j < found.value && j in favs ==> !Matches(favs[j], user, target)
    ensures found.None? ==> forall j :: lo <= j < hi && j in favs ==> !Matches(favs[j], user, target)
    decreases hi - lo
  {
    if lo >= hi then None
    else if lo in favs && Matches(favs[lo], user, target) then Some(lo)
    else FirstMatch(favs, user, target, lo + 1, hi)
  }

  /** Over a whole table, the lookup finds a row exactly when some row matches. */
  lemma FirstMatchFindsAny(favs: map<nat, Favorite>, user: Json, target: Target, bound: nat)
    requires IdsBelow(favs, bound)
    ensures FirstMatch(favs, user, target, 1, bound).Some? <==> HasMatch(favs, user, target)
  {
    var found := FirstMatch(favs, user, target, 1, bound);
    if found.Some? {
      assert Matches(favs[found.value], user, target);
    }
  }

  /**
   Nothing prevents duplicate favorites, and deleting one removes only the
   first: when two rows match, a match remains after the first is removed.
   */
  lemma DuplicateSurvivesDelete(favs: map<nat, Favorite>, user: Json, target: Target, bound: nat, a: nat, b: nat)
    requires IdsBelow(favs, bound)
    requires a != b && a in favs && b in favs
    requires Matches(favs[a], user, target) && Matches(favs[b], user, target)
    ensures FirstMatch(favs, user, target, 1, bound).Some?
    ensures HasMatch(favs - {FirstMatch(favs, user, target, 1, bound).value}, user, target)
  {
    var found := FirstMatch(favs, user, target, 1, bound);
    FirstMatchFindsAny(favs, user, target, bound);
    var rest := favs - {found.value};
    if found.value == a {
      assert b in rest && Matches(rest[b], user, target);
    } else {
      assert a in rest && Matches(rest[a], user, target);
    }
  }

  /** Rows inserted one after another into an empty table: the i-th gets id i, counting from 1. */
  function Numbered<R>(rows: seq<R>): (m: map<nat, R>)
    ensures IdsBelow(m, |rows| + 1)
    ensures forall i :: 1 <= i <= |rows| ==> i in m && m[i] == rows[i - 1]
  {
    if rows == [] then map[] else Numbered(rows[..|rows| - 1])[|rows| := rows[|rows| - 1]]
  }

  /**
   The store. The fields are the four tables and the id counters; the
   tables are maps from row id to record.
   */
  class Store {
    var planets: map<nat, Planet>
    var people: map<nat, Person>
    var users: map<nat, User>
    var favorites: map<nat, Favorite>
    var nextPlanetId: nat
    var nextPersonId: nat
    var nextUserId: nat
    var nextFavoriteId: nat

    /**
     Every id is positive and below its table's counter, so the counter is
     always fresh; every favorite has a truthy user id and one target.
     */
    ghost predicate Valid()
      reads this
    {
      && 1 <= nextPlanetId && 1 <= nextPersonId && 1 <= nextUserId && 1 <= nextFavoriteId
      && IdsBelow(planets, nextPlanetId)
      && IdsBelow(people, nextPersonId)
      && IdsBelow(users, nextUserId)
      && IdsBelow(favorites, nextFavoriteId)
      && forall k :: k in favorites ==> WellFormed(favorites[k])
    }

    /** A store whose only rows are the users put there by outside tooling, numbered from 1. */
    constructor (seedUsers: seq<User>)
      ensures Valid()
      ensures planets == map[] && people == map[] && favorites == map[]
      ensures users == Numbered(seedUsers)
      ensures nextPlanetId == 1 && nextPersonId == 1 && nextFavoriteId == 1
    {
      planets := map[];
      people := map[];
      users := Numbered(seedUsers);
      favorites := map[];
      nextPlanetId := 1;
      nextPersonId := 1;
      nextUserId := |seedUsers| + 1;
      nextFavoriteId := 1;
    }

    /** `Planet.query.all()`: the planets table, one entry per stored row, by ascending id. */
    function PlanetRows(): (rows: seq<(nat, Planet)>)
      reads this
      requires Valid()
      ensures Lists(rows, planets)
    {
      RowsListAll(planets, nextPlanetId);
      Rows(planets, 1, nextPlanetId)
    }

    /** `People.query.all()`: the people table, one entry per stored row, by ascending id. */
    function PeopleRows(): (rows: seq<(nat, Person)>)
      reads this
      requires Valid()
      ensures Lists(rows, people)
    {
      RowsListAll(people, nextPersonId);
      Rows(people, 1, nextPersonId)
    }

    /** `GET /people`: 200 with one entry per stored person. */
    function GetAllPeople(): (r: Response)
      reads this
      requires Valid()
      ensures r.status == 200 && r.body.PersonList?
      ensures Lists(r.body.people, people)
      ensures |r.body.people| == |people|
    {
      var rows := PeopleRows();
      RowsListAll(people, nextPersonId);
      ListsCount(rows, people);
      Response(200, PersonList(rows))
    }

    /** `GET /people/<id>`: 200 with exactly that row when it is stored, 404 otherwise. */
    function GetOnePerson(peopleId: nat): (r: Response)
      reads this
      ensures peopleId in people <==> r.status == 200
      ensures peopleId in people ==> r.body == PersonData(peopleId, people[peopleId])
      ensures peopleId !in people ==> r == PersonNotFound
    {
      if peopleId !in people then PersonNotFound
      else Response(200, PersonData(peopleId, people[peopleId]))
    }

    /** `GET /planets`: 200 with one entry per stored planet. */
    function GetAllPlanets(): (r: Response)
      reads this
      requires Valid()
      ensures r.status == 200 && r.body.PlanetList?
      ensures Lists(r.body.planets, planets)
      ensures |r.body.planets| == |planets|
    {
      var rows := PlanetRows();
      RowsListAll(planets, nextPlanetId);
      ListsCount(rows, planets);
      Response(200, PlanetList(rows))
    }

    /** `GET /planets/<id>`: 200 with exactly that row when it is stored, 404 otherwise. */
    function GetOnePlanet(planetId: nat): (r: Response)
      reads this
      ensures planetId in planets <==> r.status == 200
      ensures planetId in planets ==> r.body == PlanetData(planetId, planets[planetId])
      ensures planetId !in planets ==> r == PlanetNotFound
    {
      if planetId !in planets then PlanetNotFound
      else Response(200, PlanetData(planetId, planets[planetId]))
    }

    /** `GET /users`: 200 with one entry per stored user. */
    function GetAllUsers(): (r: Response)
      reads this
      requires Valid()
      ensures r.status == 200 && r.body.UserList?
      ensures Lists(r.body.users, users)
      ensures |r.body.users| == |users|
    {
      var rows := Rows(users, 1, nextUserId);
      RowsListAll(users, nextUserId);
      ListsCount(rows, users);
      Response(200, UserList(rows))
    }

    /** `GET /users/favorites`: 200 with one entry per stored favorite, of every user. */
    function GetAllFavorites(): (r: Response)
      reads this
      requires Valid()
      ensures r.status == 200 && r.body.FavoriteList?
      ensures Lists(r.body.favorites, favorites)
      ensures |r.body.favorites| == |favorites|
    {
      var rows := Rows(favorites, 1, nextFavoriteId);
      RowsListAll(favorites, nextFavoriteId);
      ListsCount(rows, favorites);
      Response(200, FavoriteList(rows))
    }

    /**
     `POST /favorite/planet/<id>`: with a falsy `user_id` 400 and no new row;
     otherwise one new favorite for that user and planet, under a fresh id.
     Neither the user nor the planet has to exist.
     */
    method AddFavPlanet(planetId: nat, data: Body) returns (r: Response)
      requires Valid()
      modifies this`favorites, this`nextFavoriteId
      ensures Valid()
      ensures !Truthy(Get(data, "user_id")) ==>
        r == UserIdRequired && favorites == old(favorites) && nextFavoriteId == old(nextFavoriteId)
      ensures Truthy(Get(data, "user_id")) ==>
        && old(nextFavoriteId) !in old(favorites)
        && favorites == old(favorites)[old(nextFavoriteId) := NewFavorite(Get(data, "user_id"), OnPlanet(planetId))]
        && nextFavoriteId == old(nextFavoriteId) + 1
        && r == Response(201, FavoriteData(old(nextFavoriteId), favorites[old(nextFavoriteId)]))
    {
      var userId := Get(data, "user_id");
      if !Truthy(userId) {
        return UserIdRequired;
      }
      var id := nextFavoriteId;
      var favorite := NewFavorite(userId, OnPlanet(planetId));
      favorites := favorites[id := favorite];
      nextFavoriteId := id + 1;
      r := Response(201, FavoriteData(id, favorite));
    }

    /**
     `POST /favorite/people/<id>`: with a falsy `user_id` 400 and no new row;
     otherwise one new favorite for that user and person, under a fresh id.
     Neither the user nor the person has to exist.
     */
    method AddFavPerson(peopleId: nat, data: Body) returns (r: Response)
      requires Valid()
      modifies this`favorites, this`nextFavoriteId
      ensures Valid()
      ensures !Truthy(Get(data, "user_id")) ==>
        r == UserIdRequired && favorites == old(favorites) && nextFavoriteId == old(nextFavoriteId)
      ensures Truthy(Get(data, "user_id")) ==>
        && old(nextFavoriteId) !in old(favorites)
        && favorites == old(favorites)[old(nextFavoriteId) := NewFavorite(Get(data, "user_id"), OnPerson(peopleId))]
        && nextFavoriteId == old(nextFavoriteId) + 1
        && r == Response(201, FavoriteData(old(nextFavoriteId), favorites[old(nextFavoriteId)]))
    {
      var userId := Get(data, "user_id");
      if !Truthy(userId) {
        return UserIdRequired;
      }
      var id := nextFavoriteId;
      var favorite := NewFavorite(userId, OnPerson(peopleId));
      favorites := favorites[id := favorite];
      nextFavoriteId := id + 1;
      r := Response(201, FavoriteData(id, favorite));
    }

    /**
     `DELETE /favorite/planet/<id>`: 404 and no change when no favorite
     matches the body's `user_id` and the planet; otherwise exactly the first
     match is removed and every other row, duplicates included, stays.
     */
    method DeleteFavPlanet(planetId: nat, data: Body) returns (r: Response)
      requires Valid()
      modifies this`favorites
      ensures Valid()
      ensures var found := FirstMatch(old(favorites), Get(data, "user_id"), OnPlanet(planetId), 1, nextFavoriteId);
        && (found.None? ==> r == FavoriteNotFound && favorites == old(favorites))
        && (found.Some? ==> r == FavoriteDeleted && favorites == old(favorites) - {found.value})
      ensures r == FavoriteNotFound <==> !HasMatch(old(favorites), Get(data, "user_id"), OnPlanet(planetId))
      ensures !Truthy(Get(data, "user_id")) ==> r == FavoriteNotFound
    {
      var userId := Get(data, "user_id");
      FirstMatchFindsAny(favorites, userId, OnPlanet(planetId), nextFavoriteId);
      var found := FirstMatch(favorites, userId, OnPlanet(planetId), 1, nextFavoriteId);
      if found.None? {
        return FavoriteNotFound;
      }
      favorites := favorites - {found.value};
      r := FavoriteDeleted;
    }

    /**
     `DELETE /favorite/people/<id>`: 404 and no change when no favorite
     matches the body's `user_id` and the person; otherwise exactly the first
     match is removed and every other row, duplicates included, stays.
     */
    method DeleteFavPerson(peopleId: nat, data: Body) returns (r: Response)
      requires Valid()
      modifies this`favorites
      ensures Valid()
      ensures var found := FirstMatch(old(favorites), Get(data, "user_id"), OnPerson(peopleId), 1, nextFavoriteId);
        && (found.None? ==> r == FavoriteNotFound && favorites == old(favorites))
        && (found.Some? ==> r == FavoriteDeleted && favorites == old(favorites) - {found.value})
      ensures r == FavoriteNotFound <==> !HasMatch(old(favorites), Get(data, "user_id"), OnPerson(peopleId))
      ensures !Truthy(Get(data, "user_id")) ==> r == FavoriteNotFound
    {
      var userId := Get(data, "user_id");
      FirstMatchFindsAny(favorites, userId, OnPerson(peopleId), nextFavoriteId);
      var found := FirstMatch(favorites, userId, OnPerson(peopleId), 1, nextFavoriteId);
      if found.None? {
        return FavoriteNotFound;
      }
      favorites := favorites - {found.value};
      r := FavoriteDeleted;
    }

    /**
     `POST /planets`: 201 with the new planet, stored under a fresh id; each
     field absent from the body is null. The listing gains exactly that row,
     at its end, and a get of the new id returns it.
     */
    method CreatePlanet(data: Body) returns (r: Response)
      requires Valid()
      modifies this`planets, this`nextPlanetId
      ensures Valid()
      ensures old(nextPlanetId) !in old(planets)
      ensures planets == old(planets)[old(nextPlanetId) := NewPlanet(data)]
      ensures nextPlanetId == old(nextPlanetId) + 1
      ensures r == Response(201, PlanetData(old(nextPlanetId), NewPlanet(data)))
      ensures GetOnePlanet(old(nextPlanetId)) == Response(200, r.body)
      ensures PlanetRows() == old(PlanetRows()) + [(old(nextPlanetId), NewPlanet(data))]
    {
      var id := nextPlanetId;
      var newPlanet := NewPlanet(data);
      RowsSnoc(planets, 1, id, newPlanet);
      planets := planets[id := newPlanet];
      nextPlanetId := id + 1;
      r := Response(201, PlanetData(id, newPlanet));
    }

    /**
     `PUT /planets/<id>`: 404 and no change for a missing id; otherwise only
     that row changes, to the partial update of its old value, and 200 with it.
     */
    method UpdatePlanet(planetId: nat, data: Body) returns (r: Response)
      requires Valid()
      modifies this`planets
      ensures Valid()
      ensures planetId !in old(planets) ==> r == PlanetNotFound && planets == old(planets)
      ensures planetId in old(planets) ==>
        && planets == old(planets)[planetId := UpdatedPlanet(old(planets)[planetId], data)]
        && r == Response(200, PlanetData(planetId, planets[planetId]))
      ensures planets.Keys == old(planets).Keys
    {
      if planetId !in planets {
        return PlanetNotFound;
      }
      var planet := planets[planetId];
      planet := planet.(name := GetOr(data, "name", planet.name));
      planet := planet.(climate := GetOr(data, "climate", planet.climate));
      planet := planet.(population := GetOr(data, "population", planet.population));
      planets := planets[planetId := planet];
      r := Response(200, PlanetData(planetId, planet));
    }

    /**
     `DELETE /planets/<id>`: 404 and no change for a missing id; otherwise
     exactly that row is removed, from the table and from the listing.
     Either way a get of the id afterwards is 404.
     */
    method DeletePlanet(planetId: nat) returns (r: Response)
      requires Valid()
      modifies this`planets
      ensures Valid()
      ensures planetId !in old(planets) ==> r == PlanetNotFound && planets == old(planets)
      ensures planetId in old(planets) ==> r == PlanetDeleted && planets == old(planets) - {planetId}
      ensures GetOnePlanet(planetId) == PlanetNotFound
      ensures planetId in old(planets) ==>
        && old(PlanetRows()) == Rows(planets, 1, planetId) + [(planetId, old(planets)[planetId])] + Rows(planets, planetId + 1, nextPlanetId)
        && PlanetRows() == Rows(planets, 1, planetId) + Rows(planets, planetId + 1, nextPlanetId)
    {
      if planetId !in planets {
        return PlanetNotFound;
      }
      RowsRemove(planets, planetId, 1, nextPlanetId);
      planets := planets - {planetId};
      r := PlanetDeleted;
    }

    /**
     `POST /people`: 201 with the new person, stored under a fresh id; each
     field absent from the body is null. The listing gains exactly that row,
     at its end, and a get of the new id returns it.
     */
    method CreatePerson(data: Body) returns (r: Response)
      requires Valid()
      modifies this`people, this`nextPersonId
      ensures Valid()
      ensures old(nextPersonId) !in old(people)
      ensures people == old(people)[old(nextPersonId) := NewPerson(data)]
      ensures nextPersonId == old(nextPersonId) + 1
      ensures r == Response(201, PersonData(old(nextPersonId), NewPerson(data)))
      ensures GetOnePerson(old(nextPersonId)) == Response(200, r.body)
      ensures PeopleRows() == old(PeopleRows()) + [(old(nextPersonId), NewPerson(data))]
    {
      var id := nextPersonId;
      var newPerson := NewPerson(data);
      RowsSnoc(people, 1, id, newPerson);
      people := people[id := newPerson];
      nextPersonId := id + 1;
      r := Response(201, PersonData(id, newPerson));
    }

    /**
     `PUT /people/<id>`: 404 and no change for a missing id; otherwise only
     that row changes, to the partial update of its old value, and 200 with it.
     */
    method UpdatePerson(peopleId: nat, data: Body) returns (r: Response)
      requires Valid()
      modifies this`people
      ensures Valid()
      ensures peopleId !in old(people) ==> r == PersonNotFound && people == old(people)
      ensures peopleId in old(people) ==>
        && people == old(people)[peopleId := UpdatedPerson(old(people)[peopleId], data)]
        && r == Response(200, PersonData(peopleId, people[peopleId]))
      ensures people.Keys == old(people).Keys
    {
      if peopleId !in people {
        return PersonNotFound;
      }
      var person := people[peopleId];
      person := person.(name := GetOr(data, "name", person.name));
      person := person.(gender := GetOr(data, "gender", person.gender));
      person := person.(height := GetOr(data, "height", person.height));
      people := people[peopleId := person];
      r := Response(200, PersonData(peopleId, person));
    }

    /**
     `DELETE /people/<id>`: 404 and no change for a missing id; otherwise
     exactly that row is removed, from the table and from the listing.
     Either way a get of the id afterwards is 404.
     */
    method DeletePerson(peopleId: nat) returns (r: Response)
      requires Valid()
      modifies this`people
      ensures Valid()
      ensures peopleId !in old(people) ==> r == PersonNotFound && people == old(people)
      ensures peopleId in old(people) ==> r == PersonDeleted && people == old(people) - {peopleId}
      ensures GetOnePerson(peopleId) == PersonNotFound
      ensures peopleId in old(people) ==>
        && old(PeopleRows()) == Rows(people, 1, peopleId) + [(peopleId, old(people)[peopleId])] + Rows(people, peopleId + 1, nextPersonId)
        && PeopleRows() == Rows(people, 1, peopleId) + Rows(people, peopleId + 1, nextPersonId)
    {
      if peopleId !in people {
        return PersonNotFound;
      }
      RowsRemove(people, peopleId, 1, nextPersonId);
      people := people - {peopleId};
      r := PersonDeleted;
    }
  }

  /**
   The planet round trip on an empty store: create Tatooine, read it back,
   delete it, read it again.
   */
  method TatooineRoundTrip() returns (created: Response, fetched: Response, deleted: Response, refetched: Response)
    ensures created == Response(201, PlanetData(1, Planet(JString("Tatooine"), JString("Arid"), JString("200000"))))
    ensures fetched == Response(200, created.body)
    ensures deleted == PlanetDeleted
    ensures refetched == PlanetNotFound
  {
    var store := new Store([]);
    var body := map["name" := JString("Tatooine"), "climate" := JString("Arid"), "population" := JString("200000")];
    created := store.CreatePlanet(body);
    fetched := store.GetOnePlanet(1);
    deleted := store.DeletePlanet(1);
    refetched := store.GetOnePlanet(1);
  }

  /**
   Favoriting the same planet twice stores two rows; the first delete removes
   one of them, the second removes the other, and a third finds nothing.
   */
  method DuplicateFavorites() returns (first: Response, second: Response, deletes: seq<Response>, remaining: nat)
    ensures first.status == 201 && second.status == 201 && first.body != second.body
    ensures deletes == [FavoriteDeleted, FavoriteDeleted, FavoriteNotFound]
    ensures remaining == 0
  {
    var store := new Store([]);
    var body := map["user_id" := JInt(1)];
    first := store.AddFavPlanet(3, body);
    second := store.AddFavPlanet(3, body);
    assert store.favorites == map[1 := Favorite(JInt(1), Some(3), None), 2 := Favorite(JInt(1), Some(3), None)];
    var d1 := store.DeleteFavPlanet(3, body);
    assert store.favorites == map[2 := Favorite(JInt(1), Some(3), None)];
    var d2 := store.DeleteFavPlanet(3, body);
    assert store.favorites == map[];
    var d3 := store.DeleteFavPlanet(3, body);
    deletes := [d1, d2, d3];
    remaining := |store.favorites|;
  }
}
