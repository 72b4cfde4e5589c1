# Star Wars CRUD API: a Dafny model of its request handlers

The system is a small Flask API over four tables: planets, people
(characters), users and favorites. Planets and people have full CRUD. Users
can only be listed. A favorite links a user to one planet or one person; it
is created and deleted through four endpoints. Every handler does the same
few steps. It looks up a row by id, or checks `user_id`. It then inserts a row,
overwrites some fields or deletes the row. Finally it returns a status code
with a JSON body.

The model replaces the database with a `Store` class. The store holds one
`map<nat, Record>` per table and one fresh-id counter per table. Each handler
becomes one member of the store. The read handlers are functions of the
store. The POST, PUT and DELETE handlers are methods, with `modifies` clauses
that name the table fields they may change. Each handler returns a
`Response(status, body)`.

A request body is a `map<string, Json>`, so a missing key and a key set to
null are two different bodies. This difference drives the behaviour:

- create handlers use `data.get(k)`, so a missing key is stored as null;
- update handlers use `data.get(k, old)`, so a missing key keeps the old
  value, while an explicit null overwrites it;
- the favorite create handlers test `if not user_id` (Python truthiness), so
  a missing key, null, `false`, `0`, `""`, `[]` and `{}` are all rejected.

Files:

- `json.dfy`: the JSON value type, `dict.get` and Python truthiness.
- `records.dfy`: the four record types, and what create and update build
  from a request body.
- `tables.dfy`: a table's listing, meaning its rows in ascending id order,
  with lemmas about how inserting and deleting a row change the listing.
- `app.dfy`: the store and its handlers, the `.first()` favorite lookup, and
  two example request sequences.

The store invariant `Store.Valid` says three things:

- every id is positive and lies below its table's counter, so the next id is
  always fresh;
- every favorite has a truthy `user_id`;
- every favorite refers to exactly one of a planet or a person.

The database does not enforce the last two. The handlers keep them anyway,
because the only way through the API to create a favorite is the two POST
favorite endpoints (src/app.py:88-107).

Three consequences of the favorite handlers as written:

- Nothing makes a matching favorite unique. The delete calls `.first()`
  (src/app.py:113), so one match is removed and any duplicate stays
  (`DuplicateSurvivesDelete`, `DuplicateFavorites`).
- The create rejects every falsy `user_id` (src/app.py:91), including `0`
  and `""`, not only a missing one.
- A delete without `user_id` looks the favorite up by `user_id == None`
  (src/app.py:112-113). The model compares the stored user id with null. No
  stored favorite has a null user, so the result is 404. `DeleteFavPlanet`
  and `DeleteFavPerson` state this.

## Model

| member | source | states |
|---|---|---|
| Json.Truthy | src/app.py:90-92 | A value is falsy exactly when it is null, false, 0, the empty string, the empty list or the empty object. |
| Records.NewPlanet | src/app.py:136-141 | Each planet field holds the body's value for its key, and is null when the key is missing. |
| Records.UpdatedPlanet | src/app.py:152-155 | A field whose key is in the body takes that value, null included. A field whose key is missing keeps its old value. |
| Records.NewPerson | src/app.py:172-177 | Each person field holds the body's value for its key, and is null when the key is missing. |
| Records.UpdatedPerson | src/app.py:188-191 | A field whose key is in the body takes that value, null included. A field whose key is missing keeps its old value. |
| Records.NewFavorite | src/app.py:93-104 | For a planet (line 93) or a person (line 104), the favorite holds the given user and the path's target, and the other target is unset. The delete lookup for the same user and target selects it. With a truthy user it satisfies the store invariant. |
| Json.Get | src/app.py:138-140 | `data.get(k)`: the body's value for a present key, null for a missing one. |
| Json.GetOr | src/app.py:153-155 | `data.get(k, old)`: the body's value for a present key, null included, and the fallback for a missing one. |
| Records.Matches | src/app.py:113 | The `filter_by` of the favorite deletes (lines 113 and 124) selects a favorite exactly when its user id equals the given one and its planet (or person) reference is the path's id. |
| Records.UpdatePlanetIdempotent | src/app.py:152-155 | Sending the same planet update twice gives the same planet as sending it once. |
| Records.CreateThenUpdatePlanet | src/app.py:136-155 | Creating a planet from one body and then updating it with a second gives the planet created from the two bodies merged, with the update's keys winning. |
| Records.UpdatePersonIdempotent | src/app.py:188-191 | Sending the same person update twice gives the same person as sending it once. |
| Records.CreateThenUpdatePerson | src/app.py:172-191 | Creating a person from one body and then updating it with a second gives the person created from the two bodies merged, with the update's keys winning. |
| Records.HothBecomesIcy | src/app.py:152-155 | Updating Hoth (climate Frozen) with only `climate: Icy` keeps the name Hoth and sets the climate to Icy. |
| Records.NullOverwritesAbsentKeeps | src/app.py:153 | An explicit null for `name` clears the name. An empty body keeps it. |
| Tables.Rows | src/app.py:64-65 | Every entry of a listing is a stored row, with that row's own record, whose id is in the listing's range. |
| Tables.RowsOrdered | src/app.py:64-65 | A listing is in strictly increasing id order, and it mentions exactly the stored ids in its range. |
| Tables.RowsListAll | src/app.py:64-65 | When every id is below the counter, the listing from id 1 covers the whole table. |
| Tables.ListsCount | src/app.py:50-51 | A listing of a table has exactly one entry per stored row. |
| Tables.RowsSnoc | src/app.py:142-143 | Inserting a row under the next fresh id appends exactly that row to the end of the listing. |
| Tables.RowsRemove | src/app.py:165-166 | Deleting a stored row removes exactly its entry from the listing. The entries before and after it keep their order. |
| App.Hello | src/app.py:40-45 | `GET /user` always returns 200 with its fixed greeting message. |
| App.FirstMatch | src/app.py:113 | The `.first()` lookup returns the lowest matching id, or None when no row in the range matches. |
| App.FirstMatchFindsAny | src/app.py:113-115 | Over the whole table, the lookup finds a row exactly when some stored favorite matches. |
| App.DuplicateSurvivesDelete | src/app.py:110-118 | When two favorites match, the lookup finds one of them, and a match is left after that one is removed. |
| App.Numbered | src/seed.py:25-37 | Rows inserted one after another into an empty table get ids 1 to n in insertion order, each id holding its own row. |
| App.Store.PlanetRows | src/app.py:64 | `Planet.query.all()` lists the planets table: one entry per stored row, with its record, by ascending id. |
| App.Store.PeopleRows | src/app.py:50 | `People.query.all()` lists the people table: one entry per stored row, with its record, by ascending id. |
| App.Store.constructor | src/seed.py:25-26 | A new store has no planets, people or favorites. Its users are the seeded users, numbered from 1, and the invariant holds. |
| App.Store.GetAllPeople | src/app.py:48-51 | 200 with a listing of the people table: one entry per stored person, in id order. |
| App.Store.GetOnePerson | src/app.py:54-59 | 200 with exactly that person when the id is stored, otherwise 404 "Person not found". Being a function, it changes nothing. |
| App.Store.GetAllPlanets | src/app.py:62-65 | 200 with a listing of the planets table: one entry per stored planet, in id order. |
| App.Store.GetOnePlanet | src/app.py:68-73 | 200 with exactly that planet when the id is stored, otherwise 404 "Planet not found". Being a function, it changes nothing. |
| App.Store.GetAllUsers | src/app.py:76-79 | 200 with a listing of the users table: one entry per stored user. |
| App.Store.GetAllFavorites | src/app.py:82-85 | 200 with a listing of the favorites table: one entry per stored favorite, for every user. |
| App.Store.AddFavPlanet | src/app.py:88-96 | A falsy `user_id` gives 400 "User ID required" and no new row. Otherwise exactly one favorite for that user and planet is added under a fresh id, and the result is 201 with it. Neither the user nor the planet has to exist. The invariant is kept. |
| App.Store.AddFavPerson | src/app.py:99-107 | A falsy `user_id` gives 400 "User ID required" and no new row. Otherwise exactly one favorite for that user and person is added under a fresh id, and the result is 201 with it. Neither the user nor the person has to exist. The invariant is kept. |
| App.Store.DeleteFavPlanet | src/app.py:110-118 | When no favorite matches (`user_id`, planet), the result is 404 "Favorite not found" and nothing changes. Otherwise only the first match is removed, every other row stays, and the result is 200 "Favorite deleted". A falsy `user_id` always gives 404. |
| App.Store.DeleteFavPerson | src/app.py:121-129 | When no favorite matches (`user_id`, person), the result is 404 "Favorite not found" and nothing changes. Otherwise only the first match is removed, every other row stays, and the result is 200 "Favorite deleted". A falsy `user_id` always gives 404. |
| App.Store.CreatePlanet | src/app.py:134-144 | Exactly one planet is added, under an id not in the table before, and no other row changes. The result is 201 with that planet. A later get of the id returns it, and the listing gains it at the end. |
| App.Store.UpdatePlanet | src/app.py:147-157 | A missing id gives 404 and nothing changes. Otherwise only that row changes, to the partial update of its old value, and the result is 200 with the new row. |
| App.Store.DeletePlanet | src/app.py:160-167 | A missing id gives 404 and nothing changes. Otherwise exactly that row is removed, and the result is 200 "Planet deleted". Either way a later get of the id gives 404, and the listing loses exactly that entry. |
| App.Store.CreatePerson | src/app.py:170-180 | Exactly one person is added, under an id not in the table before, and no other row changes. The result is 201 with that person. A later get of the id returns it, and the listing gains it at the end. |
| App.Store.UpdatePerson | src/app.py:183-193 | A missing id gives 404 and nothing changes. Otherwise only that row changes, to the partial update of its old value, and the result is 200 with the new row. |
| App.Store.DeletePerson | src/app.py:196-203 | A missing id gives 404 and nothing changes. Otherwise exactly that row is removed, and the result is 200 "Person deleted". Either way a later get of the id gives 404, and the listing loses exactly that entry. |
| App.TatooineRoundTrip | src/app.py:134-167 | On an empty store: creating Tatooine gives 201 with id 1, reading it back gives 200 with the same row, deleting it gives 200 "Planet deleted", and reading it again gives 404 "Planet not found". |
| App.DuplicateFavorites | src/app.py:88-118 | Favoriting the same planet twice stores two distinct rows. The first two deletes each succeed, the third gives 404, and no favorite is left. |

## Left out

- Server bootstrap is not modelled: environment loading, the database URL and its sqlite fallback, migrations, CORS, the admin UI and the port (src/app.py:4-29, 206-208). It is framework configuration with no logic of its own.
- The sitemap route and the `APIException` error handler are not modelled (src/app.py:32-38). They call `utils`, which is not part of this model.
- `models.py` is not part of this model. Serialization is shown as the row's id and record, not as a JSON object with named keys. Whether a user's serialized form includes the password is not modelled.
- The column types are not modelled. A field or a favorite's `user_id` holds whatever JSON value the body carried. Coercion, or rejection by the database, of a value of the wrong type is left out.
- JSON numbers with a fraction are not modelled, because floating point is out of scope. So `0.0` as a falsy `user_id` is not covered.
- Request bodies that are not JSON objects, and `request.json` being None, are not modelled. Flask deals with them before the handler runs.
- Commit and integrity failures, transactions and concurrent requests are not modelled. Each handler runs alone and always succeeds.
- Deleting a planet or a person that favorites still refer to is modelled as a plain delete. Whether the database would cascade, refuse or leave dangling references depends on foreign-key definitions that are not part of this model.
- Tables.Rows: `query.all()` has no ORDER BY, so the database may return rows in any order. The model fixes ascending id order.
- App.FirstMatch: `.first()` without ORDER BY may return any matching row. The model picks the one with the lowest id.
- App.Store.CreatePlanet: the new id comes from a per-table counter that never hands out an id twice. A database that reuses the largest deleted id (sqlite without AUTOINCREMENT) is covered only by the weaker fact that the new id was not in the table.
- App.Store.CreatePerson: the same per-table counter choice for the people table.
- App.Store.AddFavPlanet: the same per-table counter choice for the favorites table.
- App.Store.AddFavPerson: the same per-table counter choice for the favorites table.
- App.TatooineRoundTrip: the id 1 it states rests on the counter choice above, on a fresh store.
- App.DuplicateFavorites: the ids 1 and 2 it relies on rest on the counter choice above, on a fresh store.
- The admin UI mounted at src/app.py:29 is not part of this model. Rows it might write, such as a favorite with a null user, are outside the store invariant.
- src/seed.py is not modelled beyond its users. The store's constructor takes the seeded users; its planets and people are not pre-loaded.
