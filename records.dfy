/**
 The four stored entities and what the create and update handlers build
 from a request body. A field is stored as whatever JSON value the body
 carried for it, null included.
 */
module Records {
  import opened Json

  datatype Option<T> = None | Some(value: T)

  datatype Planet = Planet(name: Json, climate: Json, population: Json)

  datatype Person = Person(name: Json, gender: Json, height: Json)

  /** Users are only listed by the API; no handler creates, changes or deletes one. */
  datatype User = User(email: string, password: string, isActive: bool, firstName: string, lastName: string)

  /** A favorite refers to its user and to a planet or a person; an unset reference is None. */
  datatype Favorite = Favorite(userId: Json, planetId: Option<nat>, peopleId: Option<nat>)

  /** What a favorite endpoint points at: the planet or the person of its path. */
  datatype Target = OnPlanet(planetId: nat) | OnPerson(peopleId: nat)

  /** The planet `POST /planets` builds: each field absent from the body is null. */
  function NewPlanet(data: Body): (p: Planet)
    ensures "name" in data ==> p.name == data["name"]
    ensures "climate" in data ==> p.climate == data["climate"]
    ensures "population" in data ==> p.population == data["population"]
    ensures "name" !in data ==> p.name == JNull
    ensures "climate" !in data ==> p.climate == JNull
    ensures "population" !in data ==> p.population == JNull
  {
    Planet(Get(data, "name"), Get(data, "climate"), Get(data, "population"))
  }

  /**
   The planet `PUT /planets/<id>` leaves behind: a field whose key is in the
   body takes the body's value, null included; any other field keeps its value.
   */
  function UpdatedPlanet(p: Planet, data: Body): (q: Planet)
    ensures "name" in data ==> q.name == data["name"]
    ensures "climate" in data ==> q.climate == data["climate"]
    ensures "population" in data ==> q.population == data["population"]
    ensures "name" !in data ==> q.name == p.name
    ensures "climate" !in data ==> q.climate == p.climate
    ensures "population" !in data ==> q.population == p.population
  {
    var q := p.(name := GetOr(data, "name", p.name));
    var q := q.(climate := GetOr(data, "climate", q.climate));
    q.(population := GetOr(data, "population", q.population))
  }

  /** The person `POST /people` builds: each field absent from the body is null. */
  function NewPerson(data: Body): (p: Person)
    ensures "name" in data ==> p.name == data["name"]
    ensures "gender" in data ==> p.gender == data["gender"]
    ensures "height" in data ==> p.height == data["height"]
    ensures "name" !in data ==> p.name == JNull
    ensures "gender" !in data ==> p.gender == JNull
    ensures "height" !in data ==> p.height == JNull
  {
    Person(Get(data, "name"), Get(data, "gender"), Get(data, "height"))
  }

  /**
   The person `PUT /people/<id>` leaves behind: a field whose key is in the
   body takes the body's value, null included; any other field keeps its value.
   */
  function UpdatedPerson(p: Person, data: Body): (q: Person)
    ensures "name" in data ==> q.name == data["name"]
    ensures "gender" in data ==> q.gender == data["gender"]
    ensures "height" in data ==> q.height == data["height"]
    ensures "name" !in data ==> q.name == p.name
    ensures "gender" !in data ==> q.gender == p.gender
    ensures "height" !in data ==> q.height == p.height
  {
    var q := p.(name := GetOr(data, "name", p.name));
    var q := q.(gender := GetOr(data, "gender", q.gender));
    q.(height := GetOr(data, "height", q.height))
  }

  /**
   A favorite the API can create: a truthy user id and exactly one target
   reference set. The database does not enforce this; the handlers keep it.
   */
  ghost predicate WellFormed(f: Favorite)
  {
    Truthy(f.userId) && (f.planetId.Some? != f.peopleId.Some?)
  }

  /** The row `filter_by(user_id=user, planet_id=..)` or `filter_by(user_id=user, people_id=..)` selects. */
  predicate Matches(f: Favorite, user: Json, target: Target): (b: bool)
    ensures b ==> f.userId == user
    ensures target.OnPlanet? ==> (b <==> f.userId == user && f.planetId == Some(target.planetId))
    ensures target.OnPerson? ==> (b <==> f.userId == user && f.peopleId == Some(target.peopleId))
  {
    f.userId == user &&
    match target
    case OnPlanet(p) => f.planetId == Some(p)
    case OnPerson(q) => f.peopleId == Some(q)
  }

  /**
   The favorite the POST favorite endpoints build: the given user, the path's
   target, the other reference unset. The delete lookup for the same user and
   target selects it.
   */
  function NewFavorite(user: Json, target: Target): (f: Favorite)
    ensures f.userId == user
    ensures target.OnPlanet? ==> f.planetId == Some(target.planetId) && f.peopleId == None
    ensures target.OnPerson? ==> f.peopleId == Some(target.peopleId) && f.planetId == None
    ensures Matches(f, user, target)
    ensures Truthy(user) ==> WellFormed(f)
  {
    match target
    case OnPlanet(p) => Favorite(user, Some(p), None)
    case OnPerson(q) => Favorite(user, None, Some(q))
  }

  /** Sending the same update twice leaves the same planet as sending it once. */
  lemma UpdatePlanetIdempotent(p: Planet, data: Body)
    ensures UpdatedPlanet(UpdatedPlanet(p, data), data) == UpdatedPlanet(p, data)
  {
  }

  /**
   Creating a planet from `created` and then updating it with `changes` gives
   the planet that creating it from the merged body would give, where the
   update's keys win.
   */
  lemma CreateThenUpdatePlanet(created: Body, changes: Body)
    ensures UpdatedPlanet(NewPlanet(created), changes) == NewPlanet(created + changes)
  {
  }

  /** The same two facts for people. */
  lemma UpdatePersonIdempotent(p: Person, data: Body)
    ensures UpdatedPerson(UpdatedPerson(p, data), data) == UpdatedPerson(p, data)
  {
  }

  lemma CreateThenUpdatePerson(created: Body, changes: Body)
    ensures UpdatedPerson(NewPerson(created), changes) == NewPerson(created + changes)
  {
  }

  /** A partial update of Hoth: only the climate changes. */
  lemma HothBecomesIcy()
    ensures UpdatedPlanet(Planet(JString("Hoth"), JString("Frozen"), JNull), map["climate" := JString("Icy")])
         == Planet(JString("Hoth"), JString("Icy"), JNull)
  {
  }

  /** An explicit null in an update body clears the field; leaving the key out keeps it. */
  lemma NullOverwritesAbsentKeeps(p: Planet)
    requires p.name != JNull
    ensures UpdatedPlanet(p, map["name" := JNull]).name == JNull
    ensures UpdatedPlanet(p, map[]).name == p.name
  {
  }
}
