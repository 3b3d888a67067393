/**
 * CityService: cities inside states.  Creating or updating a city checks,
 * in this order, that the state exists and that the state has no city of
 * that name yet; an update looks the city itself up last.  Reads attach
 * the names of the city's state and of that state's country.
 */
module CityService {
  import opened Common
  import opened Entities
  import opened Repositories
  import Text

  /** CityRequest, used by both create and update. */
  datatype CityRequest = CityRequest(name: string, stateId: Id)

  /** CityResponse; a name the service does not set itself is flattened
      from the saved entity by the object mapper (`state.name` into
      `stateName`). */
  datatype CityResponse = CityResponse(
    id: Id, name: string, stateName: string, countryName: string)

  /** The response the reads build: the city with its state's and its
      country's names. */
  function CityView(db: Store, c: Id): CityResponse
    reads db
    requires db.Linked() && c in db.cities
  {
    var state := db.StateOfCity(c);
    CityResponse(c, db.cities[c].name, db.states[state].name,
                 db.countries[db.CountryOfState(state)].name)
  }

  /** `createCity` */
  method CreateCity(db: Store, request: CityRequest, newId: Id)
    returns (r: Result<CityResponse>)
    requires db.Valid() && newId !in db.cities
    modifies db`cities
    ensures db.Valid()
    ensures request.stateId !in db.states ==>
      r == Err(ServiceError(NotFound, "State not Found"))
    ensures request.stateId in db.states && CityNameTaken(old(db.cities), request.name, request.stateId) ==>
      r == Err(ServiceError(ResourceConflict, "City Exists for this State"))
    ensures r.Ok? <==> request.stateId in db.states && !CityNameTaken(old(db.cities), request.name, request.stateId)
    ensures r.Err? ==> db.cities == old(db.cities)
    ensures r.Ok? ==>
      && db.cities == old(db.cities)[newId := City(request.name, request.stateId, ServiceAudit)]
      && r.value == CityView(db, newId)
  {
    if request.stateId !in db.states {
      return Err(ServiceError(NotFound, "State not Found"));
    }
    if CityNameTaken(db.cities, request.name, request.stateId) {
      return Err(ServiceError(ResourceConflict, "City Exists for this State"));
    }
    CitySaveKeepsUnique(db.cities, newId, City(request.name, request.stateId, ServiceAudit));
    CitySaveKeepsLinks(db.states, db.cities, db.areas, newId, City(request.name, request.stateId, ServiceAudit));
    db.cities := db.cities[newId := City(request.name, request.stateId, ServiceAudit)];
    var country := db.countries[db.CountryOfState(request.stateId)];
    return Ok(CityResponse(newId, request.name, db.states[request.stateId].name, country.name));
  }

  /** `updateCity`: state, then name conflict, then the city itself. */
  method UpdateCity(db: Store, id: Id, request: CityRequest)
    returns (r: Result<CityResponse>)
    requires db.Valid()
    modifies db`cities
    ensures db.Valid()
    ensures request.stateId !in db.states ==>
      r == Err(ServiceError(NotFound, "State not Found"))
    ensures request.stateId in db.states && CityNameTaken(old(db.cities), request.name, request.stateId) ==>
      r == Err(ServiceError(ResourceConflict, "City Exists for this State"))
    ensures (request.stateId in db.states && !CityNameTaken(old(db.cities), request.name, request.stateId) &&
             id !in old(db.cities)) ==>
      r == Err(ServiceError(NotFound, "City not Found"))
    ensures r.Ok? <==>
      request.stateId in db.states && !CityNameTaken(old(db.cities), request.name, request.stateId) && id in old(db.cities)
    ensures r.Err? ==> db.cities == old(db.cities)
    ensures r.Ok? ==>
      && id in old(db.cities)
      && db.cities == old(db.cities)[id := City(request.name, request.stateId, ServiceAudit)]
      && r.value == CityView(db, id)
  {
    if request.stateId !in db.states {
      return Err(ServiceError(NotFound, "State not Found"));
    }
    if CityNameTaken(db.cities, request.name, request.stateId) {
      return Err(ServiceError(ResourceConflict, "City Exists for this State"));
    }
    if id !in db.cities {
      return Err(ServiceError(NotFound, "City not Found"));
    }
    CitySaveKeepsUnique(db.cities, id, City(request.name, request.stateId, ServiceAudit));
    CitySaveKeepsLinks(db.states, db.cities, db.areas, id, City(request.name, request.stateId, ServiceAudit));
    db.cities := db.cities[id := City(request.name, request.stateId, ServiceAudit)];
    var country := db.countries[db.CountryOfState(request.stateId)];
    return Ok(CityResponse(id, request.name, db.states[request.stateId].name, country.name));
  }

  /** An update that keeps a city's name and state is refused as a
      conflict with the city itself. */
  lemma UnchangedUpdateConflicts(db: Store, id: Id)
    requires db.Linked() && id in db.cities
    ensures CityNameTaken(db.cities, db.cities[id].name, db.cities[id].stateId)
  {
  }

  /** `getCities`: every city with its state's and country's names. */
  function GetCities(db: Store): (r: map<Id, CityResponse>)
    reads db
    requires db.Linked()
    ensures r.Keys == db.cities.Keys
    ensures forall c :: c in r ==>
      var s := db.cities[c].stateId;
      && r[c].id == c && r[c].name == db.cities[c].name
      && r[c].stateName == db.states[s].name
      && r[c].countryName == db.countries[db.states[s].countryId].name
  {
    if |db.cities| == 0 then map[]
    else map c | c in db.cities :: CityView(db, c)
  }

  /** `getCity`: the listing's response for one city. */
  function GetCity(db: Store, id: Id): (r: Result<CityResponse>)
    reads db
    requires db.Linked()
    ensures r.Err? <==> id !in db.cities
    ensures r.Err? ==> r.failure == ServiceError(NotFound, "City not found")
    ensures r.Ok? ==> r.value == GetCities(db)[id]
  {
    if id !in db.cities then Err(ServiceError(NotFound, "City not found"))
    else Ok(CityView(db, id))
  }

  /** `getByName` */
  function GetByName(db: Store, name: string): (r: map<Id, CityResponse>)
    reads db
    requires db.Linked()
    ensures r.Keys == set c | c in db.cities && Text.ContainsIgnoringCase(db.cities[c].name, name)
    ensures forall c :: c in r ==> r[c] == GetCities(db)[c]
  {
    var found := set c | c in db.cities && Text.ContainsIgnoringCase(db.cities[c].name, name);
    if |found| == 0 then map[]
    else map c | c in found :: CityView(db, c)
  }

  /** `getByState`: the cities of an existing state. */
  function GetByState(db: Store, stateId: Id): (r: Result<map<Id, CityResponse>>)
    reads db
    requires db.Linked()
    ensures r.Err? <==> stateId !in db.states
    ensures r.Err? ==> r.failure == ServiceError(NotFound, "State not Found")
    ensures r.Ok? ==> r.value.Keys == set c | c in db.cities && db.cities[c].stateId == stateId
    ensures r.Ok? ==> forall c :: c in r.value ==>
      r.value[c] == GetCities(db)[c] && r.value[c].stateName == db.states[stateId].name
  {
    if stateId !in db.states then Err(ServiceError(NotFound, "State not Found"))
    else
      var found := set c | c in db.cities && db.cities[c].stateId == stateId;
      if |found| == 0 then Ok(map[])
      else Ok(map c | c in found :: CityView(db, c))
  }

  /** `getByCountry`: of all cities, those whose state lies in an existing
      country. */
  function GetByCountry(db: Store, countryId: Id): (r: Result<map<Id, CityResponse>>)
    reads db
    requires db.Linked()
    ensures r.Err? <==> countryId !in db.countries
    ensures r.Err? ==> r.failure == ServiceError(NotFound, "Country not Found")
    ensures r.Ok? ==> r.value.Keys == set c | c in db.cities && db.CountryOfState(db.StateOfCity(c)) == countryId
    ensures r.Ok? ==> forall c :: c in r.value ==>
      r.value[c] == GetCities(db)[c] && r.value[c].countryName == db.countries[countryId].name
  {
    if countryId !in db.countries then Err(ServiceError(NotFound, "Country not Found"))
    else if |db.cities| == 0 then Ok(map[])
    else Ok(map c | c in db.cities && db.CountryOfState(db.StateOfCity(c)) == countryId :: CityView(db, c))
  }

  /** The scan over all cities agrees with walking down the hierarchy: a
      city is in a country's listing exactly when it is in the listing of
      one of that country's states. */
  lemma ByCountryIsUnionOfStates(db: Store, countryId: Id, c: Id)
    requires db.Linked() && countryId in db.countries
    ensures c in GetByCountry(db, countryId).value <==>
      exists s :: s in db.states && db.states[s].countryId == countryId && c in GetByState(db, s).value
  {
    if c in GetByCountry(db, countryId).value {
      var s := db.StateOfCity(c);
      assert c in GetByState(db, s).value;
    }
  }
}
