/**
 * AreaService: areas inside cities.  Creating or updating an area checks,
 * in this order, that the city exists and that the city has no area of
 * that name yet; an update looks the area itself up last.  Reads attach
 * the names of the area's city, of that city's state and of the state's
 * country.
 */
module AreaService {
  import opened Common
  import opened Entities
  import opened Repositories
  import Text

  /** AreaRequest, used by both create and update. */
  datatype AreaRequest = AreaRequest(name: string, cityId: Id)

  /** AreaResponse: the area's id and name and the names of its city, state
      and country, whether set by the service or flattened from the saved
      entity by the object mapper. */
  datatype AreaResponse = AreaResponse(
    id: Id, name: string, cityName: string, stateName: string, countryName: string)

  /** The response the reads build: the area with the names of its city,
      state and country. */
  function AreaView(db: Store, a: Id): AreaResponse
    reads db
    requires db.Linked() && a in db.areas
  {
    var city := db.CityOfArea(a);
    var state := db.StateOfCity(city);
    AreaResponse(a, db.areas[a].name, db.cities[city].name, db.states[state].name,
                 db.countries[db.CountryOfState(state)].name)
  }

  /** `createArea` */
  method CreateArea(db: Store, request: AreaRequest, newId: Id)
    returns (r: Result<AreaResponse>)
    requires db.Valid() && newId !in db.areas
    modifies db`areas
    ensures db.Valid()
    ensures request.cityId !in db.cities ==>
      r == Err(ServiceError(NotFound, "City not Found"))
    ensures request.cityId in db.cities && AreaNameTaken(old(db.areas), request.name, request.cityId) ==>
      r == Err(ServiceError(ResourceConflict, "Area Exists for this City"))
    ensures r.Ok? <==> request.cityId in db.cities && !AreaNameTaken(old(db.areas), request.name, request.cityId)
    ensures r.Err? ==> db.areas == old(db.areas)
    ensures r.Ok? ==>
      && db.areas == old(db.areas)[newId := Area(request.name, request.cityId, ServiceAudit)]
      && r.value == AreaView(db, newId)
  {
    if request.cityId !in db.cities {
      return Err(ServiceError(NotFound, "City not Found"));
    }
    if AreaNameTaken(db.areas, request.name, request.cityId) {
      return Err(ServiceError(ResourceConflict, "Area Exists for this City"));
    }
    var area := Area(request.name, request.cityId, ServiceAudit);
    AreaSaveKeepsUnique(db.areas, newId, area);
    AreaSaveKeepsLinks(db.cities, db.areas, db.locations, newId, area);
    var state := db.StateOfCity(request.cityId);
    r := Ok(AreaResponse(newId, request.name, db.cities[request.cityId].name, db.states[state].name,
                         db.countries[db.CountryOfState(state)].name));
    db.areas := db.areas[newId := area];
  }

  /** `updateArea`: city, then name conflict, then the area itself. */
  method UpdateArea(db: Store, id: Id, request: AreaRequest)
    returns (r: Result<AreaResponse>)
    requires db.Valid()
    modifies db`areas
    ensures db.Valid()
    ensures request.cityId !in db.cities ==>
      r == Err(ServiceError(NotFound, "City not Found"))
    ensures request.cityId in db.cities && AreaNameTaken(old(db.areas), request.name, request.cityId) ==>
      r == Err(ServiceError(ResourceConflict, "Area Exists for this City"))
    ensures (request.cityId in db.cities && !AreaNameTaken(old(db.areas), request.name, request.cityId) &&
             id !in old(db.areas)) ==>
      r == Err(ServiceError(NotFound, "Area not Found"))
    ensures r.Ok? <==>
      request.cityId in db.cities && !AreaNameTaken(old(db.areas), request.name, request.cityId) && id in old(db.areas)
    ensures r.Err? ==> db.areas == old(db.areas)
    ensures r.Ok? ==>
      && id in old(db.areas)
      && db.areas == old(db.areas)[id := Area(request.name, request.cityId, ServiceAudit)]
      && r.value == AreaView(db, id)
  {
    if request.cityId !in db.cities {
      return Err(ServiceError(NotFound, "City not Found"));
    }
    if AreaNameTaken(db.areas, request.name, request.cityId) {
      return Err(ServiceError(ResourceConflict, "Area Exists for this City"));
    }
    if id !in db.areas {
      return Err(ServiceError(NotFound, "Area not Found"));
    }
    var area := Area(request.name, request.cityId, ServiceAudit);
    AreaSaveKeepsUnique(db.areas, id, area);
    AreaSaveKeepsLinks(db.cities, db.areas, db.locations, id, area);
    var state := db.StateOfCity(request.cityId);
    r := Ok(AreaResponse(id, request.name, db.cities[request.cityId].name, db.states[state].name,
                         db.countries[db.CountryOfState(state)].name));
    db.areas := db.areas[id := area];
  }

  /** An update that keeps an area's name and city is refused as a conflict
      with the area itself. */
  lemma UnchangedUpdateConflicts(db: Store, id: Id)
    requires db.Linked() && id in db.areas
    ensures AreaNameTaken(db.areas, db.areas[id].name, db.areas[id].cityId)
  {
  }

  /** `getAreas`: every area with its city's, state's and country's names. */
  function GetAreas(db: Store): (r: map<Id, AreaResponse>)
    reads db
    requires db.Linked()
    ensures r.Keys == db.areas.Keys
    ensures forall a :: a in r ==>
      var c := db.areas[a].cityId;
      var s := db.cities[c].stateId;
      && r[a].id == a && r[a].name == db.areas[a].name
      && r[a].cityName == db.cities[c].name
      && r[a].stateName == db.states[s].name
      && r[a].countryName == db.countries[db.states[s].countryId].name
  {
    if |db.areas| == 0 then map[]
    else map a | a in db.areas :: AreaView(db, a)
  }

  /** `getArea`: the listing's response for one area. */
  function GetArea(db: Store, id: Id): (r: Result<AreaResponse>)
    reads db
    requires db.Linked()
    ensures r.Err? <==> id !in db.areas
    ensures r.Err? ==> r.failure == ServiceError(NotFound, "Area not found")
    ensures r.Ok? ==> r.value == GetAreas(db)[id]
  {
    if id !in db.areas then Err(ServiceError(NotFound, "Area not found"))
    else Ok(AreaView(db, id))
  }

  /** `getByName` */
  function GetByName(db: Store, name: string): (r: map<Id, AreaResponse>)
    reads db
    requires db.Linked()
    ensures r.Keys == set a | a in db.areas && Text.ContainsIgnoringCase(db.areas[a].name, name)
    ensures forall a :: a in r ==> r[a] == GetAreas(db)[a]
  {
    var found := set a | a in db.areas && Text.ContainsIgnoringCase(db.areas[a].name, name);
    if |found| == 0 then map[]
    else map a | a in found :: AreaView(db, a)
  }

  /** `getByCity`: the areas of an existing city. */
  function GetByCity(db: Store, cityId: Id): (r: Result<map<Id, AreaResponse>>)
    reads db
    requires db.Linked()
    ensures r.Err? <==> cityId !in db.cities
    ensures r.Err? ==> r.failure == ServiceError(NotFound, "City not Found")
    ensures r.Ok? ==> r.value.Keys == set a | a in db.areas && db.areas[a].cityId == cityId
    ensures r.Ok? ==> forall a :: a in r.value ==>
      r.value[a] == GetAreas(db)[a] && r.value[a].cityName == db.cities[cityId].name
  {
    if cityId !in db.cities then Err(ServiceError(NotFound, "City not Found"))
    else
      var found := set a | a in db.areas && db.areas[a].cityId == cityId;
      if |found| == 0 then Ok(map[])
      else Ok(map a | a in found :: AreaView(db, a))
  }

  /** `getByState`: of all areas, those whose city lies in an existing
      state. */
  function GetByState(db: Store, stateId: Id): (r: Result<map<Id, AreaResponse>>)
    reads db
    requires db.Linked()
    ensures r.Err? <==> stateId !in db.states
    ensures r.Err? ==> r.failure == ServiceError(NotFound, "State not Found")
    ensures r.Ok? ==> r.value.Keys == set a | a in db.areas && db.StateOfCity(db.CityOfArea(a)) == stateId
    ensures r.Ok? ==> forall a :: a in r.value ==>
      r.value[a] == GetAreas(db)[a] && r.value[a].stateName == db.states[stateId].name
  {
    if stateId !in db.states then Err(ServiceError(NotFound, "State not Found"))
    else if |db.areas| == 0 then Ok(map[])
    else Ok(map a | a in db.areas && db.StateOfCity(db.CityOfArea(a)) == stateId :: AreaView(db, a))
  }

  /** `getByCountry`: of all areas, those whose city's state lies in an
      existing country. */
  function GetByCountry(db: Store, countryId: Id): (r: Result<map<Id, AreaResponse>>)
    reads db
    requires db.Linked()
    ensures r.Err? <==> countryId !in db.countries
    ensures r.Err? ==> r.failure == ServiceError(NotFound, "Country not Found")
    ensures r.Ok? ==>
      var inCountry := set a | a in db.areas && db.CountryOfState(db.StateOfCity(db.CityOfArea(a))) == countryId;
      r.value.Keys == inCountry
    ensures r.Ok? ==> forall a :: a in r.value ==>
      r.value[a] == GetAreas(db)[a] && r.value[a].countryName == db.countries[countryId].name
  {
    if countryId !in db.countries then Err(ServiceError(NotFound, "Country not Found"))
    else if |db.areas| == 0 then Ok(map[])
    else Ok(map a | a in db.areas && db.CountryOfState(db.StateOfCity(db.CityOfArea(a))) == countryId
                  :: AreaView(db, a))
  }

  /** An area is in a state's listing exactly when it is in the listing of
      one of that state's cities. */
  lemma ByStateIsUnionOfCities(db: Store, stateId: Id, a: Id)
    requires db.Linked() && stateId in db.states
    ensures a in GetByState(db, stateId).value <==>
      exists c :: c in db.cities && db.cities[c].stateId == stateId && a in GetByCity(db, c).value
  {
    if a in GetByState(db, stateId).value {
      var c := db.CityOfArea(a);
      assert a in GetByCity(db, c).value;
    }
  }

  /** An area is in a country's listing exactly when it is in the listing of
      one of that country's states. */
  lemma ByCountryIsUnionOfStates(db: Store, countryId: Id, a: Id)
    requires db.Linked() && countryId in db.countries
    ensures a in GetByCountry(db, countryId).value <==>
      exists s :: s in db.states && db.states[s].countryId == countryId && a in GetByState(db, s).value
  {
    if a in GetByCountry(db, countryId).value {
      var s := db.StateOfCity(db.CityOfArea(a));
      assert a in GetByState(db, s).value;
    }
  }
}
