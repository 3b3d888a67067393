/**
 * LocationService: addresses inside areas.  A location is created or moved
 * into an existing area with no uniqueness check; an update looks the
 * location itself up after the area.  Reads attach the names of the whole
 * ancestor chain: area, city, state and country.
 */
module LocationService {
  import opened Common
  import opened Entities
  import opened Repositories
  import Text

  /** CreateLocationRequest */
  datatype CreateLocationRequest = CreateLocationRequest(
    houseAddress: string, streetName: string, freeText: string,
    latitude: Int64, longitude: Int64, areaId: Id)

  /** The fields of an update request that `updateLocation` reads. */
  datatype UpdateLocationRequest = UpdateLocationRequest(
    houseAddress: string, latitude: Int64, longitude: Int64, areaId: Id)

  /** LocationResponse; a name the service does not set itself is
      flattened from the saved entity by the object mapper (`area.name`
      into `areaName`). */
  datatype LocationResponse = LocationResponse(
    id: Id, houseAddress: string, streetName: string, freeText: string,
    latitude: Int64, longitude: Int64,
    areaName: string, cityName: string,
    stateName: string, countryName: string)

  /** The response the reads build: the location's own columns and the
      names along its ancestor chain. */
  function LocationView(db: Store, l: Id): LocationResponse
    reads db
    requires db.Linked() && l in db.locations
  {
    var loc := db.locations[l];
    var area := db.AreaOfLocation(l);
    var city := db.CityOfArea(area);
    var state := db.StateOfCity(city);
    LocationResponse(l, loc.houseAddress, loc.streetName, loc.freeText, loc.latitude, loc.longitude,
                     db.areas[area].name, db.cities[city].name, db.states[state].name,
                     db.countries[db.CountryOfState(state)].name)
  }

  /** The ancestors of an area, as the chain of join columns names them. */
  function AreaChain(db: Store, area: Id): (names: (string, string, string))
    reads db
    requires db.Linked() && area in db.areas
    ensures var c := db.areas[area].cityId; var s := db.cities[c].stateId;
      names == (db.cities[c].name, db.states[s].name, db.countries[db.states[s].countryId].name)
  {
    var city := db.CityOfArea(area);
    var state := db.StateOfCity(city);
    (db.cities[city].name, db.states[state].name, db.countries[db.CountryOfState(state)].name)
  }

  /** `createLocation` */
  method CreateLocation(db: Store, request: CreateLocationRequest, newId: Id)
    returns (r: Result<LocationResponse>)
    requires db.Valid() && newId !in db.locations
    modifies db`locations
    ensures db.Valid()
    ensures r.Err? <==> request.areaId !in db.areas
    ensures r.Err? ==> r == Err(ServiceError(NotFound, "Area not Found")) && db.locations == old(db.locations)
    ensures r.Ok? ==>
      && db.locations == old(db.locations)[newId := Location(
           request.houseAddress, request.streetName, request.freeText,
           request.latitude, request.longitude, request.areaId, ServiceAudit)]
      && r.value == LocationView(db, newId)
  {
    if request.areaId !in db.areas {
      return Err(ServiceError(NotFound, "Area not Found"));
    }
    var location := Location(request.houseAddress, request.streetName, request.freeText,
                             request.latitude, request.longitude, request.areaId, ServiceAudit);
    var (cityName, stateName, countryName) := AreaChain(db, request.areaId);
    r := Ok(LocationResponse(newId, location.houseAddress, location.streetName, location.freeText,
                             location.latitude, location.longitude,
                             db.areas[request.areaId].name, cityName, stateName, countryName));
    LocationSaveKeepsLinks(db.areas, db.locations, newId, location);
    db.locations := db.locations[newId := location];
  }

  /** The row `updateLocation` saves: the request's address, coordinates
      and area over the stored row, whose street name and free text stay. */
  function Moved(old_: Location, request: UpdateLocationRequest): (l: Location)
    ensures l.streetName == old_.streetName && l.freeText == old_.freeText
    ensures l.houseAddress == request.houseAddress && l.areaId == request.areaId
    ensures l.latitude == request.latitude && l.longitude == request.longitude
    ensures l.audit == ServiceAudit
  {
    old_.(houseAddress := request.houseAddress, areaId := request.areaId,
          latitude := request.latitude, longitude := request.longitude, audit := ServiceAudit)
  }

  /** `updateLocation`: the area, then the location itself. */
  method UpdateLocation(db: Store, id: Id, request: UpdateLocationRequest)
    returns (r: Result<LocationResponse>)
    requires db.Valid()
    modifies db`locations
    ensures db.Valid()
    ensures r.Err? <==> request.areaId !in db.areas || id !in old(db.locations)
    ensures request.areaId !in db.areas ==> r == Err(ServiceError(NotFound, "Area not Found"))
    ensures request.areaId in db.areas && id !in old(db.locations) ==>
      r == Err(ServiceError(NotFound, "Location not Found"))
    ensures r.Err? ==> db.locations == old(db.locations)
    ensures r.Ok? ==>
      && db.locations == old(db.locations)[id := Moved(old(db.locations)[id], request)]
      && r.value == LocationView(db, id)
  {
    if request.areaId !in db.areas {
      return Err(ServiceError(NotFound, "Area not Found"));
    }
    if id !in db.locations {
      return Err(ServiceError(NotFound, "Location not Found"));
    }
    var location := Moved(db.locations[id], request);
    var (cityName, stateName, countryName) := AreaChain(db, request.areaId);
    r := Ok(LocationResponse(id, location.houseAddress, location.streetName, location.freeText,
                             location.latitude, location.longitude,
                             db.areas[request.areaId].name, cityName, stateName, countryName));
    LocationSaveKeepsLinks(db.areas, db.locations, id, location);
    db.locations := db.locations[id := location];
  }

  /** `getLocations`: every location with its ancestors' names. */
  function GetLocations(db: Store): (r: map<Id, LocationResponse>)
    reads db
    requires db.Linked()
    ensures r.Keys == db.locations.Keys
    ensures forall l :: l in r ==>
      var a := db.locations[l].areaId;
      && r[l].id == l
      && r[l].houseAddress == db.locations[l].houseAddress
      && r[l].streetName == db.locations[l].streetName
      && r[l].freeText == db.locations[l].freeText
      && r[l].latitude == db.locations[l].latitude
      && r[l].longitude == db.locations[l].longitude
      && r[l].areaName == db.areas[a].name
      && var c := db.areas[a].cityId;
         var s := db.cities[c].stateId;
         && r[l].cityName == db.cities[c].name
         && r[l].stateName == db.states[s].name
         && r[l].countryName == db.countries[db.states[s].countryId].name
  {
    if |db.locations| == 0 then map[]
    else map l | l in db.locations :: LocationView(db, l)
  }

  /** `getLocation`: the listing's response for one location. */
  function GetLocation(db: Store, id: Id): (r: Result<LocationResponse>)
    reads db
    requires db.Linked()
    ensures r.Err? <==> id !in db.locations
    ensures r.Err? ==> r.failure == ServiceError(NotFound, "Location Not found")
    ensures r.Ok? ==> r.value == GetLocations(db)[id]
  {
    if id !in db.locations then Err(ServiceError(NotFound, "Location Not found"))
    else Ok(LocationView(db, id))
  }

  /** `getLocationByCountry` */
  function GetLocationByCountry(db: Store, countryId: Id): (r: Result<map<Id, LocationResponse>>)
    reads db
    requires db.Linked()
    ensures r.Err? <==> countryId !in db.countries
    ensures r.Err? ==> r.failure == ServiceError(NotFound, "Country Not Found")
    ensures r.Ok? ==>
      var inCountry := set l | l in db.locations &&
        db.CountryOfState(db.StateOfCity(db.CityOfArea(db.AreaOfLocation(l)))) == countryId;
      r.value.Keys == inCountry
    ensures r.Ok? ==> forall l :: l in r.value ==>
      r.value[l] == GetLocations(db)[l] && r.value[l].countryName == db.countries[countryId].name
  {
    if countryId !in db.countries then Err(ServiceError(NotFound, "Country Not Found"))
    else if |db.locations| == 0 then Ok(map[])
    else Ok(map l | l in db.locations &&
              db.CountryOfState(db.StateOfCity(db.CityOfArea(db.AreaOfLocation(l)))) == countryId
              :: LocationView(db, l))
  }

  /** `getLocationByState` */
  function GetLocationByState(db: Store, stateId: Id): (r: Result<map<Id, LocationResponse>>)
    reads db
    requires db.Linked()
    ensures r.Err? <==> stateId !in db.states
    ensures r.Err? ==> r.failure == ServiceError(NotFound, "State Not Found")
    ensures r.Ok? ==>
      var inState := set l | l in db.locations && db.StateOfCity(db.CityOfArea(db.AreaOfLocation(l))) == stateId;
      r.value.Keys == inState
    ensures r.Ok? ==> forall l :: l in r.value ==>
      r.value[l] == GetLocations(db)[l] && r.value[l].stateName == db.states[stateId].name
  {
    if stateId !in db.states then Err(ServiceError(NotFound, "State Not Found"))
    else if |db.locations| == 0 then Ok(map[])
    else Ok(map l | l in db.locations && db.StateOfCity(db.CityOfArea(db.AreaOfLocation(l))) == stateId
              :: LocationView(db, l))
  }

  /** `getLocationByCity` */
  function GetLocationByCity(db: Store, cityId: Id): (r: Result<map<Id, LocationResponse>>)
    reads db
    requires db.Linked()
    ensures r.Err? <==> cityId !in db.cities
    ensures r.Err? ==> r.failure == ServiceError(NotFound, "No city Found")
    ensures r.Ok? ==> r.value.Keys == set l | l in db.locations && db.CityOfArea(db.AreaOfLocation(l)) == cityId
    ensures r.Ok? ==> forall l :: l in r.value ==>
      r.value[l] == GetLocations(db)[l] && r.value[l].cityName == db.cities[cityId].name
  {
    if cityId !in db.cities then Err(ServiceError(NotFound, "No city Found"))
    else if |db.locations| == 0 then Ok(map[])
    else Ok(map l | l in db.locations && db.CityOfArea(db.AreaOfLocation(l)) == cityId :: LocationView(db, l))
  }

  /** `getLocationByArea`: no existence check on the area; an empty area
      table or an empty location table gives the empty listing. */
  function GetLocationByArea(db: Store, areaId: Id): (r: map<Id, LocationResponse>)
    reads db
    requires db.Linked()
    ensures r.Keys == set l | l in db.locations && db.locations[l].areaId == areaId
    ensures forall l :: l in r ==> r[l] == GetLocations(db)[l]
  {
    if |db.areas| == 0 || |db.locations| == 0 then map[]
    else map l | l in db.locations && db.locations[l].areaId == areaId :: LocationView(db, l)
  }

  /** An unknown area id lists no locations rather than failing. */
  lemma UnknownAreaListsNothing(db: Store, areaId: Id)
    requires db.Linked() && areaId !in db.areas
    ensures GetLocationByArea(db, areaId) == map[]
  {
    assert GetLocationByArea(db, areaId).Keys == {};
  }

  /** `findByHouseAddressOrStreetName`: the term occurs, ignoring case, in
      the house address or in the street name. */
  predicate SearchMatches(location: Location, term: string)
    ensures SearchMatches(location, term) <==>
      Text.ContainsIgnoringCase(location.houseAddress, Text.Lower(term)) ||
      Text.ContainsIgnoringCase(location.streetName, Text.Lower(term))
    ensures term == [] ==> SearchMatches(location, term)
  {
    Text.TermCaseIrrelevant(location.houseAddress, term);
    Text.TermCaseIrrelevant(location.streetName, term);
    Text.EmptyTermMatches(location.houseAddress);
    Text.ContainsIgnoringCase(location.houseAddress, term) || Text.ContainsIgnoringCase(location.streetName, term)
  }

  /** `getBySearch` */
  function GetBySearch(db: Store, term: string): (r: map<Id, LocationResponse>)
    reads db
    requires db.Linked()
    ensures r.Keys == set l | l in db.locations && SearchMatches(db.locations[l], term)
    ensures forall l :: l in r ==> r[l] == GetLocations(db)[l]
  {
    var found := set l | l in db.locations && SearchMatches(db.locations[l], term);
    if |found| == 0 then map[]
    else map l | l in found :: LocationView(db, l)
  }

  /** A search for any piece of a location's street name finds it, whatever
      its house address says. */
  lemma SearchFindsStreet(db: Store, l: Id, i: nat, j: nat)
    requires db.Linked() && l in db.locations && i <= j <= |db.locations[l].streetName|
    ensures l in GetBySearch(db, db.locations[l].streetName[i..j])
  {
    Text.PieceMatches(db.locations[l].streetName, i, j);
  }

  /** A location is in a city's listing exactly when it is in the listing
      of one of that city's areas. */
  lemma ByCityIsUnionOfAreas(db: Store, cityId: Id, l: Id)
    requires db.Linked() && cityId in db.cities
    ensures l in GetLocationByCity(db, cityId).value <==>
      exists a :: a in db.areas && db.areas[a].cityId == cityId && l in GetLocationByArea(db, a)
  {
    if l in GetLocationByCity(db, cityId).value {
      var a := db.AreaOfLocation(l);
      assert l in GetLocationByArea(db, a);
    }
  }

  /** A location is in a state's listing exactly when it is in the listing
      of one of that state's cities. */
  lemma ByStateIsUnionOfCities(db: Store, stateId: Id, l: Id)
    requires db.Linked() && stateId in db.states
    ensures l in GetLocationByState(db, stateId).value <==>
      exists c :: c in db.cities && db.cities[c].stateId == stateId && l in GetLocationByCity(db, c).value
  {
    if l in GetLocationByState(db, stateId).value {
      var c := db.CityOfArea(db.AreaOfLocation(l));
      assert l in GetLocationByCity(db, c).value;
    }
  }

  /** A location is in a country's listing exactly when it is in the
      listing of one of that country's states. */
  lemma ByCountryIsUnionOfStates(db: Store, countryId: Id, l: Id)
    requires db.Linked() && countryId in db.countries
    ensures l in GetLocationByCountry(db, countryId).value <==>
      exists s :: s in db.states && db.states[s].countryId == countryId && l in GetLocationByState(db, s).value
  {
    if l in GetLocationByCountry(db, countryId).value {
      var s := db.StateOfCity(db.CityOfArea(db.AreaOfLocation(l)));
      assert l in GetLocationByState(db, s).value;
    }
  }
}
