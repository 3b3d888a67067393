/**
 * CountryService: countries inside continents.  Name, country code and
 * phone code are each unique across the table; the database enforces that
 * when a row is saved.  Listings attach the continent's name.
 */
module CountryService {
  import opened Common
  import opened Entities
  import opened Repositories
  import Text

  /** CountryRequest, used by both create and update. */
  datatype CountryRequest = CountryRequest(
    continentId: Id, name: string, countryCode: string, phoneCode: string, flag: string)

  /** A CountryResponse: the id and name the mapper copies, and the
      continent's name, flattened from `continent.name` where the service
      does not set it itself. */
  datatype CountryResponse = CountryResponse(id: Id, name: string, continentName: string)

  /** The row a request describes. */
  function Row(request: CountryRequest): Country
  {
    Country(request.name, request.countryCode, request.phoneCode, request.flag,
            request.continentId, ServiceAudit)
  }

  /** The response the listings build: the country with its continent's name. */
  function CountryView(db: Store, k: Id): CountryResponse
    reads db
    requires db.Linked() && k in db.countries
  {
    CountryResponse(k, db.countries[k].name, db.continents[db.countries[k].continentId].name)
  }

  /** `createCountry`: the continent must exist, then the row is saved. */
  method CreateCountry(db: Store, request: CountryRequest, newId: Id)
    returns (r: Result<CountryResponse>)
    requires db.Valid() && newId !in db.countries
    modifies db`countries
    ensures db.Valid()
    ensures request.continentId !in db.continents ==>
      r == Err(ServiceError(NotFound, "Continent Not found"))
    ensures request.continentId in db.continents && CountryClash(old(db.countries), newId, Row(request)) ==>
      r == Err(ConstraintViolation("Countries"))
    ensures r.Ok? <==> request.continentId in db.continents && !CountryClash(old(db.countries), newId, Row(request))
    ensures r.Err? ==> db.countries == old(db.countries)
    ensures r.Ok? ==>
      && db.countries == old(db.countries)[newId := Row(request)]
      && r.value == CountryView(db, newId)
  {
    if request.continentId !in db.continents {
      return Err(ServiceError(NotFound, "Continent Not found"));
    }
    var country := Row(request);
    if CountryClash(db.countries, newId, country) {
      return Err(ConstraintViolation("Countries"));
    }
    CountrySaveKeepsUnique(db.countries, newId, country);
    CountrySaveKeepsLinks(db.continents, db.countries, db.states, newId, country);
    db.countries := db.countries[newId := country];
    return Ok(CountryResponse(newId, country.name, db.continents[request.continentId].name));
  }

  /** `updateCountry`: the continent is looked up before the country; every
      column of the row is overwritten from the request. */
  method UpdateCountry(db: Store, id: Id, request: CountryRequest)
    returns (r: Result<CountryResponse>)
    requires db.Valid()
    modifies db`countries
    ensures db.Valid()
    ensures request.continentId !in db.continents ==>
      r == Err(ServiceError(NotFound, "Continent Not found"))
    ensures request.continentId in db.continents && id !in old(db.countries) ==>
      r == Err(ServiceError(NotFound, "Country not Found"))
    ensures (request.continentId in db.continents && id in old(db.countries) &&
             CountryClash(old(db.countries), id, Row(request))) ==>
      r == Err(ConstraintViolation("Countries"))
    ensures r.Ok? <==>
      request.continentId in db.continents && id in old(db.countries) && !CountryClash(old(db.countries), id, Row(request))
    ensures r.Err? ==> db.countries == old(db.countries)
    ensures r.Ok? ==>
      && id in old(db.countries)
      && db.countries == old(db.countries)[id := Row(request)]
      && r.value == CountryView(db, id)
  {
    if request.continentId !in db.continents {
      return Err(ServiceError(NotFound, "Continent Not found"));
    }
    if id !in db.countries {
      return Err(ServiceError(NotFound, "Country not Found"));
    }
    var country := Row(request);
    if CountryClash(db.countries, id, country) {
      return Err(ConstraintViolation("Countries"));
    }
    CountrySaveKeepsUnique(db.countries, id, country);
    CountrySaveKeepsLinks(db.continents, db.countries, db.states, id, country);
    db.countries := db.countries[id := country];
    return Ok(CountryResponse(id, country.name, db.continents[request.continentId].name));
  }

  /** `getCountries`: every country, each with its continent's name. */
  function GetCountries(db: Store): (r: map<Id, CountryResponse>)
    reads db
    requires db.Linked()
    ensures r.Keys == db.countries.Keys
    ensures forall k :: k in r ==>
      r[k].id == k && r[k].name == db.countries[k].name &&
      r[k].continentName == db.continents[db.countries[k].continentId].name
  {
    if |db.countries| == 0 then map[]
    else map k | k in db.countries :: CountryView(db, k)
  }

  /** `getCountry`: the listing's response for one country. */
  function GetCountry(db: Store, id: Id): (r: Result<CountryResponse>)
    reads db
    requires db.Linked()
    ensures r.Err? <==> id !in db.countries
    ensures r.Err? ==> r.failure == ServiceError(NotFound, "Country not found")
    ensures r.Ok? ==> r.value == GetCountries(db)[id]
  {
    if id !in db.countries then Err(ServiceError(NotFound, "Country not found"))
    else Ok(CountryView(db, id))
  }

  /** `getCountriesByName`: the countries whose name contains the term,
      ignoring case. */
  function GetCountriesByName(db: Store, name: string): (r: map<Id, CountryResponse>)
    reads db
    requires db.Linked()
    ensures r.Keys == set k | k in db.countries && Text.ContainsIgnoringCase(db.countries[k].name, name)
    ensures forall k :: k in r ==> r[k] == GetCountries(db)[k]
  {
    var found := set k | k in db.countries && Text.ContainsIgnoringCase(db.countries[k].name, name);
    if |found| == 0 then map[]
    else map k | k in found :: CountryView(db, k)
  }

  /** `getByContinent`: the countries of an existing continent. */
  function GetByContinent(db: Store, continentId: Id): (r: Result<map<Id, CountryResponse>>)
    reads db
    requires db.Linked()
    ensures r.Err? <==> continentId !in db.continents
    ensures r.Err? ==> r.failure == ServiceError(NotFound, "Continent not found")
    ensures r.Ok? ==> r.value.Keys == set k | k in db.countries && db.countries[k].continentId == continentId
    ensures r.Ok? ==> forall k :: k in r.value ==>
      r.value[k] == GetCountries(db)[k] && r.value[k].continentName == db.continents[continentId].name
  {
    if continentId !in db.continents then Err(ServiceError(NotFound, "Continent not found"))
    else
      var found := set k | k in db.countries && db.countries[k].continentId == continentId;
      if |found| == 0 then Ok(map[])
      else Ok(map k | k in found :: CountryView(db, k))
  }

  /** The continents partition the countries: every country is listed under
      exactly one continent, its own. */
  lemma EachCountryUnderOneContinent(db: Store, k: Id, c: Id)
    requires db.Linked() && k in db.countries && c in db.continents
    ensures k in GetByContinent(db, c).value <==> c == db.countries[k].continentId
  {
  }
}
