/**
 * The repositories: one table per entity, held by a single `Store` object
 * that every service shares.  `Valid` is what holds of the stored rows:
 * every join column names an existing parent row and no two rows repeat a
 * column declared unique (both kept by the database), and no parent holds
 * two states, cities, areas or clients of the same name (kept by the
 * services, which check before every save).  The derived queries the
 * services use (`existsBy…`, `findBy…`) are functions of one table.
 */
module Repositories {
  import opened Common
  import opened Entities

  class Store {
    var continents: map<Id, Continent>
    var countries: map<Id, Country>
    var states: map<Id, State>
    var cities: map<Id, City>
    var areas: map<Id, Area>
    var locations: map<Id, Location>
    var tenants: map<Id, Tenant>
    var clients: map<Id, Client>

    ghost predicate Valid()
      reads this
    {
      Linked() && Unique()
    }

    /** Every join column names an existing row of the parent table. */
    ghost predicate Linked()
      reads this
    {
      && CountriesLinked(countries, continents)
      && StatesLinked(states, countries)
      && CitiesLinked(cities, states)
      && AreasLinked(areas, cities)
      && LocationsLinked(locations, areas)
      && ClientsLinked(clients, tenants)
    }

    /** No table repeats a value its entity declares unique, and no parent
        holds two children of the same name. */
    ghost predicate Unique()
      reads this
    {
      && ContinentsUnique(continents)
      && CountriesUnique(countries)
      && TenantsUnique(tenants)
      && StateNamesUnique(states)
      && CityNamesUnique(cities)
      && AreaNamesUnique(areas)
      && ClientNamesUnique(clients)
    }

    /** An empty database. */
    constructor ()
      ensures Valid()
      ensures continents == map[] && countries == map[] && states == map[]
      ensures cities == map[] && areas == map[] && locations == map[]
      ensures tenants == map[] && clients == map[]
    {
      continents, countries, states, cities := map[], map[], map[], map[];
      areas, locations, tenants, clients := map[], map[], map[], map[];
    }

    /** The city an area's join column names. */
    function CityOfArea(a: Id): (c: Id)
      reads this
      requires Linked() && a in areas
      ensures c in cities
    {
      areas[a].cityId
    }

    /** The state a city's join column names. */
    function StateOfCity(c: Id): (s: Id)
      reads this
      requires Linked() && c in cities
      ensures s in states
    {
      cities[c].stateId
    }

    /** The country a state's join column names. */
    function CountryOfState(s: Id): (k: Id)
      reads this
      requires Linked() && s in states
      ensures k in countries
    {
      states[s].countryId
    }

    /** The area a location's join column names. */
    function AreaOfLocation(l: Id): (a: Id)
      reads this
      requires Linked() && l in locations
      ensures a in areas
    {
      locations[l].areaId
    }
  }

  // ----- join columns -----

  ghost predicate CountriesLinked(countries: map<Id, Country>, continents: map<Id, Continent>)
  {
    forall k :: k in countries ==> countries[k].continentId in continents
  }

  ghost predicate StatesLinked(states: map<Id, State>, countries: map<Id, Country>)
  {
    forall s :: s in states ==> states[s].countryId in countries
  }

  ghost predicate CitiesLinked(cities: map<Id, City>, states: map<Id, State>)
  {
    forall c :: c in cities ==> cities[c].stateId in states
  }

  ghost predicate AreasLinked(areas: map<Id, Area>, cities: map<Id, City>)
  {
    forall a :: a in areas ==> areas[a].cityId in cities
  }

  ghost predicate LocationsLinked(locations: map<Id, Location>, areas: map<Id, Area>)
  {
    forall l :: l in locations ==> locations[l].areaId in areas
  }

  ghost predicate ClientsLinked(clients: map<Id, Client>, tenants: map<Id, Tenant>)
  {
    forall c :: c in clients ==> clients[c].tenantId in tenants
  }

  /** Saving a row whose join column names an existing parent keeps every
      join column of its table and of its children's table satisfied. */
  lemma ContinentSaveKeepsLinks(continents: map<Id, Continent>, countries: map<Id, Country>, id: Id, row: Continent)
    requires CountriesLinked(countries, continents)
    ensures CountriesLinked(countries, continents[id := row])
  {
  }

  lemma CountrySaveKeepsLinks(continents: map<Id, Continent>, countries: map<Id, Country>, states: map<Id, State>,
                              id: Id, row: Country)
    requires CountriesLinked(countries, continents) && StatesLinked(states, countries) && row.continentId in continents
    ensures CountriesLinked(countries[id := row], continents) && StatesLinked(states, countries[id := row])
  {
  }

  lemma StateSaveKeepsLinks(countries: map<Id, Country>, states: map<Id, State>, cities: map<Id, City>,
                            id: Id, row: State)
    requires StatesLinked(states, countries) && CitiesLinked(cities, states) && row.countryId in countries
    ensures StatesLinked(states[id := row], countries) && CitiesLinked(cities, states[id := row])
  {
  }

  lemma CitySaveKeepsLinks(states: map<Id, State>, cities: map<Id, City>, areas: map<Id, Area>,
                           id: Id, row: City)
    requires CitiesLinked(cities, states) && AreasLinked(areas, cities) && row.stateId in states
    ensures CitiesLinked(cities[id := row], states) && AreasLinked(areas, cities[id := row])
  {
  }

  lemma AreaSaveKeepsLinks(cities: map<Id, City>, areas: map<Id, Area>, locations: map<Id, Location>,
                           id: Id, row: Area)
    requires AreasLinked(areas, cities) && LocationsLinked(locations, areas) && row.cityId in cities
    ensures AreasLinked(areas[id := row], cities) && LocationsLinked(locations, areas[id := row])
  {
  }

  lemma LocationSaveKeepsLinks(areas: map<Id, Area>, locations: map<Id, Location>, id: Id, row: Location)
    requires LocationsLinked(locations, areas) && row.areaId in areas
    ensures LocationsLinked(locations[id := row], areas)
  {
  }

  lemma TenantSaveKeepsLinks(tenants: map<Id, Tenant>, clients: map<Id, Client>, id: Id, row: Tenant)
    requires ClientsLinked(clients, tenants)
    ensures ClientsLinked(clients, tenants[id := row])
  {
  }

  lemma ClientSaveKeepsLinks(tenants: map<Id, Tenant>, clients: map<Id, Client>, id: Id, row: Client)
    requires ClientsLinked(clients, tenants) && row.tenantId in tenants
    ensures ClientsLinked(clients[id := row], tenants)
  {
  }

  // ----- unique columns -----

  /* Each uniqueness invariant says that two rows sharing a unique value are
     one row.  "Sharing" is a predicate of its own, so that the invariant is
     only instantiated where a proof names two rows that share a value. */

  /** Rows `i` and `j` of the continent table have the same name. */
  predicate ContinentsShare(m: map<Id, Continent>, i: Id, j: Id)
  {
    i in m && j in m && m[i].name == m[j].name
  }

  /** Rows `i` and `j` of the country table repeat a name, a country code
      or a phone code. */
  predicate CountriesShare(m: map<Id, Country>, i: Id, j: Id)
  {
    i in m && j in m &&
    (m[i].name == m[j].name || m[i].countryCode == m[j].countryCode || m[i].phoneCode == m[j].phoneCode)
  }

  /** Rows `i` and `j` of the tenant table repeat a name, an email or an
      API key hash. */
  predicate TenantsShare(m: map<Id, Tenant>, i: Id, j: Id)
  {
    i in m && j in m && (m[i].name == m[j].name || m[i].email == m[j].email || m[i].apiKey == m[j].apiKey)
  }

  /** States `i` and `j` have the same name in the same country. */
  predicate StatesShare(m: map<Id, State>, i: Id, j: Id)
  {
    i in m && j in m && m[i].name == m[j].name && m[i].countryId == m[j].countryId
  }

  /** Cities `i` and `j` have the same name in the same state. */
  predicate CitiesShare(m: map<Id, City>, i: Id, j: Id)
  {
    i in m && j in m && m[i].name == m[j].name && m[i].stateId == m[j].stateId
  }

  /** Areas `i` and `j` have the same name in the same city. */
  predicate AreasShare(m: map<Id, Area>, i: Id, j: Id)
  {
    i in m && j in m && m[i].name == m[j].name && m[i].cityId == m[j].cityId
  }

  /** Clients `i` and `j` have the same name under the same tenant. */
  predicate ClientsShare(m: map<Id, Client>, i: Id, j: Id)
  {
    i in m && j in m && m[i].name == m[j].name && m[i].tenantId == m[j].tenantId
  }

  ghost predicate ContinentsUnique(m: map<Id, Continent>)
  {
    forall i, j :: ContinentsShare(m, i, j) ==> i == j
  }

  ghost predicate CountriesUnique(m: map<Id, Country>)
  {
    forall i, j :: CountriesShare(m, i, j) ==> i == j
  }

  ghost predicate TenantsUnique(m: map<Id, Tenant>)
  {
    forall i, j :: TenantsShare(m, i, j) ==> i == j
  }

  /** No country holds two states of the same name. */
  ghost predicate StateNamesUnique(m: map<Id, State>)
  {
    forall i, j :: StatesShare(m, i, j) ==> i == j
  }

  /** No state holds two cities of the same name. */
  ghost predicate CityNamesUnique(m: map<Id, City>)
  {
    forall i, j :: CitiesShare(m, i, j) ==> i == j
  }

  /** No city holds two areas of the same name. */
  ghost predicate AreaNamesUnique(m: map<Id, Area>)
  {
    forall i, j :: AreasShare(m, i, j) ==> i == j
  }

  /** No tenant holds two clients of the same name. */
  ghost predicate ClientNamesUnique(m: map<Id, Client>)
  {
    forall i, j :: ClientsShare(m, i, j) ==> i == j
  }

  /** Saving `c` as row `id` would repeat another row's unique name. */
  predicate ContinentClash(m: map<Id, Continent>, id: Id, c: Continent)
  {
    exists other :: other in m && other != id && m[other].name == c.name
  }

  predicate CountryClash(m: map<Id, Country>, id: Id, c: Country)
  {
    exists other :: other in m && other != id &&
      (m[other].name == c.name || m[other].countryCode == c.countryCode ||
       m[other].phoneCode == c.phoneCode)
  }

  predicate TenantClash(m: map<Id, Tenant>, id: Id, t: Tenant)
  {
    exists other :: other in m && other != id &&
      (m[other].name == t.name || m[other].email == t.email || m[other].apiKey == t.apiKey)
  }

  /** The database accepts a save exactly when it repeats no unique value,
      and then the table stays free of duplicates. */
  lemma ContinentSaveKeepsUnique(m: map<Id, Continent>, id: Id, c: Continent)
    requires ContinentsUnique(m) && !ContinentClash(m, id, c)
    ensures ContinentsUnique(m[id := c])
  {
    var saved := m[id := c];
    forall i, j | ContinentsShare(saved, i, j) ensures i == j {
      if i != id && j != id {
        assert ContinentsShare(m, i, j);
      }
    }
  }

  lemma CountrySaveKeepsUnique(m: map<Id, Country>, id: Id, c: Country)
    requires CountriesUnique(m) && !CountryClash(m, id, c)
    ensures CountriesUnique(m[id := c])
  {
    var saved := m[id := c];
    forall i, j | CountriesShare(saved, i, j) ensures i == j {
      if i != id && j != id {
        assert CountriesShare(m, i, j);
      }
    }
  }

  lemma TenantSaveKeepsUnique(m: map<Id, Tenant>, id: Id, t: Tenant)
    requires TenantsUnique(m) && !TenantClash(m, id, t)
    ensures TenantsUnique(m[id := t])
  {
    var saved := m[id := t];
    forall i, j | TenantsShare(saved, i, j) ensures i == j {
      if i != id && j != id {
        assert TenantsShare(m, i, j);
      }
    }
  }

  /** A service saves a child only when its parent has no child of that
      name yet, which keeps the names unique within the parent. */
  lemma StateSaveKeepsUnique(m: map<Id, State>, id: Id, s: State)
    requires StateNamesUnique(m) && !StateNameTaken(m, s.name, s.countryId)
    ensures StateNamesUnique(m[id := s])
  {
    var saved := m[id := s];
    forall i, j | StatesShare(saved, i, j) ensures i == j {
      if i != id && j != id {
        assert StatesShare(m, i, j);
      }
    }
  }

  lemma CitySaveKeepsUnique(m: map<Id, City>, id: Id, c: City)
    requires CityNamesUnique(m) && !CityNameTaken(m, c.name, c.stateId)
    ensures CityNamesUnique(m[id := c])
  {
    var saved := m[id := c];
    forall i, j | CitiesShare(saved, i, j) ensures i == j {
      if i != id && j != id {
        assert CitiesShare(m, i, j);
      }
    }
  }

  lemma AreaSaveKeepsUnique(m: map<Id, Area>, id: Id, a: Area)
    requires AreaNamesUnique(m) && !AreaNameTaken(m, a.name, a.cityId)
    ensures AreaNamesUnique(m[id := a])
  {
    var saved := m[id := a];
    forall i, j | AreasShare(saved, i, j) ensures i == j {
      if i != id && j != id {
        assert AreasShare(m, i, j);
      }
    }
  }

  lemma ClientSaveKeepsUnique(m: map<Id, Client>, id: Id, c: Client)
    requires ClientNamesUnique(m) && !ClientNameTaken(m, c.name, c.tenantId)
    ensures ClientNamesUnique(m[id := c])
  {
    var saved := m[id := c];
    forall i, j | ClientsShare(saved, i, j) ensures i == j {
      if i != id && j != id {
        assert ClientsShare(m, i, j);
      }
    }
  }

  // ----- derived queries -----

  /** `StateRepository.existsByNameAndCountryId`: the name, compared
      exactly and with its case, is among the names the country holds. */
  predicate StateNameTaken(states: map<Id, State>, name: string, countryId: Id)
    ensures StateNameTaken(states, name, countryId) <==>
      name in (set s | s in states && states[s].countryId == countryId :: states[s].name)
  {
    exists s :: s in states && states[s].name == name && states[s].countryId == countryId
  }

  /** `CityRepository.existsByNameAndStateId`: the name, compared exactly
      and with its case, is among the names the state holds. */
  predicate CityNameTaken(cities: map<Id, City>, name: string, stateId: Id)
    ensures CityNameTaken(cities, name, stateId) <==>
      name in (set c | c in cities && cities[c].stateId == stateId :: cities[c].name)
  {
    exists c :: c in cities && cities[c].name == name && cities[c].stateId == stateId
  }

  /** `AreaRepository.existsByNameAndCityId`: the name, compared exactly
      and with its case, is among the names the city holds. */
  predicate AreaNameTaken(areas: map<Id, Area>, name: string, cityId: Id)
    ensures AreaNameTaken(areas, name, cityId) <==>
      name in (set a | a in areas && areas[a].cityId == cityId :: areas[a].name)
  {
    exists a :: a in areas && areas[a].name == name && areas[a].cityId == cityId
  }

  /** `ClientRepository.existsByNameAndTenantId`: the name, compared
      exactly and with its case, is among the names the tenant holds. */
  predicate ClientNameTaken(clients: map<Id, Client>, name: string, tenantId: Id)
    ensures ClientNameTaken(clients, name, tenantId) <==>
      name in (set c | c in clients && clients[c].tenantId == tenantId :: clients[c].name)
  {
    exists c :: c in clients && clients[c].name == name && clients[c].tenantId == tenantId
  }

  /** The rows `TenantRepository.findByApiKey` may return. */
  function TenantsWithApiKey(tenants: map<Id, Tenant>, apiKeyHash: string): (r: set<Id>)
    ensures r <= tenants.Keys
    ensures forall t :: t in r ==> tenants[t].apiKey == apiKeyHash
    ensures r == {} <==> apiKeyHash !in (set t | t in tenants :: tenants[t].apiKey)
  {
    var r := set t | t in tenants && tenants[t].apiKey == apiKeyHash;
    assert forall t :: t in tenants && tenants[t].apiKey == apiKeyHash ==> t in r;
    r
  }

  /** `TenantRepository.findByEmail(email).isPresent()`: the email is one
      of the stored addresses, compared exactly. */
  predicate EmailRegistered(tenants: map<Id, Tenant>, email: string)
    ensures EmailRegistered(tenants, email) <==>
      email in (set t | t in tenants :: tenants[t].email)
  {
    exists t :: t in tenants && tenants[t].email == email
  }

  /** With the unique `apiKey` column a hash names at most one tenant, so
      `findByApiKey` is a function of the table. */
  lemma ApiKeyNamesOneTenant(tenants: map<Id, Tenant>, t: Id)
    requires TenantsUnique(tenants) && t in tenants
    ensures TenantsWithApiKey(tenants, tenants[t].apiKey) == {t}
  {
    forall u | u in TenantsWithApiKey(tenants, tenants[t].apiKey) ensures u == t {
      assert TenantsShare(tenants, u, t);
    }
  }
}
