# Location registry service layer, in Dafny

This project models the service layer of the location-service application.
That service keeps a geographic hierarchy: continents hold countries,
countries hold states, states hold cities, cities hold areas, and areas hold
street locations. Tenants and their clients have access to it. A tenant is
authenticated by an API key. Only the SHA-256 hash of the key is stored,
together with an AES encryption of it.

All services share one `Repositories.Store` object. It holds one map from
row id to entity per table. Write operations are methods that change only
their own table, and they check their conditions in the order the Java code
does. Each check either yields one of four application errors (conflict,
unauthorised, not found, invalid email) or lets the operation continue. A
successful write inserts or overwrites exactly one row. Reads are functions
of the store. `Store.Valid()` is kept by every write:

- every join column names an existing parent row;
- no unique column repeats a value (a constraint the database enforces);
- no parent holds two states, cities, areas or clients of the same name (the
  services enforce this).

The other parts of the model:

- API-key handling: the hex loop of `hashApiKey`, authentication and the
  two-stage admin guard.
- The email regular expression, as a string predicate.
- The tenant and client lifecycles.
- The start-up bootstrap of three administrator tenants.
- The mapping from exceptions to HTTP responses.

Parameters stand for what cannot be computed here:

- SHA-256, AES encryption and AES decryption are fields of
  `Crypto.Primitives`.
- The random UUIDs the services generate, for row ids and for fresh API
  keys, are method arguments (`newId`, `issuedKey`, `keys`, `ids`).

A save the database refuses because a column declared unique would repeat
a value is modelled as the failure `ConstraintViolation(table)`.

## Model

| member | source | states |
|---|---|---|
| Repositories.Store.constructor | src/main/java/com/tecvinson/location/repositories/AreaRepository.java:13 | stands for the initial empty schema behind the repositories: an empty database satisfies every join-column and uniqueness invariant |
| Repositories.Store.CityOfArea | src/main/java/com/tecvinson/location/entities/Area.java:13-15 | in a linked store an area's city column names an existing city |
| Repositories.Store.StateOfCity | src/main/java/com/tecvinson/location/entities/City.java:11-13 | in a linked store a city's state column names an existing state |
| Repositories.Store.CountryOfState | src/main/java/com/tecvinson/location/entities/State.java:11-13 | in a linked store a state's country column names an existing country |
| Repositories.Store.AreaOfLocation | src/main/java/com/tecvinson/location/services/LocationService.java:45-49 | in a linked store a location's area column names an existing area, as `createLocation` sets it here and `updateLocation` sets it again at LocationService.java:67-75 from an area it found |
| Repositories.ContinentSaveKeepsLinks | src/main/java/com/tecvinson/location/entities/Country.java:20-22 | saving a continent keeps every country's continent column valid |
| Repositories.CountrySaveKeepsLinks | src/main/java/com/tecvinson/location/entities/Country.java:20-22 | saving a country whose continent exists keeps the country and state join columns valid |
| Repositories.StateSaveKeepsLinks | src/main/java/com/tecvinson/location/entities/State.java:11-13 | saving a state whose country exists keeps the state and city join columns valid |
| Repositories.CitySaveKeepsLinks | src/main/java/com/tecvinson/location/entities/City.java:11-13 | saving a city whose state exists keeps the city and area join columns valid |
| Repositories.AreaSaveKeepsLinks | src/main/java/com/tecvinson/location/entities/Area.java:13-15 | saving an area whose city exists keeps the area and location join columns valid |
| Repositories.LocationSaveKeepsLinks | src/main/java/com/tecvinson/location/services/LocationService.java:45-52 | saving a location whose area exists keeps every location's area column valid |
| Repositories.TenantSaveKeepsLinks | src/main/java/com/tecvinson/location/entities/Client.java:13-15 | saving a tenant keeps every client's tenant column valid |
| Repositories.ClientSaveKeepsLinks | src/main/java/com/tecvinson/location/entities/Client.java:13-15 | saving a client whose tenant exists keeps every client's tenant column valid |
| Repositories.ContinentSaveKeepsUnique | src/main/java/com/tecvinson/location/entities/Continent.java:11-12 | a save that repeats no continent name keeps the names unique |
| Repositories.CountrySaveKeepsUnique | src/main/java/com/tecvinson/location/entities/Country.java:9-16 | a save that repeats no name, country code or phone code keeps all three columns unique |
| Repositories.TenantSaveKeepsUnique | src/main/java/com/tecvinson/location/entities/Tenant.java:10-15 | a save that repeats no tenant name, API-key hash or email keeps all three columns unique |
| Repositories.StateSaveKeepsUnique | src/main/java/com/tecvinson/location/repositories/StateRepository.java:17 | saving a state whose name its country does not hold yet keeps state names unique within each country |
| Repositories.CitySaveKeepsUnique | src/main/java/com/tecvinson/location/repositories/CityRepository.java:17 | saving a city whose name its state does not hold yet keeps city names unique within each state |
| Repositories.AreaSaveKeepsUnique | src/main/java/com/tecvinson/location/repositories/AreaRepository.java:17 | saving an area whose name its city does not hold yet keeps area names unique within each city |
| Repositories.ClientSaveKeepsUnique | src/main/java/com/tecvinson/location/repositories/ClientRepository.java:11 | saving a client whose name its tenant does not hold yet keeps client names unique within each tenant |
| Repositories.ApiKeyNamesOneTenant | src/main/java/com/tecvinson/location/repositories/TenantRepository.java:10 | with the unique API-key column, a stored hash finds exactly its own tenant row |
| Repositories.StateNameTaken | src/main/java/com/tecvinson/location/repositories/StateRepository.java:17 | `existsByNameAndCountryId`: true exactly when the name, compared exactly and with its case, is among the names of that country's states |
| Repositories.CityNameTaken | src/main/java/com/tecvinson/location/repositories/CityRepository.java:17 | `existsByNameAndStateId`: true exactly when the name, compared exactly and with its case, is among the names of that state's cities |
| Repositories.AreaNameTaken | src/main/java/com/tecvinson/location/repositories/AreaRepository.java:17 | `existsByNameAndCityId`: true exactly when the name, compared exactly and with its case, is among the names of that city's areas |
| Repositories.ClientNameTaken | src/main/java/com/tecvinson/location/repositories/ClientRepository.java:11 | `existsByNameAndTenantId`: true exactly when the name, compared exactly and with its case, is among the names of that tenant's clients |
| Repositories.TenantsWithApiKey | src/main/java/com/tecvinson/location/repositories/TenantRepository.java:10 | the rows `findByApiKey` may return: stored tenants whose hash equals the given one, and none exactly when no stored tenant has that hash |
| Repositories.EmailRegistered | src/main/java/com/tecvinson/location/repositories/TenantRepository.java:11 | `findByEmail(email).isPresent()`, the test `createAdminIfNotExists` makes: true exactly when the email is one of the stored addresses, compared exactly |
| Text.Lower | src/main/java/com/tecvinson/location/repositories/StateRepository.java:14 | `LOWER` keeps the length and lowers each character on its own |
| Text.LowerIdempotent | src/main/java/com/tecvinson/location/repositories/StateRepository.java:14 | lowering twice is lowering once |
| Text.TermCaseIrrelevant | src/main/java/com/tecvinson/location/repositories/StateRepository.java:14 | the case in which a search term is written does not change what the search finds |
| Text.EmptyTermMatches | src/main/java/com/tecvinson/location/repositories/CityRepository.java:14 | the empty term matches every row |
| Text.PieceMatches | src/main/java/com/tecvinson/location/repositories/AreaRepository.java:14 | any piece of a value finds that value, whatever its case |
| ValidationService.FormatByte | src/main/java/com/tecvinson/location/services/ValidationService.java:33 | `%02x` gives two lower-case hex digits whose value is the byte read as unsigned |
| ValidationService.HexEncodeDigits | src/main/java/com/tecvinson/location/services/ValidationService.java:31-35 | every character of the hex form is in [0-9a-f] |
| ValidationService.HexRoundTrip | src/main/java/com/tecvinson/location/services/ValidationService.java:31-35 | decoding the hex form gives back the digest bytes |
| ValidationService.HexEncodeInjective | src/main/java/com/tecvinson/location/services/ValidationService.java:32-34 | different byte sequences give different hex strings |
| ValidationService.ApiKeyHashCollisions | src/main/java/com/tecvinson/location/services/ValidationService.java:26-39 | two keys hash to the same stored text exactly when their SHA-256 digests agree |
| ValidationService.HashApiKey | src/main/java/com/tecvinson/location/services/ValidationService.java:26-39 | the loop builds the hex form of the digest: 64 characters, all in [0-9a-f] |
| ValidationService.KeyOwner | src/main/java/com/tecvinson/location/services/ValidationService.java:46-47 | the lookup by hash gives a row with that hash, or nothing exactly when no row has it |
| ValidationService.KeyOwnerIsTheRow | src/main/java/com/tecvinson/location/repositories/TenantRepository.java:10 | in a valid table a row's own hash authenticates that row |
| ValidationService.ValidateApiKey | src/main/java/com/tecvinson/location/services/ValidationService.java:42-50 | returns the tenant whose stored hash equals the key's hash, or fails Unauthorized "Invalid API Key"; the store is not modified |
| ValidationService.ValidateAdminApiKey | src/main/java/com/tecvinson/location/services/ValidationService.java:53-70 | passes exactly when the key names a tenant and that tenant's email is admin1, admin2 or admin3@example.com; an unknown key fails "Invalid API Key" and a non-admin key fails "Unauthorized To Perform This Action"; the store is not modified |
| ValidationService.IsAdminEmail | src/main/java/com/tecvinson/location/services/ValidationService.java:66-70 | true for exactly admin1, admin2 and admin3@example.com: an 18-character string made of "admin", a digit from 1 to 3 and "@example.com" |
| ValidationService.IsEmailMatchesRegex | src/main/java/com/tecvinson/location/services/ValidationService.java:76-77 | the one-cut matcher (first '@', last '.') accepts exactly the strings `EMAIL_REGEX` matches |
| ValidationService.ValidateEmail | src/main/java/com/tecvinson/location/services/ValidationService.java:80-84 | passes exactly for a present address that `EMAIL_REGEX` matches, and otherwise fails InvalidEmail "Invalid email format" |
| ValidationService.AcceptedEmailShape | src/main/java/com/tecvinson/location/services/ValidationService.java:76 | an accepted address has exactly one '@' with text on both sides, and ends in '.' followed by 2 to 6 letters |
| ValidationService.AdminEmailsWellFormed | src/main/java/com/tecvinson/location/services/ValidationService.java:66-70 | each of the three admin addresses passes the email check |
| ContinentService.CreateContinent | src/main/java/com/tecvinson/location/services/ContinentService.java:45-66 | an unknown client fails NotFound "Client Not Found"; a duplicate name is refused by the database; it succeeds exactly otherwise, adding one continent with the request's name and the client's id and changing nothing else |
| ContinentService.UpdateContinent | src/main/java/com/tecvinson/location/services/ContinentService.java:75-91 | an unknown id fails NotFound "Continent Not Found"; on success only the name and audit columns of that row change, and the client column stays |
| ContinentService.GetContinents | src/main/java/com/tecvinson/location/services/ContinentService.java:97-113 | one response per stored continent, with its id and name |
| ContinentService.GetContinent | src/main/java/com/tecvinson/location/services/ContinentService.java:120-129 | fails NotFound exactly for an unknown id; otherwise the listing's response for that id |
| ContinentService.GetContinentByName | src/main/java/com/tecvinson/location/services/ContinentService.java:136-151 | exactly the continents whose name contains the term, ignoring case |
| ContinentService.SearchByOwnNameFinds | src/main/java/com/tecvinson/location/repositories/ContinentRepository.java:13-14 | searching for a continent's own name finds it |
| CountryService.CreateCountry | src/main/java/com/tecvinson/location/services/CountryService.java:44-66 | an unknown continent fails NotFound "Continent Not found" and changes nothing; the service has no conflict check, so a repeated unique column is refused by the database; otherwise exactly one country is added, linked to the continent, and the response is that row's full view with the continent's name |
| CountryService.UpdateCountry | src/main/java/com/tecvinson/location/services/CountryService.java:75-99 | the continent is checked before the country itself; on success name, countryCode, phoneCode, flag and continent of that row are overwritten from the request, and the response is the row's full view with the new continent's name |
| CountryService.GetCountries | src/main/java/com/tecvinson/location/services/CountryService.java:105-125 | one response per stored country, indexed by its id, carrying its name and its continent's name |
| CountryService.GetCountry | src/main/java/com/tecvinson/location/services/CountryService.java:132-141 | fails NotFound exactly for an unknown id; otherwise the listing's response for that id, continent name included |
| CountryService.GetCountriesByName | src/main/java/com/tecvinson/location/services/CountryService.java:148-167 | exactly the countries whose name contains the term, ignoring case |
| CountryService.GetByContinent | src/main/java/com/tecvinson/location/services/CountryService.java:174-196 | fails NotFound exactly for an unknown continent; otherwise exactly that continent's countries |
| CountryService.EachCountryUnderOneContinent | src/main/java/com/tecvinson/location/services/CountryService.java:178-186 | a country appears in one continent's listing exactly when it belongs to that continent |
| StateService.CreateState | src/main/java/com/tecvinson/location/services/StateService.java:42-66 | an unknown country fails NotFound before the conflict check; a name the country already holds fails ResourceConflict; it succeeds exactly otherwise, adding one state and changing nothing else; the response is its full view with the country's name |
| StateService.UpdateState | src/main/java/com/tecvinson/location/services/StateService.java:74-101 | checks country, then name conflict, then the state itself; on success only that row's name and country change, and the response is its full view with the new country's name |
| StateService.UnchangedUpdateConflicts | src/main/java/com/tecvinson/location/services/StateService.java:81-85 | an update that keeps a state's name and country always meets the conflict check |
| StateService.GetStates | src/main/java/com/tecvinson/location/services/StateService.java:107-127 | one response per stored state, indexed by its id, carrying its name and its country's name |
| StateService.GetState | src/main/java/com/tecvinson/location/services/StateService.java:134-145 | fails NotFound exactly for an unknown id; otherwise the listing's response, with its country's name |
| StateService.GetStatesByName | src/main/java/com/tecvinson/location/services/StateService.java:152-171 | exactly the states whose name contains the term, ignoring case |
| StateService.GetByCountryId | src/main/java/com/tecvinson/location/services/StateService.java:178-200 | fails NotFound exactly for an unknown country; otherwise exactly that country's states |
| StateService.NameIdentifiesStateInCountry | src/main/java/com/tecvinson/location/repositories/StateRepository.java:17 | in a country's listing a state name picks out exactly one state |
| CityService.CreateCity | src/main/java/com/tecvinson/location/services/CityService.java:44-71 | an unknown state fails NotFound "State not Found" before the conflict check; a name the state already holds fails ResourceConflict; it succeeds exactly otherwise, adding one city under that state; the response is its full view with the state's and country's names |
| CityService.UpdateCity | src/main/java/com/tecvinson/location/services/CityService.java:74-104 | checks state, then name conflict, then the city itself; on success only that row's name and state change, and the response is its full view with the new state's and country's names |
| CityService.UnchangedUpdateConflicts | src/main/java/com/tecvinson/location/services/CityService.java:81-86 | an update that keeps a city's name and state always meets the conflict check |
| CityService.GetCities | src/main/java/com/tecvinson/location/services/CityService.java:107-126 | one response per stored city, indexed by its id, carrying its name and its state's and its country's names |
| CityService.GetCity | src/main/java/com/tecvinson/location/services/CityService.java:129-142 | fails NotFound exactly for an unknown id; otherwise the listing's response |
| CityService.GetByName | src/main/java/com/tecvinson/location/services/CityService.java:145-164 | exactly the cities whose name contains the term, ignoring case |
| CityService.GetByState | src/main/java/com/tecvinson/location/services/CityService.java:167-190 | fails NotFound exactly for an unknown state; otherwise exactly that state's cities |
| CityService.GetByCountry | src/main/java/com/tecvinson/location/services/CityService.java:193-221 | fails NotFound exactly for an unknown country; otherwise exactly the cities whose state lies in that country |
| CityService.ByCountryIsUnionOfStates | src/main/java/com/tecvinson/location/services/CityService.java:193-221 | a city is in a country's listing exactly when it is in the listing of one of that country's states |
| AreaService.CreateArea | src/main/java/com/tecvinson/location/services/AreaService.java:50-81 | an unknown city fails NotFound "City not Found" before the conflict check; a name the city already holds fails ResourceConflict (the same name under another city is accepted); it succeeds exactly otherwise, adding one area and keeping every other row; the response is its full view with the city's, state's and country's names |
| AreaService.UpdateArea | src/main/java/com/tecvinson/location/services/AreaService.java:84-117 | checks city, then name conflict, then the area itself, so a missing area with a taken name is a conflict; on success only that row's name and city change, and the response is its full view with the new ancestors' names |
| AreaService.UnchangedUpdateConflicts | src/main/java/com/tecvinson/location/services/AreaService.java:92-96 | an update that keeps an area's name and city always meets the conflict check |
| AreaService.GetAreas | src/main/java/com/tecvinson/location/services/AreaService.java:120-141 | one response per stored area, indexed by its id, carrying its name and its city's, state's and country's names |
| AreaService.GetArea | src/main/java/com/tecvinson/location/services/AreaService.java:144-158 | fails NotFound exactly for an unknown id; otherwise the listing's response |
| AreaService.GetByName | src/main/java/com/tecvinson/location/services/AreaService.java:161-182 | exactly the areas whose name contains the term, ignoring case |
| AreaService.GetByCity | src/main/java/com/tecvinson/location/services/AreaService.java:185-210 | fails NotFound exactly for an unknown city; otherwise exactly that city's areas |
| AreaService.GetByState | src/main/java/com/tecvinson/location/services/AreaService.java:213-240 | fails NotFound exactly for an unknown state; otherwise exactly the areas whose city lies in that state |
| AreaService.GetByCountry | src/main/java/com/tecvinson/location/services/AreaService.java:243-270 | fails NotFound exactly for an unknown country; otherwise exactly the areas whose city's state lies in that country |
| AreaService.ByStateIsUnionOfCities | src/main/java/com/tecvinson/location/services/AreaService.java:217-229 | an area is in a state's listing exactly when it is in the listing of one of that state's cities |
| AreaService.ByCountryIsUnionOfStates | src/main/java/com/tecvinson/location/services/AreaService.java:247-259 | an area is in a country's listing exactly when it is in the listing of one of that country's states |
| LocationService.AreaChain | src/main/java/com/tecvinson/location/services/LocationService.java:57-59 | the city, state and country names reached through the area's join columns |
| LocationService.CreateLocation | src/main/java/com/tecvinson/location/services/LocationService.java:42-61 | fails NotFound "Area not Found" exactly for an unknown area; otherwise it adds exactly one location under that area, with no uniqueness check, and the response is its full view with the names along its chain |
| LocationService.Moved | src/main/java/com/tecvinson/location/services/LocationService.java:73-79 | the updated row takes house address, area and coordinates from the request and keeps its stored street name and free text |
| LocationService.UpdateLocation | src/main/java/com/tecvinson/location/services/LocationService.java:64-86 | the area is checked before the location itself; on success only that row changes, into the `Moved` row, and the response is that row's full view |
| LocationService.GetLocations | src/main/java/com/tecvinson/location/services/LocationService.java:88-110 | one response per stored location, indexed by its id, carrying its house address, street name, free text, coordinates and the names along its area, city, state and country chain |
| LocationService.GetLocation | src/main/java/com/tecvinson/location/services/LocationService.java:112-124 | fails NotFound exactly for an unknown id; otherwise the listing's response |
| LocationService.GetLocationByCountry | src/main/java/com/tecvinson/location/services/LocationService.java:127-154 | fails NotFound exactly for an unknown country; otherwise exactly the locations whose chain reaches it |
| LocationService.GetLocationByState | src/main/java/com/tecvinson/location/services/LocationService.java:156-182 | fails NotFound exactly for an unknown state; otherwise exactly the locations whose chain reaches it |
| LocationService.GetLocationByCity | src/main/java/com/tecvinson/location/services/LocationService.java:184-210 | fails NotFound exactly for an unknown city; otherwise exactly the locations whose area lies in it |
| LocationService.GetLocationByArea | src/main/java/com/tecvinson/location/services/LocationService.java:212-241 | exactly the locations in that area, with no existence check on the area |
| LocationService.UnknownAreaListsNothing | src/main/java/com/tecvinson/location/services/LocationService.java:215-229 | an unknown area id gives an empty listing rather than an error |
| LocationService.GetBySearch | src/main/java/com/tecvinson/location/services/LocationService.java:243-264 | exactly the locations whose house address or street name contains the term, ignoring case |
| LocationService.SearchMatches | src/main/java/com/tecvinson/location/repositories/LocationRepository.java:13-14 | the query condition: the term occurs, ignoring case, in the house address or in the street name; the term's own case does not matter, and an empty term matches every location |
| LocationService.SearchFindsStreet | src/main/java/com/tecvinson/location/repositories/LocationRepository.java:13 | any piece of a location's street name finds it, whatever its house address |
| LocationService.ByCityIsUnionOfAreas | src/main/java/com/tecvinson/location/services/LocationService.java:187-198 | a location is in a city's listing exactly when it is in the listing of one of that city's areas |
| LocationService.ByStateIsUnionOfCities | src/main/java/com/tecvinson/location/services/LocationService.java:159-170 | a location is in a state's listing exactly when it is in the listing of one of that state's cities |
| LocationService.ByCountryIsUnionOfStates | src/main/java/com/tecvinson/location/services/LocationService.java:130-141 | a location is in a country's listing exactly when it is in the listing of one of that country's states |
| TenantService.NewTenant | src/main/java/com/tecvinson/location/services/TenantService.java:56-66 | the saved row holds the hash and the encryption of the issued key, is active, and carries the service attribution |
| TenantService.CreateTenant | src/main/java/com/tecvinson/location/services/TenantService.java:49-76 | an invalid or missing email fails InvalidEmail before anything is stored; a repeated unique column is refused by the database; otherwise one tenant is added, the response holds the plaintext key, and that key's hash authenticates the new tenant |
| TenantService.UpdateTenant | src/main/java/com/tecvinson/location/services/TenantService.java:89-109 | checks the tenant before the email; on success only email, active flag and attribution change, while name, stored hash and ciphertext stay, although the request carries a name |
| TenantService.UpdateKeepsIssuedKey | src/main/java/com/tecvinson/location/services/TenantService.java:100-103 | after an update the key issued at creation still authenticates the same tenant |
| TenantService.GetTenants | src/main/java/com/tecvinson/location/services/TenantService.java:115-137 | one response per stored tenant, indexed by its id, with its name, email and active flag, showing the decryption of its stored ciphertext as the key |
| TenantService.GetTenant | src/main/java/com/tecvinson/location/services/TenantService.java:145-161 | fails NotFound "Tenant not found" exactly for an unknown id; otherwise the listing's response |
| TenantService.ReadShowsIssuedKey | src/main/java/com/tecvinson/location/services/TenantService.java:156-158 | if decryption inverts encryption, reading a tenant shows the issued key again, and that key authenticates the tenant |
| ClientService.CreateClient | src/main/java/com/tecvinson/location/services/ClientService.java:45-70 | an invalid key fails Unauthorized before the conflict check; a name the caller's tenant already holds fails ResourceConflict; it succeeds exactly otherwise, adding one client owned by the caller's tenant; the response is its view with that tenant's name |
| ClientService.UpdateClient | src/main/java/com/tecvinson/location/services/ClientService.java:80-104 | checks authentication, then name conflict, then the client itself; on success the row gets the new name and the caller's tenant as owner, and the response is its view with that tenant's name |
| ClientService.GetClients | src/main/java/com/tecvinson/location/services/ClientService.java:110-130 | one response per stored client, indexed by its id, carrying its name and its owning tenant's name |
| ClientService.GetClient | src/main/java/com/tecvinson/location/services/ClientService.java:137-146 | fails NotFound exactly for an unknown id; otherwise the listing's response for that id, owning tenant's name included |
| DataLoader.SeedsAreAdmins | src/main/java/com/tecvinson/location/configs/DataLoader.java:32-34 | each seeded email is on the admin allowlist and passes the email check |
| DataLoader.AdminTenant | src/main/java/com/tecvinson/location/configs/DataLoader.java:40-51 | a seeded admin is active, attributed to "System", and stores the hash and the encryption of its fresh key |
| DataLoader.SeedAdmin | src/main/java/com/tecvinson/location/configs/DataLoader.java:38-58 | one seed keeps every existing row, adds at most the new row, and registers the email unless the save is refused |
| DataLoader.SeedAdminSkipsRegistered | src/main/java/com/tecvinson/location/configs/DataLoader.java:39-57 | an email already registered leaves the table unchanged |
| DataLoader.SeedAdminIssuesKey | src/main/java/com/tecvinson/location/configs/DataLoader.java:40-53 | a newly seeded admin is authenticated by its issued key |
| DataLoader.CreateAdminIfNotExists | src/main/java/com/tecvinson/location/configs/DataLoader.java:38-58 | the method does to the tenants table exactly what `SeedAdmin` describes |
| DataLoader.LoadInitialData | src/main/java/com/tecvinson/location/configs/DataLoader.java:30-36 | the three seeds are applied in order, stopping at the first refused save, as `Bootstrap` describes |
| DataLoader.BootstrapKeepsRows | src/main/java/com/tecvinson/location/configs/DataLoader.java:30-36 | the bootstrap never changes or removes an existing row |
| DataLoader.BootstrapRegisters | src/main/java/com/tecvinson/location/configs/DataLoader.java:32-34 | after a run that finishes, every seeded email is registered |
| DataLoader.BootstrapSkipsRegistered | src/main/java/com/tecvinson/location/configs/DataLoader.java:39 | when every seeded email is registered, the bootstrap changes nothing |
| DataLoader.LoadTwiceIsLoadOnce | src/main/java/com/tecvinson/location/configs/DataLoader.java:30-39 | a second run leaves the table as the first left it, so keys issued on the first run still authenticate the same tenants |
| GlobalExceptionHandler.Handle | src/main/java/com/tecvinson/location/exceptions/GlobalExceptionHandler.java:14-51 | each application exception gives its status (409, 401, 404, 400) and a body of exactly "error" (its label) and "message" (the exception's message); a refused save has no handler |
| GlobalExceptionHandler.KindOfStatus | src/main/java/com/tecvinson/location/exceptions/GlobalExceptionHandler.java:14-51 | a recognised status names a kind that has that status |
| GlobalExceptionHandler.StatusIdentifiesKind | src/main/java/com/tecvinson/location/exceptions/GlobalExceptionHandler.java:14-51 | the four statuses are pairwise distinct, and so are the four error labels |
| GlobalExceptionHandler.ResponseDeterminesFailure | src/main/java/com/tecvinson/location/exceptions/GlobalExceptionHandler.java:14-51 | two exceptions that give the same response are the same exception |

## Left out

- Crypto: SHA-256, AES and Base64 are not defined. The model takes them as parameters. The key's UTF-8 encoding is part of the abstract digest function. The round-trip law of the cipher is a hypothesis (`Crypto.DecryptInvertsEncrypt`), used only by `TenantService.ReadShowsIssuedKey`. EncryptionService.java is not part of this model, including its check that the secret key has 16 characters.
- UUID generation, for row ids and API keys, is not modelled. The ids and keys are arguments. Fresh ids are a precondition (`newId !in …`, `DataLoader.FreshIds`).
- Lists: the repositories' lists, and the ones the services build, are modelled as maps from id to response. Order, duplicates and the `findAll` iteration order are not modelled. The `isEmpty` shortcuts in every read give the same empty map.
- Searches: the LIKE queries are modelled as a case-insensitive substring match. `%` and `_` inside the search term are not treated as wildcards. `Text.LowerChar` folds ASCII letters only; database collation is not modelled.
- Object mapper: ModelMapper copies every same-named field and flattens a `parent.name` path into the response's `<parent>Name` field; the model writes each response out field by field, ancestor names included, and states every field. The model does not have the definitions of eleven classes the services use, so it infers their fields from how the services use them: the Location entity (house address, street name, free text, latitude, longitude, area id), ContinentResponse (id, name), UpdateContinentRequest (name), CountryResponse (id, name, continent name), CreateStateRequest (name, country id), CityResponse (id, name, state name, country name), CreateAreaRequest (name, city id), AreaResponse (id, name, city, state and country names), LocationResponse (the Location columns without the area id, plus the area, city, state and country names), UpdateLocationRequest (house address, latitude, longitude, area id) and TenantResponse (id, name, email, api key, active). ContinentResponse is taken to carry no `clientId`: if the class declares one, the mapper would also copy Continent's `clientId` into it, and the model does not show that field. The four exception classes are likewise missing; they are modelled by their kind and message (`Common.Failure`).
- Bean validation of request DTOs (`@NotBlank`, `@Size`, `@Email`) is not modelled. Java `null` is modelled only for the tenant email, as `Option`.
- Tenant reads: `TenantService.GetTenants` and `TenantService.GetTenant` always decrypt. The source skips decryption when the stored ciphertext is null, but that column is declared non-nullable and every write sets it.
- `ConstraintViolation`: the database's refusal of a duplicate in a unique column is a fifth failure. No handler maps it, so `GlobalExceptionHandler.Handle` returns `None` for it.
- Timestamps: the created and modified timestamps, the logging and the `@Transactional` boundaries are not modelled. Concurrent requests are not modelled either: each operation runs alone on the store.
- Controllers and HTTP routing are not part of this model. Neither is where the controllers place `validateApiKey` or `validateAdminApiKey`.
- `ValidationService.KeyOwner`: the repository lookup `findByApiKey` is a ghost function. The executable methods find the row by a matching search over the table.
- `DataLoader.LoadInitialData`: an exception thrown by a save ends the run, and rows saved before it stay. Any other exception from the primitives is not modelled.
- `LocationService.UpdateLocation`: it keeps the stored street name, as the source does, where a reader might expect it to take the request's street name.
