/**
 * StateService: states inside countries.  Creating or updating a state
 * checks, in this order, that the country exists and that the country has
 * no state of that name yet; an update looks the state itself up last.
 * Listings attach the country's name.
 */
module StateService {
  import opened Common
  import opened Entities
  import opened Repositories
  import Text

  datatype CreateStateRequest = CreateStateRequest(name: string, countryId: Id)
  datatype UpdateStateRequest = UpdateStateRequest(name: string, countryId: Id)

  /** StateResponse; the object mapper flattens `country.name` into
      `countryName`. */
  datatype StateResponse = StateResponse(id: Id, name: string, countryName: string)

  /** The response the reads build: the state with its country's name. */
  function StateView(db: Store, s: Id): StateResponse
    reads db
    requires db.Linked() && s in db.states
  {
    StateResponse(s, db.states[s].name, db.countries[db.CountryOfState(s)].name)
  }

  /** `createState` */
  method CreateState(db: Store, request: CreateStateRequest, newId: Id)
    returns (r: Result<StateResponse>)
    requires db.Valid() && newId !in db.states
    modifies db`states
    ensures db.Valid()
    ensures request.countryId !in db.countries ==>
      r == Err(ServiceError(NotFound, "Country not found"))
    ensures request.countryId in db.countries && StateNameTaken(old(db.states), request.name, request.countryId) ==>
      r == Err(ServiceError(ResourceConflict, "State already exists for this country"))
    ensures r.Ok? <==>
      request.countryId in db.countries && !StateNameTaken(old(db.states), request.name, request.countryId)
    ensures r.Err? ==> db.states == old(db.states)
    ensures r.Ok? ==>
      && db.states == old(db.states)[newId := State(request.name, request.countryId, ServiceAudit)]
      && r.value == StateView(db, newId)
  {
    if request.countryId !in db.countries {
      return Err(ServiceError(NotFound, "Country not found"));
    }
    if StateNameTaken(db.states, request.name, request.countryId) {
      return Err(ServiceError(ResourceConflict, "State already exists for this country"));
    }
    StateSaveKeepsUnique(db.states, newId, State(request.name, request.countryId, ServiceAudit));
    StateSaveKeepsLinks(db.countries, db.states, db.cities, newId, State(request.name, request.countryId, ServiceAudit));
    db.states := db.states[newId := State(request.name, request.countryId, ServiceAudit)];
    return Ok(StateResponse(newId, request.name, db.countries[request.countryId].name));
  }

  /** `updateState`: country, then name conflict, then the state itself. */
  method UpdateState(db: Store, id: Id, request: UpdateStateRequest)
    returns (r: Result<StateResponse>)
    requires db.Valid()
    modifies db`states
    ensures db.Valid()
    ensures request.countryId !in db.countries ==>
      r == Err(ServiceError(NotFound, "Country not found"))
    ensures request.countryId in db.countries && StateNameTaken(old(db.states), request.name, request.countryId) ==>
      r == Err(ServiceError(ResourceConflict, "State already exists for this country"))
    ensures (request.countryId in db.countries && !StateNameTaken(old(db.states), request.name, request.countryId) &&
             id !in old(db.states)) ==>
      r == Err(ServiceError(NotFound, "State Not Found"))
    ensures r.Ok? <==>
      && request.countryId in db.countries && !StateNameTaken(old(db.states), request.name, request.countryId)
      && id in old(db.states)
    ensures r.Err? ==> db.states == old(db.states)
    ensures r.Ok? ==>
      && id in old(db.states)
      && db.states == old(db.states)[id := State(request.name, request.countryId, ServiceAudit)]
      && r.value == StateView(db, id)
  {
    if request.countryId !in db.countries {
      return Err(ServiceError(NotFound, "Country not found"));
    }
    if StateNameTaken(db.states, request.name, request.countryId) {
      return Err(ServiceError(ResourceConflict, "State already exists for this country"));
    }
    if id !in db.states {
      return Err(ServiceError(NotFound, "State Not Found"));
    }
    StateSaveKeepsUnique(db.states, id, State(request.name, request.countryId, ServiceAudit));
    StateSaveKeepsLinks(db.countries, db.states, db.cities, id, State(request.name, request.countryId, ServiceAudit));
    db.states := db.states[id := State(request.name, request.countryId, ServiceAudit)];
    return Ok(StateResponse(id, request.name, db.countries[request.countryId].name));
  }

  /** An update that keeps a state's name and country is refused as a
      conflict with the state itself. */
  lemma UnchangedUpdateConflicts(db: Store, id: Id)
    requires db.Linked() && id in db.states
    ensures StateNameTaken(db.states, db.states[id].name, db.states[id].countryId)
  {
  }

  /** `getStates`: every state, each with its country's name. */
  function GetStates(db: Store): (r: map<Id, StateResponse>)
    reads db
    requires db.Linked()
    ensures r.Keys == db.states.Keys
    ensures forall s :: s in r ==>
      r[s].id == s && r[s].name == db.states[s].name &&
      r[s].countryName == db.countries[db.states[s].countryId].name
  {
    if |db.states| == 0 then map[]
    else map s | s in db.states :: StateView(db, s)
  }

  /** `getState`: the listing's response for one state. */
  function GetState(db: Store, id: Id): (r: Result<StateResponse>)
    reads db
    requires db.Linked()
    ensures r.Err? <==> id !in db.states
    ensures r.Err? ==> r.failure == ServiceError(NotFound, "No state Found")
    ensures r.Ok? ==> r.value == GetStates(db)[id]
  {
    if id !in db.states then Err(ServiceError(NotFound, "No state Found"))
    else Ok(StateView(db, id))
  }

  /** `getStatesByName` */
  function GetStatesByName(db: Store, name: string): (r: map<Id, StateResponse>)
    reads db
    requires db.Linked()
    ensures r.Keys == set s | s in db.states && Text.ContainsIgnoringCase(db.states[s].name, name)
    ensures forall s :: s in r ==> r[s] == GetStates(db)[s]
  {
    var found := set s | s in db.states && Text.ContainsIgnoringCase(db.states[s].name, name);
    if |found| == 0 then map[]
    else map s | s in found :: StateView(db, s)
  }

  /** `getByCountryId`: the states of an existing country. */
  function GetByCountryId(db: Store, countryId: Id): (r: Result<map<Id, StateResponse>>)
    reads db
    requires db.Linked()
    ensures r.Err? <==> countryId !in db.countries
    ensures r.Err? ==> r.failure == ServiceError(NotFound, "Country not Found")
    ensures r.Ok? ==> r.value.Keys == set s | s in db.states && db.states[s].countryId == countryId
    ensures r.Ok? ==> forall s :: s in r.value ==>
      r.value[s] == GetStates(db)[s] && r.value[s].countryName == db.countries[countryId].name
  {
    if countryId !in db.countries then Err(ServiceError(NotFound, "Country not Found"))
    else
      var found := set s | s in db.states && db.states[s].countryId == countryId;
      if |found| == 0 then Ok(map[])
      else Ok(map s | s in found :: StateView(db, s))
  }

  /** Within one country a state's name picks out that state alone. */
  lemma NameIdentifiesStateInCountry(db: Store, countryId: Id, name: string, s: Id)
    requires db.Valid() && countryId in db.countries
    requires s in db.states && db.states[s].name == name && db.states[s].countryId == countryId
    ensures (set t | t in GetByCountryId(db, countryId).value && GetByCountryId(db, countryId).value[t].name == name) == {s}
  {
    var listed := GetByCountryId(db, countryId).value;
    forall t | t in listed && listed[t].name == name ensures t == s {
      assert StatesShare(db.states, t, s);
    }
  }
}
