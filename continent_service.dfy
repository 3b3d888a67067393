/**
 * ContinentService: the top of the hierarchy.  A continent is registered
 * on behalf of an existing client; its name is unique across the table,
 * which the database, not the service, enforces.
 */
module ContinentService {
  import opened Common
  import opened Entities
  import opened Repositories
  import Text

  datatype CreateContinentRequest = CreateContinentRequest(name: string)
  datatype UpdateContinentRequest = UpdateContinentRequest(name: string)

  /** The fields of a ContinentResponse the object mapper copies by name. */
  datatype ContinentResponse = ContinentResponse(id: Id, name: string)

  function ContinentView(db: Store, k: Id): ContinentResponse
    reads db
    requires k in db.continents
  {
    ContinentResponse(k, db.continents[k].name)
  }

  /** `createContinent`: the client must exist; the new row carries the
      client's id and the service attribution. */
  method CreateContinent(db: Store, clientId: Id, request: CreateContinentRequest, newId: Id)
    returns (r: Result<ContinentResponse>)
    requires db.Valid() && newId !in db.continents
    modifies db`continents
    ensures db.Valid()
    ensures clientId !in db.clients ==> r == Err(ServiceError(NotFound, "Client Not Found"))
    ensures clientId in db.clients && ContinentClash(old(db.continents), newId, Continent(request.name, clientId, ServiceAudit)) ==>
      r == Err(ConstraintViolation("Continents"))
    ensures r.Ok? <==>
      clientId in db.clients && !ContinentClash(old(db.continents), newId, Continent(request.name, clientId, ServiceAudit))
    ensures r.Err? ==> db.continents == old(db.continents)
    ensures r.Ok? ==>
      && db.continents == old(db.continents)[newId := Continent(request.name, clientId, ServiceAudit)]
      && r.value == ContinentResponse(newId, request.name)
  {
    if clientId !in db.clients {
      return Err(ServiceError(NotFound, "Client Not Found"));
    }
    var continent := Continent(request.name, clientId, ServiceAudit);
    if ContinentClash(db.continents, newId, continent) {
      return Err(ConstraintViolation("Continents"));
    }
    ContinentSaveKeepsUnique(db.continents, newId, continent);
    ContinentSaveKeepsLinks(db.continents, db.countries, newId, continent);
    db.continents := db.continents[newId := continent];
    return Ok(ContinentResponse(newId, continent.name));
  }

  /** `updateContinent`: renames an existing continent and rewrites both
      attribution columns; the client column is kept. */
  method UpdateContinent(db: Store, id: Id, request: UpdateContinentRequest)
    returns (r: Result<ContinentResponse>)
    requires db.Valid()
    modifies db`continents
    ensures db.Valid()
    ensures id !in old(db.continents) ==> r == Err(ServiceError(NotFound, "Continent Not Found"))
    ensures id in old(db.continents) ==>
      var renamed := old(db.continents)[id].(name := request.name, audit := ServiceAudit);
      ContinentClash(old(db.continents), id, renamed) ==> r == Err(ConstraintViolation("Continents"))
    ensures r.Ok? <==>
      && id in old(db.continents)
      && !ContinentClash(old(db.continents), id, old(db.continents)[id].(name := request.name, audit := ServiceAudit))
    ensures r.Err? ==> db.continents == old(db.continents)
    ensures r.Ok? ==>
      && id in old(db.continents)
      && db.continents == old(db.continents)[id := old(db.continents)[id].(name := request.name, audit := ServiceAudit)]
      && r.value == ContinentResponse(id, request.name)
  {
    if id !in db.continents {
      return Err(ServiceError(NotFound, "Continent Not Found"));
    }
    var continent := db.continents[id].(name := request.name, audit := ServiceAudit);
    if ContinentClash(db.continents, id, continent) {
      return Err(ConstraintViolation("Continents"));
    }
    ContinentSaveKeepsUnique(db.continents, id, continent);
    ContinentSaveKeepsLinks(db.continents, db.countries, id, continent);
    db.continents := db.continents[id := continent];
    return Ok(ContinentResponse(id, continent.name));
  }

  /** `getContinents`: one response per stored continent. */
  function GetContinents(db: Store): (r: map<Id, ContinentResponse>)
    reads db
    ensures r.Keys == db.continents.Keys
    ensures forall k :: k in r ==> r[k].id == k && r[k].name == db.continents[k].name
  {
    if |db.continents| == 0 then map[]
    else map k | k in db.continents :: ContinentView(db, k)
  }

  /** `getContinent`: the same response the listing holds, or NotFound. */
  function GetContinent(db: Store, id: Id): (r: Result<ContinentResponse>)
    reads db
    ensures r.Err? <==> id !in db.continents
    ensures r.Err? ==> r.failure == ServiceError(NotFound, "Continent Not Found")
    ensures r.Ok? ==> r.value == GetContinents(db)[id]
  {
    if id !in db.continents then Err(ServiceError(NotFound, "Continent Not Found"))
    else Ok(ContinentView(db, id))
  }

  /** `getContinentByName`: the continents whose name contains the term,
      ignoring case. */
  function GetContinentByName(db: Store, name: string): (r: map<Id, ContinentResponse>)
    reads db
    ensures r.Keys == set k | k in db.continents && Text.ContainsIgnoringCase(db.continents[k].name, name)
    ensures forall k :: k in r ==> r[k] == GetContinents(db)[k]
  {
    var found := set k | k in db.continents && Text.ContainsIgnoringCase(db.continents[k].name, name);
    if |found| == 0 then map[]
    else map k | k in found :: ContinentView(db, k)
  }

  /** Searching for a continent's own name finds it. */
  lemma SearchByOwnNameFinds(db: Store, k: Id)
    requires k in db.continents
    ensures k in GetContinentByName(db, db.continents[k].name)
  {
    var s := db.continents[k].name;
    Text.PieceMatches(s, 0, |s|);
    assert s[0..|s|] == s;
  }
}
