/**
 * ClientService: clients owned by tenants.  Every write authenticates the
 * caller's API key first; the authenticated tenant becomes the owner, and
 * no tenant holds two clients of the same name.
 */
module ClientService {
  import opened Common
  import opened Entities
  import opened Crypto
  import opened Repositories
  import opened ValidationService

  /** ClientRequest, used by both create and update. */
  datatype ClientRequest = ClientRequest(name: string)

  /** ClientResponse; the object mapper flattens `tenant.name` into
      `tenantName`. */
  datatype ClientResponse = ClientResponse(id: Id, name: string, tenantName: string)

  /** `createClient`: authentication, then the name conflict within the
      caller's tenant. */
  method CreateClient(db: Store, crypto: Primitives, apiKey: string, request: ClientRequest, newId: Id)
    returns (r: Result<ClientResponse>)
    requires db.Valid() && newId !in db.clients
    modifies db`clients
    ensures db.Valid()
    ensures var caller := KeyOwner(db.tenants, ApiKeyHash(crypto, apiKey));
      && (caller.None? ==> r == Err(ServiceError(Unauthorized, "Invalid API Key")))
      && (caller.Some? && ClientNameTaken(old(db.clients), request.name, caller.value) ==>
            r == Err(ServiceError(ResourceConflict, "Client exists for this Tenant")))
      && (r.Ok? <==> caller.Some? && !ClientNameTaken(old(db.clients), request.name, caller.value))
      && (r.Ok? ==>
            && caller.Some?
            && db.clients == old(db.clients)[newId := Client(request.name, caller.value, ServiceAudit)]
            && r.value == ClientResponse(newId, request.name, db.tenants[caller.value].name))
    ensures r.Err? ==> db.clients == old(db.clients)
  {
    var caller := ValidateApiKey(db, crypto, apiKey);
    if caller.Err? {
      return Err(caller.failure);
    }
    var tenant := caller.value;
    if ClientNameTaken(db.clients, request.name, tenant) {
      return Err(ServiceError(ResourceConflict, "Client exists for this Tenant"));
    }
    var client := Client(request.name, tenant, ServiceAudit);
    ClientSaveKeepsUnique(db.clients, newId, client);
    ClientSaveKeepsLinks(db.tenants, db.clients, newId, client);
    db.clients := db.clients[newId := client];
    return Ok(ClientResponse(newId, request.name, db.tenants[tenant].name));
  }

  /** `updateClient`: authentication, then the name conflict, then the
      client itself.  The client moves to the caller's tenant; its audit
      attribution stays as it was. */
  method UpdateClient(db: Store, crypto: Primitives, apiKey: string, id: Id, request: ClientRequest)
    returns (r: Result<ClientResponse>)
    requires db.Valid()
    modifies db`clients
    ensures db.Valid()
    ensures var caller := KeyOwner(db.tenants, ApiKeyHash(crypto, apiKey));
      && (caller.None? ==> r == Err(ServiceError(Unauthorized, "Invalid API Key")))
      && (caller.Some? && ClientNameTaken(old(db.clients), request.name, caller.value) ==>
            r == Err(ServiceError(ResourceConflict, "Client exists for this Tenant")))
      && (caller.Some? && !ClientNameTaken(old(db.clients), request.name, caller.value) && id !in old(db.clients) ==>
            r == Err(ServiceError(NotFound, "Client Not Found")))
      && (r.Ok? <==>
            caller.Some? && !ClientNameTaken(old(db.clients), request.name, caller.value) && id in old(db.clients))
      && (r.Ok? ==>
            && caller.Some? && id in old(db.clients)
            && db.clients == old(db.clients)[id := old(db.clients)[id].(name := request.name, tenantId := caller.value)]
            && r.value == ClientResponse(id, request.name, db.tenants[caller.value].name))
    ensures r.Err? ==> db.clients == old(db.clients)
  {
    var caller := ValidateApiKey(db, crypto, apiKey);
    if caller.Err? {
      return Err(caller.failure);
    }
    var tenant := caller.value;
    if ClientNameTaken(db.clients, request.name, tenant) {
      return Err(ServiceError(ResourceConflict, "Client exists for this Tenant"));
    }
    if id !in db.clients {
      return Err(ServiceError(NotFound, "Client Not Found"));
    }
    var client := db.clients[id].(name := request.name, tenantId := tenant);
    ClientSaveKeepsUnique(db.clients, id, client);
    ClientSaveKeepsLinks(db.tenants, db.clients, id, client);
    db.clients := db.clients[id := client];
    return Ok(ClientResponse(id, request.name, db.tenants[tenant].name));
  }

  /** `getClients`: every client with its owner's name. */
  function GetClients(db: Store): (r: map<Id, ClientResponse>)
    reads db
    requires db.Linked()
    ensures r.Keys == db.clients.Keys
    ensures forall c :: c in r ==>
      r[c].id == c && r[c].name == db.clients[c].name && r[c].tenantName == db.tenants[db.clients[c].tenantId].name
  {
    if |db.clients| == 0 then map[]
    else map c | c in db.clients :: ClientResponse(c, db.clients[c].name, db.tenants[db.clients[c].tenantId].name)
  }

  /** `getClient`: the listing's response for one client. */
  function GetClient(db: Store, id: Id): (r: Result<ClientResponse>)
    reads db
    requires db.Linked()
    ensures r.Err? <==> id !in db.clients
    ensures r.Err? ==> r.failure == ServiceError(NotFound, "Client Not Found")
    ensures r.Ok? ==> r.value == GetClients(db)[id]
  {
    if id !in db.clients then Err(ServiceError(NotFound, "Client Not Found"))
    else Ok(ClientResponse(id, db.clients[id].name, db.tenants[db.clients[id].tenantId].name))
  }
}
