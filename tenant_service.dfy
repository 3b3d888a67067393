/**
 * TenantService: the tenant lifecycle.  Creating a tenant validates the
 * email, issues a fresh API key, stores only its hash and its encryption,
 * and hands the plaintext back once; reads show the key again by
 * decrypting the stored copy; an update touches only the email and the
 * active flag.
 */
module TenantService {
  import opened Common
  import opened Entities
  import opened Crypto
  import opened Repositories
  import opened ValidationService

  /** CreateTenantRequest; `email` is `None` when the request leaves it
      out. */
  datatype CreateTenantRequest = CreateTenantRequest(name: string, email: Option<string>)

  /** UpdateTenantRequest; `name` is carried but not read. */
  datatype UpdateTenantRequest = UpdateTenantRequest(name: string, email: Option<string>, active: bool)

  /** TenantResponse */
  datatype TenantResponse = TenantResponse(id: Id, name: string, email: string, apiKey: string, active: bool)

  /** The row `createTenant` saves for the freshly issued key. */
  function NewTenant(crypto: Primitives, name: string, email: string, issuedKey: string): (t: Tenant)
    ensures t.apiKey == ApiKeyHash(crypto, issuedKey) && t.encryptedApiKey == crypto.encrypt(issuedKey)
    ensures t.name == name && t.email == email && t.active && t.audit == ServiceAudit
  {
    Tenant(name, email, ApiKeyHash(crypto, issuedKey), crypto.encrypt(issuedKey), true, ServiceAudit)
  }

  /** `createTenant`: the email check comes before anything is issued or
      stored.  `issuedKey` is the freshly generated UUID text. */
  method CreateTenant(db: Store, crypto: Primitives, request: CreateTenantRequest, issuedKey: string, newId: Id)
    returns (r: Result<TenantResponse>)
    requires db.Valid() && newId !in db.tenants
    modifies db`tenants
    ensures db.Valid()
    ensures ValidateEmail(request.email) != Pass ==> r == Err(ServiceError(InvalidEmail, "Invalid email format"))
    ensures ValidateEmail(request.email) == Pass ==>
      var row := NewTenant(crypto, request.name, request.email.value, issuedKey);
      && (TenantClash(old(db.tenants), newId, row) ==> r == Err(ConstraintViolation("Tenants")))
      && (r.Ok? ==> db.tenants == old(db.tenants)[newId := row])
      && (r.Ok? <==> !TenantClash(old(db.tenants), newId, row))
    ensures r.Err? ==> db.tenants == old(db.tenants)
    ensures r.Ok? ==>
      && r.value == TenantResponse(newId, request.name, request.email.value, issuedKey, true)
      && KeyOwner(db.tenants, ApiKeyHash(crypto, r.value.apiKey)) == Some(newId)
  {
    var check := ValidateEmail(request.email);
    if check.Fail? {
      return Err(check.failure);
    }
    var hashed := HashApiKey(crypto, issuedKey);
    var encrypted := crypto.encrypt(issuedKey);
    var tenant := Tenant(request.name, request.email.value, hashed, encrypted, true, ServiceAudit);
    if TenantClash(db.tenants, newId, tenant) {
      return Err(ConstraintViolation("Tenants"));
    }
    TenantSaveKeepsUnique(db.tenants, newId, tenant);
    TenantSaveKeepsLinks(db.tenants, db.clients, newId, tenant);
    db.tenants := db.tenants[newId := tenant];
    KeyOwnerIsTheRow(db.tenants, newId);
    return Ok(TenantResponse(newId, request.name, request.email.value, issuedKey, true));
  }

  /** `updateTenant`: the tenant, then the email. */
  method UpdateTenant(db: Store, id: Id, request: UpdateTenantRequest)
    returns (r: Result<TenantResponse>)
    requires db.Valid()
    modifies db`tenants
    ensures db.Valid()
    ensures id !in old(db.tenants) ==> r == Err(ServiceError(NotFound, "Tenant not found"))
    ensures id in old(db.tenants) && ValidateEmail(request.email) != Pass ==>
      r == Err(ServiceError(InvalidEmail, "Invalid email format"))
    ensures id in old(db.tenants) && ValidateEmail(request.email) == Pass ==>
      var updated := old(db.tenants)[id].(email := request.email.value, active := request.active, audit := ServiceAudit);
      && (TenantClash(old(db.tenants), id, updated) ==> r == Err(ConstraintViolation("Tenants")))
      && (r.Ok? <==> !TenantClash(old(db.tenants), id, updated))
    ensures r.Err? ==> db.tenants == old(db.tenants)
    ensures r.Ok? ==>
      && id in old(db.tenants) && request.email.Some?
      && var before := old(db.tenants)[id];
         && db.tenants == old(db.tenants)[id := before.(email := request.email.value, active := request.active,
                                                        audit := ServiceAudit)]
         && r.value == TenantResponse(id, before.name, request.email.value, before.apiKey, request.active)
  {
    if id !in db.tenants {
      return Err(ServiceError(NotFound, "Tenant not found"));
    }
    var check := ValidateEmail(request.email);
    if check.Fail? {
      return Err(check.failure);
    }
    var before := db.tenants[id];
    var tenant := before.(email := request.email.value, active := request.active, audit := ServiceAudit);
    if TenantClash(db.tenants, id, tenant) {
      return Err(ConstraintViolation("Tenants"));
    }
    TenantSaveKeepsUnique(db.tenants, id, tenant);
    TenantSaveKeepsLinks(db.tenants, db.clients, id, tenant);
    db.tenants := db.tenants[id := tenant];
    return Ok(TenantResponse(id, tenant.name, tenant.email, tenant.apiKey, tenant.active));
  }

  /** An update keeps both forms of the key, so the key issued at creation
      still authenticates the same row afterwards. */
  lemma UpdateKeepsIssuedKey(tenants: map<Id, Tenant>, id: Id, email: string, active: bool)
    requires id in tenants
    requires TenantsUnique(tenants[id := tenants[id].(email := email, active := active, audit := ServiceAudit)])
    ensures var updated := tenants[id := tenants[id].(email := email, active := active, audit := ServiceAudit)];
      KeyOwner(updated, tenants[id].apiKey) == Some(id)
  {
    var updated := tenants[id := tenants[id].(email := email, active := active, audit := ServiceAudit)];
    KeyOwnerIsTheRow(updated, id);
  }

  /** The response the reads build: the stored columns, with the key shown
      as the decryption of the stored ciphertext. */
  function TenantView(crypto: Primitives, id: Id, t: Tenant): TenantResponse
  {
    TenantResponse(id, t.name, t.email, crypto.decrypt(t.encryptedApiKey), t.active)
  }

  /** `getTenants` */
  function GetTenants(db: Store, crypto: Primitives): (r: map<Id, TenantResponse>)
    reads db
    ensures r.Keys == db.tenants.Keys
    ensures forall t :: t in r ==>
      && r[t].id == t && r[t].name == db.tenants[t].name && r[t].email == db.tenants[t].email
      && r[t].active == db.tenants[t].active
      && r[t].apiKey == crypto.decrypt(db.tenants[t].encryptedApiKey)
  {
    if |db.tenants| == 0 then map[]
    else map t | t in db.tenants :: TenantView(crypto, t, db.tenants[t])
  }

  /** `getTenant`: the listing's response for one tenant. */
  function GetTenant(db: Store, crypto: Primitives, id: Id): (r: Result<TenantResponse>)
    reads db
    ensures r.Err? <==> id !in db.tenants
    ensures r.Err? ==> r.failure == ServiceError(NotFound, "Tenant not found")
    ensures r.Ok? ==> r.value == GetTenants(db, crypto)[id]
  {
    if id !in db.tenants then Err(ServiceError(NotFound, "Tenant not found"))
    else Ok(TenantView(crypto, id, db.tenants[id]))
  }

  /** Given the round-trip law of the cipher, reading a tenant whose key
      `k` was issued as `createTenant` stores it shows `k` again, and that
      key authenticates the tenant. */
  lemma ReadShowsIssuedKey(db: Store, crypto: Primitives, id: Id, k: string)
    requires db.Valid() && DecryptInvertsEncrypt(crypto)
    requires id in db.tenants
    requires db.tenants[id].apiKey == ApiKeyHash(crypto, k) && db.tenants[id].encryptedApiKey == crypto.encrypt(k)
    ensures GetTenant(db, crypto, id).Ok? && GetTenant(db, crypto, id).value.apiKey == k
    ensures KeyOwner(db.tenants, ApiKeyHash(crypto, GetTenant(db, crypto, id).value.apiKey)) == Some(id)
  {
    KeyOwnerIsTheRow(db.tenants, id);
  }
}
