/**
 * DataLoader: the start-up bootstrap of the administrator tenants.  Each
 * of three fixed (name, email) pairs gets a tenant with a freshly issued
 * key unless a tenant with that email exists already; a save the database
 * refuses ends the bootstrap there.
 */
module DataLoader {
  import opened Common
  import opened Entities
  import opened Crypto
  import opened Repositories
  import opened ValidationService

  /** The administrators `loadInitialData` seeds, in order. */
  const Seeds: seq<(string, string)> := [
    ("Admin One", "admin1@example.com"),
    ("Admin Two", "admin2@example.com"),
    ("Admin Three", "admin3@example.com")
  ]

  /** Every seeded address is on the admin allowlist and passes the email
      check. */
  lemma SeedsAreAdmins(i: nat)
    requires i < |Seeds|
    ensures IsAdminEmail(Seeds[i].1) && ValidateEmail(Some(Seeds[i].1)) == Pass
  {
    AdminEmailsWellFormed(Seeds[i].1);
  }

  /** The row saved for an administrator and its issued key. */
  function AdminTenant(crypto: Primitives, name: string, email: string, key: string): (t: Tenant)
    ensures t.apiKey == ApiKeyHash(crypto, key) && t.encryptedApiKey == crypto.encrypt(key)
    ensures t.name == name && t.email == email && t.active && t.audit == BootstrapAudit
  {
    Tenant(name, email, ApiKeyHash(crypto, key), crypto.encrypt(key), true, BootstrapAudit)
  }

  /** What `createAdminIfNotExists` does to the tenants table: nothing
      when the email is registered, else save the new administrator as row
      `id`, unless the database refuses it. */
  function SeedAdmin(crypto: Primitives, tenants: map<Id, Tenant>, name: string, email: string, key: string, id: Id)
    : (res: (Outcome, map<Id, Tenant>))
    requires id !in tenants
    ensures res.1.Keys <= tenants.Keys + {id}
    ensures forall t :: t in tenants ==> t in res.1 && res.1[t] == tenants[t]
    ensures res.0 == Pass ==> EmailRegistered(res.1, email)
    ensures res.0.Fail? ==> res.1 == tenants
  {
    if EmailRegistered(tenants, email) then (Pass, tenants)
    else
      var admin := AdminTenant(crypto, name, email, key);
      if TenantClash(tenants, id, admin) then (Fail(ConstraintViolation("Tenants")), tenants)
      else
        var saved := tenants[id := admin];
        assert saved[id].email == email;
        (Pass, saved)
  }

  /** A registered email leaves the table as it is. */
  lemma SeedAdminSkipsRegistered(crypto: Primitives, tenants: map<Id, Tenant>, name: string, email: string,
                                 key: string, id: Id)
    requires id !in tenants && EmailRegistered(tenants, email)
    ensures SeedAdmin(crypto, tenants, name, email, key, id) == (Pass, tenants)
  {
  }

  /** A newly seeded administrator is authenticated by its issued key. */
  lemma SeedAdminIssuesKey(crypto: Primitives, tenants: map<Id, Tenant>, name: string, email: string,
                           key: string, id: Id)
    requires id !in tenants && TenantsUnique(tenants) && !EmailRegistered(tenants, email)
    requires SeedAdmin(crypto, tenants, name, email, key, id).0 == Pass
    ensures var after := SeedAdmin(crypto, tenants, name, email, key, id).1;
      id in after && after[id] == AdminTenant(crypto, name, email, key) &&
      KeyOwner(after, ApiKeyHash(crypto, key)) == Some(id)
  {
    var admin := AdminTenant(crypto, name, email, key);
    TenantSaveKeepsUnique(tenants, id, admin);
    KeyOwnerIsTheRow(tenants[id := admin], id);
  }

  /** `createAdminIfNotExists` */
  method CreateAdminIfNotExists(db: Store, crypto: Primitives, name: string, email: string, key: string, id: Id)
    returns (r: Outcome)
    requires db.Valid() && id !in db.tenants
    modifies db`tenants
    ensures db.Valid()
    ensures (r, db.tenants) == SeedAdmin(crypto, old(db.tenants), name, email, key, id)
  {
    if EmailRegistered(db.tenants, email) {
      return Pass;
    }
    var hashed := HashApiKey(crypto, key);
    var encrypted := crypto.encrypt(key);
    var admin := Tenant(name, email, hashed, encrypted, true, BootstrapAudit);
    if TenantClash(db.tenants, id, admin) {
      return Fail(ConstraintViolation("Tenants"));
    }
    TenantSaveKeepsUnique(db.tenants, id, admin);
    TenantSaveKeepsLinks(db.tenants, db.clients, id, admin);
    db.tenants := db.tenants[id := admin];
    return Pass;
  }

  /** Row ids none of which is taken, and no two alike. */
  ghost predicate FreshIds(tenants: map<Id, Tenant>, ids: seq<Id>)
  {
    && (forall i :: 0 <= i < |ids| ==> ids[i] !in tenants)
    && (forall i, j :: 0 <= i < j < |ids| ==> ids[i] != ids[j])
  }

  /** The ids after the first stay fresh in a table that grew by at most
      the first id. */
  lemma FreshIdsTail(before: map<Id, Tenant>, after: map<Id, Tenant>, ids: seq<Id>)
    requires FreshIds(before, ids) && |ids| > 0 && after.Keys <= before.Keys + {ids[0]}
    ensures FreshIds(after, ids[1..])
  {
    forall i | 0 <= i < |ids[1..]| ensures ids[1..][i] !in after {
      assert ids[1..][i] == ids[i + 1];
    }
  }

  /** The seeds applied in order, stopping at the first refused save; the
      keys and ids are the ones generated for each seed. */
  ghost function Bootstrap(crypto: Primitives, tenants: map<Id, Tenant>, seeds: seq<(string, string)>,
                           keys: seq<string>, ids: seq<Id>): (res: (Outcome, map<Id, Tenant>))
    requires |keys| == |seeds| == |ids| && FreshIds(tenants, ids)
    decreases |seeds|
  {
    if |seeds| == 0 then (Pass, tenants)
    else
      var step := SeedAdmin(crypto, tenants, seeds[0].0, seeds[0].1, keys[0], ids[0]);
      FreshIdsTail(tenants, step.1, ids);
      if step.0.Fail? then step
      else Bootstrap(crypto, step.1, seeds[1..], keys[1..], ids[1..])
  }

  /** `loadInitialData`: the three seeds, in order; an exception from a
      save ends the run, and the rows already saved stay. */
  method LoadInitialData(db: Store, crypto: Primitives, keys: seq<string>, ids: seq<Id>) returns (r: Outcome)
    requires db.Valid() && |keys| == |Seeds| && |ids| == |Seeds| && FreshIds(db.tenants, ids)
    modifies db`tenants
    ensures db.Valid()
    ensures (r, db.tenants) == Bootstrap(crypto, old(db.tenants), Seeds, keys, ids)
  {
    ghost var t0 := db.tenants;
    r := CreateAdminIfNotExists(db, crypto, Seeds[0].0, Seeds[0].1, keys[0], ids[0]);
    FreshIdsTail(t0, db.tenants, ids);
    if r.Fail? {
      return;
    }
    ghost var t1 := db.tenants;
    assert Seeds[1..][1..] == Seeds[2..] && keys[1..][1..] == keys[2..] && ids[1..][1..] == ids[2..];
    r := CreateAdminIfNotExists(db, crypto, Seeds[1].0, Seeds[1].1, keys[1], ids[1]);
    FreshIdsTail(t1, db.tenants, ids[1..]);
    if r.Fail? {
      return;
    }
    r := CreateAdminIfNotExists(db, crypto, Seeds[2].0, Seeds[2].1, keys[2], ids[2]);
  }

  /** The bootstrap never changes or removes a row that was there. */
  lemma {:induction false} BootstrapKeepsRows(crypto: Primitives, tenants: map<Id, Tenant>,
                                              seeds: seq<(string, string)>, keys: seq<string>, ids: seq<Id>)
    requires |keys| == |seeds| == |ids| && FreshIds(tenants, ids)
    ensures var after := Bootstrap(crypto, tenants, seeds, keys, ids).1;
      forall t :: t in tenants ==> t in after && after[t] == tenants[t]
    decreases |seeds|
  {
    if |seeds| > 0 {
      var step := SeedAdmin(crypto, tenants, seeds[0].0, seeds[0].1, keys[0], ids[0]);
      if step.0 == Pass {
        BootstrapKeepsRows(crypto, step.1, seeds[1..], keys[1..], ids[1..]);
      }
    }
  }

  /** After a run that finishes, every seeded email is registered. */
  lemma {:induction false} BootstrapRegisters(crypto: Primitives, tenants: map<Id, Tenant>,
                                              seeds: seq<(string, string)>, keys: seq<string>, ids: seq<Id>)
    requires |keys| == |seeds| == |ids| && FreshIds(tenants, ids)
    requires Bootstrap(crypto, tenants, seeds, keys, ids).0 == Pass
    ensures forall i :: 0 <= i < |seeds| ==> EmailRegistered(Bootstrap(crypto, tenants, seeds, keys, ids).1, seeds[i].1)
    decreases |seeds|
  {
    if |seeds| > 0 {
      var step := SeedAdmin(crypto, tenants, seeds[0].0, seeds[0].1, keys[0], ids[0]);
      var rest := Bootstrap(crypto, step.1, seeds[1..], keys[1..], ids[1..]);
      BootstrapRegisters(crypto, step.1, seeds[1..], keys[1..], ids[1..]);
      BootstrapKeepsRows(crypto, step.1, seeds[1..], keys[1..], ids[1..]);
      forall i | 0 <= i < |seeds| ensures EmailRegistered(rest.1, seeds[i].1) {
        if i == 0 {
          var t :| t in step.1 && step.1[t].email == seeds[0].1;
          assert rest.1[t] == step.1[t];
        } else {
          assert seeds[i] == seeds[1..][i - 1];
        }
      }
    }
  }

  /** When every seeded email is registered, the bootstrap changes nothing,
      whatever keys and ids it is handed. */
  lemma {:induction false} BootstrapSkipsRegistered(crypto: Primitives, tenants: map<Id, Tenant>,
                                                    seeds: seq<(string, string)>, keys: seq<string>, ids: seq<Id>)
    requires |keys| == |seeds| == |ids| && FreshIds(tenants, ids)
    requires forall i :: 0 <= i < |seeds| ==> EmailRegistered(tenants, seeds[i].1)
    ensures Bootstrap(crypto, tenants, seeds, keys, ids) == (Pass, tenants)
    decreases |seeds|
  {
    if |seeds| > 0 {
      SeedAdminSkipsRegistered(crypto, tenants, seeds[0].0, seeds[0].1, keys[0], ids[0]);
      forall i | 0 <= i < |seeds[1..]| ensures EmailRegistered(tenants, seeds[1..][i].1) {
        assert seeds[1..][i] == seeds[i + 1];
      }
      BootstrapSkipsRegistered(crypto, tenants, seeds[1..], keys[1..], ids[1..]);
    }
  }

  /** Loading twice is loading once: a second run after one that finished
      leaves the table as the first left it, so every key the first run
      issued still names its tenant. */
  lemma LoadTwiceIsLoadOnce(crypto: Primitives, tenants: map<Id, Tenant>,
                            keys1: seq<string>, ids1: seq<Id>, keys2: seq<string>, ids2: seq<Id>)
    requires |keys1| == |ids1| == |keys2| == |ids2| == |Seeds| && FreshIds(tenants, ids1)
    requires Bootstrap(crypto, tenants, Seeds, keys1, ids1).0 == Pass
    requires FreshIds(Bootstrap(crypto, tenants, Seeds, keys1, ids1).1, ids2)
    ensures var once := Bootstrap(crypto, tenants, Seeds, keys1, ids1).1;
      && Bootstrap(crypto, once, Seeds, keys2, ids2) == (Pass, once)
      && forall k :: KeyOwner(Bootstrap(crypto, once, Seeds, keys2, ids2).1, ApiKeyHash(crypto, k)) ==
                     KeyOwner(once, ApiKeyHash(crypto, k))
  {
    var once := Bootstrap(crypto, tenants, Seeds, keys1, ids1).1;
    BootstrapRegisters(crypto, tenants, Seeds, keys1, ids1);
    BootstrapSkipsRegistered(crypto, once, Seeds, keys2, ids2);
  }
}
