/**
 * The persisted entities.  A reference to a parent entity (a JPA
 * `@ManyToOne` join column) is held as the parent's id; the parent row
 * itself lives in its own table of the store.
 */
module Entities {
  import opened Common

  /** A continent; `name` is unique across the table, `clientId` is a plain
      column naming the client that registered it. */
  datatype Continent = Continent(name: string, clientId: Id, audit: Audit)

  /** A country; `name`, `countryCode` and `phoneCode` are each unique
      across the table. */
  datatype Country = Country(
    name: string, countryCode: string, phoneCode: string, flag: string,
    continentId: Id, audit: Audit)

  datatype State = State(name: string, countryId: Id, audit: Audit)

  datatype City = City(name: string, stateId: Id, audit: Audit)

  datatype Area = Area(name: string, cityId: Id, audit: Audit)

  datatype Location = Location(
    houseAddress: string, streetName: string, freeText: string,
    latitude: Int64, longitude: Int64, areaId: Id, audit: Audit)

  /** A tenant.  `apiKey` holds the hex SHA-256 digest of the issued key,
      `encryptedApiKey` the reversible encryption of the key itself;
      `name`, `apiKey` and `email` are each unique across the table. */
  datatype Tenant = Tenant(
    name: string, email: string, apiKey: string, encryptedApiKey: string,
    active: bool, audit: Audit)

  datatype Client = Client(name: string, tenantId: Id, audit: Audit)
}
