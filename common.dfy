/**
 * Vocabulary shared by every service of the location registry: row
 * identifiers, Java's `long`, the audit attribution strings, the error
 * taxonomy and the result types the services return where the Java code
 * throws.
 */
module Common {

  /** A row identifier.  The repositories generate opaque UUIDs that are
      only ever compared for equality, so a natural number stands for one. */
  type Id = nat

  /** Java's 64-bit `long`, the type of a location's latitude and longitude. */
  type Int64 = x: int | -0x8000_0000_0000_0000 <= x < 0x8000_0000_0000_0000

  datatype Option<T> = None | Some(value: T)

  /** The four application exceptions that GlobalExceptionHandler turns
      into client responses. */
  datatype ErrorKind = ResourceConflict | Unauthorized | NotFound | InvalidEmail

  /** Why an operation did not complete: an application exception with its
      message, or the database refusing a save because a column declared
      unique would hold a duplicate value (no handler of the application
      maps this one). */
  datatype Failure =
    | ServiceError(kind: ErrorKind, message: string)
    | ConstraintViolation(table: string)

  datatype Result<T> = Ok(value: T) | Err(failure: Failure)

  /** The result of an operation that returns nothing (`void`) in Java. */
  datatype Outcome = Pass | Fail(failure: Failure)

  /** The `createdBy` / `modifiedBy` columns every entity inherits; the
      timestamps beside them are not modelled. */
  datatype Audit = Audit(createdBy: string, modifiedBy: string)

  /** What the services write into the attribution columns. */
  const ServiceAudit: Audit := Audit("SYSTEM", "SYSTEM")

  /** What the start-up loader writes into them. */
  const BootstrapAudit: Audit := Audit("System", "System")
}
