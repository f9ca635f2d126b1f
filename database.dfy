/**
 * The records the application reads from and writes to its backend tables.
 * Columns the TypeScript code types as `string | null` are `Option<string>`; the
 * medicine's `expiry_date` is the instant its date string denotes.
 */
module Database {
  import opened Wrappers

  /** A point in time in milliseconds since the epoch, as `Date.getTime()` gives it. */
  type Instant = int

  datatype Role = Admin | Staff

  /** A row of `profiles`. */
  datatype Profile = Profile(
    id: string,
    firstName: Option<string>,
    lastName: Option<string>,
    email: Option<string>,
    phoneNumber: Option<string>,
    houseNumber: Option<string>,
    streetName: Option<string>,
    barangay: Option<string>,
    city: Option<string>,
    province: Option<string>,
    postalCode: Option<string>,
    birthday: Option<string>,
    licenseUrl: Option<string>,
    role: Role,
    createdAt: string,
    updatedAt: string)

  /** A row of `medicines`. */
  datatype Medicine = Medicine(
    id: string,
    name: string,
    description: Option<string>,
    category: Option<string>,
    quantity: int,
    unit: string,
    expiryDate: Option<Instant>,
    supplier: Option<string>,
    batchNumber: Option<string>,
    price: Option<real>,
    lowStockThreshold: int,
    createdBy: Option<string>,
    createdAt: string,
    updatedAt: string)

  /** The `first_name, last_name` columns of a profile, as a join or a narrow select returns them. */
  datatype NameParts = NameParts(firstName: Option<string>, lastName: Option<string>)

  function NamesOf(p: Profile): NameParts {
    NameParts(p.firstName, p.lastName)
  }

  /** A row of `activity_logs`, with the author's name joined in from `profiles` (null when there is no author). */
  datatype ActivityLog = ActivityLog(
    id: string,
    userId: Option<string>,
    action: string,
    entityType: string,
    entityId: Option<string>,
    description: Option<string>,
    createdAt: Instant,
    profiles: Option<NameParts>)
}
