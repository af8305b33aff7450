/** The stored entities of the availability service. Every Guid is an opaque `Id`;
  * every DateTime an instant in seconds (see Calendar); a DayOfWeek an int with
  * 0 = Sunday; a TimeOnly a `TimeOfDay`. */
module Entities {
  import opened Wrappers
  import opened Calendar

  type Id = nat

  datatype TimeBlockType = Vacation | Break | Custom

  datatype TimeBlock = TimeBlock(
    id: Id,
    tenantId: Id,
    start: int,
    end: int,
    kind: TimeBlockType,
    reason: Option<string>,
    recurrenceId: Option<Id>)
  {
    /** IsRecurring: the block belongs to a recurrence group. */
    predicate IsRecurring()
    {
      recurrenceId.Some?
    }
  }

  datatype WorkingHours = WorkingHours(
    id: Id,
    tenantId: Id,
    day: int,
    startTime: TimeOfDay,
    endTime: TimeOfDay,
    maxConcurrentBookings: int)

  datatype BookingStatus = Pending | Confirmed | Completed | Cancelled

  /** A booking mirrored from the booking service; `ownerId` is the customer. */
  datatype Booking = Booking(
    id: Id,
    tenantId: Id,
    ownerId: Id,
    start: int,
    end: int,
    status: BookingStatus,
    createdAt: int,
    updatedAt: int)

  /** A tenant mirrored from the tenant service, plus its local scheduling settings. */
  datatype Tenant = Tenant(
    id: Id,
    businessName: Option<string>,
    email: Option<string>,
    phone: Option<string>,
    address: Option<string>,
    timeZone: Option<string>,
    bufferBeforeMinutes: int,
    bufferAfterMinutes: int,
    createdAt: int,
    updatedAt: int)

  /** How the database refuses a write: a primary key already in use, a unique index
    * broken, or an update or delete of a row that is not there. */
  datatype StoreError = DuplicateKey | UniqueIndexViolation | RowNotFound

  function TimeBlockStart(b: TimeBlock): int
  {
    b.start
  }

  function TimeBlockIds(rows: seq<TimeBlock>): (ids: set<Id>)
    ensures forall b :: b in rows ==> b.id in ids
    ensures forall id :: id in ids ==> exists b :: b in rows && b.id == id
  {
    set b | b in rows :: b.id
  }
}
