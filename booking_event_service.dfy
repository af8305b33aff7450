/** Mirroring the booking service's events into the local Bookings table: a created event
  * inserts the booking unless it is already there, a cancelled event marks it cancelled.
  * "Now" is a parameter. */
module BookingEvents {
  import opened Wrappers
  import opened Entities
  import opened Sequences
  import opened BookingRepositories

  datatype BookingCreatedEvent = BookingCreatedEvent(
    bookingId: Id,
    tenantId: Id,
    ownerId: Id,
    start: int,
    end: int,
    status: BookingStatus)

  datatype BookingCancelledEvent = BookingCancelledEvent(bookingId: Id)

  /** The booking a created event describes, stamped with the time it arrived. */
  function NewBooking(e: BookingCreatedEvent, now: int): (b: Booking)
    ensures b.id == e.bookingId && b.tenantId == e.tenantId && b.ownerId == e.ownerId
    ensures b.start == e.start && b.end == e.end && b.status == e.status
    ensures b.createdAt == now && b.updatedAt == now
  {
    Booking(e.bookingId, e.tenantId, e.ownerId, e.start, e.end, e.status, now, now)
  }

  predicate Known(rows: seq<Booking>, id: Id)
  {
    exists b :: b in rows && b.id == id
  }

  /** The table after a created event. */
  function AfterBookingCreated(rows: seq<Booking>, e: BookingCreatedEvent, now: int): seq<Booking>
  {
    if Known(rows, e.bookingId) then rows else rows + [NewBooking(e, now)]
  }

  /** A created event leaves every booking in place and the event's booking present; a
    * replayed one changes nothing. */
  lemma BookingCreatedReplay(rows: seq<Booking>, e: BookingCreatedEvent, now: int, later: int)
    ensures forall b :: b in rows ==> b in AfterBookingCreated(rows, e, now)
    ensures Known(AfterBookingCreated(rows, e, now), e.bookingId)
    ensures AfterBookingCreated(AfterBookingCreated(rows, e, now), e, later) == AfterBookingCreated(rows, e, now)
  {
    if !Known(rows, e.bookingId) {
      assert NewBooking(e, now) in AfterBookingCreated(rows, e, now);
    }
  }

  function Cancel(b: Booking, now: int): Booking
  {
    b.(status := Cancelled, updatedAt := now)
  }

  /** The table after a cancelled event: the booking with that id is cancelled. */
  function AfterBookingCancelled(rows: seq<Booking>, id: Id, now: int): (r: seq<Booking>)
    ensures |r| == |rows|
  {
    seq(|rows|, i requires 0 <= i < |rows| => if rows[i].id == id then Cancel(rows[i], now) else rows[i])
  }

  /** Cancelling changes only the status and stamp of the booking with that id; an unknown
    * id changes nothing. */
  lemma CancelOnlyStatus(rows: seq<Booking>, id: Id, now: int)
    ensures var r := AfterBookingCancelled(rows, id, now);
      forall i :: 0 <= i < |rows| ==>
        r[i].id == rows[i].id && r[i].tenantId == rows[i].tenantId && r[i].ownerId == rows[i].ownerId
        && r[i].start == rows[i].start && r[i].end == rows[i].end && r[i].createdAt == rows[i].createdAt
        && (rows[i].id == id ==> r[i].status == Cancelled && r[i].updatedAt == now)
        && (rows[i].id != id ==> r[i] == rows[i])
    ensures !Known(rows, id) ==> AfterBookingCancelled(rows, id, now) == rows
  {
    if !Known(rows, id) {
      assert forall i :: 0 <= i < |rows| ==> rows[i] in rows;
    }
  }

  /** Cancelling twice is cancelling once, at the later time. */
  lemma CancelIdempotent(rows: seq<Booking>, id: Id, now: int, later: int)
    ensures AfterBookingCancelled(AfterBookingCancelled(rows, id, now), id, later) == AfterBookingCancelled(rows, id, later)
  {
  }

  /** A cancelled booking no longer counts as busy in any range query. */
  lemma CancelledNotBusy(rows: seq<Booking>, id: Id, now: int, tenantId: Id, startDate: int, endDate: int)
    ensures forall b :: b in GetBookingsByTenantAndDateRange(AfterBookingCancelled(rows, id, now), tenantId, startDate, endDate) ==>
      b.id != id
  {
    var r := AfterBookingCancelled(rows, id, now);
    forall b | b in GetBookingsByTenantAndDateRange(r, tenantId, startDate, endDate) ensures b.id != id {
      var i :| 0 <= i < |r| && r[i] == b;
    }
  }

  /** HandleBookingCreatedEventAsync. */
  method HandleBookingCreated(repository: BookingRepository, e: BookingCreatedEvent, now: int)
    requires repository.Valid()
    modifies repository
    ensures repository.Valid()
    ensures repository.rows == AfterBookingCreated(old(repository.rows), e, now)
  {
    var existing := GetById(repository.rows, e.bookingId);
    if existing.Some? {
      return;
    }
    var created := repository.Create(NewBooking(e, now));
  }

  /** HandleBookingCancelledEventAsync. */
  method HandleBookingCancelled(repository: BookingRepository, e: BookingCancelledEvent, now: int)
    requires repository.Valid()
    modifies repository
    ensures repository.Valid()
    ensures repository.rows == AfterBookingCancelled(old(repository.rows), e.bookingId, now)
  {
    var existing := GetById(repository.rows, e.bookingId);
    if existing.None? {
      CancelOnlyStatus(repository.rows, e.bookingId, now);
      return;
    }
    ghost var before := repository.rows;
    var updated := repository.Update(Cancel(existing.value, now));
    forall i | 0 <= i < |before| && before[i].id == e.bookingId ensures before[i] == existing.value {
      assert before[i] in before;
    }
  }
}
