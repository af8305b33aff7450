/** The Bookings table, a local copy of the booking service's bookings kept for the
  * availability calculation, and its repository. */
module BookingRepositories {
  import opened Wrappers
  import opened Entities
  import opened Sequences

  function BookingId(b: Booking): Id
  {
    b.id
  }

  /** The bookings that occupy time: pending or confirmed ones. */
  predicate IsBusy(status: BookingStatus)
  {
    status == Confirmed || status == Pending
  }

  /** GetByIdAsync. */
  function GetById(rows: seq<Booking>, id: Id): (r: Option<Booking>)
    ensures r.Some? <==> exists b :: b in rows && b.id == id
    ensures r.Some? ==> r.value in rows && r.value.id == id
    ensures DistinctBy(rows, BookingId) ==> forall b :: b in rows && b.id == id ==> r == Some(b)
  {
    match FindFirst(rows, (b: Booking) => b.id == id)
    case None => None
    case Some(i) =>
      assert DistinctBy(rows, BookingId) ==>
        forall k :: 0 <= k < |rows| && BookingId(rows[k]) == BookingId(rows[i]) ==> k == i;
      Some(rows[i])
  }

  /** GetBookingsByTenantAndDateRangeAsync: the tenant's pending or confirmed bookings that
    * touch [startDate, endDate], both ends included, in table order. */
  function GetBookingsByTenantAndDateRange(rows: seq<Booking>, tenantId: Id, startDate: int, endDate: int): (r: seq<Booking>)
    ensures forall b :: b in r <==>
      b in rows && b.tenantId == tenantId && IsBusy(b.status) && b.start <= endDate && b.end >= startDate
    ensures multiset(r) <= multiset(rows)
  {
    Filter(rows, (b: Booking) => b.tenantId == tenantId && IsBusy(b.status) && b.start <= endDate && b.end >= startDate)
  }

  /** The range query is inclusive: a booking that ends exactly where the range starts, or
    * starts exactly where it ends, is returned. */
  lemma RangeQueryIncludesContact(rows: seq<Booking>, b: Booking, tenantId: Id, startDate: int, endDate: int)
    requires b in rows && b.tenantId == tenantId && IsBusy(b.status) && b.start <= b.end
    requires b.end == startDate || b.start == endDate
    requires startDate <= endDate
    ensures b in GetBookingsByTenantAndDateRange(rows, tenantId, startDate, endDate)
  {
  }

  class BookingRepository {
    var rows: seq<Booking>

    ghost predicate Valid()
      reads this
    {
      DistinctBy(rows, BookingId)
    }

    constructor()
      ensures Valid() && rows == []
    {
      rows := [];
    }

    /** CreateAsync: the booking is stored as given and returned unchanged; its id must not
      * be in use. */
    method Create(booking: Booking) returns (r: Result<Booking, StoreError>)
      requires Valid()
      modifies this
      ensures Valid()
      ensures r.Err? <==> exists b :: b in old(rows) && b.id == booking.id
      ensures r.Err? ==> r.error == DuplicateKey && rows == old(rows)
      ensures r.Ok? ==> r.value == booking && rows == old(rows) + [booking]
    {
      if GetById(rows, booking.id).Some? {
        return Err(DuplicateKey);
      }
      AppendDistinct(rows, [booking], BookingId);
      rows := rows + [booking];
      r := Ok(booking);
    }

    /** UpdateAsync: the stored booking with the same id is replaced and the argument
      * returned; the other bookings are unchanged. */
    method Update(booking: Booking) returns (r: Result<Booking, StoreError>)
      requires Valid()
      modifies this
      ensures Valid()
      ensures r.Err? <==> forall b :: b in old(rows) ==> b.id != booking.id
      ensures r.Err? ==> r.error == RowNotFound && rows == old(rows)
      ensures r.Ok? ==> r.value == booking && |rows| == |old(rows)|
      ensures r.Ok? ==> forall i :: 0 <= i < |rows| ==>
        rows[i] == if old(rows)[i].id == booking.id then booking else old(rows)[i]
    {
      match FindFirst(rows, (b: Booking) => b.id == booking.id)
      case None =>
        r := Err(RowNotFound);
      case Some(i) =>
        forall k | 0 <= k < |rows| && k != i ensures rows[k].id != booking.id {
          assert BookingId(rows[k]) != BookingId(rows[i]);
        }
        ReplaceDistinct(rows, BookingId, i, booking);
        rows := rows[i := booking];
        r := Ok(booking);
    }

    /** DeleteAsync: the stored booking with the booking's id is removed. */
    method Delete(booking: Booking) returns (r: Result<(), StoreError>)
      requires Valid()
      modifies this
      ensures Valid()
      ensures r.Err? <==> forall b :: b in old(rows) ==> b.id != booking.id
      ensures r.Err? ==> r.error == RowNotFound && rows == old(rows)
      ensures forall b :: b in rows <==> b in old(rows) && b.id != booking.id
      ensures r.Ok? ==> (exists i :: 0 <= i < |old(rows)| && old(rows)[i].id == booking.id &&
                                     rows == old(rows)[..i] + old(rows)[i + 1..])
    {
      match FindFirst(rows, (b: Booking) => b.id == booking.id)
      case None =>
        r := Err(RowNotFound);
      case Some(i) =>
        RemoveAtDistinct(rows, BookingId, i);
        rows := rows[..i] + rows[i + 1..];
        r := Ok(());
    }
  }
}
