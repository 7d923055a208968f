/**
 * The booking schema: the stored record, its three-value status enum, and what
 * `Booking.create` does with the fields it is given (defaults, then validators).
 */
module BookingModel {
  import opened Wrappers
  import opened Mongo

  /** The `status` enum. */
  datatype BookingStatus = Pending | Confirmed | Cancelled

  /** The string the store holds for each status. */
  function StatusName(s: BookingStatus): string {
    match s
    case Pending => "pending"
    case Confirmed => "confirmed"
    case Cancelled => "cancelled"
  }

  /** The enum validator: which status a string names, if any. */
  function ParseStatus(name: string): (r: Option<BookingStatus>)
    ensures r.Some? ==> StatusName(r.value) == name
    ensures r.None? ==> forall s :: StatusName(s) != name
  {
    if name == "pending" then Some(Pending)
    else if name == "confirmed" then Some(Confirmed)
    else if name == "cancelled" then Some(Cancelled)
    else None
  }

  /** Every status is accepted by the enum validator under its own name. */
  lemma StatusRoundTrip(s: BookingStatus)
    ensures ParseStatus(StatusName(s)) == Some(s)
  {
  }

  /**
   * A stored booking. `totalPrice` is an integer amount (e.g. cents);
   * `createdAt` is the insertion tick of the store's clock.
   */
  datatype Booking = Booking(
    user: Id,
    event: Id,
    quantity: int,
    totalPrice: int,
    status: BookingStatus,
    createdAt: nat)

  /** The fields handed to `Booking.create`; `None` is a field left undefined. */
  datatype BookingFields = BookingFields(
    user: Option<Id>,
    event: Option<Id>,
    quantity: Option<int>,
    totalPrice: Option<int>,
    status: Option<string>)

  /** Schema default of `quantity`. */
  const DefaultQuantity: int := 1

  /** Schema default of `status`. */
  const DefaultStatus: BookingStatus := Pending

  /**
   * `Booking.create`: fill in the defaults of `quantity` and `status`, then
   * check the required fields and the status enum; the record gets `createdAt`.
   */
  function Create(f: BookingFields, createdAt: nat): (r: Result<Booking, ValidationError>)
    ensures r.Success? <==>
      f.user.Some? && f.event.Some? && f.totalPrice.Some? &&
      (f.status.None? || ParseStatus(f.status.value).Some?)
    ensures r.Success? ==>
      && r.value.user == f.user.value
      && r.value.event == f.event.value
      && r.value.totalPrice == f.totalPrice.value
      && r.value.quantity == (if f.quantity.Some? then f.quantity.value else DefaultQuantity)
      && (f.status.None? ==> r.value.status == DefaultStatus)
      && (f.status.Some? ==> StatusName(r.value.status) == f.status.value)
      && r.value.createdAt == createdAt
  {
    var quantity := if f.quantity.Some? then f.quantity.value else DefaultQuantity;
    var status := if f.status.Some? then ParseStatus(f.status.value) else Some(DefaultStatus);
    if f.user.None? || f.event.None? || f.totalPrice.None? || status.None? then
      Failure(ValidationError)
    else
      Success(Booking(f.user.value, f.event.value, quantity, f.totalPrice.value, status.value, createdAt))
  }

  /** With only the required fields given, a booking is for one ticket and pending. */
  lemma CreateDefaults(user: Id, event: Id, totalPrice: int, createdAt: nat)
    ensures var r := Create(BookingFields(Some(user), Some(event), None, Some(totalPrice), None), createdAt);
      r.Success? && r.value.quantity == 1 && r.value.status == Pending
  {
  }

  /** A record missing `user`, `event` or `totalPrice` is never stored. */
  lemma CreateRequiresFields(f: BookingFields, createdAt: nat)
    requires f.user.None? || f.event.None? || f.totalPrice.None?
    ensures Create(f, createdAt).Failure?
  {
  }
}
