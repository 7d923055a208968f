/**
 * The booking handlers: two listings (the caller's own, and every booking for
 * an administrator), creating a booking, and an administrator's status change.
 */
module BookingRoutes {
  import opened Wrappers
  import opened Js
  import opened Mongo
  import opened Auth
  import opened EventModel
  import opened BookingModel
  import opened Store

  /** The body of a create request; `None` is a field that is absent (or, for the id, empty). */
  datatype BookingRequest = BookingRequest(eventId: Option<Id>, quantity: Option<int>)

  /** The body of a status update; `None` is an absent `status`. */
  datatype StatusRequest = StatusRequest(status: Option<string>)

  /** A booking as a listing returns it: its id, the record, and its event joined in (`populate('event')`). */
  datatype BookingView = BookingView(id: Id, booking: Booking, event: Option<Event>)

  /** `populate`: the referenced event, or nothing when it is no longer stored. */
  function Lookup(events: map<Id, Event>, id: Id): (r: Option<Event>)
    ensures r.Some? <==> id in events
    ensures r.Some? ==> r.value == events[id]
  {
    if id in events then Some(events[id]) else None
  }

  /** The sort key of `.sort('-createdAt')`: the most recent booking has the smallest key. */
  function Recency(b: Booking): int {
    -(b.createdAt as int)
  }

  /** `Booking.find({ user })`. */
  function OwnedBy(bookings: map<Id, Booking>, user: Id): (r: map<Id, Booking>)
    ensures forall id :: id in r <==> id in bookings && bookings[id].user == user
    ensures forall id :: id in r ==> r[id] == bookings[id]
  {
    map id | id in bookings && bookings[id].user == user :: bookings[id]
  }

  /** Join each listed booking with its event. */
  function Populate(s: seq<(Id, Booking)>, events: map<Id, Event>): (r: seq<BookingView>)
    ensures |r| == |s|
    ensures forall i :: 0 <= i < |s| ==> r[i] == BookingView(s[i].0, s[i].1, Lookup(events, s[i].1.event))
  {
    seq(|s|, i requires 0 <= i < |s| => BookingView(s[i].0, s[i].1, Lookup(events, s[i].1.event)))
  }

  /** No id twice, and each booking listed no earlier than every later one. */
  ghost predicate NewestFirst(r: seq<BookingView>) {
    forall i, j :: 0 <= i < j < |r| ==> r[i].id != r[j].id && r[i].booking.createdAt >= r[j].booking.createdAt
  }

  /** Each listed booking is the stored one under its id, with the right event joined. */
  ghost predicate Shows(r: seq<BookingView>, bookings: map<Id, Booking>, events: map<Id, Event>) {
    forall i :: 0 <= i < |r| ==>
      r[i].id in bookings && bookings[r[i].id] == r[i].booking && r[i].event == Lookup(events, r[i].booking.event)
  }

  /**
   * `Booking.find().populate('event').sort('-createdAt')`: a collection sorted by
   * recency and joined, each booking once, newest first. It is the
   * administrator's listing; `OwnListing` applies it to the caller's bookings.
   */
  function Listing(m: map<Id, Booking>, events: map<Id, Event>): (r: seq<BookingView>)
    ensures Shows(r, m, events) && NewestFirst(r)
    ensures |r| == |m|
    ensures forall id :: id in m ==> exists i :: 0 <= i < |r| && r[i].id == id
  {
    var sorted := SortBy(m, Recency);
    PopulateNewestFirst(sorted, events);
    PopulateCovers(m, sorted, events);
    Populate(sorted, events)
  }

  lemma PopulateCovers(m: map<Id, Booking>, s: seq<(Id, Booking)>, events: map<Id, Event>)
    requires Covers(m, s)
    ensures forall id :: id in m ==> exists i :: 0 <= i < |s| && Populate(s, events)[i].id == id
  {
    var r := Populate(s, events);
    forall id | id in m ensures exists i :: 0 <= i < |s| && r[i].id == id {
      var i :| 0 <= i < |s| && s[i] == (id, m[id]);
      assert r[i].id == id;
    }
  }

  /** The listing of the bookings of `user`, newest first. */
  function OwnListing(bookings: map<Id, Booking>, events: map<Id, Event>, user: Id): (r: seq<BookingView>)
    ensures Shows(r, bookings, events) && NewestFirst(r)
    ensures forall i :: 0 <= i < |r| ==> r[i].booking.user == user
    ensures forall id :: id in bookings && bookings[id].user == user ==>
      exists i :: 0 <= i < |r| && r[i].id == id
  {
    var owned := OwnedBy(bookings, user);
    var r := Listing(owned, events);
    assert forall i :: 0 <= i < |r| ==> r[i].id in owned;
    r
  }

  /** A list sorted by `Recency` is newest first once joined. */
  lemma PopulateNewestFirst(s: seq<(Id, Booking)>, events: map<Id, Event>)
    requires Ordered(Recency, s)
    ensures NewestFirst(Populate(s, events))
  {
    var r := Populate(s, events);
    forall i, j | 0 <= i < j < |r| ensures r[i].id != r[j].id && r[i].booking.createdAt >= r[j].booking.createdAt {
      assert Precedes(Recency, s[i].0, s[i].1, s[j].0, s[j].1);
      assert Recency(s[i].1) <= Recency(s[j].1);
    }
  }

  /** GET /: the caller's own bookings, newest first; 401 without an identity. */
  function ListOwn(caller: Option<Caller>, bookings: map<Id, Booking>, events: map<Id, Event>): (r: Result<seq<BookingView>, HttpError>)
    ensures r.Success? <==> caller.Some?
    ensures r.Failure? ==> r.error == NotAuthorized
    ensures r.Success? ==> r.value == OwnListing(bookings, events, caller.value.id)
  {
    match Protect(caller)
    case Failure(e) => Failure(e)
    case Success(c) => Success(OwnListing(bookings, events, c.id))
  }

  /** GET /admin: every booking, newest first; administrators only. */
  function ListAll(caller: Option<Caller>, bookings: map<Id, Booking>, events: map<Id, Event>): (r: Result<seq<BookingView>, HttpError>)
    ensures r.Success? <==> caller.Some? && caller.value.isAdmin
    ensures r.Failure? ==> r.error == (if caller.None? then NotAuthorized else Forbidden)
    ensures r.Success? ==> r.value == Listing(bookings, events)
  {
    match Admin(caller)
    case Failure(e) => Failure(e)
    case Success(_) => Success(Listing(bookings, events))
  }

  /** The guard of POST /: `eventId` and `quantity` truthy (0 is refused, a negative quantity is not). */
  predicate Given(req: BookingRequest) {
    req.eventId.Some? && TruthyNumber(req.quantity)
  }

  /** The status every booking created by POST / gets, overriding the schema default. */
  const InitialStatus: string := "confirmed"

  /** The fields POST / hands to `Booking.create`: the total is the event's current price times the quantity. */
  function CreateFields(user: Id, eventId: Id, quantity: int, event: Event): BookingFields {
    BookingFields(Some(user), Some(eventId), Some(quantity), Some(event.price * quantity), Some(InitialStatus))
  }

  /** POST /: the booking a create request stores, or why it is refused. */
  function NewBooking(caller: Option<Caller>, req: BookingRequest, events: map<Id, Event>, createdAt: nat): (r: Result<Booking, HttpError>)
    ensures caller.None? ==> r == Failure(NotAuthorized)
    ensures caller.Some? && !Given(req) ==> r == Failure(BadRequest)
    ensures caller.Some? && Given(req) && req.eventId.value !in events ==> r == Failure(NotFound)
    ensures r.Success? <==> caller.Some? && Given(req) && req.eventId.value in events
    ensures r.Success? ==>
      var q := req.quantity.value;
      && r.value.user == caller.value.id
      && r.value.event == req.eventId.value
      && r.value.quantity == q
      && r.value.totalPrice == events[req.eventId.value].price * q
      && r.value.status == Confirmed
      && r.value.createdAt == createdAt
  {
    match Protect(caller)
    case Failure(e) => Failure(e)
    case Success(c) =>
      if !Given(req) then Failure(BadRequest)
      else if req.eventId.value !in events then Failure(NotFound)
      else
        var fields := CreateFields(c.id, req.eventId.value, req.quantity.value, events[req.eventId.value]);
        Success(BookingModel.Create(fields, createdAt).value)
  }

  /**
   * PUT /:id: the booking after `status = body.status || status` and `save()`,
   * or why the update is refused. A truthy status outside the enum fails the
   * save's validator.
   */
  function StatusChange(caller: Option<Caller>, bookings: map<Id, Booking>, id: Id, req: StatusRequest): (r: Result<Booking, HttpError>)
    ensures Admin(caller).Failure? ==> r == Failure(Admin(caller).error)
    ensures Admin(caller).Success? && id !in bookings ==> r == Failure(NotFound)
    ensures Admin(caller).Success? && id in bookings && TruthyString(req.status) && ParseStatus(req.status.value).None? ==>
      r == Failure(ServerError)
    ensures r.Success? <==>
      caller.Some? && caller.value.isAdmin && id in bookings &&
      (!TruthyString(req.status) || ParseStatus(req.status.value).Some?)
    ensures r.Success? ==>
      && r.value == bookings[id].(status := r.value.status)
      && (TruthyString(req.status) ==> StatusName(r.value.status) == req.status.value)
      && (!TruthyString(req.status) ==> r.value.status == bookings[id].status)
  {
    match Admin(caller)
    case Failure(e) => Failure(e)
    case Success(_) =>
      if id !in bookings then Failure(NotFound)
      else if !TruthyString(req.status) then Success(bookings[id])
      else match ParseStatus(req.status.value)
        case None => Failure(ServerError)
        case Some(s) => Success(bookings[id].(status := s))
  }

  /** POST /: store a new booking with a fresh id and return it with its event, or change nothing. */
  method CreateBooking(db: Db, caller: Option<Caller>, req: BookingRequest) returns (r: Result<BookingView, HttpError>)
    requires db.Valid()
    modifies db
    ensures db.Valid()
    ensures var d := NewBooking(caller, req, old(db.events), old(db.clock));
      if d.Failure? then r == Failure(d.error) && unchanged(db)
      else
        var id := old(db.nextId);
        && r == Success(BookingView(id, d.value, Some(old(db.events)[d.value.event])))
        && id !in old(db.bookings)
        && db.bookings == old(db.bookings)[id := d.value]
        && db.unitPrice == old(db.unitPrice)[id := old(db.events)[d.value.event].price]
        && db.events == old(db.events)
        && db.nextId == id + 1 && db.clock == old(db.clock) + 1
  {
    var gate := Protect(caller);
    if gate.Failure? {
      return Failure(gate.error);
    }
    if !Given(req) {
      return Failure(BadRequest);
    }
    var eventId := req.eventId.value;
    if eventId !in db.events {
      return Failure(NotFound);
    }
    var event := db.events[eventId];
    var booking := BookingModel.Create(CreateFields(gate.value.id, eventId, req.quantity.value, event), db.clock).value;
    var id := db.nextId;
    var view := BookingView(id, booking, Some(event));
    db.bookings := db.bookings[id := booking];
    db.unitPrice := db.unitPrice[id := event.price];
    db.nextId, db.clock := db.nextId + 1, db.clock + 1;
    r := Success(view);
  }

  /** PUT /:id: set one booking's status in place and save it, or change nothing. */
  method UpdateStatus(db: Db, caller: Option<Caller>, id: Id, req: StatusRequest) returns (r: Result<Booking, HttpError>)
    requires db.Valid()
    modifies db
    ensures db.Valid()
    ensures r == StatusChange(caller, old(db.bookings), id, req)
    ensures r.Failure? ==> unchanged(db)
    ensures r.Success? ==>
      && db.bookings == old(db.bookings)[id := r.value]
      && db.events == old(db.events) && db.unitPrice == old(db.unitPrice)
      && db.nextId == old(db.nextId) && db.clock == old(db.clock)
  {
    var gate := Admin(caller);
    if gate.Failure? {
      return Failure(gate.error);
    }
    if id !in db.bookings {
      return Failure(NotFound);
    }
    var booking := db.bookings[id];
    var status := if TruthyString(req.status) then req.status.value else StatusName(booking.status);
    StatusRoundTrip(booking.status);
    match ParseStatus(status)
    case None =>
      r := Failure(ServerError);
    case Some(s) =>
      booking := booking.(status := s);
      db.bookings := db.bookings[id := booking];
      r := Success(booking);
  }

  /**
   * A booking created after every stored one (as the store's clock makes it)
   * heads its owner's listing, in front of the listing as it was.
   */
  lemma CreatedBookingListedFirst(bookings: map<Id, Booking>, events: map<Id, Event>, id: Id, b: Booking)
    requires id !in bookings
    requires forall j :: j in bookings ==> bookings[j].createdAt < b.createdAt
    ensures OwnListing(bookings[id := b], events, b.user)
      == [BookingView(id, b, Lookup(events, b.event))] + OwnListing(bookings, events, b.user)
  {
    var owned := OwnedBy(bookings, b.user);
    assert OwnedBy(bookings[id := b], b.user) == owned[id := b];
    SortByInsertFirst(owned, Recency, id, b);
    assert OwnListing(bookings[id := b], events, b.user) == Listing(owned[id := b], events);
    PopulateCons(id, b, SortBy(owned, Recency), events);
  }

  /**
   * In a valid store, the booking a successful create request stores under the
   * next id (which `CreateBooking` returns as its result) heads the caller's
   * listing and the full listing, in front of the listings as they were.
   */
  lemma CreateHeadsListings(db: Db, caller: Option<Caller>, req: BookingRequest)
    requires db.Valid()
    requires NewBooking(caller, req, db.events, db.clock).Success?
    ensures var b := NewBooking(caller, req, db.events, db.clock).value;
      var view := BookingView(db.nextId, b, Some(db.events[b.event]));
      && OwnListing(db.bookings[db.nextId := b], db.events, caller.value.id)
        == [view] + OwnListing(db.bookings, db.events, caller.value.id)
      && Listing(db.bookings[db.nextId := b], db.events) == [view] + Listing(db.bookings, db.events)
  {
    var b := NewBooking(caller, req, db.events, db.clock).value;
    assert db.nextId !in db.bookings;
    assert Lookup(db.events, b.event) == Some(db.events[b.event]);
    CreatedBookingListedFirst(db.bookings, db.events, db.nextId, b);
    CreatedBookingListedFirstForAdmin(db.bookings, db.events, db.nextId, b);
  }

  /** The same for the administrator's listing of every booking. */
  lemma CreatedBookingListedFirstForAdmin(bookings: map<Id, Booking>, events: map<Id, Event>, id: Id, b: Booking)
    requires id !in bookings
    requires forall j :: j in bookings ==> bookings[j].createdAt < b.createdAt
    ensures Listing(bookings[id := b], events)
      == [BookingView(id, b, Lookup(events, b.event))] + Listing(bookings, events)
  {
    SortByInsertFirst(bookings, Recency, id, b);
    PopulateCons(id, b, SortBy(bookings, Recency), events);
  }

  lemma PopulateCons(id: Id, b: Booking, s: seq<(Id, Booking)>, events: map<Id, Event>)
    ensures Populate([(id, b)] + s, events) == [BookingView(id, b, Lookup(events, b.event))] + Populate(s, events)
  {
    var l, r := Populate([(id, b)] + s, events), [BookingView(id, b, Lookup(events, b.event))] + Populate(s, events);
    forall i | 0 <= i < |l| ensures l[i] == r[i] {
      if i > 0 { assert ([(id, b)] + s)[i] == s[i - 1]; }
    }
  }

  /**
   * `after` lists the same bookings as `before` in the same order, with the same
   * events joined; only the booking under `id` is now `b`.
   */
  ghost predicate ReplacedIn(before: seq<BookingView>, after: seq<BookingView>, id: Id, b: Booking) {
    && |after| == |before|
    && forall i :: 0 <= i < |before| ==>
      && after[i].id == before[i].id
      && after[i].event == before[i].event
      && after[i].booking == (if before[i].id == id then b else before[i].booking)
  }

  /**
   * After a successful status change the owner's listing has the same
   * bookings in the same order; only the changed booking differs, and only
   * in its status.
   */
  lemma StatusChangeKeepsPlace(caller: Option<Caller>, bookings: map<Id, Booking>, events: map<Id, Event>, id: Id, req: StatusRequest)
    requires StatusChange(caller, bookings, id, req).Success?
    ensures var b := StatusChange(caller, bookings, id, req).value;
      ReplacedIn(OwnListing(bookings, events, b.user), OwnListing(bookings[id := b], events, b.user), id, b)
  {
    var b := StatusChange(caller, bookings, id, req).value;
    var owned := OwnedBy(bookings, b.user);
    assert id in owned && owned[id] == bookings[id];
    assert OwnedBy(bookings[id := b], b.user) == owned[id := b];
    ListingReplace(owned, events, id, b);
  }

  /** Replacing a stored booking by one with the same creation time and event keeps the listing's order. */
  lemma ListingReplace(m: map<Id, Booking>, events: map<Id, Event>, id: Id, b: Booking)
    requires id in m && b.createdAt == m[id].createdAt && b.event == m[id].event
    ensures ReplacedIn(Listing(m, events), Listing(m[id := b], events), id, b)
  {
    var s, s' := SortBy(m, Recency), SortBy(m[id := b], Recency);
    assert s' == Replaced(s, id, b) by {
      SortByReplace(m, Recency, id, b);
    }
    assert forall i :: 0 <= i < |s| && s[i].0 == id ==> s[i].1.event == b.event by {
      EntriesAt(m, s, id);
    }
    PopulateReplaced(s, events, id, b);
  }

  lemma EntriesAt(m: map<Id, Booking>, s: seq<(Id, Booking)>, id: Id)
    requires EntriesOf(m, s)
    ensures forall i :: 0 <= i < |s| && s[i].0 == id ==> s[i].1 == m[id]
  {
  }

  lemma PopulateReplaced(s: seq<(Id, Booking)>, events: map<Id, Event>, id: Id, b: Booking)
    requires forall i :: 0 <= i < |s| && s[i].0 == id ==> s[i].1.event == b.event
    ensures ReplacedIn(Populate(s, events), Populate(Replaced(s, id, b), events), id, b)
  {
  }

  /**
   * Changing or deleting events never changes the bookings a listing shows:
   * the totals were fixed at creation and only the joined event differs.
   */
  lemma CatalogChangeKeepsTotals(bookings: map<Id, Booking>, events: map<Id, Event>, events': map<Id, Event>, user: Id)
    ensures var before, after := OwnListing(bookings, events, user), OwnListing(bookings, events', user);
      && |after| == |before|
      && forall i :: 0 <= i < |before| ==>
        after[i].id == before[i].id && after[i].booking == before[i].booking
  {
  }

  /** After its event is deleted a booking is still listed, with no event joined. */
  lemma DeletedEventDangles(bookings: map<Id, Booking>, events: map<Id, Event>, eventId: Id, user: Id)
    ensures var r := OwnListing(bookings, events - {eventId}, user);
      forall i :: 0 <= i < |r| && r[i].booking.event == eventId ==> r[i].event.None?
  {
  }

  /** The guard lets a negative quantity through, and the total comes out negative. */
  lemma NegativeQuantityAccepted(caller: Caller, events: map<Id, Event>, eventId: Id, createdAt: nat)
    requires eventId in events && events[eventId].price > 0
    ensures var r := NewBooking(Some(caller), BookingRequest(Some(eventId), Some(-2)), events, createdAt);
      r.Success? && r.value.quantity == -2 && r.value.totalPrice < 0
  {
  }

  /** Two tickets for a 50.00 concert cost 100.00 and are confirmed straight away. */
  lemma ConcertScenario(caller: Caller)
    ensures var concert := Event("Concert", "Hall A", 1767297600000, 5000, 0, 0);
      var r := NewBooking(Some(caller), BookingRequest(Some(7), Some(2)), map[7 := concert], 1);
      r.Success? && r.value.totalPrice == 10000 && r.value.status == Confirmed
  {
  }
}
