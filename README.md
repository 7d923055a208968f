# Event booking backend: bookings and the event catalog

This project models the request handlers of an event-booking backend. The
handlers work on two collections, events and bookings. Anyone may list events
or read one. An administrator may create, update and delete events. A signed-in
user may book tickets for an event and list their own bookings. An
administrator may list every booking and change a booking's status.

The two collections are one object, `Store.Db`. Its `events` and `bookings`
fields are maps from document id to record. Ids come from a counter (`nextId`)
and creation times from a second counter (`clock`). That makes "newest first"
a well-defined order. `Db.Valid()` is the invariant every handler keeps:

- every stored id and timestamp was issued before the counters' current values;
- no two bookings share a creation time;
- every booking's total is its unit-price snapshot times its quantity. The
  snapshot is a ghost map written once, when the booking is created.

The modules follow the backend's files:

- `BookingModel` and `EventModel` are the two schemas. Each has a record
  datatype and a `Create` function that applies the schema's defaults and runs
  its validators. `EventModel.Patch` is the update without validation.
- `Auth` holds the `protect` and `admin` gates, reduced to the identity they
  resolve, `Option<Caller>`.
- `EventRoutes` and `BookingRoutes` hold the handlers. Each GET handler is a
  pure function over the maps. Each handler that changes state is a
  module-level method that takes the store as a parameter `db: Db` and
  `modifies db`. Its `ensures` ties its result and the new maps to a pure decision
  function (`NewEvent`, `EventUpdate`, `EventRemoval`, `NewBooking`,
  `StatusChange`), and the lemmas state properties of those functions.
- `Mongo.SortBy` is the `.sort(...)` of a query: the entries of a map, sorted
  by a key and then by id.

Prices and totals are integers, for example cents, so `price * quantity` is
exact. The request bodies are encoded one type at a time:

- The create bodies (`EventRoutes.EventRequest`, `BookingRoutes.BookingRequest`):
  an absent or empty string field is `None`. `quantity` and `price` are tested
  for JavaScript truthiness with `Js.TruthyNumber`, so 0 fails the guard.
- The event date of a create body: the JSON value is a date string, so any date
  given is truthy and the guard only asks that it be present. An empty date
  string is encoded as an absent date.
- The update body (`EventModel.EventFields`) and the status body
  (`BookingRoutes.StatusRequest`): `None` means absent only. `""` and `0` are
  real values. `Patch` stores them, and the status handler tests `status` with
  `Js.TruthyString`, so `""` keeps the old status.

Quirks of the handlers that the model keeps:

- The `!quantity` guard of the create handler (bookingRoutes.js:24) refuses a
  missing quantity and 0 only. A negative quantity is stored, and its total is
  negative (`NegativeQuantityAccepted`).
- A status update with an absent or empty `status` keeps the old status. A
  non-empty value outside the enum fails the schema validator on `save()`; that
  error reaches the error handler and is modelled as `ServerError` (500).
- The `!price` guard of the event create handler (eventRoutes.js:34) refuses a
  price of 0.
- `findByIdAndUpdate` runs no validator, so an event update can store an empty
  name that `Event.create` would refuse (`PatchSkipsValidation`).

## Model

| member | source | states |
|---|---|---|
| `Mongo.SortBy` | backend/routes/eventRoutes.js:11 | a sorted query returns every entry of the collection exactly once, in key order, with ties broken by id |
| `Mongo.SortByInsertFirst` | backend/routes/bookingRoutes.js:14 | an entry whose key is below every stored key is listed first, ahead of the previous listing unchanged |
| `Mongo.SortByReplace` | backend/routes/bookingRoutes.js:14 | replacing a value without changing its key keeps every entry's position, with the new value in the old one's place |
| `BookingModel.ParseStatus` | backend/models/Booking.js:23-28 | the status enum accepts exactly the three names `pending`, `confirmed` and `cancelled`; every other string is rejected |
| `BookingModel.StatusRoundTrip` | backend/models/Booking.js:26 | every status is accepted under its own name and gives back that status |
| `BookingModel.Create` | backend/models/Booking.js:3-31 | a booking is stored iff `user`, `event` and `totalPrice` are given and any given status is in the enum; the given fields are kept, `quantity` defaults to 1, `status` defaults to pending, and `createdAt` is set |
| `BookingModel.CreateDefaults` | backend/models/Booking.js:14-18 | given only the required fields, the new booking has quantity 1 and status pending |
| `BookingModel.CreateRequiresFields` | backend/models/Booking.js:4-22 | a booking missing `user`, `event` or `totalPrice` is never stored |
| `EventModel.Create` | backend/models/Event.js:3-27 | an event is stored iff name and venue are non-empty and date, price and creator are given; the record has exactly those fields and conforms to the schema |
| `EventModel.Patch` | backend/routes/eventRoutes.js:61-65 | each supplied field overwrites the stored one; the other fields and `createdAt` are kept |
| `EventModel.PatchNothing` | backend/routes/eventRoutes.js:61-65 | an update with no fields leaves the event as it was |
| `EventModel.PatchIdempotent` | backend/routes/eventRoutes.js:61-65 | applying the same update twice equals applying it once |
| `EventModel.PatchSkipsValidation` | backend/routes/eventRoutes.js:61-65 | an update can turn a conforming event into one with an empty name, because no validator runs |
| `Auth.StatusCode` | backend/routes/bookingRoutes.js:25-31 | each error outcome is answered with its own status: 400 for a falsy field, 401 without an identity, 403 for a non-administrator, 404 for an unknown id, 500 for a failed validator |
| `Auth.Protect` | backend/routes/bookingRoutes.js:11 | a request goes on iff an identity was resolved, and then with that identity; otherwise it fails with 401 |
| `Auth.Admin` | backend/routes/bookingRoutes.js:50 | a request goes on iff an administrator's identity was resolved; otherwise it fails with 401 (no identity) or 403 (not an administrator) |
| `EventRoutes.ListEvents` | backend/routes/eventRoutes.js:10-13 | the listing holds every stored event exactly once, with dates ascending |
| `EventRoutes.GetEvent` | backend/routes/eventRoutes.js:18-26 | the stored event is returned iff its id is stored; otherwise the result is 404 |
| `EventRoutes.NewEvent` | backend/routes/eventRoutes.js:31-48 | 401 or 403 unless the caller is an administrator; 400 unless name, venue, date and price are all truthy (so price 0 is refused); otherwise a conforming event with the given fields, created by the caller |
| `EventRoutes.CreateEvent` | backend/routes/eventRoutes.js:31-48 | on success one event is added under a fresh id and the bookings are untouched; on failure nothing changes |
| `EventRoutes.EventUpdate` | backend/routes/eventRoutes.js:53-68 | 401 or 403 unless the caller is an administrator, then 404 for an unknown id; otherwise the stored event with the supplied fields overwritten |
| `EventRoutes.UpdateEvent` | backend/routes/eventRoutes.js:53-68 | on success only that one event changes, and the bookings (and so their totals) are untouched; on failure nothing changes |
| `EventRoutes.EventRemoval` | backend/routes/eventRoutes.js:73-83 | 401 or 403 unless the caller is an administrator, then 404 for an unknown id; otherwise the confirmation message |
| `EventRoutes.DeleteEvent` | backend/routes/eventRoutes.js:73-83 | on success exactly that event is removed and the bookings keep their event ids; on failure nothing changes |
| `EventRoutes.CreatedEventListed` | backend/routes/eventRoutes.js:39-45 | after an insert under a fresh id, the listing holds the new event and is one longer |
| `EventRoutes.DeletedEventUnlisted` | backend/routes/eventRoutes.js:81-82 | after a delete, the listing is one shorter, no longer holds the id, and a lookup of the id fails with 404 |
| `BookingRoutes.Lookup` | backend/routes/bookingRoutes.js:13 | the joined event is present iff the referenced event is still stored, and it is that event |
| `BookingRoutes.OwnedBy` | backend/routes/bookingRoutes.js:12 | the query keeps exactly the bookings whose `user` is the given id, unchanged |
| `BookingRoutes.Listing` | backend/routes/bookingRoutes.js:51-54 | the administrator's listing holds every booking of the collection exactly once, newest first, each joined with its event |
| `BookingRoutes.OwnListing` | backend/routes/bookingRoutes.js:12-14 | the listing holds exactly the bookings whose `user` is the caller, each once, newest first, each joined with its event |
| `BookingRoutes.ListOwn` | backend/routes/bookingRoutes.js:11-16 | 401 without an identity; otherwise the caller's own listing |
| `BookingRoutes.ListAll` | backend/routes/bookingRoutes.js:50-56 | 401 or 403 unless the caller is an administrator; otherwise the listing of every booking |
| `BookingRoutes.NewBooking` | backend/routes/bookingRoutes.js:21-41 | 401 without an identity; 400 for a falsy `eventId` or `quantity` (including 0); 404 for an unknown event; otherwise a booking owned by the caller, for that event and quantity, with total price times quantity, confirmed, timestamped now |
| `BookingRoutes.StatusChange` | backend/routes/bookingRoutes.js:61-72 | 401 or 403 unless the caller is an administrator, then 404 for an unknown id; a truthy status outside the enum fails the save; otherwise only the status changes: to the supplied status if truthy, else it is kept |
| `BookingRoutes.CreateBooking` | backend/routes/bookingRoutes.js:21-44 | on success one booking is added under a fresh id, with its price snapshot, and returned joined with its event; the events are untouched; on failure nothing changes |
| `BookingRoutes.UpdateStatus` | backend/routes/bookingRoutes.js:61-72 | on success only that booking changes, and only its status; on failure nothing changes |
| `BookingRoutes.CreatedBookingListedFirst` | backend/routes/bookingRoutes.js:12-14 | a booking created after every stored one heads its owner's listing, in front of the previous listing unchanged |
| `BookingRoutes.CreateHeadsListings` | backend/routes/bookingRoutes.js:35-41 | in a valid store, the booking a successful create stores under the next id, returned joined with its event, heads the caller's listing and the full listing, in front of the old listings unchanged |
| `BookingRoutes.CreatedBookingListedFirstForAdmin` | backend/routes/bookingRoutes.js:51-54 | a booking created after every stored one heads the full listing, in front of the previous listing unchanged |
| `BookingRoutes.StatusChangeKeepsPlace` | backend/routes/bookingRoutes.js:69-70 | after a status change the owner's listing has the same bookings in the same order with the same events; only the updated booking differs |
| `BookingRoutes.ListingReplace` | backend/routes/bookingRoutes.js:69-70 | replacing a booking by one with the same creation time and event keeps every listing position |
| `BookingRoutes.CatalogChangeKeepsTotals` | backend/routes/bookingRoutes.js:39 | whatever happens to the events, a listing shows the same bookings with the same totals; only the joined events differ |
| `BookingRoutes.DeletedEventDangles` | backend/routes/bookingRoutes.js:13 | a booking whose event was deleted is still listed, with no event joined |
| `BookingRoutes.NegativeQuantityAccepted` | backend/routes/bookingRoutes.js:24-27 | the guard lets a negative quantity through, and the stored total is negative |
| `BookingRoutes.ConcertScenario` | backend/routes/bookingRoutes.js:35-41 | two tickets at 50.00 give a confirmed booking with total 100.00 |

`Store.Db.Valid` is preserved by every handler method. It gives
`CreatedBookingListedFirst` its preconditions: the new booking's `createdAt` is
the clock, and every stored one is older. `CreateHeadsListings` proves this for
the state `CreateBooking` produces. Its `ensures` names that state: the new
bookings map, the next id and the returned view. So a successful create puts
the new booking at the head of the caller's listing and of the full listing.

## Left out

- `backend/middleware/authMiddleware.js` is not part of this model. Token checks and the user lookup are reduced to an optional `(id, isAdmin)` caller. The 401 and 403 codes are assumed, not read from that file.
- The error-handling middleware is not part of this model. A thrown validation error is assumed to become a 500.
- The user join on the admin listing (`populate('user', 'name email')`) is left out. The users collection is not modelled, so a listing entry carries the user id only.
- Success status codes (200, 201) and JSON serialisation are left out. A handler returns a `Result`.
- `updatedAt` timestamps are left out. No handler reads them.
- Malformed ids (a cast error in the store) are left out. Every id is a well-formed natural number.
- A `null` in a request body, unknown body fields, and numbers sent as strings are left out. A body field is either absent or a value of its schema type.
- NaN and fractional quantities and prices are left out. JavaScript numbers are IEEE-754 doubles; here they are integers, so `price * quantity` never rounds.
- Concurrency between requests is left out. Each handler runs as one atomic step.
- Wall-clock time is left out. `createdAt` is a counter, so creation times are unique and increasing.
- Ties in the date sort are broken by smaller id. The store itself leaves the order of equal dates unspecified.
