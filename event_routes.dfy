/**
 * The event handlers: two public queries over the event collection and three
 * administrator-only operations that change it.
 */
module EventRoutes {
  import opened Wrappers
  import opened Js
  import opened Mongo
  import opened Auth
  import opened EventModel
  import opened Store

  /** The body of a create request; `None` is a field that is absent or empty. */
  datatype EventRequest = EventRequest(
    name: Option<string>,
    venue: Option<string>,
    date: Option<Date>,
    price: Option<int>)

  /** The sort key of the event listing. */
  function DateOf(e: Event): int {
    e.date
  }

  /** GET /: every stored event once, earliest date first. */
  function ListEvents(events: map<Id, Event>): (r: seq<(Id, Event)>)
    ensures |r| == |events|
    ensures forall i :: 0 <= i < |r| ==> r[i].0 in events && events[r[i].0] == r[i].1
    ensures forall id :: id in events ==> (id, events[id]) in r
    ensures forall i, j :: 0 <= i < j < |r| ==> r[i].0 != r[j].0 && r[i].1.date <= r[j].1.date
  {
    SortBy(events, DateOf)
  }

  /** GET /:id: the stored event, or 404. */
  function GetEvent(events: map<Id, Event>, id: Id): (r: Result<Event, HttpError>)
    ensures r.Success? <==> id in events
    ensures r.Success? ==> r.value == events[id]
    ensures r.Failure? ==> r.error == NotFound
  {
    if id in events then Success(events[id]) else Failure(NotFound)
  }

  /** The guard of POST /: all four fields truthy (so a price of 0 is refused). */
  predicate Complete(req: EventRequest) {
    TruthyString(req.name) && TruthyString(req.venue) && req.date.Some? && TruthyNumber(req.price)
  }

  /** The fields POST / hands to `Event.create`. */
  function CreateFields(req: EventRequest, caller: Caller): EventFields {
    EventFields(req.name, req.venue, req.date, req.price, Some(caller.id))
  }

  /** POST /: the event a create request stores, or why it is refused. */
  function NewEvent(caller: Option<Caller>, req: EventRequest, createdAt: nat): (r: Result<Event, HttpError>)
    ensures Admin(caller).Failure? ==> r == Failure(Admin(caller).error)
    ensures Admin(caller).Success? && !Complete(req) ==> r == Failure(BadRequest)
    ensures r.Success? <==> caller.Some? && caller.value.isAdmin && Complete(req)
    ensures r.Success? ==>
      && Conforms(r.value)
      && r.value == Event(req.name.value, req.venue.value, req.date.value, req.price.value, caller.value.id, createdAt)
  {
    match Admin(caller)
    case Failure(e) => Failure(e)
    case Success(admin) =>
      if !Complete(req) then Failure(BadRequest)
      else Success(EventModel.Create(CreateFields(req, admin), createdAt).value)
  }

  /** PUT /:id: the updated event, or why the update is refused. */
  function EventUpdate(caller: Option<Caller>, events: map<Id, Event>, id: Id, body: EventFields): (r: Result<Event, HttpError>)
    ensures Admin(caller).Failure? ==> r == Failure(Admin(caller).error)
    ensures Admin(caller).Success? && id !in events ==> r == Failure(NotFound)
    ensures r.Success? <==> caller.Some? && caller.value.isAdmin && id in events
    ensures r.Success? ==> r.value == Patch(events[id], body)
  {
    match Admin(caller)
    case Failure(e) => Failure(e)
    case Success(_) =>
      if id !in events then Failure(NotFound) else Success(Patch(events[id], body))
  }

  /** The confirmation DELETE /:id answers with. */
  const Removed: string := "Event removed"

  /** DELETE /:id: the confirmation, or why the deletion is refused. */
  function EventRemoval(caller: Option<Caller>, events: map<Id, Event>, id: Id): (r: Result<string, HttpError>)
    ensures Admin(caller).Failure? ==> r == Failure(Admin(caller).error)
    ensures Admin(caller).Success? && id !in events ==> r == Failure(NotFound)
    ensures r.Success? <==> caller.Some? && caller.value.isAdmin && id in events
    ensures r.Success? ==> r.value == Removed
  {
    match Admin(caller)
    case Failure(e) => Failure(e)
    case Success(_) => if id !in events then Failure(NotFound) else Success(Removed)
  }

  /** POST /: store a new event with a fresh id, or change nothing. */
  method CreateEvent(db: Db, caller: Option<Caller>, req: EventRequest) returns (r: Result<(Id, Event), HttpError>)
    requires db.Valid()
    modifies db
    ensures db.Valid()
    ensures var d := NewEvent(caller, req, old(db.clock));
      if d.Failure? then r == Failure(d.error) && unchanged(db)
      else
        var id := old(db.nextId);
        && r == Success((id, d.value))
        && id !in old(db.events)
        && db.events == old(db.events)[id := d.value]
        && db.bookings == old(db.bookings) && db.unitPrice == old(db.unitPrice)
        && db.nextId == id + 1 && db.clock == old(db.clock) + 1
  {
    var gate := Admin(caller);
    if gate.Failure? {
      return Failure(gate.error);
    }
    if !Complete(req) {
      return Failure(BadRequest);
    }
    var event := EventModel.Create(CreateFields(req, gate.value), db.clock).value;
    var id := db.nextId;
    db.events := db.events[id := event];
    db.nextId, db.clock := db.nextId + 1, db.clock + 1;
    r := Success((id, event));
  }

  /** PUT /:id: overwrite the supplied fields of one stored event, or change nothing. */
  method UpdateEvent(db: Db, caller: Option<Caller>, id: Id, body: EventFields) returns (r: Result<Event, HttpError>)
    requires db.Valid()
    modifies db
    ensures db.Valid()
    ensures r == EventUpdate(caller, old(db.events), id, body)
    ensures r.Failure? ==> unchanged(db)
    ensures r.Success? ==>
      && db.events == old(db.events)[id := r.value]
      && db.bookings == old(db.bookings) && db.unitPrice == old(db.unitPrice)
      && db.nextId == old(db.nextId) && db.clock == old(db.clock)
  {
    var gate := Admin(caller);
    if gate.Failure? {
      return Failure(gate.error);
    }
    if id !in db.events {
      return Failure(NotFound);
    }
    var updated := Patch(db.events[id], body);
    db.events := db.events[id := updated];
    r := Success(updated);
  }

  /** DELETE /:id: remove one stored event, leaving the bookings alone, or change nothing. */
  method DeleteEvent(db: Db, caller: Option<Caller>, id: Id) returns (r: Result<string, HttpError>)
    requires db.Valid()
    modifies db
    ensures db.Valid()
    ensures r == EventRemoval(caller, old(db.events), id)
    ensures r.Failure? ==> unchanged(db)
    ensures r.Success? ==>
      && db.events == old(db.events) - {id}
      && db.bookings == old(db.bookings) && db.unitPrice == old(db.unitPrice)
      && db.nextId == old(db.nextId) && db.clock == old(db.clock)
  {
    var gate := Admin(caller);
    if gate.Failure? {
      return Failure(gate.error);
    }
    if id !in db.events {
      return Failure(NotFound);
    }
    db.events := db.events - {id};
    r := Success(Removed);
  }

  /** A created event shows up in the listing, which grows by exactly one. */
  lemma CreatedEventListed(events: map<Id, Event>, id: Id, e: Event)
    requires id !in events
    ensures |ListEvents(events[id := e])| == |ListEvents(events)| + 1
    ensures (id, e) in ListEvents(events[id := e])
  {
    var m := events[id := e];
    assert m.Keys == events.Keys + {id};
    assert |m| == |events| + 1;
    assert id in m && m[id] == e;
  }

  /** A deleted event no longer shows up in the listing or under its id. */
  lemma DeletedEventUnlisted(events: map<Id, Event>, id: Id)
    requires id in events
    ensures |ListEvents(events - {id})| == |ListEvents(events)| - 1
    ensures forall i :: 0 <= i < |ListEvents(events - {id})| ==> ListEvents(events - {id})[i].0 != id
    ensures GetEvent(events - {id}, id) == Failure(NotFound)
  {
  }
}
