/**
 * The event schema: the stored record, its required fields, and what
 * `Event.create` does with the fields it is given.
 */
module EventModel {
  import opened Wrappers
  import opened Mongo

  /** An instant, as milliseconds since the epoch. */
  type Date = int

  /** A stored event. `price` is an integer amount (e.g. cents). */
  datatype Event = Event(
    name: string,
    venue: string,
    date: Date,
    price: int,
    createdBy: Id,
    createdAt: nat)

  /** The fields handed to `Event.create` or to an update; `None` is a field left undefined. */
  datatype EventFields = EventFields(
    name: Option<string>,
    venue: Option<string>,
    date: Option<Date>,
    price: Option<int>,
    createdBy: Option<Id>)

  /**
   * What the schema's required validators demand of a record: the two string
   * fields are non-empty (a required string rejects ""); the other fields
   * are present by construction.
   */
  predicate Conforms(e: Event) {
    e.name != "" && e.venue != ""
  }

  /** `Event.create`: every field is required; the record gets `createdAt`. */
  function Create(f: EventFields, createdAt: nat): (r: Result<Event, ValidationError>)
    ensures r.Success? <==>
      f.name.Some? && f.name.value != "" && f.venue.Some? && f.venue.value != "" &&
      f.date.Some? && f.price.Some? && f.createdBy.Some?
    ensures r.Success? ==>
      && Conforms(r.value)
      && r.value == Event(f.name.value, f.venue.value, f.date.value, f.price.value, f.createdBy.value, createdAt)
  {
    if f.name.None? || f.name.value == "" then Failure(ValidationError)
    else if f.venue.None? || f.venue.value == "" then Failure(ValidationError)
    else if f.date.None? || f.price.None? || f.createdBy.None? then Failure(ValidationError)
    else Success(Event(f.name.value, f.venue.value, f.date.value, f.price.value, f.createdBy.value, createdAt))
  }

  /**
   * `findByIdAndUpdate(id, body)`: the supplied fields overwrite the stored
   * ones and nothing else changes; no validator runs.
   */
  function Patch(e: Event, f: EventFields): (r: Event)
    ensures r.name == (if f.name.Some? then f.name.value else e.name)
    ensures r.venue == (if f.venue.Some? then f.venue.value else e.venue)
    ensures r.date == (if f.date.Some? then f.date.value else e.date)
    ensures r.price == (if f.price.Some? then f.price.value else e.price)
    ensures r.createdBy == (if f.createdBy.Some? then f.createdBy.value else e.createdBy)
    ensures r.createdAt == e.createdAt
  {
    Event(
      if f.name.Some? then f.name.value else e.name,
      if f.venue.Some? then f.venue.value else e.venue,
      if f.date.Some? then f.date.value else e.date,
      if f.price.Some? then f.price.value else e.price,
      if f.createdBy.Some? then f.createdBy.value else e.createdBy,
      e.createdAt)
  }

  /** An update that supplies no field leaves the event as it was. */
  lemma PatchNothing(e: Event)
    ensures Patch(e, EventFields(None, None, None, None, None)) == e
  {
  }

  /** Applying the same update twice is the same as applying it once. */
  lemma PatchIdempotent(e: Event, f: EventFields)
    ensures Patch(Patch(e, f), f) == Patch(e, f)
  {
  }

  /**
   * Because an update runs no validator, it can store a record that
   * `Event.create` would have refused.
   */
  lemma PatchSkipsValidation()
    ensures exists e: Event, f: EventFields :: Conforms(e) && !Conforms(Patch(e, f))
  {
    var e := Event("Concert", "Hall A", 0, 5000, 0, 0);
    var f := EventFields(Some(""), None, None, None, None);
    assert Conforms(e) && !Conforms(Patch(e, f));
  }
}
