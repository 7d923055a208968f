/**
 * The two collections the handlers read and change, as one mutable object.
 * Ids come from `nextId` and `createdAt` from `clock`; both only grow.
 */
module Store {
  import opened Mongo
  import opened EventModel
  import opened BookingModel

  class Db {
    var events: map<Id, Event>
    var bookings: map<Id, Booking>
    var nextId: nat
    var clock: nat
    /** The event's unit price at the moment each booking was created. */
    ghost var unitPrice: map<Id, int>

    /**
     * Stored ids and timestamps were all issued before the counters' current
     * values; no two bookings share a creation time; every booking's total is
     * its unit-price snapshot times its quantity.
     */
    ghost predicate Valid()
      reads this
    {
      && (forall id :: id in events ==> id < nextId && events[id].createdAt < clock)
      && (forall id :: id in bookings ==> id < nextId && bookings[id].createdAt < clock)
      && (forall i, j :: i in bookings && j in bookings && i != j ==> bookings[i].createdAt != bookings[j].createdAt)
      && unitPrice.Keys == bookings.Keys
      && (forall id :: id in bookings ==> bookings[id].totalPrice == unitPrice[id] * bookings[id].quantity)
    }

    /** An empty database. */
    constructor ()
      ensures Valid()
      ensures events == map[] && bookings == map[]
    {
      events, bookings := map[], map[];
      nextId, clock := 0, 0;
      unitPrice := map[];
    }
  }
}
