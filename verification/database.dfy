/** The application's SQLite database as the handlers see it: five tables and
    the row-id allocator of each table with an integer primary key. */
module Database {
  import opened Schema
  import opened Sql

  class Db {
    var organisers: seq<Organiser>
    var settings: seq<Settings>
    var events: seq<Event>
    var tickets: seq<Ticket>
    var bookings: seq<Booking>

    // The id the next INSERT into each table receives.
    var nextOrganiserId: int
    var nextEventId: int
    var nextTicketId: int
    var nextBookingId: int

    /** Primary keys are distinct and below their allocator, usernames are
        distinct, and each organiser has at most one settings row. */
    ghost predicate Valid()
      reads this
    {
      && DistinctBy(organisers, OrganiserId) && Below(organisers, OrganiserId, nextOrganiserId)
      && DistinctBy(organisers, Username)
      && DistinctBy(settings, SettingsOwner) && Below(settings, SettingsOwner, nextOrganiserId)
      && DistinctBy(events, EventId) && Below(events, EventId, nextEventId)
      && DistinctBy(tickets, TicketId) && Below(tickets, TicketId, nextTicketId)
      && DistinctBy(bookings, BookingId) && Below(bookings, BookingId, nextBookingId)
    }

    /** A fresh database: every table empty, every allocator at 1. */
    constructor ()
      ensures Valid()
      ensures organisers == [] && settings == [] && events == [] && tickets == [] && bookings == []
      ensures nextOrganiserId == 1 && nextEventId == 1 && nextTicketId == 1 && nextBookingId == 1
    {
      organisers, settings, events, tickets, bookings := [], [], [], [], [];
      nextOrganiserId, nextEventId, nextTicketId, nextBookingId := 1, 1, 1, 1;
    }
  }

  /** Condition `event_id = ?` on the ticket table. */
  function OfEvent(eventId: int): Ticket -> bool
  {
    (t: Ticket) => t.eventId == eventId
  }

  /** `SELECT * FROM ticket WHERE event_id = ?`: the tickets of one event, in table order. */
  function TicketsOfEvent(tickets: seq<Ticket>, eventId: int): seq<Ticket>
  {
    Where(tickets, OfEvent(eventId))
  }

  /** `SELECT COUNT(*) FROM ticket WHERE event_id = ?`. */
  function TicketCount(tickets: seq<Ticket>, eventId: int): nat
  {
    |TicketsOfEvent(tickets, eventId)|
  }

  /** `SELECT ... FROM settings WHERE organiser_id = ?` read with `db.get`: the first matching row. */
  function SettingsOf(settings: seq<Settings>, organiserId: int): (r: Option<Settings>)
    ensures r.Some? ==> r.value in settings && r.value.organiserId == organiserId
    ensures r.None? <==> forall s :: s in settings ==> s.organiserId != organiserId
  {
    if settings == [] then None
    else if settings[0].organiserId == organiserId then Some(settings[0])
    else SettingsOf(settings[1..], organiserId)
  }
}
