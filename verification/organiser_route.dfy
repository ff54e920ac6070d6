/** The organiser routes: the home page, registration, settings, the event
    lifecycle (create as Draft, edit, publish, delete with its tickets and
    bookings) and ticket administration. Each POST handler is a method over the
    database; the organiser in the session is a parameter, and so are "today"
    and "now". Redirects and rendered error pages are not modelled: a handler
    either changes the tables as stated or leaves them alone. */
module OrganiserRoute {
  import opened Schema
  import opened Sql
  import opened Database

  // ---------------------------------------------------------------------------
  // Conditions and assignments of the statements the handlers issue

  function HasStatus(status: Status): Event -> bool
  {
    (e: Event) => e.status == status
  }

  function OwnedBy(organiserId: int): Event -> bool
  {
    (e: Event) => e.organiserId == organiserId
  }

  function EventIn(eventIds: seq<int>): Ticket -> bool
  {
    (t: Ticket) => t.eventId in eventIds
  }

  function WithId(eventId: int): Event -> bool
  {
    (e: Event) => e.id == eventId
  }

  function WithoutId(eventId: int): Event -> bool
  {
    (e: Event) => e.id != eventId
  }

  function OwnedWithId(eventId: int, organiserId: int): Event -> bool
  {
    (e: Event) => e.id == eventId && e.organiserId == organiserId
  }

  function TicketNotOfEvent(eventId: int): Ticket -> bool
  {
    (t: Ticket) => t.eventId != eventId
  }

  function BookingNotOfEvent(eventId: int): Booking -> bool
  {
    (b: Booking) => b.eventId != eventId
  }

  function TicketOfEventWithId(ticketId: int, eventId: int): Ticket -> bool
  {
    (t: Ticket) => t.id == ticketId && t.eventId == eventId
  }

  function TicketWithoutId(ticketId: int): Ticket -> bool
  {
    (t: Ticket) => t.id != ticketId
  }

  function OwnsSettings(organiserId: int): Settings -> bool
  {
    (s: Settings) => s.organiserId == organiserId
  }

  /** `SET status = "Publish", published_date = ?` */
  function MarkPublished(today: int): Event -> Event
  {
    (e: Event) => e.(status := Publish, publishedDate := Some(today))
  }

  /** `SET title = ?, desc = ?, last_modified = ?, date = ?` */
  function Edited(title: string, desc: string, now: int, date: int): Event -> Event
  {
    (e: Event) => e.(title := title, desc := desc, lastModified := Some(now), date := date)
  }

  /** `SET type = ?, amount = ?, price = ?` */
  function Retyped(category: Category, amount: int, price: int): Ticket -> Ticket
  {
    (t: Ticket) => t.(category := category, amount := amount, price := price)
  }

  /** `SET name = ?, desc = ?` */
  function Renamed(name: string, desc: string): Settings -> Settings
  {
    (s: Settings) => s.(name := name, desc := desc)
  }

  // ---------------------------------------------------------------------------
  // GET /home

  /** `events.filter(e => e.status === 'Publish')` */
  function PublishedEvents(events: seq<Event>): (r: seq<Event>)
    ensures forall e :: e in r <==> e in events && e.status == Publish
  {
    Where(events, HasStatus(Publish))
  }

  /** `events.filter(e => e.status === 'Draft')` */
  function DraftEvents(events: seq<Event>): (r: seq<Event>)
    ensures forall e :: e in r <==> e in events && e.status == Draft
  {
    Where(events, HasStatus(Draft))
  }

  /** `events.map(e => e.id)` */
  function EventIds(events: seq<Event>): (r: seq<int>)
    ensures forall id :: id in r <==> exists e :: e in events && e.id == id
  {
    if events == [] then [] else [events[0].id] + EventIds(events[1..])
  }

  /** The two lists split the organiser's events: every event is in exactly one,
      as often as it occurs in the fetched rows. */
  lemma StatusPartition(events: seq<Event>)
    ensures multiset(PublishedEvents(events)) + multiset(DraftEvents(events)) == multiset(events)
    ensures |PublishedEvents(events)| + |DraftEvents(events)| == |events|
  {
    var p, d := PublishedEvents(events), DraftEvents(events);
    WhereMultiset(events, HasStatus(Publish));
    WhereMultiset(events, HasStatus(Draft));
    assert forall e :: (multiset(p) + multiset(d))[e] == multiset(events)[e];
    assert multiset(p) + multiset(d) == multiset(events);
    assert |multiset(p) + multiset(d)| == |multiset(events)|;
  }

  /** The `ticketMap` loop of the home page: each fetched ticket is pushed onto
      the list of its own event id, created on first use. */
  method GroupByEvent(tickets: seq<Ticket>) returns (ticketMap: map<int, seq<Ticket>>)
    ensures forall e :: e in ticketMap <==> TicketsOfEvent(tickets, e) != []
    ensures forall e :: e in ticketMap ==> ticketMap[e] == TicketsOfEvent(tickets, e)
  {
    ticketMap := map[];
    var i := 0;
    while i < |tickets|
      invariant 0 <= i <= |tickets|
      invariant forall e :: e in ticketMap <==> TicketsOfEvent(tickets[..i], e) != []
      invariant forall e :: e in ticketMap ==> ticketMap[e] == TicketsOfEvent(tickets[..i], e)
    {
      var t := tickets[i];
      assert tickets[..i + 1] == tickets[..i] + [t];
      TicketsOfEventSnoc(tickets[..i], t);
      var bucket := if t.eventId in ticketMap then ticketMap[t.eventId] else [];
      ticketMap := ticketMap[t.eventId := bucket + [t]];
      i := i + 1;
    }
    assert tickets[..i] == tickets;
  }

  /** Appending one ticket extends the bucket of its own event and no other. */
  lemma TicketsOfEventSnoc(tickets: seq<Ticket>, t: Ticket)
    ensures forall e :: TicketsOfEvent(tickets + [t], e)
                        == TicketsOfEvent(tickets, e) + (if t.eventId == e then [t] else [])
  {
    forall e
      ensures TicketsOfEvent(tickets + [t], e)
              == TicketsOfEvent(tickets, e) + (if t.eventId == e then [t] else [])
    {
      WhereAppend(tickets, t, OfEvent(e));
    }
  }

  /** Sum of the bucket sizes over a list of event ids. */
  function BucketSizes(tickets: seq<Ticket>, eventIds: seq<int>): nat
  {
    if eventIds == [] then 0
    else |TicketsOfEvent(tickets, eventIds[0])| + BucketSizes(tickets, eventIds[1..])
  }

  lemma {:induction false} BucketSizesCons(t: Ticket, tickets: seq<Ticket>, eventIds: seq<int>)
    requires forall i, j :: 0 <= i < j < |eventIds| ==> eventIds[i] != eventIds[j]
    ensures BucketSizes([t] + tickets, eventIds)
            == BucketSizes(tickets, eventIds) + (if t.eventId in eventIds then 1 else 0)
  {
    if eventIds != [] {
      assert ([t] + tickets)[1..] == tickets;
      BucketSizesCons(t, tickets, eventIds[1..]);
      assert t.eventId in eventIds[1..] ==> t.eventId != eventIds[0];
      assert t.eventId in eventIds <==> t.eventId == eventIds[0] || t.eventId in eventIds[1..];
    }
  }

  /** The grouping loses and duplicates nothing: over the distinct event ids of
      the fetched tickets the bucket sizes add up to the number of tickets. */
  lemma {:induction false} BucketsCoverAllTickets(tickets: seq<Ticket>, eventIds: seq<int>)
    requires forall i, j :: 0 <= i < j < |eventIds| ==> eventIds[i] != eventIds[j]
    requires forall t :: t in tickets ==> t.eventId in eventIds
    ensures BucketSizes(tickets, eventIds) == |tickets|
  {
    if tickets == [] {
      BucketSizesEmpty(eventIds);
    } else {
      assert tickets == [tickets[0]] + tickets[1..];
      BucketsCoverAllTickets(tickets[1..], eventIds);
      BucketSizesCons(tickets[0], tickets[1..], eventIds);
    }
  }

  lemma {:induction false} BucketSizesEmpty(eventIds: seq<int>)
    ensures BucketSizes([], eventIds) == 0
  {
    if eventIds != [] {
      BucketSizesEmpty(eventIds[1..]);
    }
  }

  datatype HomePage = HomePage(
    organiserName: string,
    organiserDesc: string,
    publishedEvent: seq<Event>,
    draftEvent: seq<Event>,
    ticketMap: map<int, seq<Ticket>>)

  /** Description shown when the settings row has an empty one. */
  const DefaultPageDesc := "My Event Page"

  /** GET /home: the organiser's settings, their events split by status, and
      the tickets of those events grouped by event id. None is the 404 page
      for an organiser without a settings row. */
  method OrganiserHome(db: Db, organiserId: int) returns (page: Option<HomePage>)
    ensures page.None? <==> SettingsOf(db.settings, organiserId).None?
    ensures page.Some? ==>
      var s := SettingsOf(db.settings, organiserId).value;
      var mine := Where(db.events, OwnedBy(organiserId));
      && page.value.organiserName == s.name
      && page.value.organiserDesc == (if s.desc == "" then DefaultPageDesc else s.desc)
      && page.value.publishedEvent == PublishedEvents(mine)
      && page.value.draftEvent == DraftEvents(mine)
      && (forall e :: e in page.value.ticketMap <==> e in EventIds(mine) && TicketsOfEvent(db.tickets, e) != [])
      && (forall e :: e in page.value.ticketMap ==> page.value.ticketMap[e] == TicketsOfEvent(db.tickets, e))
  {
    var row := SettingsOf(db.settings, organiserId);
    if row.None? {
      return None;
    }
    var s := row.value;
    var desc := if s.desc == "" then DefaultPageDesc else s.desc;
    var events := Where(db.events, OwnedBy(organiserId));
    var publishedEvent := PublishedEvents(events);
    var draftEvent := DraftEvents(events);
    var eventIds := EventIds(events);
    if |eventIds| == 0 {
      return Some(HomePage(s.name, desc, [], [], map[]));
    }
    var tickets := Where(db.tickets, EventIn(eventIds));
    var ticketMap := GroupByEvent(tickets);
    forall e
      ensures TicketsOfEvent(tickets, e) == if e in eventIds then TicketsOfEvent(db.tickets, e) else []
    {
      if e in eventIds {
        WhereNarrow(db.tickets, EventIn(eventIds), OfEvent(e));
      } else {
        WhereNone(tickets, OfEvent(e));
      }
    }
    page := Some(HomePage(s.name, desc, publishedEvent, draftEvent, ticketMap));
  }

  // ---------------------------------------------------------------------------
  // POST /register and POST /settings

  /** `SELECT * FROM organiser WHERE username = ?` finds a row. */
  predicate UsernameTaken(organisers: seq<Organiser>, username: string)
  {
    exists o :: o in organisers && o.username == username
  }

  /** Name and description of the settings row created at registration. */
  const DefaultSettingsDesc := "My Event"

  /** POST /register. A taken username changes nothing; otherwise one organiser
      row and its default settings row (name = username) are inserted.
      `passwordHash` stands for the bcrypt hash of the submitted password. */
  method Register(db: Db, username: string, passwordHash: string) returns (registered: bool)
    requires db.Valid()
    modifies db`organisers, db`settings, db`nextOrganiserId
    ensures db.Valid()
    ensures registered <==> !UsernameTaken(old(db.organisers), username)
    ensures !registered ==>
      db.organisers == old(db.organisers) && db.settings == old(db.settings)
      && db.nextOrganiserId == old(db.nextOrganiserId)
    ensures registered ==>
      var id := old(db.nextOrganiserId);
      && db.organisers == old(db.organisers) + [Organiser(id, username, passwordHash)]
      && db.settings == old(db.settings) + [Settings(id, username, DefaultSettingsDesc)]
      && db.nextOrganiserId == id + 1
  {
    if UsernameTaken(db.organisers, username) {
      return false;
    }
    var id := db.nextOrganiserId;
    var o := Organiser(id, username, passwordHash);
    AppendFresh(db.organisers, o, OrganiserId, id);
    AppendKeepsDistinct(db.organisers, o, Username);
    db.organisers := db.organisers + [o];
    db.nextOrganiserId := id + 1;
    var s := Settings(id, username, DefaultSettingsDesc);
    AppendFresh(db.settings, s, SettingsOwner, id);
    db.settings := db.settings + [s];
    registered := true;
  }

  /** POST /settings: the organiser's settings row gets the submitted name and description. */
  method UpdateSettings(db: Db, organiserId: int, name: string, desc: string)
    requires db.Valid()
    modifies db`settings
    ensures db.Valid()
    ensures db.settings == UpdateWhere(old(db.settings), OwnsSettings(organiserId), Renamed(name, desc))
  {
    UpdateWhereKeepsKeys(db.settings, OwnsSettings(organiserId), Renamed(name, desc), SettingsOwner, db.nextOrganiserId);
    db.settings := UpdateWhere(db.settings, OwnsSettings(organiserId), Renamed(name, desc));
  }

  // ---------------------------------------------------------------------------
  // Event lifecycle

  /** POST /create: one event row, in Draft, owned by the session organiser. */
  method CreateEvent(db: Db, organiserId: int, title: string, content: string, date: int) returns (eventId: int)
    requires db.Valid()
    modifies db`events, db`nextEventId
    ensures db.Valid()
    ensures eventId == old(db.nextEventId) && db.nextEventId == eventId + 1
    ensures forall e :: e in old(db.events) ==> e.id != eventId
    ensures db.events == old(db.events) + [Event(eventId, title, content, organiserId, Draft, date, None, None, 0)]
  {
    eventId := db.nextEventId;
    var e := Event(eventId, title, content, organiserId, Draft, date, None, None, 0);
    AppendFresh(db.events, e, EventId, eventId);
    db.events := db.events + [e];
    db.nextEventId := eventId + 1;
  }

  datatype EchoedEvent = EchoedEvent(id: int, title: string, desc: string)

  /** Updated, or the edit page re-rendered with the error, the submitted title
      and description, and the event's (empty) ticket list. */
  datatype EditOutcome = Updated | Rejected(error: string, event: EchoedEvent, ticketType: seq<Ticket>)

  const NoTicketsError := "Cannot update event without tickets"

  /** POST /edit/:id. An event with no ticket rows is left alone and the form
      is echoed back; otherwise the event row's title, description, date and
      last-modified time are overwritten. */
  method EditEvent(db: Db, eventId: int, title: string, content: string, date: int, now: int)
    returns (outcome: EditOutcome)
    requires db.Valid()
    modifies db`events
    ensures db.Valid()
    ensures outcome.Rejected? <==> TicketCount(db.tickets, eventId) == 0
    ensures outcome.Rejected? ==>
      db.events == old(db.events)
      && outcome == Rejected(NoTicketsError, EchoedEvent(eventId, title, content), [])
    ensures outcome.Updated? ==>
      db.events == UpdateWhere(old(db.events), WithId(eventId), Edited(title, content, now, date))
  {
    if TicketCount(db.tickets, eventId) == 0 {
      var ticketType := TicketsOfEvent(db.tickets, eventId);
      return Rejected(NoTicketsError, EchoedEvent(eventId, title, content), ticketType);
    }
    UpdateWhereKeepsKeys(db.events, WithId(eventId), Edited(title, content, now, date), EventId, db.nextEventId);
    db.events := UpdateWhere(db.events, WithId(eventId), Edited(title, content, now, date));
    outcome := Updated;
  }

  /** An accepted edit changes only the event with that id, and only its title,
      description, date and last-modified time. */
  lemma EditChangesOnlyThatEvent(events: seq<Event>, eventId: int, title: string, desc: string, now: int, date: int, i: int)
    requires 0 <= i < |events|
    ensures var after := UpdateWhere(events, WithId(eventId), Edited(title, desc, now, date))[i];
      && after.id == events[i].id && after.organiserId == events[i].organiserId
      && after.status == events[i].status && after.views == events[i].views
      && after.publishedDate == events[i].publishedDate
      && (events[i].id == eventId ==>
            after.title == title && after.desc == desc && after.date == date && after.lastModified == Some(now))
      && (events[i].id != eventId ==> after == events[i])
  {
  }

  /** POST /publish/:id: status Publish and today's published date on the row
      whose id and owner both match; nothing else changes, and the number of
      ticket types is not consulted. */
  method PublishEvent(db: Db, eventId: int, organiserId: int, today: int)
    requires db.Valid()
    modifies db`events
    ensures db.Valid()
    ensures db.events == UpdateWhere(old(db.events), OwnedWithId(eventId, organiserId), MarkPublished(today))
  {
    UpdateWhereKeepsKeys(db.events, OwnedWithId(eventId, organiserId), MarkPublished(today), EventId, db.nextEventId);
    db.events := UpdateWhere(db.events, OwnedWithId(eventId, organiserId), MarkPublished(today));
  }

  /** Publishing affects exactly the owner's row with that id. */
  lemma PublishScoped(events: seq<Event>, eventId: int, organiserId: int, today: int, i: int)
    requires 0 <= i < |events|
    ensures var after := UpdateWhere(events, OwnedWithId(eventId, organiserId), MarkPublished(today))[i];
      if events[i].id == eventId && events[i].organiserId == organiserId
      then after == events[i].(status := Publish, publishedDate := Some(today))
      else after == events[i]
  {
  }

  /** Publishing twice on the same day is the same as publishing once. */
  lemma PublishIdempotent(events: seq<Event>, eventId: int, organiserId: int, today: int)
    ensures var once := UpdateWhere(events, OwnedWithId(eventId, organiserId), MarkPublished(today));
      UpdateWhere(once, OwnedWithId(eventId, organiserId), MarkPublished(today)) == once
  {
    var once := UpdateWhere(events, OwnedWithId(eventId, organiserId), MarkPublished(today));
    var twice := UpdateWhere(once, OwnedWithId(eventId, organiserId), MarkPublished(today));
    assert forall i :: 0 <= i < |once| ==> twice[i] == once[i];
  }

  /** No handler turns a published event back into a draft: publishing keeps
      every published row published. */
  lemma PublishNeverUnpublishes(events: seq<Event>, eventId: int, organiserId: int, today: int, i: int)
    requires 0 <= i < |events| && events[i].status == Publish
    ensures UpdateWhere(events, OwnedWithId(eventId, organiserId), MarkPublished(today))[i].status == Publish
  {
  }

  /** POST /delete/:id: the event's ticket rows, then its booking rows, then the
      event row itself are deleted. The owner is not checked. */
  method DeleteEvent(db: Db, eventId: int)
    requires db.Valid()
    modifies db`tickets, db`bookings, db`events
    ensures db.Valid()
    ensures db.tickets == Where(old(db.tickets), TicketNotOfEvent(eventId))
    ensures db.bookings == Where(old(db.bookings), BookingNotOfEvent(eventId))
    ensures db.events == Where(old(db.events), WithoutId(eventId))
  {
    WhereKeepsDistinct(db.tickets, TicketNotOfEvent(eventId), TicketId);
    WhereKeepsBelow(db.tickets, TicketNotOfEvent(eventId), TicketId, db.nextTicketId);
    db.tickets := Where(db.tickets, TicketNotOfEvent(eventId));
    WhereKeepsDistinct(db.bookings, BookingNotOfEvent(eventId), BookingId);
    WhereKeepsBelow(db.bookings, BookingNotOfEvent(eventId), BookingId, db.nextBookingId);
    db.bookings := Where(db.bookings, BookingNotOfEvent(eventId));
    WhereKeepsDistinct(db.events, WithoutId(eventId), EventId);
    WhereKeepsBelow(db.events, WithoutId(eventId), EventId, db.nextEventId);
    db.events := Where(db.events, WithoutId(eventId));
  }

  /** After the cascade nothing refers to the deleted event, and the rows of
      every other event are all still there. */
  lemma DeleteCascade(tickets: seq<Ticket>, bookings: seq<Booking>, events: seq<Event>, eventId: int)
    ensures TicketsOfEvent(Where(tickets, TicketNotOfEvent(eventId)), eventId) == []
    ensures forall b :: b in Where(bookings, BookingNotOfEvent(eventId)) ==> b.eventId != eventId
    ensures forall e :: e in Where(events, WithoutId(eventId)) ==> e.id != eventId
    ensures forall other :: other != eventId ==>
      TicketsOfEvent(Where(tickets, TicketNotOfEvent(eventId)), other) == TicketsOfEvent(tickets, other)
    ensures forall b :: b in bookings && b.eventId != eventId ==> b in Where(bookings, BookingNotOfEvent(eventId))
    ensures forall e :: e in events && e.id != eventId ==> e in Where(events, WithoutId(eventId))
  {
    var left := Where(tickets, TicketNotOfEvent(eventId));
    WhereNone(left, OfEvent(eventId));
    forall other | other != eventId
      ensures TicketsOfEvent(left, other) == TicketsOfEvent(tickets, other)
    {
      WhereNarrow(tickets, TicketNotOfEvent(eventId), OfEvent(other));
    }
  }

  // ---------------------------------------------------------------------------
  // Ticket administration

  /** POST /ticket/:id: one ticket row for the event. Neither the event nor the
      uniqueness of the category is checked here; only the form restricts the
      categories offered. */
  method AddTicket(db: Db, eventId: int, category: Category, number: int, price: int) returns (ticketId: int)
    requires db.Valid()
    modifies db`tickets, db`nextTicketId
    ensures db.Valid()
    ensures ticketId == old(db.nextTicketId) && db.nextTicketId == ticketId + 1
    ensures db.tickets == old(db.tickets) + [Ticket(ticketId, eventId, category, price, number)]
  {
    ticketId := db.nextTicketId;
    var t := Ticket(ticketId, eventId, category, price, number);
    AppendFresh(db.tickets, t, TicketId, ticketId);
    db.tickets := db.tickets + [t];
    db.nextTicketId := ticketId + 1;
  }

  /** POST /editTicket/:id/:ticketId: type, amount and price of the row whose
      ticket id and event id both match. */
  method EditTicket(db: Db, eventId: int, ticketId: int, category: Category, number: int, price: int)
    requires db.Valid()
    modifies db`tickets
    ensures db.Valid()
    ensures db.tickets == UpdateWhere(old(db.tickets), TicketOfEventWithId(ticketId, eventId), Retyped(category, number, price))
  {
    UpdateWhereKeepsKeys(db.tickets, TicketOfEventWithId(ticketId, eventId), Retyped(category, number, price), TicketId, db.nextTicketId);
    db.tickets := UpdateWhere(db.tickets, TicketOfEventWithId(ticketId, eventId), Retyped(category, number, price));
  }

  /** POST /deleteTicket/:id/:ticketId: the row with that ticket id, whatever its event. */
  method DeleteTicket(db: Db, eventId: int, ticketId: int)
    requires db.Valid()
    modifies db`tickets
    ensures db.Valid()
    ensures db.tickets == Where(old(db.tickets), TicketWithoutId(ticketId))
  {
    WhereKeepsDistinct(db.tickets, TicketWithoutId(ticketId), TicketId);
    WhereKeepsBelow(db.tickets, TicketWithoutId(ticketId), TicketId, db.nextTicketId);
    db.tickets := Where(db.tickets, TicketWithoutId(ticketId));
  }

  /** The categories offered by the ticket form: those of AllCategories that no
      existing ticket of the event uses, in the order of AllCategories. */
  function RemainingCategories(used: seq<Category>): (r: seq<Category>)
    ensures forall c :: c in r <==> c !in used
    ensures forall i, j :: 0 <= i < j < |r| ==> Rank(r[i]) < Rank(r[j])
  {
    var unused := (c: Category) => c !in used;
    AllCategoriesListsEachOnce();
    assert forall i, j :: 0 <= i < j < |AllCategories| ==> Rank(AllCategories[i]) < Rank(AllCategories[j]);
    WhereKeepsOrder(AllCategories, unused, Rank);
    Where(AllCategories, unused)
  }

  /** With no tickets yet all three categories are offered, in order. */
  lemma NoTicketsOffersAll()
    ensures RemainingCategories([]) == AllCategories
  {
    var r := RemainingCategories([]);
    assert NonConcession in r && Concession in r && Student in r;
  }

  /** GET /ticket/:id: the types of the event's ticket rows are collected into
      `ticketArr`, and the form offers the remaining categories. */
  method TicketForm(db: Db, eventId: int) returns (filteredTypes: seq<Category>)
    ensures forall c :: c in filteredTypes <==> forall t :: t in db.tickets && t.eventId == eventId ==> t.category != c
    ensures forall i, j :: 0 <= i < j < |filteredTypes| ==> Rank(filteredTypes[i]) < Rank(filteredTypes[j])
  {
    var ticketType := TicketsOfEvent(db.tickets, eventId);
    var ticketArr: seq<Category> := [];
    var i := 0;
    while i < |ticketType|
      invariant 0 <= i <= |ticketType|
      invariant |ticketArr| == i
      invariant forall k :: 0 <= k < i ==> ticketArr[k] == ticketType[k].category
    {
      ticketArr := ticketArr + [ticketType[i].category];
      i := i + 1;
    }
    filteredTypes := RemainingCategories(ticketArr);
    forall c
      ensures c in ticketArr <==> exists t :: t in db.tickets && t.eventId == eventId && t.category == c
    {
      if c in ticketArr {
        var k :| 0 <= k < |ticketArr| && ticketArr[k] == c;
        assert ticketType[k] in ticketType;
      }
      if t :| t in db.tickets && t.eventId == eventId && t.category == c {
        assert t in ticketType;
        var k :| 0 <= k < |ticketType| && ticketType[k] == t;
        assert ticketArr[k] == c;
      }
    }
  }
}
