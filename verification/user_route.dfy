/** The attendee routes: the reservation handler (POST /event/:id), the view
    counter of the event page (GET /event/:id) and the listing of published
    events on the attendee home page (GET /home). */
module UserRoute {
  import opened Schema
  import opened Sql
  import opened Database

  // ---------------------------------------------------------------------------
  // POST /event/:id — reservation

  /** One ticket category of the reservation form: the category, the requested
      `amount`, and `ticket`, the number that was available when the page was
      rendered (sent back in a hidden field). */
  datatype Line = Line(category: Category, amount: int, ticket: int)

  /** The form as the body parser delivers it: no `category` field, one
      category (strings), or several (index-aligned arrays). */
  datatype ReservationForm = NoCategory | Single(line: Line) | Multi(lines: seq<Line>)

  function FormLines(form: ReservationForm): seq<Line>
  {
    match form
    case NoCategory => []
    case Single(l) => [l]
    case Multi(ls) => ls
  }

  function OfEventAndCategory(eventId: int, category: Category): Ticket -> bool
  {
    (t: Ticket) => t.eventId == eventId && t.category == category
  }

  function WithAmount(amount: int): Ticket -> Ticket
  {
    (t: Ticket) => t.(amount := amount)
  }

  /** `UPDATE ticket SET amount = ? WHERE event_id = ? AND type = ?` */
  function SetAmount(tickets: seq<Ticket>, eventId: int, category: Category, amount: int): seq<Ticket>
  {
    UpdateWhere(tickets, OfEventAndCategory(eventId, category), WithAmount(amount))
  }

  /** The ticket table after one update per line, issued in submission order;
      each line stores `ticket - amount`. */
  function ApplyLines(tickets: seq<Ticket>, eventId: int, lines: seq<Line>): (r: seq<Ticket>)
    ensures |r| == |tickets|
    decreases |lines|
  {
    if lines == [] then tickets
    else
      var l := lines[|lines| - 1];
      SetAmount(ApplyLines(tickets, eventId, lines[..|lines| - 1]), eventId, l.category, l.ticket - l.amount)
  }

  /** The last line of a category, if any. */
  function LastLineFor(lines: seq<Line>, category: Category): (r: Option<Line>)
    ensures r.Some? ==> r.value in lines && r.value.category == category
    ensures r.None? <==> forall l :: l in lines ==> l.category != category
  {
    if lines == [] then None
    else if lines[|lines| - 1].category == category then Some(lines[|lines| - 1])
    else
      assert lines == lines[..|lines| - 1] + [lines[|lines| - 1]];
      LastLineFor(lines[..|lines| - 1], category)
  }

  /** What a ticket row becomes, stated per row: a row of the booked event whose
      category has a line takes the rendered count minus the request of the
      last such line; every other row is left as it is. */
  function Reserved(t: Ticket, eventId: int, lines: seq<Line>): Ticket
  {
    if t.eventId != eventId then t
    else match LastLineFor(lines, t.category)
      case None => t
      case Some(l) => t.(amount := l.ticket - l.amount)
  }

  /** The statements issued one after another have the per-row effect of Reserved. */
  lemma {:induction false} ApplyLinesRowwise(tickets: seq<Ticket>, eventId: int, lines: seq<Line>)
    ensures forall k :: 0 <= k < |tickets| ==> ApplyLines(tickets, eventId, lines)[k] == Reserved(tickets[k], eventId, lines)
    decreases |lines|
  {
    if lines != [] {
      var init, l := lines[..|lines| - 1], lines[|lines| - 1];
      ApplyLinesRowwise(tickets, eventId, init);
      assert lines == init + [l];
      forall k | 0 <= k < |tickets|
        ensures ApplyLines(tickets, eventId, lines)[k] == Reserved(tickets[k], eventId, lines)
      {
        var before := ApplyLines(tickets, eventId, init);
        assert before[k] == Reserved(tickets[k], eventId, init);
        assert before[k].eventId == tickets[k].eventId && before[k].category == tickets[k].category;
      }
    }
  }

  /** With distinct categories, every row of the event whose category is
      category[i] ends up with ticket[i] - amount[i]. */
  lemma ReservationSetsEachCategory(tickets: seq<Ticket>, eventId: int, lines: seq<Line>, i: int, k: int)
    requires forall a, b :: 0 <= a < b < |lines| ==> lines[a].category != lines[b].category
    requires 0 <= i < |lines| && 0 <= k < |tickets|
    requires tickets[k].eventId == eventId && tickets[k].category == lines[i].category
    ensures ApplyLines(tickets, eventId, lines)[k] == tickets[k].(amount := lines[i].ticket - lines[i].amount)
  {
    ApplyLinesRowwise(tickets, eventId, lines);
    LastLineOfDistinct(lines, i);
  }

  lemma {:induction false} LastLineOfDistinct(lines: seq<Line>, i: int)
    requires forall a, b :: 0 <= a < b < |lines| ==> lines[a].category != lines[b].category
    requires 0 <= i < |lines|
    ensures LastLineFor(lines, lines[i].category) == Some(lines[i])
    decreases |lines|
  {
    if i < |lines| - 1 {
      var init := lines[..|lines| - 1];
      assert init[i] == lines[i];
      LastLineOfDistinct(init, i);
    }
  }

  /** Rows of other events, and rows of categories the form does not name, are untouched. */
  lemma ReservationLeavesOtherRows(tickets: seq<Ticket>, eventId: int, lines: seq<Line>, k: int)
    requires 0 <= k < |tickets|
    requires tickets[k].eventId != eventId || forall l :: l in lines ==> l.category != tickets[k].category
    ensures ApplyLines(tickets, eventId, lines)[k] == tickets[k]
  {
    ApplyLinesRowwise(tickets, eventId, lines);
  }

  /** The stored amount is computed from the rendered count, not from the live
      row: two tables that differ only in a row's live amount end with the same
      amount in that row once its category has a line. */
  lemma StoredAmountIgnoresLiveCount(tickets: seq<Ticket>, eventId: int, lines: seq<Line>, k: int, live: int)
    requires 0 <= k < |tickets|
    requires tickets[k].eventId == eventId && LastLineFor(lines, tickets[k].category).Some?
    ensures ApplyLines(tickets[k := tickets[k].(amount := live)], eventId, lines)[k]
            == ApplyLines(tickets, eventId, lines)[k]
  {
    ApplyLinesRowwise(tickets, eventId, lines);
    ApplyLinesRowwise(tickets[k := tickets[k].(amount := live)], eventId, lines);
  }

  /** A zero-quantity line still writes the rendered count over the live one. */
  lemma ZeroLineRestoresRenderedCount(tickets: seq<Ticket>, eventId: int, l: Line, k: int)
    requires 0 <= k < |tickets|
    requires l.amount == 0 && tickets[k].eventId == eventId && tickets[k].category == l.category
    ensures ApplyLines(tickets, eventId, [l])[k].amount == l.ticket
  {
    ApplyLinesRowwise(tickets, eventId, [l]);
  }

  /** Nothing floors the stored amount at zero: asking for 5 of 3 rendered
      student tickets leaves -2. */
  lemma NoFloorAtZero()
    ensures ApplyLines([Ticket(1, 7, Student, 10, 3)], 7, [Line(Student, 5, 3)])
            == [Ticket(1, 7, Student, 10, -2)]
  {
    ApplyLinesRowwise([Ticket(1, 7, Student, 10, 3)], 7, [Line(Student, 5, 3)]);
  }

  /** Line counts as booked when its requested amount is non-zero (`amount != 0`). */
  predicate IsBooked(l: Line)
  {
    l.amount != 0
  }

  /** The booking rows the lines insert, in submission order, numbered from `firstId`. */
  function NewBookings(firstId: int, eventId: int, name: string, lines: seq<Line>): seq<Booking>
    decreases |lines|
  {
    if lines == [] then []
    else
      var prev := NewBookings(firstId, eventId, name, lines[..|lines| - 1]);
      var l := lines[|lines| - 1];
      if IsBooked(l) then prev + [Booking(firstId + |prev|, eventId, name, l.category, l.amount)] else prev
  }

  /** Exactly the non-zero lines become bookings, in order, with consecutive ids,
      the event id and the attendee's name. */
  lemma {:induction false} NewBookingsAreBookedLines(firstId: int, eventId: int, name: string, lines: seq<Line>)
    ensures var booked := Where(lines, IsBooked);
      var r := NewBookings(firstId, eventId, name, lines);
      && |r| == |booked|
      && forall j :: 0 <= j < |r| ==>
           r[j] == Booking(firstId + j, eventId, name, booked[j].category, booked[j].amount)
    decreases |lines|
  {
    if lines != [] {
      var init, l := lines[..|lines| - 1], lines[|lines| - 1];
      NewBookingsAreBookedLines(firstId, eventId, name, init);
      assert lines == init + [l];
      WhereAppend(init, l, IsBooked);
    }
  }

  /** A single line is a single UPDATE. */
  lemma OneLine(tickets: seq<Ticket>, eventId: int, l: Line)
    ensures ApplyLines(tickets, eventId, [l]) == SetAmount(tickets, eventId, l.category, l.ticket - l.amount)
  {
    assert [l][..0] == [];
  }

  /** A single line appends one booking when its amount is non-zero and none when it is zero. */
  lemma BookingIffNonZero(firstId: int, eventId: int, name: string, l: Line)
    ensures NewBookings(firstId, eventId, name, [l])
            == if l.amount != 0 then [Booking(firstId, eventId, name, l.category, l.amount)] else []
  {
    assert [l][..0] == [];
  }

  /** A concrete submission: two concession tickets out of 5 rendered, none of
      3 rendered student tickets. Concession drops to 3, student stays at 3,
      and one booking is written. */
  lemma TwoCategoryExample(c: Ticket, s: Ticket)
    requires c.eventId == 4 && c.category == Concession && c.amount == 5
    requires s.eventId == 4 && s.category == Student && s.amount == 3
    ensures var lines := [Line(Concession, 2, 5), Line(Student, 0, 3)];
      && ApplyLines([c, s], 4, lines) == [c.(amount := 3), s]
      && NewBookings(1, 4, "Ann", lines) == [Booking(1, 4, "Ann", Concession, 2)]
  {
    var lines := [Line(Concession, 2, 5), Line(Student, 0, 3)];
    ApplyLinesRowwise([c, s], 4, lines);
    assert lines[..1] == [Line(Concession, 2, 5)] && lines[..1][..0] == [];
  }

  /** `INSERT INTO bookings (event_id, name, type, amount) VALUES (?, ?, ?, ?)` */
  method InsertBooking(db: Db, eventId: int, name: string, category: Category, amount: int)
    requires db.Valid()
    modifies db`bookings, db`nextBookingId
    ensures db.Valid()
    ensures db.bookings == old(db.bookings) + [Booking(old(db.nextBookingId), eventId, name, category, amount)]
    ensures db.nextBookingId == old(db.nextBookingId) + 1
  {
    var b := Booking(db.nextBookingId, eventId, name, category, amount);
    AppendFresh(db.bookings, b, BookingId, db.nextBookingId);
    db.bookings := db.bookings + [b];
    db.nextBookingId := db.nextBookingId + 1;
  }

  /** One ticket UPDATE of the handler. */
  method UpdateAmount(db: Db, eventId: int, category: Category, amount: int)
    requires db.Valid()
    modifies db`tickets
    ensures db.Valid()
    ensures db.tickets == SetAmount(old(db.tickets), eventId, category, amount)
  {
    UpdateWhereKeepsKeys(db.tickets, OfEventAndCategory(eventId, category), WithAmount(amount), TicketId, db.nextTicketId);
    db.tickets := SetAmount(db.tickets, eventId, category, amount);
  }

  /** POST /event/:id. For a single category: one update, then one booking if
      the amount is non-zero. For several: first every update, in order, then
      every booking of a non-zero line, in order. Without a category field the
      handler fails before issuing any statement. No line is checked against
      the live count and nothing is undone. */
  method Reserve(db: Db, eventId: int, name: string, form: ReservationForm)
    requires db.Valid()
    modifies db`tickets, db`bookings, db`nextBookingId
    ensures db.Valid()
    ensures db.tickets == ApplyLines(old(db.tickets), eventId, FormLines(form))
    ensures db.bookings == old(db.bookings) + NewBookings(old(db.nextBookingId), eventId, name, FormLines(form))
    ensures db.nextBookingId == old(db.nextBookingId) + |NewBookings(old(db.nextBookingId), eventId, name, FormLines(form))|
  {
    match form
    case NoCategory =>
    case Single(line) =>
      ReserveOne(db, eventId, name, line);
    case Multi(lines) =>
      UpdateAll(db, eventId, lines);
      InsertAll(db, eventId, name, lines);
  }

  /** The single-category case: one ticket UPDATE, then a booking INSERT when
      the amount is non-zero. */
  method ReserveOne(db: Db, eventId: int, name: string, line: Line)
    requires db.Valid()
    modifies db`tickets, db`bookings, db`nextBookingId
    ensures db.Valid()
    ensures db.tickets == ApplyLines(old(db.tickets), eventId, [line])
    ensures db.bookings == old(db.bookings) + NewBookings(old(db.nextBookingId), eventId, name, [line])
    ensures db.nextBookingId == old(db.nextBookingId) + |NewBookings(old(db.nextBookingId), eventId, name, [line])|
  {
    OneLine(db.tickets, eventId, line);
    BookingIffNonZero(db.nextBookingId, eventId, name, line);
    var remainder := line.ticket - line.amount;
    UpdateAmount(db, eventId, line.category, remainder);
    if line.amount != 0 {
      InsertBooking(db, eventId, name, line.category, line.amount);
    }
  }

  /** The first loop of the several-category case: one ticket UPDATE per line, in order. */
  method UpdateAll(db: Db, eventId: int, lines: seq<Line>)
    requires db.Valid()
    modifies db`tickets
    ensures db.Valid()
    ensures db.tickets == ApplyLines(old(db.tickets), eventId, lines)
  {
    var i := 0;
    while i < |lines|
      invariant 0 <= i <= |lines|
      invariant db.Valid()
      invariant db.tickets == ApplyLines(old(db.tickets), eventId, lines[..i])
    {
      assert lines[..i + 1][..i] == lines[..i];
      UpdateAmount(db, eventId, lines[i].category, lines[i].ticket - lines[i].amount);
      i := i + 1;
    }
    assert lines[..i] == lines;
  }

  /** The second loop of the several-category case: one booking INSERT per
      non-zero line, in order. */
  method InsertAll(db: Db, eventId: int, name: string, lines: seq<Line>)
    requires db.Valid()
    modifies db`bookings, db`nextBookingId
    ensures db.Valid()
    ensures db.bookings == old(db.bookings) + NewBookings(old(db.nextBookingId), eventId, name, lines)
    ensures db.nextBookingId == old(db.nextBookingId) + |NewBookings(old(db.nextBookingId), eventId, name, lines)|
  {
    ghost var firstId := db.nextBookingId;
    var i := 0;
    while i < |lines|
      invariant 0 <= i <= |lines|
      invariant db.Valid()
      invariant db.bookings == old(db.bookings) + NewBookings(firstId, eventId, name, lines[..i])
      invariant db.nextBookingId == firstId + |NewBookings(firstId, eventId, name, lines[..i])|
    {
      assert lines[..i + 1][..i] == lines[..i];
      if lines[i].amount != 0 {
        InsertBooking(db, eventId, name, lines[i].category, lines[i].amount);
      }
      i := i + 1;
    }
    assert lines[..i] == lines;
  }

  // ---------------------------------------------------------------------------
  // GET /event/:id — view counter and event page

  function PublishedWithId(eventId: int): Event -> bool
  {
    (e: Event) => e.id == eventId && e.status == Publish
  }

  /** `SET views = views + 1` */
  function CountView(e: Event): Event
  {
    e.(views := e.views + 1)
  }

  /** `SELECT * FROM event WHERE id = ? AND status = "Publish"` read with `db.get`. */
  function FetchPublishedEvent(events: seq<Event>, eventId: int): (r: Option<Event>)
    ensures r.Some? ==> r.value in events && r.value.id == eventId && r.value.status == Publish
    ensures r.None? <==> forall e :: e in events ==> !(e.id == eventId && e.status == Publish)
  {
    if events == [] then None
    else if events[0].id == eventId && events[0].status == Publish then Some(events[0])
    else FetchPublishedEvent(events[1..], eventId)
  }

  /** Condition `event_id = ?` on the bookings table. */
  function BookingOfEvent(eventId: int): Booking -> bool
  {
    (b: Booking) => b.eventId == eventId
  }

  datatype EventPage = EventPage(event: Event, ticketType: seq<Ticket>, booking: seq<Booking>)

  /** GET /event/:id: the published event with that id gets one more view, then
      the page shows it with its tickets and bookings. None is the 404 page
      for an id that is missing or not published. */
  method ViewEvent(db: Db, eventId: int) returns (page: Option<EventPage>)
    requires db.Valid()
    modifies db`events
    ensures db.Valid()
    ensures db.events == UpdateWhere(old(db.events), PublishedWithId(eventId), CountView)
    ensures page.None? <==> FetchPublishedEvent(db.events, eventId).None?
    ensures page.Some? ==>
      && page.value.event == FetchPublishedEvent(db.events, eventId).value
      && page.value.ticketType == TicketsOfEvent(db.tickets, eventId)
      && page.value.booking == Where(db.bookings, BookingOfEvent(eventId))
  {
    UpdateWhereKeepsKeys(db.events, PublishedWithId(eventId), CountView, EventId, db.nextEventId);
    db.events := UpdateWhere(db.events, PublishedWithId(eventId), CountView);
    var event := FetchPublishedEvent(db.events, eventId);
    if event.None? {
      return None;
    }
    var ticketType := TicketsOfEvent(db.tickets, eventId);
    var booking := Where(db.bookings, BookingOfEvent(eventId));
    page := Some(EventPage(event.value, ticketType, booking));
  }

  /** A published event gains exactly one view; a draft, or any other event, none. */
  lemma ViewCountsOnce(events: seq<Event>, eventId: int, i: int)
    requires 0 <= i < |events|
    ensures var after := UpdateWhere(events, PublishedWithId(eventId), CountView)[i];
      && after.views == (if events[i].id == eventId && events[i].status == Publish then events[i].views + 1 else events[i].views)
      && after == events[i].(views := after.views)
  {
  }

  // ---------------------------------------------------------------------------
  // GET /home — the attendee listing

  /** One row of the listing query. */
  datatype ListingRow = ListingRow(
    eventId: int,
    title: string,
    date: int,
    organiserId: int,
    organiserName: string,
    organiserDesc: string,
    totalAvailableTickets: int)

  /** `SUM(ticket.amount)` over the rows of one event. */
  function TotalAmount(tickets: seq<Ticket>): int
  {
    if tickets == [] then 0 else tickets[0].amount + TotalAmount(tickets[1..])
  }

  /** An event the query returns: published, joined to a settings row, and with
      a positive sum of ticket amounts (no tickets gives no sum, which is not
      positive either). */
  predicate Listed(e: Event, settings: seq<Settings>, tickets: seq<Ticket>)
  {
    && e.status == Publish
    && SettingsOf(settings, e.organiserId).Some?
    && TotalAmount(TicketsOfEvent(tickets, e.id)) > 0
  }

  function RowFor(e: Event, settings: seq<Settings>, tickets: seq<Ticket>): ListingRow
    requires Listed(e, settings, tickets)
  {
    var s := SettingsOf(settings, e.organiserId).value;
    ListingRow(e.id, e.title, e.date, s.organiserId, s.name, s.desc, TotalAmount(TicketsOfEvent(tickets, e.id)))
  }

  /** The rows of the listing query, one per listed event, in event-table order. */
  function ListingRows(events: seq<Event>, settings: seq<Settings>, tickets: seq<Ticket>): (r: seq<ListingRow>)
    ensures forall row :: row in r ==>
      exists e :: e in events && Listed(e, settings, tickets) && row == RowFor(e, settings, tickets)
    ensures forall e :: e in events && Listed(e, settings, tickets) ==> RowFor(e, settings, tickets) in r
  {
    if events == [] then []
    else
      var rest := ListingRows(events[1..], settings, tickets);
      assert forall e :: e in events <==> e == events[0] || e in events[1..];
      if Listed(events[0], settings, tickets) then [RowFor(events[0], settings, tickets)] + rest else rest
  }

  datatype EventSummary = EventSummary(id: int, title: string, date: int)

  datatype OrganiserListing = OrganiserListing(name: string, desc: string, events: seq<EventSummary>)

  function SummaryOf(row: ListingRow): EventSummary
  {
    EventSummary(row.eventId, row.title, row.date)
  }

  /** The `{id, title, date}` objects pushed for a run of rows, in order. */
  function Summaries(rows: seq<ListingRow>): (r: seq<EventSummary>)
    ensures |r| == |rows|
    ensures forall x :: x in r <==> exists row :: row in rows && SummaryOf(row) == x
    decreases |rows|
  {
    if rows == [] then []
    else
      var init := rows[..|rows| - 1];
      assert forall row :: row in rows <==> row in init || row == rows[|rows| - 1];
      Summaries(init) + [SummaryOf(rows[|rows| - 1])]
  }

  function OfOrganiser(organiserId: int): ListingRow -> bool
  {
    (row: ListingRow) => row.organiserId == organiserId
  }

  /** The rows of one organiser, in query order. */
  function RowsOf(rows: seq<ListingRow>, organiserId: int): seq<ListingRow>
  {
    Where(rows, OfOrganiser(organiserId))
  }

  /** `organisers` holds, for each organiser with rows, the summaries of those
      rows in order and the name and description of the first of them. */
  ghost predicate GroupedBy(organisers: map<int, OrganiserListing>, rows: seq<ListingRow>)
  {
    && (forall o :: o in organisers <==> RowsOf(rows, o) != [])
    && (forall o :: o in organisers ==>
          && organisers[o].events == Summaries(RowsOf(rows, o))
          && organisers[o].name == RowsOf(rows, o)[0].organiserName
          && organisers[o].desc == RowsOf(rows, o)[0].organiserDesc)
  }

  /** The entry one row is pushed onto: the organiser's existing one, or a new
      one carrying this row's name and description. */
  function EntryFor(organisers: map<int, OrganiserListing>, row: ListingRow): OrganiserListing
  {
    if row.organiserId in organisers then organisers[row.organiserId]
    else OrganiserListing(row.organiserName, row.organiserDesc, [])
  }

  /** Pushing one more row keeps the grouping exact. */
  lemma GroupStep(organisers: map<int, OrganiserListing>, rows: seq<ListingRow>, row: ListingRow)
    requires GroupedBy(organisers, rows)
    ensures var entry := EntryFor(organisers, row);
      GroupedBy(organisers[row.organiserId := entry.(events := entry.events + [SummaryOf(row)])], rows + [row])
  {
    var entry := EntryFor(organisers, row);
    var after := organisers[row.organiserId := entry.(events := entry.events + [SummaryOf(row)])];
    var run := RowsOf(rows, row.organiserId);
    RowsOfSnoc(rows, row);
    if row.organiserId !in organisers {
      assert run == [];
    } else {
      assert (run + [row])[0] == run[0];
    }
    forall o | o in after
      ensures && after[o].events == Summaries(RowsOf(rows + [row], o))
              && after[o].name == RowsOf(rows + [row], o)[0].organiserName
              && after[o].desc == RowsOf(rows + [row], o)[0].organiserDesc
    {
      if o != row.organiserId {
        assert RowsOf(rows + [row], o) == RowsOf(rows, o) + [];
        assert RowsOf(rows, o) + [] == RowsOf(rows, o);
      }
    }
  }

  /** The `events.forEach` loop: each row's summary is pushed onto its
      organiser's list, created with the row's organiser name and description
      the first time that organiser is met; `keys` lists the organisers in the
      order they were first met. */
  method GroupByOrganiser(rows: seq<ListingRow>) returns (organisers: map<int, OrganiserListing>, keys: seq<int>)
    ensures GroupedBy(organisers, rows)
    ensures forall o :: o in keys <==> o in organisers
  {
    organisers, keys := map[], [];
    var i := 0;
    while i < |rows|
      invariant 0 <= i <= |rows|
      invariant GroupedBy(organisers, rows[..i])
      invariant forall o :: o in keys <==> o in organisers
    {
      var row := rows[i];
      assert rows[..i + 1] == rows[..i] + [row];
      GroupStep(organisers, rows[..i], row);
      if row.organiserId !in organisers {
        organisers := organisers[row.organiserId := OrganiserListing(row.organiserName, row.organiserDesc, [])];
        keys := keys + [row.organiserId];
      }
      var entry := organisers[row.organiserId];
      organisers := organisers[row.organiserId := entry.(events := entry.events + [SummaryOf(row)])];
      i := i + 1;
    }
    assert rows[..i] == rows;
  }

  /** Appending a row extends its own organiser's run and no other. */
  lemma RowsOfSnoc(rows: seq<ListingRow>, row: ListingRow)
    ensures forall o :: RowsOf(rows + [row], o) == RowsOf(rows, o) + (if row.organiserId == o then [row] else [])
    ensures Summaries(RowsOf(rows, row.organiserId) + [row]) == Summaries(RowsOf(rows, row.organiserId)) + [SummaryOf(row)]
  {
    forall o
      ensures RowsOf(rows + [row], o) == RowsOf(rows, o) + (if row.organiserId == o then [row] else [])
    {
      WhereAppend(rows, row, OfOrganiser(o));
    }
    var run := RowsOf(rows, row.organiserId);
    assert (run + [row])[..|run|] == run;
  }

  /** Ascending by date. */
  ghost predicate SortedByDate(s: seq<EventSummary>)
  {
    forall i, j :: 0 <= i < j < |s| ==> s[i].date <= s[j].date
  }

  /** Insertion in front of the first later-dated summary. */
  function InsertByDate(x: EventSummary, s: seq<EventSummary>): (r: seq<EventSummary>)
    ensures multiset(r) == multiset(s) + multiset{x}
  {
    if s == [] || x.date <= s[0].date then [x] + s
    else
      assert s == [s[0]] + s[1..];
      [s[0]] + InsertByDate(x, s[1..])
  }

  /** Inserting into a sorted list keeps it sorted. */
  lemma {:induction false} InsertByDateSorted(x: EventSummary, s: seq<EventSummary>)
    requires SortedByDate(s)
    ensures SortedByDate(InsertByDate(x, s))
  {
    if s != [] && x.date > s[0].date {
      var tail := s[1..];
      InsertByDateSorted(x, tail);
      var rest := InsertByDate(x, tail);
      forall y | y in rest
        ensures s[0].date <= y.date
      {
        assert y in multiset(rest);
        if y != x {
          assert y in tail;
        }
      }
      var r := [s[0]] + rest;
      forall i, j | 0 <= i < j < |r|
        ensures r[i].date <= r[j].date
      {
        assert r[j] == rest[j - 1] && rest[j - 1] in rest;
        if i > 0 {
          assert r[i] == rest[i - 1];
        }
      }
    }
  }

  /** `events.sort((a, b) => new Date(a.date) - new Date(b.date))`: the same
      summaries, ascending by date. */
  function SortByDate(s: seq<EventSummary>): (r: seq<EventSummary>)
    ensures SortedByDate(r)
    ensures multiset(r) == multiset(s)
  {
    if s == [] then []
    else
      assert s == [s[0]] + s[1..];
      InsertByDateSorted(s[0], SortByDate(s[1..]));
      InsertByDate(s[0], SortByDate(s[1..]))
  }

  /** The `for (const organiserId in organisers)` loop, over the organiser
      keys in `keys`: every organiser's list is sorted. */
  method SortEachByDate(grouped: map<int, OrganiserListing>, keys: seq<int>) returns (sorted: map<int, OrganiserListing>)
    requires forall o :: o in keys <==> o in grouped
    ensures sorted.Keys == grouped.Keys
    ensures forall o :: o in sorted ==>
      && sorted[o].name == grouped[o].name && sorted[o].desc == grouped[o].desc
      && SortedByDate(sorted[o].events)
      && multiset(sorted[o].events) == multiset(grouped[o].events)
  {
    sorted := grouped;
    var i := 0;
    while i < |keys|
      invariant 0 <= i <= |keys|
      invariant sorted.Keys == grouped.Keys
      invariant forall o :: o in sorted && o !in keys[..i] ==> sorted[o] == grouped[o]
      invariant forall o :: o in sorted && o in keys[..i] ==>
        && sorted[o].name == grouped[o].name && sorted[o].desc == grouped[o].desc
        && SortedByDate(sorted[o].events)
        && multiset(sorted[o].events) == multiset(grouped[o].events)
    {
      var k := keys[i];
      assert keys[..i + 1] == keys[..i] + [k];
      sorted := sorted[k := grouped[k].(events := SortByDate(grouped[k].events))];
      i := i + 1;
    }
    assert keys[..i] == keys;
  }

  /** GET /home for attendees: an event is shown, under its own organiser, if
      and only if the listing query returns it; each organiser carries the
      name and description of their settings row, and their events ascend by
      date. */
  method AttendeeHome(db: Db) returns (organisers: map<int, OrganiserListing>)
    requires db.Valid()
    ensures forall e :: e in db.events ==>
      (Listed(e, db.settings, db.tickets)
       <==> e.organiserId in organisers && EventSummary(e.id, e.title, e.date) in organisers[e.organiserId].events)
    ensures forall o :: o in organisers ==>
      && SettingsOf(db.settings, o).Some?
      && organisers[o].name == SettingsOf(db.settings, o).value.name
      && organisers[o].desc == SettingsOf(db.settings, o).value.desc
      && SortedByDate(organisers[o].events)
    ensures forall o :: o in organisers ==> organisers[o].events != []
    ensures forall o, x :: o in organisers && x in organisers[o].events ==>
      && multiset(organisers[o].events)[x] == 1
      && exists e :: e in db.events && Listed(e, db.settings, db.tickets)
                     && e.organiserId == o && x == EventSummary(e.id, e.title, e.date)
  {
    var rows := ListingRows(db.events, db.settings, db.tickets);
    var grouped, keys := GroupByOrganiser(rows);
    organisers := SortEachByDate(grouped, keys);
    forall o | o in organisers
      ensures SettingsOf(db.settings, o).Some?
      ensures organisers[o].name == SettingsOf(db.settings, o).value.name
      ensures organisers[o].desc == SettingsOf(db.settings, o).value.desc
    {
      var first := RowsOf(rows, o)[0];
      assert first in RowsOf(rows, o);
      var e :| e in db.events && Listed(e, db.settings, db.tickets) && first == RowFor(e, db.settings, db.tickets);
    }
    forall e | e in db.events
      ensures Listed(e, db.settings, db.tickets)
        <==> e.organiserId in organisers && EventSummary(e.id, e.title, e.date) in organisers[e.organiserId].events
    {
      ListedIffShown(db, rows, grouped, organisers, e);
    }
    forall o | o in organisers
      ensures organisers[o].events != []
    {
      assert |grouped[o].events| == |RowsOf(rows, o)| > 0;
      assert |multiset(organisers[o].events)| == |multiset(grouped[o].events)|;
    }
    ListingRowsDistinct(db.events, db.settings, db.tickets);
    forall o, x | o in organisers && x in organisers[o].events
      ensures multiset(organisers[o].events)[x] == 1
      ensures exists e :: e in db.events && Listed(e, db.settings, db.tickets)
                          && e.organiserId == o && x == EventSummary(e.id, e.title, e.date)
    {
      WhereKeepsDistinct(rows, OfOrganiser(o), RowEventId);
      SummariesOnce(RowsOf(rows, o));
      assert x in multiset(grouped[o].events);
      assert x in Summaries(RowsOf(rows, o));
      var row :| row in RowsOf(rows, o) && SummaryOf(row) == x;
      var e :| e in db.events && Listed(e, db.settings, db.tickets) && row == RowFor(e, db.settings, db.tickets);
      assert e.organiserId == o;
    }
  }

  function RowEventId(row: ListingRow): int
  {
    row.eventId
  }

  /** Distinct event ids give distinct listing rows. */
  lemma {:induction false} ListingRowsDistinct(events: seq<Event>, settings: seq<Settings>, tickets: seq<Ticket>)
    requires DistinctBy(events, EventId)
    ensures DistinctBy(ListingRows(events, settings, tickets), RowEventId)
  {
    if events != [] {
      var tail := events[1..];
      assert DistinctBy(tail, EventId) by {
        forall i, j | 0 <= i < j < |tail|
          ensures EventId(tail[i]) != EventId(tail[j])
        {
          assert tail[i] == events[i + 1] && tail[j] == events[j + 1];
        }
      }
      ListingRowsDistinct(tail, settings, tickets);
      var rest := ListingRows(tail, settings, tickets);
      if Listed(events[0], settings, tickets) {
        forall row | row in rest
          ensures row.eventId != events[0].id
        {
          var e :| e in tail && Listed(e, settings, tickets) && row == RowFor(e, settings, tickets);
          var j :| 0 <= j < |tail| && tail[j] == e;
          assert events[j + 1] == e;
        }
        var r := [RowFor(events[0], settings, tickets)] + rest;
        forall i, j | 0 <= i < j < |r|
          ensures RowEventId(r[i]) != RowEventId(r[j])
        {
          assert r[j] == rest[j - 1] && rest[j - 1] in rest;
          if i > 0 {
            assert r[i] == rest[i - 1];
          }
        }
      }
    }
  }

  /** Rows with distinct event ids give each summary at most once. */
  lemma {:induction false} SummariesOnce(rows: seq<ListingRow>)
    requires DistinctBy(rows, RowEventId)
    ensures forall x :: multiset(Summaries(rows))[x] <= 1
    decreases |rows|
  {
    if rows != [] {
      var init, last := rows[..|rows| - 1], rows[|rows| - 1];
      assert DistinctBy(init, RowEventId);
      SummariesOnce(init);
      forall row | row in init
        ensures row.eventId != last.eventId
      {
        var i :| 0 <= i < |init| && init[i] == row;
        assert rows[i] == row;
      }
      assert SummaryOf(last) !in Summaries(init);
      assert multiset(Summaries(rows)) == multiset(Summaries(init)) + multiset{SummaryOf(last)};
    }
  }

  lemma ListedIffShown(db: Db, rows: seq<ListingRow>, grouped: map<int, OrganiserListing>,
                       organisers: map<int, OrganiserListing>, e: Event)
    requires db.Valid() && e in db.events
    requires rows == ListingRows(db.events, db.settings, db.tickets)
    requires forall o :: o in grouped <==> RowsOf(rows, o) != []
    requires forall o :: o in grouped ==> grouped[o].events == Summaries(RowsOf(rows, o))
    requires organisers.Keys == grouped.Keys
    requires forall o :: o in organisers ==> multiset(organisers[o].events) == multiset(grouped[o].events)
    ensures Listed(e, db.settings, db.tickets)
      <==> e.organiserId in organisers && EventSummary(e.id, e.title, e.date) in organisers[e.organiserId].events
  {
    var o, x := e.organiserId, EventSummary(e.id, e.title, e.date);
    if Listed(e, db.settings, db.tickets) {
      var row := RowFor(e, db.settings, db.tickets);
      assert row in rows && row.organiserId == o;
      assert row in RowsOf(rows, o);
      assert o in grouped;
      assert SummaryOf(row) == x;
      assert x in grouped[o].events;
      assert x in multiset(organisers[o].events);
    }
    if o in organisers && x in organisers[o].events {
      assert x in multiset(grouped[o].events);
      assert x in Summaries(RowsOf(rows, o));
      var row :| row in RowsOf(rows, o) && SummaryOf(row) == x;
      var e' :| e' in db.events && Listed(e', db.settings, db.tickets) && row == RowFor(e', db.settings, db.tickets);
      SameIdSameEvent(db.events, e, e');
    }
  }

  lemma SameIdSameEvent(events: seq<Event>, e: Event, e': Event)
    requires DistinctBy(events, EventId)
    requires e in events && e' in events && e.id == e'.id
    ensures e == e'
  {
    var i :| 0 <= i < |events| && events[i] == e;
    var j :| 0 <= j < |events| && events[j] == e';
    assert EventId(events[i]) == EventId(events[j]);
  }
}
