# Event Manager route handlers in Dafny

This project models the two Express routers of an event-ticketing web
application that keeps its data in SQLite:

- `routes/organiserRoute.js` serves organisers.
  - They register, edit their page settings, and create events as drafts.
  - They attach ticket types (non-concession, concession, student) to an
    event, edit its text, publish it and delete it.
  - Their home page lists their events and groups the ticket rows by event.
- `routes/userRoute.js` serves attendees.
  - The home page lists every published event with tickets left, grouped
    by organiser and sorted by date.
  - The event page counts a view.
  - The reservation form stores new ticket counts and appends bookings.

The database is a class `Database.Db`. It holds five tables (`organisers`,
`settings`, `events`, `tickets`, `bookings`), each a sequence of row
values, plus the next row id of each table with an integer key. Each
statement that writes is a single-table INSERT, UPDATE or DELETE with
a plain WHERE clause. The reads (the attendee listing's join with
GROUP BY and HAVING, the home page's `IN (...)` ticket query) are stated
as selections over the same tables. The effects are stated with two generic
functions of module `Sql`:

- `Where` gives the rows a SELECT returns, or the rows a DELETE keeps.
- `UpdateWhere` gives the table after an UPDATE.

Each handler is a method over `Db`. Its `modifies` clause names the
tables it writes, and its postcondition states the new tables in terms
of the old ones. `Db.Valid()` says three things:

- primary keys are distinct and below their allocator;
- usernames are distinct;
- each organiser has at most one settings row.

Every handler preserves it.

Modules:

- `Schema`: the row types, the three ticket categories and their form order.
- `Sql`: selection, update and the key predicates, with lemmas about them.
- `Database`: the `Db` class and the ticket and settings lookups the
  handlers share.
- `OrganiserRoute`: the organiser handlers.
- `UserRoute`: the attendee handlers.

Points of behaviour worth knowing, all modelled as the handlers do them:

- Nothing floors a stored ticket count at zero. The handler stores
  whatever `ticket - amount` gives.
- A reservation line for a category the event lacks updates no row and
  still appends a booking.
- Publishing does not look at the number of ticket types. It checks the
  owner only through its WHERE clause: a mismatch updates no row and
  reports nothing.
- Deleting an event checks no owner. Editing an event (POST) checks no
  owner either.
- Deleting a ticket matches the ticket id alone. The event id in the URL
  is ignored.
- Publishing again overwrites the published date with the new day.

## Model

| member | source | states |
|---|---|---|
| Schema.AllCategoriesListsEachOnce | routes/organiserRoute.js:234 | the ticket form's category list holds every category, in strictly increasing form order |
| Database.SettingsOf | routes/organiserRoute.js:19-26 | the settings lookup returns a row of that organiser, and returns nothing exactly when no row belongs to them |
| OrganiserRoute.PublishedEvents | routes/organiserRoute.js:40 | an event is in the published list iff it is one of the organiser's events with status Publish |
| OrganiserRoute.DraftEvents | routes/organiserRoute.js:41 | an event is in the draft list iff it is one of the organiser's events with status Draft |
| OrganiserRoute.EventIds | routes/organiserRoute.js:42 | an id is listed iff some fetched event has it |
| OrganiserRoute.StatusPartition | routes/organiserRoute.js:40-41 | the published and draft lists together hold every fetched event exactly as often as it was fetched |
| OrganiserRoute.GroupByEvent | routes/organiserRoute.js:64-70 | the map has a key exactly for the events that own a fetched ticket; each bucket is that event's tickets in fetch order |
| OrganiserRoute.BucketsCoverAllTickets | routes/organiserRoute.js:64-70 | over distinct event ids covering every fetched ticket, the bucket sizes add up to the number of tickets, so nothing is lost or duplicated |
| OrganiserRoute.OrganiserHome | routes/organiserRoute.js:15-82 | 404 iff there is no settings row; otherwise the settings name, the description or "My Event Page" when it is empty, the organiser's events split by status, and a ticket map holding exactly the tickets of the organiser's events, grouped by event |
| OrganiserRoute.Register | routes/organiserRoute.js:121-163 | a taken username changes nothing; otherwise exactly one organiser row and one settings row (name = username, desc "My Event") are appended under a fresh id; ids and usernames stay distinct |
| OrganiserRoute.UpdateSettings | routes/organiserRoute.js:190-203 | the organiser's settings row gets the new name and description; keys stay valid |
| OrganiserRoute.CreateEvent | routes/organiserRoute.js:213-229 | exactly one event row is appended with a fresh id, status Draft, the session organiser, zero views and no published or modified date; the new id is returned |
| OrganiserRoute.EditEvent | routes/organiserRoute.js:365-401 | rejected, with nothing changed and the submitted title and desc echoed, iff the event has no ticket rows; otherwise the rows with that id are updated |
| OrganiserRoute.EditChangesOnlyThatEvent | routes/organiserRoute.js:392 | an accepted edit changes only title, desc, date and last-modified, and only on the row with that id |
| OrganiserRoute.PublishEvent | routes/organiserRoute.js:404-418 | the update of status and published date applies to the row whose id and owner both match, whatever its ticket count; keys stay valid |
| OrganiserRoute.PublishScoped | routes/organiserRoute.js:410 | the matching row becomes Publish with today's date; every other row is unchanged |
| OrganiserRoute.PublishIdempotent | routes/organiserRoute.js:410 | publishing twice on the same day equals publishing once |
| OrganiserRoute.PublishNeverUnpublishes | routes/organiserRoute.js:410 | a published row stays published |
| OrganiserRoute.DeleteEvent | routes/organiserRoute.js:421-447 | the event's tickets, then its bookings, then the event row are deleted; all other rows stay, in order |
| OrganiserRoute.DeleteCascade | routes/organiserRoute.js:425-437 | afterwards no ticket, booking or event refers to the id, and every other event keeps all its tickets, bookings and its row |
| OrganiserRoute.AddTicket | routes/organiserRoute.js:266-279 | exactly one ticket row with a fresh id and the submitted category, price and amount is appended |
| OrganiserRoute.EditTicket | routes/organiserRoute.js:302-316 | type, amount and price change only on the row matching both ticket id and event id |
| OrganiserRoute.DeleteTicket | routes/organiserRoute.js:319-332 | exactly the row with that ticket id is removed, whatever its event |
| OrganiserRoute.RemainingCategories | routes/organiserRoute.js:254 | a category is offered iff it is not in use, in form order |
| OrganiserRoute.NoTicketsOffersAll | routes/organiserRoute.js:234-254 | with no tickets all three categories are offered, in form order |
| OrganiserRoute.TicketForm | routes/organiserRoute.js:232-263 | the offered categories are exactly those no ticket of the event uses, in form order |
| UserRoute.ApplyLinesRowwise | routes/userRoute.js:107-117 | after the per-line updates, a row of the booked event whose category has a line holds the rendered count minus the request of the last such line; every other row is unchanged |
| UserRoute.ReservationSetsEachCategory | routes/userRoute.js:107-117 | with distinct categories, every row of category[i] for the event ends at ticket[i] - amount[i] |
| UserRoute.ReservationLeavesOtherRows | routes/userRoute.js:91 | ticket rows of other events, and of categories the form does not name, are untouched |
| UserRoute.StoredAmountIgnoresLiveCount | routes/userRoute.js:86 | the stored amount does not depend on the live count in the row |
| UserRoute.ZeroLineRestoresRenderedCount | routes/userRoute.js:86-91 | a zero-quantity line overwrites the live count with the rendered count |
| UserRoute.NoFloorAtZero | routes/userRoute.js:86-91 | requesting 5 of 3 rendered tickets stores -2 |
| UserRoute.NewBookingsAreBookedLines | routes/userRoute.js:119-132 | the appended bookings are exactly the non-zero lines, in submission order, with consecutive ids, the event id and the attendee's name |
| UserRoute.BookingIffNonZero | routes/userRoute.js:96-103 | one line appends a booking iff its amount is non-zero |
| UserRoute.TwoCategoryExample | routes/userRoute.js:107-132 | two concession tickets of 5 and zero student tickets of 3 leave 3 and 3 and write one concession booking |
| UserRoute.InsertBooking | routes/userRoute.js:98 | one booking row with the next id is appended; keys stay valid |
| UserRoute.UpdateAmount | routes/userRoute.js:91 | the amount of the rows of that event and category is overwritten; keys stay valid |
| UserRoute.ReserveOne | routes/userRoute.js:89-104 | one update, then a booking only for a non-zero amount |
| UserRoute.UpdateAll | routes/userRoute.js:107-117 | the update loop leaves the table as the per-line updates in submission order |
| UserRoute.InsertAll | routes/userRoute.js:120-132 | the insert loop appends exactly the bookings of the non-zero lines, in order |
| UserRoute.Reserve | routes/userRoute.js:83-137 | the tickets become the per-line updates of the form and the bookings are the old ones plus the non-zero lines; without a category nothing changes; keys stay valid |
| UserRoute.FetchPublishedEvent | routes/userRoute.js:52 | the lookup returns a published event with that id, and returns nothing iff there is none |
| UserRoute.ViewEvent | routes/userRoute.js:42-80 | the views update applies to the published row with that id; the page is 404 iff no published event has the id, otherwise it shows that event, its tickets and its bookings |
| UserRoute.ViewCountsOnce | routes/userRoute.js:46 | a published event gains exactly one view; drafts and other events are unchanged |
| UserRoute.ListingRows | routes/userRoute.js:6 | the query returns a row for an event iff it is published, has a settings row and its ticket amounts sum above zero, and no other rows |
| UserRoute.ListingRowsDistinct | routes/userRoute.js:6 | the query returns each event at most once |
| UserRoute.GroupByOrganiser | routes/userRoute.js:14-30 | each organiser with rows gets exactly their rows' summaries, in order, under the name and description of the first of them; `keys` lists exactly those organisers |
| UserRoute.GroupStep | routes/userRoute.js:17-29 | pushing one more row keeps that grouping exact |
| UserRoute.SummariesOnce | routes/userRoute.js:25-29 | rows with distinct event ids push each summary at most once |
| UserRoute.InsertByDateSorted | routes/userRoute.js:33 | inserting by date into a sorted list keeps it sorted |
| UserRoute.SortByDate | routes/userRoute.js:33 | the result is ascending by date and a permutation of the input |
| UserRoute.SortEachByDate | routes/userRoute.js:32-34 | every organiser list comes out sorted by date and a permutation of itself, with name and description kept |
| UserRoute.AttendeeHome | routes/userRoute.js:5-39 | an event is shown under its own organiser iff the query lists it, and only once; every shown entry is such an event; every organiser entry has at least one event; each organiser carries their settings name and description; each list ascends by date |

## Left out

- index.js: the Express, body-parser, session and SQLite set-up is not
  part of this model.
- The database schema file is not part of this model. Row ids are
  modelled as AUTOINCREMENT-style counters starting at 1. A new event has
  zero views. Foreign keys and column defaults other than these are not
  modelled.
- Login (`POST /login`) and bcrypt are not modelled. Hashing and comparing
  are a foreign library, so `Register` takes the password hash as a
  parameter.
- The GET pages that only read and render are not modelled as separate
  operations: the settings form, the event edit form and the ticket edit
  form. Logout is not modelled either. Their lookups are the same
  selections `Where` and `SettingsOf` state. The `checkAuth` middleware is
  not modelled; the session organiser is a parameter.
- Rendering, redirects and status codes are not modelled. Database-failure
  branches are not modelled either; they only log or render an error.
- The reservation handler does not wait for its statements. Calls arrive
  asynchronously, and two sessions can race. The model runs the
  statements one after another, in source order.
- JavaScript coercion of form strings is not modelled: `ticket - amount`
  and `amount != 0` are taken on integers. A category outside the three
  known ones is not modelled, nor are form arrays of different lengths
  (each line carries its own category, amount and rendered count).
- `new Date()` and `toISOString()` are parameters (`today`, `now`). Dates
  and prices are integers, so the date comparison of the sort is an
  integer comparison, and an invalid date (NaN comparator) is not
  modelled.
- SQL row order is assumed to be table order. The attendee query's JOIN
  with settings relies on `Db.Valid()` (at most one settings row per
  organiser). With a second settings row, `GROUP BY event.id` would still
  give one row per event, but `SUM(ticket.amount)` would count each ticket
  twice, and which row's name and description appear would be unspecified.
  The model takes the first settings row and sums each ticket once.
- JavaScript iterates the `organisers` object's keys in its own order. The
  model walks them in the order they were first met, which gives the same
  result. The sort is not claimed to be stable.
- The ticket form's branch for a missing result set (`!ticketType`) can
  never run: `db.all` always yields an array. That branch is not modelled.
- `UserRoute.ReservationSetsEachCategory` assumes the submitted categories
  are distinct. With a repeated category the last line of that category
  wins; `UserRoute.ApplyLinesRowwise` states that general case.
