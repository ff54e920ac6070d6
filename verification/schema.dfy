/** Rows of the five tables the route handlers read and write: organiser,
    settings, event, ticket and bookings. Every column the handlers touch is a
    field; dates are day numbers and timestamps are integers. */
module Schema {

  datatype Option<T> = None | Some(value: T)

  /** The fixed ticket categories, declared in the order the ticket form lists them. */
  datatype Category = NonConcession | Concession | Student

  const AllCategories: seq<Category> := [NonConcession, Concession, Student]

  lemma AllCategoriesListsEachOnce()
    ensures forall c: Category :: c in AllCategories
    ensures forall i, j :: 0 <= i < j < |AllCategories| ==> Rank(AllCategories[i]) < Rank(AllCategories[j])
  {
    forall c: Category
      ensures c in AllCategories
    {
      match c
      case NonConcession => assert AllCategories[0] == c;
      case Concession => assert AllCategories[1] == c;
      case Student => assert AllCategories[2] == c;
    }
  }

  /** Position of a category in AllCategories. */
  function Rank(c: Category): int
  {
    match c
    case NonConcession => 0
    case Concession => 1
    case Student => 2
  }

  /** An event is created as Draft and becomes Publish through the publish handler. */
  datatype Status = Draft | Publish

  datatype Organiser = Organiser(id: int, username: string, passwordHash: string)

  datatype Settings = Settings(organiserId: int, name: string, desc: string)

  datatype Event = Event(
    id: int,
    title: string,
    desc: string,
    organiserId: int,
    status: Status,
    date: int,
    publishedDate: Option<int>,
    lastModified: Option<int>,
    views: int)

  /** One ticket type of an event; `amount` is the number still available
      and nothing keeps it from going below zero. */
  datatype Ticket = Ticket(id: int, eventId: int, category: Category, price: int, amount: int)

  datatype Booking = Booking(id: int, eventId: int, name: string, category: Category, amount: int)

  // Primary keys and the unique username column, as functions so that they can
  // be handed to the key predicates of module Sql.

  function OrganiserId(o: Organiser): int { o.id }
  function Username(o: Organiser): string { o.username }
  function SettingsOwner(s: Settings): int { s.organiserId }
  function EventId(e: Event): int { e.id }
  function TicketId(t: Ticket): int { t.id }
  function BookingId(b: Booking): int { b.id }
}
