/**
 * The database tables the application reads and writes (User, Event and
 * PushSubscription), held in memory.  A table is a sequence of rows in the
 * order the database returns them; `deleteMany`, `update` and `upsert`
 * become functions from the old table to the new one.
 */
module Store {
  import opened Wrappers
  import opened Seqs

  datatype EventType = Birthday | Anniversary | Holiday | Other

  /**
   * A row of the Event table.  `dateMs` is the stored instant in
   * milliseconds since the epoch; `daysBeforeAlert` is whatever the table
   * holds (the event form clamps it to 0..365 before writing).
   */
  datatype Event = Event(
    id: string,
    userId: string,
    title: string,
    dateMs: int,
    eventType: EventType,
    recurring: bool,
    daysBeforeAlert: int,
    notes: Option<string>)

  /** A row of the PushSubscription table; `endpoint` is unique. */
  datatype PushSubscription = PushSubscription(userId: string, endpoint: string, p256dh: string, auth: string)

  /** A row of the User table; `timezone` is an IANA identifier. */
  datatype User = User(id: string, timezone: string)

  function EndpointOf(s: PushSubscription): string {
    s.endpoint
  }

  function EventIdOf(e: Event): string {
    e.id
  }

  /** The row test of `where: { endpoint }`, negated: the rows a delete by endpoint keeps. */
  function NotAtEndpoint(endpoint: string): PushSubscription -> bool {
    (s: PushSubscription) => s.endpoint != endpoint
  }

  /** `deleteMany({ where: { endpoint } })`: every row with that endpoint goes, nothing else. */
  function DeleteByEndpoint(rows: seq<PushSubscription>, endpoint: string): (r: seq<PushSubscription>)
    ensures forall s :: s in r <==> s in rows && s.endpoint != endpoint
    ensures |r| <= |rows|
  {
    Filter(rows, NotAtEndpoint(endpoint))
  }

  ghost predicate UniqueEndpoints(rows: seq<PushSubscription>) {
    UniqueBy(rows, EndpointOf)
  }

  ghost predicate UniqueEventIds(events: seq<Event>) {
    UniqueBy(events, EventIdOf)
  }

  lemma DeleteByEndpointKeepsUnique(rows: seq<PushSubscription>, endpoint: string)
    requires UniqueEndpoints(rows)
    ensures UniqueEndpoints(DeleteByEndpoint(rows, endpoint))
  {
    FilterKeepsUnique(rows, NotAtEndpoint(endpoint), EndpointOf);
  }

  /** The rows of a table that belong to one user. */
  function OwnedBy(userId: string): PushSubscription -> bool {
    (s: PushSubscription) => s.userId == userId
  }

  function EventOwnedBy(userId: string): Event -> bool {
    (e: Event) => e.userId == userId
  }

  /**
   * The session's user id as the routes test it (`session?.user?.id`):
   * absent, or present but empty, means signed out.
   */
  predicate SignedIn(session: Option<string>) {
    session.Some? && session.value != ""
  }

  /** The three tables.  Keys are unique: endpoints of subscriptions, ids of events. */
  class Database {
    var users: seq<User>
    var events: seq<Event>
    var subscriptions: seq<PushSubscription>

    ghost predicate Valid()
      reads this
    {
      UniqueEndpoints(subscriptions) && UniqueEventIds(events)
    }

    constructor (users: seq<User>, events: seq<Event>, subscriptions: seq<PushSubscription>)
      requires UniqueEndpoints(subscriptions) && UniqueEventIds(events)
      ensures Valid()
      ensures this.users == users && this.events == events && this.subscriptions == subscriptions
    {
      this.users := users;
      this.events := events;
      this.subscriptions := subscriptions;
    }

    /** `prisma.pushSubscription.deleteMany({ where: { endpoint } })`. */
    method DeleteSubscriptionsByEndpoint(endpoint: string)
      requires Valid()
      modifies this
      ensures Valid()
      ensures subscriptions == DeleteByEndpoint(old(subscriptions), endpoint)
      ensures users == old(users) && events == old(events)
    {
      DeleteByEndpointKeepsUnique(subscriptions, endpoint);
      subscriptions := DeleteByEndpoint(subscriptions, endpoint);
    }
  }
}
