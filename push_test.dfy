/**
 * `GET /api/push/test`: send a fixed test notification to every subscription
 * of the signed-in user, counting successes and pruning subscriptions the
 * push service reports gone.
 */
module PushTest {
  import opened Wrappers
  import opened Seqs
  import opened Store
  import opened Delivery

  /** 401, 404 (no subscription), or 200 with `{ sent, total }`. */
  datatype TestResponse = Unauthorized | NoSubscriptions | Sent(sent: nat, total: nat)

  /** The test payload: a title and a body, no tag and no url. */
  const TestPayload: Payload :=
    Payload("Memodate \U{1F5D3}\U{FE0F}",
            "Olá Hanninha! Te amo muito! \U{2764}\U{FE0F}. Testando as notificações kkkk.",
            None, None)

  /** The pass over the user's subscriptions, from the table it starts from. */
  function TestOutcome(userId: string, subs: seq<PushSubscription>, send: Transport): Tally {
    Run(SendToAll(Filter(subs, OwnedBy(userId)), TestPayload), Tally(0, 0, subs), send)
  }

  /**
   * `sent` counts the successful sends and never exceeds `total`; the table
   * loses exactly the rows whose endpoint was found gone, so other users'
   * rows survive unless they share a dead endpoint.
   */
  lemma TestOutcomeCounts(userId: string, subs: seq<PushSubscription>, send: Transport)
    requires UniqueEndpoints(subs)
    ensures var owned := Filter(subs, OwnedBy(userId));
            var attempts := SendToAll(owned, TestPayload);
            var t := TestOutcome(userId, subs, send);
            && t.sent == Count(attempts, Succeeded(send))
            && t.sent <= |owned|
            && (forall s :: s in t.table <==> s in subs && s.endpoint !in GoneEndpoints(attempts, send))
            && UniqueEndpoints(t.table)
  {
    var attempts := SendToAll(Filter(subs, OwnedBy(userId)), TestPayload);
    RunCounts(attempts, Tally(0, 0, subs), send);
    RunKeepsUnique(attempts, Tally(0, 0, subs), send);
  }

  /** Only the user's own subscriptions are sent to. */
  lemma TestSendsOnlyToOwner(userId: string, subs: seq<PushSubscription>, a: Attempt)
    requires a in SendToAll(Filter(subs, OwnedBy(userId)), TestPayload)
    ensures a.sub in subs && a.sub.userId == userId && a.payload == TestPayload
  {
  }

  method TestGet(db: Database, session: Option<string>, send: Transport) returns (response: TestResponse)
    requires db.Valid()
    modifies db
    ensures db.Valid() && db.users == old(db.users) && db.events == old(db.events)
    ensures !SignedIn(session) ==> response == Unauthorized && db.subscriptions == old(db.subscriptions)
    ensures SignedIn(session) && Filter(old(db.subscriptions), OwnedBy(session.value)) == [] ==>
              response == NoSubscriptions && db.subscriptions == old(db.subscriptions)
    ensures SignedIn(session) && Filter(old(db.subscriptions), OwnedBy(session.value)) != [] ==>
              var t := TestOutcome(session.value, old(db.subscriptions), send);
              response == Sent(t.sent, |Filter(old(db.subscriptions), OwnedBy(session.value))|)
              && db.subscriptions == t.table
  {
    if !SignedIn(session) {
      return Unauthorized;
    }
    var subs := Filter(db.subscriptions, OwnedBy(session.value));
    if |subs| == 0 {
      return NoSubscriptions;
    }
    var sent, removed := Broadcast(db, subs, TestPayload, send, 0, 0);
    response := Sent(sent, |subs|);
  }
}
