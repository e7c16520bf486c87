/**
 * `POST` and `DELETE /api/push/subscribe`: register a browser push
 * subscription for the signed-in user (upsert keyed by endpoint), or remove
 * one of the user's own.
 */
module PushSubscribe {
  import opened Wrappers
  import opened Seqs
  import opened Store

  /** 401, or 200 with `{ ok: true }`. */
  datatype SubscribeResponse = Unauthorized | Ok

  predicate HasEndpoint(rows: seq<PushSubscription>, endpoint: string) {
    exists i :: 0 <= i < |rows| && rows[i].endpoint == endpoint
  }

  /** The `update` half of the upsert: new keys on the row with the endpoint, owner untouched. */
  function UpdateKeys(rows: seq<PushSubscription>, endpoint: string, p256dh: string, auth: string): (r: seq<PushSubscription>)
    ensures |r| == |rows|
    ensures forall i :: 0 <= i < |r| ==>
              r[i] == if rows[i].endpoint == endpoint then rows[i].(p256dh := p256dh, auth := auth) else rows[i]
  {
    seq(|rows|, i requires 0 <= i < |rows| =>
      if rows[i].endpoint == endpoint then rows[i].(p256dh := p256dh, auth := auth) else rows[i])
  }

  /** `upsert({ where: { endpoint }, create, update })`. */
  function Upsert(rows: seq<PushSubscription>, userId: string, endpoint: string, p256dh: string, auth: string)
    : seq<PushSubscription>
  {
    if HasEndpoint(rows, endpoint) then UpdateKeys(rows, endpoint, p256dh, auth)
    else rows + [PushSubscription(userId, endpoint, p256dh, auth)]
  }

  /**
   * On an endpoint that is already registered, the upsert rewrites that one
   * row's keys in place: its owner and every other row stay as they were.
   */
  lemma UpsertUpdatesInPlace(rows: seq<PushSubscription>, userId: string, endpoint: string, p256dh: string, auth: string, i: int)
    requires UniqueEndpoints(rows) && 0 <= i < |rows| && rows[i].endpoint == endpoint
    ensures Upsert(rows, userId, endpoint, p256dh, auth) == rows[i := rows[i].(p256dh := p256dh, auth := auth)]
  {
    var r := Upsert(rows, userId, endpoint, p256dh, auth);
    var expected := rows[i := rows[i].(p256dh := p256dh, auth := auth)];
    assert |r| == |expected|;
    forall k | 0 <= k < |r|
      ensures r[k] == expected[k]
    {
      if k != i {
        assert EndpointOf(rows[k]) != EndpointOf(rows[i]);
      }
    }
  }

  /** On a new endpoint, the upsert appends a row owned by the caller. */
  lemma UpsertCreatesOwnedRow(rows: seq<PushSubscription>, userId: string, endpoint: string, p256dh: string, auth: string)
    requires !HasEndpoint(rows, endpoint)
    ensures var r := Upsert(rows, userId, endpoint, p256dh, auth);
            |r| == |rows| + 1 && r[..|rows|] == rows && r[|rows|].userId == userId
  {
  }

  /** After an upsert exactly one row has the endpoint: it is there, and endpoints stay unique. */
  lemma UpsertKeepsUnique(rows: seq<PushSubscription>, userId: string, endpoint: string, p256dh: string, auth: string)
    requires UniqueEndpoints(rows)
    ensures HasEndpoint(Upsert(rows, userId, endpoint, p256dh, auth), endpoint)
    ensures UniqueEndpoints(Upsert(rows, userId, endpoint, p256dh, auth))
  {
    var r := Upsert(rows, userId, endpoint, p256dh, auth);
    if HasEndpoint(rows, endpoint) {
      var i :| 0 <= i < |rows| && rows[i].endpoint == endpoint;
      UpsertUpdatesInPlace(rows, userId, endpoint, p256dh, auth, i);
      assert r[i].endpoint == endpoint;
      assert forall k :: 0 <= k < |r| ==> EndpointOf(r[k]) == EndpointOf(rows[k]);
    } else {
      assert r[|rows|].endpoint == endpoint;
      forall a, b | 0 <= a < b < |r|
        ensures EndpointOf(r[a]) != EndpointOf(r[b])
      {
        if b < |rows| {
          assert r[a] == rows[a] && r[b] == rows[b];
        }
      }
    }
  }

  /** The row test of `deleteMany({ where: { endpoint, userId } })`, negated. */
  function NotOwnedAt(endpoint: string, userId: string): PushSubscription -> bool {
    (s: PushSubscription) => !(s.endpoint == endpoint && s.userId == userId)
  }

  /** Deletes the caller's rows at an endpoint; another user's row at that endpoint stays. */
  function DeleteOwned(rows: seq<PushSubscription>, endpoint: string, userId: string): (r: seq<PushSubscription>)
    ensures forall s :: s in r <==> s in rows && !(s.endpoint == endpoint && s.userId == userId)
  {
    Filter(rows, NotOwnedAt(endpoint, userId))
  }

  lemma DeleteOwnedKeepsUnique(rows: seq<PushSubscription>, endpoint: string, userId: string)
    requires UniqueEndpoints(rows)
    ensures UniqueEndpoints(DeleteOwned(rows, endpoint, userId))
  {
    FilterKeepsUnique(rows, NotOwnedAt(endpoint, userId), EndpointOf);
  }

  /** `POST /api/push/subscribe` with body `{ endpoint, p256dh, auth }`. */
  method SubscribePost(db: Database, session: Option<string>, endpoint: string, p256dh: string, auth: string)
    returns (response: SubscribeResponse)
    requires db.Valid()
    modifies db
    ensures db.Valid() && db.users == old(db.users) && db.events == old(db.events)
    ensures !SignedIn(session) ==> response == Unauthorized && db.subscriptions == old(db.subscriptions)
    ensures SignedIn(session) ==>
              response == Ok && db.subscriptions == Upsert(old(db.subscriptions), session.value, endpoint, p256dh, auth)
  {
    if !SignedIn(session) {
      return Unauthorized;
    }
    UpsertKeepsUnique(db.subscriptions, session.value, endpoint, p256dh, auth);
    db.subscriptions := Upsert(db.subscriptions, session.value, endpoint, p256dh, auth);
    response := Ok;
  }

  /** `DELETE /api/push/subscribe` with body `{ endpoint }`. */
  method SubscribeDelete(db: Database, session: Option<string>, endpoint: string)
    returns (response: SubscribeResponse)
    requires db.Valid()
    modifies db
    ensures db.Valid() && db.users == old(db.users) && db.events == old(db.events)
    ensures !SignedIn(session) ==> response == Unauthorized && db.subscriptions == old(db.subscriptions)
    ensures SignedIn(session) ==>
              response == Ok && db.subscriptions == DeleteOwned(old(db.subscriptions), endpoint, session.value)
  {
    if !SignedIn(session) {
      return Unauthorized;
    }
    DeleteOwnedKeepsUnique(db.subscriptions, endpoint, session.value);
    db.subscriptions := DeleteOwned(db.subscriptions, endpoint, session.value);
    response := Ok;
  }
}
