/**
 * The delivery loop shared by the daily notification job and the test
 * route: send a payload to a subscription, count a success, and on a
 * 404/410 rejection delete every subscription row with that endpoint.  Any
 * other rejection is swallowed.
 */
module Delivery {
  import opened Wrappers
  import opened Seqs
  import opened Store

  /** The notification payload, before `JSON.stringify`; absent fields are `None`. */
  datatype Payload = Payload(title: string, body: string, tag: Option<string>, url: Option<string>)

  /** How `webpush.sendNotification` settles: resolved, or rejected with an error that may carry a `statusCode`. */
  datatype SendOutcome = Delivered | Failed(statusCode: Option<int>)

  /** The push transport, seen from outside: its outcome for a subscription and a payload. */
  type Transport = (PushSubscription, Payload) -> SendOutcome

  /** The rejections that prove a subscription dead (HTTP 410 Gone, 404 Not Found). */
  predicate IsGone(o: SendOutcome) {
    o.Failed? && (o.statusCode == Some(410) || o.statusCode == Some(404))
  }

  /** One `sendNotification` call of the loop. */
  datatype Attempt = Attempt(sub: PushSubscription, payload: Payload)

  /** The counters of a delivery pass and the subscription table as it stands. */
  datatype Tally = Tally(sent: nat, removed: nat, table: seq<PushSubscription>)

  /** One iteration of the loop body, `try { send; sent++ } catch { if 410/404: delete, removed++ }`. */
  function Step(t: Tally, a: Attempt, send: Transport): Tally {
    var o := send(a.sub, a.payload);
    if o.Delivered? then t.(sent := t.sent + 1)
    else if IsGone(o) then Tally(t.sent, t.removed + 1, DeleteByEndpoint(t.table, a.sub.endpoint))
    else t
  }

  /** The loop run over a sequence of attempts, starting from `t`. */
  function Run(attempts: seq<Attempt>, t: Tally, send: Transport): Tally {
    if attempts == [] then t
    else Step(Run(attempts[..|attempts| - 1], t, send), attempts[|attempts| - 1], send)
  }

  lemma RunSnoc(attempts: seq<Attempt>, a: Attempt, t: Tally, send: Transport)
    ensures Run(attempts + [a], t, send) == Step(Run(attempts, t, send), a, send)
  {
    assert (attempts + [a])[..|attempts|] == attempts;
  }

  /** Running two batches one after the other is running their concatenation. */
  lemma {:induction false} RunAppend(xs: seq<Attempt>, ys: seq<Attempt>, t: Tally, send: Transport)
    ensures Run(xs + ys, t, send) == Run(ys, Run(xs, t, send), send)
  {
    if ys == [] {
      assert xs + ys == xs;
    } else {
      var init, last := ys[..|ys| - 1], ys[|ys| - 1];
      RunAppend(xs, init, t, send);
      assert xs + ys == (xs + init) + [last];
      RunSnoc(xs + init, last, t, send);
      RunSnoc(init, last, Run(xs, t, send), send);
      assert ys == init + [last];
    }
  }

  /** The payload sent to every subscription of `subs`, in order. */
  function SendToAll(subs: seq<PushSubscription>, p: Payload): (r: seq<Attempt>)
    ensures |r| == |subs|
    ensures forall i :: 0 <= i < |r| ==> r[i] == Attempt(subs[i], p)
    ensures forall a :: a in r <==> a.sub in subs && a.payload == p
  {
    if subs == [] then [] else SendToAll(subs[..|subs| - 1], p) + [Attempt(subs[|subs| - 1], p)]
  }

  function Succeeded(send: Transport): Attempt -> bool {
    (a: Attempt) => send(a.sub, a.payload).Delivered?
  }

  function WasGone(send: Transport): Attempt -> bool {
    (a: Attempt) => IsGone(send(a.sub, a.payload))
  }

  /** The endpoints that some attempt found gone. */
  function GoneEndpoints(attempts: seq<Attempt>, send: Transport): set<string> {
    if attempts == [] then {}
    else
      var a := attempts[|attempts| - 1];
      GoneEndpoints(attempts[..|attempts| - 1], send)
        + (if IsGone(send(a.sub, a.payload)) then {a.sub.endpoint} else {})
  }

  /**
   * What a pass amounts to: `sent` grows by the number of successful sends,
   * `removed` by the number of 404/410 rejections (one per rejected attempt,
   * however many rows it deleted), and the table loses exactly the rows
   * whose endpoint some attempt found gone.  Other rejections change nothing.
   */
  lemma {:induction false} RunCounts(attempts: seq<Attempt>, t: Tally, send: Transport)
    ensures Run(attempts, t, send).sent == t.sent + Count(attempts, Succeeded(send))
    ensures Run(attempts, t, send).removed == t.removed + Count(attempts, WasGone(send))
    ensures forall s :: s in Run(attempts, t, send).table <==>
                          s in t.table && s.endpoint !in GoneEndpoints(attempts, send)
  {
    if attempts != [] {
      var init := attempts[..|attempts| - 1];
      RunCounts(init, t, send);
    }
  }

  /** A pass never sends more than it attempts. */
  lemma SentAtMostAttempts(attempts: seq<Attempt>, t: Tally, send: Transport)
    ensures Run(attempts, t, send).sent <= t.sent + |attempts|
    ensures Run(attempts, t, send).removed <= t.removed + |attempts|
  {
    RunCounts(attempts, t, send);
  }

  /**
   * Every rejected attempt counts, even one aimed at an endpoint an earlier
   * attempt already deleted: when all attempts come back 404/410, `removed`
   * grows by the number of attempts.
   */
  lemma EveryGoneAttemptCounts(attempts: seq<Attempt>, t: Tally, send: Transport)
    requires forall a :: a in attempts ==> IsGone(send(a.sub, a.payload))
    ensures Run(attempts, t, send).removed == t.removed + |attempts|
    ensures Run(attempts, t, send).sent == t.sent
  {
    RunCounts(attempts, t, send);
    FilterAll(attempts, WasGone(send));
    assert Count(attempts, Succeeded(send)) == 0;
  }

  /** The loop keeps subscription endpoints unique. */
  lemma {:induction false} RunKeepsUnique(attempts: seq<Attempt>, t: Tally, send: Transport)
    requires UniqueEndpoints(t.table)
    ensures UniqueEndpoints(Run(attempts, t, send).table)
  {
    if attempts != [] {
      var init := attempts[..|attempts| - 1];
      RunKeepsUnique(init, t, send);
      var a := attempts[|attempts| - 1];
      DeleteByEndpointKeepsUnique(Run(init, t, send).table, a.sub.endpoint);
    }
  }

  /**
   * The loop body as the routes run it against the database: send, then on a
   * 404/410 rejection delete the rows with the endpoint.
   */
  method Deliver(db: Database, sub: PushSubscription, p: Payload, send: Transport, sent: nat, removed: nat)
    returns (sent': nat, removed': nat)
    requires db.Valid()
    modifies db
    ensures db.Valid() && db.users == old(db.users) && db.events == old(db.events)
    ensures Tally(sent', removed', db.subscriptions)
         == Step(Tally(sent, removed, old(db.subscriptions)), Attempt(sub, p), send)
  {
    sent', removed' := sent, removed;
    var outcome := send(sub, p);
    if outcome.Delivered? {
      sent' := sent' + 1;
    } else if IsGone(outcome) {
      db.DeleteSubscriptionsByEndpoint(sub.endpoint);
      removed' := removed' + 1;
    }
  }

  /** The inner loop of both routes: the payload to each subscription in turn. */
  method Broadcast(db: Database, subs: seq<PushSubscription>, p: Payload, send: Transport, sent: nat, removed: nat)
    returns (sent': nat, removed': nat)
    requires db.Valid()
    modifies db
    ensures db.Valid() && db.users == old(db.users) && db.events == old(db.events)
    ensures Tally(sent', removed', db.subscriptions)
         == Run(SendToAll(subs, p), Tally(sent, removed, old(db.subscriptions)), send)
  {
    sent', removed' := sent, removed;
    ghost var start := Tally(sent, removed, db.subscriptions);
    for k := 0 to |subs|
      invariant db.Valid() && db.users == old(db.users) && db.events == old(db.events)
      invariant Tally(sent', removed', db.subscriptions) == Run(SendToAll(subs[..k], p), start, send)
    {
      sent', removed' := Deliver(db, subs[k], p, send, sent', removed');
      assert subs[..k + 1][..k] == subs[..k];
      RunSnoc(SendToAll(subs[..k], p), Attempt(subs[k], p), start, send);
    }
    assert subs[..|subs|] == subs;
  }
}
