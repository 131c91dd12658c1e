/** The newsletter service
    (backend/src/modules/newsletter/newsletter.service.ts) over an in-memory
    subscriber table. A record is active while `unsubscribedAt` is null. */
module Newsletter {
  import opened Common
  import opened Query

  datatype Subscriber = Subscriber(id: Id, email: string, subscribedAt: Timestamp, unsubscribedAt: Option<Timestamp>)

  predicate Active(s: Subscriber) {
    s.unsubscribedAt.None?
  }

  function SubscribedKey(s: Subscriber): int {
    s.subscribedAt
  }

  /** The email column is UNIQUE and ids are primary keys. */
  ghost predicate TableValid(subs: seq<Subscriber>) {
    (forall i, j :: 0 <= i < j < |subs| ==> subs[i].email != subs[j].email) &&
    (forall i, j :: 0 <= i < j < |subs| ==> subs[i].id != subs[j].id)
  }

  /** The `{ email }` condition of the queries. The e-mail comes from the
      request body unchecked, and TypeORM leaves a condition whose value is
      undefined out of the query, so with no e-mail every record matches. */
  predicate EmailMatches(s: Subscriber, email: Option<string>) {
    email.None? || s.email == email.value
  }

  /** `findOne({ where: { email } })`. */
  function IndexOfEmail(subs: seq<Subscriber>, email: Option<string>): (r: Option<nat>)
    ensures r.Some? ==> r.value < |subs| && EmailMatches(subs[r.value], email)
    ensures r.None? ==> forall i :: 0 <= i < |subs| ==> !EmailMatches(subs[i], email)
    ensures email.None? ==> (r.None? <==> subs == []) && (r.Some? ==> r.value == 0)
  {
    FindFirst(subs, (s: Subscriber) => EmailMatches(s, email))
  }

  /** The table after `subscribe(email)`: an active record is left alone
      (the call fails), an unsubscribed one is reactivated in place, and an
      unknown email gets one new active record stamped with the clock. With
      no e-mail the first record is the one found, and on an empty table
      the insert is refused by the NOT NULL `email` column. */
  function AfterSubscribe(subs: seq<Subscriber>, email: Option<string>, id: Id, now: Timestamp): (r: seq<Subscriber>)
    ensures IndexOfEmail(subs, email).None? && email.Some? ==> r == subs + [Subscriber(id, email.value, now, None)]
    ensures IndexOfEmail(subs, email).None? && email.None? ==> r == subs
    ensures IndexOfEmail(subs, email).Some? ==> |r| == |subs|
    ensures forall i :: 0 <= i < |subs| && !EmailMatches(subs[i], email) ==> r[i] == subs[i]
    ensures forall i :: 0 <= i < |subs| && IndexOfEmail(subs, email) != Some(i) ==> r[i] == subs[i]
    ensures var k := IndexOfEmail(subs, email);
      k.Some? ==> r[k.value] == subs[k.value].(unsubscribedAt := None)
  {
    match IndexOfEmail(subs, email)
    case None => if email.None? then subs else subs + [Subscriber(id, email.value, now, None)]
    case Some(i) => subs[i := subs[i].(unsubscribedAt := None)]
  }

  /** The table after `unsubscribe(email)`: every record the condition
      selects is stamped, all of them when there is no e-mail; nothing
      else changes. */
  function AfterUnsubscribe(subs: seq<Subscriber>, email: Option<string>, now: Timestamp): (r: seq<Subscriber>)
    ensures |r| == |subs|
    ensures forall i :: 0 <= i < |subs| && !EmailMatches(subs[i], email) ==> r[i] == subs[i]
    ensures forall i :: 0 <= i < |subs| && EmailMatches(subs[i], email) ==>
      r[i] == subs[i].(unsubscribedAt := Some(now))
  {
    seq(|subs|, i requires 0 <= i < |subs| =>
      if EmailMatches(subs[i], email) then subs[i].(unsubscribedAt := Some(now)) else subs[i])
  }

  /** Subscribing never creates a second record for an email. */
  lemma SubscribeKeepsValid(subs: seq<Subscriber>, email: Option<string>, id: Id, now: Timestamp)
    requires TableValid(subs)
    requires forall i :: 0 <= i < |subs| ==> subs[i].id != id
    ensures TableValid(AfterSubscribe(subs, email, id, now))
  {
    var r := AfterSubscribe(subs, email, id, now);
    if IndexOfEmail(subs, email).Some? {
      assert forall i :: 0 <= i < |subs| ==> r[i].email == subs[i].email && r[i].id == subs[i].id;
    }
  }

  lemma UnsubscribeKeepsValid(subs: seq<Subscriber>, email: Option<string>, now: Timestamp)
    requires TableValid(subs)
    ensures TableValid(AfterUnsubscribe(subs, email, now))
  {
    var r := AfterUnsubscribe(subs, email, now);
    assert forall i :: 0 <= i < |subs| ==> r[i].email == subs[i].email && r[i].id == subs[i].id;
  }

  /** After `subscribe(email)` the email has exactly one record, and it is
      active. */
  lemma {:induction false} SubscribedIsActive(subs: seq<Subscriber>, email: string, id: Id, now: Timestamp)
    requires TableValid(subs)
    requires forall i :: 0 <= i < |subs| ==> subs[i].id != id
    ensures var t := AfterSubscribe(subs, Some(email), id, now);
      exists k :: 0 <= k < |t| && t[k].email == email && Active(t[k]) &&
        forall j :: 0 <= j < |t| && t[j].email == email ==> j == k
  {
    var t := AfterSubscribe(subs, Some(email), id, now);
    SubscribeKeepsValid(subs, Some(email), id, now);
    var k := match IndexOfEmail(subs, Some(email)) case None => |subs| case Some(i) => i;
    assert t[k].email == email && Active(t[k]);
    forall j | 0 <= j < |t| && t[j].email == email ensures j == k {
      assert t[j].email == t[k].email;
    }
  }

  /** Unsubscribing and then subscribing again reactivates the same record:
      the table keeps its size and the record keeps its id and its
      subscription time. */
  lemma {:induction false} ResubscribeReusesRecord(subs: seq<Subscriber>, email: string, i: nat,
                                                   id: Id, t1: Timestamp, t2: Timestamp)
    requires TableValid(subs) && i < |subs| && subs[i].email == email
    ensures |AfterSubscribe(AfterUnsubscribe(subs, Some(email), t1), Some(email), id, t2)| == |subs|
    ensures AfterSubscribe(AfterUnsubscribe(subs, Some(email), t1), Some(email), id, t2)[i] == subs[i].(unsubscribedAt := None)
  {
    var u := AfterUnsubscribe(subs, Some(email), t1);
    assert u[i].email == email;
    assert IndexOfEmail(u, Some(email)).Some?;
  }

  class NewsletterService {
    var subscribers: seq<Subscriber>

    ghost predicate Valid()
      reads this
    {
      TableValid(subscribers)
    }

    constructor()
      ensures Valid() && subscribers == []
    {
      subscribers := [];
    }

    /** `subscribe(email)`; `id` is the generated primary key and `now` the
        default `subscribedAt` of a new record. */
    method Subscribe(email: Option<string>, id: Id, now: Timestamp) returns (r: Result<Subscriber>)
      requires Valid()
      requires forall i :: 0 <= i < |subscribers| ==> subscribers[i].id != id
      modifies this
      ensures Valid()
      ensures var k := IndexOfEmail(old(subscribers), email);
        r.Err? <==> (k.Some? && Active(old(subscribers)[k.value])) || (k.None? && email.None?)
      ensures email.Some? ==> (r.Err? <==> exists i :: (0 <= i < |old(subscribers)| &&
        old(subscribers)[i].email == email.value && Active(old(subscribers)[i])))
      ensures r.Err? ==> subscribers == old(subscribers)
      ensures r.Err? ==> r.error == if email.None? && old(subscribers) == [] then NotNullViolation("email")
                                    else Conflict("Email is already subscribed")
      ensures r.Ok? ==> subscribers == AfterSubscribe(old(subscribers), email, id, now)
      ensures r.Ok? ==> EmailMatches(r.value, email) && Active(r.value) && r.value in subscribers
    {
      var found := IndexOfEmail(subscribers, email);
      if found.Some? && Active(subscribers[found.value]) {
        return Err(Conflict("Email is already subscribed"));
      }
      SubscribeKeepsValid(subscribers, email, id, now);
      if found.Some? {
        var i := found.value;
        var existing := subscribers[i].(unsubscribedAt := None);
        subscribers := subscribers[i := existing];
        return Ok(existing);
      }
      if email.None? {
        return Err(NotNullViolation("email"));
      }
      var subscriber := Subscriber(id, email.value, now, None);
      subscribers := subscribers + [subscriber];
      r := Ok(subscriber);
    }

    /** `unsubscribe(email)`: never fails. */
    method Unsubscribe(email: Option<string>, now: Timestamp)
      requires Valid()
      modifies this
      ensures Valid()
      ensures subscribers == AfterUnsubscribe(old(subscribers), email, now)
    {
      UnsubscribeKeepsValid(subscribers, email, now);
      subscribers := AfterUnsubscribe(subscribers, email, now);
    }

    /** `findAll()`: every record, active or not, newest subscription first. */
    function FindAll(): (r: seq<Subscriber>)
      reads this
      ensures multiset(r) == multiset(subscribers)
      ensures SortedDesc(r, SubscribedKey)
    {
      SortDesc(subscribers, SubscribedKey)
    }
  }
}
