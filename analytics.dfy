/** The analytics service (backend/src/modules/analytics/analytics.service.ts)
    over an in-memory event table, with the controller's defaulting of the
    request (analytics.controller.ts). */
module Analytics {
  import opened Common
  import opened Query
  import Text

  datatype Event = Event(
    id: Id,
    eventType: string,
    payload: Option<Json>,
    sessionId: Option<string>,
    userAgent: Option<string>,
    ipAddress: Option<string>,
    createdAt: Timestamp)

  function CreatedKey(e: Event): int {
    e.createdAt
  }

  /** What `POST /analytics/events` receives: the body's `eventType`,
      `payload` and `sessionId`, the `user-agent` header and the client
      address, each possibly missing. */
  datatype TrackRequest = TrackRequest(
    eventType: Option<string>,
    payload: Option<Json>,
    sessionId: Option<string>,
    userAgent: Option<string>,
    ip: Option<string>)

  /** `s || null` for a string: a missing or empty string becomes null. */
  function OrNull(s: Option<string>): (r: Option<string>)
    ensures r.Some? <==> s.Some? && s.value != ""
    ensures r.Some? ==> r == s
  {
    if s.Some? && s.value != "" then s else None
  }

  /** `payload || null`: a missing or falsy payload becomes null. */
  function PayloadOrNull(p: Option<Json>): (r: Option<Json>)
    ensures r.Some? <==> p.Some? && Truthy(p.value)
    ensures r.Some? ==> r == p
  {
    if p.Some? && Truthy(p.value) then p else None
  }

  /** The row `trackEvent` saves for a request: the NOT NULL `event_type`
      column refuses a request without an event type. */
  function TrackedEvent(req: TrackRequest, id: Id, now: Timestamp): (r: Result<Event>)
    ensures r.Err? <==> req.eventType.None?
    ensures r.Err? ==> r.error == NotNullViolation("event_type")
    ensures r.Ok? ==> r.value.id == id && r.value.createdAt == now && r.value.eventType == req.eventType.value
    ensures r.Ok? ==> r.value.payload == PayloadOrNull(req.payload)
    ensures r.Ok? ==> r.value.sessionId == OrNull(req.sessionId)
    ensures r.Ok? ==> r.value.userAgent == OrNull(req.userAgent) && r.value.ipAddress == OrNull(req.ip)
  {
    match req.eventType
    case None => Err(NotNullViolation("event_type"))
    case Some(t) =>
      Ok(Event(id, t, PayloadOrNull(req.payload), OrNull(req.sessionId), OrNull(req.userAgent), OrNull(req.ip), now))
  }

  /** The `where: { eventType }` condition. TypeORM leaves a condition
      whose value is undefined out of the query, so with no type given
      every event matches. */
  predicate OfType(e: Event, t: Option<string>) {
    t.None? || e.eventType == t.value
  }

  /** The events the condition selects, in table order. */
  function EventsOfType(s: seq<Event>, t: Option<string>): (r: seq<Event>)
    ensures forall e :: e in r <==> e in s && OfType(e, t)
    ensures t.None? ==> r == s
  {
    var p := (e: Event) => OfType(e, t);
    assert t.None? ==> Filter(s, p) == s by {
      if t.None? {
        FilterAll(s, p);
      }
    }
    Filter(s, p)
  }

  /** Number of events of type `t`. */
  function CountType(s: seq<Event>, t: string): (n: nat)
    ensures n <= |s|
    ensures n == 0 <==> forall i :: 0 <= i < |s| ==> s[i].eventType != t
  {
    if s == [] then 0
    else CountType(s[..|s| - 1], t) + (if s[|s| - 1].eventType == t then 1 else 0)
  }

  predicate Distinct(ts: seq<string>) {
    forall i, j :: 0 <= i < j < |ts| ==> ts[i] != ts[j]
  }

  /** The event types present in the table, each once, in order of first
      occurrence. */
  function DistinctTypes(s: seq<Event>): (r: seq<string>)
    ensures Distinct(r)
    ensures forall t :: t in r <==> exists i :: 0 <= i < |s| && s[i].eventType == t
  {
    if s == [] then []
    else
      var r := DistinctTypes(s[..|s| - 1]);
      var t := s[|s| - 1].eventType;
      if t in r then r else r + [t]
  }

  /** One row of `SELECT event_type, COUNT(*) ... GROUP BY event_type`; the
      driver hands the bigint count over as text. */
  datatype GroupRow = GroupRow(eventType: string, count: string)

  /** The grouped rows. The database promises no row order; this is the
      order of first occurrence, and the summary does not depend on it
      since every type has one row. */
  function GroupCounts(s: seq<Event>): (rows: seq<GroupRow>)
    ensures |rows| == |DistinctTypes(s)|
    ensures forall i :: 0 <= i < |rows| ==> rows[i].eventType == DistinctTypes(s)[i]
    ensures forall i :: 0 <= i < |rows| ==> rows[i].count == Text.Digits(CountType(s, rows[i].eventType))
  {
    var ts := DistinctTypes(s);
    seq(|ts|, i requires 0 <= i < |ts| => GroupRow(ts[i], Text.DecimalText(CountType(s, ts[i]))))
  }

  /** The sum of the counts of the types `ts`. */
  function SumCounts(s: seq<Event>, ts: seq<string>): nat {
    if ts == [] then 0 else SumCounts(s, ts[..|ts| - 1]) + CountType(s, ts[|ts| - 1])
  }

  /** The sum of `m`'s values at the keys `ts`. */
  function SumAt(m: map<string, nat>, ts: seq<string>): nat
    requires forall i :: 0 <= i < |ts| ==> ts[i] in m
  {
    if ts == [] then 0 else SumAt(m, ts[..|ts| - 1]) + m[ts[|ts| - 1]]
  }

  /** One more event adds one to the sum exactly when its type is listed. */
  lemma {:induction false} SumCountsSnoc(s: seq<Event>, e: Event, ts: seq<string>)
    requires Distinct(ts)
    ensures SumCounts(s + [e], ts) == SumCounts(s, ts) + (if e.eventType in ts then 1 else 0)
  {
    assert (s + [e])[..|s|] == s;
    if ts != [] {
      var init := ts[..|ts| - 1];
      assert Distinct(init);
      SumCountsSnoc(s, e, init);
      assert e.eventType in ts <==> e.eventType in init || e.eventType == ts[|ts| - 1];
      assert e.eventType == ts[|ts| - 1] ==> e.eventType !in init;
    }
  }

  /** Listing one more type whose count is zero leaves the sum unchanged. */
  lemma SumCountsAbsent(s: seq<Event>, ts: seq<string>, t: string)
    requires CountType(s, t) == 0
    ensures SumCounts(s, ts + [t]) == SumCounts(s, ts)
  {
    assert (ts + [t])[..|ts|] == ts;
  }

  /** The per-type counts add up to the number of events. */
  lemma {:induction false} CountsAddUp(s: seq<Event>)
    ensures SumCounts(s, DistinctTypes(s)) == |s|
  {
    if s != [] {
      var init := s[..|s| - 1];
      var e := s[|s| - 1];
      assert s == init + [e];
      var ts := DistinctTypes(init);
      CountsAddUp(init);
      SumCountsSnoc(init, e, ts);
      if e.eventType !in ts {
        SumCountsAbsent(init, ts, e.eventType);
        SumCountsSnoc(init, e, ts + [e.eventType]);
        assert (ts + [e.eventType])[..|ts|] == ts;
      }
    }
  }

  /** A map that holds each listed type's count sums to the sum of counts. */
  lemma {:induction false} SumAtCounts(s: seq<Event>, m: map<string, nat>, ts: seq<string>)
    requires forall i :: 0 <= i < |ts| ==> ts[i] in m && m[ts[i]] == CountType(s, ts[i])
    ensures SumAt(m, ts) == SumCounts(s, ts)
  {
    if ts != [] {
      SumAtCounts(s, m, ts[..|ts| - 1]);
    }
  }

  /** `parseInt(count, 10)` on the count text of a row. */
  function ParseCount(text: string): (n: nat)
    requires forall i :: 0 <= i < |text| ==> Text.IsDigit(text[i])
  {
    Text.ParseDigits(text)
  }

  class AnalyticsService {
    var events: seq<Event>

    ghost predicate Valid()
      reads this
    {
      forall i, j :: 0 <= i < j < |events| ==> events[i].id != events[j].id
    }

    constructor()
      ensures Valid() && events == []
    {
      events := [];
    }

    /** `trackEvent(data)` with the controller's defaults: one event is
        appended, or nothing changes when the event type is missing. */
    method TrackEvent(req: TrackRequest, id: Id, now: Timestamp) returns (r: Result<Event>)
      requires Valid()
      requires forall i :: 0 <= i < |events| ==> events[i].id != id
      modifies this
      ensures Valid()
      ensures r == TrackedEvent(req, id, now)
      ensures r.Ok? ==> events == old(events) + [r.value]
      ensures r.Err? ==> events == old(events)
    {
      r := TrackedEvent(req, id, now);
      if r.Ok? {
        events := events + [r.value];
      }
    }

    /** `getEventsByType(eventType)`: the selected events, newest first, at
        most 100 of them, and no selected event left out is newer than one
        returned. A missing type selects every event. */
    function GetEventsByType(eventType: Option<string>): (r: seq<Event>)
      reads this
      ensures |r| <= 100
      ensures forall i :: 0 <= i < |r| ==> OfType(r[i], eventType) && r[i] in events
      ensures SortedDesc(r, CreatedKey)
      ensures eventType.Some? ==>
        |r| == if CountType(events, eventType.value) < 100 then CountType(events, eventType.value) else 100
      ensures eventType.None? ==> |r| == if |events| < 100 then |events| else 100
      ensures NewestOf(r, EventsOfType(events, eventType), CreatedKey)
    {
      var hits := EventsOfType(events, eventType);
      TakeNewest(hits, 100, CreatedKey);
      FilterCount(events, eventType);
      var r := TakeAtMost(SortDesc(hits, CreatedKey), 100);
      assert forall i :: 0 <= i < |r| ==> OfType(r[i], eventType) && r[i] in events by {
        forall i | 0 <= i < |r| ensures OfType(r[i], eventType) && r[i] in events {
          assert r[i] in hits;
        }
      }
      r
    }

    /** `getSummary()`: the number of events, and for each event type
        present exactly one key holding that type's count. */
    method GetSummary() returns (totalEvents: nat, eventTypes: map<string, nat>)
      ensures totalEvents == |events|
      ensures forall t :: t in eventTypes <==> exists i :: 0 <= i < |events| && events[i].eventType == t
      ensures forall t :: t in eventTypes ==> eventTypes[t] == CountType(events, t)
      ensures (forall i :: 0 <= i < |DistinctTypes(events)| ==> DistinctTypes(events)[i] in eventTypes) &&
        SumAt(eventTypes, DistinctTypes(events)) == totalEvents
    {
      totalEvents := |events|;
      var raw := GroupCounts(events);
      ghost var ts := DistinctTypes(events);
      eventTypes := map[];
      for i := 0 to |raw|
        invariant forall t :: t in eventTypes <==> t in ts[..i]
        invariant forall t :: t in eventTypes ==> eventTypes[t] == CountType(events, t)
      {
        var row := raw[i];
        Text.ParseDigitsRoundTrip(CountType(events, row.eventType));
        eventTypes := eventTypes[row.eventType := ParseCount(row.count)];
        assert ts[..i + 1] == ts[..i] + [ts[i]];
      }
      assert ts[..|raw|] == ts;
      SumAtCounts(events, eventTypes, ts);
      CountsAddUp(events);
    }
  }

  /** The `where` filter on a type keeps exactly the events counted for
      it. */
  lemma {:induction false} FilterCount(s: seq<Event>, t: Option<string>)
    ensures t.Some? ==> |EventsOfType(s, t)| == CountType(s, t.value)
  {
    if s != [] && t.Some? {
      var init := s[..|s| - 1];
      FilterCount(init, t);
      assert s == init + [s[|s| - 1]];
      FilterAppend(init, s[|s| - 1], (e: Event) => OfType(e, t));
    }
  }
}
