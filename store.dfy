/**
 * The document store the handlers talk to: the `events` collection and the two
 * attendance collections `rsvps` and `event_statuses`, each a sequence of
 * documents in natural (insertion) order. Identifiers generated on insert come
 * from a counter. The functions here are the collection operations the handlers
 * call (FindOne, Find, UpdateOne, DeleteOne, DeleteMany); `Database.Valid` is the
 * invariant every handler keeps.
 */
module Store {
  import opened Wrappers
  import opened ObjectIds
  import opened Models
  import opened Membership

  /** The two attendance collections: `rsvps` (the routed one) and `event_statuses`. */
  datatype Collection = Rsvps | EventStatuses

  function Other(c: Collection): (o: Collection)
    ensures o != c
  {
    if c == Rsvps then EventStatuses else Rsvps
  }

  /** Which store call of a handler fails, if any. */
  datatype Fault = NoFault | FailEventRead | FailResponseRead | FailWrite | FailCascade

  // ------------------------------------------------------------ events

  predicate UniqueEventIds(events: seq<Event>) {
    forall i, j :: 0 <= i < j < |events| ==> events[i].id != events[j].id
  }

  /** FindOne by `_id`. */
  function FindEvent(events: seq<Event>, id: ObjectId): (r: Option<Event>)
    ensures r.Some? ==> r.value in events && r.value.id == id
    ensures r.None? ==> forall e :: e in events ==> e.id != id
  {
    if events == [] then None
    else if events[0].id == id then Some(events[0])
    else FindEvent(events[1..], id)
  }

  /** UpdateOne by `_id`: the document with the new version's ID is replaced by it. */
  function ReplaceEvent(events: seq<Event>, e: Event): (r: seq<Event>)
    ensures |r| == |events|
    ensures forall i :: 0 <= i < |events| ==> r[i] == if events[i].id == e.id then e else events[i]
  {
    seq(|events|, i requires 0 <= i < |events| => if events[i].id == e.id then e else events[i])
  }

  /**
   * Reading after an update by `_id`: the new version is found under its ID
   * exactly when some stored event had that ID, and every other ID finds what it
   * found before.
   */
  lemma {:induction false} FindAfterReplaceEvent(events: seq<Event>, e: Event)
    ensures FindEvent(ReplaceEvent(events, e), e.id) == if FindEvent(events, e.id).Some? then Some(e) else None
    ensures forall id :: id != e.id ==> FindEvent(ReplaceEvent(events, e), id) == FindEvent(events, id)
  {
    if events != [] {
      var tail := events[1..];
      assert ReplaceEvent(events, e)[1..] == ReplaceEvent(tail, e);
      FindAfterReplaceEvent(tail, e);
    }
  }

  /** DeleteOne by `_id`. */
  function RemoveEvent(events: seq<Event>, id: ObjectId): (r: seq<Event>)
    ensures |r| <= |events|
    ensures forall e :: e in r <==> e in events && e.id != id
  {
    if events == [] then []
    else
      var rest := RemoveEvent(events[1..], id);
      assert events == [events[0]] + events[1..];
      if events[0].id == id then rest else [events[0]] + rest
  }

  // ------------------------------------------------------- attendance records

  /** FindOne by `{event_id, user_id}`: the first such record. */
  function FindResponse(records: seq<EventStatus>, eventId: ObjectId, userId: ObjectId): (r: Option<EventStatus>)
    ensures r.Some? ==> r.value in records && r.value.eventId == eventId && r.value.userId == userId
    ensures r.None? ==> forall s :: s in records ==> !(s.eventId == eventId && s.userId == userId)
  {
    if records == [] then None
    else if records[0].eventId == eventId && records[0].userId == userId then Some(records[0])
    else FindResponse(records[1..], eventId, userId)
  }

  /** Find by `{event_id}` and, when given, `status`: matching records in natural order. */
  function ResponsesOf(records: seq<EventStatus>, eventId: ObjectId, status: Option<StatusValue>): (r: seq<EventStatus>)
    ensures |r| <= |records|
    ensures forall s :: s in r <==> s in records && s.eventId == eventId && (status.None? || s.status == status.value)
  {
    if records == [] then []
    else
      var rest := ResponsesOf(records[..|records| - 1], eventId, status);
      var last := records[|records| - 1];
      assert records == records[..|records| - 1] + [last];
      if last.eventId == eventId && (status.None? || last.status == status.value) then rest + [last] else rest
  }

  /**
   * UpdateOne by `_id` with `$set` of status and updated_at. This is ReplaceEvent
   * over the records collection: both match on the `id` field, which the two
   * document types declare separately.
   */
  function ReplaceResponse(records: seq<EventStatus>, s: EventStatus): (r: seq<EventStatus>)
    ensures |r| == |records|
    ensures forall i :: 0 <= i < |records| ==> r[i] == if records[i].id == s.id then s else records[i]
  {
    seq(|records|, i requires 0 <= i < |records| => if records[i].id == s.id then s else records[i])
  }

  /** DeleteMany by `{event_id}`. */
  function RemoveResponsesOf(records: seq<EventStatus>, eventId: ObjectId): (r: seq<EventStatus>)
    ensures |r| <= |records|
    ensures forall s :: s in r <==> s in records && s.eventId != eventId
  {
    if records == [] then []
    else
      var rest := RemoveResponsesOf(records[1..], eventId);
      assert records == [records[0]] + records[1..];
      if records[0].eventId == eventId then rest else [records[0]] + rest
  }

  // ------------------------------------------------------------ invariant

  /** Every stored event has a unique ID below the counter and exactly one organizer entry. */
  ghost predicate EventsValid(events: seq<Event>, nextId: ObjectId) {
    && UniqueEventIds(events)
    && (forall e :: e in events ==> e.id < nextId && CountRole(e.participants, Organizer) == 1)
  }

  /** No two records share an `_id`. */
  predicate DistinctRecordIds(records: seq<EventStatus>) {
    forall i, j :: 0 <= i < j < |records| ==> records[i].id != records[j].id
  }

  /** No two records share an (event, user) pair. */
  predicate OnePerUser(records: seq<EventStatus>) {
    forall i, j :: 0 <= i < j < |records| ==>
      !(records[i].eventId == records[j].eventId && records[i].userId == records[j].userId)
  }

  /**
   * Attendance records have unique IDs below the counter, refer to events created
   * before them, never hold `no_response`, are unique per (event, user), and belong
   * to a participant of their event while that event exists.
   */
  ghost predicate ResponsesValid(records: seq<EventStatus>, events: seq<Event>, nextId: ObjectId) {
    && DistinctRecordIds(records)
    && OnePerUser(records)
    && (forall s :: s in records ==> s.id < nextId && s.eventId < nextId && Submittable(s.status))
    && (forall s, e :: s in records && e in events && e.id == s.eventId ==> IsParticipant(e.participants, s.userId))
  }

  ghost predicate StoreValid(events: seq<Event>, rsvps: seq<EventStatus>, statuses: seq<EventStatus>, nextId: ObjectId) {
    EventsValid(events, nextId) && ResponsesValid(rsvps, events, nextId) && ResponsesValid(statuses, events, nextId)
  }

  class Database {
    var events: seq<Event>
    var rsvps: seq<EventStatus>
    var eventStatuses: seq<EventStatus>
    var nextId: ObjectId

    ghost predicate Valid()
      reads this
    {
      StoreValid(events, rsvps, eventStatuses, nextId)
    }

    function Responses(c: Collection): seq<EventStatus>
      reads this
    {
      match c
      case Rsvps => rsvps
      case EventStatuses => eventStatuses
    }

    constructor ()
      ensures Valid()
      ensures events == [] && rsvps == [] && eventStatuses == []
    {
      events, rsvps, eventStatuses, nextId := [], [], [], 0;
    }

    /** Writes one attendance collection back; nothing else changes. */
    method SetResponses(c: Collection, records: seq<EventStatus>)
      modifies this
      ensures Responses(c) == records && Responses(Other(c)) == old(Responses(Other(c)))
      ensures events == old(events) && nextId == old(nextId)
    {
      if c == Rsvps {
        rsvps := records;
      } else {
        eventStatuses := records;
      }
    }

    /** The identifier the store assigns to the next inserted document. */
    method GenerateId() returns (id: ObjectId)
      modifies this`nextId
      ensures id == old(nextId) && nextId == id + 1
    {
      id := nextId;
      nextId := nextId + 1;
    }
  }

  // ------------------------------------------------- invariant preservation

  /** Raising the counter keeps every bound. */
  lemma ResponsesValidRaise(records: seq<EventStatus>, events: seq<Event>, nextId: ObjectId, nextId': ObjectId)
    requires ResponsesValid(records, events, nextId) && nextId <= nextId'
    ensures ResponsesValid(records, events, nextId')
  {
  }

  /** Inserting an event under the counter's value, with one organizer entry, keeps the store valid. */
  lemma InsertEventValid(events: seq<Event>, rsvps: seq<EventStatus>, statuses: seq<EventStatus>,
                         nextId: ObjectId, e: Event)
    requires StoreValid(events, rsvps, statuses, nextId)
    requires e.id == nextId && CountRole(e.participants, Organizer) == 1
    ensures StoreValid(events + [e], rsvps, statuses, nextId + 1)
  {
    var events' := events + [e];
    assert forall j :: 0 <= j < |events| ==> events'[j] == events[j];
    InsertEventResponses(rsvps, events, nextId, e);
    InsertEventResponses(statuses, events, nextId, e);
  }

  lemma InsertEventResponses(records: seq<EventStatus>, events: seq<Event>, nextId: ObjectId, e: Event)
    requires ResponsesValid(records, events, nextId) && e.id == nextId
    ensures ResponsesValid(records, events + [e], nextId + 1)
  {
  }

  /**
   * Replacing a stored event by a version with the same ID, one organizer entry and
   * every user the old version listed keeps the store valid.
   */
  lemma ReplaceEventValid(events: seq<Event>, rsvps: seq<EventStatus>, statuses: seq<EventStatus>,
                          nextId: ObjectId, old_: Event, new_: Event)
    requires StoreValid(events, rsvps, statuses, nextId)
    requires old_ in events && new_.id == old_.id
    requires CountRole(new_.participants, Organizer) == 1
    requires forall u :: IsParticipant(old_.participants, u) ==> IsParticipant(new_.participants, u)
    ensures StoreValid(ReplaceEvent(events, new_), rsvps, statuses, nextId)
  {
    var events' := ReplaceEvent(events, new_);
    ReplaceEventResponses(rsvps, events, nextId, old_, new_);
    ReplaceEventResponses(statuses, events, nextId, old_, new_);
  }

  lemma ReplaceEventResponses(records: seq<EventStatus>, events: seq<Event>, nextId: ObjectId, old_: Event, new_: Event)
    requires UniqueEventIds(events) && ResponsesValid(records, events, nextId)
    requires old_ in events && new_.id == old_.id
    requires forall u :: IsParticipant(old_.participants, u) ==> IsParticipant(new_.participants, u)
    ensures ResponsesValid(records, ReplaceEvent(events, new_), nextId)
  {
    var events' := ReplaceEvent(events, new_);
    forall s, e | s in records && e in events' && e.id == s.eventId
      ensures IsParticipant(e.participants, s.userId)
    {
      var j :| 0 <= j < |events'| && events'[j] == e;
      if events[j].id == new_.id {
        var k :| 0 <= k < |events| && events[k] == old_;
        assert k == j;
      }
    }
  }

  /** Deleting an event, with or without its records in one collection, keeps the store valid. */
  lemma RemoveEventValid(events: seq<Event>, rsvps: seq<EventStatus>, statuses: seq<EventStatus>,
                         nextId: ObjectId, id: ObjectId, rsvps': seq<EventStatus>)
    requires StoreValid(events, rsvps, statuses, nextId)
    requires rsvps' == rsvps || rsvps' == RemoveResponsesOf(rsvps, id)
    ensures StoreValid(RemoveEvent(events, id), rsvps', statuses, nextId)
  {
    var events' := RemoveEvent(events, id);
    RemoveEventEvents(events, nextId, id);
    RemoveEventResponses(rsvps, events, nextId, id);
    RemoveEventResponses(statuses, events, nextId, id);
    if rsvps' != rsvps {
      RemoveResponsesValid(rsvps, events', nextId, id);
    }
  }

  lemma RemoveEventEvents(events: seq<Event>, nextId: ObjectId, id: ObjectId)
    requires EventsValid(events, nextId)
    ensures EventsValid(RemoveEvent(events, id), nextId)
  {
    RemoveEventUnique(events, id);
  }

  lemma {:induction false} RemoveEventUnique(events: seq<Event>, id: ObjectId)
    requires UniqueEventIds(events)
    ensures UniqueEventIds(RemoveEvent(events, id))
  {
    if events != [] {
      var tail := events[1..];
      RemoveEventUnique(tail, id);
      var rest := RemoveEvent(tail, id);
      if events[0].id != id {
        var r := [events[0]] + rest;
        forall j | 1 <= j < |r| ensures r[j].id != events[0].id {
          assert r[j] in tail;
        }
      }
    }
  }

  lemma RemoveEventResponses(records: seq<EventStatus>, events: seq<Event>, nextId: ObjectId, id: ObjectId)
    requires ResponsesValid(records, events, nextId)
    ensures ResponsesValid(records, RemoveEvent(events, id), nextId)
  {
  }

  /** Removing records keeps the record invariant (it only restricts). */
  lemma RemoveResponsesValid(records: seq<EventStatus>, events: seq<Event>, nextId: ObjectId, id: ObjectId)
    requires ResponsesValid(records, events, nextId)
    ensures ResponsesValid(RemoveResponsesOf(records, id), events, nextId)
  {
    RemoveResponsesDistinct(records, id);
  }

  lemma {:induction false} RemoveResponsesDistinct(records: seq<EventStatus>, id: ObjectId)
    requires DistinctRecordIds(records) && OnePerUser(records)
    ensures DistinctRecordIds(RemoveResponsesOf(records, id)) && OnePerUser(RemoveResponsesOf(records, id))
  {
    if records != [] {
      var tail := records[1..];
      RemoveResponsesDistinct(tail, id);
      var rest := RemoveResponsesOf(tail, id);
      if records[0].eventId != id {
        var r := [records[0]] + rest;
        forall j | 1 <= j < |r|
          ensures r[j].id != records[0].id
          ensures !(r[j].eventId == records[0].eventId && r[j].userId == records[0].userId)
        {
          assert r[j] in rest;
          assert r[j] in tail;
        }
      }
    }
  }

  /** A query for an event none of whose records remain finds nothing. */
  lemma {:induction false} ResponsesOfAbsent(records: seq<EventStatus>, eventId: ObjectId, status: Option<StatusValue>)
    requires forall s :: s in records ==> s.eventId != eventId
    ensures ResponsesOf(records, eventId, status) == []
  {
    if records != [] {
      var init := records[..|records| - 1];
      assert forall s :: s in init ==> s in records;
      ResponsesOfAbsent(init, eventId, status);
      assert records[|records| - 1] in records;
    }
  }

  // ------------------------------------------------------------ upsert

  /**
   * The response upsert: the record of the (event, user) pair, when one exists,
   * gets the new status and updated_at; otherwise a fresh record is appended.
   */
  function Upsert(records: seq<EventStatus>, eventId: ObjectId, userId: ObjectId, status: StatusValue,
                  now: Time, freshId: ObjectId): seq<EventStatus>
  {
    match FindResponse(records, eventId, userId)
    case Some(s) => ReplaceResponse(records, s.(status := status, updatedAt := now))
    case None => records + [EventStatus(freshId, eventId, userId, status, now, now)]
  }

  /**
   * After an upsert the pair's record holds the new status, an insert adds
   * exactly one record, and every record of another pair is left as it was.
   */
  lemma UpsertRecords(records: seq<EventStatus>, eventId: ObjectId, userId: ObjectId, status: StatusValue,
                      now: Time, freshId: ObjectId)
    requires DistinctRecordIds(records)
    ensures var r := Upsert(records, eventId, userId, status, now, freshId);
      && FindResponse(r, eventId, userId).Some?
      && FindResponse(r, eventId, userId).value.status == status
      && FindResponse(r, eventId, userId).value.updatedAt == now
      && |r| == |records| + (if FindResponse(records, eventId, userId).Some? then 0 else 1)
      && forall s :: s in records && !(s.eventId == eventId && s.userId == userId) ==> s in r
  {
    var r := Upsert(records, eventId, userId, status, now, freshId);
    match FindResponse(records, eventId, userId)
    case Some(s) =>
      var s' := s.(status := status, updatedAt := now);
      FindAfterReplace(records, eventId, userId, s');
      forall t | t in records && !(t.eventId == eventId && t.userId == userId) ensures t in r {
        var k :| 0 <= k < |records| && records[k] == t;
        assert r[k] == t;
      }
    case None =>
      FindAfterAppend(records, eventId, userId, EventStatus(freshId, eventId, userId, status, now, now));
  }

  lemma {:induction false} FindAfterReplace(records: seq<EventStatus>, eventId: ObjectId, userId: ObjectId, s': EventStatus)
    requires DistinctRecordIds(records)
    requires FindResponse(records, eventId, userId).Some?
    requires s'.id == FindResponse(records, eventId, userId).value.id
    requires s'.eventId == eventId && s'.userId == userId
    ensures FindResponse(ReplaceResponse(records, s'), eventId, userId) == Some(s')
  {
    var r := ReplaceResponse(records, s');
    if !(records[0].eventId == eventId && records[0].userId == userId) {
      var tail := records[1..];
      var s := FindResponse(records, eventId, userId).value;
      var j :| 0 <= j < |tail| && tail[j] == s;
      assert records[j + 1] == s;
      assert r[0] == records[0];
      assert r[1..] == ReplaceResponse(tail, s');
      FindAfterReplace(tail, eventId, userId, s');
    }
  }

  lemma {:induction false} FindAfterAppend(records: seq<EventStatus>, eventId: ObjectId, userId: ObjectId, s': EventStatus)
    requires FindResponse(records, eventId, userId).None?
    requires s'.eventId == eventId && s'.userId == userId
    ensures FindResponse(records + [s'], eventId, userId) == Some(s')
  {
    if records != [] {
      assert (records + [s'])[1..] == records[1..] + [s'];
      FindAfterAppend(records[1..], eventId, userId, s');
    }
  }

  /**
   * An upsert by a participant of a stored event, with a submittable status,
   * keeps the record invariant, one record per (event, user) included; an
   * insert uses the counter's value and raises it.
   */
  lemma UpsertValid(records: seq<EventStatus>, events: seq<Event>, nextId: ObjectId, e: Event,
                    userId: ObjectId, status: StatusValue, now: Time)
    requires ResponsesValid(records, events, nextId) && EventsValid(events, nextId)
    requires e in events && IsParticipant(e.participants, userId) && Submittable(status)
    ensures ResponsesValid(Upsert(records, e.id, userId, status, now, nextId), events,
                           if FindResponse(records, e.id, userId).Some? then nextId else nextId + 1)
  {
    var r := Upsert(records, e.id, userId, status, now, nextId);
    match FindResponse(records, e.id, userId)
    case Some(s) =>
      var s' := s.(status := status, updatedAt := now);
      assert forall t :: t in r ==> t in records || t == s' by {
        forall t | t in r ensures t in records || t == s' {
          var k :| 0 <= k < |r| && r[k] == t;
        }
      }
      assert forall i :: 0 <= i < |r| ==> r[i].id == records[i].id && r[i].eventId == records[i].eventId
                                          && r[i].userId == records[i].userId;
    case None =>
      var k :| 0 <= k < |events| && events[k] == e;
      assert e.id < nextId;
      var created := EventStatus(nextId, e.id, userId, status, now, now);
      assert r == records + [created];
      assert forall i :: 0 <= i < |records| ==> records[i] in records;
      assert forall t :: t in r ==> t in records || t == created;
  }

  /** No two records belong to the same user. */
  predicate DistinctResponders(rs: seq<EventStatus>) {
    forall i, j :: 0 <= i < j < |rs| ==> rs[i].userId != rs[j].userId
  }

  /** With one record per (event, user), the records of one event belong to distinct users. */
  lemma {:induction false} ResponsesOfDistinctUsers(records: seq<EventStatus>, eventId: ObjectId, status: Option<StatusValue>)
    requires OnePerUser(records)
    ensures DistinctResponders(ResponsesOf(records, eventId, status))
  {
    if records != [] {
      var init := records[..|records| - 1];
      var last := records[|records| - 1];
      ResponsesOfDistinctUsers(init, eventId, status);
      var rest := ResponsesOf(init, eventId, status);
      assert DistinctResponders(rest);
      if last.eventId == eventId && (status.None? || last.status == status.value) {
        var rs := rest + [last];
        forall i | 0 <= i < |rest| ensures rest[i].userId != last.userId {
          assert rest[i] in rest;
          var k :| 0 <= k < |init| && init[k] == rest[i];
          assert records[k] == rest[i] && records[|records| - 1] == last;
          assert rest[i].eventId == last.eventId;
        }
        forall i, j | 0 <= i < j < |rs| ensures rs[i].userId != rs[j].userId {
          assert rs[i] == rest[i];
          if j < |rest| {
            assert rs[j] == rest[j];
            assert rest[i].userId != rest[j].userId;
          } else {
            assert rs[j] == last;
          }
        }
        assert ResponsesOf(records, eventId, status) == rs;
      } else {
        assert ResponsesOf(records, eventId, status) == rest;
      }
    }
  }
}
