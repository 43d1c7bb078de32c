/**
 * The event handlers (controllers/event_controller.go): create an event with the
 * caller as its organizer, list the events the caller organizes or is invited
 * to, read one event, and, for an organizer only, invite users, patch the event
 * and delete it together with its RSVP records.
 */
module EventController {
  import opened Wrappers
  import opened ObjectIds
  import opened Models
  import opened Membership
  import opened Query
  import opened Outcomes
  import opened Store
  import opened Access

  // ------------------------------------------------------------ create

  /** The event a valid create request produces: the caller is its one participant, as organizer. */
  function NewEvent(id: ObjectId, req: CreateEventRequest, owner: ObjectId, now: Time): (e: Event)
    ensures e.id == id && e.createdAt == now && e.updatedAt == now
    ensures e.title == req.title && e.description == req.description && e.date == req.date
    ensures e.time == req.time && e.location == req.location
    ensures |e.participants| == 1 && HasRole(e.participants, owner, Organizer)
    ensures CountRole(e.participants, Organizer) == 1
  {
    var ps := [Participant(owner, Organizer)];
    assert ps[..0] == [];
    assert ps[0].userId == owner && ps[0].role == Organizer;
    Event(id, req.title, req.description, req.date, req.time, req.location, ps, now, now)
  }

  method CreateEvent(db: Database, caller: Option<string>, body: Option<CreateEventRequest>, now: Time, fault: Fault)
    returns (out: Outcome<EventResponse>)
    requires db.Valid()
    modifies db
    ensures db.Valid()
    ensures body.None? ==> out == Err(InvalidRequestData) && unchanged(db)
    ensures body.Some? && CreateErrors(body.value) != {} ==>
      out == Err(ValidationFailed(CreateErrors(body.value))) && unchanged(db)
    ensures body.Some? && CreateErrors(body.value) == {} && ParseCaller(caller).Reject? ==>
      out == Err(ParseCaller(caller).error) && unchanged(db)
    ensures body.Some? && CreateErrors(body.value) == {} && ParseCaller(caller).Pass? && fault == FailWrite ==>
      out == Err(StoreFailure) && unchanged(db)
    ensures body.Some? && CreateErrors(body.value) == {} && ParseCaller(caller).Pass? && fault != FailWrite ==>
      var e := NewEvent(old(db.nextId), body.value, ParseCaller(caller).value, now);
      && out == Ok(201, EventToResponse(e))
      && db.events == old(db.events) + [e]
      && db.nextId == old(db.nextId) + 1
      && db.rsvps == old(db.rsvps) && db.eventStatuses == old(db.eventStatuses)
  {
    if body.None? {
      return Err(InvalidRequestData);
    }
    var req := body.value;
    var errors := CreateErrors(req);
    if errors != {} {
      return Err(ValidationFailed(errors));
    }
    var user := ParseCaller(caller);
    if user.Reject? {
      return Err(user.error);
    }
    if fault == FailWrite {
      return Err(StoreFailure);
    }
    InsertEventValid(db.events, db.rsvps, db.eventStatuses, db.nextId, NewEvent(db.nextId, req, user.value, now));
    var id := db.GenerateId();
    var event := NewEvent(id, req, user.value, now);
    db.events := db.events + [event];
    out := Ok(201, EventToResponse(event));
  }

  // ------------------------------------------------------------ listings

  /**
   * The events listing the caller in one entry with the given role, in store
   * order, as decoded into EventResponse.
   */
  method ListByRole(db: Database, caller: Option<string>, role: Role, fault: Fault)
    returns (out: Outcome<seq<EventResponse>>)
    ensures ParseCaller(caller).Reject? ==> out == Err(ParseCaller(caller).error)
    ensures ParseCaller(caller).Pass? && fault == FailEventRead ==> out == Err(StoreFailure)
    ensures ParseCaller(caller).Pass? && fault != FailEventRead ==>
      out.Ok? && out.code == 200 &&
      out.value == DecodedEvents(Select(db.events, MemberFilter(ParseCaller(caller).value, Some(RoleName(role))), NoRegex))
  {
    var user := ParseCaller(caller);
    if user.Reject? {
      return Err(user.error);
    }
    if fault == FailEventRead {
      return Err(StoreFailure);
    }
    var filter := MemberFilter(user.value, Some(RoleName(role)));
    out := Ok(200, DecodedEvents(Select(db.events, filter, NoRegex)));
  }

  method GetOrganizedEvents(db: Database, caller: Option<string>, fault: Fault)
    returns (out: Outcome<seq<EventResponse>>)
    ensures ParseCaller(caller).Reject? ==> out == Err(ParseCaller(caller).error)
    ensures ParseCaller(caller).Pass? && fault == FailEventRead ==> out == Err(StoreFailure)
    ensures ParseCaller(caller).Pass? && fault != FailEventRead ==>
      out.Ok? && out.code == 200 &&
      exists selected: seq<Event> ::
        && selected == Select(db.events, MemberFilter(ParseCaller(caller).value, Some(RoleName(Organizer))), NoRegex)
        && out.value == DecodedEvents(selected)
        && (forall e :: e in selected <==> e in db.events && HasRole(e.participants, ParseCaller(caller).value, Organizer))
  {
    out := ListByRole(db, caller, Organizer, fault);
    if out.Ok? {
      var user := ParseCaller(caller).value;
      var selected := Select(db.events, MemberFilter(user, Some(RoleName(Organizer))), NoRegex);
      forall e | e in db.events
        ensures Matches(e, MemberFilter(user, Some(RoleName(Organizer))), NoRegex) <==> HasRole(e.participants, user, Organizer)
      {
        MemberFilterWithRole(e, user, Organizer, NoRegex);
      }
      assert out.value == DecodedEvents(selected);
    }
  }

  method GetInvitedEvents(db: Database, caller: Option<string>, fault: Fault)
    returns (out: Outcome<seq<EventResponse>>)
    ensures ParseCaller(caller).Reject? ==> out == Err(ParseCaller(caller).error)
    ensures ParseCaller(caller).Pass? && fault == FailEventRead ==> out == Err(StoreFailure)
    ensures ParseCaller(caller).Pass? && fault != FailEventRead ==>
      out.Ok? && out.code == 200 &&
      exists selected: seq<Event> ::
        && selected == Select(db.events, MemberFilter(ParseCaller(caller).value, Some(RoleName(Attendee))), NoRegex)
        && out.value == DecodedEvents(selected)
        && (forall e :: e in selected <==> e in db.events && HasRole(e.participants, ParseCaller(caller).value, Attendee))
  {
    out := ListByRole(db, caller, Attendee, fault);
    if out.Ok? {
      var user := ParseCaller(caller).value;
      var selected := Select(db.events, MemberFilter(user, Some(RoleName(Attendee))), NoRegex);
      forall e | e in db.events
        ensures Matches(e, MemberFilter(user, Some(RoleName(Attendee))), NoRegex) <==> HasRole(e.participants, user, Attendee)
      {
        MemberFilterWithRole(e, user, Attendee, NoRegex);
      }
      assert out.value == DecodedEvents(selected);
    }
  }

  /** Any authenticated user may read any event: the handler checks no membership. */
  method GetEventByID(db: Database, eventIdHex: string, fault: Fault) returns (out: Outcome<EventResponse>)
    ensures FromHex(eventIdHex).None? ==> out == Err(InvalidEventId)
    ensures FromHex(eventIdHex).Some? && fault == FailEventRead ==> out == Err(StoreFailure)
    ensures FromHex(eventIdHex).Some? && fault != FailEventRead ==>
      match FindEvent(db.events, FromHex(eventIdHex).value)
      case None => out == Err(NotFound)
      case Some(e) => out == Ok(200, EventToResponse(e))
  {
    var eventId := FromHex(eventIdHex);
    if eventId.None? {
      return Err(InvalidEventId);
    }
    if fault == FailEventRead {
      return Err(StoreFailure);
    }
    var found := FindEvent(db.events, eventId.value);
    if found.None? {
      return Err(NotFound);
    }
    out := Ok(200, EventToResponse(found.value));
  }

  // ------------------------------------------------------------ invite

  /**
   * The attendee entries an invite appends: one per requested ID, in request
   * order, whose ID the stored list does not hold. Only the stored list is
   * consulted, so an ID requested twice is appended twice.
   */
  function NewAttendees(stored: seq<Participant>, requested: seq<ObjectId>): (added: seq<Participant>)
    ensures |added| <= |requested|
    ensures CountRole(added, Organizer) == 0
  {
    if requested == [] then []
    else
      var rest := NewAttendees(stored, requested[..|requested| - 1]);
      var u := requested[|requested| - 1];
      if IsParticipant(stored, u) then rest
      else
        var added := rest + [Participant(u, Attendee)];
        assert added[..|added| - 1] == rest;
        added
  }

  /** Every appended entry is an attendee from the request that the stored list does not hold. */
  lemma {:induction false} NewAttendeesSound(stored: seq<Participant>, requested: seq<ObjectId>)
    ensures forall p :: p in NewAttendees(stored, requested) ==>
      p.role == Attendee && p.userId in requested && !IsParticipant(stored, p.userId)
  {
    if requested != [] {
      var init := requested[..|requested| - 1];
      assert requested == init + [requested[|requested| - 1]];
      NewAttendeesSound(stored, init);
    }
  }

  /**
   * Every requested ID the stored list does not hold is appended, so nothing is
   * appended exactly when every requested ID is already listed.
   */
  lemma {:induction false} NewAttendeesComplete(stored: seq<Participant>, requested: seq<ObjectId>)
    ensures forall u :: u in requested && !IsParticipant(stored, u) ==> Participant(u, Attendee) in NewAttendees(stored, requested)
    ensures NewAttendees(stored, requested) == [] <==> forall u :: u in requested ==> IsParticipant(stored, u)
  {
    if requested != [] {
      var init := requested[..|requested| - 1];
      assert requested == init + [requested[|requested| - 1]];
      NewAttendeesComplete(stored, init);
    }
  }

  /** The nested loop that collects `newParticipants`. */
  method NewParticipants(stored: seq<Participant>, requested: seq<ObjectId>) returns (added: seq<Participant>)
    ensures added == NewAttendees(stored, requested)
  {
    added := [];
    var i := 0;
    while i < |requested|
      invariant 0 <= i <= |requested|
      invariant added == NewAttendees(stored, requested[..i])
    {
      var alreadyInvited := CheckParticipant(stored, requested[i]);
      if !alreadyInvited {
        added := added + [Participant(requested[i], Attendee)];
      }
      assert requested[..i + 1][..i] == requested[..i];
      i := i + 1;
    }
    assert requested[..i] == requested;
  }

  /** The event after `$push` of the new entries and `$set` of updated_at. */
  function Invited(e: Event, added: seq<Participant>, now: Time): (r: Event)
    ensures |r.participants| == |e.participants| + |added|
    ensures r.participants[..|e.participants|] == e.participants
    ensures r.participants[|e.participants|..] == added
    ensures r == e.(participants := r.participants, updatedAt := now)
  {
    e.(participants := e.participants + added, updatedAt := now)
  }

  /** An invite never removes anyone, and the event keeps exactly its one organizer entry. */
  lemma InviteKeepsMembers(e: Event, requested: seq<ObjectId>, now: Time)
    requires CountRole(e.participants, Organizer) == 1
    ensures var r := Invited(e, NewAttendees(e.participants, requested), now);
      && CountRole(r.participants, Organizer) == 1
      && forall u :: IsParticipant(e.participants, u) ==> IsParticipant(r.participants, u)
  {
    var added := NewAttendees(e.participants, requested);
    CountRoleAppend(e.participants, added, Organizer);
    var r := Invited(e, added, now);
    forall u | IsParticipant(e.participants, u) ensures IsParticipant(r.participants, u) {
      var i :| 0 <= i < |e.participants| && e.participants[i].userId == u;
      assert r.participants[i] == e.participants[i];
    }
  }

  /**
   * When the request names no ID twice and the stored list has no duplicate,
   * the list stays free of duplicates.
   */
  lemma {:induction false} InviteKeepsDistinct(stored: seq<Participant>, requested: seq<ObjectId>)
    requires DistinctUsers(stored)
    requires forall i, j :: 0 <= i < j < |requested| ==> requested[i] != requested[j]
    ensures DistinctUsers(stored + NewAttendees(stored, requested))
  {
    if requested != [] {
      var init := requested[..|requested| - 1];
      var u := requested[|requested| - 1];
      InviteKeepsDistinct(stored, init);
      NewAttendeesSound(stored, init);
      var rest := NewAttendees(stored, init);
      if IsParticipant(stored, u) {
        assert NewAttendees(stored, requested) == rest;
      } else {
        forall k | 0 <= k < |init| ensures init[k] != u {
          assert init[k] == requested[k];
        }
        var prefix := stored + rest;
        forall i | 0 <= i < |prefix| ensures prefix[i].userId != u {
          if i >= |stored| {
            assert prefix[i] == rest[i - |stored|];
            assert rest[i - |stored|] in rest;
          }
        }
        AppendDistinct(prefix, Participant(u, Attendee));
        assert stored + NewAttendees(stored, requested) == prefix + [Participant(u, Attendee)];
      }
    }
  }

  lemma AppendDistinct(ps: seq<Participant>, p: Participant)
    requires DistinctUsers(ps)
    requires forall i :: 0 <= i < |ps| ==> ps[i].userId != p.userId
    ensures DistinctUsers(ps + [p])
  {
  }

  /** An ID requested twice that the event does not list yet is appended twice. */
  lemma InviteDuplicatesAppended(stored: seq<Participant>, u: ObjectId)
    requires !IsParticipant(stored, u)
    ensures NewAttendees(stored, [u, u]) == [Participant(u, Attendee), Participant(u, Attendee)]
    ensures !DistinctUsers(stored + NewAttendees(stored, [u, u]))
  {
    var p := Participant(u, Attendee);
    var once := NewAttendees(stored, [u]);
    assert [u][..0] == [];
    assert once == NewAttendees(stored, []) + [p];
    assert [u, u][..1] == [u];
    assert NewAttendees(stored, [u, u]) == once + [p];
    var ps := stored + [p, p];
    assert ps[|stored|] == p && ps[|stored| + 1] == p;
  }

  method InviteToEvent(db: Database, eventIdHex: string, caller: Option<string>,
                       body: Option<InviteToEventRequest>, now: Time, fault: Fault)
    returns (out: Outcome<nat>)
    requires db.Valid()
    modifies db
    ensures db.Valid()
    ensures body.None? ==> out == Err(InvalidRequestData) && unchanged(db)
    ensures body.Some? && InviteErrors(body.value) != {} ==>
      out == Err(ValidationFailed(InviteErrors(body.value))) && unchanged(db)
    ensures body.Some? && InviteErrors(body.value) == {} ==>
      var g := Gate(old(db.events), eventIdHex, caller, fault, OrganizerOnly);
      && (g.Reject? ==> out == Err(g.error) && unchanged(db))
      && (g.Pass? ==>
            var added := NewAttendees(g.value.event.participants, body.value.userIds);
            && (added == [] ==> out == Err(AlreadyInvited) && unchanged(db))
            && (added != [] && fault == FailWrite ==> out == Err(StoreFailure) && unchanged(db))
            && (added != [] && fault != FailWrite ==>
                  && out == Ok(200, |added|)
                  && db.events == ReplaceEvent(old(db.events), Invited(g.value.event, added, now))
                  && db.rsvps == old(db.rsvps) && db.eventStatuses == old(db.eventStatuses)
                  && db.nextId == old(db.nextId)))
  {
    if body.None? {
      return Err(InvalidRequestData);
    }
    var req := body.value;
    var errors := InviteErrors(req);
    if errors != {} {
      return Err(ValidationFailed(errors));
    }
    var g := Authorize(db, eventIdHex, caller, fault, OrganizerOnly);
    if g.Reject? {
      return Err(g.error);
    }
    var event := g.value.event;
    var added := NewParticipants(event.participants, req.userIds);
    if |added| == 0 {
      return Err(AlreadyInvited);
    }
    if fault == FailWrite {
      return Err(StoreFailure);
    }
    var updated := Invited(event, added, now);
    InviteKeepsMembers(event, req.userIds, now);
    ReplaceEventValid(db.events, db.rsvps, db.eventStatuses, db.nextId, event, updated);
    db.events := ReplaceEvent(db.events, updated);
    out := Ok(200, |added|);
  }

  // ------------------------------------------------------------ update

  /** The `$set` document: each non-empty request field, and always updated_at. */
  datatype UpdateDoc = UpdateDoc(
    title: Option<string>, description: Option<string>, date: Option<string>,
    time: Option<string>, location: Option<string>, updatedAt: Time)

  function UpdateDocOf(req: UpdateEventRequest, now: Time): UpdateDoc {
    UpdateDoc(Provided(req.title), Provided(req.description), Provided(req.date),
              Provided(req.time), Provided(req.location), now)
  }

  function SetField(current: string, value: Option<string>): string {
    if value.Some? then value.value else current
  }

  /** `$set` applied to the stored event: participants, ID and creation time are never touched. */
  function ApplyUpdate(e: Event, doc: UpdateDoc): (r: Event)
    ensures r.id == e.id && r.participants == e.participants && r.createdAt == e.createdAt
    ensures r.updatedAt == doc.updatedAt
  {
    e.(title := SetField(e.title, doc.title),
       description := SetField(e.description, doc.description),
       date := SetField(e.date, doc.date),
       time := SetField(e.time, doc.time),
       location := SetField(e.location, doc.location),
       updatedAt := doc.updatedAt)
  }

  /** Exactly the non-empty request fields are overwritten; an empty one leaves the stored value. */
  lemma UpdateOverwritesProvided(e: Event, req: UpdateEventRequest, now: Time)
    ensures var r := ApplyUpdate(e, UpdateDocOf(req, now));
      && r.title == (if req.title != "" then req.title else e.title)
      && r.description == (if req.description != "" then req.description else e.description)
      && r.date == (if req.date != "" then req.date else e.date)
      && r.time == (if req.time != "" then req.time else e.time)
      && r.location == (if req.location != "" then req.location else e.location)
      && r.updatedAt == now
  {
  }

  /** After validation, title, description and location are always overwritten; only date and time can be kept. */
  lemma ValidUpdateReplacesText(e: Event, req: UpdateEventRequest, now: Time)
    requires UpdateErrors(req) == {}
    ensures var r := ApplyUpdate(e, UpdateDocOf(req, now));
      r.title == req.title && r.description == req.description && r.location == req.location
  {
    ValidUpdateCarriesTextFields(req);
  }

  /** Repeating an update changes nothing more. */
  lemma UpdateIdempotent(e: Event, req: UpdateEventRequest, now: Time)
    ensures var doc := UpdateDocOf(req, now); ApplyUpdate(ApplyUpdate(e, doc), doc) == ApplyUpdate(e, doc)
  {
  }

  method UpdateEvent(db: Database, eventIdHex: string, caller: Option<string>,
                     body: Option<UpdateEventRequest>, now: Time, fault: Fault)
    returns (out: Outcome<()>)
    requires db.Valid()
    modifies db
    ensures db.Valid()
    ensures body.None? ==> out == Err(InvalidRequestData) && unchanged(db)
    ensures body.Some? && UpdateErrors(body.value) != {} ==>
      out == Err(ValidationFailed(UpdateErrors(body.value))) && unchanged(db)
    ensures body.Some? && UpdateErrors(body.value) == {} ==>
      var g := Gate(old(db.events), eventIdHex, caller, fault, OrganizerOnly);
      && (g.Reject? ==> out == Err(g.error) && unchanged(db))
      && (g.Pass? && fault == FailWrite ==> out == Err(StoreFailure) && unchanged(db))
      && (g.Pass? && fault != FailWrite ==>
            && out == Ok(200, ())
            && db.events == ReplaceEvent(old(db.events), ApplyUpdate(g.value.event, UpdateDocOf(body.value, now)))
            && db.rsvps == old(db.rsvps) && db.eventStatuses == old(db.eventStatuses)
            && db.nextId == old(db.nextId))
  {
    if body.None? {
      return Err(InvalidRequestData);
    }
    var req := body.value;
    var errors := UpdateErrors(req);
    if errors != {} {
      return Err(ValidationFailed(errors));
    }
    var g := Authorize(db, eventIdHex, caller, fault, OrganizerOnly);
    if g.Reject? {
      return Err(g.error);
    }
    var event := g.value.event;
    var doc := UpdateDocOf(req, now);
    if fault == FailWrite {
      return Err(StoreFailure);
    }
    var updated := ApplyUpdate(event, doc);
    ReplaceEventValid(db.events, db.rsvps, db.eventStatuses, db.nextId, event, updated);
    db.events := ReplaceEvent(db.events, updated);
    out := Ok(200, ());
  }

  // ------------------------------------------------------------ delete

  method DeleteEvent(db: Database, eventIdHex: string, caller: Option<string>, fault: Fault)
    returns (out: Outcome<()>)
    requires db.Valid()
    modifies db
    ensures db.Valid()
    ensures var g := Gate(old(db.events), eventIdHex, caller, fault, OrganizerOnly);
      && (g.Reject? ==> out == Err(g.error) && unchanged(db))
      && (g.Pass? && fault == FailWrite ==> out == Err(StoreFailure) && unchanged(db))
      && (g.Pass? && fault != FailWrite ==>
            && out == Ok(200, ())
            && db.events == RemoveEvent(old(db.events), g.value.event.id)
            && db.rsvps == (if fault == FailCascade then old(db.rsvps)
                            else RemoveResponsesOf(old(db.rsvps), g.value.event.id))
            && db.eventStatuses == old(db.eventStatuses)
            && db.nextId == old(db.nextId))
  {
    var g := Authorize(db, eventIdHex, caller, fault, OrganizerOnly);
    if g.Reject? {
      return Err(g.error);
    }
    var id := g.value.event.id;
    if fault == FailWrite {
      return Err(StoreFailure);
    }
    var rsvps := if fault == FailCascade then db.rsvps else RemoveResponsesOf(db.rsvps, id);
    RemoveEventValid(db.events, db.rsvps, db.eventStatuses, db.nextId, id, rsvps);
    db.events := RemoveEvent(db.events, id);
    db.rsvps := rsvps;
    out := Ok(200, ());
  }

  /** After a delete whose cascade ran, the event and all its RSVP records are gone; other events stay. */
  lemma DeleteRemovesEventAndRsvps(events: seq<Event>, rsvps: seq<EventStatus>, id: ObjectId)
    ensures FindEvent(RemoveEvent(events, id), id).None?
    ensures ResponsesOf(RemoveResponsesOf(rsvps, id), id, None) == []
    ensures forall e :: e in events && e.id != id ==> e in RemoveEvent(events, id)
  {
    ResponsesOfAbsent(RemoveResponsesOf(rsvps, id), id, None);
  }
}
