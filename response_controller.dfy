/**
 * The attendance-response handlers of controllers/rsvp_controller.go (routed)
 * and controllers/event_status_controller.go (its line-for-line twin over the
 * `event_statuses` collection). Each member takes the collection it works on.
 */
module ResponseController {
  import opened Wrappers
  import opened ObjectIds
  import opened Models
  import opened Membership
  import opened Outcomes
  import opened Store
  import opened Access
  import opened Attendance

  // ------------------------------------------------------------ submit

  /** Submitting or changing one's own response: any participant, organizer included, may do it. */
  method CreateOrUpdateResponse(db: Database, coll: Collection, eventIdHex: string, caller: Option<string>,
                                body: Option<EventStatusRequest>, now: Time, fault: Fault)
    returns (out: Outcome<EventStatusResponse>)
    requires db.Valid()
    modifies db
    ensures db.Valid()
    ensures body.None? ==> out == Err(InvalidRequestData) && unchanged(db)
    ensures body.Some? && StatusRequestErrors(body.value) != {} ==>
      out == Err(ValidationFailed(StatusRequestErrors(body.value))) && unchanged(db)
    ensures body.Some? && StatusRequestErrors(body.value) == {} ==>
      var g := Gate(old(db.events), eventIdHex, caller, fault, AnyParticipant);
      && (g.Reject? ==> out == Err(g.error) && unchanged(db))
      && (g.Pass? && (fault == FailResponseRead || fault == FailWrite) ==> out == Err(StoreFailure) && unchanged(db))
      && (g.Pass? && fault != FailResponseRead && fault != FailWrite ==>
            var v := ParseStatus(body.value.status).value;
            var eventId := g.value.event.id;
            var found := FindResponse(old(db.Responses(coll)), eventId, g.value.user);
            && db.Responses(coll) == Upsert(old(db.Responses(coll)), eventId, g.value.user, v, now, old(db.nextId))
            && out == (if found.Some? then Ok(200, StatusToResponse(found.value.(status := v, updatedAt := now)))
                       else Ok(201, StatusToResponse(EventStatus(old(db.nextId), eventId, g.value.user, v, now, now))))
            && db.nextId == old(db.nextId) + (if found.Some? then 0 else 1)
            && db.events == old(db.events)
            && db.Responses(Other(coll)) == old(db.Responses(Other(coll))))
  {
    if body.None? {
      return Err(InvalidRequestData);
    }
    var req := body.value;
    var errors := StatusRequestErrors(req);
    if errors != {} {
      return Err(ValidationFailed(errors));
    }
    var g := Authorize(db, eventIdHex, caller, fault, AnyParticipant);
    if g.Reject? {
      return Err(g.error);
    }
    var event := g.value.event;
    var user := g.value.user;
    if fault == FailResponseRead {
      return Err(StoreFailure);
    }
    var status := ParseStatus(req.status).value;
    var records := db.Responses(coll);
    var existing := FindResponse(records, event.id, user);
    if fault == FailWrite {
      return Err(StoreFailure);
    }
    var updated := Upsert(records, event.id, user, status, now, db.nextId);
    UpsertValid(records, db.events, db.nextId, event, user, status, now);
    ghost var other := db.Responses(Other(coll));
    if existing.Some? {
      db.SetResponses(coll, updated);
      out := Ok(200, StatusToResponse(existing.value.(status := status, updatedAt := now)));
    } else {
      ResponsesValidRaise(other, db.events, db.nextId, db.nextId + 1);
      var id := db.GenerateId();
      db.SetResponses(coll, updated);
      out := Ok(201, StatusToResponse(EventStatus(id, event.id, user, status, now, now)));
    }
  }

  // ------------------------------------------------------------ summary

  /**
   * The organizer's attendee summary over the event's records in one collection,
   * computed from the records as decoded into response structs.
   */
  method GetEventAttendees(db: Database, coll: Collection, eventIdHex: string, caller: Option<string>, fault: Fault)
    returns (out: Outcome<AttendeeSummary>)
    ensures var g := Gate(db.events, eventIdHex, caller, fault, OrganizerOnly);
      && (g.Reject? ==> out == Err(g.error))
      && (g.Pass? && fault == FailResponseRead ==> out == Err(StoreFailure))
      && (g.Pass? && fault != FailResponseRead ==>
            out == Ok(200, SummaryOf(g.value.event.participants, DecodedStatuses(ResponsesOf(db.Responses(coll), g.value.event.id, None)))))
  {
    var g := Authorize(db, eventIdHex, caller, fault, OrganizerOnly);
    if g.Reject? {
      return Err(g.error);
    }
    if fault == FailResponseRead {
      return Err(StoreFailure);
    }
    var event := g.value.event;
    var records := ResponsesOf(db.Responses(coll), event.id, None);
    var summary := Summarize(event.participants, DecodedStatuses(records));
    out := Ok(200, summary);
  }

  /**
   * The summary counted against the stored records: in a valid store, for an
   * event whose list names no user twice, the four counts add up to `total`,
   * plus one when the organizer has answered too.
   */
  lemma StoredSummaryBalance(events: seq<Event>, records: seq<EventStatus>, nextId: ObjectId, e: Event, organizer: ObjectId)
    requires EventsValid(events, nextId) && ResponsesValid(records, events, nextId)
    requires e in events && DistinctUsers(e.participants) && HasRole(e.participants, organizer, Organizer)
    ensures var rs := StatusesToResponses(ResponsesOf(records, e.id, None));
      var s := SummaryOf(e.participants, rs);
      s.going + s.maybe + s.notGoing + s.noResponse == s.total + (if organizer in ResponderIds(rs) then 1 else 0)
  {
    var stored := ResponsesOf(records, e.id, None);
    var rs := StatusesToResponses(stored);
    ResponsesOfDistinctUsers(records, e.id, None);
    forall k | 0 <= k < |rs| ensures Submittable(rs[k].status) && IsParticipant(e.participants, rs[k].userId) {
      assert stored[k] in stored;
    }
    forall i, j | 0 <= i < j < |rs| ensures rs[i].userId != rs[j].userId {
      assert rs[i].userId == stored[i].userId && rs[j].userId == stored[j].userId;
    }
    SummaryBalance(e.participants, rs, organizer);
  }

  // ------------------------------------------------------------ own response

  datatype OwnStatus = Answered(record: EventStatusResponse) | NotAnswered

  /**
   * The caller's own response to an event. Only the two IDs are checked: the
   * event need not exist and the caller need not be listed in it.
   */
  function OwnStatusOf(records: seq<EventStatus>, eventIdHex: string, caller: Option<string>, fault: Fault)
    : (out: Outcome<OwnStatus>)
    ensures FromHex(eventIdHex).None? ==> out == Err(InvalidEventId)
    ensures FromHex(eventIdHex).Some? && ParseCaller(caller).Reject? ==> out == Err(ParseCaller(caller).error)
    ensures out.Ok? ==> out.code == 200
    ensures FromHex(eventIdHex).Some? && ParseCaller(caller).Pass? && fault == FailResponseRead ==>
      out == Err(StoreFailure)
    ensures FromHex(eventIdHex).Some? && ParseCaller(caller).Pass? && fault != FailResponseRead ==>
      var found := FindResponse(records, FromHex(eventIdHex).value, ParseCaller(caller).value);
      found.Some? ==> out == Ok(200, Answered(StatusToResponse(found.value)))
    ensures out.Ok? && out.value.Answered? ==>
      exists s :: s in records && StatusToResponse(s) == out.value.record &&
        Some(s.eventId) == FromHex(eventIdHex) && ParseCaller(caller) == Pass(s.userId)
    ensures out == Ok(200, NotAnswered) <==>
      FromHex(eventIdHex).Some? && ParseCaller(caller).Pass? && fault != FailResponseRead &&
      forall s :: s in records ==> !(Some(s.eventId) == FromHex(eventIdHex) && ParseCaller(caller) == Pass(s.userId))
  {
    match FromHex(eventIdHex)
    case None => Err(InvalidEventId)
    case Some(eventId) =>
      match ParseCaller(caller)
      case Reject(e) => Err(e)
      case Pass(user) =>
        if fault == FailResponseRead then Err(StoreFailure)
        else
          match FindResponse(records, eventId, user)
          case None => Ok(200, NotAnswered)
          case Some(s) => Ok(200, Answered(StatusToResponse(s)))
  }

  method GetUserStatus(db: Database, coll: Collection, eventIdHex: string, caller: Option<string>, fault: Fault)
    returns (out: Outcome<OwnStatus>)
    ensures out == OwnStatusOf(db.Responses(coll), eventIdHex, caller, fault)
  {
    var eventId := FromHex(eventIdHex);
    if eventId.None? {
      return Err(InvalidEventId);
    }
    var user := ParseCaller(caller);
    if user.Reject? {
      return Err(user.error);
    }
    if fault == FailResponseRead {
      return Err(StoreFailure);
    }
    var found := FindResponse(db.Responses(coll), eventId.value, user.value);
    if found.None? {
      return Ok(200, NotAnswered);
    }
    out := Ok(200, Answered(StatusToResponse(found.value)));
  }

  /** Reading one's own response right after submitting it gives back the submitted status. */
  lemma SubmitThenRead(records: seq<EventStatus>, eventId: ObjectId, user: ObjectId, v: StatusValue,
                       now: Time, freshId: ObjectId)
    requires DistinctRecordIds(records)
    requires eventId < IdBound && user < IdBound
    ensures var r := OwnStatusOf(Upsert(records, eventId, user, v, now, freshId), Hex(eventId), Some(Hex(user)), NoFault);
      r.Ok? && r.value.Answered? && r.value.record.status == v && r.value.record.updatedAt == now
      && r.value.record.eventId == eventId && r.value.record.userId == user
  {
    HexRoundTrip(eventId);
    HexRoundTrip(user);
    UpsertRecords(records, eventId, user, v, now, freshId);
  }

  // ------------------------------------------------------------ by status

  /** The status query: empty for every record, or one of the three submittable names. */
  function StatusFilter(query: string): (r: Checked<Option<StatusValue>>)
    ensures r.Reject? <==> query != "" && ParseStatus(query).None?
    ensures r.Reject? ==> r.error == InvalidStatusFilter
    ensures r.Pass? ==> (r.value.None? <==> query == "")
    ensures r.Pass? && r.value.Some? ==> Submittable(r.value.value) && StatusName(r.value.value) == query
  {
    if query == "" then Pass(None)
    else match ParseStatus(query)
      case None => Reject(InvalidStatusFilter)
      case Some(v) => Pass(Some(v))
  }

  /**
   * The organizer's listing of the event's records, optionally with one status,
   * as decoded into response structs. The query is checked first.
   */
  method GetAttendeesByStatus(db: Database, coll: Collection, eventIdHex: string, query: string,
                              caller: Option<string>, fault: Fault)
    returns (out: Outcome<seq<EventStatusResponse>>)
    ensures StatusFilter(query).Reject? ==> out == Err(InvalidStatusFilter)
    ensures StatusFilter(query).Pass? ==>
      var g := Gate(db.events, eventIdHex, caller, fault, OrganizerOnly);
      && (g.Reject? ==> out == Err(g.error))
      && (g.Pass? && fault == FailResponseRead ==> out == Err(StoreFailure))
      && (g.Pass? && fault != FailResponseRead ==>
            out == Ok(200, DecodedStatuses(ResponsesOf(db.Responses(coll), g.value.event.id, StatusFilter(query).value))))
  {
    var filter := StatusFilter(query);
    if filter.Reject? {
      return Err(filter.error);
    }
    var g := Authorize(db, eventIdHex, caller, fault, OrganizerOnly);
    if g.Reject? {
      return Err(g.error);
    }
    if fault == FailResponseRead {
      return Err(StoreFailure);
    }
    out := Ok(200, DecodedStatuses(ResponsesOf(db.Responses(coll), g.value.event.id, filter.value)));
  }

  /**
   * The by-status listing has as many entries as the summary's count for that
   * status, whether the records are decoded or converted: decoding keeps the status.
   */
  lemma {:induction false} ListingMatchesCount(records: seq<EventStatus>, eventId: ObjectId, v: StatusValue)
    ensures |ResponsesOf(records, eventId, Some(v))| == CountStatus(StatusesToResponses(ResponsesOf(records, eventId, None)), v)
    ensures |DecodedStatuses(ResponsesOf(records, eventId, Some(v)))|
      == CountStatus(DecodedStatuses(ResponsesOf(records, eventId, None)), v)
  {
    if records != [] {
      var init := records[..|records| - 1];
      var last := records[|records| - 1];
      ListingMatchesCount(init, eventId, v);
      if last.eventId == eventId {
        var all := ResponsesOf(init, eventId, None);
        StatusesToResponsesAppend(all, last);
        assert StatusesToResponses(all + [last])[..|all|] == StatusesToResponses(all);
      }
    }
    DecodedStatusCounts(ResponsesOf(records, eventId, None), v);
  }
}
