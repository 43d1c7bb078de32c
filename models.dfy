/**
 * The event aggregate and its request and response shapes (models/event.go):
 * roles, attendance statuses, participants, events, attendance records, the
 * validation rules carried by the request structs' tags, and the two
 * ToResponse conversions.
 */
module Models {
  import opened Wrappers
  import opened ObjectIds

  /** Timestamps are opaque instants supplied by the caller in place of time.Now(). */
  type Time = int

  /** The zero time.Time, the value a timestamp field keeps when nothing is decoded into it. */
  const ZeroTime: Time := 0

  // ---------------------------------------------------------------- roles

  datatype Role = Organizer | Attendee

  function RoleName(r: Role): string {
    match r
    case Organizer => "organizer"
    case Attendee => "attendee"
  }

  /** The `oneof=organizer attendee` rule, also used by the role checks of the search handlers. */
  function ParseRole(s: string): (r: Option<Role>)
    ensures r.Some? ==> RoleName(r.value) == s
    ensures r.None? ==> forall role :: RoleName(role) != s
  {
    if s == "organizer" then Some(Organizer)
    else if s == "attendee" then Some(Attendee)
    else None
  }

  lemma RoleNameRoundTrip(r: Role)
    ensures ParseRole(RoleName(r)) == Some(r)
  {
  }

  // ------------------------------------------------------------- statuses

  /** The four status constants; NoResponse is only ever reported, never stored. */
  datatype StatusValue = Going | Maybe | NotGoing | NoResponse

  function StatusName(v: StatusValue): string {
    match v
    case Going => "going"
    case Maybe => "maybe"
    case NotGoing => "not_going"
    case NoResponse => "no_response"
  }

  /** A status a participant may submit: `oneof=going maybe not_going`. */
  predicate Submittable(v: StatusValue) {
    v != NoResponse
  }

  /** The `required,oneof=going maybe not_going` rule on a submitted or queried status. */
  function ParseStatus(s: string): (r: Option<StatusValue>)
    ensures r.Some? ==> Submittable(r.value) && StatusName(r.value) == s
  {
    if s == "going" then Some(Going)
    else if s == "maybe" then Some(Maybe)
    else if s == "not_going" then Some(NotGoing)
    else None
  }

  /** A string is accepted as a status exactly when it names one of the three submittable values. */
  lemma ParseStatusExactly(s: string, v: StatusValue)
    ensures ParseStatus(s) == Some(v) <==> Submittable(v) && s == StatusName(v)
  {
  }

  /** "no_response" is not a status anyone can submit. */
  lemma NoResponseRejected()
    ensures ParseStatus(StatusName(NoResponse)) == None
  {
  }

  // ------------------------------------------------------------ documents

  datatype Participant = Participant(userId: ObjectId, role: Role)

  datatype Event = Event(
    id: ObjectId,
    title: string,
    description: string,
    date: string,
    time: string,
    location: string,
    participants: seq<Participant>,
    createdAt: Time,
    updatedAt: Time)

  /** One attendance record (EventStatus; the RSVP records have the same shape). */
  datatype EventStatus = EventStatus(
    id: ObjectId,
    eventId: ObjectId,
    userId: ObjectId,
    status: StatusValue,
    createdAt: Time,
    updatedAt: Time)

  // ------------------------------------------------------------- requests

  datatype CreateEventRequest = CreateEventRequest(
    title: string, description: string, date: string, time: string, location: string)

  datatype InviteToEventRequest = InviteToEventRequest(userIds: seq<ObjectId>)

  datatype UpdateEventRequest = UpdateEventRequest(
    title: string, description: string, date: string, time: string, location: string)

  datatype EventStatusRequest = EventStatusRequest(status: string)

  /** `min=lo,max=hi` on a string: its length in characters lies in [lo, hi]. */
  predicate LengthWithin(s: string, lo: nat, hi: nat) {
    lo <= |s| <= hi
  }

  /** A string field the handlers only use when it is non-empty. */
  function Provided(s: string): (r: Option<string>)
    ensures r.None? <==> s == ""
    ensures r.Some? ==> r.value == s
  {
    if s != "" then Some(s) else None
  }

  /** The field name under which a failing check is reported, when the check fails. */
  function FieldIf(fails: bool, field: string): set<string> {
    if fails then {field} else {}
  }

  /**
   * The names of the fields of a create request that fail their tags: title 3..200,
   * description 10..2000, location 5..500, date and time merely non-empty.
   */
  function CreateErrors(req: CreateEventRequest): (errs: set<string>)
    ensures errs <= {"title", "description", "date", "time", "location"}
    ensures "title" in errs <==> !LengthWithin(req.title, 3, 200)
    ensures "description" in errs <==> !LengthWithin(req.description, 10, 2000)
    ensures "date" in errs <==> req.date == ""
    ensures "time" in errs <==> req.time == ""
    ensures "location" in errs <==> !LengthWithin(req.location, 5, 500)
    ensures errs == {} <==>
      LengthWithin(req.title, 3, 200) && LengthWithin(req.description, 10, 2000) &&
      req.date != "" && req.time != "" && LengthWithin(req.location, 5, 500)
  {
    FieldIf(!LengthWithin(req.title, 3, 200), "title") +
    FieldIf(!LengthWithin(req.description, 10, 2000), "description") +
    FieldIf(req.date == "", "date") +
    FieldIf(req.time == "", "time") +
    FieldIf(!LengthWithin(req.location, 5, 500), "location")
  }

  /** The date of a create request is only required to be present: no calendar rule constrains it. */
  lemma CreateDateUnconstrained(req: CreateEventRequest, earlier: string, later: string)
    requires earlier != "" && later != ""
    ensures CreateErrors(req.(date := earlier)) == CreateErrors(req.(date := later))
  {
  }

  /** An invite request needs at least one user ID (`required,min=1`). */
  function InviteErrors(req: InviteToEventRequest): (errs: set<string>)
    ensures errs == {} <==> |req.userIds| >= 1
  {
    FieldIf(|req.userIds| == 0, "userids")
  }

  /**
   * The update request's length bounds have no `omitempty`, so an empty title,
   * description or location fails them; only date and time are free.
   */
  function UpdateErrors(req: UpdateEventRequest): (errs: set<string>)
    ensures errs <= {"title", "description", "location"}
    ensures "title" in errs <==> !LengthWithin(req.title, 3, 200)
    ensures "description" in errs <==> !LengthWithin(req.description, 10, 2000)
    ensures "location" in errs <==> !LengthWithin(req.location, 5, 500)
    ensures errs == {} <==>
      LengthWithin(req.title, 3, 200) && LengthWithin(req.description, 10, 2000) &&
      LengthWithin(req.location, 5, 500)
  {
    FieldIf(!LengthWithin(req.title, 3, 200), "title") +
    FieldIf(!LengthWithin(req.description, 10, 2000), "description") +
    FieldIf(!LengthWithin(req.location, 5, 500), "location")
  }

  /** A valid update request carries a title, description and location; date and time may be left empty. */
  lemma ValidUpdateCarriesTextFields(req: UpdateEventRequest)
    ensures UpdateErrors(req) == {} ==> req.title != "" && req.description != "" && req.location != ""
    ensures UpdateErrors(req.(date := "", time := "")) == UpdateErrors(req)
  {
    if UpdateErrors(req) == {} {
      assert "title" !in UpdateErrors(req);
      assert "description" !in UpdateErrors(req);
      assert "location" !in UpdateErrors(req);
    }
  }

  function StatusRequestErrors(req: EventStatusRequest): (errs: set<string>)
    ensures errs == {} <==> ParseStatus(req.status).Some?
  {
    FieldIf(ParseStatus(req.status).None?, "status")
  }

  // ------------------------------------------------------------ responses

  datatype EventResponse = EventResponse(
    id: ObjectId,
    title: string,
    description: string,
    date: string,
    time: string,
    location: string,
    participants: seq<Participant>,
    myStatus: string,
    createdAt: Time,
    updatedAt: Time)

  datatype EventStatusResponse = EventStatusResponse(
    id: ObjectId,
    eventId: ObjectId,
    userId: ObjectId,
    status: StatusValue,
    createdAt: Time,
    updatedAt: Time)

  /** Event.ToResponse: every stored field is carried over and my_status is left empty. */
  function EventToResponse(e: Event): (r: EventResponse)
    ensures r.id == e.id && r.title == e.title && r.description == e.description
    ensures r.date == e.date && r.time == e.time && r.location == e.location
    ensures r.participants == e.participants
    ensures r.createdAt == e.createdAt && r.updatedAt == e.updatedAt
    ensures r.myStatus == ""
  {
    EventResponse(e.id, e.title, e.description, e.date, e.time, e.location,
                  e.participants, "", e.createdAt, e.updatedAt)
  }

  /** EventStatus.ToResponse: all six fields carried over unchanged. */
  function StatusToResponse(s: EventStatus): (r: EventStatusResponse)
    ensures r.id == s.id && r.eventId == s.eventId && r.userId == s.userId
    ensures r.status == s.status && r.createdAt == s.createdAt && r.updatedAt == s.updatedAt
  {
    EventStatusResponse(s.id, s.eventId, s.userId, s.status, s.createdAt, s.updatedAt)
  }

  /** Each event of a listing converted by Event.ToResponse. */
  function EventsToResponses(es: seq<Event>): (rs: seq<EventResponse>)
    ensures |rs| == |es|
    ensures forall i :: 0 <= i < |es| ==> rs[i] == EventToResponse(es[i])
  {
    seq(|es|, i requires 0 <= i < |es| => EventToResponse(es[i]))
  }

  /** Each record of a listing converted by EventStatus.ToResponse. */
  function StatusesToResponses(ss: seq<EventStatus>): (rs: seq<EventStatusResponse>)
    ensures |rs| == |ss|
    ensures forall i :: 0 <= i < |ss| ==> rs[i] == StatusToResponse(ss[i])
  {
    seq(|ss|, i requires 0 <= i < |ss| => StatusToResponse(ss[i]))
  }

  // ------------------------------------------- documents decoded as responses

  /*
   * The listing handlers decode the documents a Find returns straight into the
   * response structs. Those structs carry json tags only, and the client uses
   * the driver's default codec, which looks an untagged field up under its
   * lower-cased Go name. A field whose lower-cased name is not the stored key
   * (`id` against `_id`, `eventid` against `event_id`, `userid` against
   * `user_id`, `createdat` against `created_at`, `updatedat` against
   * `updated_at`) keeps its zero value.
   */

  /** An event document decoded into EventResponse: `id`, `created_at` and `updated_at` stay zero. */
  function DecodedEvent(e: Event): (r: EventResponse)
    ensures r == EventToResponse(e).(id := NilId, createdAt := ZeroTime, updatedAt := ZeroTime)
  {
    EventResponse(NilId, e.title, e.description, e.date, e.time, e.location, e.participants, "", ZeroTime, ZeroTime)
  }

  /** A decoded event matches its ToResponse conversion only when its ID and both times are already zero. */
  lemma DecodedEventLosesIdentity(e: Event)
    ensures DecodedEvent(e) == EventToResponse(e) <==>
      e.id == NilId && e.createdAt == ZeroTime && e.updatedAt == ZeroTime
    ensures DecodedEvent(e) == DecodedEvent(e.(id := NilId, createdAt := ZeroTime, updatedAt := ZeroTime))
  {
    if DecodedEvent(e) == EventToResponse(e) {
      assert DecodedEvent(e).id == EventToResponse(e).id;
      assert DecodedEvent(e).createdAt == EventToResponse(e).createdAt;
      assert DecodedEvent(e).updatedAt == EventToResponse(e).updatedAt;
    }
  }

  /** A record decoded into EventStatusResponse: only `status` matches its stored key. */
  function DecodedStatus(s: EventStatus): (r: EventStatusResponse)
    ensures r == StatusToResponse(s).(id := NilId, eventId := NilId, userId := NilId,
                                       createdAt := ZeroTime, updatedAt := ZeroTime)
  {
    EventStatusResponse(NilId, NilId, NilId, s.status, ZeroTime, ZeroTime)
  }

  /** Two decoded records are equal exactly when their statuses are: the status is all that is recovered. */
  lemma DecodedStatusKeepsOnlyStatus(s: EventStatus, t: EventStatus)
    ensures DecodedStatus(s) == DecodedStatus(t) <==> s.status == t.status
    ensures DecodedStatus(s).userId == NilId
  {
    if DecodedStatus(s) == DecodedStatus(t) {
      assert DecodedStatus(s).status == DecodedStatus(t).status;
    }
  }

  /** A listing of events as the handlers decode it. */
  function DecodedEvents(es: seq<Event>): (rs: seq<EventResponse>)
    ensures |rs| == |es|
    ensures forall i :: 0 <= i < |es| ==> rs[i] == DecodedEvent(es[i])
  {
    seq(|es|, i requires 0 <= i < |es| => DecodedEvent(es[i]))
  }

  /** A listing of records as the handlers decode it. */
  function DecodedStatuses(ss: seq<EventStatus>): (rs: seq<EventStatusResponse>)
    ensures |rs| == |ss|
    ensures forall i :: 0 <= i < |ss| ==> rs[i] == DecodedStatus(ss[i])
  {
    seq(|ss|, i requires 0 <= i < |ss| => DecodedStatus(ss[i]))
  }

  /** Appending a record to a decoded listing appends its decoded form. */
  lemma DecodedStatusesAppend(ss: seq<EventStatus>, s: EventStatus)
    ensures DecodedStatuses(ss + [s]) == DecodedStatuses(ss) + [DecodedStatus(s)]
  {
  }

  /** Appending a record to a converted listing appends its conversion. */
  lemma StatusesToResponsesAppend(ss: seq<EventStatus>, s: EventStatus)
    ensures StatusesToResponses(ss + [s]) == StatusesToResponses(ss) + [StatusToResponse(s)]
  {
  }
}
