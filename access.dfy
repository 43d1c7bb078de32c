/**
 * The checks that open the invite, update, delete, submit and attendee-listing
 * handlers, always in the same order: the `:id` parameter must be an object ID
 * (400), the request context must hold the caller's user ID (401) in object-ID
 * form (400), the event must be readable (500) and exist (404), and the caller
 * must be an organizer, or for status submission any participant, of it (403).
 */
module Access {
  import opened Wrappers
  import opened ObjectIds
  import opened Models
  import opened Membership
  import opened Outcomes
  import opened Store

  datatype Need = AnyParticipant | OrganizerOnly

  /** The event the caller may act on, and the caller's ID. */
  datatype Grant = Grant(event: Event, user: ObjectId)

  predicate Permits(need: Need, ps: seq<Participant>, user: ObjectId) {
    match need
    case AnyParticipant => IsParticipant(ps, user)
    case OrganizerOnly => HasRole(ps, user, Organizer)
  }

  /** `c.Get("user_id")` then ObjectIDFromHex. */
  function ParseCaller(caller: Option<string>): (r: Checked<ObjectId>)
    ensures r.Pass? <==> caller.Some? && FromHex(caller.value).Some?
    ensures r.Pass? ==> Some(r.value) == FromHex(caller.value)
    ensures r.Reject? ==> r.error == if caller.None? then Unauthenticated else InvalidUserId
  {
    match caller
    case None => Reject(Unauthenticated)
    case Some(hex) =>
      match FromHex(hex)
      case None => Reject(InvalidUserId)
      case Some(id) => Pass(id)
  }

  function Gate(events: seq<Event>, eventIdHex: string, caller: Option<string>, fault: Fault, need: Need): (g: Checked<Grant>)
    ensures g.Pass? ==> g.value.event in events && FromHex(eventIdHex) == Some(g.value.event.id)
    ensures g.Pass? ==> ParseCaller(caller) == Pass(g.value.user)
    ensures g.Pass? ==> Permits(need, g.value.event.participants, g.value.user)
  {
    match FromHex(eventIdHex)
    case None => Reject(InvalidEventId)
    case Some(eventId) =>
      match ParseCaller(caller)
      case Reject(e) => Reject(e)
      case Pass(user) =>
        if fault == FailEventRead then Reject(StoreFailure)
        else
          match FindEvent(events, eventId)
          case None => Reject(NotFound)
          case Some(event) =>
            if Permits(need, event.participants, user) then Pass(Grant(event, user)) else Reject(Forbidden)
  }

  /**
   * The order of the checks: a missing event is reported as 404 whatever the
   * caller's role, and 403 is reported only for an event that exists.
   */
  lemma GateOrder(events: seq<Event>, eventIdHex: string, caller: Option<string>, fault: Fault, need: Need)
    ensures FromHex(eventIdHex).None? ==> Gate(events, eventIdHex, caller, fault, need) == Reject(InvalidEventId)
    ensures FromHex(eventIdHex).Some? && ParseCaller(caller).Reject? ==>
      Gate(events, eventIdHex, caller, fault, need) == Reject(ParseCaller(caller).error)
    ensures FromHex(eventIdHex).Some? && ParseCaller(caller).Pass? && fault == FailEventRead ==>
      Gate(events, eventIdHex, caller, fault, need) == Reject(StoreFailure)
    ensures FromHex(eventIdHex).Some? && ParseCaller(caller).Pass? && fault != FailEventRead ==>
      (Gate(events, eventIdHex, caller, fault, need) == Reject(NotFound) <==>
       FindEvent(events, FromHex(eventIdHex).value).None?)
    ensures Gate(events, eventIdHex, caller, fault, need) == Reject(Forbidden) ==>
      FindEvent(events, FromHex(eventIdHex).value).Some? &&
      !Permits(need, FindEvent(events, FromHex(eventIdHex).value).value.participants, ParseCaller(caller).value)
  {
  }

  /** Whatever an organizer may do, so may a participant: the organizer entry is a participant entry. */
  lemma OrganizerIsParticipant(events: seq<Event>, eventIdHex: string, caller: Option<string>, fault: Fault)
    requires Gate(events, eventIdHex, caller, fault, OrganizerOnly).Pass?
    ensures Gate(events, eventIdHex, caller, fault, AnyParticipant) == Gate(events, eventIdHex, caller, fault, OrganizerOnly)
  {
    var g := Gate(events, eventIdHex, caller, fault, OrganizerOnly).value;
    var i :| 0 <= i < |g.event.participants| && g.event.participants[i].userId == g.user &&
      g.event.participants[i].role == Organizer;
    assert IsParticipant(g.event.participants, g.user);
  }

  /** The checks as the handlers run them: the membership test is the flag loop over the participants. */
  method Authorize(db: Database, eventIdHex: string, caller: Option<string>, fault: Fault, need: Need)
    returns (g: Checked<Grant>)
    ensures g == Gate(db.events, eventIdHex, caller, fault, need)
  {
    var eventId := FromHex(eventIdHex);
    if eventId.None? {
      return Reject(InvalidEventId);
    }
    var user := ParseCaller(caller);
    if user.Reject? {
      return Reject(user.error);
    }
    if fault == FailEventRead {
      return Reject(StoreFailure);
    }
    var found := FindEvent(db.events, eventId.value);
    if found.None? {
      return Reject(NotFound);
    }
    var event := found.value;
    var allowed;
    match need {
      case OrganizerOnly => allowed := CheckOrganizer(event.participants, user.value);
      case AnyParticipant => allowed := CheckParticipant(event.participants, user.value);
    }
    if !allowed {
      return Reject(Forbidden);
    }
    g := Pass(Grant(event, user.value));
  }
}
