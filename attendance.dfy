/**
 * The attendee summary an organizer reads (GetEventAttendees in
 * controllers/rsvp_controller.go and its twin over `event_statuses`): a loop
 * over the event's records, as decoded into response structs, counting each
 * status and recording in a map who answered, then a loop over the participant
 * list counting attendee entries whose user is not a key of that map. `total`
 * is the length of the participant list minus one.
 */
module Attendance {
  import opened ObjectIds
  import opened Models
  import opened Membership

  /** The number of records holding status `v`. */
  function CountStatus(rs: seq<EventStatusResponse>, v: StatusValue): (n: nat)
    ensures n <= |rs|
  {
    if rs == [] then 0
    else CountStatus(rs[..|rs| - 1], v) + (if rs[|rs| - 1].status == v then 1 else 0)
  }

  /** A status count is zero exactly when no record holds that status. */
  lemma {:induction false} CountStatusZero(rs: seq<EventStatusResponse>, v: StatusValue)
    ensures CountStatus(rs, v) == 0 <==> forall k :: 0 <= k < |rs| ==> rs[k].status != v
  {
    if rs != [] {
      var init := rs[..|rs| - 1];
      CountStatusZero(init, v);
      assert forall k :: 0 <= k < |init| ==> rs[k] == init[k];
    }
  }

  /** The user IDs that hold a record: the keys of the handler's status map. */
  function ResponderIds(rs: seq<EventStatusResponse>): set<ObjectId> {
    if rs == [] then {} else ResponderIds(rs[..|rs| - 1]) + {rs[|rs| - 1].userId}
  }

  /** The responders are exactly the users some record belongs to. */
  lemma {:induction false} ResponderIdsMembers(rs: seq<EventStatusResponse>)
    ensures forall u :: u in ResponderIds(rs) <==> exists k :: 0 <= k < |rs| && rs[k].userId == u
  {
    if rs != [] {
      var init := rs[..|rs| - 1];
      ResponderIdsMembers(init);
      assert forall k :: 0 <= k < |init| ==> rs[k] == init[k];
    }
  }

  /** Entries with the role whose user is in `users`. */
  function CountRoleIn(ps: seq<Participant>, role: Role, users: set<ObjectId>): (n: nat)
    ensures n <= CountRole(ps, role)
  {
    if ps == [] then 0
    else
      var p := ps[|ps| - 1];
      CountRoleIn(ps[..|ps| - 1], role, users) + (if p.role == role && p.userId in users then 1 else 0)
  }

  /** Attendee entries whose user has not answered. */
  function CountUnanswered(ps: seq<Participant>, responded: set<ObjectId>): (n: nat)
    ensures n <= CountRole(ps, Attendee)
  {
    if ps == [] then 0
    else
      var p := ps[|ps| - 1];
      CountUnanswered(ps[..|ps| - 1], responded) + (if p.role == Attendee && p.userId !in responded then 1 else 0)
  }

  datatype AttendeeSummary = AttendeeSummary(
    total: int, going: nat, maybe: nat, notGoing: nat, noResponse: nat,
    attendees: seq<EventStatusResponse>)

  /** What the summary holds for a participant list and the event's decoded records. */
  function SummaryOf(ps: seq<Participant>, rs: seq<EventStatusResponse>): AttendeeSummary {
    AttendeeSummary(|ps| - 1, CountStatus(rs, Going), CountStatus(rs, Maybe), CountStatus(rs, NotGoing),
                    CountUnanswered(ps, ResponderIds(rs)), rs)
  }

  /** The first loop: fill the status map and count each status. */
  method CountResponses(rs: seq<EventStatusResponse>)
    returns (statusMap: map<ObjectId, StatusValue>, going: nat, maybe: nat, notGoing: nat)
    ensures statusMap.Keys == ResponderIds(rs)
    ensures going == CountStatus(rs, Going) && maybe == CountStatus(rs, Maybe) && notGoing == CountStatus(rs, NotGoing)
  {
    statusMap := map[];
    going, maybe, notGoing := 0, 0, 0;
    var i := 0;
    while i < |rs|
      invariant 0 <= i <= |rs|
      invariant statusMap.Keys == ResponderIds(rs[..i])
      invariant going == CountStatus(rs[..i], Going)
      invariant maybe == CountStatus(rs[..i], Maybe)
      invariant notGoing == CountStatus(rs[..i], NotGoing)
    {
      var r := rs[i];
      CountStep(rs, i);
      statusMap := statusMap[r.userId := r.status];
      match r.status {
        case Going => going := going + 1;
        case Maybe => maybe := maybe + 1;
        case NotGoing => notGoing := notGoing + 1;
        case NoResponse =>
      }
      i := i + 1;
    }
    assert rs[..i] == rs;
  }

  /** Extending a prefix by one record adds its user and counts its status. */
  lemma CountStep(rs: seq<EventStatusResponse>, i: nat)
    requires i < |rs|
    ensures ResponderIds(rs[..i + 1]) == ResponderIds(rs[..i]) + {rs[i].userId}
    ensures forall v :: CountStatus(rs[..i + 1], v) == CountStatus(rs[..i], v) + (if rs[i].status == v then 1 else 0)
  {
    assert rs[..i + 1][..i] == rs[..i];
  }

  /** The second loop: attendee entries whose user is not a key of the map. */
  method CountNoResponse(ps: seq<Participant>, statusMap: map<ObjectId, StatusValue>) returns (noResponse: nat)
    ensures noResponse == CountUnanswered(ps, statusMap.Keys)
  {
    noResponse := 0;
    var j := 0;
    while j < |ps|
      invariant 0 <= j <= |ps|
      invariant noResponse == CountUnanswered(ps[..j], statusMap.Keys)
    {
      assert ps[..j + 1][..j] == ps[..j];
      if ps[j].role == Attendee && ps[j].userId !in statusMap {
        noResponse := noResponse + 1;
      }
      j := j + 1;
    }
    assert ps[..j] == ps;
  }

  /** The handler's summary: both loops, then the record listing. */
  method Summarize(ps: seq<Participant>, rs: seq<EventStatusResponse>) returns (summary: AttendeeSummary)
    ensures summary == SummaryOf(ps, rs)
  {
    var statusMap, going, maybe, notGoing := CountResponses(rs);
    var noResponse := CountNoResponse(ps, statusMap);
    summary := AttendeeSummary(|ps| - 1, going, maybe, notGoing, noResponse, rs);
  }

  // ------------------------------------------------------------ counting lemmas

  /** Records that all hold a submittable status are each counted exactly once. */
  lemma {:induction false} StatusCountsCoverRecords(rs: seq<EventStatusResponse>)
    requires forall k :: 0 <= k < |rs| ==> Submittable(rs[k].status)
    ensures CountStatus(rs, Going) + CountStatus(rs, Maybe) + CountStatus(rs, NotGoing) == |rs|
  {
    if rs != [] {
      StatusCountsCoverRecords(rs[..|rs| - 1]);
      assert Submittable(rs[|rs| - 1].status);
    }
  }

  /** Each attendee entry either answered or is counted as not having answered. */
  lemma {:induction false} UnansweredSplit(ps: seq<Participant>, responded: set<ObjectId>)
    ensures CountRoleIn(ps, Attendee, responded) + CountUnanswered(ps, responded) == CountRole(ps, Attendee)
  {
    if ps != [] {
      UnansweredSplit(ps[..|ps| - 1], responded);
    }
  }

  /** Records with distinct users have as many responders as records. */
  lemma {:induction false} RespondersCount(rs: seq<EventStatusResponse>)
    requires forall i, j :: 0 <= i < j < |rs| ==> rs[i].userId != rs[j].userId
    ensures |ResponderIds(rs)| == |rs|
  {
    if rs != [] {
      var init := rs[..|rs| - 1];
      RespondersCount(init);
      ResponderIdsMembers(init);
      assert rs[|rs| - 1].userId !in ResponderIds(init);
    }
  }

  /** The count only looks at the users of the list's own entries. */
  lemma {:induction false} CountRoleInAgree(ps: seq<Participant>, role: Role, users: set<ObjectId>, others: set<ObjectId>)
    requires forall k :: 0 <= k < |ps| ==> (ps[k].userId in users <==> ps[k].userId in others)
    ensures CountRoleIn(ps, role, users) == CountRoleIn(ps, role, others)
  {
    if ps != [] {
      CountRoleInAgree(ps[..|ps| - 1], role, users, others);
    }
  }

  /** With distinct entries, each responder that is a participant is counted under exactly one role. */
  lemma {:induction false} RespondersByRole(ps: seq<Participant>, users: set<ObjectId>)
    requires DistinctUsers(ps)
    requires users <= UserIds(ps)
    ensures CountRoleIn(ps, Attendee, users) + CountRoleIn(ps, Organizer, users) == |users|
  {
    if ps != [] {
      var init := ps[..|ps| - 1];
      var p := ps[|ps| - 1];
      var rest := users - {p.userId};
      forall u | u in rest ensures u in UserIds(init) {
        var k :| 0 <= k < |ps| && ps[k].userId == u;
        assert k < |init| && init[k].userId == u;
      }
      RespondersByRole(init, rest);
      forall k | 0 <= k < |init| ensures init[k].userId in users <==> init[k].userId in rest {
        assert init[k].userId == ps[k].userId != p.userId;
      }
      CountRoleInAgree(init, Attendee, users, rest);
      CountRoleInAgree(init, Organizer, users, rest);
    }
  }

  /** A positive count is witnessed by an entry. */
  lemma {:induction false} CountRoleInWitness(ps: seq<Participant>, role: Role, users: set<ObjectId>)
    requires CountRoleIn(ps, role, users) > 0
    ensures exists k :: 0 <= k < |ps| && ps[k].role == role && ps[k].userId in users
  {
    var p := ps[|ps| - 1];
    if !(p.role == role && p.userId in users) {
      var init := ps[..|ps| - 1];
      CountRoleInWitness(init, role, users);
      var k :| 0 <= k < |init| && init[k].role == role && init[k].userId in users;
      assert ps[k] == init[k];
    }
  }

  /** With one organizer entry, held by `u`, the organizer is counted as a responder exactly when `u` answered. */
  lemma OrganizerResponded(ps: seq<Participant>, users: set<ObjectId>, u: ObjectId)
    requires CountRole(ps, Organizer) == 1
    requires HasRole(ps, u, Organizer)
    ensures CountRoleIn(ps, Organizer, users) == if u in users then 1 else 0
  {
    var i :| 0 <= i < |ps| && ps[i].userId == u && ps[i].role == Organizer;
    if CountRoleIn(ps, Organizer, users) > 0 {
      CountRoleInWitness(ps, Organizer, users);
      var k :| 0 <= k < |ps| && ps[k].role == Organizer && ps[k].userId in users;
      SingleOrganizer(ps, i, k);
    }
    if u in users {
      CountRoleInPositive(ps, i, Organizer, users);
    }
  }

  lemma {:induction false} CountRoleInPositive(ps: seq<Participant>, k: nat, role: Role, users: set<ObjectId>)
    requires k < |ps| && ps[k].role == role && ps[k].userId in users
    ensures CountRoleIn(ps, role, users) >= 1
  {
    if k != |ps| - 1 {
      CountRoleInPositive(ps[..|ps| - 1], k, role, users);
    }
  }

  /**
   * The four counts add up to `total` when the organizer has not answered, and
   * to one more when they have: `total` leaves the organizer out, but the status
   * counts run over every record, the organizer's included.
   */
  lemma SummaryBalance(ps: seq<Participant>, rs: seq<EventStatusResponse>, organizer: ObjectId)
    requires DistinctUsers(ps)
    requires CountRole(ps, Organizer) == 1 && HasRole(ps, organizer, Organizer)
    requires forall i, j :: 0 <= i < j < |rs| ==> rs[i].userId != rs[j].userId
    requires forall k :: 0 <= k < |rs| ==> Submittable(rs[k].status) && IsParticipant(ps, rs[k].userId)
    ensures var s := SummaryOf(ps, rs);
      s.going + s.maybe + s.notGoing + s.noResponse
        == s.total + (if organizer in ResponderIds(rs) then 1 else 0)
  {
    var users := ResponderIds(rs);
    ResponderIdsMembers(rs);
    StatusCountsCoverRecords(rs);
    RespondersCount(rs);
    RespondersByRole(ps, users);
    UnansweredSplit(ps, users);
    RolesPartition(ps);
    OrganizerResponded(ps, users, organizer);
  }

  /** `no_response` counts attendee entries only: organizer entries never add to it. */
  lemma NoResponseBound(ps: seq<Participant>, rs: seq<EventStatusResponse>)
    ensures SummaryOf(ps, rs).noResponse <= |ps| - CountRole(ps, Organizer)
    ensures SummaryOf(ps, rs).noResponse == CountRole(ps, Attendee) - CountRoleIn(ps, Attendee, ResponderIds(rs))
  {
    RolesPartition(ps);
    UnansweredSplit(ps, ResponderIds(rs));
  }

  // ---------------------------------------------------- decoded against stored

  /** Decoding keeps every status, so the status counts do not depend on it. */
  lemma {:induction false} DecodedStatusCounts(rs: seq<EventStatus>, v: StatusValue)
    ensures CountStatus(DecodedStatuses(rs), v) == CountStatus(StatusesToResponses(rs), v)
  {
    if rs != [] {
      var init := rs[..|rs| - 1];
      DecodedStatusCounts(init, v);
      assert rs == init + [rs[|rs| - 1]];
      DecodedStatusesAppend(init, rs[|rs| - 1]);
      StatusesToResponsesAppend(init, rs[|rs| - 1]);
      assert DecodedStatuses(rs)[..|rs| - 1] == DecodedStatuses(init);
      assert StatusesToResponses(rs)[..|rs| - 1] == StatusesToResponses(init);
    }
  }

  /** Every decoded record carries the nil user ID, so the map has at most that one key. */
  lemma {:induction false} DecodedResponders(rs: seq<EventStatus>)
    ensures ResponderIds(DecodedStatuses(rs)) == if rs == [] then {} else {NilId}
  {
    if rs != [] {
      var init := rs[..|rs| - 1];
      DecodedResponders(init);
      assert DecodedStatuses(rs)[..|rs| - 1] == DecodedStatuses(init);
    }
  }

  /** Against the nil ID alone, every attendee entry with a real user ID counts as unanswered. */
  lemma {:induction false} UnansweredAgainstNil(ps: seq<Participant>)
    requires forall k :: 0 <= k < |ps| ==> ps[k].userId != NilId
    ensures CountUnanswered(ps, {NilId}) == CountRole(ps, Attendee)
    ensures CountUnanswered(ps, {}) == CountRole(ps, Attendee)
  {
    if ps != [] {
      UnansweredAgainstNil(ps[..|ps| - 1]);
    }
  }

  /**
   * The summary as the handler computes it: once the event has any record,
   * `no_response` counts every attendee entry, answered or not, while the
   * status counts are those of the stored records.
   */
  lemma DecodedSummaryCountsEveryAttendee(ps: seq<Participant>, rs: seq<EventStatus>)
    requires forall k :: 0 <= k < |ps| ==> ps[k].userId != NilId
    ensures var s := SummaryOf(ps, DecodedStatuses(rs));
      && s.noResponse == CountRole(ps, Attendee)
      && s.going == CountStatus(StatusesToResponses(rs), Going)
      && s.maybe == CountStatus(StatusesToResponses(rs), Maybe)
      && s.notGoing == CountStatus(StatusesToResponses(rs), NotGoing)
  {
    DecodedResponders(rs);
    UnansweredAgainstNil(ps);
    DecodedStatusCounts(rs, Going);
    DecodedStatusCounts(rs, Maybe);
    DecodedStatusCounts(rs, NotGoing);
  }

  /**
   * One organizer (user 1) and two attendees (users 2 and 3); user 2 has
   * answered going. The handler reports no_response 2 against total 2 and
   * going 1; counting against the stored user IDs gives no_response 1.
   */
  lemma DecodedSummaryExample()
    ensures var ps := [Participant(1, Organizer), Participant(2, Attendee), Participant(3, Attendee)];
      var rs := [EventStatus(10, 5, 2, Going, 0, 0)];
      && SummaryOf(ps, DecodedStatuses(rs)).total == 2
      && SummaryOf(ps, DecodedStatuses(rs)).going == 1
      && SummaryOf(ps, DecodedStatuses(rs)).noResponse == 2
      && SummaryOf(ps, StatusesToResponses(rs)).noResponse == 1
  {
    var ps := [Participant(1, Organizer), Participant(2, Attendee), Participant(3, Attendee)];
    var rs := [EventStatus(10, 5, 2, Going, 0, 0)];
    DecodedResponders(rs);
    assert ResponderIds(StatusesToResponses(rs)) == {2} by {
      assert StatusesToResponses(rs)[..0] == [];
    }
    assert ps[..2][..1] == [ps[0]] && ps[..2] == [ps[0], ps[1]] && ps[..1][..0] == [];
    assert DecodedStatuses(rs)[..0] == [];
  }
}
