/**
 * Who an event's participant list says a user is. The handlers decide
 * authorisation by scanning `event.Participants` with a flag and `break`
 * (controllers/event_controller.go, controllers/rsvp_controller.go); this module
 * holds those scans and the predicates they compute.
 */
module Membership {
  import opened ObjectIds
  import opened Models

  /** Some single entry carries both the user's ID and the role. */
  predicate HasRole(ps: seq<Participant>, user: ObjectId, role: Role) {
    exists i :: 0 <= i < |ps| && ps[i].userId == user && ps[i].role == role
  }

  /** Some entry carries the user's ID, whatever its role. */
  predicate IsParticipant(ps: seq<Participant>, user: ObjectId) {
    exists i :: 0 <= i < |ps| && ps[i].userId == user
  }

  /** No user ID occurs twice in the list. */
  predicate DistinctUsers(ps: seq<Participant>) {
    forall i, j :: 0 <= i < j < |ps| ==> ps[i].userId != ps[j].userId
  }

  function UserIds(ps: seq<Participant>): (ids: set<ObjectId>)
    ensures forall u :: u in ids <==> IsParticipant(ps, u)
  {
    set i | 0 <= i < |ps| :: ps[i].userId
  }

  /** The number of entries with the given role. */
  function CountRole(ps: seq<Participant>, role: Role): (n: nat)
    ensures n <= |ps|
  {
    if ps == [] then 0
    else CountRole(ps[..|ps| - 1], role) + (if ps[|ps| - 1].role == role then 1 else 0)
  }

  /** The organizer check: true exactly when one entry pairs the user with role organizer. */
  method CheckOrganizer(ps: seq<Participant>, user: ObjectId) returns (isOrganizer: bool)
    ensures isOrganizer == HasRole(ps, user, Organizer)
  {
    isOrganizer := false;
    var i := 0;
    while i < |ps|
      invariant 0 <= i <= |ps|
      invariant !isOrganizer
      invariant forall k :: 0 <= k < i ==> !(ps[k].userId == user && ps[k].role == Organizer)
    {
      if ps[i].userId == user && ps[i].role == Organizer {
        isOrganizer := true;
        break;
      }
      i := i + 1;
    }
  }

  /** The participant check: true exactly when some entry carries the user's ID. */
  method CheckParticipant(ps: seq<Participant>, user: ObjectId) returns (isParticipant: bool)
    ensures isParticipant == IsParticipant(ps, user)
  {
    isParticipant := false;
    var i := 0;
    while i < |ps|
      invariant 0 <= i <= |ps|
      invariant !isParticipant
      invariant forall k :: 0 <= k < i ==> ps[k].userId != user
    {
      if ps[i].userId == user {
        isParticipant := true;
        break;
      }
      i := i + 1;
    }
  }

  /** Counting roles distributes over concatenation. */
  lemma {:induction false} CountRoleAppend(ps: seq<Participant>, qs: seq<Participant>, role: Role)
    ensures CountRole(ps + qs, role) == CountRole(ps, role) + CountRole(qs, role)
  {
    if qs == [] {
      assert ps + qs == ps;
    } else {
      assert (ps + qs)[..|ps + qs| - 1] == ps + qs[..|qs| - 1];
      CountRoleAppend(ps, qs[..|qs| - 1], role);
    }
  }

  /** Every entry is an organizer or an attendee. */
  lemma {:induction false} RolesPartition(ps: seq<Participant>)
    ensures CountRole(ps, Organizer) + CountRole(ps, Attendee) == |ps|
  {
    if ps != [] {
      RolesPartition(ps[..|ps| - 1]);
    }
  }

  /** With exactly one organizer entry, the user holding it is unique. */
  lemma {:induction false} SingleOrganizer(ps: seq<Participant>, i: nat, j: nat)
    requires CountRole(ps, Organizer) == 1
    requires i < |ps| && j < |ps|
    requires ps[i].role == Organizer && ps[j].role == Organizer
    ensures i == j
  {
    var n := |ps| - 1;
    if i != n && j != n {
      CountRolePositive(ps[..n], i, Organizer);
      SingleOrganizer(ps[..n], i, j);
    } else if i != j {
      var k := if i == n then j else i;
      assert ps[n].role == Organizer;
      CountRolePositive(ps[..n], k, Organizer);
    }
  }

  lemma {:induction false} CountRolePositive(ps: seq<Participant>, k: nat, role: Role)
    requires k < |ps| && ps[k].role == role
    ensures CountRole(ps, role) >= 1
  {
    if k != |ps| - 1 {
      CountRolePositive(ps[..|ps| - 1], k, role);
    }
  }
}
