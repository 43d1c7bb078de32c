# Event membership and attendance responses, modelled in Dafny

This project models the core of an event-planning backend: HTTP handlers over three
document collections, `events`, `rsvps` and `event_statuses`.

- An authenticated user creates an event and becomes its one organizer entry.
- The organizer invites other users as attendees, edits the event and deletes it.
  Deleting an event also deletes its RSVP records.
- Every listed user, the organizer included, records an attendance response:
  going, maybe or not going. The organizer reads a summary of those responses.
- Users search the events they are listed in, by keyword, date range, role and
  location.

Module layout:

- `Models` holds the documents, the requests, their validation tags and the
  conversions to response shapes (models/event.go).
- `ObjectIds` parses and prints the 24-digit hexadecimal object IDs.
- `Membership` holds the scans over the participant list that decide
  authorisation.
- `Store` holds the collections as sequences in insertion order, the collection
  operations the handlers call, and `Database`. `Database` is a class whose
  fields the handlers update. `Database.Valid` is the invariant every handler
  keeps:
  - event IDs are unique;
  - every event has exactly one organizer entry;
  - a response record is unique per (event, user) and never holds `no_response`;
  - a response record belongs to a participant of its event while that event
    exists.
- `Access` holds the check sequence the handlers share: event ID, then caller,
  then event lookup, then membership.
- `Query` holds what a MongoDB filter document selects.
- `EventController`, `ResponseController` and `SearchController` hold the
  handlers. `Attendance` holds the summary's counting loops.

controllers/rsvp_controller.go and controllers/event_status_controller.go are
line-for-line copies over two collections. `ResponseController` models both: each
member takes the collection (`Rsvps` or `EventStatuses`) as a parameter. Only the
RSVP handlers are routed (routes/routes.go:49-52).
The table below cites the RSVP copy. The event-status copies are
controllers/event_status_controller.go:19-135 (submit), 138-247 (summary), 250-298
(own status) and 301-394 (listing by status).

Inputs the handlers get from outside become parameters:

- the caller's `user_id` from the token is an `Option<string>`;
- a JSON body is an `Option` of the request, where `None` means it did not bind;
- the clock is `now`;
- a failing store call is a `Fault` value that names which call fails;
- an unescaped `$regex` is decided by a `RegexMatcher` function.

Behaviours of the code that the model keeps, and that a reader might not expect:

- The listings and the attendee summary decode the documents straight into the
  response structs, which carry json tags only. The driver's default codec then
  looks each field up under its lower-cased Go name, so `id`, the two foreign
  IDs and the timestamps come back zero; titles, dates, participants and statuses
  come through. The model keeps this (`Models.DecodedEvent`,
  `Models.DecodedStatus`), and "## Findings" records what it breaks.
- The attendee summary's `total` is the participant count minus one
  (controllers/rsvp_controller.go:214). The status counts, however, run over
  every record of the event, and the organizer may submit one too. Counted
  against the stored user IDs, the four counts add up to `total` exactly when the
  organizer has not answered, and to `total + 1` when they have
  (`Attendance.SummaryBalance`), on condition that the participant list names no
  user twice. As written, the handler counts against decoded user IDs, which are
  all nil.
- An invite consults only the stored list. A user ID given twice in one request
  is therefore appended twice (`EventController.InviteDuplicatesAppended`), so
  duplicate-free participant lists are not an invariant.
- Creating an event accepts any non-empty date: no date in the past is refused
  (`Models.CreateDateUnconstrained`).
- Deleting an event cascades to `rsvps` only. `event_statuses` records stay
  behind, and a failed cascade is ignored.
- `GetEventByID` and the caller's own-status read check no membership.
- `SearchEvents` does not validate `user_role`. An unknown role yields an empty
  result (`SearchController.UnknownRoleSelectsNothing`).

## Model

| member | source | states |
|---|---|---|
| ObjectIds.FromHex | controllers/event_controller.go:188-194 | an ID parses exactly when it is 24 hexadecimal digits, and its value is below 16^24 |
| ObjectIds.HexRoundTrip | models/event.go:95 | printing an ID as hex and parsing it back gives the same ID |
| ObjectIds.ParsedPrintsLowerCase | controllers/event_controller.go:190 | parsing accepts either case; printing the parsed ID gives the input in lower case |
| Models.ParseRole | models/event.go:12-15 | only "organizer" and "attendee" name a role, and a parsed role prints as its input |
| Models.RoleNameRoundTrip | models/event.go:12-15 | every role's name parses back to that role |
| Models.ParseStatusExactly | models/event.go:89-91 | a status string is accepted exactly when it names going, maybe or not_going |
| Models.NoResponseRejected | models/event.go:24 | "no_response" is a status value that can never be submitted |
| Models.CreateErrors | models/event.go:66-72 | each of title (3..200), description (10..2000), date and time (non-empty) and location (5..500) is reported exactly when it breaks its rule; nothing is reported exactly when all hold |
| Models.CreateDateUnconstrained | models/event.go:69 | any two non-empty dates give the same validation result: no date is refused as past |
| Models.InviteErrors | models/event.go:75-77 | an invite fails validation exactly when its ID list is empty |
| Models.UpdateErrors | models/event.go:80-86 | title (3..200), description (10..2000) and location (5..500) are each reported exactly when outside their bounds; the request is valid exactly when all three are within; date and time are unchecked |
| Models.ValidUpdateCarriesTextFields | models/event.go:80-86 | a valid update always carries non-empty title, description and location |
| Models.StatusRequestErrors | models/event.go:89-91 | a status request is valid exactly when its status parses as a submittable value |
| Models.EventToResponse | models/event.go:118-130 | the response copies every event field, and my_status stays empty |
| Models.StatusToResponse | models/event.go:133-142 | the response copies every field of the record |
| Models.EventsToResponses | models/event.go:118-130 | each event converted by ToResponse, in order, keeping its ID and times: the listing the handlers evidently intend |
| Models.DecodedEvent | models/event.go:94-105 | an event document decoded into EventResponse is its ToResponse conversion with id, created_at and updated_at at their zero values |
| Models.DecodedEventLosesIdentity | controllers/event_controller.go:121-122 | a decoded event equals its ToResponse conversion only when its ID and both times are already zero; events differing only there decode alike |
| Models.DecodedEvents | controllers/search_controller.go:64-65 | a listing decodes each selected event, in order |
| Models.StatusesToResponses | models/event.go:133-142 | each record converted by ToResponse, in order, keeping its IDs and times |
| Models.DecodedStatus | models/event.go:107-115 | a record decoded into EventStatusResponse keeps its status; ID, event ID, user ID and both times are zero |
| Models.DecodedStatusKeepsOnlyStatus | controllers/event_status_controller.go:202-203 | two decoded records are equal exactly when their statuses are, and a decoded user ID is always nil |
| Models.DecodedStatuses | controllers/rsvp_controller.go:383-384 | a listing decodes each selected record, in order |
| Membership.CheckOrganizer | controllers/event_controller.go:266-273 | the flag loop returns true exactly when one entry pairs the caller with the organizer role |
| Membership.CheckParticipant | controllers/rsvp_controller.go:72-79 | the flag loop returns true exactly when some entry carries the user's ID |
| Membership.CountRoleAppend | controllers/event_controller.go:305-310 | role counts add up over an appended list |
| Membership.RolesPartition | models/event.go:37-40 | every entry is counted under exactly one of the two roles |
| Membership.SingleOrganizer | controllers/event_controller.go:53-65 | with one organizer entry, any two organizer positions are the same position |
| Query.LexLeReflexive | controllers/search_controller.go:163-175 | the string order used for date bounds is reflexive |
| Query.LexLeTotal | controllers/search_controller.go:163-175 | any two date strings are comparable |
| Query.LexLeAntisymmetric | controllers/search_controller.go:163-175 | two strings each at most the other are equal |
| Query.LexLeTransitive | controllers/search_controller.go:163-175 | the string order is transitive |
| Query.Select | controllers/event_controller.go:114-125 | Find returns exactly the stored events that match the filter, and no more than are stored |
| Query.SelectAgrees | controllers/search_controller.go:431-443 | two filters that select the same events give the same listing in the same order |
| Query.MemberFilterWithRole | controllers/event_controller.go:104-112 | an elemMatch clause with a role selects exactly the events where one entry pairs the user with that role |
| Query.MemberFilterAnyRole | controllers/search_controller.go:102-109 | an elemMatch clause without a role selects exactly the events listing the user |
| Query.SelectNone | controllers/search_controller.go:56-72 | a filter no stored event matches returns an empty listing |
| Store.FindEvent | controllers/event_controller.go:199-207 | the lookup returns a stored event with that ID, or None when no event has it |
| Store.ReplaceEvent | controllers/event_controller.go:306-310 | the update replaces the document with the event's ID and keeps every other document and position |
| Store.FindAfterReplaceEvent | controllers/event_controller.go:305-310 | after an update by _id, the new version is found under its ID exactly when an event had that ID, and every other ID finds what it found before |
| Store.RemoveEvent | controllers/event_controller.go:479-484 | DeleteOne keeps exactly the events with another ID |
| Store.FindResponse | controllers/rsvp_controller.go:86-95 | the lookup returns a record of the (event, user) pair, or None when there is none |
| Store.ResponsesOf | controllers/rsvp_controller.go:369-378 | Find returns exactly the event's records, restricted to one status when one is given |
| Store.ReplaceResponse | controllers/rsvp_controller.go:97-105 | the update replaces the record with the given ID and keeps the rest |
| Store.RemoveResponsesOf | controllers/event_controller.go:491-493 | DeleteMany keeps exactly the records of other events |
| Store.Database.GenerateId | controllers/rsvp_controller.go:124-130 | an insert takes a fresh identifier and advances the counter |
| Store.InsertEventValid | controllers/event_controller.go:54-79 | inserting an event with a fresh ID and one organizer entry keeps the store invariant |
| Store.ReplaceEventValid | controllers/event_controller.go:305-310 | replacing an event by a version that keeps its ID, its organizer count and every listed user keeps the invariant |
| Store.RemoveEventValid | controllers/event_controller.go:479-493 | deleting an event keeps the invariant, whether or not its records are deleted |
| Store.RemoveResponsesValid | controllers/event_controller.go:491-493 | deleting an event's records keeps the record invariant |
| Store.ResponsesOfAbsent | controllers/event_controller.go:491-493 | once an event's records are deleted, a query for them finds nothing |
| Store.UpsertRecords | controllers/rsvp_controller.go:86-131 | after an upsert the pair's record holds the new status and time; an insert adds one record and an update none; other pairs' records are untouched |
| Store.UpsertValid | controllers/rsvp_controller.go:86-131 | an upsert by a participant with a submittable status keeps one record per (event, user) and the rest of the invariant |
| Store.ResponsesOfDistinctUsers | controllers/rsvp_controller.go:193-206 | in a valid store, the records of one event belong to distinct users |
| Access.ParseCaller | controllers/event_controller.go:33-51 | a missing user_id is 401, and one that is not an object ID is 400 Invalid user ID |
| Access.Gate | controllers/event_controller.go:228-278 | a granted request names a stored event with the parsed ID, and a caller whose membership satisfies the need |
| Access.GateOrder | controllers/event_controller.go:228-278 | checks come in order: event ID, caller, store read, 404 exactly when the event is missing, and 403 only for an existing event the caller lacks rights to |
| Access.OrganizerIsParticipant | controllers/rsvp_controller.go:72-84 | a caller who passes the organizer check also passes the participant check |
| Access.Authorize | controllers/event_controller.go:252-278 | the handler's lookup and flag loop decide exactly as the gate does |
| Attendance.CountStatusZero | controllers/rsvp_controller.go:222-233 | a status count is zero exactly when no record holds that status |
| Attendance.ResponderIdsMembers | controllers/rsvp_controller.go:221-224 | the status map's keys are exactly the users holding a record |
| Attendance.CountResponses | controllers/rsvp_controller.go:221-233 | the first loop fills the map with exactly the responders' keys and counts each status over all records |
| Attendance.CountNoResponse | controllers/rsvp_controller.go:236-244 | the second loop counts the attendee entries whose user is not a key of the map |
| Attendance.CountUnanswered | controllers/rsvp_controller.go:235-243 | no_response never exceeds the number of attendee entries |
| Attendance.Summarize | controllers/rsvp_controller.go:212-244 | the two counting loops compute total, the three status counts, no_response and the record listing of the summary |
| Attendance.StatusCountsCoverRecords | controllers/rsvp_controller.go:222-233 | with submittable statuses, going + maybe + not_going is the number of records |
| Attendance.UnansweredSplit | controllers/rsvp_controller.go:235-243 | each attendee entry is counted as answered or as no_response, never both |
| Attendance.RespondersCount | controllers/rsvp_controller.go:221-224 | records of distinct users give as many map keys as records |
| Attendance.RespondersByRole | controllers/rsvp_controller.go:212-244 | with a duplicate-free list, each responder who is listed is counted under exactly one role |
| Attendance.OrganizerResponded | controllers/rsvp_controller.go:212-244 | the organizer entry counts among responders exactly when the organizer answered |
| Attendance.SummaryBalance | controllers/rsvp_controller.go:212-244 | going + maybe + not_going + no_response is total, plus one when the organizer has answered |
| Attendance.NoResponseBound | controllers/rsvp_controller.go:235-243 | no_response is the number of attendee entries minus the attendees who answered |
| Attendance.DecodedStatusCounts | controllers/rsvp_controller.go:222-233 | decoding keeps every status, so the three status counts equal those over the stored records |
| Attendance.DecodedResponders | controllers/rsvp_controller.go:221-224 | over decoded records the status map's keys are the nil ID alone, or nothing when there is no record |
| Attendance.UnansweredAgainstNil | controllers/rsvp_controller.go:236-244 | with no participant holding the nil ID, every attendee entry counts as unanswered against the nil key alone or against no key |
| Attendance.DecodedSummaryCountsEveryAttendee | controllers/rsvp_controller.go:202-244 | as written, no_response is the number of attendee entries, answered or not, while the status counts are those of the stored records |
| Attendance.DecodedSummaryExample | controllers/rsvp_controller.go:202-244 | organizer 1, attendees 2 and 3, user 2 going: the handler reports going 1 and no_response 2 against total 2; counting stored user IDs gives no_response 1 |
| EventController.NewEvent | controllers/event_controller.go:53-68 | a new event carries the request's fields, the caller as its one and only entry as organizer, and equal creation and update times |
| EventController.CreateEvent | controllers/event_controller.go:19-80 | the checks run in order: bind, validation, caller, insert failure. On success 201 with the new event appended under a fresh ID, the counter advanced by one, and the store stays valid |
| EventController.ListByRole | controllers/event_controller.go:83-132 | a role listing is the elemMatch selection for the caller and that role, as decoded |
| EventController.GetOrganizedEvents | controllers/event_controller.go:83-132 | the listing is the decoded elemMatch selection, in store order with each event once, and it holds exactly the stored events where the caller has an organizer entry |
| EventController.GetInvitedEvents | controllers/event_controller.go:135-184 | the listing is the decoded elemMatch selection, in store order with each event once, and it holds exactly the stored events where the caller has an attendee entry |
| EventController.GetEventByID | controllers/event_controller.go:187-210 | any caller reads any existing event; 400 for a bad ID, 404 when missing, 500 on a failed read |
| EventController.NewAttendees | controllers/event_controller.go:280-298 | no more entries are appended than IDs requested, and none of them is an organizer entry |
| EventController.NewAttendeesSound | controllers/event_controller.go:280-298 | every appended entry is an attendee from the request whom the stored list does not hold |
| EventController.NewAttendeesComplete | controllers/event_controller.go:280-303 | every requested ID not yet listed is appended; nothing is appended exactly when all are listed, which is the 400 case |
| EventController.NewParticipants | controllers/event_controller.go:280-298 | the nested loop collects exactly the new attendee entries |
| EventController.Invited | controllers/event_controller.go:305-310 | the stored list is kept as a prefix, the new entries follow it, and only updated_at changes besides |
| EventController.InviteKeepsMembers | controllers/event_controller.go:305-310 | an invite keeps every listed user and exactly one organizer entry |
| EventController.InviteKeepsDistinct | controllers/event_controller.go:280-298 | a request without repeated IDs keeps a duplicate-free list duplicate-free |
| EventController.InviteDuplicatesAppended | controllers/event_controller.go:280-298 | a new ID requested twice is appended twice, leaving the list with a duplicate |
| EventController.InviteToEvent | controllers/event_controller.go:213-320 | the checks run in order: bind, validation, gate, nothing new, write failure. On success 200 with the new-entry count, the event replaced by its invited version, and the store stays valid |
| EventController.ApplyUpdate | controllers/event_controller.go:409-413 | the set never touches ID, participants or creation time, and always sets updated_at |
| EventController.UpdateOverwritesProvided | controllers/event_controller.go:390-407 | exactly the non-empty request fields overwrite the stored ones |
| EventController.ValidUpdateReplacesText | controllers/event_controller.go:332-407 | after validation, title, description and location are always overwritten; only date and time can be kept |
| EventController.UpdateIdempotent | controllers/event_controller.go:390-413 | applying the same update twice changes nothing more |
| EventController.UpdateEvent | controllers/event_controller.go:323-421 | the checks run in order: bind, validation, gate, write failure. On success 200, only that event is changed, and the store stays valid |
| EventController.DeleteEvent | controllers/event_controller.go:424-496 | after the gate the event is removed and its rsvps records are removed unless the cascade fails; event_statuses are kept; 200 and the store stays valid |
| EventController.DeleteRemovesEventAndRsvps | controllers/event_controller.go:479-493 | after a delete the event cannot be found, none of its rsvps records remain, and every other event stays |
| ResponseController.CreateOrUpdateResponse | controllers/rsvp_controller.go:19-135 | the checks run in order: bind, validation, gate for any participant, read failure, write failure. An existing record gets the status (200); otherwise a fresh record is inserted (201). The store stays valid |
| ResponseController.GetEventAttendees | controllers/rsvp_controller.go:138-247 | the organizer alone gets the summary, computed over all of the event's records as decoded into response structs |
| ResponseController.StoredSummaryBalance | controllers/rsvp_controller.go:193-244 | counted against the stored records, in a valid store with a duplicate-free list, the summary counts add up to total, plus one when the organizer has answered |
| ResponseController.OwnStatusOf | controllers/rsvp_controller.go:250-298 | 400 for a bad event ID, then the caller's errors, then 500 on a failed read; the pair's record, when there is one, is answered 200 with its ToResponse, and no_response exactly when there is none; event existence and membership are not checked |
| ResponseController.GetUserStatus | controllers/rsvp_controller.go:250-298 | the handler answers as the own-status reading of the collection |
| ResponseController.SubmitThenRead | controllers/rsvp_controller.go:277-297 | reading one's own response right after submitting gives back the submitted status and time |
| ResponseController.StatusFilter | controllers/rsvp_controller.go:305-315 | the status query is refused exactly when non-empty and not one of the three names |
| ResponseController.GetAttendeesByStatus | controllers/rsvp_controller.go:301-394 | the status query is checked before anything else; then the organizer gets the event's records as decoded, of that status when one is given |
| ResponseController.ListingMatchesCount | controllers/rsvp_controller.go:369-378 | the listing for one status has as many entries as the summary counts for it, whether the records are decoded or converted |
| SearchController.DateFilter | controllers/search_controller.go:163-175 | a date clause exists exactly when a bound is given, and holds only the given bounds |
| SearchController.DateRangeBounds | controllers/search_controller.go:163-175 | both bounds are inclusive; a range whose start sorts at or before its end contains its start; a range misses its start exactly when its end sorts strictly before it, and then selects nothing; equal bounds select that date alone |
| SearchController.ComplexFilterMeaning | controllers/search_controller.go:457-504 | the advanced filter selects the caller's events, in the named role if one is given, that contain the keyword and location case-insensitively and fall within the dates |
| SearchController.ComplexFilterIgnoresMatcher | controllers/search_controller.go:474-501 | escaped keyword and location make the advanced search independent of regular-expression semantics |
| SearchController.UnknownRoleSelectsNothing | controllers/search_controller.go:371-379 | an unknown user_role is patched into elemMatch unchecked and selects no event |
| SearchController.BuildersAgreeWithoutText | controllers/search_controller.go:333-382 | without keyword and location the two filter builders select the same events |
| SearchController.AllEventsSplitByRole | controllers/search_controller.go:102-109 | the caller's events are exactly those they organize together with those they are invited to |
| SearchController.Find | controllers/search_controller.go:56-72 | a search reads the caller, then answers the decoded selection of the built filter, or 500 |
| SearchController.SearchEvents | controllers/search_controller.go:27-78 | after bind and caller checks, the selection of the event search filter and its size |
| SearchController.GetAllUserEvents | controllers/search_controller.go:81-129 | the events listing the caller in any role |
| SearchController.FilterEventsByDate | controllers/search_controller.go:132-196 | the caller's events within the given date bounds |
| SearchController.DateListingIsSearch | controllers/search_controller.go:154-175 | the date listing's filter is the search filter with only the two dates given |
| SearchController.FilterEventsByKeyword | controllers/search_controller.go:199-262 | a missing q is refused before the caller is read; otherwise the caller's events whose title or description match |
| SearchController.FilterEventsByRole | controllers/search_controller.go:265-330 | a missing role, then an invalid role, is refused before the caller; otherwise the decoded selection, in store order, of exactly the events where the caller holds that role |
| SearchController.AdvancedSearch | controllers/search_controller.go:385-454 | criteria come from the body, or the query string when it does not bind; an invalid role is refused after the caller; the result is the selection of the literal filter in store order, total_results is its length, and it holds exactly the events meeting the literal criteria |

## Left out

- Authentication is left out. The JWT middleware and the user and auth
  controllers are not part of this model. A `user_id` that is present but not a
  string answers 401, as a missing one does; both are the `None` caller.
- JSON decoding is left out. A body either binds or it does not. An object ID in
  an invite body that does not parse makes the body fail to bind, so the model
  receives already-parsed IDs.
- Validation messages are left out. A validation failure carries only the
  lower-cased names of the failing fields, not the message texts.
- The response envelope (`success`, `message`, `data`) is left out. An outcome is
  a status code with its payload.
- The regular-expression language is left out. An unescaped `$regex` is decided
  by a `RegexMatcher` parameter, and case-insensitivity is ASCII lower-casing
  only.
- Identifier generation is a counter, not the object ID layout of timestamp,
  machine and sequence number.
- Clock reads are a single `now` per request. The handlers call `time.Now()`
  several times in one request: for created_at and updated_at, and again for the
  echoed updated_at of an RSVP update.
- Store failures are a `Fault` parameter. A failing cursor decode is folded into
  the failing read it follows.
- DeleteEvent: the 404 answer when DeleteOne removes nothing is not modelled.
  That branch is reachable only if the event disappears between the lookup and
  the delete, which needs concurrent requests.
- Concurrency is left out: each handler runs atomically. The code reads and then
  writes, so two concurrent submissions by one user could insert two records.
  The invariant of one record per (event, user) holds only for sequential
  requests.
- The order of `Find` results is taken to be insertion order, which MongoDB does
  not promise.
- `models.RSVP`, `models.RSVPRequest`, `models.RSVPStatus` and
  `models.RSVPResponse` are not part of the models sources. The model gives them
  the shape of `EventStatus`, `EventStatusRequest` and `EventStatusResponse`.
  This includes the json-only tags of `EventStatusResponse`, so RSVP listings
  decode as the event-status listings do.
- `EventAttendeeDetail` and the `my_status` field are declared but never filled
  by the core, so they are not modelled beyond an empty `myStatus`.

## Findings

| source | as written | input that shows it | evidently intended | confidence | as-written member | corrected member |
|---|---|---|---|---|---|---|
| controllers/rsvp_controller.go:202-244 | The summary decodes the event's records into a response struct without bson tags, so every decoded user ID is nil. The status map then holds at most the nil key, and no_response counts every attendee entry. The same holds at controllers/event_status_controller.go:202-244. | Organizer 1 and attendees 2 and 3, with user 2 answered going. The handler reports going 1, no_response 2 and total 2. | no_response counts the attendees without a record, so the counts add up to total, plus one when the organizer has answered. | not executed; rests on the driver's default key for an untagged field being its lower-cased name | Attendance.DecodedSummaryExample | ResponseController.StoredSummaryBalance |
| controllers/event_controller.go:121-122 | The listings decode events straight into EventResponse, so each listed event has a zero id, created_at and updated_at. The search listings do the same (controllers/search_controller.go:64-65 and five more), and so does the by-status listing for records (controllers/rsvp_controller.go:383-384). | An event stored with a non-nil ID, listed by its organizer, comes back with id 000000000000000000000000. | Each listed document is converted by ToResponse, as GetEventByID does (controllers/event_controller.go:209). | not executed; same reason | Models.DecodedEventLosesIdentity | Models.EventsToResponses |

The handlers keep the behaviour as written: their contracts state the decoded
payloads. The corrected definitions are what the balance of the summary
(`ResponseController.StoredSummaryBalance`, `Attendance.SummaryBalance`) and the
status counts (`ResponseController.ListingMatchesCount`) are stated against.
`Attendance.DecodedSummaryCountsEveryAttendee` states the general form of the
first row: once an event has any record, no_response is the number of attendee
entries.
