/**
 * The search handlers (controllers/search_controller.go). Each builds a filter
 * over the events collection that always requires the caller to be listed in
 * the event, and returns the selected events in the collection's order.
 * SearchEvents and FilterEventsByKeyword pass the user's text to `$regex`
 * unescaped; AdvancedSearch escapes it first and so matches it as a literal.
 */
module SearchController {
  import opened Wrappers
  import opened ObjectIds
  import opened Models
  import opened Membership
  import opened Query
  import opened Outcomes
  import opened Store
  import opened Access

  /** The search criteria; a field a client leaves out is the empty string. */
  datatype SearchRequest = SearchRequest(
    keyword: string, startDate: string, endDate: string, userRole: string, location: string)

  datatype SearchResults = SearchResults(totalResults: nat, events: seq<EventResponse>)
  datatype KeywordResults = KeywordResults(keyword: string, results: seq<EventResponse>)
  datatype AdvancedResults = AdvancedResults(filters: SearchRequest, totalResults: nat, events: seq<EventResponse>)

  // ------------------------------------------------------------ filters

  /** The `date` clause: present when either bound is given, with only the given bounds. */
  function DateFilter(start: string, end: string): (r: Option<DateRange>)
    ensures r.None? <==> start == "" && end == ""
    ensures r.Some? ==> r.value == DateRange(Provided(start), Provided(end))
  {
    if start != "" || end != "" then Some(DateRange(Provided(start), Provided(end))) else None
  }

  /** buildEventSearchFilter: the keyword and location go to `$regex` as given. */
  function BuildEventSearchFilter(user: ObjectId, req: SearchRequest): EventFilter {
    EventFilter(
      ElemMatch(user, Provided(req.userRole)),
      if req.keyword != "" then Some(Regex(req.keyword)) else None,
      DateFilter(req.startDate, req.endDate),
      if req.location != "" then Some(Regex(req.location)) else None)
  }

  /** buildComplexSearchFilter: the keyword and location are escaped with QuoteMeta first. */
  function BuildComplexSearchFilter(user: ObjectId, req: SearchRequest): EventFilter {
    EventFilter(
      ElemMatch(user, Provided(req.userRole)),
      if req.keyword != "" then Some(Literal(req.keyword)) else None,
      DateFilter(req.startDate, req.endDate),
      if req.location != "" then Some(Literal(req.location)) else None)
  }

  /** The criteria other than the participant clause, read as a literal search. */
  predicate LiteralCriteria(e: Event, req: SearchRequest) {
    && (req.keyword == "" || ContainsIgnoreCase(e.title, req.keyword) || ContainsIgnoreCase(e.description, req.keyword))
    && (req.startDate == "" || LexLe(req.startDate, e.date))
    && (req.endDate == "" || LexLe(e.date, req.endDate))
    && (req.location == "" || ContainsIgnoreCase(e.location, req.location))
  }

  /**
   * What an advanced search selects: events listing the caller (in the named
   * role, when one is given) whose title or description contains the keyword,
   * whose date lies within the given bounds and whose location contains the
   * given text, all case-insensitively. No regular expression is involved.
   */
  lemma ComplexFilterMeaning(e: Event, user: ObjectId, req: SearchRequest, regex: RegexMatcher)
    ensures req.userRole == "" ==>
      (Matches(e, BuildComplexSearchFilter(user, req), regex) <==>
       IsParticipant(e.participants, user) && LiteralCriteria(e, req))
    ensures ParseRole(req.userRole).Some? ==>
      (Matches(e, BuildComplexSearchFilter(user, req), regex) <==>
       HasRole(e.participants, user, ParseRole(req.userRole).value) && LiteralCriteria(e, req))
  {
    if ParseRole(req.userRole).Some? {
      var role := ParseRole(req.userRole).value;
      if Matches(e, BuildComplexSearchFilter(user, req), regex) {
        var i :| 0 <= i < |e.participants| && e.participants[i].userId == user &&
          RoleName(e.participants[i].role) == req.userRole;
        assert e.participants[i].role == role;
      }
    }
  }

  /** The advanced search's selection does not depend on how unescaped patterns would be matched. */
  lemma ComplexFilterIgnoresMatcher(events: seq<Event>, user: ObjectId, req: SearchRequest,
                                    regex: RegexMatcher, regex': RegexMatcher)
    ensures Select(events, BuildComplexSearchFilter(user, req), regex)
         == Select(events, BuildComplexSearchFilter(user, req), regex')
  {
    SelectAgrees(events, BuildComplexSearchFilter(user, req), BuildComplexSearchFilter(user, req), regex, regex');
  }

  /**
   * A role other than "organizer" or "attendee" is not rejected by SearchEvents:
   * no entry carries it, so the search answers with no events.
   */
  lemma UnknownRoleSelectsNothing(events: seq<Event>, user: ObjectId, req: SearchRequest, regex: RegexMatcher)
    requires req.userRole != "" && ParseRole(req.userRole).None?
    ensures Select(events, BuildEventSearchFilter(user, req), regex) == []
  {
    forall e | e in events ensures !Matches(e, BuildEventSearchFilter(user, req), regex) {
      if ElemMatches(e.participants, ElemMatch(user, Some(req.userRole))) {
        var i :| 0 <= i < |e.participants| && e.participants[i].userId == user &&
          RoleName(e.participants[i].role) == req.userRole;
      }
    }
    SelectNone(events, BuildEventSearchFilter(user, req), regex);
  }

  /** Without keyword and location the two builders agree, whatever the matcher. */
  lemma BuildersAgreeWithoutText(events: seq<Event>, user: ObjectId, req: SearchRequest,
                                 regex: RegexMatcher, regex': RegexMatcher)
    requires req.keyword == "" && req.location == ""
    ensures Select(events, BuildEventSearchFilter(user, req), regex)
         == Select(events, BuildComplexSearchFilter(user, req), regex')
  {
    SelectAgrees(events, BuildEventSearchFilter(user, req), BuildComplexSearchFilter(user, req), regex, regex');
  }

  /** The caller's events are exactly those they organize together with those they are invited to. */
  lemma AllEventsSplitByRole(events: seq<Event>, user: ObjectId, regex: RegexMatcher)
    ensures forall e :: e in Select(events, MemberFilter(user, None), regex) <==>
      e in Select(events, MemberFilter(user, Some(RoleName(Organizer))), regex) ||
      e in Select(events, MemberFilter(user, Some(RoleName(Attendee))), regex)
  {
    forall e | e in events
      ensures Matches(e, MemberFilter(user, None), regex) <==>
        Matches(e, MemberFilter(user, Some(RoleName(Organizer))), regex) ||
        Matches(e, MemberFilter(user, Some(RoleName(Attendee))), regex)
    {
      MemberFilterAnyRole(e, user, regex);
      MemberFilterWithRole(e, user, Organizer, regex);
      MemberFilterWithRole(e, user, Attendee, regex);
      if IsParticipant(e.participants, user) {
        var i :| 0 <= i < |e.participants| && e.participants[i].userId == user;
        if e.participants[i].role == Organizer {
          assert HasRole(e.participants, user, Organizer);
        } else {
          assert HasRole(e.participants, user, Attendee);
        }
      }
    }
  }

  /**
   * The date filter's bounds are inclusive; a range whose start sorts at or
   * before its end contains its start; a range misses its own start exactly when
   * its end sorts strictly before its start, and such a range selects nothing;
   * and a range with equal bounds selects that date alone.
   */
  lemma DateRangeBounds(date: string, start: string, end: string)
    requires start != "" && end != ""
    ensures InRange(date, DateFilter(start, end).value) <==> LexLe(start, date) && LexLe(date, end)
    ensures InRange(date, DateFilter(start, end).value) ==> LexLe(start, end)
    ensures LexLe(start, end) ==> InRange(start, DateFilter(start, end).value)
    ensures !InRange(start, DateFilter(start, end).value) <==> LexLe(end, start) && end != start
    ensures LexLe(end, start) && end != start ==> !InRange(date, DateFilter(start, end).value)
    ensures start == end ==> (InRange(date, DateFilter(start, end).value) <==> date == start)
  {
    LexLeReflexive(start);
    LexLeTotal(start, end);
    if LexLe(start, end) && LexLe(end, start) {
      LexLeAntisymmetric(start, end);
    }
    if InRange(date, DateFilter(start, end).value) {
      LexLeTransitive(start, date, end);
      if LexLe(end, start) {
        LexLeAntisymmetric(start, end);
      }
      if start == end {
        LexLeAntisymmetric(start, date);
      }
    }
  }

  // ------------------------------------------------------------ handlers

  /** The common tail of every handler: read the caller, then run the query. */
  method Find(db: Database, caller: Option<string>, fault: Fault, f: ObjectId -> EventFilter, regex: RegexMatcher)
    returns (out: Outcome<seq<EventResponse>>)
    ensures ParseCaller(caller).Reject? ==> out == Err(ParseCaller(caller).error)
    ensures ParseCaller(caller).Pass? && fault == FailEventRead ==> out == Err(StoreFailure)
    ensures ParseCaller(caller).Pass? && fault != FailEventRead ==>
      out == Ok(200, DecodedEvents(Select(db.events, f(ParseCaller(caller).value), regex)))
  {
    var user := ParseCaller(caller);
    if user.Reject? {
      return Err(user.error);
    }
    if fault == FailEventRead {
      return Err(StoreFailure);
    }
    out := Ok(200, DecodedEvents(Select(db.events, f(user.value), regex)));
  }

  method SearchEvents(db: Database, caller: Option<string>, body: Option<SearchRequest>, fault: Fault, regex: RegexMatcher)
    returns (out: Outcome<SearchResults>)
    ensures body.None? ==> out == Err(InvalidRequestData)
    ensures body.Some? && ParseCaller(caller).Reject? ==> out == Err(ParseCaller(caller).error)
    ensures body.Some? && ParseCaller(caller).Pass? && fault == FailEventRead ==> out == Err(StoreFailure)
    ensures body.Some? && ParseCaller(caller).Pass? && fault != FailEventRead ==>
      var found := Select(db.events, BuildEventSearchFilter(ParseCaller(caller).value, body.value), regex);
      out == Ok(200, SearchResults(|found|, DecodedEvents(found)))
  {
    if body.None? {
      return Err(InvalidRequestData);
    }
    var req := body.value;
    var r := Find(db, caller, fault, (user: ObjectId) => BuildEventSearchFilter(user, req), regex);
    if r.Err? {
      return Err(r.error);
    }
    out := Ok(200, SearchResults(|r.value|, r.value));
  }

  method GetAllUserEvents(db: Database, caller: Option<string>, fault: Fault)
    returns (out: Outcome<seq<EventResponse>>)
    ensures ParseCaller(caller).Reject? ==> out == Err(ParseCaller(caller).error)
    ensures ParseCaller(caller).Pass? && fault == FailEventRead ==> out == Err(StoreFailure)
    ensures ParseCaller(caller).Pass? && fault != FailEventRead ==>
      out == Ok(200, DecodedEvents(Select(db.events, MemberFilter(ParseCaller(caller).value, None), NoRegex)))
  {
    out := Find(db, caller, fault, (user: ObjectId) => MemberFilter(user, None), NoRegex);
  }

  /** The date filter alone, over the caller's events; the bounds are compared as strings. */
  method FilterEventsByDate(db: Database, start: string, end: string, caller: Option<string>, fault: Fault)
    returns (out: Outcome<seq<EventResponse>>)
    ensures ParseCaller(caller).Reject? ==> out == Err(ParseCaller(caller).error)
    ensures ParseCaller(caller).Pass? && fault == FailEventRead ==> out == Err(StoreFailure)
    ensures ParseCaller(caller).Pass? && fault != FailEventRead ==>
      out == Ok(200, DecodedEvents(Select(db.events,
        EventFilter(ElemMatch(ParseCaller(caller).value, None), None, DateFilter(start, end), None), NoRegex)))
  {
    out := Find(db, caller, fault, (user: ObjectId) => EventFilter(ElemMatch(user, None), None, DateFilter(start, end), None), NoRegex);
  }

  /** The date listing is the search with only the two dates given. */
  lemma DateListingIsSearch(user: ObjectId, start: string, end: string)
    ensures EventFilter(ElemMatch(user, None), None, DateFilter(start, end), None)
         == BuildEventSearchFilter(user, SearchRequest("", start, end, "", ""))
  {
  }

  /** The keyword must be given, and is checked before the caller. */
  method FilterEventsByKeyword(db: Database, q: string, caller: Option<string>, fault: Fault, regex: RegexMatcher)
    returns (out: Outcome<KeywordResults>)
    ensures q == "" ==> out == Err(MissingKeyword)
    ensures q != "" && ParseCaller(caller).Reject? ==> out == Err(ParseCaller(caller).error)
    ensures q != "" && ParseCaller(caller).Pass? && fault == FailEventRead ==> out == Err(StoreFailure)
    ensures q != "" && ParseCaller(caller).Pass? && fault != FailEventRead ==>
      out == Ok(200, KeywordResults(q, DecodedEvents(Select(db.events,
        BuildEventSearchFilter(ParseCaller(caller).value, SearchRequest(q, "", "", "", "")), regex))))
  {
    if q == "" {
      return Err(MissingKeyword);
    }
    var r := Find(db, caller, fault, (user: ObjectId) => BuildEventSearchFilter(user, SearchRequest(q, "", "", "", "")), regex);
    if r.Err? {
      return Err(r.error);
    }
    out := Ok(200, KeywordResults(q, r.value));
  }

  /** The role must be given and be one of the two names, both checked before the caller. */
  method FilterEventsByRole(db: Database, role: string, caller: Option<string>, fault: Fault)
    returns (out: Outcome<seq<EventResponse>>)
    ensures role == "" ==> out == Err(MissingRole)
    ensures role != "" && ParseRole(role).None? ==> out == Err(InvalidRole)
    ensures ParseRole(role).Some? && ParseCaller(caller).Reject? ==> out == Err(ParseCaller(caller).error)
    ensures ParseRole(role).Some? && ParseCaller(caller).Pass? && fault == FailEventRead ==> out == Err(StoreFailure)
    ensures ParseRole(role).Some? && ParseCaller(caller).Pass? && fault != FailEventRead ==>
      exists selected: seq<Event> ::
        && selected == Select(db.events, MemberFilter(ParseCaller(caller).value, Some(role)), NoRegex)
        && out == Ok(200, DecodedEvents(selected))
        && forall e :: e in selected <==> e in db.events && HasRole(e.participants, ParseCaller(caller).value, ParseRole(role).value)
  {
    if role == "" {
      return Err(MissingRole);
    }
    var parsed := ParseRole(role);
    if parsed.None? {
      return Err(InvalidRole);
    }
    out := Find(db, caller, fault, (user: ObjectId) => MemberFilter(user, Some(role)), NoRegex);
    if out.Ok? {
      var user := ParseCaller(caller).value;
      var selected := Select(db.events, MemberFilter(user, Some(role)), NoRegex);
      forall e | e in db.events
        ensures Matches(e, MemberFilter(user, Some(role)), NoRegex) <==> HasRole(e.participants, user, parsed.value)
      {
        MemberFilterWithRole(e, user, parsed.value, NoRegex);
      }
      assert out == Ok(200, DecodedEvents(selected));
    }
  }

  /**
   * The criteria come from the body or, when it does not bind, from the query
   * string; a given role must be valid; text is matched literally.
   */
  method AdvancedSearch(db: Database, body: Option<SearchRequest>, query: SearchRequest,
                        caller: Option<string>, fault: Fault)
    returns (out: Outcome<AdvancedResults>)
    ensures var req := if body.Some? then body.value else query;
      && (ParseCaller(caller).Reject? ==> out == Err(ParseCaller(caller).error))
      && (ParseCaller(caller).Pass? && req.userRole != "" && ParseRole(req.userRole).None? ==> out == Err(InvalidRole))
      && (ParseCaller(caller).Pass? && (req.userRole == "" || ParseRole(req.userRole).Some?) && fault == FailEventRead ==>
            out == Err(StoreFailure))
      && (ParseCaller(caller).Pass? && (req.userRole == "" || ParseRole(req.userRole).Some?) && fault != FailEventRead ==>
            exists found: seq<Event> ::
              && found == Select(db.events, BuildComplexSearchFilter(ParseCaller(caller).value, req), NoRegex)
              && out == Ok(200, AdvancedResults(req, |found|, DecodedEvents(found)))
              && forall e :: e in found <==>
                   e in db.events && LiteralCriteria(e, req) &&
                   (if req.userRole == "" then IsParticipant(e.participants, ParseCaller(caller).value)
                    else HasRole(e.participants, ParseCaller(caller).value, ParseRole(req.userRole).value)))
  {
    var req := if body.Some? then body.value else query;
    var user := ParseCaller(caller);
    if user.Reject? {
      return Err(user.error);
    }
    if req.userRole != "" && ParseRole(req.userRole).None? {
      return Err(InvalidRole);
    }
    if fault == FailEventRead {
      return Err(StoreFailure);
    }
    var filter := BuildComplexSearchFilter(user.value, req);
    var found := Select(db.events, filter, NoRegex);
    forall e | e in db.events {
      ComplexFilterMeaning(e, user.value, req, NoRegex);
    }
    out := Ok(200, AdvancedResults(req, |found|, DecodedEvents(found)));
  }
}
