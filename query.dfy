/**
 * What the events collection does with the filter documents the handlers build.
 * A filter is held as a value with one optional part per key the handlers set
 * (`participants.$elemMatch`, `$or` over title and description, `date`, `location`),
 * and `Matches` says which events it selects. String comparison is byte-wise
 * (lexicographic by code point); `$regex` with option `i` over a literal is a
 * case-insensitive substring test. A regular expression that is not escaped is
 * matched by a caller-supplied matcher, since the regular-expression language
 * itself is not part of this model.
 */
module Query {
  import opened Wrappers
  import opened ObjectIds
  import opened Models
  import opened Membership

  // ------------------------------------------------------------ strings

  /** ASCII lower-casing, standing in for the case folding of option `i`. */
  function LowerChar(c: char): char {
    if 'A' <= c <= 'Z' then (c as int + 32) as char else c
  }

  function Lower(s: string): (r: string)
    ensures |r| == |s|
    ensures forall i :: 0 <= i < |s| ==> r[i] == LowerChar(s[i])
  {
    seq(|s|, i requires 0 <= i < |s| => LowerChar(s[i]))
  }

  predicate OccursAt(haystack: string, needle: string, i: int) {
    0 <= i <= |haystack| - |needle| && haystack[i..i + |needle|] == needle
  }

  predicate Contains(haystack: string, needle: string) {
    exists i :: 0 <= i <= |haystack| - |needle| && OccursAt(haystack, needle, i)
  }

  predicate ContainsIgnoreCase(haystack: string, needle: string) {
    Contains(Lower(haystack), Lower(needle))
  }

  /** `a <= b` as MongoDB orders strings: lexicographically, a prefix first. */
  predicate LexLe(a: string, b: string) {
    if a == [] then true
    else if b == [] then false
    else if a[0] != b[0] then a[0] < b[0]
    else LexLe(a[1..], b[1..])
  }

  lemma {:induction false} LexLeReflexive(a: string)
    ensures LexLe(a, a)
  {
    if a != [] {
      LexLeReflexive(a[1..]);
    }
  }

  lemma {:induction false} LexLeTotal(a: string, b: string)
    ensures LexLe(a, b) || LexLe(b, a)
  {
    if a != [] && b != [] && a[0] == b[0] {
      LexLeTotal(a[1..], b[1..]);
    }
  }

  lemma {:induction false} LexLeAntisymmetric(a: string, b: string)
    requires LexLe(a, b) && LexLe(b, a)
    ensures a == b
  {
    if a != [] && b != [] {
      LexLeAntisymmetric(a[1..], b[1..]);
      assert a == [a[0]] + a[1..];
      assert b == [b[0]] + b[1..];
    }
  }

  lemma {:induction false} LexLeTransitive(a: string, b: string, c: string)
    requires LexLe(a, b) && LexLe(b, c)
    ensures LexLe(a, c)
  {
    if a != [] && b != [] && c != [] && a[0] == b[0] && b[0] == c[0] {
      LexLeTransitive(a[1..], b[1..], c[1..]);
    }
  }

  // ------------------------------------------------------------ filters

  /** A `$regex` value with option `i`: as given, or escaped with QuoteMeta into a literal. */
  datatype Pattern = Regex(source: string) | Literal(text: string)

  /** Case-insensitive matching of an unescaped pattern against a subject. */
  type RegexMatcher = (string, string) -> bool

  /** `participants: {$elemMatch: {user_id: u, role: r}}`, the role key being optional. */
  datatype ElemMatch = ElemMatch(userId: ObjectId, role: Option<string>)

  /** `date: {$gte: start, $lte: end}`, each bound optional. */
  datatype DateRange = DateRange(gte: Option<string>, lte: Option<string>)

  datatype EventFilter = EventFilter(
    participant: ElemMatch,
    keyword: Option<Pattern>,
    date: Option<DateRange>,
    location: Option<Pattern>)

  /** A filter holding only the participant clause. */
  function MemberFilter(user: ObjectId, role: Option<string>): EventFilter {
    EventFilter(ElemMatch(user, role), None, None, None)
  }

  /** A matcher for filters that hold no unescaped pattern, where it is never consulted (see SelectAgrees). */
  const NoRegex: RegexMatcher := (source: string, subject: string) => false

  /** `$elemMatch`: one and the same entry satisfies every key of the clause. */
  predicate ElemMatches(ps: seq<Participant>, m: ElemMatch) {
    exists i :: 0 <= i < |ps| && ps[i].userId == m.userId &&
      (m.role.None? || RoleName(ps[i].role) == m.role.value)
  }

  predicate PatternMatches(p: Pattern, subject: string, regex: RegexMatcher) {
    match p
    case Regex(source) => regex(source, subject)
    case Literal(text) => ContainsIgnoreCase(subject, text)
  }

  predicate InRange(date: string, r: DateRange) {
    (r.gte.None? || LexLe(r.gte.value, date)) && (r.lte.None? || LexLe(date, r.lte.value))
  }

  predicate Matches(e: Event, f: EventFilter, regex: RegexMatcher) {
    && ElemMatches(e.participants, f.participant)
    && (f.keyword.None? ||
        PatternMatches(f.keyword.value, e.title, regex) ||
        PatternMatches(f.keyword.value, e.description, regex))
    && (f.date.None? || InRange(e.date, f.date.value))
    && (f.location.None? || PatternMatches(f.location.value, e.location, regex))
  }

  /** `Find`: the matching events, in the collection's natural order. */
  function Select(events: seq<Event>, f: EventFilter, regex: RegexMatcher): (r: seq<Event>)
    ensures |r| <= |events|
    ensures forall e :: e in r <==> e in events && Matches(e, f, regex)
  {
    if events == [] then []
    else
      var rest := Select(events[..|events| - 1], f, regex);
      var last := events[|events| - 1];
      assert events == events[..|events| - 1] + [last];
      if Matches(last, f, regex) then rest + [last] else rest
  }

  /** Two filters that select the same events select them in the same order. */
  lemma {:induction false} SelectAgrees(events: seq<Event>, f: EventFilter, g: EventFilter,
                                        regex: RegexMatcher, regex': RegexMatcher)
    requires forall e :: e in events ==> (Matches(e, f, regex) <==> Matches(e, g, regex'))
    ensures Select(events, f, regex) == Select(events, g, regex')
  {
    if events != [] {
      var init := events[..|events| - 1];
      assert forall e :: e in init ==> e in events;
      SelectAgrees(init, f, g, regex, regex');
    }
  }

  /** A participant clause with a role selects the events where the user holds that role in one entry. */
  lemma MemberFilterWithRole(e: Event, user: ObjectId, role: Role, regex: RegexMatcher)
    ensures Matches(e, MemberFilter(user, Some(RoleName(role))), regex) <==> HasRole(e.participants, user, role)
  {
    if Matches(e, MemberFilter(user, Some(RoleName(role))), regex) {
      var i :| 0 <= i < |e.participants| && e.participants[i].userId == user &&
        RoleName(e.participants[i].role) == RoleName(role);
      assert e.participants[i].role == role;
    }
  }

  /** A participant clause without a role selects the events that list the user at all. */
  lemma MemberFilterAnyRole(e: Event, user: ObjectId, regex: RegexMatcher)
    ensures Matches(e, MemberFilter(user, None), regex) <==> IsParticipant(e.participants, user)
  {
  }

  /** Selecting with a filter that matches nothing gives nothing. */
  lemma {:induction false} SelectNone(events: seq<Event>, f: EventFilter, regex: RegexMatcher)
    requires forall e :: e in events ==> !Matches(e, f, regex)
    ensures Select(events, f, regex) == []
  {
    if events != [] {
      var init := events[..|events| - 1];
      assert forall e :: e in init ==> e in events;
      SelectNone(init, f, regex);
    }
  }
}
