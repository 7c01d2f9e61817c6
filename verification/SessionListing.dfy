/** Listing analysis sessions from memory: filters, four stable sorts, pages. */
module SessionListing {
  import opened Text
  import opened TextOrder
  import opened Sorting

  datatype Session = Session(
    sessionId: string,
    analysisType: string,
    title: string,
    serviceName: string,
    inputText: string,
    traceId: string,
    summaryText: string,
    createdAt: int,
    updatedAt: int,
    isPinned: bool,
    isArchived: bool,
    isDeleted: bool)

  // ----- The order a caller asks for -----

  datatype Field = UpdatedAt | CreatedAt | Title | ServiceName | AnalysisType

  datatype Column = Pinned | By(field: Field) | SessionId

  /** One term of an ORDER BY clause. */
  datatype OrderTerm = OrderTerm(column: Column, descending: bool)

  function SanitizeField(value: string): Field {
    var v := Lower(Strip(value));
    if v == "created_at" then CreatedAt
    else if v == "title" then Title
    else if v == "service_name" then ServiceName
    else if v == "analysis_type" then AnalysisType
    else UpdatedAt
  }

  /** True for descending. */
  predicate SanitizeDescending(value: string) {
    Lower(Strip(value)) != "asc"
  }

  /** The terms of the ORDER BY clause that the database path would use. */
  function OrderTerms(field: Field, descending: bool, pinnedFirst: bool): seq<OrderTerm> {
    (if pinnedFirst then [OrderTerm(Pinned, true)] else []) +
    [OrderTerm(By(field), descending)] +
    (if field == UpdatedAt && descending then [] else [OrderTerm(By(UpdatedAt), true)]) +
    [OrderTerm(SessionId, true)]
  }

  function Flag(b: bool): int { if b then 1 else 0 }

  /** Ascending comparison on one column; texts compare in lower case, except ids. */
  predicate ColumnLe(column: Column, a: Session, b: Session) {
    match column
    case Pinned => Flag(a.isPinned) <= Flag(b.isPinned)
    case SessionId => TextLe(a.sessionId, b.sessionId)
    case By(UpdatedAt) => a.updatedAt <= b.updatedAt
    case By(CreatedAt) => a.createdAt <= b.createdAt
    case By(Title) => TextLe(Lower(a.title), Lower(b.title))
    case By(ServiceName) => TextLe(Lower(a.serviceName), Lower(b.serviceName))
    case By(AnalysisType) => TextLe(Lower(a.analysisType), Lower(b.analysisType))
  }

  predicate TermLe(term: OrderTerm, a: Session, b: Session) {
    if term.descending then ColumnLe(term.column, b, a) else ColumnLe(term.column, a, b)
  }

  /** Lexicographic comparison by a list of terms: the meaning of ORDER BY. */
  predicate TermsLe(terms: seq<OrderTerm>, a: Session, b: Session) {
    terms == [] ||
    (TermLe(terms[0], a, b) && (TermLe(terms[0], b, a) ==> TermsLe(terms[1..], a, b)))
  }

  function ByTerm(term: OrderTerm): (Session, Session) -> bool {
    (a: Session, b: Session) => TermLe(term, a, b)
  }

  function ByTerms(terms: seq<OrderTerm>): (Session, Session) -> bool {
    (a: Session, b: Session) => TermsLe(terms, a, b)
  }

  // ----- The four sorts -----

  /** Least significant key first, each sort stable. */
  function SortSessions(sessions: seq<Session>, field: Field, descending: bool, pinnedFirst: bool): seq<Session> {
    var byId := StableSort(sessions, ByTerm(OrderTerm(SessionId, true)));
    var byUpdate := StableSort(byId, ByTerm(OrderTerm(By(UpdatedAt), true)));
    var byField := StableSort(byUpdate, ByTerm(OrderTerm(By(field), descending)));
    if pinnedFirst then StableSort(byField, ByTerm(OrderTerm(Pinned, true))) else byField
  }

  lemma TextOrderOf(a: string, b: string, c: string)
    ensures TextLe(a, b) || TextLe(b, a)
    ensures TextLe(a, b) && TextLe(b, c) ==> TextLe(a, c)
  {
    TextLeTotal(a, b);
    if TextLe(a, b) && TextLe(b, c) {
      TextLeTransitive(a, b, c);
    }
  }

  lemma ColumnOrder(column: Column, a: Session, b: Session, c: Session)
    ensures ColumnLe(column, a, b) || ColumnLe(column, b, a)
    ensures ColumnLe(column, a, b) && ColumnLe(column, b, c) ==> ColumnLe(column, a, c)
  {
    match column
    case Pinned =>
    case SessionId => TextOrderOf(a.sessionId, b.sessionId, c.sessionId);
    case By(UpdatedAt) =>
    case By(CreatedAt) =>
    case By(Title) => TextOrderOf(Lower(a.title), Lower(b.title), Lower(c.title));
    case By(ServiceName) => TextOrderOf(Lower(a.serviceName), Lower(b.serviceName), Lower(c.serviceName));
    case By(AnalysisType) => TextOrderOf(Lower(a.analysisType), Lower(b.analysisType), Lower(c.analysisType));
  }

  lemma TermIsPreorder(term: OrderTerm)
    ensures TotalPreorder(ByTerm(term))
  {
    hide ColumnLe;
    var le := ByTerm(term);
    forall a, b
      ensures le(a, b) || le(b, a)
    {
      ColumnOrder(term.column, a, b, a);
    }
    forall a, b, c
      ensures le(a, b) && le(b, c) ==> le(a, c)
    {
      ColumnOrder(term.column, a, b, c);
      ColumnOrder(term.column, c, b, a);
    }
  }

  /** One more stable sort puts its term in front. */
  lemma SortAddsTerm(s: seq<Session>, term: OrderTerm, terms: seq<OrderTerm>)
    requires SortedBy(s, ByTerms(terms))
    ensures SortedBy(StableSort(s, ByTerm(term)), ByTerms([term] + terms))
    ensures multiset(StableSort(s, ByTerm(term))) == multiset(s)
  {
    TermIsPreorder(term);
    SortRefines(s, ByTerm(term), ByTerms(terms));
    SortElements(s, ByTerm(term));
    var r := StableSort(s, ByTerm(term));
    forall i, j | 0 <= i < j < |r|
      ensures ByTerms([term] + terms)(r[i], r[j])
    {
      assert Then(ByTerm(term), ByTerms(terms))(r[i], r[j]);
      assert ([term] + terms)[1..] == terms;
    }
  }

  lemma AnyOrderIsSorted(s: seq<Session>)
    ensures SortedBy(s, ByTerms([]))
  {
  }

  /** Three sorts order by three terms, whatever the field. */
  lemma ThreeSorts(s: seq<Session>, tField: OrderTerm)
    ensures var tId, tUp := OrderTerm(SessionId, true), OrderTerm(By(UpdatedAt), true);
            var r := StableSort(StableSort(StableSort(s, ByTerm(tId)), ByTerm(tUp)), ByTerm(tField));
            multiset(r) == multiset(s) && SortedBy(r, ByTerms([tField, tUp, tId]))
  {
    hide StableSort, ByTerm, SortedBy, ByTerms;
    var tId, tUp := OrderTerm(SessionId, true), OrderTerm(By(UpdatedAt), true);
    AnyOrderIsSorted(s);
    SortAddsTerm(s, tId, []);
    var byId := StableSort(s, ByTerm(tId));
    assert [tId] + [] == [tId];
    SortAddsTerm(byId, tUp, [tId]);
    assert [tUp] + [tId] == [tUp, tId];
    SortAddsTerm(StableSort(byId, ByTerm(tUp)), tField, [tUp, tId]);
    assert [tField] + [tUp, tId] == [tField, tUp, tId];
  }

  /** A term repeated at once adds nothing. */
  lemma RepeatedTerm(s: seq<Session>, term: OrderTerm, terms: seq<OrderTerm>)
    requires SortedBy(s, ByTerms([term, term] + terms))
    ensures SortedBy(s, ByTerms([term] + terms))
  {
    forall i, j | 0 <= i < j < |s|
      ensures ByTerms([term] + terms)(s[i], s[j])
    {
      assert ByTerms([term, term] + terms)(s[i], s[j]);
      assert ([term, term] + terms)[1..] == [term] + terms;
      assert ([term] + terms)[1..] == terms;
    }
  }

  /** The four sorts arrange the sessions in the order of the ORDER BY terms. */
  lemma SortsMatchOrderTerms(s: seq<Session>, field: Field, descending: bool, pinnedFirst: bool)
    ensures var r := SortSessions(s, field, descending, pinnedFirst);
            && multiset(r) == multiset(s)
            && SortedBy(r, ByTerms(OrderTerms(field, descending, pinnedFirst)))
  {
    hide StableSort, ByTerm, SortedBy, ByTerms;
    var tId, tUp := OrderTerm(SessionId, true), OrderTerm(By(UpdatedAt), true);
    var tField, tPin := OrderTerm(By(field), descending), OrderTerm(Pinned, true);
    ThreeSorts(s, tField);
    var byField := StableSort(StableSort(StableSort(s, ByTerm(tId)), ByTerm(tUp)), ByTerm(tField));
    var tail := OrderTerms(field, descending, false);
    if tField == tUp {
      assert [tUp] + [tId] == tail && [tUp, tUp] + [tId] == [tField, tUp, tId];
      RepeatedTerm(byField, tUp, [tId]);
    } else {
      assert tail == [tField, tUp, tId];
    }
    SortAddsTerm(byField, tPin, tail);
    assert [tPin] + tail == OrderTerms(field, descending, true);
  }

  ghost predicate DistinctSessions(s: seq<Session>) {
    forall i, j :: 0 <= i < j < |s| ==> s[i].sessionId != s[j].sessionId
  }

  /** Sessions that tie on all terms have the same id. */
  lemma {:induction false} TermsDecideId(terms: seq<OrderTerm>, a: Session, b: Session)
    requires terms != [] && terms[|terms| - 1].column == SessionId
    requires TermsLe(terms, a, b) && TermsLe(terms, b, a)
    ensures a.sessionId == b.sessionId
    decreases |terms|
  {
    if |terms| == 1 {
      TextLeTotal(a.sessionId, b.sessionId);
    } else {
      TermsDecideId(terms[1..], a, b);
    }
  }

  /** The listing is the one arrangement that the ORDER BY terms allow. */
  lemma SortIsTheOnlyOne(s: seq<Session>, r: seq<Session>, field: Field, descending: bool, pinnedFirst: bool)
    requires DistinctSessions(s)
    ensures r == SortSessions(s, field, descending, pinnedFirst) <==>
            multiset(r) == multiset(s) && SortedBy(r, ByTerms(OrderTerms(field, descending, pinnedFirst)))
  {
    hide SortSessions, SortedBy;
    var terms := OrderTerms(field, descending, pinnedFirst);
    var sorted := SortSessions(s, field, descending, pinnedFirst);
    SortsMatchOrderTerms(s, field, descending, pinnedFirst);
    if multiset(r) == multiset(s) && SortedBy(r, ByTerms(terms)) {
      forall a, b | a in r && b in r && ByTerms(terms)(a, b) && ByTerms(terms)(b, a)
        ensures a == b
      {
        TermsDecideId(terms, a, b);
        assert a in multiset(s) && b in multiset(s);
        var i :| 0 <= i < |s| && s[i] == a;
        var j :| 0 <= j < |s| && s[j] == b;
      }
      SortedUnique(r, sorted, ByTerms(terms));
    }
  }

  lemma TextTies(a: string, b: string)
    ensures Lower(a) == Lower(b) ==> TextLe(Lower(a), Lower(b)) && TextLe(Lower(b), Lower(a))
  {
    TextLeTotal(Lower(a), Lower(b));
  }

  lemma TiesByFields(a: Session, b: Session)
    requires TermsLe([OrderTerm(By(UpdatedAt), true), OrderTerm(SessionId, true)], a, b)
    ensures a.updatedAt > b.updatedAt || (a.updatedAt == b.updatedAt && TextLe(b.sessionId, a.sessionId))
  {
    hide TextLe;
    var terms := [OrderTerm(By(UpdatedAt), true), OrderTerm(SessionId, true)];
    assert terms[1..] == [OrderTerm(SessionId, true)];
  }

  lemma TermsFromFields(a: Session, b: Session, field: Field, descending: bool, pinnedFirst: bool)
    requires TermsLe(OrderTerms(field, descending, pinnedFirst), a, b)
    ensures var term := OrderTerm(By(field), descending);
            || (pinnedFirst && a.isPinned && !b.isPinned)
            || (&& (pinnedFirst ==> a.isPinned == b.isPinned)
                && TermLe(term, a, b)
                && (TermLe(term, b, a) ==>
                      a.updatedAt > b.updatedAt || (a.updatedAt == b.updatedAt && TextLe(b.sessionId, a.sessionId))))
  {
    hide Lower, TextLe;
    var tId, tUp := OrderTerm(SessionId, true), OrderTerm(By(UpdatedAt), true);
    var term := OrderTerm(By(field), descending);
    var terms := OrderTerms(field, descending, false);
    if pinnedFirst {
      assert OrderTerms(field, descending, true)[1..] == terms;
    }
    if TermsLe(terms, a, b) {
      if term == tUp {
        assert terms == [tUp, tId];
        TiesByFields(a, b);
      } else {
        assert terms == [term, tUp, tId];
        assert terms[1..] == [tUp, tId];
        if TermLe(term, b, a) {
          TiesByFields(a, b);
        }
      }
    }
  }

  /** What the terms say of two sessions, told from the caller's texts and the sessions'
      fields: a pinned one stands before an unpinned one if that is asked for; then the
      field decides, then the later update, then the greater id. */
  lemma OrderByFields(a: Session, b: Session, sortBy: string, sortOrder: string, pinnedFirst: bool)
    requires ByTerms(OrderTerms(SanitizeField(sortBy), SanitizeDescending(sortOrder), pinnedFirst))(a, b)
    ensures var name, down := Lower(Strip(sortBy)), Lower(Strip(sortOrder)) != "asc";
            var tie := a.updatedAt > b.updatedAt || (a.updatedAt == b.updatedAt && TextLe(b.sessionId, a.sessionId));
            var numbers := (x: int, y: int) => (if down then x > y else x < y) || (x == y && tie);
            var texts := (x: string, y: string) =>
              && (if down then TextLe(Lower(y), Lower(x)) else TextLe(Lower(x), Lower(y)))
              && (Lower(x) == Lower(y) ==> tie);
            || (pinnedFirst && a.isPinned && !b.isPinned)
            || (&& (pinnedFirst ==> a.isPinned == b.isPinned)
                && if name == "created_at" then numbers(a.createdAt, b.createdAt)
                   else if name == "title" then texts(a.title, b.title)
                   else if name == "service_name" then texts(a.serviceName, b.serviceName)
                   else if name == "analysis_type" then texts(a.analysisType, b.analysisType)
                   else numbers(a.updatedAt, b.updatedAt))
  {
    hide Lower, Strip, TextLe, OrderTerms;
    TextTies(a.title, b.title);
    TextTies(a.serviceName, b.serviceName);
    TextTies(a.analysisType, b.analysisType);
    var field, descending := SanitizeField(sortBy), SanitizeDescending(sortOrder);
    TermsFromFields(a, b, field, descending, pinnedFirst);
    hide TermsLe;
  }

  lemma ListByFields(s: seq<Session>, sortBy: string, sortOrder: string, pinnedFirst: bool)
    requires SortedBy(s, ByTerms(OrderTerms(SanitizeField(sortBy), SanitizeDescending(sortOrder), pinnedFirst)))
    ensures forall i, j :: 0 <= i < j < |s| ==>
              var a, b := s[i], s[j];
              var name, down := Lower(Strip(sortBy)), Lower(Strip(sortOrder)) != "asc";
              var tie := a.updatedAt > b.updatedAt || (a.updatedAt == b.updatedAt && TextLe(b.sessionId, a.sessionId));
              var numbers := (x: int, y: int) => (if down then x > y else x < y) || (x == y && tie);
              var texts := (x: string, y: string) =>
                && (if down then TextLe(Lower(y), Lower(x)) else TextLe(Lower(x), Lower(y)))
                && (Lower(x) == Lower(y) ==> tie);
              || (pinnedFirst && a.isPinned && !b.isPinned)
              || (&& (pinnedFirst ==> a.isPinned == b.isPinned)
                  && if name == "created_at" then numbers(a.createdAt, b.createdAt)
                     else if name == "title" then texts(a.title, b.title)
                     else if name == "service_name" then texts(a.serviceName, b.serviceName)
                     else if name == "analysis_type" then texts(a.analysisType, b.analysisType)
                     else numbers(a.updatedAt, b.updatedAt))
  {
    hide OrderTerms, TermsLe, SanitizeField, SanitizeDescending, Lower, Strip, TextLe;
    forall i, j | 0 <= i < j < |s| {
      OrderByFields(s[i], s[j], sortBy, sortOrder, pinnedFirst);
    }
  }

  // ----- Filters -----

  datatype Query = Query(
    analysisType: string,
    serviceName: string,
    includeArchived: bool,
    searchQuery: string)

  type Contents = map<string, seq<string>>  // message texts by session id

  predicate MentionsIn(session: Session, contents: Contents, search: string) {
    || Contains(Lower(session.title), search)
    || Contains(Lower(session.summaryText), search)
    || Contains(Lower(session.inputText), search)
    || Contains(Lower(session.traceId), search)
    || Contains(Lower(session.serviceName), search)
    || (session.sessionId in contents &&
        exists k :: 0 <= k < |contents[session.sessionId]| && Contains(Lower(contents[session.sessionId][k]), search))
  }

  function SearchText(q: Query): string {
    Lower(Strip(q.searchQuery))
  }

  /** The filters on a session's own fields. */
  predicate Offered(session: Session, q: Query) {
    && !session.isDeleted
    && (q.analysisType == "" || session.analysisType == q.analysisType)
    && (q.serviceName == "" || session.serviceName == q.serviceName)
    && (q.includeArchived || !session.isArchived)
  }

  /** What a caller's filters mean for one session. */
  predicate Matches(session: Session, contents: Contents, q: Query) {
    && Offered(session, q)
    && (SearchText(q) == "" || MentionsIn(session, contents, SearchText(q)))
  }

  lemma MatchesByFields(x: Session, contents: Contents, q: Query)
    ensures Matches(x, contents, q) <==>
              && !x.isDeleted
              && (q.analysisType == "" || x.analysisType == q.analysisType)
              && (q.serviceName == "" || x.serviceName == q.serviceName)
              && (q.includeArchived || !x.isArchived)
              && var search := Lower(Strip(q.searchQuery));
                 || search == ""
                 || Contains(Lower(x.title), search) || Contains(Lower(x.summaryText), search)
                 || Contains(Lower(x.inputText), search) || Contains(Lower(x.traceId), search)
                 || Contains(Lower(x.serviceName), search)
                 || (x.sessionId in contents &&
                     exists text :: text in contents[x.sessionId] && Contains(Lower(text), search))
  {
    hide Lower, Strip, Contains;
  }

  function Keep(s: seq<Session>, p: Session -> bool): seq<Session> {
    if s == [] then []
    else if p(s[0]) then [s[0]] + Keep(s[1..], p)
    else Keep(s[1..], p)
  }

  function Matching(all: seq<Session>, contents: Contents, q: Query): seq<Session> {
    Keep(all, session => Matches(session, contents, q))
  }

  lemma {:induction false} KeepTwice(s: seq<Session>, p: Session -> bool, q: Session -> bool, r: Session -> bool)
    requires forall x :: r(x) <==> p(x) && q(x)
    ensures Keep(Keep(s, p), q) == Keep(s, r)
    decreases |s|
  {
    if s != [] {
      KeepTwice(s[1..], p, q, r);
      if p(s[0]) {
        assert ([s[0]] + Keep(s[1..], p))[1..] == Keep(s[1..], p);
      }
    }
  }

  lemma {:induction false} KeepMembers(s: seq<Session>, p: Session -> bool)
    ensures forall x :: x in Keep(s, p) <==> x in s && p(x)
    ensures DistinctSessions(s) ==> DistinctSessions(Keep(s, p))
    decreases |s|
  {
    if s != [] {
      KeepMembers(s[1..], p);
      assert s == [s[0]] + s[1..];
      if DistinctSessions(s) {
        assert DistinctSessions(s[1..]);
        forall x | x in Keep(s[1..], p)
          ensures x.sessionId != s[0].sessionId
        {
          var k :| 0 <= k < |s[1..]| && s[1..][k] == x;
          assert s[k + 1] == x;
        }
      }
    }
  }

  // ----- Pages -----

  function Page(all: seq<Session>, offset: nat, limit: nat): seq<Session> {
    var from := if offset <= |all| then offset else |all|;
    all[from..if from + limit <= |all| then from + limit else |all|]
  }

  /** The first n pages, one after the other. */
  function Pages(all: seq<Session>, limit: nat, n: nat): seq<Session> {
    if n == 0 then [] else Pages(all, limit, n - 1) + Page(all, (n - 1) * limit, limit)
  }

  lemma PageAfterPrefix(all: seq<Session>, offset: nat, limit: nat)
    ensures Page(all, 0, offset) + Page(all, offset, limit) == Page(all, 0, offset + limit)
  {
  }

  lemma {:induction false} PagesArePrefix(all: seq<Session>, limit: nat, n: nat)
    ensures Pages(all, limit, n) == Page(all, 0, n * limit)
    decreases n
  {
    if n > 0 {
      PagesArePrefix(all, limit, n - 1);
      PageAfterPrefix(all, (n - 1) * limit, limit);
      assert (n - 1) * limit + limit == n * limit;
    }
  }
}

/** The listing side of the session store, without a database. */
module SessionStoreListing {
  import opened Text
  import opened TextOrder
  import opened Sorting
  import opened SessionListing

  /** Four comprehensions, one after the other. */
  method KeepOffered(sessions: seq<Session>, q: Query) returns (selected: seq<Session>)
    ensures selected == Keep(sessions, (x: Session) => Offered(x, q))
  {
    hide Keep;
    var live := (x: Session) => !x.isDeleted;
    var typed := (x: Session) => q.analysisType == "" || x.analysisType == q.analysisType;
    var served := (x: Session) => q.serviceName == "" || x.serviceName == q.serviceName;
    var shown := (x: Session) => q.includeArchived || !x.isArchived;
    ghost var two := (x: Session) => live(x) && typed(x);
    ghost var three := (x: Session) => two(x) && served(x);
    selected := Keep(sessions, live);
    selected := Keep(selected, typed);
    KeepTwice(sessions, live, typed, two);
    selected := Keep(selected, served);
    KeepTwice(sessions, two, served, three);
    selected := Keep(selected, shown);
    KeepTwice(sessions, three, shown, (x: Session) => Offered(x, q));
  }

  /** The list is re-sorted in place, least significant key first. */
  method SortSessionsInMemory(sessions: seq<Session>, field: Field, descending: bool, pinnedFirst: bool)
    returns (ordered: seq<Session>)
    ensures multiset(ordered) == multiset(sessions)
    ensures SortedBy(ordered, ByTerms(OrderTerms(field, descending, pinnedFirst)))
    ensures ordered == SortSessions(sessions, field, descending, pinnedFirst)
  {
    SortsMatchOrderTerms(sessions, field, descending, pinnedFirst);
    hide StableSort, SortedBy, ByTerms, OrderTerms, ByTerm;
    ordered := sessions;
    ordered := StableSort(ordered, ByTerm(OrderTerm(SessionId, true)));
    ordered := StableSort(ordered, ByTerm(OrderTerm(By(UpdatedAt), true)));
    ordered := StableSort(ordered, ByTerm(OrderTerm(By(field), descending)));
    if pinnedFirst {
      ordered := StableSort(ordered, ByTerm(OrderTerm(Pinned, true)));
    }
  }

  lemma {:induction false} KeepSame(s: seq<Session>, p: Session -> bool, q: Session -> bool)
    requires forall x :: p(x) <==> q(x)
    ensures Keep(s, p) == Keep(s, q)
    decreases |s|
  {
    if s != [] {
      KeepSame(s[1..], p, q);
    }
  }

  class SessionStore {
    var sessions: seq<Session>   // dictionary values, in insertion order
    var contents: Contents

    /** The search filter, after those on the fields. */
    method Select(q: Query) returns (selected: seq<Session>)
      ensures selected == Matching(sessions, contents, q)
    {
      hide MentionsIn, Offered, SearchText;
      var texts := contents;
      ghost var all := (x: Session) => Matches(x, texts, q);
      selected := KeepOffered(sessions, q);
      var search := SearchText(q);
      if search != "" {
        ghost var found := (x: Session) => MentionsIn(x, texts, search);
        KeepTwice(sessions, (x: Session) => Offered(x, q), found, all);
        var filtered := [];
        for i := 0 to |selected|
          invariant filtered + Keep(selected[i..], found) == Keep(selected, found)
        {
          assert selected[i..][1..] == selected[i + 1..];
          if MentionsIn(selected[i], texts, search) {
            filtered := filtered + [selected[i]];
          }
        }
        assert selected[|selected|..] == [] && filtered + [] == filtered;
        selected := filtered;
      } else {
        KeepSame(sessions, (x: Session) => Offered(x, q), all);
      }
      KeepSame(sessions, all, session => Matches(session, texts, q));
    }

    method CountSessions(q: Query) returns (count: nat)
      ensures count == |Matching(sessions, contents, q)|
    {
      var selected := Select(q);
      count := |selected|;
    }

    method ListSessions(limit: int, offset: int, q: Query, pinnedFirst: bool, sortBy: string, sortOrder: string)
      returns (page: seq<Session>)
      ensures var field, descending := SanitizeField(sortBy), SanitizeDescending(sortOrder);
              page == Page(SortSessions(Matching(sessions, contents, q), field, descending, pinnedFirst),
                           if offset < 0 then 0 else offset, if limit < 1 then 1 else limit)
      ensures forall i, j :: 0 <= i < j < |page| ==>
                var a, b := page[i], page[j];
                var name, down := Lower(Strip(sortBy)), Lower(Strip(sortOrder)) != "asc";
                var tie :=
                  a.updatedAt > b.updatedAt || (a.updatedAt == b.updatedAt && TextLe(b.sessionId, a.sessionId));
                var numbers := (x: int, y: int) => (if down then x > y else x < y) || (x == y && tie);
                var texts := (x: string, y: string) =>
                  && (if down then TextLe(Lower(y), Lower(x)) else TextLe(Lower(x), Lower(y)))
                  && (Lower(x) == Lower(y) ==> tie);
                || (pinnedFirst && a.isPinned && !b.isPinned)
                || (&& (pinnedFirst ==> a.isPinned == b.isPinned)
                    && if name == "created_at" then numbers(a.createdAt, b.createdAt)
                       else if name == "title" then texts(a.title, b.title)
                       else if name == "service_name" then texts(a.serviceName, b.serviceName)
                       else if name == "analysis_type" then texts(a.analysisType, b.analysisType)
                       else numbers(a.updatedAt, b.updatedAt))
      ensures forall x :: x in page ==>
                && x in sessions && !x.isDeleted
                && (q.analysisType == "" || x.analysisType == q.analysisType)
                && (q.serviceName == "" || x.serviceName == q.serviceName)
                && (q.includeArchived || !x.isArchived)
    {
      hide OrderTerms, TermsLe, SanitizeField, SanitizeDescending, StableSort, SortSessions, Lower, Strip, TextLe;
      hide Keep, MentionsIn, SearchText;
      var safeLimit := if limit < 1 then 1 else limit;
      var safeOffset := if offset < 0 then 0 else offset;
      var selected := Select(q);
      var ordered := SortSessionsInMemory(selected, SanitizeField(sortBy), SanitizeDescending(sortOrder), pinnedFirst);
      var from := if safeOffset > |ordered| then |ordered| else safeOffset;
      var to := if from + safeLimit > |ordered| then |ordered| else from + safeLimit;
      page := ordered[from..to];
      ListByFields(page, sortBy, sortOrder, pinnedFirst);
      var texts := contents;
      KeepMembers(sessions, session => Matches(session, texts, q));
      forall x | x in page
        ensures x in selected
      {
        assert x in multiset(ordered) && x in multiset(selected);
      }
    }
  }

  /** Paging through a listing gives every matching session once, in the order of
      the ORDER BY terms, and their number is what `CountSessions` answers. */
  lemma PagesGiveTheListing(all: seq<Session>, contents: Contents, q: Query,
                            field: Field, descending: bool, pinnedFirst: bool, limit: nat, n: nat)
    requires DistinctSessions(all) && limit >= 1
    requires n * limit >= |Matching(all, contents, q)|
    ensures var listing := Pages(SortSessions(Matching(all, contents, q), field, descending, pinnedFirst), limit, n);
            && multiset(listing) == multiset(Matching(all, contents, q))
            && |listing| == |Matching(all, contents, q)|
            && SortedBy(listing, ByTerms(OrderTerms(field, descending, pinnedFirst)))
            && (forall x :: x in listing <==> x in all && Matches(x, contents, q))
            && (forall x :: x in listing <==>
                  && x in all && !x.isDeleted
                  && (q.analysisType == "" || x.analysisType == q.analysisType)
                  && (q.serviceName == "" || x.serviceName == q.serviceName)
                  && (q.includeArchived || !x.isArchived)
                  && var search := Lower(Strip(q.searchQuery));
                     || search == ""
                     || Contains(Lower(x.title), search) || Contains(Lower(x.summaryText), search)
                     || Contains(Lower(x.inputText), search) || Contains(Lower(x.traceId), search)
                     || Contains(Lower(x.serviceName), search)
                     || (x.sessionId in contents &&
                         exists text :: text in contents[x.sessionId] && Contains(Lower(text), search)))
            && DistinctSessions(Matching(all, contents, q))
            && forall r | multiset(r) == multiset(listing)
                 && SortedBy(r, ByTerms(OrderTerms(field, descending, pinnedFirst))) :: r == listing
  {
    hide SortSessions, SortedBy, ByTerms, Keep, Matches, Lower, Strip, Contains;
    forall x: Session {
      MatchesByFields(x, contents, q);
    }
    var matching := Matching(all, contents, q);
    var sorted := SortSessions(matching, field, descending, pinnedFirst);
    SortsMatchOrderTerms(matching, field, descending, pinnedFirst);
    assert |multiset(sorted)| == |sorted| && |multiset(matching)| == |matching|;
    PagesArePrefix(sorted, limit, n);
    assert Page(sorted, 0, n * limit) == sorted;
    KeepMembers(all, session => Matches(session, contents, q));
    forall x
      ensures x in sorted <==> x in matching
    {
      assert x in multiset(sorted) <==> x in multiset(matching);
    }
    forall r | multiset(r) == multiset(sorted) && SortedBy(r, ByTerms(OrderTerms(field, descending, pinnedFirst)))
      ensures r == sorted
    {
      SortIsTheOnlyOne(matching, r, field, descending, pinnedFirst);
    }
  }
}
