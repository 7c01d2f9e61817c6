/** The case store and its two lookup indexes. */
module CaseIndex {
  import opened Lists
  import opened Text

  datatype Case = Case(
    id: string,
    problemType: string,
    serviceName: string,
    summary: string,
    logContent: string,
    caseStatus: string,   // llm_metadata.case_status
    resolved: bool)

  /** Ids by key; a key without ids is absent. */
  type Index = map<string, seq<string>>

  function Bucket(index: Index, key: string): seq<string> {
    if key in index then index[key] else []
  }

  function IndexAdd(index: Index, key: string, id: string): Index {
    index[key := Bucket(index, key) + [id]]
  }

  function IndexRemove(index: Index, key: string, id: string): Index {
    if key !in index then index
    else
      var kept := Without(index[key], id);
      if kept == [] then index - {key} else index[key := kept]
  }

  ghost predicate HoldsExactly(ids: seq<string>, keyOf: map<string, string>, key: string) {
    forall id :: id in ids <==> id in keyOf && keyOf[id] == key
  }

  /** Each bucket holds exactly the ids with its key, once, and none is empty. */
  ghost predicate Agrees(index: Index, keyOf: map<string, string>) {
    && (forall key :: key in index ==> index[key] != [] && NoRepeats(index[key]))
    && (forall key :: HoldsExactly(Bucket(index, key), keyOf, key))
  }

  lemma AgreesAdd(index: Index, keyOf: map<string, string>, key: string, id: string)
    requires Agrees(index, keyOf) && id !in keyOf
    ensures Agrees(IndexAdd(index, key, id), keyOf[id := key])
  {
    var added := IndexAdd(index, key, id);
    var keyOf' := keyOf[id := key];
    assert HoldsExactly(Bucket(index, key), keyOf, key);
    forall k
      ensures HoldsExactly(Bucket(added, k), keyOf', k)
    {
      assert HoldsExactly(Bucket(index, k), keyOf, k);
    }
    forall k | k in added
      ensures added[k] != [] && NoRepeats(added[k])
    {
      if k == key {
        assert id !in Bucket(index, key);
      }
    }
  }

  lemma AgreesRemove(index: Index, keyOf: map<string, string>, key: string, id: string)
    requires Agrees(index, keyOf) && id in keyOf && keyOf[id] == key
    ensures Agrees(IndexRemove(index, key, id), keyOf - {id})
  {
    var removed := IndexRemove(index, key, id);
    var keyOf' := keyOf - {id};
    WithoutSpec(Bucket(index, key), id);
    forall k
      ensures HoldsExactly(Bucket(removed, k), keyOf', k)
    {
      assert HoldsExactly(Bucket(index, k), keyOf, k);
    }
  }

  // ----- The store -----

  /** `order` is the dictionary's own order of the ids. */
  datatype Store = Store(order: seq<string>, cases: map<string, Case>, byType: Index, byService: Index)

  const EMPTY_STORE := Store([], map[], map[], map[])

  function TypeKeys(cases: map<string, Case>): map<string, string> {
    map id | id in cases :: cases[id].problemType
  }

  /** Cases without a service name are in no service bucket. */
  function ServiceKeys(cases: map<string, Case>): map<string, string> {
    map id | id in cases && cases[id].serviceName != "" :: Lower(cases[id].serviceName)
  }

  function Unindex(s: Store, c: Case): Store {
    s.(byType := IndexRemove(s.byType, c.problemType, c.id),
       byService := if c.serviceName == "" then s.byService else IndexRemove(s.byService, Lower(c.serviceName), c.id))
  }

  function AddCase(s: Store, c: Case): Store {
    var cleared := if c.id in s.cases then Unindex(s, s.cases[c.id]) else s;
    Store(if c.id in s.cases then s.order else s.order + [c.id],
          s.cases[c.id := c],
          IndexAdd(cleared.byType, c.problemType, c.id),
          if c.serviceName == "" then cleared.byService else IndexAdd(cleared.byService, Lower(c.serviceName), c.id))
  }

  function DeleteCase(s: Store, id: string): Store {
    if id !in s.cases then s
    else Unindex(s, s.cases[id]).(order := Without(s.order, id), cases := s.cases - {id})
  }

  ghost predicate Ordered(order: seq<string>, cases: map<string, Case>) {
    && NoRepeats(order)
    && (forall id :: id in order <==> id in cases)
    && (forall id :: id in cases ==> cases[id].id == id)
  }

  /** The indexes agree with the live cases. */
  ghost predicate Consistent(s: Store) {
    && Ordered(s.order, s.cases)
    && Agrees(s.byType, TypeKeys(s.cases))
    && Agrees(s.byService, ServiceKeys(s.cases))
  }

  lemma UnindexAgrees(s: Store, id: string)
    requires Consistent(s) && id in s.cases
    ensures var t := Unindex(s, s.cases[id]);
            && Agrees(t.byType, TypeKeys(s.cases) - {id})
            && Agrees(t.byService, ServiceKeys(s.cases) - {id})
  {
    var c := s.cases[id];
    AgreesRemove(s.byType, TypeKeys(s.cases), c.problemType, id);
    if c.serviceName != "" {
      AgreesRemove(s.byService, ServiceKeys(s.cases), Lower(c.serviceName), id);
    } else {
      assert ServiceKeys(s.cases) - {id} == ServiceKeys(s.cases);
    }
  }

  lemma KeysAfterAdd(cases: map<string, Case>, c: Case)
    ensures TypeKeys(cases[c.id := c]) == (TypeKeys(cases) - {c.id})[c.id := c.problemType]
    ensures c.serviceName == "" ==> ServiceKeys(cases[c.id := c]) == ServiceKeys(cases) - {c.id}
    ensures c.serviceName != "" ==>
              ServiceKeys(cases[c.id := c]) == (ServiceKeys(cases) - {c.id})[c.id := Lower(c.serviceName)]
  {
    hide Lower;
  }

  lemma KeysAfterDelete(cases: map<string, Case>, id: string)
    ensures TypeKeys(cases - {id}) == TypeKeys(cases) - {id}
    ensures ServiceKeys(cases - {id}) == ServiceKeys(cases) - {id}
    ensures id !in cases ==>
              TypeKeys(cases) - {id} == TypeKeys(cases) && ServiceKeys(cases) - {id} == ServiceKeys(cases)
  {
    hide Lower;
  }

  lemma OrderAfterAdd(order: seq<string>, cases: map<string, Case>, c: Case)
    requires Ordered(order, cases)
    ensures Ordered(if c.id in cases then order else order + [c.id], cases[c.id := c])
  {
  }

  lemma OrderAfterDelete(order: seq<string>, cases: map<string, Case>, id: string)
    requires Ordered(order, cases)
    ensures Ordered(Without(order, id), cases - {id})
  {
    WithoutSpec(order, id);
  }

  lemma KeysLack(cases: map<string, Case>, id: string)
    ensures id !in TypeKeys(cases) - {id} && id !in ServiceKeys(cases) - {id}
  {
    hide Lower;
  }

  lemma AddKeepsConsistent(s: Store, c: Case)
    requires Consistent(s)
    ensures Consistent(AddCase(s, c))
  {
    hide Agrees, IndexAdd, IndexRemove, TypeKeys, ServiceKeys, Ordered, Lower;
    var cleared := if c.id in s.cases then Unindex(s, s.cases[c.id]) else s;
    if c.id in s.cases {
      UnindexAgrees(s, c.id);
    }
    KeysAfterDelete(s.cases, c.id);
    KeysAfterAdd(s.cases, c);
    KeysLack(s.cases, c.id);
    OrderAfterAdd(s.order, s.cases, c);
    AgreesAdd(cleared.byType, TypeKeys(s.cases) - {c.id}, c.problemType, c.id);
    if c.serviceName != "" {
      AgreesAdd(cleared.byService, ServiceKeys(s.cases) - {c.id}, Lower(c.serviceName), c.id);
    }
  }

  lemma DeleteKeepsConsistent(s: Store, id: string)
    requires Consistent(s)
    ensures Consistent(DeleteCase(s, id))
  {
    hide Agrees, IndexAdd, IndexRemove, TypeKeys, ServiceKeys, Ordered, Lower;
    if id in s.cases {
      UnindexAgrees(s, id);
      OrderAfterDelete(s.order, s.cases, id);
      KeysAfterDelete(s.cases, id);
    }
  }

  // ----- Runs -----

  datatype Op = Add(c: Case) | Delete(id: string)

  function Run(ops: seq<Op>): Store {
    if ops == [] then EMPTY_STORE
    else
      var s := Run(ops[..|ops| - 1]);
      match ops[|ops| - 1]
      case Add(c) => AddCase(s, c)
      case Delete(id) => DeleteCase(s, id)
  }

  /** The case a run leaves under an id: the last one added and not deleted since. */
  function Live(ops: seq<Op>, id: string): seq<Case> {
    if ops == [] then []
    else
      match ops[|ops| - 1]
      case Add(c) => if c.id == id then [c] else Live(ops[..|ops| - 1], id)
      case Delete(gone) => if gone == id then [] else Live(ops[..|ops| - 1], id)
  }

  lemma EmptyIsConsistent()
    ensures Consistent(EMPTY_STORE)
  {
    assert TypeKeys(map[]) == map[] && ServiceKeys(map[]) == map[];
    assert forall key :: HoldsExactly(Bucket(map[], key), map[], key);
  }

  lemma {:induction false} EveryRun(ops: seq<Op>)
    ensures Consistent(Run(ops))
    ensures forall id :: id in Run(ops).cases <==> Live(ops, id) != []
    ensures forall id :: id in Run(ops).cases ==> Live(ops, id) == [Run(ops).cases[id]]
    decreases |ops|
  {
    hide Consistent, Unindex, IndexAdd, IndexRemove;
    if ops == [] {
      EmptyIsConsistent();
    } else {
      var s := Run(ops[..|ops| - 1]);
      EveryRun(ops[..|ops| - 1]);
      match ops[|ops| - 1]
      case Add(c) => AddKeepsConsistent(s, c);
      case Delete(id) => DeleteKeepsConsistent(s, id);
    }
  }

  // ----- Lookups -----

  function Resolve(s: Store, ids: seq<string>): seq<Case> {
    if ids == [] then []
    else (if ids[0] in s.cases then [s.cases[ids[0]]] else []) + Resolve(s, ids[1..])
  }

  function CasesByType(s: Store, problemType: string): seq<Case> {
    Resolve(s, Bucket(s.byType, problemType))
  }

  function CasesByService(s: Store, serviceName: string): seq<Case> {
    Resolve(s, Bucket(s.byService, Lower(serviceName)))
  }

  function AllCases(s: Store): seq<Case> {
    Resolve(s, s.order)
  }

  ghost predicate DistinctCases(cases: seq<Case>) {
    forall i, j :: 0 <= i < j < |cases| ==> cases[i].id != cases[j].id
  }

  lemma {:induction false} ResolveSpec(s: Store, ids: seq<string>)
    requires forall id :: id in s.cases ==> s.cases[id].id == id
    ensures forall c :: c in Resolve(s, ids) <==> c.id in ids && c.id in s.cases && s.cases[c.id] == c
    ensures NoRepeats(ids) ==> DistinctCases(Resolve(s, ids))
    decreases |ids|
  {
    if ids != [] {
      var rest := ids[1..];
      ResolveSpec(s, rest);
      assert ids == [ids[0]] + rest;
      if NoRepeats(ids) {
        assert forall k :: 0 <= k < |rest| ==> rest[k] == ids[k + 1];
        assert ids[0] !in rest;
        var tail := Resolve(s, rest);
        forall k | 0 <= k < |tail|
          ensures tail[k].id != ids[0]
        {
          assert tail[k] in tail;
        }
      }
    }
  }

  /** A lookup by type finds exactly the live cases of the type, each once. */
  lemma ByTypeIsScan(s: Store, problemType: string)
    requires Consistent(s)
    ensures var found := CasesByType(s, problemType);
            && DistinctCases(found)
            && forall c :: c in found <==> c in AllCases(s) && c.problemType == problemType
  {
    hide Resolve, Lower;
    ResolveSpec(s, Bucket(s.byType, problemType));
    ResolveSpec(s, s.order);
    assert HoldsExactly(Bucket(s.byType, problemType), TypeKeys(s.cases), problemType);
  }

  /** A lookup by service ignores case and finds nothing for cases without one. */
  lemma ByServiceIsScan(s: Store, serviceName: string)
    requires Consistent(s)
    ensures var found := CasesByService(s, serviceName);
            && DistinctCases(found)
            && forall c :: c in found <==>
                 c in AllCases(s) && c.serviceName != "" && Lower(c.serviceName) == Lower(serviceName)
  {
    hide Resolve, Lower;
    ResolveSpec(s, Bucket(s.byService, Lower(serviceName)));
    ResolveSpec(s, s.order);
    assert HoldsExactly(Bucket(s.byService, Lower(serviceName)), ServiceKeys(s.cases), Lower(serviceName));
  }

  lemma AllCasesAreLive(s: Store)
    requires Consistent(s)
    ensures DistinctCases(AllCases(s))
    ensures forall c :: c in AllCases(s) <==> c.id in s.cases && s.cases[c.id] == c
  {
    ResolveSpec(s, s.order);
  }
}

/** Recommending similar cases: candidates from the indexes, scored, sorted, cut. */
module CaseRetrieval {
  import opened Lists
  import opened Text
  import opened Sorting
  import opened CaseIndex

  datatype Hit = Hit(found: Case, score: real)

  /** What to look for. `contextServices` are the services named by the query's
      context; `score` is the feature similarity of the query with a case. */
  datatype Query = Query(
    problemType: string,
    serviceName: string,
    contextServices: seq<string>,
    limit: int,
    minSimilarity: real,
    includeDraft: bool,
    score: Case -> real)

  /** The explicit status wins over the resolved flag. */
  function CaseStatus(c: Case): string {
    var stated := Lower(Strip(c.caseStatus));
    if stated != "" then stated else if c.resolved then "resolved" else "archived"
  }

  function ByServices(s: Store, services: seq<string>): seq<Case> {
    if services == [] then [] else CasesByService(s, services[0]) + ByServices(s, services[1..])
  }

  function Candidates(s: Store, q: Query): seq<Case> {
    var indexed :=
      (if q.problemType != "" then CasesByType(s, q.problemType) else []) +
      (if q.serviceName != "" then CasesByService(s, q.serviceName) else []) +
      ByServices(s, q.contextServices);
    if indexed == [] then AllCases(s) else indexed
  }

  function Unique(cases: seq<Case>, seen: set<string>): seq<Case> {
    if cases == [] then []
    else if cases[0].id in seen then Unique(cases[1..], seen)
    else [cases[0]] + Unique(cases[1..], seen + {cases[0].id})
  }

  predicate Passes(c: Case, q: Query) {
    (q.includeDraft || CaseStatus(c) != "draft") && q.score(c) >= q.minSimilarity
  }

  function Hits(cases: seq<Case>, q: Query): seq<Hit> {
    if cases == [] then []
    else if Passes(cases[0], q) then [Hit(cases[0], q.score(cases[0]))] + Hits(cases[1..], q)
    else Hits(cases[1..], q)
  }

  function ByScore(): (Hit, Hit) -> bool {
    (a: Hit, b: Hit) => a.score >= b.score
  }

  /** `results[:limit]`, with Python's meaning of a negative limit. */
  function CutAt(hits: seq<Hit>, limit: int): seq<Hit> {
    if limit >= |hits| then hits
    else if limit >= 0 then hits[..limit]
    else if |hits| + limit >= 0 then hits[..|hits| + limit]
    else []
  }

  function FindSimilar(s: Store, q: Query): seq<Hit> {
    CutAt(StableSort(Hits(Unique(Candidates(s, q), {}), q), ByScore()), q.limit)
  }

  // ----- The full scan it is compared with -----

  ghost predicate OfService(c: Case, serviceName: string) {
    c.serviceName != "" && Lower(c.serviceName) == Lower(serviceName)
  }

  ghost predicate Named(c: Case, q: Query) {
    || (q.problemType != "" && c.problemType == q.problemType)
    || (q.serviceName != "" && OfService(c, q.serviceName))
    || exists service :: service in q.contextServices && OfService(c, service)
  }

  /** A live case that the query names by type or service; any live case, if the
      query names none. */
  ghost predicate Admitted(s: Store, c: Case, q: Query) {
    c in AllCases(s) && (Named(c, q) || forall other :: other in AllCases(s) ==> !Named(other, q))
  }

  ghost predicate Eligible(s: Store, c: Case, q: Query) {
    Admitted(s, c, q) && Passes(c, q)
  }

  lemma {:induction false} LowerKeepsLength(s: string)
    ensures |Lower(s)| == |s|
  {
  }

  /** What the query names, told from the fields; a blank service names nothing. */
  lemma NamedByFields(c: Case, q: Query)
    ensures var services := [q.serviceName] + q.contextServices;
            Named(c, q) <==>
              || (q.problemType != "" && c.problemType == q.problemType)
              || (c.serviceName != "" &&
                  exists service :: service in services && Lower(service) == Lower(c.serviceName))
  {
    hide Lower;
    var services := [q.serviceName] + q.contextServices;
    LowerKeepsLength(q.serviceName);
    LowerKeepsLength(c.serviceName);
    assert q.serviceName == services[0];
    forall service
      ensures service in services <==> service == q.serviceName || service in q.contextServices
    {
    }
  }

  /** What is eligible, told from the fields: a live case that scores high enough, is not
      stated to be a draft unless drafts are wanted, and shares the query's type or one of
      its services, unless no live case shares any. */
  lemma EligibleExactly(s: Store, c: Case, q: Query)
    requires Consistent(s)
    ensures var services := [q.serviceName] + q.contextServices;
            var shares := (x: Case) =>
              || (q.problemType != "" && x.problemType == q.problemType)
              || (x.serviceName != "" &&
                  exists service :: service in services && Lower(service) == Lower(x.serviceName));
            Eligible(s, c, q) <==>
              && c.id in s.cases && s.cases[c.id] == c
              && q.score(c) >= q.minSimilarity
              && (q.includeDraft || Lower(Strip(c.caseStatus)) != "draft")
              && (shares(c) || forall id :: id in s.cases ==> !shares(s.cases[id]))
  {
    AllCasesAreLive(s);
    assert forall id :: id in s.cases ==> s.cases[id] in AllCases(s);
    hide Consistent, AllCases, Named, Lower, Strip;
    forall x: Case {
      NamedByFields(x, q);
    }
  }

  lemma ServiceLookup(s: Store, service: string)
    requires Consistent(s)
    ensures forall c :: c in CasesByService(s, service) <==> c in AllCases(s) && OfService(c, service)
  {
    ByServiceIsScan(s, service);
  }

  lemma {:induction false} ByServicesSpec(s: Store, services: seq<string>)
    requires Consistent(s)
    ensures forall c :: c in ByServices(s, services) <==>
              c in AllCases(s) && exists service :: service in services && OfService(c, service)
    decreases |services|
  {
    hide Consistent, CasesByService, AllCases, OfService;
    if services != [] {
      ByServicesSpec(s, services[1..]);
      ServiceLookup(s, services[0]);
      assert services == [services[0]] + services[1..];
      forall c
        ensures c in ByServices(s, services) <==>
                c in AllCases(s) && exists service :: service in services && OfService(c, service)
      {
        if c in AllCases(s) && exists service :: service in services && OfService(c, service) {
          var service :| service in services && OfService(c, service);
          if service != services[0] {
            assert service in services[1..];
          }
        }
      }
    }
  }

  lemma CandidatesSpec(s: Store, q: Query)
    requires Consistent(s)
    ensures forall c :: c in Candidates(s, q) <==> Admitted(s, c, q)
  {
    hide Consistent, CasesByService, CasesByType, AllCases, OfService, ByServices;
    ByTypeIsScan(s, q.problemType);
    ServiceLookup(s, q.serviceName);
    ByServicesSpec(s, q.contextServices);
    var indexed :=
      (if q.problemType != "" then CasesByType(s, q.problemType) else []) +
      (if q.serviceName != "" then CasesByService(s, q.serviceName) else []) +
      ByServices(s, q.contextServices);
    assert forall c :: c in indexed <==> c in AllCases(s) && Named(c, q);
    if indexed != [] {
      assert indexed[0] in indexed;
    }
  }

  lemma {:induction false} UniqueSpec(cases: seq<Case>, seen: set<string>)
    requires forall a, b :: a in cases && b in cases && a.id == b.id ==> a == b
    ensures forall c :: c in Unique(cases, seen) <==> c in cases && c.id !in seen
    ensures DistinctCases(Unique(cases, seen))
    decreases |cases|
  {
    if cases != [] {
      var rest := cases[1..];
      assert cases == [cases[0]] + rest;
      if cases[0].id in seen {
        UniqueSpec(rest, seen);
      } else {
        UniqueSpec(rest, seen + {cases[0].id});
        var tail := Unique(rest, seen + {cases[0].id});
        forall k | 0 <= k < |tail|
          ensures tail[k].id != cases[0].id
        {
          assert tail[k] in tail;
        }
      }
    }
  }

  ghost predicate DistinctHits(hits: seq<Hit>) {
    forall i, j :: 0 <= i < j < |hits| ==> hits[i].found.id != hits[j].found.id
  }

  lemma {:induction false} HitsSpec(cases: seq<Case>, q: Query)
    ensures forall h :: h in Hits(cases, q) <==> h.found in cases && Passes(h.found, q) && h.score == q.score(h.found)
    ensures DistinctCases(cases) ==> DistinctHits(Hits(cases, q))
    decreases |cases|
  {
    hide Passes;
    if cases != [] {
      var rest := cases[1..];
      HitsSpec(rest, q);
      assert cases == [cases[0]] + rest;
      if DistinctCases(cases) {
        assert forall k :: 0 <= k < |rest| ==> rest[k] == cases[k + 1];
        var tail := Hits(rest, q);
        forall k | 0 <= k < |tail|
          ensures tail[k].found.id != cases[0].id
        {
          assert tail[k] in tail;
          var m :| 0 <= m < |rest| && rest[m] == tail[k].found;
        }
      }
    }
  }

  lemma ByScoreIsPreorder()
    ensures TotalPreorder(ByScore())
  {
  }

  lemma {:induction false} InsertDistinct(x: Hit, s: seq<Hit>)
    requires DistinctHits(s) && forall h :: h in s ==> h.found.id != x.found.id
    ensures DistinctHits(Insert(x, s, ByScore()))
    decreases |s|
  {
    if s != [] && !ByScore()(x, s[0]) {
      var rest := s[1..];
      assert forall k :: 0 <= k < |rest| ==> rest[k] == s[k + 1];
      InsertDistinct(x, rest);
      InsertElements(x, rest, ByScore());
      var inserted := Insert(x, rest, ByScore());
      forall k | 0 <= k < |inserted|
        ensures inserted[k].found.id != s[0].found.id
      {
        assert inserted[k] in inserted;
      }
    }
  }

  lemma {:induction false} SortDistinct(s: seq<Hit>)
    requires DistinctHits(s)
    ensures DistinctHits(StableSort(s, ByScore()))
    decreases |s|
  {
    if s != [] {
      var rest := s[1..];
      assert forall k :: 0 <= k < |rest| ==> rest[k] == s[k + 1];
      SortDistinct(rest);
      SortElements(rest, ByScore());
      InsertDistinct(s[0], StableSort(rest, ByScore()));
    }
  }

  lemma SortedMembers(hits: seq<Hit>)
    ensures var sorted := StableSort(hits, ByScore());
            && |sorted| == |hits|
            && (forall h :: h in sorted <==> h in hits)
            && forall i, j :: 0 <= i < j < |sorted| ==> sorted[i].score >= sorted[j].score
  {
    var sorted := StableSort(hits, ByScore());
    ByScoreIsPreorder();
    SortSorts(hits, ByScore());
    SortElements(hits, ByScore());
    forall h
      ensures h in sorted <==> h in hits
    {
      assert h in multiset(sorted) <==> h in multiset(hits);
    }
    forall i, j | 0 <= i < j < |sorted|
      ensures sorted[i].score >= sorted[j].score
    {
      assert ByScore()(sorted[i], sorted[j]);
    }
  }

  /** Sorting neither adds, drops nor repeats a hit. */
  lemma SortedHits(hits: seq<Hit>)
    requires DistinctHits(hits)
    ensures var sorted := StableSort(hits, ByScore());
            && |sorted| == |hits|
            && (forall h :: h in sorted <==> h in hits)
            && DistinctHits(sorted)
            && forall i, j :: 0 <= i < j < |sorted| ==> sorted[i].score >= sorted[j].score
  {
    SortedMembers(hits);
    SortDistinct(hits);
  }

  ghost function EligibleCases(s: Store, q: Query): set<Case> {
    set c | c in AllCases(s) && Eligible(s, c, q)
  }

  lemma HitsAreEligible(s: Store, q: Query, all: seq<Hit>)
    requires DistinctHits(all)
    requires forall h :: h in all <==> Eligible(s, h.found, q) && h.score == q.score(h.found)
    ensures |all| == |EligibleCases(s, q)|
  {
    hide Passes, AllCases, Named;
    var found := seq(|all|, i requires 0 <= i < |all| => all[i].found);
    MembersSize(found);
    forall c
      ensures c in Members(found) <==> c in EligibleCases(s, q)
    {
      if c in EligibleCases(s, q) {
        assert Hit(c, q.score(c)) in all;
        var k :| 0 <= k < |all| && all[k] == Hit(c, q.score(c));
        assert found[k] == c;
      }
      if c in found {
        var k :| 0 <= k < |found| && found[k] == c;
        assert all[k] in all;
      }
    }
    assert Members(found) == EligibleCases(s, q);
  }

  /** Two admitted cases with the same id are the same case. */
  lemma LiveIdsDecide(s: Store, q: Query)
    requires Consistent(s)
    ensures forall a, b :: a in Candidates(s, q) && b in Candidates(s, q) && a.id == b.id ==> a == b
  {
    hide Consistent, Candidates, Named;
    CandidatesSpec(s, q);
    AllCasesAreLive(s);
  }

  /** The answer is the top of a full scan: eligible cases only, each once, best
      first, as many as the limit leaves of them, and nothing left out scores higher
      than anything returned. */
  lemma RetrievalIsTopOfScan(s: Store, q: Query)
    requires Consistent(s)
    ensures var hits := FindSimilar(s, q);
            var n := |EligibleCases(s, q)|;
            && (0 <= q.limit <= n ==> |hits| == q.limit)
            && (q.limit >= n ==> |hits| == n)
            && (-n <= q.limit < 0 ==> |hits| == n + q.limit)
            && (q.limit <= -n ==> |hits| == 0)
            && DistinctHits(hits)
            && (forall i, j :: 0 <= i < j < |hits| ==> hits[i].score >= hits[j].score)
            && (forall h :: h in hits ==>
                  && Eligible(s, h.found, q)
                  && h.found.id in s.cases && s.cases[h.found.id] == h.found
                  && h.score == q.score(h.found) && h.score >= q.minSimilarity
                  && (q.includeDraft || Lower(Strip(h.found.caseStatus)) != "draft"))
            && forall c, h :: Eligible(s, c, q) && Hit(c, q.score(c)) !in hits && h in hits ==> h.score >= q.score(c)
  {
    hide Consistent, StableSort, Candidates, Unique, Hits, AllCases, EligibleCases, Passes, Admitted, Lower, Strip;
    var candidates := Candidates(s, q);
    CandidatesSpec(s, q);
    LiveIdsDecide(s, q);
    UniqueSpec(candidates, {});
    var unique := Unique(candidates, {});
    HitsSpec(unique, q);
    var all := Hits(unique, q);
    HitsAreEligible(s, q, all);
    SortedHits(all);
    var sorted := StableSort(all, ByScore());
    var hits := FindSimilar(s, q);
    assert forall i :: 0 <= i < |hits| ==> hits[i] == sorted[i];
    forall h | h in hits
      ensures Eligible(s, h.found, q) && h.score == q.score(h.found)
    {
      assert h in sorted;
    }
    forall h | h in hits {
      EligibleExactly(s, h.found, q);
    }
    forall c, h | Eligible(s, c, q) && Hit(c, q.score(c)) !in hits && h in hits
      ensures h.score >= q.score(c)
    {
      var own := Hit(c, q.score(c));
      assert own in all;
      assert own in sorted;
      var k :| 0 <= k < |sorted| && sorted[k] == own;
      var m :| 0 <= m < |hits| && hits[m] == h;
      assert k >= |hits|;
    }
  }

  lemma HitsByFields(s: Store, q: Query)
    ensures var hits := FindSimilar(s, q);
            && (forall h :: h in hits ==>
                  && h.score == q.score(h.found) && h.score >= q.minSimilarity
                  && (q.includeDraft || Lower(Strip(h.found.caseStatus)) != "draft"))
            && forall i, j :: 0 <= i < j < |hits| ==> hits[i].score >= hits[j].score
  {
    hide Candidates, Unique, Hits, StableSort, Lower, Strip;
    var unique := Unique(Candidates(s, q), {});
    HitsSpec(unique, q);
    var all := Hits(unique, q);
    SortedMembers(all);
    var sorted := StableSort(all, ByScore());
    var hits := FindSimilar(s, q);
    assert forall i :: 0 <= i < |hits| ==> hits[i] == sorted[i];
  }

  /** The answer by the fields of the cases, and what is left out of it. */
  lemma RetrievalByFields(s: Store, q: Query)
    ensures var hits := FindSimilar(s, q);
            && (forall h :: h in hits ==>
                  && h.score == q.score(h.found) && h.score >= q.minSimilarity
                  && (q.includeDraft || Lower(Strip(h.found.caseStatus)) != "draft"))
            && (forall i, j :: 0 <= i < j < |hits| ==> hits[i].score >= hits[j].score)
            && (Consistent(s) ==>
                  var services := [q.serviceName] + q.contextServices;
                  var shares := (x: Case) =>
                    || (q.problemType != "" && x.problemType == q.problemType)
                    || (x.serviceName != "" &&
                        exists service :: service in services && Lower(service) == Lower(x.serviceName));
                  forall id, h :: id in s.cases && h in hits ==>
                    var c := s.cases[id];
                    || Hit(c, q.score(c)) in hits || h.score >= q.score(c) || q.score(c) < q.minSimilarity
                    || (!q.includeDraft && Lower(Strip(c.caseStatus)) == "draft")
                    || (!shares(c) && exists other :: other in s.cases && shares(s.cases[other])))
  {
    hide FindSimilar, EligibleCases, Eligible, Lower, Strip, AllCases;
    HitsByFields(s, q);
    if Consistent(s) {
      RetrievalIsTopOfScan(s, q);
      forall id | id in s.cases {
        EligibleExactly(s, s.cases[id], q);
      }
    }
  }
}

/** The store and the recommender as objects. */
module CaseStore {
  import opened Lists
  import opened Text
  import opened Sorting
  import Index = CaseIndex
  import opened CaseIndex
  import opened CaseRetrieval

  class CaseStore {
    var order: seq<string>
    var cases: map<string, Case>
    var byType: Index.Index
    var byService: Index.Index

    ghost function Abs(): Store
      reads this
    {
      Store(order, cases, byType, byService)
    }

    constructor ()
      ensures Abs() == EMPTY_STORE && Consistent(Abs())
    {
      order, cases, byType, byService := [], map[], map[], map[];
      EmptyIsConsistent();
    }

    method FilterOut(ids: seq<string>, id: string) returns (kept: seq<string>)
      ensures kept == Without(ids, id)
    {
      kept := [];
      for i := 0 to |ids|
        invariant kept + Without(ids[i..], id) == Without(ids, id)
      {
        assert ids[i..][1..] == ids[i + 1..];
        if ids[i] != id {
          kept := kept + [ids[i]];
        }
      }
      assert ids[|ids|..] == [] && kept + [] == kept;
    }

    method RemoveFromIndexes(c: Case)
      modifies `byType, `byService
      ensures Abs() == Unindex(old(Abs()), c)
    {
      if c.problemType in byType {
        var kept := FilterOut(byType[c.problemType], c.id);
        if kept == [] {
          byType := byType - {c.problemType};
        } else {
          byType := byType[c.problemType := kept];
        }
      }
      var service := Lower(c.serviceName);
      if service != "" && service in byService {
        var kept := FilterOut(byService[service], c.id);
        if kept == [] {
          byService := byService - {service};
        } else {
          byService := byService[service := kept];
        }
      }
    }

    /** Adds a case or replaces the one with its id. */
    method AddCase(c: Case)
      requires Consistent(Abs())
      modifies this
      ensures Abs() == Index.AddCase(old(Abs()), c)
      ensures Consistent(Abs())
    {
      hide Consistent, IndexRemove;
      AddKeepsConsistent(Abs(), c);
      if c.id in cases {
        RemoveFromIndexes(cases[c.id]);
      } else {
        order := order + [c.id];
      }
      cases := cases[c.id := c];
      byType := IndexAdd(byType, c.problemType, c.id);
      if c.serviceName != "" {
        byService := IndexAdd(byService, Lower(c.serviceName), c.id);
      }
    }

    method DeleteCase(id: string) returns (deleted: bool)
      requires Consistent(Abs())
      modifies this
      ensures deleted <==> id in old(cases)
      ensures Abs() == Index.DeleteCase(old(Abs()), id)
      ensures Consistent(Abs())
    {
      hide Consistent, IndexRemove;
      DeleteKeepsConsistent(Abs(), id);
      if id !in cases {
        return false;
      }
      RemoveFromIndexes(cases[id]);
      cases := cases - {id};
      order := FilterOut(order, id);
      return true;
    }

    method LookUp(ids: seq<string>) returns (found: seq<Case>)
      ensures found == Resolve(Abs(), ids)
    {
      found := [];
      for i := 0 to |ids|
        invariant found + Resolve(Abs(), ids[i..]) == Resolve(Abs(), ids)
      {
        assert ids[i..][1..] == ids[i + 1..];
        if ids[i] in cases {
          found := found + [cases[ids[i]]];
        }
      }
      assert ids[|ids|..] == [] && found + [] == found;
    }

    method GetCasesByType(problemType: string) returns (found: seq<Case>)
      ensures found == CasesByType(Abs(), problemType)
    {
      found := LookUp(Bucket(byType, problemType));
    }

    method GetCasesByService(serviceName: string) returns (found: seq<Case>)
      ensures found == CasesByService(Abs(), serviceName)
    {
      found := LookUp(Bucket(byService, Lower(serviceName)));
    }

    method GetAllCases() returns (found: seq<Case>)
      ensures found == AllCases(Abs())
    {
      found := LookUp(order);
    }

    method CollectCandidates(q: Query) returns (candidates: seq<Case>)
      ensures candidates == Candidates(Abs(), q)
    {
      hide CasesByType, CasesByService, AllCases;
      candidates := [];
      if q.problemType != "" {
        var found := GetCasesByType(q.problemType);
        candidates := candidates + found;
      }
      if q.serviceName != "" {
        var found := GetCasesByService(q.serviceName);
        candidates := candidates + found;
      }
      ghost var named := candidates;
      for i := 0 to |q.contextServices|
        invariant candidates + ByServices(Abs(), q.contextServices[i..]) == named + ByServices(Abs(), q.contextServices)
      {
        assert q.contextServices[i..][1..] == q.contextServices[i + 1..];
        var found := GetCasesByService(q.contextServices[i]);
        candidates := candidates + found;
      }
      assert q.contextServices[|q.contextServices|..] == [] && candidates + [] == candidates;
      if candidates == [] {
        candidates := GetAllCases();
      }
    }

    /** The hits by their fields: each scores high enough and is no stated draft unless drafts
        are wanted; best first; and what is eligible and not returned scores no higher. */
    method FindSimilarCases(q: Query) returns (hits: seq<Hit>)
      ensures hits == FindSimilar(Abs(), q)
      ensures forall h :: h in hits ==>
                && h.score == q.score(h.found) && h.score >= q.minSimilarity
                && (q.includeDraft || Lower(Strip(h.found.caseStatus)) != "draft")
      ensures forall i, j :: 0 <= i < j < |hits| ==> hits[i].score >= hits[j].score
      ensures Consistent(Abs()) ==>
                var services := [q.serviceName] + q.contextServices;
                var shares := (x: Case) =>
                  || (q.problemType != "" && x.problemType == q.problemType)
                  || (x.serviceName != "" &&
                      exists service :: service in services && Lower(service) == Lower(x.serviceName));
                forall id, h :: id in cases && h in hits ==>
                  var c := cases[id];
                  || Hit(c, q.score(c)) in hits || h.score >= q.score(c) || q.score(c) < q.minSimilarity
                  || (!q.includeDraft && Lower(Strip(c.caseStatus)) == "draft")
                  || (!shares(c) && exists other :: other in cases && shares(cases[other]))
    {
      hide Candidates, Passes, CutAt;
      RetrievalByFields(Abs(), q);
      var candidates := CollectCandidates(q);
      var seen: set<string> := {};
      var unique := [];
      for i := 0 to |candidates|
        invariant unique + Unique(candidates[i..], seen) == Unique(candidates, {})
      {
        assert candidates[i..][1..] == candidates[i + 1..];
        if candidates[i].id !in seen {
          seen := seen + {candidates[i].id};
          unique := unique + [candidates[i]];
        }
      }
      assert candidates[|candidates|..] == [] && unique + [] == unique;
      var results := [];
      for i := 0 to |unique|
        invariant results + Hits(unique[i..], q) == Hits(unique, q)
      {
        assert unique[i..][1..] == unique[i + 1..];
        if Passes(unique[i], q) {
          results := results + [Hit(unique[i], q.score(unique[i]))];
        }
      }
      assert unique[|unique|..] == [] && results + [] == results;
      hits := CutAt(StableSort(results, ByScore()), q.limit);
    }
  }
}
