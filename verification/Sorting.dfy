/** `list.sort`: the stable sort, as a function, and what makes it the only one. */
module Sorting {

  /** A comparison under which any two elements are ordered; ties are allowed. */
  ghost predicate TotalPreorder<T(!new)>(le: (T, T) -> bool) {
    && (forall x, y :: le(x, y) || le(y, x))
    && (forall x, y, z :: le(x, y) && le(y, z) ==> le(x, z))
  }

  ghost predicate SortedBy<T>(s: seq<T>, le: (T, T) -> bool) {
    forall i, j :: 0 <= i < j < |s| ==> le(s[i], s[j])
  }

  /** Puts x before the first element it does not come after. */
  function Insert<T>(x: T, s: seq<T>, le: (T, T) -> bool): seq<T> {
    if s == [] || le(x, s[0]) then [x] + s else [s[0]] + Insert(x, s[1..], le)
  }

  function StableSort<T>(s: seq<T>, le: (T, T) -> bool): seq<T> {
    if s == [] then [] else Insert(s[0], StableSort(s[1..], le), le)
  }

  /** Order by p, and among elements p does not tell apart by q. */
  function Then<T>(p: (T, T) -> bool, q: (T, T) -> bool): (T, T) -> bool {
    (x, y) => p(x, y) && (p(y, x) ==> q(x, y))
  }

  lemma {:induction false} InsertElements<T>(x: T, s: seq<T>, le: (T, T) -> bool)
    ensures multiset(Insert(x, s, le)) == multiset{x} + multiset(s)
    ensures forall y :: y in Insert(x, s, le) ==> y == x || y in s
    decreases |s|
  {
    if s != [] && !le(x, s[0]) {
      assert s == [s[0]] + s[1..];
      InsertElements(x, s[1..], le);
    }
  }

  lemma {:induction false} SortElements<T>(s: seq<T>, le: (T, T) -> bool)
    ensures multiset(StableSort(s, le)) == multiset(s)
    ensures |StableSort(s, le)| == |s|
    ensures forall y :: y in StableSort(s, le) ==> y in s
    decreases |s|
  {
    if s != [] {
      assert s == [s[0]] + s[1..];
      SortElements(s[1..], le);
      InsertElements(s[0], StableSort(s[1..], le), le);
      assert |multiset(StableSort(s, le))| == |s|;
    }
  }

  lemma {:induction false} InsertSorted<T(!new)>(x: T, s: seq<T>, p: (T, T) -> bool, q: (T, T) -> bool)
    requires TotalPreorder(p) && SortedBy(s, Then(p, q))
    requires forall y :: y in s ==> q(x, y)
    ensures SortedBy(Insert(x, s, p), Then(p, q))
    decreases |s|
  {
    var le := Then(p, q);
    if s == [] || p(x, s[0]) {
      forall y | y in s
        ensures le(x, y)
      {
        var k :| 0 <= k < |s| && s[k] == y;
        assert k > 0 ==> le(s[0], s[k]);
      }
    } else {
      var rest := s[1..];
      assert forall k :: 0 <= k < |rest| ==> rest[k] == s[k + 1];
      InsertSorted(x, rest, p, q);
      InsertElements(x, rest, p);
      var inserted := Insert(x, rest, p);
      forall k | 0 <= k < |inserted|
        ensures le(s[0], inserted[k])
      {
        assert inserted[k] in inserted;
      }
    }
  }

  /** A stable sort refines the order the list already had. */
  lemma {:induction false} SortRefines<T(!new)>(s: seq<T>, p: (T, T) -> bool, q: (T, T) -> bool)
    requires TotalPreorder(p) && SortedBy(s, q)
    ensures SortedBy(StableSort(s, p), Then(p, q))
    decreases |s|
  {
    if s != [] {
      var rest := s[1..];
      assert forall k :: 0 <= k < |rest| ==> rest[k] == s[k + 1];
      SortRefines(rest, p, q);
      SortElements(rest, p);
      InsertSorted(s[0], StableSort(rest, p), p, q);
    }
  }

  lemma SortSorts<T(!new)>(s: seq<T>, le: (T, T) -> bool)
    requires TotalPreorder(le)
    ensures SortedBy(StableSort(s, le), le)
  {
    var any := (x: T, y: T) => true;
    SortRefines(s, le, any);
    var r := StableSort(s, le);
    forall i, j | 0 <= i < j < |r|
      ensures le(r[i], r[j])
    {
      assert Then(le, any)(r[i], r[j]);
    }
  }

  lemma TailSorted<T>(s: seq<T>, le: (T, T) -> bool)
    requires SortedBy(s, le) && s != []
    ensures SortedBy(s[1..], le)
    ensures forall y :: y in s[1..] ==> le(s[0], y)
  {
    var rest := s[1..];
    assert forall k :: 0 <= k < |rest| ==> rest[k] == s[k + 1];
  }

  lemma HeadLeast<T>(s: seq<T>, le: (T, T) -> bool)
    requires SortedBy(s, le) && s != []
    ensures forall y :: y in s ==> y == s[0] || le(s[0], y)
  {
    TailSorted(s, le);
    assert s == [s[0]] + s[1..];
  }

  lemma TailElements<T>(s: seq<T>)
    requires s != []
    ensures multiset(s[1..]) == multiset(s) - multiset{s[0]}
  {
    assert s == [s[0]] + s[1..];
  }

  lemma SameHead<T(!new)>(a: seq<T>, b: seq<T>, le: (T, T) -> bool)
    requires SortedBy(a, le) && SortedBy(b, le) && multiset(a) == multiset(b) && a != [] && b != []
    requires forall x, y :: x in a && y in a && le(x, y) && le(y, x) ==> x == y
    ensures a[0] == b[0]
  {
    HeadLeast(a, le);
    HeadLeast(b, le);
    hide SortedBy;
    assert a[0] in multiset(a) && b[0] in multiset(b);
    assert a[0] in multiset(b) && b[0] in multiset(a);
    assert a[0] in b && b[0] in a;
  }

  /** Two sorted arrangements of the same elements agree, if only equal elements tie. */
  lemma {:induction false} SortedUnique<T(!new)>(a: seq<T>, b: seq<T>, le: (T, T) -> bool)
    requires SortedBy(a, le) && SortedBy(b, le) && multiset(a) == multiset(b)
    requires forall x, y :: x in a && y in a && le(x, y) && le(y, x) ==> x == y
    ensures a == b
    decreases |a|
  {
    hide SortedBy;
    assert |multiset(a)| == |a| && |multiset(b)| == |b|;
    if a != [] {
      SameHead(a, b, le);
      TailElements(a);
      TailElements(b);
      TailSorted(a, le);
      TailSorted(b, le);
      SortedUnique(a[1..], b[1..], le);
      assert a == [a[0]] + a[1..] && b == [b[0]] + b[1..];
    }
  }

  // ----- Any stable sort is this one -----

  /** The elements that tie with x, in their order. */
  function Ties<T>(s: seq<T>, x: T, le: (T, T) -> bool): seq<T> {
    if s == [] then []
    else (if le(x, s[0]) && le(s[0], x) then [s[0]] else []) + Ties(s[1..], x, le)
  }

  lemma {:induction false} TiesIn<T>(s: seq<T>, x: T, le: (T, T) -> bool)
    ensures forall y :: y in Ties(s, x, le) <==> y in s && le(x, y) && le(y, x)
    decreases |s|
  {
    if s != [] {
      TiesIn(s[1..], x, le);
      assert s == [s[0]] + s[1..];
    }
  }

  lemma {:induction false} InsertKeepsTies<T(!new)>(x: T, s: seq<T>, y: T, le: (T, T) -> bool)
    requires TotalPreorder(le) && SortedBy(s, le)
    ensures Ties(Insert(x, s, le), y, le) == Ties([x] + s, y, le)
    decreases |s|
  {
    hide SortedBy;
    assert ([x] + s)[1..] == s;
    if s != [] && !le(x, s[0]) {
      var rest := s[1..];
      TailSorted(s, le);
      InsertKeepsTies(x, rest, y, le);
      assert ([x] + rest)[1..] == rest;
      assert Insert(x, s, le)[1..] == Insert(x, rest, le);
    }
  }

  lemma {:induction false} SortKeepsTies<T(!new)>(s: seq<T>, y: T, le: (T, T) -> bool)
    requires TotalPreorder(le)
    ensures Ties(StableSort(s, le), y, le) == Ties(s, y, le)
    decreases |s|
  {
    if s != [] {
      SortKeepsTies(s[1..], y, le);
      SortSorts(s[1..], le);
      InsertKeepsTies(s[0], StableSort(s[1..], le), y, le);
      var all := [s[0]] + StableSort(s[1..], le);
      assert all[1..] == StableSort(s[1..], le);
    }
  }

  ghost predicate SameTies<T(!new)>(a: seq<T>, b: seq<T>, le: (T, T) -> bool) {
    forall x :: Ties(a, x, le) == Ties(b, x, le)
  }

  lemma HeadsTie<T(!new)>(a: seq<T>, b: seq<T>, le: (T, T) -> bool)
    requires TotalPreorder(le) && SortedBy(a, le) && SortedBy(b, le) && a != [] && b != []
    requires SameTies(a, b, le)
    ensures a[0] == b[0]
  {
    TiesIn(a, a[0], le);
    TiesIn(b, a[0], le);
    TiesIn(a, b[0], le);
    TiesIn(b, b[0], le);
    assert Ties(a, a[0], le) == Ties(b, a[0], le);
    assert Ties(a, b[0], le) == Ties(b, b[0], le);
    assert le(a[0], a[0]) && le(b[0], b[0]);
    assert a[0] in Ties(b, a[0], le) && b[0] in Ties(a, b[0], le);
    var i :| 0 <= i < |b| && b[i] == a[0];
    var j :| 0 <= j < |a| && a[j] == b[0];
    assert le(b[0], b[i]) && le(a[0], a[j]);
    assert Ties(a, a[0], le)[0] == a[0] && Ties(b, a[0], le)[0] == b[0];
  }

  lemma TailTies<T(!new)>(a: seq<T>, b: seq<T>, le: (T, T) -> bool)
    requires a != [] && b != [] && a[0] == b[0] && SameTies(a, b, le)
    ensures SameTies(a[1..], b[1..], le)
  {
    forall x
      ensures Ties(a[1..], x, le) == Ties(b[1..], x, le)
    {
      assert Ties(a, x, le) == Ties(b, x, le);
      var head := if le(x, a[0]) && le(a[0], x) then [a[0]] else [];
      assert Ties(a, x, le) == head + Ties(a[1..], x, le);
      assert Ties(b, x, le) == head + Ties(b[1..], x, le);
      assert Ties(a[1..], x, le) == Ties(a, x, le)[|head|..];
      assert Ties(b[1..], x, le) == Ties(b, x, le)[|head|..];
    }
  }

  lemma SameTiesNonempty<T(!new)>(a: seq<T>, b: seq<T>, le: (T, T) -> bool)
    requires TotalPreorder(le) && SameTies(a, b, le) && a != []
    ensures b != []
  {
    assert le(a[0], a[0]);
    assert Ties(a, a[0], le) == Ties(b, a[0], le);
  }

  lemma {:induction false} TiesDecide<T(!new)>(a: seq<T>, b: seq<T>, le: (T, T) -> bool)
    requires TotalPreorder(le) && SortedBy(a, le) && SortedBy(b, le) && SameTies(a, b, le)
    ensures a == b
    decreases |a|
  {
    hide SortedBy, TotalPreorder;
    if a == [] {
      if b != [] {
        SameTiesNonempty(b, a, le);
      }
    } else {
      SameTiesNonempty(a, b, le);
      HeadsTie(a, b, le);
      TailTies(a, b, le);
      TailSorted(a, le);
      TailSorted(b, le);
      TiesDecide(a[1..], b[1..], le);
      assert a == [a[0]] + a[1..] && b == [b[0]] + b[1..];
    }
  }

  /** Sorted, and ties in their old order: that is the stable sort and nothing else. */
  lemma StableSortIsUnique<T(!new)>(s: seq<T>, r: seq<T>, le: (T, T) -> bool)
    requires TotalPreorder(le)
    ensures r == StableSort(s, le) <==> SortedBy(r, le) && SameTies(r, s, le)
  {
    var sorted := StableSort(s, le);
    SortSorts(s, le);
    forall x
      ensures Ties(sorted, x, le) == Ties(s, x, le)
    {
      SortKeepsTies(s, x, le);
    }
    assert SameTies(sorted, s, le);
    if SortedBy(r, le) && SameTies(r, s, le) {
      forall x
        ensures Ties(r, x, le) == Ties(sorted, x, le)
      {
        assert Ties(r, x, le) == Ties(s, x, le);
      }
      TiesDecide(r, sorted, le);
    }
  }
}
