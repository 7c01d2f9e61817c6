/** A value that may be absent. */
module Options {
  datatype Option<+T> = None | Some(value: T)
}

/** Lists without repetitions, and removing an element from one. */
module Lists {

  ghost predicate NoRepeats<T>(s: seq<T>) {
    forall i, j :: 0 <= i < j < |s| ==> s[i] != s[j]
  }

  /** The first list or text if it has anything, else the second. */
  function Or<T(==)>(first: seq<T>, second: seq<T>): seq<T> {
    if first != [] then first else second
  }

  /** All elements but this one, in their order. */
  function Without<T(==)>(s: seq<T>, x: T): seq<T> {
    if s == [] then []
    else if s[0] == x then Without(s[1..], x)
    else [s[0]] + Without(s[1..], x)
  }

  lemma {:induction false} WithoutSpec<T>(s: seq<T>, x: T)
    ensures forall y :: y in Without(s, x) ==> y in s && y != x
    ensures forall y :: y in s && y != x ==> y in Without(s, x)
    ensures NoRepeats(s) ==> NoRepeats(Without(s, x))
    ensures x !in s ==> Without(s, x) == s
    ensures x in s ==> |Without(s, x)| < |s|
    ensures |Without(s, x)| <= |s|
    decreases |s|
  {
    if s != [] {
      var rest := s[1..];
      WithoutSpec(rest, x);
      assert s == [s[0]] + rest;
      if NoRepeats(s) {
        assert forall k :: 0 <= k < |rest| ==> rest[k] == s[k + 1];
        assert s[0] !in rest;
      }
    }
  }

  lemma {:induction false} WithoutSplits<T>(a: seq<T>, b: seq<T>, x: T)
    ensures Without(a + b, x) == Without(a, x) + Without(b, x)
    decreases |a|
  {
    if a == [] {
      assert a + b == b;
    } else {
      assert (a + b)[1..] == a[1..] + b;
      WithoutSplits(a[1..], b, x);
    }
  }

  lemma {:induction false} WithoutOnce<T>(s: seq<T>, x: T)
    requires NoRepeats(s) && x in s
    ensures |Without(s, x)| == |s| - 1
    decreases |s|
  {
    var rest := s[1..];
    assert s == [s[0]] + rest;
    assert forall k :: 0 <= k < |rest| ==> rest[k] == s[k + 1];
    if s[0] == x {
      WithoutSpec(rest, x);
    } else {
      WithoutOnce(rest, x);
    }
  }

  function Members<T>(s: seq<T>): set<T> {
    set x | x in s
  }

  lemma {:induction false} MembersSize<T>(s: seq<T>)
    requires NoRepeats(s)
    ensures |Members(s)| == |s|
    decreases |s|
  {
    if s != [] {
      var rest := s[1..];
      assert forall k :: 0 <= k < |rest| ==> rest[k] == s[k + 1];
      MembersSize(rest);
      assert s[0] !in rest;
      assert Members(s) == {s[0]} + Members(rest);
    }
  }

  lemma {:induction false} SubsetSize<T>(a: set<T>, b: set<T>)
    requires a <= b
    ensures |a| <= |b|
    decreases a
  {
    if a != {} {
      var x :| x in a;
      SubsetSize(a - {x}, b - {x});
    }
  }
}
