/** Traces as lists of span records: the parent relation, its paths and its cycles. */
module TraceModel {
  import opened Options
  import opened Lists

  /** `parent` is empty for a root. */
  datatype SpanData = SpanData(spanId: string, parent: string, serviceName: string, durationMs: int, status: string)

  type Trace = seq<SpanData>

  /** The last span with this id, as a dictionary built from the list has it. */
  function Find(t: Trace, id: string): (r: Option<nat>)
    ensures r.Some? ==> r.value < |t| && t[r.value].spanId == id
    ensures r.Some? ==> forall k :: r.value < k < |t| ==> t[k].spanId != id
    ensures r.None? ==> forall k :: 0 <= k < |t| ==> t[k].spanId != id
  {
    if t == [] then None
    else
      var n := |t| - 1;
      if t[n].spanId == id then Some(n) else Find(t[..n], id)
  }

  function Parent(t: Trace, i: nat): (r: Option<nat>)
    requires i < |t|
    ensures r.Some? ==> r.value < |t|
  {
    if t[i].parent == "" then None else Find(t, t[i].parent)
  }

  predicate Below(s: seq<nat>, n: nat) {
    forall k :: 0 <= k < |s| ==> s[k] < n
  }

  /** The children of span i among the first n spans, in list order. */
  function ChildrenUpTo(t: Trace, i: nat, n: nat): (r: seq<nat>)
    requires n <= |t|
    ensures Below(r, n)
  {
    if n == 0 then []
    else ChildrenUpTo(t, i, n - 1) + (if Parent(t, n - 1) == Some(i) then [n - 1] else [])
  }

  function Children(t: Trace, i: nat): seq<nat> {
    ChildrenUpTo(t, i, |t|)
  }

  /** The last span without a parent id. */
  function RootUpTo(t: Trace, n: nat): Option<nat>
    requires n <= |t|
  {
    if n == 0 then None
    else if t[n - 1].parent == "" then Some(n - 1)
    else RootUpTo(t, n - 1)
  }

  ghost predicate Increasing(s: seq<nat>) {
    forall a, b :: 0 <= a < b < |s| ==> s[a] < s[b]
  }

  lemma {:induction false} ChildrenSpec(t: Trace, i: nat, n: nat)
    requires n <= |t|
    ensures forall c: nat :: c in ChildrenUpTo(t, i, n) <==> c < n && Parent(t, c) == Some(i)
    decreases n
  {
    hide Find, Below;
    if n > 0 {
      ChildrenSpec(t, i, n - 1);
    }
  }

  lemma {:induction false} ChildrenIncrease(t: Trace, i: nat, n: nat)
    requires n <= |t|
    ensures Increasing(ChildrenUpTo(t, i, n))
    decreases n
  {
    hide Parent;
    if n > 0 {
      ChildrenIncrease(t, i, n - 1);
    }
  }

  lemma {:induction false} IncreasingOnce(s: seq<nat>, x: nat)
    requires Increasing(s)
    ensures multiset(s)[x] == (if x in s then 1 else 0)
    decreases |s|
  {
    if s != [] {
      var n := |s| - 1;
      assert s == s[..n] + [s[n]];
      IncreasingOnce(s[..n], x);
    }
  }

  /** Every span with a parent in the trace is the child of that parent, once, and
      of no other span. */
  lemma AttachedOnce(t: Trace, c: nat, i: nat)
    requires c < |t| && i < |t|
    ensures multiset(Children(t, i))[c] == (if Parent(t, c) == Some(i) then 1 else 0)
  {
    ChildrenSpec(t, i, |t|);
    ChildrenIncrease(t, i, |t|);
    IncreasingOnce(Children(t, i), c);
  }

  // ----- Paths down from a root -----

  /** A path from a parentless span, each span the parent of the next. */
  ghost predicate RootPath(t: Trace, path: seq<nat>) {
    && path != []
    && Below(path, |t|)
    && t[path[0]].parent == ""
    && forall k :: 0 < k < |path| ==> Parent(t, path[k]) == Some(path[k - 1])
  }

  /** Below a root there is no way back: no span occurs twice on a path. */
  lemma {:induction false} RootPathDistinct(t: Trace, path: seq<nat>, a: nat, b: nat)
    requires RootPath(t, path) && a < b < |path|
    ensures path[a] != path[b]
    decreases a
  {
    assert Parent(t, path[b]) == Some(path[b - 1]);
    if a > 0 {
      assert Parent(t, path[a]) == Some(path[a - 1]);
      RootPathDistinct(t, path, a - 1, b - 1);
    }
  }

  lemma {:induction false} DistinctBounded(path: seq<nat>, n: nat)
    requires forall k :: 0 <= k < |path| ==> path[k] < n
    requires NoRepeats(path)
    ensures |path| <= n
    decreases n
  {
    if path != [] {
      assert path[0] < n;
      if k :| 0 <= k < |path| && path[k] == n - 1 {
        var rest := path[..k] + path[k + 1..];
        assert forall a :: 0 <= a < |rest| ==> rest[a] == path[if a < k then a else a + 1];
        DistinctBounded(rest, n - 1);
      } else {
        DistinctBounded(path, n - 1);
      }
    }
  }

  /** Paths from a root are no longer than the trace, with or without cycles elsewhere. */
  lemma RootPathBounded(t: Trace, path: seq<nat>)
    requires RootPath(t, path)
    ensures |path| <= |t|
  {
    forall a, b | 0 <= a < b < |path|
      ensures path[a] != path[b]
    {
      RootPathDistinct(t, path, a, b);
    }
    DistinctBounded(path, |t|);
  }

  lemma RootPathExtends(t: Trace, path: seq<nat>, c: nat)
    requires RootPath(t, path) && c in Children(t, path[|path| - 1])
    ensures RootPath(t, path + [c])
    ensures |path| + 1 <= |t|
  {
    ChildrenSpec(t, path[|path| - 1], |t|);
    RootPathBounded(t, path + [c]);
  }

  // ----- The critical path -----

  /** A duration and the spans it comes from. */
  datatype Best = Best(total: int, path: seq<nat>)

  /** The best of the first n children, if it takes more than no time. */
  function BestChild(t: Trace, path: seq<nat>, n: nat): Best
    requires RootPath(t, path) && n <= |Children(t, path[|path| - 1])|
    decreases |t| - |path|, 0, n
  {
    RootPathBounded(t, path);
    if n == 0 then Best(0, [])
    else
      var before := BestChild(t, path, n - 1);
      var c := Children(t, path[|path| - 1])[n - 1];
      RootPathExtends(t, path, c);
      var found := LongestPath(t, path + [c]);
      if found.total > before.total then found else before
  }

  /** The recursion of the analyzer at the last span of `path`. */
  function LongestPath(t: Trace, path: seq<nat>): Best
    requires RootPath(t, path)
    decreases |t| - |path|, 1, 0
  {
    RootPathBounded(t, path);
    var i := path[|path| - 1];
    var children := Children(t, i);
    if children == [] then Best(t[i].durationMs, [i])
    else
      var below := BestChild(t, path, |children|);
      Best(t[i].durationMs + below.total, [i] + below.path)
  }

  /** A path downwards from span i, ending anywhere. */
  ghost predicate DownPath(t: Trace, i: nat, p: seq<nat>) {
    && i < |t| && p != [] && p[0] == i
    && Below(p, |t|)
    && forall k :: 0 < k < |p| ==> Parent(t, p[k]) == Some(p[k - 1])
  }

  function Total(t: Trace, p: seq<nat>): int
    requires Below(p, |t|)
  {
    if p == [] then 0 else t[p[0]].durationMs + Total(t, p[1..])
  }

  /** Nothing, or a downward path that starts at a child of span i and has its total. */
  ghost predicate RealBelow(t: Trace, i: nat, below: Best) {
    if below.path == [] then below.total == 0
    else
      && DownPath(t, below.path[0], below.path)
      && Total(t, below.path) == below.total
      && Parent(t, below.path[0]) == Some(i)
  }

  lemma ChildIsReal(t: Trace, i: nat, c: nat, found: Best)
    requires c in Children(t, i) && DownPath(t, c, found.path) && Total(t, found.path) == found.total
    ensures RealBelow(t, i, found)
  {
    ChildrenSpec(t, i, |t|);
  }

  lemma {:induction false} BestChildIsReal(t: Trace, path: seq<nat>, n: nat)
    requires RootPath(t, path) && n <= |Children(t, path[|path| - 1])|
    ensures RealBelow(t, path[|path| - 1], BestChild(t, path, n))
    decreases |t| - |path|, 0, n
  {
    hide DownPath, LongestPath, Find, Total, ChildrenUpTo;
    RootPathBounded(t, path);
    if n > 0 {
      var i := path[|path| - 1];
      var c := Children(t, i)[n - 1];
      assert c in Children(t, i);
      BestChildIsReal(t, path, n - 1);
      RootPathExtends(t, path, c);
      LongestIsReal(t, path + [c]);
      ChildIsReal(t, i, c, LongestPath(t, path + [c]));
    }
  }

  /** The path found is a downward path and has the total found. */
  lemma {:induction false} LongestIsReal(t: Trace, path: seq<nat>)
    requires RootPath(t, path)
    ensures var best := LongestPath(t, path);
            DownPath(t, path[|path| - 1], best.path) && Total(t, best.path) == best.total
    decreases |t| - |path|, 1, 0
  {
    RootPathBounded(t, path);
    var i := path[|path| - 1];
    var children := Children(t, i);
    if children == [] {
      assert [i][1..] == [];
    } else {
      BestChildIsReal(t, path, |children|);
      var below := BestChild(t, path, |children|);
      assert below.path != [] ==> Parent(t, below.path[0]) == Some(i);
      assert ([i] + below.path)[1..] == below.path;
    }
  }

  /** The best child is no worse than nothing, and than any path through a child. */
  lemma {:induction false} BestChildIsBound(t: Trace, path: seq<nat>, n: nat, k: nat, p: seq<nat>)
    requires RootPath(t, path) && n <= |Children(t, path[|path| - 1])|
    requires k < n ==> DownPath(t, Children(t, path[|path| - 1])[k], p)
    ensures BestChild(t, path, n).total >= 0
    ensures k < n ==> Total(t, p) <= BestChild(t, path, n).total
    decreases |t| - |path|, 0, n
  {
    hide LongestPath, Total, Find, ChildrenUpTo;
    RootPathBounded(t, path);
    if n > 0 {
      BestChildIsBound(t, path, n - 1, k, p);
      var c := Children(t, path[|path| - 1])[n - 1];
      RootPathExtends(t, path, c);
      if k == n - 1 {
        LongestIsBound(t, path + [c], p);
      }
    }
  }

  /** No downward path takes longer. */
  lemma {:induction false} LongestIsBound(t: Trace, path: seq<nat>, p: seq<nat>)
    requires RootPath(t, path) && DownPath(t, path[|path| - 1], p)
    ensures Total(t, p) <= LongestPath(t, path).total
    decreases |t| - |path|, 1, 0
  {
    RootPathBounded(t, path);
    var i := path[|path| - 1];
    var children := Children(t, i);
    ChildrenSpec(t, i, |t|);
    if |p| == 1 {
      assert p[1..] == [];
      if children != [] {
        BestChildIsBound(t, path, |children|, |children|, []);
      }
    } else {
      var rest := p[1..];
      assert rest[0] == p[1] && p[1] in children;
      var k :| 0 <= k < |children| && children[k] == p[1];
      assert forall m :: 0 < m < |rest| ==> rest[m] == p[m + 1] && rest[m - 1] == p[m];
      BestChildIsBound(t, path, |children|, k, rest);
    }
  }

  lemma {:induction false} RootHasNoParent(t: Trace, n: nat)
    requires n <= |t|
    ensures RootUpTo(t, n).Some? ==> RootUpTo(t, n).value < n && t[RootUpTo(t, n).value].parent == ""
    decreases n
  {
    if n > 0 && t[n - 1].parent != "" {
      RootHasNoParent(t, n - 1);
    }
  }

  /** The critical path of a trace: for any durations, unique ids or not, cyclic
      parents or not, it is a downward path from the root with the largest total. */
  lemma CriticalPathIsOptimal(t: Trace, root: nat)
    requires RootUpTo(t, |t|) == Some(root)
    ensures root < |t| && RootPath(t, [root])
    ensures var best := LongestPath(t, [root]);
            && DownPath(t, root, best.path)
            && Total(t, best.path) == best.total
            && forall p :: DownPath(t, root, p) ==> Total(t, p) <= best.total
  {
    RootHasNoParent(t, |t|);
    LongestIsReal(t, [root]);
    forall p | DownPath(t, root, p)
      ensures Total(t, p) <= LongestPath(t, [root]).total
    {
      LongestIsBound(t, [root], p);
    }
  }

  // ----- Climbing to ancestors -----

  /** Where a loop that moves by `step` is after n rounds; None once it has stopped. */
  function Walk(step: nat -> Option<nat>, i: nat, n: nat): Option<nat> {
    if n == 0 then Some(i)
    else
      match Walk(step, i, n - 1)
      case None => None
      case Some(c) => step(c)
  }

  ghost predicate Ends(step: nat -> Option<nat>, i: nat) {
    exists n: nat :: Walk(step, i, n) == None
  }

  lemma {:induction false} WalkPrefix(step: nat -> Option<nat>, i: nat, m: nat, n: nat)
    requires m <= n && Walk(step, i, n).Some?
    ensures Walk(step, i, m).Some?
    decreases n - m
  {
    if m < n {
      WalkPrefix(step, i, m, n - 1);
    }
  }

  lemma {:induction false} WalkShift(step: nat -> Option<nat>, i: nat, a: nat, b: nat, k: nat)
    requires Walk(step, i, a) == Walk(step, i, b)
    ensures Walk(step, i, a + k) == Walk(step, i, b + k)
    decreases k
  {
    if k > 0 {
      WalkShift(step, i, a, b, k - 1);
    }
  }

  lemma {:induction false} RevisitGoesOn(step: nat -> Option<nat>, i: nat, a: nat, b: nat, n: nat)
    requires a < b && Walk(step, i, a).Some? && Walk(step, i, a) == Walk(step, i, b)
    ensures Walk(step, i, n).Some?
    decreases n
  {
    if n <= b {
      WalkPrefix(step, i, n, b);
    } else {
      WalkShift(step, i, a, b, n - b);
      RevisitGoesOn(step, i, a, b, n - (b - a));
    }
  }

  ghost function FirstNone(step: nat -> Option<nat>, i: nat, n: nat): (m: nat)
    requires Walk(step, i, n) == None
    ensures 0 < m <= n && Walk(step, i, m) == None && Walk(step, i, m - 1).Some?
  {
    if Walk(step, i, n - 1) == None then FirstNone(step, i, n - 1) else n
  }

  /** The round in which a loop that ends is told to stop. */
  ghost function Rounds(step: nat -> Option<nat>, i: nat): (n: nat)
    requires Ends(step, i)
    ensures n > 0 && Walk(step, i, n) == None && Walk(step, i, n - 1).Some?
  {
    var n: nat :| Walk(step, i, n) == None;
    FirstNone(step, i, n)
  }

  /** Where a loop that ends stops. */
  ghost function Last(step: nat -> Option<nat>, i: nat): nat
    requires Ends(step, i)
  {
    Walk(step, i, Rounds(step, i) - 1).value
  }

  lemma LastIs(step: nat -> Option<nat>, i: nat, n: nat)
    requires Walk(step, i, n).Some? && step(Walk(step, i, n).value) == None
    ensures Ends(step, i) && Rounds(step, i) == n + 1 && Last(step, i) == Walk(step, i, n).value
  {
    assert Walk(step, i, n + 1) == None;
    var r := Rounds(step, i);
    if r <= n {
      WalkPrefix(step, i, r, n);
    } else if n + 1 <= r - 1 {
      WalkPrefix(step, i, n + 1, r - 1);
    }
  }

  lemma GoesOnBefore(step: nat -> Option<nat>, i: nat, n: nat)
    requires Ends(step, i)
    ensures Walk(step, i, n).Some? <==> n < Rounds(step, i)
  {
    var r := Rounds(step, i);
    if n < r {
      WalkPrefix(step, i, n, r - 1);
    } else if Walk(step, i, n).Some? {
      WalkPrefix(step, i, r, n);
    }
  }

  // The root cause of an error

  /** One round of the root-cause loop: up to the parent, while that is in error. */
  function ErrorParent(t: Trace, i: nat): (r: Option<nat>)
    ensures r.Some? ==> r.value < |t|
  {
    if i < |t| && Parent(t, i).Some? && t[Parent(t, i).value].status == "error" then Parent(t, i) else None
  }

  function ErrorClimb(t: Trace): nat -> Option<nat> {
    (i: nat) => ErrorParent(t, i)
  }

  /** From span i up through consecutive ancestors in error. */
  ghost predicate ErrorChain(t: Trace, chain: seq<nat>, i: nat) {
    && chain != [] && chain[0] == i
    && Below(chain, |t|)
    && forall k :: 0 < k < |chain| ==>
         Parent(t, chain[k - 1]) == Some(chain[k]) && t[chain[k]].status == "error"
  }

  ghost predicate IsRootCause(t: Trace, i: nat, r: nat) {
    && ErrorParent(t, r) == None
    && exists chain :: ErrorChain(t, chain, i) && chain[|chain| - 1] == r
  }

  lemma {:induction false} ChainIsWalk(t: Trace, chain: seq<nat>, i: nat, k: nat)
    requires ErrorChain(t, chain, i) && k < |chain|
    ensures Walk(ErrorClimb(t), i, k) == Some(chain[k])
    decreases k
  {
    hide Find;
    if k > 0 {
      ChainIsWalk(t, chain, i, k - 1);
      assert Parent(t, chain[k - 1]) == Some(chain[k]);
    }
  }

  lemma {:induction false} WalkIsChain(t: Trace, i: nat, n: nat) returns (chain: seq<nat>)
    requires i < |t| && Walk(ErrorClimb(t), i, n).Some?
    ensures ErrorChain(t, chain, i) && |chain| == n + 1 && chain[n] == Walk(ErrorClimb(t), i, n).value
    decreases n
  {
    hide Find, Parent;
    if n == 0 {
      chain := [i];
    } else {
      var before := WalkIsChain(t, i, n - 1);
      var next := Walk(ErrorClimb(t), i, n).value;
      assert ErrorParent(t, before[n - 1]) == Some(next);
      chain := before + [next];
    }
  }

  lemma EndingChainIsSimple(t: Trace, chain: seq<nat>, i: nat)
    requires Ends(ErrorClimb(t), i) && ErrorChain(t, chain, i)
    ensures NoRepeats(chain)
  {
    hide ErrorChain, ErrorParent;
    var n: nat :| Walk(ErrorClimb(t), i, n) == None;
    forall a, b | 0 <= a < b < |chain|
      ensures chain[a] != chain[b]
    {
      ChainIsWalk(t, chain, i, a);
      ChainIsWalk(t, chain, i, b);
      if chain[a] == chain[b] {
        RevisitGoesOn(ErrorClimb(t), i, a, b, n);
      }
    }
  }

  /** For any parents: the root-cause loop ends exactly if no line of consecutive errors
      up from the span comes back to a span it has passed. */
  lemma ErrorClimbEndsExactly(t: Trace, i: nat)
    requires i < |t|
    ensures Ends(ErrorClimb(t), i) <==> forall chain: seq<nat> :: ErrorChain(t, chain, i) ==> NoRepeats(chain)
  {
    hide ErrorParent;
    if Ends(ErrorClimb(t), i) {
      forall chain: seq<nat> | ErrorChain(t, chain, i)
        ensures NoRepeats(chain)
      {
        EndingChainIsSimple(t, chain, i);
      }
    } else {
      var chain := WalkIsChain(t, i, |t|);
      if NoRepeats(chain) {
        DistinctBounded(chain, |t|);
      }
    }
  }

  lemma CauseChain(t: Trace, i: nat, r: nat)
    requires IsRootCause(t, i, r)
    ensures exists chain :: ErrorChain(t, chain, i) && chain != [] && chain[|chain| - 1] == r
  {
  }

  lemma ChainBelow(t: Trace, chain: seq<nat>, i: nat)
    requires ErrorChain(t, chain, i)
    ensures chain != [] && Below(chain, |t|)
  {
  }

  /** Wherever the loop ends, it ends at r exactly when r ends an unbroken line of errors
      that cannot be made longer. */
  lemma TopmostExactly(t: Trace, i: nat, r: nat)
    requires i < |t| && Ends(ErrorClimb(t), i)
    ensures Last(ErrorClimb(t), i) < |t|
    ensures Last(ErrorClimb(t), i) == r <==> IsRootCause(t, i, r)
  {
    hide ErrorParent, ErrorChain, Last;
    var n := Rounds(ErrorClimb(t), i) - 1;
    var chain := WalkIsChain(t, i, n);
    LastIs(ErrorClimb(t), i, n);
    ChainBelow(t, chain, i);
    assert ErrorParent(t, chain[n]) == None;
    if IsRootCause(t, i, r) {
      CauseChain(t, i, r);
      var other :| ErrorChain(t, other, i) && other != [] && other[|other| - 1] == r;
      ChainBelow(t, other, i);
      ChainIsWalk(t, other, i, |other| - 1);
      LastIs(ErrorClimb(t), i, |other| - 1);
    }
  }

  ghost predicate ClimbsEnd(t: Trace, errors: seq<nat>) {
    Below(errors, |t|) && forall e :: e in errors ==> Ends(ErrorClimb(t), e)
  }

  /** The root causes of the first n errors, each once, in the order found. */
  ghost function RootCauses(t: Trace, errors: seq<nat>, n: nat): (r: seq<nat>)
    requires n <= |errors| && ClimbsEnd(t, errors)
    ensures Below(r, |t|)
  {
    if n == 0 then []
    else
      var before := RootCauses(t, errors, n - 1);
      var c := Last(ErrorClimb(t), errors[n - 1]);
      TopmostExactly(t, errors[n - 1], c);
      if c in before then before else before + [c]
  }

  /** The span is the root cause of one of the first n errors. */
  ghost predicate CausesOne(t: Trace, errors: seq<nat>, n: nat, c: nat)
    requires n <= |errors|
  {
    exists k :: 0 <= k < n && IsRootCause(t, errors[k], c)
  }

  /** A span is listed exactly when it is the root cause of some error, so every error
      is represented; and nothing is listed twice. */
  lemma {:induction false} RootCausesSpec(t: Trace, errors: seq<nat>, n: nat)
    requires n <= |errors| && ClimbsEnd(t, errors)
    ensures forall c: nat :: c in RootCauses(t, errors, n) <==> CausesOne(t, errors, n, c)
    ensures NoRepeats(RootCauses(t, errors, n))
    decreases n
  {
    hide IsRootCause, Ends, Last;
    if n > 0 {
      RootCausesSpec(t, errors, n - 1);
      var now, before := RootCauses(t, errors, n), RootCauses(t, errors, n - 1);
      forall c: nat
        ensures c in now <==> CausesOne(t, errors, n, c)
      {
        TopmostExactly(t, errors[n - 1], c);
        assert c in now <==> c in before || c == Last(ErrorClimb(t), errors[n - 1]);
      }
    }
  }

  // The depth of a span

  /** An id is named as parent, but no span has it. */
  predicate LostParent(t: Trace, i: nat)
    requires i < |t|
  {
    t[i].parent != "" && Find(t, t[i].parent).None?
  }

  /** One round of the depth loop, which stays put at a lost parent and stops only
      without a parent id or back where it began. */
  function DepthStep(t: Trace, start: nat, i: nat): (r: Option<nat>)
    ensures r.Some? && i < |t| ==> r.value < |t|
  {
    if i >= |t| || t[i].parent == "" then None
    else
      var next := match Find(t, t[i].parent) case Some(p) => p case None => i;
      if next == start then None else Some(next)
  }

  function DepthClimb(t: Trace, start: nat): nat -> Option<nat> {
    (i: nat) => DepthStep(t, start, i)
  }

  /** From span i up to ancestors, none of them span i again. */
  ghost predicate Ascent(t: Trace, chain: seq<nat>, i: nat) {
    && chain != [] && chain[0] == i
    && Below(chain, |t|)
    && forall k :: 0 < k < |chain| ==> Parent(t, chain[k - 1]) == Some(chain[k]) && chain[k] != i
  }

  /** The way up ends: at a root, back below the span itself, or at once for want of a
      parent; and d is what the loop counts. */
  ghost predicate AscentEnds(t: Trace, chain: seq<nat>, i: nat, d: nat) {
    Ascent(t, chain, i) &&
    var top := chain[|chain| - 1];
    || (t[top].parent == "" && d == |chain| - 1)
    || (Parent(t, top) == Some(i) && d == |chain|)
    || (top == i && LostParent(t, i) && d == |chain|)
  }

  ghost predicate IsDepth(t: Trace, i: nat, d: nat) {
    exists chain :: AscentEnds(t, chain, i, d)
  }

  /** What the loop has counted when it stops at span i. */
  ghost function Counted(t: Trace, start: nat): nat
    requires Ends(DepthClimb(t, start), start)
  {
    var n, last := Rounds(DepthClimb(t, start), start), Last(DepthClimb(t, start), start);
    if last < |t| && t[last].parent == "" then n - 1 else n
  }

  lemma {:induction false} AscentIsWalk(t: Trace, chain: seq<nat>, i: nat, k: nat)
    requires Ascent(t, chain, i) && k < |chain|
    ensures Walk(DepthClimb(t, i), i, k) == Some(chain[k])
    decreases k
  {
    hide Find;
    if k > 0 {
      AscentIsWalk(t, chain, i, k - 1);
      assert Parent(t, chain[k - 1]) == Some(chain[k]);
    }
  }

  lemma WalkUnfolds(step: nat -> Option<nat>, i: nat, n: nat)
    ensures Walk(step, i, n) ==
              if n == 0 then Some(i)
              else match Walk(step, i, n - 1) case None => None case Some(c) => step(c)
  {
  }

  /** A climb that ends has passed no lost parent. */
  lemma {:induction false} WalkIsAscent(t: Trace, i: nat, n: nat) returns (chain: seq<nat>)
    requires i < |t| && Ends(DepthClimb(t, i), i) && n < Rounds(DepthClimb(t, i), i)
    ensures Ascent(t, chain, i) && |chain| == n + 1 && Walk(DepthClimb(t, i), i, n) == Some(chain[n])
    decreases n
  {
    hide Find, Rounds, Walk;
    var step := DepthClimb(t, i);
    WalkUnfolds(step, i, n);
    if n == 0 {
      chain := [i];
    } else {
      var before := WalkIsAscent(t, i, n - 1);
      GoesOnBefore(step, i, n);
      var next := Walk(step, i, n).value;
      assert DepthStep(t, i, before[n - 1]) == Some(next);
      if LostParent(t, before[n - 1]) {
        RevisitGoesOn(step, i, n - 1, n, Rounds(step, i));
      }
      chain := before + [next];
    }
  }

  lemma AscentStops(t: Trace, chain: seq<nat>, i: nat, d: nat)
    requires AscentEnds(t, chain, i, d)
    ensures Ends(DepthClimb(t, i), i) && Counted(t, i) == d
  {
    hide Find, Rounds, Last;
    AscentIsWalk(t, chain, i, |chain| - 1);
    LastIs(DepthClimb(t, i), i, |chain| - 1);
  }

  lemma StopIsAscent(t: Trace, i: nat)
    requires i < |t| && Ends(DepthClimb(t, i), i)
    ensures IsDepth(t, i, Counted(t, i))
  {
    hide Find, Rounds, Last;
    var step := DepthClimb(t, i);
    var n := Rounds(step, i) - 1;
    var chain := WalkIsAscent(t, i, n);
    assert DepthStep(t, i, chain[n]) == None by {
      WalkUnfolds(step, i, n + 1);
    }
    LastIs(step, i, n);
    assert AscentEnds(t, chain, i, Counted(t, i));
  }

  /** For any parents: the depth loop ends exactly if some way up from the span ends at a
      root, comes back to the span, or has nowhere to go at once; and it counts its steps. */
  lemma DepthExactly(t: Trace, i: nat, d: nat)
    requires i < |t|
    ensures IsDepth(t, i, d) <==> Ends(DepthClimb(t, i), i) && Counted(t, i) == d
  {
    hide AscentEnds, Counted, Ends;
    if IsDepth(t, i, d) {
      var chain :| AscentEnds(t, chain, i, d);
      AscentStops(t, chain, i, d);
    }
    if Ends(DepthClimb(t, i), i) {
      StopIsAscent(t, i);
    }
  }

  // ----- Traces without cycles -----

  /** The parent relation has no cycle: ranks grow from parent to child. */
  ghost predicate RankedBy(t: Trace, rank: seq<nat>) {
    && |rank| == |t|
    && forall i: nat :: i < |t| && Parent(t, i).Some? ==> rank[Parent(t, i).value] < rank[i]
  }

  lemma {:induction false} RanksFall(t: Trace, rank: seq<nat>, chain: seq<nat>, i: nat, a: nat, b: nat)
    requires RankedBy(t, rank) && ErrorChain(t, chain, i) && a < b < |chain|
    ensures rank[chain[b]] < rank[chain[a]]
    decreases b
  {
    hide Find;
    assert Parent(t, chain[b - 1]) == Some(chain[b]);
    if a < b - 1 {
      RanksFall(t, rank, chain, i, a, b - 1);
    }
  }

  /** Without cycles the root-cause loop always ends. */
  lemma {:induction false} AcyclicErrorClimbEnds(t: Trace, rank: seq<nat>, i: nat)
    requires RankedBy(t, rank) && i < |t|
    ensures Ends(ErrorClimb(t), i)
  {
    hide ErrorParent, Ends, RankedBy;
    forall chain: seq<nat> | ErrorChain(t, chain, i)
      ensures NoRepeats(chain)
    {
      forall a, b | 0 <= a < b < |chain|
        ensures chain[a] != chain[b]
      {
        RanksFall(t, rank, chain, i, a, b);
      }
    }
    ErrorClimbEndsExactly(t, i);
  }

  /** The span and its ancestors, as far as the trace has them. */
  function Ancestry(t: Trace, ghost rank: seq<nat>, i: nat): (r: seq<nat>)
    requires RankedBy(t, rank) && i < |t|
    ensures r != [] && r[0] == i && Below(r, |t|)
    decreases rank[i]
  {
    match Parent(t, i)
    case None => [i]
    case Some(p) => [i] + Ancestry(t, rank, p)
  }

  lemma {:induction false} AncestrySpec(t: Trace, rank: seq<nat>, i: nat)
    requires RankedBy(t, rank) && i < |t|
    ensures var a := Ancestry(t, rank, i);
            && Parent(t, a[|a| - 1]) == None
            && (forall k :: 0 < k < |a| ==> Parent(t, a[k - 1]) == Some(a[k]) && rank[a[k]] < rank[i])
    decreases rank[i]
  {
    if Parent(t, i).Some? {
      AncestrySpec(t, rank, Parent(t, i).value);
    }
  }

  /** No ancestor of span i, other than the span itself, has lost its parent. */
  ghost predicate AncestorsComplete(t: Trace, rank: seq<nat>, i: nat)
    requires RankedBy(t, rank) && i < |t|
  {
    forall a :: a in Ancestry(t, rank, i)[1..] ==> !LostParent(t, a)
  }

  lemma NotLostBelow(t: Trace, a: seq<nat>, k: nat)
    requires k < |a| && Below(a, |t|) && forall m :: 0 < m < |a| ==> Parent(t, a[m - 1]) == Some(a[m])
    ensures LostParent(t, a[k]) ==> k == |a| - 1
  {
    if k < |a| - 1 {
      assert Parent(t, a[(k + 1) - 1]) == Some(a[k + 1]);
    }
  }

  /** Only the last ancestor can have lost its parent. */
  lemma OnlyTopLosesParent(t: Trace, rank: seq<nat>, i: nat)
    requires RankedBy(t, rank) && i < |t|
    ensures var a := Ancestry(t, rank, i);
            AncestorsComplete(t, rank, i) <==> |a| == 1 || !LostParent(t, a[|a| - 1])
  {
    hide RankedBy, Ancestry, Find;
    AncestrySpec(t, rank, i);
    var a := Ancestry(t, rank, i);
    if |a| > 1 {
      assert a[1..][|a| - 2] == a[|a| - 1];
      forall x | x in a[1..] && LostParent(t, x)
        ensures x == a[|a| - 1]
      {
        var k :| 0 <= k < |a[1..]| && a[1..][k] == x;
        NotLostBelow(t, a, k + 1);
      }
    }
  }

  lemma AncestryIsAscent(t: Trace, rank: seq<nat>, i: nat)
    requires RankedBy(t, rank) && i < |t|
    ensures Ascent(t, Ancestry(t, rank, i), i) && Parent(t, Ancestry(t, rank, i)[|Ancestry(t, rank, i)| - 1]) == None
  {
    hide Ancestry, Parent, RankedBy;
    AncestrySpec(t, rank, i);
  }

  lemma TopOfAscent(t: Trace, rank: seq<nat>, i: nat)
    requires RankedBy(t, rank) && i < |t|
    requires var a := Ancestry(t, rank, i); |a| == 1 || !LostParent(t, a[|a| - 1])
    ensures Ends(DepthClimb(t, i), i)
    ensures Counted(t, i) == if LostParent(t, i) then 1 else |Ancestry(t, rank, i)| - 1
  {
    hide Ancestry, RankedBy, Ends, Counted, Ascent, Find;
    var a := Ancestry(t, rank, i);
    AncestryIsAscent(t, rank, i);
    AncestrySpec(t, rank, i);
    NotLostBelow(t, a, 0);
    AscentStops(t, a, i, if LostParent(t, i) then 1 else |a| - 1);
  }

  /** At a lost parent above the span the loop moves no more. */
  lemma StuckForEver(t: Trace, i: nat, chain: seq<nat>)
    requires Ascent(t, chain, i) && |chain| > 1 && LostParent(t, chain[|chain| - 1])
    ensures !Ends(DepthClimb(t, i), i)
  {
    var step, top := DepthClimb(t, i), |chain| - 1;
    AscentIsWalk(t, chain, i, top);
    assert step(chain[top]) == Some(chain[top]);
    assert Walk(step, i, top + 1) == Some(chain[top]);
    forall n: nat
      ensures Walk(step, i, n).Some?
    {
      RevisitGoesOn(step, i, top, top + 1, n);
    }
  }

  /** Without cycles the depth loop ends exactly if no proper ancestor has lost its parent,
      and counts the ancestors, or 1 for a span that has itself lost its parent. */
  lemma AcyclicDepth(t: Trace, rank: seq<nat>, i: nat)
    requires RankedBy(t, rank) && i < |t|
    ensures Ends(DepthClimb(t, i), i) <==> AncestorsComplete(t, rank, i)
    ensures AncestorsComplete(t, rank, i) ==>
              Counted(t, i) == if LostParent(t, i) then 1 else |Ancestry(t, rank, i)| - 1
  {
    hide RankedBy, Ancestry, Ends, Counted, AncestorsComplete;
    var a := Ancestry(t, rank, i);
    AncestryIsAscent(t, rank, i);
    OnlyTopLosesParent(t, rank, i);
    if |a| > 1 && LostParent(t, a[|a| - 1]) {
      StuckForEver(t, i, a);
    } else {
      TopOfAscent(t, rank, i);
    }
  }

  /** The depth of a child whose parent names a missing span is never found. */
  lemma DepthLoopsForEver(parent: SpanData, child: SpanData)
    requires child.parent == parent.spanId != "" && parent.parent != ""
    requires child.spanId != parent.spanId && parent.parent !in {parent.spanId, child.spanId}
    ensures !Ends(DepthClimb([parent, child], 1), 1)
  {
    var t := [parent, child];
    assert t[..1] == [parent] && t[..1][..0] == [];
    assert Parent(t, 1) == Some(0) && LostParent(t, 0);
    assert Ascent(t, [1, 0], 1);
    StuckForEver(t, 1, [1, 0]);
  }
}

/** The analyzer on span objects. */
module TraceAnalyzer {
  import opened Options
  import opened TraceModel

  class Span {
    const spanId: string
    const parentSpanId: string
    const serviceName: string
    const durationMs: int
    const status: string
    var children: seq<Span>

    constructor (spanId: string, parentSpanId: string, serviceName: string, durationMs: int, status: string)
      ensures Data() == SpanData(spanId, parentSpanId, serviceName, durationMs, status) && children == []
    {
      this.spanId, this.parentSpanId, this.serviceName := spanId, parentSpanId, serviceName;
      this.durationMs, this.status, this.children := durationMs, status, [];
    }

    function Data(): SpanData {
      SpanData(spanId, parentSpanId, serviceName, durationMs, status)
    }
  }

  function Records(spans: seq<Span>): (t: Trace)
    ensures |t| == |spans|
    ensures forall i :: 0 <= i < |t| ==> t[i] == spans[i].Data()
  {
    seq(|spans|, i requires 0 <= i < |spans| => spans[i].Data())
  }

  /** The spans at these positions. */
  function Pick(spans: seq<Span>, at: seq<nat>): (r: seq<Span>)
    requires Below(at, |spans|)
    ensures |r| == |at| && forall k :: 0 <= k < |at| ==> r[k] == spans[at[k]]
  {
    seq(|at|, k requires 0 <= k < |at| => spans[at[k]])
  }

  ghost predicate Separate(spans: seq<Span>) {
    forall i, j :: 0 <= i < j < |spans| ==> spans[i] != spans[j]
  }

  ghost predicate IsMapById(spans: seq<Span>, byId: map<string, Span>) {
    && (forall id :: id in byId <==> Find(Records(spans), id).Some?)
    && (forall id :: id in byId ==> byId[id] == spans[Find(Records(spans), id).value])
  }

  method MapById(spans: seq<Span>) returns (byId: map<string, Span>)
    ensures IsMapById(spans, byId)
  {
    byId := map[];
    ghost var t := Records(spans);
    for n := 0 to |spans|
      invariant forall id :: id in byId <==> Find(t[..n], id).Some?
      invariant forall id :: id in byId ==> byId[id] == spans[Find(t[..n], id).value]
    {
      assert t[..n + 1][..n] == t[..n] && t[..n + 1][n] == spans[n].Data();
      byId := byId[spans[n].spanId := spans[n]];
    }
    assert t[..|spans|] == t;
  }

  /** The children of each span found among the first n spans. */
  ghost function Kids(spans: seq<Span>, n: nat): (r: seq<seq<Span>>)
    requires n <= |spans|
    ensures |r| == |spans|
  {
    seq(|spans|, i requires 0 <= i < |spans| => Pick(spans, ChildrenUpTo(Records(spans), i, n)))
  }

  ghost predicate LinkedUpTo(spans: seq<Span>, n: nat)
    requires n <= |spans|
    reads spans
  {
    forall i :: 0 <= i < |spans| ==> spans[i].children == Kids(spans, n)[i]
  }

  lemma NextChild(spans: seq<Span>, i: nat, n: nat)
    requires i < |spans| && n < |spans|
    ensures Pick(spans, ChildrenUpTo(Records(spans), i, n + 1))
         == Pick(spans, ChildrenUpTo(Records(spans), i, n))
            + (if Parent(Records(spans), n) == Some(i) then [spans[n]] else [])
  {
  }

  lemma NextKids(spans: seq<Span>, n: nat)
    requires n < |spans|
    ensures var kids := Kids(spans, n);
            Kids(spans, n + 1) ==
              match Parent(Records(spans), n)
              case None => kids
              case Some(p) => kids[p := kids[p] + [spans[n]]]
  {
    hide Find, ChildrenUpTo, Pick;
    var kids, parent := Kids(spans, n), Parent(Records(spans), n);
    var next := if parent.Some? then kids[parent.value := kids[parent.value] + [spans[n]]] else kids;
    forall i: nat | i < |spans|
      ensures Kids(spans, n + 1)[i] == next[i]
    {
      NextChild(spans, i, n);
    }
    assert Kids(spans, n + 1) == next;
  }

  ghost predicate IsRoot(spans: seq<Span>, n: nat, root: Span?)
    requires n <= |spans|
  {
    match RootUpTo(Records(spans), n)
    case None => root == null
    case Some(r) => r < |spans| && root == spans[r]
  }

  lemma NextRoot(spans: seq<Span>, n: nat, root: Span?)
    requires n < |spans| && IsRoot(spans, n, root)
    ensures IsRoot(spans, n + 1, if spans[n].parentSpanId == "" then spans[n] else root)
  {
  }

  lemma NothingLinked(spans: seq<Span>)
    requires forall i :: 0 <= i < |spans| ==> spans[i].children == []
    ensures LinkedUpTo(spans, 0) && IsRoot(spans, 0, null)
  {
  }

  /** Each span is appended to its parent, and the last span without a parent is the root. */
  method BuildSpanTree(spans: seq<Span>) returns (root: Span?)
    requires Separate(spans)
    requires forall i :: 0 <= i < |spans| ==> spans[i].children == []
    modifies spans
    ensures LinkedUpTo(spans, |spans|)
    ensures IsRoot(spans, |spans|, root)
  {
    hide Kids, Find, RootUpTo;
    var byId := MapById(spans);
    ghost var t := Records(spans);
    root := null;
    NothingLinked(spans);
    for n := 0 to |spans|
      invariant LinkedUpTo(spans, n)
      invariant IsRoot(spans, n, root)
    {
      var span := spans[n];
      NextKids(spans, n);
      NextRoot(spans, n, root);
      if span.parentSpanId != "" {
        if span.parentSpanId in byId {
          var parent := byId[span.parentSpanId];
          assert Parent(t, n) == Find(t, span.parentSpanId);
          parent.children := parent.children + [span];
        }
      } else {
        root := span;
      }
    }
  }

  function Names(t: Trace, path: seq<nat>): (r: seq<string>)
    requires Below(path, |t|)
    ensures |r| == |path| && forall k :: 0 <= k < |path| ==> r[k] == t[path[k]].serviceName
  {
    seq(|path|, k requires 0 <= k < |path| => t[path[k]].serviceName)
  }

  ghost predicate Found(t: Trace, best: Best, duration: int, services: seq<string>) {
    && Below(best.path, |t|)
    && duration == best.total
    && services == Names(t, best.path)
  }

  lemma NoChildYet(t: Trace, above: seq<nat>)
    requires RootPath(t, above)
    ensures Found(t, BestChild(t, above, 0), 0, [])
  {
    hide LongestPath;
  }

  lemma BestChildStep(t: Trace, above: seq<nat>, n: nat, d: int, names: seq<string>, best: int, bestNames: seq<string>)
    requires RootPath(t, above) && n < |Children(t, above[|above| - 1])|
    requires RootPath(t, above + [Children(t, above[|above| - 1])[n]])
    requires Found(t, LongestPath(t, above + [Children(t, above[|above| - 1])[n]]), d, names)
    requires Found(t, BestChild(t, above, n), best, bestNames)
    ensures Found(t, BestChild(t, above, n + 1), if d > best then d else best, if d > best then names else bestNames)
  {
    hide LongestPath;
  }

  lemma LongestUnfolds(t: Trace, above: seq<nat>, duration: int, services: seq<string>)
    requires RootPath(t, above)
    ensures var i := above[|above| - 1];
            && (Children(t, i) == [] ==> Found(t, LongestPath(t, above), t[i].durationMs, [t[i].serviceName]))
            && (Found(t, BestChild(t, above, |Children(t, i)|), duration, services) && Children(t, i) != [] ==>
                  Found(t, LongestPath(t, above), t[i].durationMs + duration, [t[i].serviceName] + services))
  {
    hide BestChild;
    if Children(t, above[|above| - 1]) == [] {
      assert Names(t, [above[|above| - 1]]) == [t[above[|above| - 1]].serviceName];
    }
  }

  /** The recursion on objects finds the longest path of the records. `above` is the way
      down from the root to this span. */
  method FindLongestPath(span: Span, ghost spans: seq<Span>, ghost above: seq<nat>)
    returns (duration: int, services: seq<string>)
    requires LinkedUpTo(spans, |spans|) && RootPath(Records(spans), above) && span == spans[above[|above| - 1]]
    ensures Found(Records(spans), LongestPath(Records(spans), above), duration, services)
    decreases |spans| - |above|
  {
    hide LongestPath, BestChild, Found, ChildrenUpTo, Parent;
    ghost var t := Records(spans);
    ghost var i := above[|above| - 1];
    ghost var at := Children(t, i);
    assert span.children == Kids(spans, |spans|)[i] == Pick(spans, at);
    LongestUnfolds(t, above, 0, []);
    RootPathBounded(t, above);
    if |span.children| == 0 {
      return span.durationMs, [span.serviceName];
    }
    var maxDuration, maxPath := 0, [];
    NoChildYet(t, above);
    for n := 0 to |span.children|
      invariant Found(t, BestChild(t, above, n), maxDuration, maxPath)
    {
      var child := span.children[n];
      RootPathExtends(t, above, at[n]);
      var childDuration, childPath := FindLongestPath(child, spans, above + [at[n]]);
      BestChildStep(t, above, n, childDuration, childPath, maxDuration, maxPath);
      if childDuration > maxDuration {
        maxDuration, maxPath := childDuration, childPath;
      }
    }
    LongestUnfolds(t, above, maxDuration, maxPath);
    duration := span.durationMs + maxDuration;
    services := [span.serviceName] + maxPath;
  }

  ghost predicate IsLongest(t: Trace, root: nat, path: seq<nat>) {
    DownPath(t, root, path) && forall p :: DownPath(t, root, p) ==> Total(t, p) <= Total(t, path)
  }

  /** The services of a downward path from the root that takes longest; none without a root. */
  method FindCriticalPath(root: Span?, ghost spans: seq<Span>) returns (services: seq<string>)
    requires LinkedUpTo(spans, |spans|)
    requires IsRoot(spans, |spans|, root)
    ensures root == null ==> services == []
    ensures root != null ==>
              exists path: seq<nat> ::
                && IsLongest(Records(spans), RootUpTo(Records(spans), |spans|).value, path)
                && services == Names(Records(spans), path)
  {
    if root == null {
      return [];
    }
    ghost var t := Records(spans);
    ghost var r := RootUpTo(t, |spans|).value;
    CriticalPathIsOptimal(t, r);
    var duration;
    duration, services := FindLongestPath(root, spans, [r]);
    assert IsLongest(t, r, LongestPath(t, [r]).path);
  }

  // ----- Climbs -----

  /** Up from an error while the parent is in error too. */
  method ClimbErrors(error: Span, byId: map<string, Span>, ghost spans: seq<Span>, ghost at: nat)
    returns (current: Span)
    requires IsMapById(spans, byId) && at < |spans| && error == spans[at]
    requires Ends(ErrorClimb(Records(spans)), at)
    ensures Last(ErrorClimb(Records(spans)), at) < |spans|
    ensures current == spans[Last(ErrorClimb(Records(spans)), at)]
  {
    hide Last, Rounds, Find, Walk;
    ghost var t := Records(spans);
    ghost var step := ErrorClimb(t);
    ghost var n := 0;
    ghost var c: nat := at;
    WalkUnfolds(step, at, 0);
    current := error;
    while current.parentSpanId != ""
      invariant c < |spans| && current == spans[c] && Walk(step, at, n) == Some(c)
      decreases Rounds(step, at) - n
    {
      if current.parentSpanId in byId && byId[current.parentSpanId].status == "error" {
        ghost var p := Find(t, current.parentSpanId).value;
        assert ErrorParent(t, c) == Some(p);
        WalkUnfolds(step, at, n + 1);
        GoesOnBefore(step, at, n + 1);
        n, c := n + 1, p;
        current := byId[current.parentSpanId];
      } else {
        break;
      }
    }
    assert ErrorParent(t, c) == None;
    LastIs(step, at, n);
  }

  lemma PickedExactly(spans: seq<Span>, at: seq<nat>, c: nat)
    requires Separate(spans) && Below(at, |spans|) && c < |spans|
    ensures spans[c] in Pick(spans, at) <==> c in at
  {
    if c in at {
      var k :| 0 <= k < |at| && at[k] == c;
      assert Pick(spans, at)[k] == spans[c];
    }
  }

  /** Each error is climbed to the topmost ancestor in an unbroken line of errors. */
  method FindRootCauses(spans: seq<Span>, errors: seq<Span>, ghost at: seq<nat>) returns (causes: seq<Span>)
    requires Separate(spans) && ClimbsEnd(Records(spans), at) && errors == Pick(spans, at)
    ensures causes == Pick(spans, RootCauses(Records(spans), at, |at|))
  {
    hide Last, Ends;
    ghost var t := Records(spans);
    causes := [];
    if |errors| == 0 {
      return;
    }
    var byId := MapById(spans);
    for n := 0 to |errors|
      invariant causes == Pick(spans, RootCauses(t, at, n))
    {
      var current := ClimbErrors(errors[n], byId, spans, at[n]);
      PickedExactly(spans, RootCauses(t, at, n), Last(ErrorClimb(t), at[n]));
      if current !in causes {
        causes := causes + [current];
      }
    }
  }

  /** The depth of a span for which the loop ends; DepthExactly says what it is and for
      which spans there is one. */
  method GetSpanDepth(span: Span, byId: map<string, Span>, ghost spans: seq<Span>, ghost at: nat) returns (depth: nat)
    requires Separate(spans) && IsMapById(spans, byId) && at < |spans| && span == spans[at]
    requires Ends(DepthClimb(Records(spans), at), at)
    ensures depth == Counted(Records(spans), at) && IsDepth(Records(spans), at, depth)
  {
    hide Last, Rounds, Find, Walk, Ends, IsDepth;
    ghost var t := Records(spans);
    ghost var step := DepthClimb(t, at);
    ghost var c: nat := at;
    WalkUnfolds(step, at, 0);
    DepthExactly(t, at, Counted(t, at));
    depth := 0;
    var current := span;
    while current.parentSpanId != ""
      invariant c < |spans| && current == spans[c] && Walk(step, at, depth) == Some(c)
      decreases Rounds(step, at) - depth
    {
      ghost var next := match Find(t, current.parentSpanId) case Some(p) => p case None => c;
      assert DepthStep(t, at, c) == if next == at then None else Some(next);
      WalkUnfolds(step, at, depth + 1);
      GoesOnBefore(step, at, depth);
      ghost var round := depth;
      depth := depth + 1;
      current := if current.parentSpanId in byId then byId[current.parentSpanId] else current;
      if current == span {
        LastIs(step, at, round);
        return;
      }
      GoesOnBefore(step, at, depth);
      c := next;
    }
    LastIs(step, at, depth);
  }
}
