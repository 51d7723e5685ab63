/**
 * Marzullo's interval intersection as the time consensus runs it: collect the
 * two endpoints of every vote, insertion-sort them, sweep for the deepest
 * overlap.
 */
module Marzullo {

  datatype Interval = Interval(lo: int, hi: int)

  // typ is +1 where an interval starts and -1 where it ends.
  datatype Endpoint = Endpoint(val: int, typ: int)

  predicate Covers(v: Interval, x: int) {
    v.lo <= x <= v.hi
  }

  ghost predicate Proper(votes: seq<Interval>) {
    forall i :: 0 <= i < |votes| ==> votes[i].lo <= votes[i].hi
  }

  /** How many votes contain the point x. */
  ghost function Depth(votes: seq<Interval>, x: int): (n: nat)
    ensures n <= |votes|
  {
    if votes == [] then 0
    else
      Depth(votes[..|votes| - 1], x) + if Covers(votes[|votes| - 1], x) then 1 else 0
  }

  function Endpoints(votes: seq<Interval>): (es: seq<Endpoint>)
    ensures |es| == 2 * |votes|
    ensures Signed(es)
  {
    if votes == [] then []
    else
      var v := votes[|votes| - 1];
      Endpoints(votes[..|votes| - 1]) + [Endpoint(v.lo, 1), Endpoint(v.hi, -1)]
  }

  ghost predicate Signed(es: seq<Endpoint>) {
    forall i :: 0 <= i < |es| ==> es[i].typ == 1 || es[i].typ == -1
  }

  // ---- Sorting -----------------------------------------------------------

  /** The order test of the insertion sort: a must move behind e. */
  predicate After(a: Endpoint, e: Endpoint) {
    a.val > e.val || (a.val == e.val && a.typ < e.typ)
  }

  ghost predicate Sorted(es: seq<Endpoint>) {
    forall i, j :: 0 <= i < j < |es| ==> !After(es[i], es[j])
  }

  function Insert(es: seq<Endpoint>, e: Endpoint): (r: seq<Endpoint>)
    ensures |r| == |es| + 1
  {
    if es == [] || !After(es[|es| - 1], e) then es + [e]
    else Insert(es[..|es| - 1], e) + [es[|es| - 1]]
  }

  function Sort(es: seq<Endpoint>): (r: seq<Endpoint>)
    ensures |r| == |es|
  {
    if es == [] then []
    else Insert(Sort(es[..|es| - 1]), es[|es| - 1])
  }

  lemma {:induction false} InsertPermutes(es: seq<Endpoint>, e: Endpoint)
    ensures multiset(Insert(es, e)) == multiset(es) + multiset{e}
  {
    if es != [] && After(es[|es| - 1], e) {
      InsertPermutes(es[..|es| - 1], e);
      assert es == es[..|es| - 1] + [es[|es| - 1]];
    }
  }

  lemma {:induction false} SortPermutes(es: seq<Endpoint>)
    ensures multiset(Sort(es)) == multiset(es)
  {
    if es != [] {
      SortPermutes(es[..|es| - 1]);
      InsertPermutes(Sort(es[..|es| - 1]), es[|es| - 1]);
      assert es == es[..|es| - 1] + [es[|es| - 1]];
    }
  }

  lemma {:induction false} InsertKeepsSorted(es: seq<Endpoint>, e: Endpoint)
    requires Sorted(es)
    ensures Sorted(Insert(es, e))
  {
    if es == [] || !After(es[|es| - 1], e) {
    } else {
      var front, last := es[..|es| - 1], es[|es| - 1];
      InsertKeepsSorted(front, e);
      var r := Insert(front, e);
      forall i | 0 <= i < |r| ensures !After(r[i], last) {
        InsertPermutes(front, e);
        assert r[i] in multiset(r);
        assert r[i] == e || r[i] in front;
      }
    }
  }

  lemma {:induction false} SortSorts(es: seq<Endpoint>)
    ensures Sorted(Sort(es))
  {
    if es != [] {
      SortSorts(es[..|es| - 1]);
      InsertKeepsSorted(Sort(es[..|es| - 1]), es[|es| - 1]);
    }
  }

  // ---- Sweeping ----------------------------------------------------------

  function Sum(es: seq<Endpoint>): int {
    if es == [] then 0 else Sum(es[..|es| - 1]) + es[|es| - 1].typ
  }

  /** The deepest running count over the first k endpoints and where it is first reached. */
  function Best(es: seq<Endpoint>, k: nat): (r: (nat, nat))
    requires k <= |es|
    ensures r.1 <= k && (0 < k ==> r.1 < k)
  {
    if k == 0 then (0, 0)
    else
      var (best, idx) := Best(es, k - 1);
      var cur := Sum(es[..k]);
      if es[k - 1].typ > 0 && cur > best then (cur, k - 1) else (best, idx)
  }

  // Whether the sweep has passed e before it stands on the point x: a start at
  // or below x, or an end strictly below x.
  predicate Passed(e: Endpoint, x: int) {
    if e.typ > 0 then e.val <= x else e.val < x
  }

  ghost function Weight(es: seq<Endpoint>, x: int): int {
    if es == [] then 0
    else Weight(es[..|es| - 1], x) + if Passed(es[|es| - 1], x) then es[|es| - 1].typ else 0
  }

  lemma {:induction false} InsertAdds(es: seq<Endpoint>, e: Endpoint, x: int)
    ensures Weight(Insert(es, e), x) == Weight(es, x) + if Passed(e, x) then e.typ else 0
    ensures Sum(Insert(es, e)) == Sum(es) + e.typ
  {
    if es == [] || !After(es[|es| - 1], e) {
      assert (es + [e])[..|es|] == es;
    } else {
      var front, last := es[..|es| - 1], es[|es| - 1];
      InsertAdds(front, e, x);
      assert (Insert(front, e) + [last])[..|es|] == Insert(front, e);
    }
  }

  lemma {:induction false} SortKeepsTotals(es: seq<Endpoint>, x: int)
    ensures Weight(Sort(es), x) == Weight(es, x)
    ensures Sum(Sort(es)) == Sum(es)
  {
    if es != [] {
      SortKeepsTotals(es[..|es| - 1], x);
      InsertAdds(Sort(es[..|es| - 1]), es[|es| - 1], x);
    }
  }

  lemma {:induction false} EndpointTotals(votes: seq<Interval>, x: int)
    requires Proper(votes)
    ensures Weight(Endpoints(votes), x) == Depth(votes, x)
    ensures Sum(Endpoints(votes)) == 0
  {
    if votes != [] {
      var front, v := votes[..|votes| - 1], votes[|votes| - 1];
      EndpointTotals(front, x);
      var es, mid := Endpoints(votes), Endpoints(front) + [Endpoint(v.lo, 1)];
      assert es[..|es| - 1] == mid && mid[..|mid| - 1] == Endpoints(front);
    }
  }

  /** Once sorted, the endpoints passed at x are a prefix, so the count at x is a running sum. */
  lemma {:induction false} WeightIsRunningSum(es: seq<Endpoint>, x: int) returns (k: nat)
    requires Sorted(es)
    requires Signed(es)
    ensures k <= |es|
    ensures forall i :: 0 <= i < |es| ==> (i < k <==> Passed(es[i], x))
    ensures Weight(es, x) == Sum(es[..k])
  {
    if es == [] {
      k := 0;
    } else {
      var front, last := es[..|es| - 1], es[|es| - 1];
      k := WeightIsRunningSum(front, x);
      if Passed(last, x) {
        assert forall i :: 0 <= i < |front| ==> !After(es[i], last);
        assert forall i :: 0 <= i < |front| ==> Passed(front[i], x);
        assert front != [] ==> Passed(front[|front| - 1], x);
        k := |es|;
        assert es[..k] == es && front[..|front|] == front;
      } else {
        assert es[..k] == front[..k];
      }
    }
  }

  lemma {:induction false} NothingSweptYet(es: seq<Endpoint>)
    ensures Sum(es[..0]) == 0 && Best(es, 0) == (0, 0)
  {
  }

  lemma {:induction false} SweepsOne(es: seq<Endpoint>, i: nat)
    requires i < |es|
    ensures Sum(es[..i + 1]) == Sum(es[..i]) + es[i].typ
    ensures Best(es, i + 1) == if es[i].typ > 0 && Sum(es[..i + 1]) > Best(es, i).0 then (Sum(es[..i + 1]), i) else Best(es, i)
  {
    assert es[..i + 1][..i] == es[..i];
  }

  lemma {:induction false} BestIsDeepest(es: seq<Endpoint>, n: nat)
    requires n <= |es|
    requires Signed(es)
    ensures forall k :: 0 <= k <= n ==> Sum(es[..k]) <= Best(es, n).0
    ensures var (best, idx) := Best(es, n);
            best > 0 ==> idx < n && es[idx].typ == 1 && Sum(es[..idx + 1]) == best
                         && forall k :: 0 <= k <= idx ==> Sum(es[..k]) < best
  {
    hide Sum, Best;
    if n == 0 {
      NothingSweptYet(es);
    } else {
      BestIsDeepest(es, n - 1);
      SweepsOne(es, n - 1);
    }
  }

  // ---- The intersection --------------------------------------------------

  lemma {:induction false} EndFollowsBest(es: seq<Endpoint>, k: nat)
    requires Signed(es) && Sum(es) == 0
    requires k <= |es| && 1 <= Sum(es[..k])
    ensures var (best, idx) := Best(es, |es|);
            && 1 <= best
            && idx + 1 < |es|
            && es[idx].typ == 1
            && es[idx + 1].typ == -1
  {
    BestIsDeepest(es, |es|);
    var (best, idx) := Best(es, |es|);
    assert es[..|es|] == es;
    assert es[..idx + 2][..idx + 1] == es[..idx + 1];
    assert Sum(es[..idx + 2]) == best + es[idx + 1].typ;
  }

  /** What the sweep relies on without checking: the best endpoint is a start, and an end follows it. */
  lemma {:induction false} SweepStopsBeforeAnEnd(votes: seq<Interval>)
    requires Proper(votes) && votes != []
    ensures var es := Sort(Endpoints(votes));
            var (best, idx) := Best(es, |es|);
            && 1 <= best
            && idx + 1 < |es|
            && es[idx].typ == 1
            && es[idx + 1].typ == -1
  {
    var es := Sort(Endpoints(votes));
    SortedTypes(votes);
    SortSorts(Endpoints(votes));
    var x := votes[|votes| - 1].lo;
    EndpointTotals(votes, x);
    SortKeepsTotals(Endpoints(votes), x);
    var k := WeightIsRunningSum(es, x);
    EndFollowsBest(es, k);
  }

  lemma {:induction false} SortedTypes(votes: seq<Interval>)
    ensures Signed(Sort(Endpoints(votes)))
  {
    var es := Sort(Endpoints(votes));
    SortPermutes(Endpoints(votes));
    forall i | 0 <= i < |es| ensures es[i].typ == 1 || es[i].typ == -1 {
      assert es[i] in multiset(es);
      assert es[i] in Endpoints(votes);
    }
  }

  datatype Overlap = Overlap(lo: int, hi: int, count: nat)

  function Intersect(votes: seq<Interval>): (o: Overlap)
    requires Proper(votes) && votes != []
  {
    SweepStopsBeforeAnEnd(votes);
    var es := Sort(Endpoints(votes));
    var (best, idx) := Best(es, |es|);
    Overlap(es[idx].val, es[idx + 1].val, best)
  }

  lemma {:induction false} DepthAt(votes: seq<Interval>, x: int)
    requires Proper(votes) && votes != []
    ensures var o := Intersect(votes);
            && Depth(votes, x) <= o.count
            && (o.lo <= x <= o.hi ==> Depth(votes, x) == o.count)
            && (x < o.lo ==> Depth(votes, x) < o.count)
  {
    SweepStopsBeforeAnEnd(votes);
    SortedTypes(votes);
    SortSorts(Endpoints(votes));
    var es := Sort(Endpoints(votes));
    var (best, idx) := Best(es, |es|);
    BestIsDeepest(es, |es|);
    EndpointTotals(votes, x);
    SortKeepsTotals(Endpoints(votes), x);
    var k := WeightIsRunningSum(es, x);
    assert Passed(es[idx], x) <==> idx < k;
    assert Passed(es[idx + 1], x) <==> idx + 1 < k;
  }

  /**
   * Optimality: the overlap is non-empty, every point of it lies in exactly
   * count votes, no point anywhere lies in more, and no point to its left
   * lies in as many.
   */
  lemma {:induction false} IntersectIsDeepest(votes: seq<Interval>)
    requires Proper(votes) && votes != []
    ensures var o := Intersect(votes);
            && o.lo <= o.hi
            && 1 <= o.count <= |votes|
            && (forall x :: o.lo <= x <= o.hi ==> Depth(votes, x) == o.count)
            && (forall x :: Depth(votes, x) <= o.count)
            && (forall x :: x < o.lo ==> Depth(votes, x) < o.count)
  {
    var o := Intersect(votes);
    IntersectIsOrdered(votes);
    forall x
      ensures Depth(votes, x) <= o.count
      ensures o.lo <= x <= o.hi ==> Depth(votes, x) == o.count
      ensures x < o.lo ==> Depth(votes, x) < o.count
    {
      DepthAt(votes, x);
    }
    assert Depth(votes, o.lo) == o.count;
  }

  lemma {:induction false} IntersectIsOrdered(votes: seq<Interval>)
    requires Proper(votes) && votes != []
    ensures var o := Intersect(votes); o.lo <= o.hi && 1 <= o.count
  {
    SweepStopsBeforeAnEnd(votes);
    SortSorts(Endpoints(votes));
    var es := Sort(Endpoints(votes));
    var idx := Best(es, |es|).1;
    assert !After(es[idx], es[idx + 1]);
  }

  /** Two points covered by more votes than there are share one of them. */
  lemma {:induction false} SharedVote(votes: seq<Interval>, x: int, y: int) returns (i: nat)
    requires Depth(votes, x) + Depth(votes, y) > |votes|
    ensures i < |votes| && Covers(votes[i], x) && Covers(votes[i], y)
  {
    var v := votes[|votes| - 1];
    if Covers(v, x) && Covers(v, y) {
      i := |votes| - 1;
    } else {
      i := SharedVote(votes[..|votes| - 1], x, y);
    }
  }

  // ---- Moving every vote by the same amount --------------------------------

  function Shift(v: Interval, d: int): Interval {
    Interval(v.lo + d, v.hi + d)
  }

  function ShiftAll(votes: seq<Interval>, d: int): (r: seq<Interval>)
    ensures |r| == |votes|
  {
    if votes == [] then []
    else ShiftAll(votes[..|votes| - 1], d) + [Shift(votes[|votes| - 1], d)]
  }

  function Move(es: seq<Endpoint>, d: int): (r: seq<Endpoint>)
    ensures |r| == |es|
  {
    if es == [] then []
    else Move(es[..|es| - 1], d) + [Endpoint(es[|es| - 1].val + d, es[|es| - 1].typ)]
  }

  lemma {:induction false} MoveAppends(es: seq<Endpoint>, e: Endpoint, d: int)
    ensures Move(es + [e], d) == Move(es, d) + [Endpoint(e.val + d, e.typ)]
  {
    assert (es + [e])[..|es|] == es;
  }

  lemma {:induction false} MoveTakes(es: seq<Endpoint>, k: nat, d: int)
    requires k <= |es|
    ensures Move(es, d)[..k] == Move(es[..k], d)
  {
    if k == |es| {
      assert es[..k] == es;
    } else {
      MoveTakes(es[..|es| - 1], k, d);
      assert es[..|es| - 1][..k] == es[..k];
      assert Move(es, d)[..k] == Move(es[..|es| - 1], d)[..k];
    }
  }

  lemma {:induction false} MoveAt(es: seq<Endpoint>, k: nat, d: int)
    requires k < |es|
    ensures Move(es, d)[k] == Endpoint(es[k].val + d, es[k].typ)
  {
    if k < |es| - 1 {
      MoveAt(es[..|es| - 1], k, d);
    }
  }

  lemma {:induction false} ShiftStaysProper(votes: seq<Interval>, d: int)
    requires Proper(votes)
    ensures Proper(ShiftAll(votes, d))
  {
    if votes != [] {
      ShiftStaysProper(votes[..|votes| - 1], d);
    }
  }

  lemma {:induction false} EndpointsMove(votes: seq<Interval>, d: int)
    ensures Endpoints(ShiftAll(votes, d)) == Move(Endpoints(votes), d)
  {
    if votes != [] {
      var front, v := votes[..|votes| - 1], votes[|votes| - 1];
      EndpointsMove(front, d);
      assert ShiftAll(votes, d) == ShiftAll(front, d) + [Shift(v, d)] && votes == front + [v];
      hide Endpoints, ShiftAll, Move;
      EndpointsAppend(front, v);
      EndpointsAppend(ShiftAll(front, d), Shift(v, d));
      MoveAppends(Endpoints(front), Endpoint(v.lo, 1), d);
      MoveAppends(Endpoints(front) + [Endpoint(v.lo, 1)], Endpoint(v.hi, -1), d);
    }
  }

  lemma {:induction false} EndpointsAppend(votes: seq<Interval>, v: Interval)
    ensures Endpoints(votes + [v]) == Endpoints(votes) + [Endpoint(v.lo, 1)] + [Endpoint(v.hi, -1)]
  {
    assert (votes + [v])[..|votes|] == votes;
  }

  lemma {:induction false} InsertsLast(es: seq<Endpoint>, e: Endpoint)
    requires es == [] || !After(es[|es| - 1], e)
    ensures Insert(es, e) == es + [e]
  {
  }

  lemma {:induction false} InsertsBefore(front: seq<Endpoint>, last: Endpoint, e: Endpoint)
    requires After(last, e)
    ensures Insert(front + [last], e) == Insert(front, e) + [last]
  {
    assert (front + [last])[..|front|] == front;
  }

  lemma {:induction false} InsertMoves(es: seq<Endpoint>, e: Endpoint, d: int)
    ensures Insert(Move(es, d), Endpoint(e.val + d, e.typ)) == Move(Insert(es, e), d)
  {
    hide Insert, Move;
    var e' := Endpoint(e.val + d, e.typ);
    if es != [] { MoveAt(es, |es| - 1, d); }
    if es == [] || !After(es[|es| - 1], e) {
      InsertsLast(es, e);
      InsertsLast(Move(es, d), e');
      MoveAppends(es, e, d);
    } else {
      var front, last := es[..|es| - 1], es[|es| - 1];
      InsertMoves(front, e, d);
      MoveAppends(Insert(front, e), last, d);
      MoveAppends(front, last, d);
      assert front + [last] == es;
      InsertsBefore(front, last, e);
      InsertsBefore(Move(front, d), Endpoint(last.val + d, last.typ), e');
    }
  }

  lemma {:induction false} SortMoves(es: seq<Endpoint>, d: int)
    ensures Sort(Move(es, d)) == Move(Sort(es), d)
  {
    hide Insert;
    if es != [] {
      var front, last := es[..|es| - 1], es[|es| - 1];
      var last' := Endpoint(last.val + d, last.typ);
      SortMoves(front, d);
      assert Move(es, d) == Move(front, d) + [last'];
      assert Sort(Move(es, d)) == Insert(Sort(Move(front, d)), last');
      InsertMoves(Sort(front), last, d);
    }
  }

  lemma {:induction false} SumMoves(es: seq<Endpoint>, d: int)
    ensures Sum(Move(es, d)) == Sum(es)
  {
    if es != [] {
      SumMoves(es[..|es| - 1], d);
      assert Move(es, d)[..|es| - 1] == Move(es[..|es| - 1], d);
    }
  }

  lemma {:induction false} BestMoves(es: seq<Endpoint>, k: nat, d: int)
    requires k <= |es|
    ensures Best(Move(es, d), k) == Best(es, k)
  {
    if k > 0 {
      BestMoves(es, k - 1, d);
      SumMoves(es[..k], d);
      MoveTakes(es, k, d);
      MoveAt(es, k - 1, d);
    }
  }

  /** Shifting every vote shifts the overlap and keeps its count. */
  lemma {:induction false} IntersectMoves(votes: seq<Interval>, d: int)
    requires Proper(votes) && votes != []
    ensures Proper(ShiftAll(votes, d))
    ensures var o := Intersect(votes);
            Intersect(ShiftAll(votes, d)) == Overlap(o.lo + d, o.hi + d, o.count)
  {
    hide Sort, Best, Endpoints, ShiftAll, Proper, Move;
    ShiftStaysProper(votes, d);
    EndpointsMove(votes, d);
    SortMoves(Endpoints(votes), d);
    SweepStopsBeforeAnEnd(votes);
    var es := Sort(Endpoints(votes));
    var idx := Best(es, |es|).1;
    BestMoves(es, |es|, d);
    MoveAt(es, idx, d);
    MoveAt(es, idx + 1, d);
  }
}
