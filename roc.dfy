/** Specification of the ROC curve: the points of a curve, the stable
    ascending sort by false-alarm rate that orders them, and the composite
    trapezoidal rule that integrates them. */
module Roc {

  /** One point of the curve: x is the false-alarm rate, y the hit rate. */
  datatype RocPoint = RocPoint(fa: real, hit: real)

  /** Non-decreasing in the false-alarm rate. */
  predicate SortedByFa(s: seq<RocPoint>)
  {
    forall i, j :: 0 <= i < j < |s| ==> s[i].fa <= s[j].fa
  }

  /** The points of s whose false-alarm rate is k, in their order in s.
      A sort is stable when it leaves every such subsequence unchanged. */
  function WithFa(s: seq<RocPoint>, k: real): seq<RocPoint>
  {
    if s == [] then []
    else WithFa(s[..|s| - 1], k) + (if s[|s| - 1].fa == k then [s[|s| - 1]] else [])
  }

  /** Insertion of x into s as an insertion sort does it: walk left from the
      end of s past every point with a strictly larger false-alarm rate, so
      that x lands after all points whose rate equals its own. */
  function InsertByFa(s: seq<RocPoint>, x: RocPoint): seq<RocPoint>
  {
    if s == [] || s[|s| - 1].fa <= x.fa then s + [x]
    else InsertByFa(s[..|s| - 1], x) + [s[|s| - 1]]
  }

  /** Stable ascending sort by false-alarm rate: insert the points one after
      the other, in their order in s. */
  function SortByFa(s: seq<RocPoint>): seq<RocPoint>
  {
    if s == [] then [] else InsertByFa(SortByFa(s[..|s| - 1]), s[|s| - 1])
  }

  /** Where the insertion walk stops: if the points of s from index j on all
      have a rate strictly larger than x's and the point before j does not,
      x is inserted at index j. */
  lemma {:induction false} InsertByFaSplits(s: seq<RocPoint>, j: int, x: RocPoint)
    requires 0 <= j <= |s| && (j == 0 || s[j - 1].fa <= x.fa)
    requires forall m :: j <= m < |s| ==> s[m].fa > x.fa
    ensures InsertByFa(s, x) == s[..j] + [x] + s[j..]
    decreases |s|
  {
    if j < |s| {
      var init := s[..|s| - 1];
      InsertByFaSplits(init, j, x);
      assert init[..j] == s[..j];
      assert s[j..] == init[j..] + [s[|s| - 1]];
    } else {
      assert s[..j] == s;
    }
  }

  lemma {:induction false} InsertByFaPermutes(s: seq<RocPoint>, x: RocPoint)
    ensures multiset(InsertByFa(s, x)) == multiset(s) + multiset{x}
    ensures |InsertByFa(s, x)| == |s| + 1
  {
    if s == [] || s[|s| - 1].fa <= x.fa {
    } else {
      var init := s[..|s| - 1];
      InsertByFaPermutes(init, x);
      assert s == init + [s[|s| - 1]];
    }
  }

  lemma {:induction false} InsertByFaSorted(s: seq<RocPoint>, x: RocPoint)
    requires SortedByFa(s)
    ensures SortedByFa(InsertByFa(s, x))
  {
    if s == [] || s[|s| - 1].fa <= x.fa {
    } else {
      var init, last := s[..|s| - 1], s[|s| - 1];
      InsertByFaSorted(init, x);
      InsertByFaPermutes(init, x);
      var t := InsertByFa(init, x);
      forall i | 0 <= i < |t|
        ensures t[i].fa <= last.fa
      {
        assert t[i] in multiset(t);
        assert t[i] in multiset(init) || t[i] == x;
      }
    }
  }

  lemma {:induction false} InsertByFaStable(s: seq<RocPoint>, x: RocPoint, k: real)
    ensures WithFa(InsertByFa(s, x), k) == WithFa(s, k) + (if x.fa == k then [x] else [])
  {
    if s == [] || s[|s| - 1].fa <= x.fa {
      assert (s + [x])[..|s|] == s;
    } else {
      var init, last := s[..|s| - 1], s[|s| - 1];
      InsertByFaStable(init, x, k);
      var t := InsertByFa(init, x);
      assert (t + [last])[..|t + [last]| - 1] == t;
    }
  }

  /** The sort returns its input rearranged: same points, same multiplicities. */
  lemma {:induction false} SortByFaPermutes(s: seq<RocPoint>)
    ensures multiset(SortByFa(s)) == multiset(s)
    ensures |SortByFa(s)| == |s|
  {
    if s != [] {
      var init := s[..|s| - 1];
      SortByFaPermutes(init);
      InsertByFaPermutes(SortByFa(init), s[|s| - 1]);
      assert s == init + [s[|s| - 1]];
    }
  }

  /** The sort's output is non-decreasing in the false-alarm rate. */
  lemma {:induction false} SortByFaSorted(s: seq<RocPoint>)
    ensures SortedByFa(SortByFa(s))
  {
    if s != [] {
      SortByFaSorted(s[..|s| - 1]);
      InsertByFaSorted(SortByFa(s[..|s| - 1]), s[|s| - 1]);
    }
  }

  /** The sort is stable: points sharing a false-alarm rate keep their
      relative order. */
  lemma {:induction false} SortByFaStable(s: seq<RocPoint>, k: real)
    ensures WithFa(SortByFa(s), k) == WithFa(s, k)
  {
    if s != [] {
      var init := s[..|s| - 1];
      SortByFaStable(init, k);
      InsertByFaStable(SortByFa(init), s[|s| - 1], k);
    }
  }

  /** Already sorted points are left exactly as they are. */
  lemma {:induction false} SortByFaKeepsSorted(s: seq<RocPoint>)
    requires SortedByFa(s)
    ensures SortByFa(s) == s
  {
    if s != [] {
      var init := s[..|s| - 1];
      SortByFaKeepsSorted(init);
      assert s == init + [s[|s| - 1]];
    }
  }

  /** Sorting twice is sorting once. */
  lemma SortByFaIdempotent(s: seq<RocPoint>)
    ensures SortByFa(SortByFa(s)) == SortByFa(s)
  {
    SortByFaSorted(s);
    SortByFaKeepsSorted(SortByFa(s));
  }

  lemma {:induction false} WithFaMembers(s: seq<RocPoint>, k: real)
    ensures forall p :: p in WithFa(s, k) ==> p in s && p.fa == k
  {
    if s != [] {
      WithFaMembers(s[..|s| - 1], k);
    }
  }

  lemma {:induction false} WithFaHits(s: seq<RocPoint>, i: int)
    requires 0 <= i < |s|
    ensures s[i] in WithFa(s, s[i].fa)
  {
    if i < |s| - 1 {
      WithFaHits(s[..|s| - 1], i);
    }
  }

  /** Removing the last point of two sequences that agree on every rate's
      subsequence and end on the same rate: they end on the same point and
      still agree on every rate's subsequence. */
  lemma DropLastAgrees(u: seq<RocPoint>, v: seq<RocPoint>, u': seq<RocPoint>, v': seq<RocPoint>)
    requires u != [] && v != [] && u[|u| - 1].fa == v[|v| - 1].fa
    requires u' == u[..|u| - 1] && v' == v[..|v| - 1]
    requires forall k :: WithFa(u, k) == WithFa(v, k)
    ensures u[|u| - 1] == v[|v| - 1]
    ensures forall k :: WithFa(u', k) == WithFa(v', k)
  {
    var a := u[|u| - 1].fa;
    var x, y := WithFa(u', a), WithFa(v', a);
    assert WithFa(u, a) == x + [u[|u| - 1]];
    assert WithFa(v, a) == y + [v[|v| - 1]];
    assert x + [u[|u| - 1]] == y + [v[|v| - 1]];
    assert x == (x + [u[|u| - 1]])[..|x|];
    assert y == (y + [v[|v| - 1]])[..|y|];
    forall k
      ensures WithFa(u', k) == WithFa(v', k)
    {
      if k != a {
        assert WithFa(u, k) == WithFa(u', k);
        assert WithFa(v, k) == WithFa(v', k);
      }
    }
  }

  /** If u and v hold the same points at every false-alarm rate and v is
      sorted, the last rate of u is at most the last rate of v. */
  lemma LastIsLargest(u: seq<RocPoint>, v: seq<RocPoint>)
    requires u != [] && v != [] && SortedByFa(v)
    requires forall k :: WithFa(u, k) == WithFa(v, k)
    ensures u[|u| - 1].fa <= v[|v| - 1].fa
  {
    var a := u[|u| - 1].fa;
    WithFaHits(u, |u| - 1);
    WithFaMembers(v, a);
    assert u[|u| - 1] in WithFa(v, a);
  }

  /** Sorted and stable pin the order down: two sorted sequences that agree
      on the subsequence of every false-alarm rate are equal. */
  lemma {:induction false} SortedStableUnique(u: seq<RocPoint>, v: seq<RocPoint>)
    requires SortedByFa(u) && SortedByFa(v)
    requires forall k :: WithFa(u, k) == WithFa(v, k)
    ensures u == v
    decreases |u| + |v|
  {
    if u == [] || v == [] {
      if u != [] {
        WithFaHits(u, 0);
      } else if v != [] {
        WithFaHits(v, 0);
      }
    } else {
      LastIsLargest(u, v);
      LastIsLargest(v, u);
      var u', v' := u[..|u| - 1], v[..|v| - 1];
      DropLastAgrees(u, v, u', v');
      SortedStableUnique(u', v');
      assert u == u' + [u[|u| - 1]];
      assert v == v' + [v[|v| - 1]];
    }
  }

  /** SortByFa is the one stable ascending sort: a sequence is sorted by
      false-alarm rate and keeps the order of each rate's points of s
      exactly when it is SortByFa(s). */
  lemma SortByFaCharacterised(s: seq<RocPoint>, t: seq<RocPoint>)
    ensures t == SortByFa(s) ==> SortedByFa(t) && forall k :: WithFa(t, k) == WithFa(s, k)
    ensures SortedByFa(t) && (forall k :: WithFa(t, k) == WithFa(s, k)) ==> t == SortByFa(s)
  {
    SortByFaSorted(s);
    forall k
      ensures WithFa(SortByFa(s), k) == WithFa(s, k)
    {
      SortByFaStable(s, k);
    }
    if SortedByFa(t) && forall k :: WithFa(t, k) == WithFa(s, k) {
      SortedStableUnique(t, SortByFa(s));
    }
  }

  /** Area of the trapezoid between two neighbouring curve points: width
      times mean height. */
  function Segment(x0: real, x1: real, y0: real, y1: real): real
  {
    (x1 - x0) * ((y1 + y0) / 2.0)
  }

  /** Composite trapezoidal rule over the curve through (xs[i], ys[i]),
      summed segment by segment from the left, the order in which the loop
      of the aggregator accumulates it. */
  function TrapezoidArea(xs: seq<real>, ys: seq<real>): real
    requires |xs| == |ys|
  {
    if |xs| < 2 then 0.0
    else
      var n := |xs|;
      TrapezoidArea(xs[..n - 1], ys[..n - 1]) + Segment(xs[n - 2], xs[n - 1], ys[n - 2], ys[n - 1])
  }

  /** The same rule written independently, from the first segment on. */
  function TrapezoidFromFirst(xs: seq<real>, ys: seq<real>): real
    requires |xs| == |ys|
  {
    if |xs| < 2 then 0.0
    else Segment(xs[0], xs[1], ys[0], ys[1]) + TrapezoidFromFirst(xs[1..], ys[1..])
  }

  /** Summing the segments from either end gives the same area. */
  lemma {:induction false} TrapezoidOrderIrrelevant(xs: seq<real>, ys: seq<real>)
    requires |xs| == |ys|
    ensures TrapezoidArea(xs, ys) == TrapezoidFromFirst(xs, ys)
    decreases |xs|
  {
    var n := |xs|;
    if n >= 3 {
      TrapezoidOrderIrrelevant(xs[..n - 1], ys[..n - 1]);
      TrapezoidOrderIrrelevant(xs[1..], ys[1..]);
      TrapezoidOrderIrrelevant(xs[1..n - 1], ys[1..n - 1]);
      assert xs[..n - 1][1..] == xs[1..n - 1] && ys[..n - 1][1..] == ys[1..n - 1];
      assert xs[1..][..n - 2] == xs[1..n - 1] && ys[1..][..n - 2] == ys[1..n - 1];
    }
  }

  /** One trapezoid under a curve segment that rises or stays level in x
      and stays within [0, 1] in y covers at most its own width. */
  lemma SegmentBounds(x0: real, x1: real, y0: real, y1: real)
    requires x0 <= x1 && 0.0 <= y0 <= 1.0 && 0.0 <= y1 <= 1.0
    ensures 0.0 <= Segment(x0, x1, y0, y1) <= x1 - x0
  {
    var w, h := x1 - x0, (y1 + y0) / 2.0;
    assert 0.0 <= h <= 1.0;
    assert 0.0 <= w * h;
    assert w - w * h == w * (1.0 - h) >= 0.0;
  }

  /** Over points ordered by x with heights in [0, 1], the area is at least
      0 and at most the x-extent of the curve. */
  lemma {:induction false} TrapezoidAreaBounds(xs: seq<real>, ys: seq<real>)
    requires |xs| == |ys| && |xs| > 0
    requires forall i, j :: 0 <= i < j < |xs| ==> xs[i] <= xs[j]
    requires forall i :: 0 <= i < |ys| ==> 0.0 <= ys[i] <= 1.0
    ensures 0.0 <= TrapezoidArea(xs, ys) <= xs[|xs| - 1] - xs[0]
  {
    var n := |xs|;
    if n >= 2 {
      TrapezoidAreaBounds(xs[..n - 1], ys[..n - 1]);
      SegmentBounds(xs[n - 2], xs[n - 1], ys[n - 2], ys[n - 1]);
    }
  }

  /** Why the order of tied points matters: the points (0,0), (0,1), (1,1)
      enclose area 1, but with the two points at false-alarm rate 0
      swapped the rule yields 1/2. */
  lemma TieOrderChangesArea()
    ensures TrapezoidArea([0.0, 0.0, 1.0], [0.0, 1.0, 1.0]) == 1.0
    ensures TrapezoidArea([0.0, 0.0, 1.0], [1.0, 0.0, 1.0]) == 0.5
  {
    assert [0.0, 0.0, 1.0][..2] == [0.0, 0.0];
    assert [0.0, 1.0, 1.0][..2] == [0.0, 1.0];
    assert [1.0, 0.0, 1.0][..2] == [1.0, 0.0];
    assert [0.0, 0.0][..1] == [0.0];
    assert [0.0, 1.0][..1] == [0.0];
    assert [1.0, 0.0][..1] == [1.0];
  }
}
