/** The ROC aggregator: an experiment collects one signal-detection
    measurement per condition, orders their (false-alarm rate, hit rate)
    points into a curve and integrates it with the trapezoidal rule. */
module Experiments {
  import opened Detection
  import opened Roc

  datatype Option<T> = None | Some(value: T)

  /** Both failures of the aggregator are a ValueError carrying a message. */
  datatype Error = ValueError(message: string)

  datatype Result<T> = Ok(value: T) | Err(error: Error)

  const NotASignalDetectionMessage: string := "Input must be a SignalDetection object."
  const NoConditionsMessage: string := "No conditions added to the experiment"

  /** The value a caller passes to AddCondition. The source accepts any value
      and checks at run time that it is a SignalDetection; every other value
      is NotAMeasurement here. */
  datatype Candidate = Measurement(sdt: SignalDetection) | NotAMeasurement

  /** One registered condition: its measurement and an optional display label (`name`, the source's `label`). */
  datatype Condition = Condition(sdt: SignalDetection, name: Option<string>)

  /** The curve point of one measurement: (false-alarm rate, hit rate). */
  function PointOf(s: SignalDetection): RocPoint
  {
    RocPoint(FalseAlarmRate(s), HitRate(s))
  }

  /** The curve points of the conditions, in registration order. */
  function RocPoints(cs: seq<Condition>): seq<RocPoint>
  {
    seq(|cs|, i requires 0 <= i < |cs| => PointOf(cs[i].sdt))
  }

  function FaRates(ps: seq<RocPoint>): seq<real>
  {
    seq(|ps|, i requires 0 <= i < |ps| => ps[i].fa)
  }

  function HitRates(ps: seq<RocPoint>): seq<real>
  {
    seq(|ps|, i requires 0 <= i < |ps| => ps[i].hit)
  }

  /** Pairs the two rate lists back up, index by index. */
  function Zip(xs: seq<real>, ys: seq<real>): seq<RocPoint>
    requires |xs| == |ys|
  {
    seq(|xs|, i requires 0 <= i < |xs| => RocPoint(xs[i], ys[i]))
  }

  /** The curve of the conditions: their points, stably sorted by false-alarm rate. */
  function Curve(cs: seq<Condition>): seq<RocPoint>
  {
    SortByFa(RocPoints(cs))
  }

  /** Area under the curve of the conditions, by the trapezoidal rule. */
  function AreaUnderCurve(cs: seq<Condition>): real
  {
    TrapezoidArea(FaRates(Curve(cs)), HitRates(Curve(cs)))
  }

  /** One pass of the insertion sort: moves a[i] left past every point of
      a[..i] with a strictly larger false-alarm rate, shifting those points one
      place right; nothing beyond index i moves. */
  method InsertLast(a: array<RocPoint>, i: nat)
    requires i < a.Length
    modifies a
    ensures a[..i + 1] == InsertByFa(old(a[..i]), old(a[i]))
    ensures a[i + 1..] == old(a[i + 1..])
  {
    var x := a[i];
    ghost var prefix := a[..i];
    var j := i;
    while j > 0 && a[j - 1].fa > x.fa
      invariant 0 <= j <= i
      invariant forall m :: 0 <= m < j ==> a[m] == prefix[m]
      invariant forall m :: j < m <= i ==> a[m] == prefix[m - 1]
      invariant forall m :: i < m < a.Length ==> a[m] == old(a[m])
      invariant forall m :: j <= m < i ==> prefix[m].fa > x.fa
    {
      a[j] := a[j - 1];
      j := j - 1;
    }
    a[j] := x;
    InsertByFaSplits(prefix, j, x);
    assert a[..i + 1] == prefix[..j] + [x] + prefix[j..];
  }

  /** Stable in-place insertion sort by false-alarm rate: inserts each point
      in turn into the sorted prefix before it. */
  method InsertionSortByFa(a: array<RocPoint>)
    modifies a
    ensures a[..] == SortByFa(old(a[..]))
  {
    var i := 0;
    while i < a.Length
      invariant 0 <= i <= a.Length
      invariant a[..i] == SortByFa(old(a[..])[..i])
      invariant a[i..] == old(a[..])[i..]
    {
      assert old(a[..])[..i + 1][..i] == old(a[..])[..i];
      InsertLast(a, i);
      i := i + 1;
    }
    assert old(a[..])[..a.Length] == old(a[..]);
  }

  class Experiment {
    /** Registered conditions, in the order they were added. */
    var conditions: seq<Condition>

    /** A new experiment has no conditions. */
    constructor ()
      ensures conditions == []
    {
      conditions := [];
    }

    /** Registers a measurement under an optional label `name` (None when the caller
        gives none). A value that is not a measurement is refused with a
        ValueError and nothing is stored; otherwise exactly one condition is
        appended and the earlier ones stay as they were, in order. */
    method AddCondition(candidate: Candidate, name: Option<string> := None) returns (r: Result<()>)
      modifies this
      ensures candidate.NotAMeasurement? ==>
                r == Err(ValueError(NotASignalDetectionMessage)) && conditions == old(conditions)
      ensures candidate.Measurement? ==>
                r == Ok(()) && conditions == old(conditions) + [Condition(candidate.sdt, name)]
    {
      if candidate.NotAMeasurement? {
        return Err(ValueError(NotASignalDetectionMessage));
      }
      conditions := conditions + [Condition(candidate.sdt, name)];
      r := Ok(());
    }

    /** The curve as two aligned lists, false-alarm rates and hit rates,
        ascending by false-alarm rate with ties kept in registration order.
        With no conditions it fails with a ValueError. The stored conditions
        are not modified (the method has no modifies clause). */
    method SortedRocPoints() returns (r: Result<(seq<real>, seq<real>)>)
      ensures conditions == [] ==> r == Err(ValueError(NoConditionsMessage))
      ensures conditions != [] ==> r.Ok?
      ensures r.Ok? ==> r.value.0 == FaRates(Curve(conditions)) && r.value.1 == HitRates(Curve(conditions))
      ensures r.Ok? ==> |r.value.0| == |r.value.1| == |conditions|
      ensures r.Ok? ==> forall i, j :: 0 <= i < j < |r.value.0| ==> r.value.0[i] <= r.value.0[j]
      ensures r.Ok? ==> multiset(Zip(r.value.0, r.value.1)) == multiset(RocPoints(conditions))
      ensures r.Ok? ==> forall k :: WithFa(Zip(r.value.0, r.value.1), k) == WithFa(RocPoints(conditions), k)
    {
      if conditions == [] {
        return Err(ValueError(NoConditionsMessage));
      }
      var n := |conditions|;
      var roc := new RocPoint[n];
      var k := 0;
      while k < n
        invariant 0 <= k <= n
        invariant roc[..k] == RocPoints(conditions)[..k]
      {
        roc[k] := PointOf(conditions[k].sdt);
        k := k + 1;
      }
      assert roc[..] == RocPoints(conditions);
      InsertionSortByFa(roc);
      var sorted := roc[..];
      r := Ok((FaRates(sorted), HitRates(sorted)));
      SortByFaPermutes(RocPoints(conditions));
      SortByFaSorted(RocPoints(conditions));
      assert Zip(FaRates(sorted), HitRates(sorted)) == sorted;
      forall key
        ensures WithFa(sorted, key) == WithFa(RocPoints(conditions), key)
      {
        SortByFaStable(RocPoints(conditions), key);
      }
    }

    /** Area under the curve by the composite trapezoidal rule over the
        sorted points; 0 for a single condition. With no conditions it fails
        with a ValueError. */
    method ComputeAuc() returns (r: Result<real>)
      ensures conditions == [] ==> r == Err(ValueError(NoConditionsMessage))
      ensures conditions != [] ==> r == Ok(AreaUnderCurve(conditions))
      ensures |conditions| == 1 ==> r == Ok(0.0)
    {
      if conditions == [] {
        return Err(ValueError(NoConditionsMessage));
      }
      var points := SortedRocPoints();
      var fas, hits := points.value.0, points.value.1;
      var auc := 0.0;
      var i := 0;
      while i < |fas| - 1
        invariant 0 <= i <= |fas| - 1
        invariant auc == TrapezoidArea(fas[..i + 1], hits[..i + 1])
      {
        var width := fas[i + 1] - fas[i];
        var height := (hits[i + 1] + hits[i]) / 2.0;
        auc := auc + width * height;
        assert fas[..i + 2][..i + 1] == fas[..i + 1];
        assert hits[..i + 2][..i + 1] == hits[..i + 1];
        i := i + 1;
      }
      assert fas[..|fas|] == fas && hits[..|hits|] == hits;
      r := Ok(auc);
    }
  }

  /** With counts that are not negative every rate is a proportion, so the
      area under the curve lies in [0, 1]. */
  lemma AreaUnderCurveInUnitInterval(cs: seq<Condition>)
    requires cs != []
    requires forall i :: 0 <= i < |cs| ==> NonNegative(cs[i].sdt)
    ensures 0.0 <= AreaUnderCurve(cs) <= 1.0
  {
    var ps := RocPoints(cs);
    var curve := Curve(cs);
    SortByFaPermutes(ps);
    SortByFaSorted(ps);
    forall i | 0 <= i < |curve|
      ensures 0.0 <= curve[i].fa <= 1.0 && 0.0 <= curve[i].hit <= 1.0
    {
      assert curve[i] in multiset(ps);
      var j :| 0 <= j < |ps| && ps[j] == curve[i];
      RatesInUnitInterval(cs[j].sdt);
    }
    TrapezoidAreaBounds(FaRates(curve), HitRates(curve));
  }
}
