/** Client code: the worked cases of the aggregator, proved from the
    contracts of Experiment and the lemmas about the curve alone. */
module ExperimentScenarios {
  import opened Detection
  import opened Roc
  import opened Experiments

  /** Conditions at (0,0) and (1,1): the curve is the chance diagonal and
      encloses area 1/2. */
  method DiagonalAuc() returns (auc: Result<real>)
    ensures auc == Ok(0.5)
  {
    var e := new Experiment();
    var a1 := e.AddCondition(Measurement(SignalDetection(0.0, 0.0, 0.0, 0.0)), Some("(0,0)"));
    var a2 := e.AddCondition(Measurement(SignalDetection(10.0, 0.0, 10.0, 0.0)), Some("(1,1)"));
    auc := e.ComputeAuc();
    var ps := RocPoints(e.conditions);
    assert ps == [RocPoint(0.0, 0.0), RocPoint(1.0, 1.0)];
    SortByFaKeepsSorted(ps);
    assert FaRates(ps) == [0.0, 1.0] && HitRates(ps) == [0.0, 1.0];
    assert [0.0, 1.0][..1] == [0.0];
  }

  /** Conditions at (0,0), (0,1) and (1,1): a perfect detector, area 1. The
      two points at false-alarm rate 0 must stay in registration order for
      this to hold (see Roc.TieOrderChangesArea). */
  method PerfectAuc() returns (auc: Result<real>)
    ensures auc == Ok(1.0)
  {
    var e := new Experiment();
    var a1 := e.AddCondition(Measurement(SignalDetection(0.0, 0.0, 0.0, 0.0)), Some("(0,0)"));
    var a2 := e.AddCondition(Measurement(SignalDetection(10.0, 0.0, 0.0, 10.0)), Some("(0,1)"));
    var a3 := e.AddCondition(Measurement(SignalDetection(10.0, 0.0, 10.0, 0.0)), Some("(1,1)"));
    auc := e.ComputeAuc();
    var ps := RocPoints(e.conditions);
    assert ps == [RocPoint(0.0, 0.0), RocPoint(0.0, 1.0), RocPoint(1.0, 1.0)];
    SortByFaKeepsSorted(ps);
    assert FaRates(ps) == [0.0, 0.0, 1.0] && HitRates(ps) == [0.0, 1.0, 1.0];
    TieOrderChangesArea();
  }

  /** A condition added without a label is stored with no label. */
  method UnlabelledCondition() returns (stored: Option<string>)
    ensures stored == None
  {
    var e := new Experiment();
    var added := e.AddCondition(Measurement(SignalDetection(10.0, 5.0, 5.0, 10.0)));
    stored := e.conditions[0].name;
  }

  /** Adding something that is not a measurement fails and stores nothing. */
  method InvalidConditionRejected() returns (added: Result<()>, count: nat)
    ensures added == Err(ValueError(NotASignalDetectionMessage))
    ensures count == 0
  {
    var e := new Experiment();
    added := e.AddCondition(NotAMeasurement, Some("Invalid"));
    count := |e.conditions|;
  }

  /** Asking an experiment without conditions for its points fails. */
  method EmptyPointsRejected() returns (points: Result<(seq<real>, seq<real>)>)
    ensures points == Err(ValueError(NoConditionsMessage))
  {
    var e := new Experiment();
    points := e.SortedRocPoints();
  }

  /** Asking an experiment without conditions for its area fails. */
  method EmptyAucRejected() returns (auc: Result<real>)
    ensures auc == Err(ValueError(NoConditionsMessage))
  {
    var e := new Experiment();
    auc := e.ComputeAuc();
  }
}
