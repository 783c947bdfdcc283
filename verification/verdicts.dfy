/** Budget and deadline checks.  The Java `Request` class answers with a
    sentence; the model answers with the sentence's content: the run failed,
    the limit was exceeded by a margin, or the figure stayed within the limit
    by a margin. */
module Verdicts {
  import opened Entities
  import opened Views
  import opened Metrics

  datatype Verdict = FailedToRun | Over(margin: real) | Within(margin: real)

  /** Compares a derived figure against its limit.  The sentinel means the
      figure was never produced; a figure equal to the limit is within it. */
  function Classify(figure: real, limit: real): (v: Verdict)
    ensures v.FailedToRun? <==> figure == Unset
    ensures v.Over? ==> v.margin > 0.0 && figure == limit + v.margin
    ensures v.Within? ==> v.margin >= 0.0 && figure == limit - v.margin
    ensures figure != Unset ==> (v.Over? <==> figure > limit)
  {
    if figure == Unset then FailedToRun
    else if figure > limit then Over(figure - limit)
    else Within(limit - figure)
  }

  /** The budget check: an unprovisioned request failed to run; otherwise the
      total cost over both pools is compared with the budget. */
  function IsBudgetViolated(req: Request): (v: Verdict)
    ensures v.FailedToRun? <==> GetCost(req) == Unset
    ensures AllVms(req) == [] ==> v == FailedToRun
    ensures GetCost(req) != Unset ==>
      (v.Over? <==> GetCost(req) > req.budget) &&
      (v.Over? ==> GetCost(req) == req.budget + v.margin) &&
      (v.Within? ==> GetCost(req) == req.budget - v.margin)
    ensures AllVms(req) != [] && SumCosts(AllVms(req)) != Unset ==>
      !v.FailedToRun? &&
      (v.Over? <==> SumCosts(AllVms(req)) > req.budget) &&
      (v.Over? ==> SumCosts(AllVms(req)) == req.budget + v.margin) &&
      (v.Within? ==> SumCosts(AllVms(req)) == req.budget - v.margin)
  {
    Classify(GetCost(req), req.budget)
  }

  /** The deadline check: the execution time against the deadline, which the
      comparison widens to a real number. */
  function IsDeadlineViolated(req: Request): (v: Verdict)
    ensures v.FailedToRun? <==> ExecutionTime(req.job) == Unset
    ensures ExecutionTime(req.job) != Unset ==>
      (v.Over? <==> ExecutionTime(req.job) > req.deadline as real) &&
      (v.Over? ==> ExecutionTime(req.job) == req.deadline as real + v.margin) &&
      (v.Within? ==> ExecutionTime(req.job) == req.deadline as real - v.margin)
    ensures |AllTasks(req.job)| > 0 && Measurable(AllTasks(req.job)) ==>
      var span := MaxFinish(AllTasks(req.job)) - MinSubmission(AllTasks(req.job));
      span != Unset ==>
        (v.Over? <==> span > req.deadline as real) &&
        (v.Over? ==> span == req.deadline as real + v.margin) &&
        (v.Within? ==> span == req.deadline as real - v.margin)
  {
    Classify(ExecutionTime(req.job), req.deadline as real)
  }

  /** A job without tasks never counts as failed to run: its execution time is
      0, so it is within a deadline that is not negative and over a negative
      one. */
  lemma EmptyJobDeadline(req: Request)
    requires req.job.mapTasks == [] && req.job.reduceTasks == []
    ensures req.deadline >= 0 ==> IsDeadlineViolated(req) == Within(req.deadline as real)
    ensures req.deadline < 0 ==> IsDeadlineViolated(req) == Over(-(req.deadline as real))
  {
    assert AllTasks(req.job) == [];
  }

  /** A job with tasks none of which has run is reported as failed to run. */
  lemma UnrunJobFailsDeadline(req: Request)
    requires |AllTasks(req.job)| > 0 && NoneRan(AllTasks(req.job))
    ensures IsDeadlineViolated(req) == FailedToRun
  {
  }

  /** A job all of whose tasks were submitted at positive times and none of
      which has finished reports a negative execution time, -1 minus the
      earliest submission, and so passes any deadline that is not negative
      with more slack than the deadline itself. */
  lemma UnfinishedJobMeetsDeadline(req: Request)
    requires |AllTasks(req.job)| > 0
    requires forall i :: 0 <= i < |AllTasks(req.job)| ==>
      AllTasks(req.job)[i].SubmissionTime() > 0.0 && AllTasks(req.job)[i].FinishTime() == InitialFinishTime
    requires req.deadline >= 0
    ensures ExecutionTime(req.job) == InitialFinishTime - MinSubmission(AllTasks(req.job)) < Unset
    ensures IsDeadlineViolated(req) == Within(req.deadline as real + 1.0 + MinSubmission(AllTasks(req.job)))
  {
    var ts := AllTasks(req.job);
    MinSubmissionIsLeast(ts);
    MaxFinishIsGreatest(ts);
    assert Measurable(ts);
  }

  /** The same unfinished job with one task still at the initial submission
      time 0 reports exactly the sentinel, and so counts as failed to run. */
  lemma UnassignedTaskFailsDeadline(req: Request)
    requires |AllTasks(req.job)| > 0
    requires forall i :: 0 <= i < |AllTasks(req.job)| ==>
      AllTasks(req.job)[i].SubmissionTime() >= 0.0 && AllTasks(req.job)[i].FinishTime() == InitialFinishTime
    requires exists i :: 0 <= i < |AllTasks(req.job)| && AllTasks(req.job)[i].SubmissionTime() == InitialSubmissionTime
    ensures ExecutionTime(req.job) == Unset
    ensures IsDeadlineViolated(req) == FailedToRun
  {
    var ts := AllTasks(req.job);
    MinSubmissionIsLeast(ts);
    MaxFinishIsGreatest(ts);
    assert Measurable(ts);
  }
}
