/** The two figures a request derives from its state: how long its job ran and
    what its machines cost.  Both use -1 as "nothing to report". */
module Metrics {
  import opened Entities
  import opened Views

  /** The sentinel both scans start from and the cost reports for an
      unprovisioned request. */
  const Unset: real := -1.0

  /** The running state of the execution-time scan: the earliest submission and
      the latest finish seen so far, each `Unset` until a task replaces it. */
  datatype Span = Span(first: real, last: real)

  /** One step of the scan.  A field still holding the sentinel is replaced
      unconditionally; so is one that a task beats. */
  function Step(s: Span, t: Task): Span
  {
    Span(if s.first == Unset || s.first > t.SubmissionTime() then t.SubmissionTime() else s.first,
         if s.last == Unset || s.last < t.FinishTime() then t.FinishTime() else s.last)
  }

  /** The scan over a list of tasks, in order. */
  function Scan(s: Span, ts: seq<Task>): Span
    decreases |ts|
  {
    if |ts| == 0 then s else Scan(Step(s, ts[0]), ts[1..])
  }

  /** Execution time: the latest finish minus the earliest submission, over
      the map tasks and then the reduce tasks.  A job without tasks reports 0
      (the scan never leaves its start and -1 - -1 is 0), and a job none of
      whose tasks has run reports the sentinel itself. */
  function ExecutionTime(job: Job): (r: real)
    ensures AllTasks(job) == [] ==> r == 0.0
    ensures |AllTasks(job)| > 0 && Measurable(AllTasks(job)) ==>
      r == MaxFinish(AllTasks(job)) - MinSubmission(AllTasks(job))
    ensures |AllTasks(job)| > 0 && NoneRan(AllTasks(job)) ==> r == Unset
  {
    var ts := AllTasks(job);
    ScanIsSpan(ts);
    ScanOverUnrun(ts);
    var s := Scan(Span(Unset, Unset), ts);
    s.last - s.first
  }

  /** Reference definitions: the least submission time and the greatest finish
      time of a non-empty list of tasks. */
  function MinSubmission(ts: seq<Task>): real
    requires |ts| > 0
  {
    if |ts| == 1 then ts[0].SubmissionTime()
    else var m := MinSubmission(ts[1..]); if ts[0].SubmissionTime() < m then ts[0].SubmissionTime() else m
  }

  function MaxFinish(ts: seq<Task>): real
    requires |ts| > 0
  {
    if |ts| == 1 then ts[0].FinishTime()
    else var m := MaxFinish(ts[1..]); if ts[0].FinishTime() > m then ts[0].FinishTime() else m
  }

  /** The least submission time is one of the list's and no task's is smaller. */
  lemma {:induction false} MinSubmissionIsLeast(ts: seq<Task>)
    requires |ts| > 0
    ensures exists i :: 0 <= i < |ts| && ts[i].SubmissionTime() == MinSubmission(ts)
    ensures forall i :: 0 <= i < |ts| ==> MinSubmission(ts) <= ts[i].SubmissionTime()
    decreases |ts|
  {
    if |ts| > 1 {
      MinSubmissionIsLeast(ts[1..]);
      var i :| 0 <= i < |ts[1..]| && ts[1..][i].SubmissionTime() == MinSubmission(ts[1..]);
      assert ts[i + 1] == ts[1..][i];
      if ts[0].SubmissionTime() < MinSubmission(ts[1..]) {
        assert ts[0].SubmissionTime() == MinSubmission(ts);
      } else {
        assert ts[i + 1].SubmissionTime() == MinSubmission(ts);
      }
      forall k | 1 <= k < |ts|
        ensures MinSubmission(ts) <= ts[k].SubmissionTime()
      {
        assert ts[k] == ts[1..][k - 1];
      }
    } else {
      assert ts[0].SubmissionTime() == MinSubmission(ts);
    }
  }

  /** The greatest finish time is one of the list's and no task's is larger. */
  lemma {:induction false} MaxFinishIsGreatest(ts: seq<Task>)
    requires |ts| > 0
    ensures exists i :: 0 <= i < |ts| && ts[i].FinishTime() == MaxFinish(ts)
    ensures forall i :: 0 <= i < |ts| ==> ts[i].FinishTime() <= MaxFinish(ts)
    decreases |ts|
  {
    if |ts| > 1 {
      MaxFinishIsGreatest(ts[1..]);
      var i :| 0 <= i < |ts[1..]| && ts[1..][i].FinishTime() == MaxFinish(ts[1..]);
      assert ts[i + 1] == ts[1..][i];
      if ts[0].FinishTime() > MaxFinish(ts[1..]) {
        assert ts[0].FinishTime() == MaxFinish(ts);
      } else {
        assert ts[i + 1].FinishTime() == MaxFinish(ts);
      }
      forall k | 1 <= k < |ts|
        ensures ts[k].FinishTime() <= MaxFinish(ts)
      {
        assert ts[k] == ts[1..][k - 1];
      }
    } else {
      assert ts[0].FinishTime() == MaxFinish(ts);
    }
  }

  /** The timestamps the scan tracks faithfully: no submission time is the
      sentinel, and the finish times either avoid the sentinel altogether or
      never drop below it.  A field holding -1 is overwritten by whatever the
      next task reports, so a finish time of -1 followed by a smaller one
      would lose the -1. */
  ghost predicate Measurable(ts: seq<Task>)
  {
    && (forall i :: 0 <= i < |ts| ==> ts[i].SubmissionTime() != Unset)
    && ((forall i :: 0 <= i < |ts| ==> ts[i].FinishTime() != Unset) ||
        (forall i :: 0 <= i < |ts| ==> ts[i].FinishTime() >= Unset))
  }

  lemma MeasurableTail(ts: seq<Task>)
    requires |ts| > 0 && Measurable(ts)
    ensures Measurable(ts[1..])
  {
    forall i | 0 <= i < |ts[1..]|
      ensures ts[1..][i] == ts[i + 1]
    {
    }
  }

  /** From a state whose earliest submission is a real timestamp, and whose
      latest finish is the sentinel only when no finish time is below it, the
      scan keeps a true running minimum and maximum. */
  lemma {:induction false} ScanFromSeen(s: Span, ts: seq<Task>)
    requires s.first != Unset
    requires s.last == Unset ==> forall i :: 0 <= i < |ts| ==> ts[i].FinishTime() >= Unset
    requires Measurable(ts)
    requires |ts| > 0
    ensures Scan(s, ts).first == (if s.first < MinSubmission(ts) then s.first else MinSubmission(ts))
    ensures Scan(s, ts).last == (if s.last > MaxFinish(ts) then s.last else MaxFinish(ts))
    decreases |ts|
  {
    var s' := Step(s, ts[0]);
    if |ts| > 1 {
      MeasurableTail(ts);
      ScanFromSeen(s', ts[1..]);
    }
  }

  /** Over a non-empty list of measurable tasks the scan from the sentinel ends
      at the least submission time and the greatest finish time. */
  lemma ScanIsSpan(ts: seq<Task>)
    ensures |ts| > 0 && Measurable(ts) ==>
      Scan(Span(Unset, Unset), ts) == Span(MinSubmission(ts), MaxFinish(ts))
  {
    if |ts| == 0 || !Measurable(ts) {
      return;
    }
    var s := Step(Span(Unset, Unset), ts[0]);
    assert Scan(Span(Unset, Unset), ts) == Scan(s, ts[1..]);
    if |ts| > 1 {
      MeasurableTail(ts);
      ScanFromSeen(s, ts[1..]);
    }
  }

  /** Every task reports the timestamps of a task that has not run. */
  ghost predicate NoneRan(ts: seq<Task>)
  {
    forall i :: 0 <= i < |ts| ==>
      ts[i].SubmissionTime() == InitialSubmissionTime && ts[i].FinishTime() == InitialFinishTime
  }

  lemma {:induction false} ScanOverUnrun(ts: seq<Task>)
    ensures |ts| > 0 && NoneRan(ts) ==>
      Scan(Span(Unset, Unset), ts) == Span(InitialSubmissionTime, InitialFinishTime)
  {
    if |ts| > 0 && NoneRan(ts) {
      var s := Span(InitialSubmissionTime, InitialFinishTime);
      assert Step(Span(Unset, Unset), ts[0]) == s;
      ScanFixed(s, ts[1..]);
    }
  }

  lemma {:induction false} ScanFixed(s: Span, ts: seq<Task>)
    requires s == Span(InitialSubmissionTime, InitialFinishTime) && NoneRan(ts)
    ensures Scan(s, ts) == s
    decreases |ts|
  {
    if |ts| > 0 {
      assert Step(s, ts[0]) == s;
      assert NoneRan(ts[1..]) by {
        forall i | 0 <= i < |ts[1..]|
          ensures ts[1..][i].SubmissionTime() == InitialSubmissionTime && ts[1..][i].FinishTime() == InitialFinishTime
        {
          assert ts[1..][i] == ts[i + 1];
        }
      }
      ScanFixed(s, ts[1..]);
    }
  }

  /** One step of the scan over a suffix. */
  lemma ScanUnfold(s: Span, ts: seq<Task>, i: nat)
    requires i < |ts|
    ensures Scan(s, ts[i..]) == Scan(Step(s, ts[i]), ts[i + 1..])
  {
    assert ts[i..][0] == ts[i] && ts[i..][1..] == ts[i + 1..];
  }

  /** Scanning a concatenation is scanning the second part from where the
      first part left the state. */
  lemma {:induction false} ScanConcat(s: Span, a: seq<Task>, b: seq<Task>)
    ensures Scan(s, a + b) == Scan(Scan(s, a), b)
    decreases |a|
  {
    if |a| == 0 {
      assert a + b == b;
    } else {
      assert (a + b)[0] == a[0] && (a + b)[1..] == a[1..] + b;
      ScanConcat(Step(s, a[0]), a[1..], b);
    }
  }

  /** One of the two loops of the execution-time computation: the same
      update, applied to each task of a list in order. */
  method ScanLoop(first: real, last: real, ts: seq<Task>) returns (firstSubmissionTime: real, lastFinishTime: real)
    ensures Span(firstSubmissionTime, lastFinishTime) == Scan(Span(first, last), ts)
  {
    firstSubmissionTime, lastFinishTime := first, last;
    var i := 0;
    while i < |ts|
      invariant 0 <= i <= |ts|
      invariant Scan(Span(firstSubmissionTime, lastFinishTime), ts[i..]) == Scan(Span(first, last), ts)
    {
      var t := ts[i];
      ScanUnfold(Span(firstSubmissionTime, lastFinishTime), ts, i);
      if firstSubmissionTime == Unset || firstSubmissionTime > t.SubmissionTime() {
        firstSubmissionTime := t.SubmissionTime();
      }
      if lastFinishTime == Unset || lastFinishTime < t.FinishTime() {
        lastFinishTime := t.FinishTime();
      }
      i := i + 1;
    }
    assert ts[i..] == [];
  }

  /** The execution-time computation as written: both fields start at the
      sentinel, the loop runs over the map tasks and then over the reduce
      tasks, and the result is the difference of the two fields. */
  method ComputeExecutionTime(job: Job) returns (time: real)
    ensures time == ExecutionTime(job)
    ensures |AllTasks(job)| > 0 && Measurable(AllTasks(job)) ==>
      time == MaxFinish(AllTasks(job)) - MinSubmission(AllTasks(job))
  {
    var all := AllTasks(job);
    var m := |job.mapTasks|;
    var firstSubmissionTime, lastFinishTime := ScanLoop(Unset, Unset, all[..m]);
    firstSubmissionTime, lastFinishTime := ScanLoop(firstSubmissionTime, lastFinishTime, all[m..]);
    ScanConcat(Span(Unset, Unset), all[..m], all[m..]);
    assert all[..m] + all[m..] == all;
    time := lastFinishTime - firstSubmissionTime;
  }

  /** Reference definition: the sum of the machines' execution costs. */
  function SumCosts(vs: seq<Vm>): real
  {
    if |vs| == 0 then 0.0 else vs[0].executionCost + SumCosts(vs[1..])
  }

  lemma {:induction false} SumCostsConcat(a: seq<Vm>, b: seq<Vm>)
    ensures SumCosts(a + b) == SumCosts(a) + SumCosts(b)
    decreases |a|
  {
    if |a| > 0 {
      assert (a + b)[0] == a[0];
      assert (a + b)[1..] == a[1..] + b;
      SumCostsConcat(a[1..], b);
    } else {
      assert a + b == b;
    }
  }

  lemma {:induction false} SumCostsNonNegative(vs: seq<Vm>)
    requires forall i :: 0 <= i < |vs| ==> vs[i].executionCost >= 0.0
    ensures SumCosts(vs) >= 0.0
    decreases |vs|
  {
    if |vs| > 0 {
      SumCostsNonNegative(vs[1..]);
    }
  }

  /** The request's cost: the sentinel when no machine was provisioned in
      either pool, otherwise the total execution cost over both pools. */
  function GetCost(req: Request): (r: real)
    ensures req.mapAndReduceVmProvisionList == [] && req.reduceOnlyVmProvisionList == [] ==> r == Unset
    ensures AllVms(req) != [] ==> r == SumCosts(AllVms(req))
  {
    if |req.mapAndReduceVmProvisionList| == 0 && |req.reduceOnlyVmProvisionList| == 0 then Unset
    else
      SumCostsConcat(req.mapAndReduceVmProvisionList, req.reduceOnlyVmProvisionList);
      SumCosts(req.mapAndReduceVmProvisionList) + SumCosts(req.reduceOnlyVmProvisionList)
  }

  /** With costs that are never negative the sentinel is unambiguous: the cost
      is -1 exactly when nothing was provisioned. */
  lemma CostSentinelIffUnprovisioned(req: Request)
    requires forall i :: 0 <= i < |AllVms(req)| ==> AllVms(req)[i].executionCost >= 0.0
    ensures GetCost(req) == Unset <==> AllVms(req) == []
  {
    if AllVms(req) != [] {
      SumCostsNonNegative(AllVms(req));
    }
  }

  /** The cost loops as written: a running total over the map-and-reduce pool
      and then the reduce-only pool, after the early return for an
      unprovisioned request. */
  method ComputeCost(req: Request) returns (totalCost: real)
    ensures totalCost == GetCost(req)
    ensures AllVms(req) != [] ==> totalCost == SumCosts(AllVms(req))
  {
    var p1 := req.mapAndReduceVmProvisionList;
    var p2 := req.reduceOnlyVmProvisionList;
    if |p1| == 0 && |p2| == 0 {
      return Unset;
    }
    totalCost := 0.0;
    var i := 0;
    while i < |p1|
      invariant 0 <= i <= |p1|
      invariant totalCost + SumCosts(p1[i..]) == SumCosts(p1)
    {
      assert p1[i..][1..] == p1[i + 1..];
      totalCost := totalCost + p1[i].executionCost;
      i := i + 1;
    }
    var j := 0;
    while j < |p2|
      invariant 0 <= j <= |p2|
      invariant totalCost + SumCosts(p2[j..]) == SumCosts(p1) + SumCosts(p2)
    {
      assert p2[j..][1..] == p2[j + 1..];
      totalCost := totalCost + p2[j].executionCost;
      j := j + 1;
    }
    assert p2[j..] == [];
  }
}
