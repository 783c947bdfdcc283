/** Uniform views of a request's tasks and machines, and their counts. */
module Views {
  import opened Entities

  /** Map tasks first, then reduce tasks, each group in its own order. */
  function AllTasks(job: Job): (r: seq<Task>)
    ensures |r| == |job.mapTasks| + |job.reduceTasks|
    ensures forall i :: 0 <= i < |job.mapTasks| ==> r[i] == MapT(job.mapTasks[i])
    ensures forall j :: 0 <= j < |job.reduceTasks| ==> r[|job.mapTasks| + j] == ReduceT(job.reduceTasks[j])
  {
    seq(|job.mapTasks|, i requires 0 <= i < |job.mapTasks| => MapT(job.mapTasks[i]))
    + seq(|job.reduceTasks|, j requires 0 <= j < |job.reduceTasks| => ReduceT(job.reduceTasks[j]))
  }

  /** The number of tasks a request holds is the length of its all-tasks view. */
  function NumberOfTasks(job: Job): (r: nat)
    ensures r == |AllTasks(job)|
  {
    |job.mapTasks| + |job.reduceTasks|
  }

  /** Both pools, the map-and-reduce pool first. */
  function AllVms(req: Request): seq<Vm>
  {
    req.mapAndReduceVmProvisionList + req.reduceOnlyVmProvisionList
  }

  /** The number of machines provisioned for a request, over both pools. */
  function NumberOfVMs(req: Request): (r: nat)
    ensures r == |AllVms(req)|
    ensures r == 0 <==> req.mapAndReduceVmProvisionList == [] && req.reduceOnlyVmProvisionList == []
  {
    |req.mapAndReduceVmProvisionList| + |req.reduceOnlyVmProvisionList|
  }
}
