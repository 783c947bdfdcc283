/** Finding a task of a job by its cloudlet id, and the machine a task or a
    machine id resolves to.  Every search returns its first hit; `None` is the
    `null` the Java `Request` class returns. */
module Lookup {
  import opened Options
  import opened Entities
  import opened Views

  /** A map task or reduce task with cloudlet id `taskId`: the map tasks are
      searched first, each list in order. */
  function GetTaskFromId(taskId: int, job: Job): (r: Option<Task>)
    ensures r.None? <==>
      (forall i :: 0 <= i < |job.mapTasks| ==> job.mapTasks[i].cloudletId != taskId) &&
      (forall j :: 0 <= j < |job.reduceTasks| ==> job.reduceTasks[j].cloudletId != taskId)
    ensures r.Some? ==> r.value.CloudletId() == taskId && r.value in AllTasks(job)
    ensures (exists i :: 0 <= i < |job.mapTasks| && job.mapTasks[i].cloudletId == taskId) ==>
      r.Some? && r.value.MapT? && IsFirstMatch(job.mapTasks, (t: MapTask) => t.cloudletId == taskId, r.value.m)
    ensures r.Some? && r.value.ReduceT? ==>
      IsFirstMatch(job.reduceTasks, (t: ReduceTask) => t.cloudletId == taskId, r.value.r)
  {
    var inMaps := FirstIndex(job.mapTasks, (t: MapTask) => t.cloudletId == taskId);
    if inMaps.Some? then
      FirstIndexIsFirstMatch(job.mapTasks, (t: MapTask) => t.cloudletId == taskId);
      assert AllTasks(job)[inMaps.value] == MapT(job.mapTasks[inMaps.value]);
      Some(MapT(job.mapTasks[inMaps.value]))
    else
      var inReduces := FirstIndex(job.reduceTasks, (t: ReduceTask) => t.cloudletId == taskId);
      if inReduces.Some? then
        FirstIndexIsFirstMatch(job.reduceTasks, (t: ReduceTask) => t.cloudletId == taskId);
        assert AllTasks(job)[|job.mapTasks| + inReduces.value] == ReduceT(job.reduceTasks[inReduces.value]);
        Some(ReduceT(job.reduceTasks[inReduces.value]))
      else
        None
  }

  /** Whether the request holds a task with this cloudlet id. */
  function IsTaskInThisRequest(req: Request, cloudletId: int): (r: bool)
    ensures r <==> GetTaskFromId(cloudletId, req.job).Some?
    ensures r <==> exists t :: t in AllTasks(req.job) && t.CloudletId() == cloudletId
  {
    var found := GetTaskFromId(cloudletId, req.job);
    if found.None? then
      var all := AllTasks(req.job);
      assert forall k :: 0 <= k < |all| ==> all[k].CloudletId() != cloudletId by {
        forall k | 0 <= k < |all|
          ensures all[k].CloudletId() != cloudletId
        {
          if k >= |req.job.mapTasks| {
            assert all[|req.job.mapTasks| + (k - |req.job.mapTasks|)] == all[k];
          }
        }
      }
      false
    else
      true
  }

  /** The machine with id `vmInstanceId`: the map-and-reduce pool is searched
      first, then the reduce-only pool. */
  function GetProvisionedVm(req: Request, vmInstanceId: int): (r: Option<Vm>)
    ensures r.None? <==>
      (forall i :: 0 <= i < |req.mapAndReduceVmProvisionList| ==> req.mapAndReduceVmProvisionList[i].id != vmInstanceId) &&
      (forall j :: 0 <= j < |req.reduceOnlyVmProvisionList| ==> req.reduceOnlyVmProvisionList[j].id != vmInstanceId)
    ensures r.Some? ==> r.value.id == vmInstanceId && r.value in AllVms(req)
    ensures (exists i :: 0 <= i < |req.mapAndReduceVmProvisionList| && req.mapAndReduceVmProvisionList[i].id == vmInstanceId) ==>
      r.Some? && IsFirstMatch(req.mapAndReduceVmProvisionList, (v: Vm) => v.id == vmInstanceId, r.value)
    ensures (forall i :: 0 <= i < |req.mapAndReduceVmProvisionList| ==> req.mapAndReduceVmProvisionList[i].id != vmInstanceId) && r.Some? ==>
      IsFirstMatch(req.reduceOnlyVmProvisionList, (v: Vm) => v.id == vmInstanceId, r.value)
  {
    var p1 := req.mapAndReduceVmProvisionList;
    var p2 := req.reduceOnlyVmProvisionList;
    var inFirst := FirstIndex(p1, (v: Vm) => v.id == vmInstanceId);
    if inFirst.Some? then
      FirstIndexIsFirstMatch(p1, (v: Vm) => v.id == vmInstanceId);
      assert AllVms(req)[inFirst.value] == p1[inFirst.value];
      Some(p1[inFirst.value])
    else
      var inSecond := FirstIndex(p2, (v: Vm) => v.id == vmInstanceId);
      if inSecond.Some? then
        FirstIndexIsFirstMatch(p2, (v: Vm) => v.id == vmInstanceId);
        assert AllVms(req)[|p1| + inSecond.value] == p2[inSecond.value];
        Some(p2[inSecond.value])
      else
        None
  }

  /** The machine the scheduling plan assigns to a task: nothing when the plan
      has no entry for the task, otherwise whatever resolving the planned
      machine id gives. */
  function GetProvisionedVmFromTaskId(req: Request, taskId: int): (r: Option<Vm>)
    ensures taskId !in req.schedulingPlan ==> r.None?
    ensures taskId in req.schedulingPlan ==> r == GetProvisionedVm(req, req.schedulingPlan[taskId])
    ensures r.Some? ==> taskId in req.schedulingPlan && r.value.id == req.schedulingPlan[taskId] && r.value in AllVms(req)
  {
    if taskId in req.schedulingPlan then GetProvisionedVm(req, req.schedulingPlan[taskId])
    else None
  }

  /** Cloudlet ids are pairwise different across all tasks of the job. */
  ghost predicate UniqueTaskIds(job: Job)
  {
    var all := AllTasks(job);
    forall i, j :: 0 <= i < j < |all| ==> all[i].CloudletId() != all[j].CloudletId()
  }

  /** With unique ids the search order no longer matters: every task of the
      job is found by its own id. */
  lemma LookupFindsEveryTask(job: Job)
    requires UniqueTaskIds(job)
    ensures forall k :: 0 <= k < |AllTasks(job)| ==>
      GetTaskFromId(AllTasks(job)[k].CloudletId(), job) == Some(AllTasks(job)[k])
  {
    forall k | 0 <= k < |AllTasks(job)|
      ensures GetTaskFromId(AllTasks(job)[k].CloudletId(), job) == Some(AllTasks(job)[k])
    {
      LookupFindsTask(job, k);
    }
  }

  /** The lookup of the k-th task's own id, when ids are unique: the lookup
      finds some task of the job with that id, and only the k-th has it. */
  lemma LookupFindsTask(job: Job, k: nat)
    requires UniqueTaskIds(job)
    requires k < |AllTasks(job)|
    ensures GetTaskFromId(AllTasks(job)[k].CloudletId(), job) == Some(AllTasks(job)[k])
  {
    var all := AllTasks(job);
    var m := |job.mapTasks|;
    var id := all[k].CloudletId();
    var r := GetTaskFromId(id, job);
    if k < m {
      assert all[k] == MapT(job.mapTasks[k]);
      assert job.mapTasks[k].cloudletId == id;
    } else {
      assert all[m + (k - m)] == ReduceT(job.reduceTasks[k - m]);
      assert job.reduceTasks[k - m].cloudletId == id;
    }
    assert r.Some?;
    var i :| 0 <= i < |all| && all[i] == r.value;
    assert all[i].CloudletId() == all[k].CloudletId();
  }
}
