// The Java `Request` constructor's stamping and assembly: after expansion,
// every map task and every reduce task is stamped with the owning request,
// reduce tasks are sized, and the job is put together.
module Construction {
  import opened Entities
  import opened Expansion

  /** The constructor's second loop: every map task, original or copy, is
      stamped with the owning request and the job's data source; nothing else
      about it changes. */
  function StampMapTasks(ts: seq<MapTask>, requestId: int, dataSourceName: string): (r: seq<MapTask>)
    ensures |r| == |ts|
    ensures forall i :: 0 <= i < |r| ==> r[i].requestId == requestId && r[i].dataSourceName == dataSourceName
    ensures forall i :: 0 <= i < |r| ==> r[i].(requestId := ts[i].requestId, dataSourceName := ts[i].dataSourceName) == ts[i]
  {
    if |ts| == 0 then []
    else [ts[0].(requestId := requestId, dataSourceName := dataSourceName)]
         + StampMapTasks(ts[1..], requestId, dataSourceName)
  }

  /** The constructor's third loop: every reduce task is stamped with the
      owning request and then sized by the external routine `size`, which is
      called once per task and sees the finished map tasks and the stamped
      reduce task. */
  function StampReduceTasks(rs: seq<ReduceTask>, requestId: int, maps: seq<MapTask>,
                            size: (seq<MapTask>, ReduceTask) -> int): (r: seq<ReduceTask>)
    ensures |r| == |rs|
    ensures forall i :: 0 <= i < |r| ==>
      r[i].requestId == requestId && r[i].dSize == size(maps, rs[i].(requestId := requestId))
    ensures forall i :: 0 <= i < |r| ==>
      r[i].cloudletId == rs[i].cloudletId &&
      r[i].submissionTime == rs[i].submissionTime && r[i].finishTime == rs[i].finishTime
  {
    if |rs| == 0 then []
    else
      var stamped := rs[0].(requestId := requestId);
      [stamped.(dSize := size(maps, stamped))] + StampReduceTasks(rs[1..], requestId, maps, size)
  }

  /** The job a request of id `id` holds once built from `loaded`: the
      loaded map tasks stay in front in order, followed by exactly the copies
      expansion allocates; the reduce tasks keep their order, ids and
      timestamps and are sized against the built map tasks.  Every task is
      owned by the request, and nothing else about any task changes. */
  function BuildJob(id: int, loaded: Job, nextId: int, size: (seq<MapTask>, ReduceTask) -> int): (j: Job)
    ensures |j.mapTasks| == |loaded.mapTasks| + SumExtras(loaded.mapTasks)
    ensures |j.reduceTasks| == |loaded.reduceTasks|
    ensures j.dataSourceName == loaded.dataSourceName
    ensures forall i :: 0 <= i < |loaded.mapTasks| ==>
      j.mapTasks[i] == loaded.mapTasks[i].(requestId := id, dataSourceName := loaded.dataSourceName)
    ensures forall i :: 0 <= i < |j.mapTasks| ==>
      j.mapTasks[i].requestId == id && j.mapTasks[i].dataSourceName == loaded.dataSourceName
    ensures forall i :: 0 <= i < |j.reduceTasks| ==>
      j.reduceTasks[i].requestId == id && j.reduceTasks[i].cloudletId == loaded.reduceTasks[i].cloudletId
    ensures |j.mapTasks| == |loaded.mapTasks| + |AllCopies(loaded.mapTasks, nextId)|
    ensures forall i :: |loaded.mapTasks| <= i < |j.mapTasks| ==>
      j.mapTasks[i] == AllCopies(loaded.mapTasks, nextId)[i - |loaded.mapTasks|]
                         .(requestId := id, dataSourceName := loaded.dataSourceName)
    ensures forall i :: 0 <= i < |j.reduceTasks| ==>
      j.reduceTasks[i] == loaded.reduceTasks[i]
                            .(requestId := id, dSize := size(j.mapTasks, loaded.reduceTasks[i].(requestId := id)))
  {
    var e := Expand(loaded.mapTasks, nextId);
    assert forall i :: 0 <= i < |loaded.mapTasks| ==> e[i] == loaded.mapTasks[i];
    var maps := StampMapTasks(e, id, loaded.dataSourceName);
    Job(maps, StampReduceTasks(loaded.reduceTasks, id, maps, size), loaded.dataSourceName)
  }
}
