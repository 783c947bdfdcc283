/** Building a request and writing to its log. */
module Requests {
  import opened Options
  import opened Entities
  import opened Expansion
  import opened Construction
  import opened Views
  import opened Lookup
  import opened Metrics
  import opened Verdicts
  import opened Log

  /** The constructor.  The job description `loaded` has already been read
      from `jobFile`; `id` is the request's freshly allocated id; `nextId` is
      the id the allocator hands to the first extra map task; `size` is the
      reduce-task sizing routine.  A new request has no machines, an empty
      scheduling plan and an empty log. */
  function NewRequest(id: int, submissionTime: real, deadline: int, budget: real, jobFile: string,
                      loaded: Job, nextId: int, size: (seq<MapTask>, ReduceTask) -> int): (r: Request)
    ensures r.id == id && r.submissionTime == submissionTime && r.deadline == deadline
    ensures r.budget == budget && r.jobFile == jobFile
    ensures r.mapAndReduceVmProvisionList == [] && r.reduceOnlyVmProvisionList == []
    ensures r.schedulingPlan == map[] && r.logMessage == ""
    ensures r.job == BuildJob(id, loaded, nextId, size)
    ensures |r.job.mapTasks| == |loaded.mapTasks| + SumExtras(loaded.mapTasks)
    ensures |r.job.reduceTasks| == |loaded.reduceTasks|
    ensures forall i :: 0 <= i < |loaded.mapTasks| ==>
      r.job.mapTasks[i] == loaded.mapTasks[i].(requestId := id, dataSourceName := loaded.dataSourceName)
    ensures forall i :: |loaded.mapTasks| <= i < |r.job.mapTasks| ==>
      exists k :: 0 <= k < |loaded.mapTasks| && loaded.mapTasks[k].extraTasks > 0 && IsCopyOf(r.job.mapTasks[i], loaded.mapTasks[k])
    ensures forall i :: 0 <= i < |r.job.mapTasks| ==>
      r.job.mapTasks[i].requestId == id && r.job.mapTasks[i].dataSourceName == loaded.dataSourceName
    ensures forall i :: 0 <= i < |r.job.reduceTasks| ==>
      r.job.reduceTasks[i].requestId == id &&
      r.job.reduceTasks[i].dSize == size(r.job.mapTasks, loaded.reduceTasks[i].(requestId := id)) &&
      r.job.reduceTasks[i].cloudletId == loaded.reduceTasks[i].cloudletId
    ensures |r.job.mapTasks| == |loaded.mapTasks| + |AllCopies(loaded.mapTasks, nextId)|
    ensures forall i :: |loaded.mapTasks| <= i < |r.job.mapTasks| ==>
      r.job.mapTasks[i] == AllCopies(loaded.mapTasks, nextId)[i - |loaded.mapTasks|]
                             .(requestId := id, dataSourceName := loaded.dataSourceName)
    ensures forall i :: 0 <= i < |r.job.reduceTasks| ==>
      r.job.reduceTasks[i] == loaded.reduceTasks[i]
                                .(requestId := id, dSize := size(r.job.mapTasks, loaded.reduceTasks[i].(requestId := id)))
  {
    CopiesSurviveStamping(id, loaded, nextId, size);
    Request(id, submissionTime, budget, deadline, jobFile, BuildJob(id, loaded, nextId, size),
            [], [], map[], "")
  }

  lemma CopiesSurviveStamping(id: int, loaded: Job, nextId: int, size: (seq<MapTask>, ReduceTask) -> int)
    ensures var s := BuildJob(id, loaded, nextId, size).mapTasks;
      forall i :: |loaded.mapTasks| <= i < |s| ==>
        exists k :: 0 <= k < |loaded.mapTasks| && loaded.mapTasks[k].extraTasks > 0 && IsCopyOf(s[i], loaded.mapTasks[k])
  {
    var e := Expand(loaded.mapTasks, nextId);
    ExpandAppendsOnlyCopies(loaded.mapTasks, nextId);
    StampingKeepsCopies(loaded.mapTasks, e, id, loaded.dataSourceName);
    assert BuildJob(id, loaded, nextId, size).mapTasks == StampMapTasks(e, id, loaded.dataSourceName);
  }

  /** Stamping keeps a copy a copy: the sizes and the replication count are
      not touched. */
  lemma {:induction false} StampingKeepsCopies(ts: seq<MapTask>, e: seq<MapTask>, id: int, dataSourceName: string)
    requires forall j :: |ts| <= j < |e| ==>
      exists k :: 0 <= k < |ts| && ts[k].extraTasks > 0 && IsCopyOf(e[j], ts[k])
    ensures forall j :: |ts| <= j < |e| ==>
      exists k :: 0 <= k < |ts| && ts[k].extraTasks > 0 && IsCopyOf(StampMapTasks(e, id, dataSourceName)[j], ts[k])
  {
    forall j | |ts| <= j < |e|
      ensures exists k :: 0 <= k < |ts| && ts[k].extraTasks > 0 && IsCopyOf(StampMapTasks(e, id, dataSourceName)[j], ts[k])
    {
      var s := StampMapTasks(e, id, dataSourceName);
      var c := e[j];
      assert exists k :: 0 <= k < |ts| && ts[k].extraTasks > 0 && IsCopyOf(c, ts[k]);
      var k :| 0 <= k < |ts| && ts[k].extraTasks > 0 && IsCopyOf(c, ts[k]);
      assert s[j].(requestId := e[j].requestId, dataSourceName := e[j].dataSourceName) == e[j];
      assert IsCopyOf(s[j], ts[k]);
    }
    assert forall j :: |ts| <= j < |e| ==>
      exists k :: 0 <= k < |ts| && ts[k].extraTasks > 0 && IsCopyOf(StampMapTasks(e, id, dataSourceName)[j], ts[k]);
  }

  /** Stamping map tasks leaves their ids alone. */
  lemma StampingKeepsIds(ts: seq<MapTask>, id: int, dataSourceName: string)
    ensures forall k :: 0 <= k < |ts| ==> StampMapTasks(ts, id, dataSourceName)[k].cloudletId == ts[k].cloudletId
  {
    var r := StampMapTasks(ts, id, dataSourceName);
    forall k | 0 <= k < |ts|
      ensures r[k].cloudletId == ts[k].cloudletId
    {
      assert r[k].(requestId := ts[k].requestId, dataSourceName := ts[k].dataSourceName) == ts[k];
    }
  }

  /** A job whose map-task ids are those of `e` and whose reduce-task ids are
      those of `rs` lists, in its all-tasks view, the ids of `e` and then the
      ids of `rs`. */
  lemma SameIds(j: Job, e: seq<MapTask>, rs: seq<ReduceTask>)
    requires |j.mapTasks| == |e| && |j.reduceTasks| == |rs|
    requires forall k :: 0 <= k < |e| ==> j.mapTasks[k].cloudletId == e[k].cloudletId
    requires forall k :: 0 <= k < |rs| ==> j.reduceTasks[k].cloudletId == rs[k].cloudletId
    ensures |AllTasks(j)| == |e| + |rs|
    ensures forall k :: 0 <= k < |e| ==> AllTasks(j)[k].CloudletId() == e[k].cloudletId
    ensures forall k :: |e| <= k < |AllTasks(j)| ==> AllTasks(j)[k].CloudletId() == rs[k - |e|].cloudletId
  {
    forall k | 0 <= k < |e|
      ensures AllTasks(j)[k].CloudletId() == e[k].cloudletId
    {
      SameMapId(j, e, k);
    }
    forall k | |e| <= k < |AllTasks(j)|
      ensures AllTasks(j)[k].CloudletId() == rs[k - |e|].cloudletId
    {
      ReduceTaskAt(j, k - |e|);
    }
  }

  /** The k-th map task comes first in the all-tasks view. */
  lemma SameMapId(j: Job, e: seq<MapTask>, k: nat)
    requires k < |j.mapTasks| == |e|
    requires j.mapTasks[k].cloudletId == e[k].cloudletId
    ensures AllTasks(j)[k].CloudletId() == e[k].cloudletId
  {
    assert AllTasks(j)[k] == MapT(j.mapTasks[k]);
  }

  /** The i-th reduce task sits `i` places past the map tasks in the all-tasks
      view. */
  lemma ReduceTaskAt(j: Job, i: nat)
    requires i < |j.reduceTasks|
    ensures AllTasks(j)[|j.mapTasks| + i] == ReduceT(j.reduceTasks[i])
  {
  }

  /** Every id of the loaded job lies below the allocator's next id. */
  ghost predicate IdsBelow(job: Job, nextId: int)
  {
    forall k :: 0 <= k < |AllTasks(job)| ==> AllTasks(job)[k].CloudletId() < nextId
  }

  /** Building the job keeps task ids unique across map and reduce tasks, so
      that afterwards every task, original or copy, is found by its own id
      (`LookupFindsEveryTask`). */
  lemma BuildJobIdsUnique(id: int, loaded: Job, nextId: int, size: (seq<MapTask>, ReduceTask) -> int)
    requires UniqueTaskIds(loaded) && IdsBelow(loaded, nextId)
    ensures UniqueTaskIds(BuildJob(id, loaded, nextId, size))
  {
    var e := Expand(loaded.mapTasks, nextId);
    var j := BuildJob(id, loaded, nextId, size);
    ExpandedIds(loaded, nextId);
    StampingKeepsIds(e, id, loaded.dataSourceName);
    assert j.mapTasks == StampMapTasks(e, id, loaded.dataSourceName);
    JobIdsUnique(j, loaded, e, nextId);
  }

  /** A job whose map tasks carry the ids of the expanded list `e` and whose
      reduce tasks carry the loaded reduce tasks' ids has unique ids. */
  lemma JobIdsUnique(j: Job, loaded: Job, e: seq<MapTask>, nextId: int)
    requires UniqueTaskIds(loaded) && IdsBelow(loaded, nextId)
    requires |loaded.mapTasks| <= |e| && DistinctIds(e)
    requires forall k :: 0 <= k < |loaded.mapTasks| ==> e[k].cloudletId == AllTasks(loaded)[k].CloudletId()
    requires forall k :: |loaded.mapTasks| <= k < |e| ==> e[k].cloudletId >= nextId
    requires |j.mapTasks| == |e| && |j.reduceTasks| == |loaded.reduceTasks|
    requires forall k :: 0 <= k < |e| ==> j.mapTasks[k].cloudletId == e[k].cloudletId
    requires forall k :: 0 <= k < |j.reduceTasks| ==> j.reduceTasks[k].cloudletId == loaded.reduceTasks[k].cloudletId
    ensures UniqueTaskIds(j)
  {
    SameIds(j, e, loaded.reduceTasks);
    MergedIdsUnique(AllTasks(j), e, AllTasks(loaded), loaded.reduceTasks, |loaded.mapTasks|, nextId);
  }

  /** The ids of the expanded map tasks: distinct, the loaded tasks' ids
      first, then ids from `nextId` on. */
  lemma ExpandedIds(loaded: Job, nextId: int)
    requires UniqueTaskIds(loaded) && IdsBelow(loaded, nextId)
    ensures |loaded.mapTasks| <= |Expand(loaded.mapTasks, nextId)|
    ensures DistinctIds(Expand(loaded.mapTasks, nextId))
    ensures forall k :: 0 <= k < |loaded.mapTasks| ==>
      Expand(loaded.mapTasks, nextId)[k].cloudletId == AllTasks(loaded)[k].CloudletId()
    ensures forall k :: |loaded.mapTasks| <= k < |Expand(loaded.mapTasks, nextId)| ==>
      Expand(loaded.mapTasks, nextId)[k].cloudletId >= nextId
  {
    var e := Expand(loaded.mapTasks, nextId);
    var n := |loaded.mapTasks|;
    LoadedMapIds(loaded, nextId);
    ExpandKeepsIdsDistinct(loaded.mapTasks, nextId);
    ExpandAppendsOnlyCopies(loaded.mapTasks, nextId);
    forall k | 0 <= k < n
      ensures e[k] == loaded.mapTasks[k]
    {
      assert e[..n][k] == e[k];
    }
  }

  /** What unique ids below `nextId` in the loaded job say of its map tasks. */
  lemma LoadedMapIds(loaded: Job, nextId: int)
    requires UniqueTaskIds(loaded) && IdsBelow(loaded, nextId)
    ensures DistinctIds(loaded.mapTasks)
    ensures forall a :: 0 <= a < |loaded.mapTasks| ==>
      loaded.mapTasks[a].cloudletId < nextId && AllTasks(loaded)[a].CloudletId() == loaded.mapTasks[a].cloudletId
  {
    var la := AllTasks(loaded);
    var lm := loaded.mapTasks;
    forall a, b | 0 <= a < b < |lm|
      ensures lm[a].cloudletId != lm[b].cloudletId
    {
      assert la[a] == MapT(lm[a]) && la[b] == MapT(lm[b]);
    }
  }

  /** The pairwise step of the proof above: the built job's ids are the
      expanded map tasks' ids (distinct, the first `n` the loaded ones, the
      rest at least `nextId`) followed by the loaded reduce tasks' ids. */
  lemma MergedIdsUnique(all: seq<Task>, e: seq<MapTask>, la: seq<Task>, rs: seq<ReduceTask>, n: nat, nextId: int)
    requires n <= |e| && |la| == n + |rs| && |all| == |e| + |rs|
    requires forall a, b :: 0 <= a < b < |la| ==> la[a].CloudletId() != la[b].CloudletId()
    requires forall k :: 0 <= k < |la| ==> la[k].CloudletId() < nextId
    requires forall r :: 0 <= r < |rs| ==> la[n + r].CloudletId() == rs[r].cloudletId
    requires DistinctIds(e)
    requires forall k :: 0 <= k < n ==> e[k].cloudletId == la[k].CloudletId()
    requires forall k :: n <= k < |e| ==> e[k].cloudletId >= nextId
    requires forall k :: 0 <= k < |e| ==> all[k].CloudletId() == e[k].cloudletId
    requires forall k :: |e| <= k < |all| ==> all[k].CloudletId() == rs[k - |e|].cloudletId
    ensures forall a, b :: 0 <= a < b < |all| ==> all[a].CloudletId() != all[b].CloudletId()
  {
    var m := |e|;
    forall a, b | 0 <= a < b < |all|
      ensures all[a].CloudletId() != all[b].CloudletId()
    {
      if b < m {
        assert e[a].cloudletId != e[b].cloudletId;
      } else {
        assert all[b].CloudletId() == la[n + (b - m)].CloudletId();
        if a < n {
          assert la[a].CloudletId() != la[n + (b - m)].CloudletId();
        } else if a < m {
          assert la[n + (b - m)].CloudletId() < nextId;
        } else {
          assert all[a].CloudletId() == la[n + (a - m)].CloudletId();
          assert la[n + (a - m)].CloudletId() != la[n + (b - m)].CloudletId();
        }
      }
    }
  }

  /** A new request has not been provisioned: its budget check reports a
      failed run and no task resolves to a machine. */
  lemma NewRequestUnprovisioned(id: int, submissionTime: real, deadline: int, budget: real, jobFile: string,
                                loaded: Job, nextId: int, size: (seq<MapTask>, ReduceTask) -> int, taskId: int)
    ensures var r := NewRequest(id, submissionTime, deadline, budget, jobFile, loaded, nextId, size);
      GetCost(r) == Unset && IsBudgetViolated(r) == FailedToRun &&
      NumberOfVMs(r) == 0 && GetProvisionedVmFromTaskId(r, taskId) == None
  {
  }

  /** A write to the request's log; nothing else about the request changes. */
  function SetLogMessage(req: Request, msg: string): (r: Request)
    ensures r.logMessage == AppendLog(req.logMessage, msg)
    ensures r.(logMessage := req.logMessage) == req
  {
    req.(logMessage := AppendLog(req.logMessage, msg))
  }
}
