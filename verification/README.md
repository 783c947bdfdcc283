# MapReduce request model (CloudSimEx)

A Dafny model of `Request`, the top-level entity of the CloudSimEx MapReduce
simulator. A request has a budget, a deadline and a job: a list of map tasks
followed by a list of reduce tasks. It also has two pools of provisioned
virtual machines (one for map-and-reduce work, one for reduce-only work), a
scheduling plan mapping task ids to machine ids, and an accumulating log
message.

The model covers what the class computes:

- **Construction** (`Expansion`, `Construction`, `Requests`). Every loaded map task with
  `extraTasks = N > 0` gets N copies appended. The loop runs over a snapshot
  of the list, so copies are never visited. Each copy has `extraTasks = 1`
  and the sizes of the task it copies. Then every map task is stamped with the request id
  and the data-source name. Every reduce task is stamped with the request id
  and sized by the external routine.
- **Lookups** (`Lookup`). Task by cloudlet id: map tasks are searched first.
  Machine by id: the map-and-reduce pool is searched first. Machine for a
  task: through the scheduling plan.
- **Derived figures** (`Views`, `Metrics`). The all-tasks view, the task and
  machine counts, the execution time (a min/max scan with a -1 sentinel) and
  the cost (a sum over both pools, or -1 when nothing was provisioned).
- **Budget and deadline checks** (`Verdicts`). Each check answers
  `FailedToRun`, `Over(margin)` or `Within(margin)` instead of the Java
  class's sentence.
- **The log** (`Log`). The first write replaces the empty log. Each later
  write appends `" | "` and the message.

Everything is an immutable value and every operation is a pure function. The
class's loops (expansion, execution time, cost) are also written as methods
with loop invariants and proved equal to the functional definitions.

Behaviour of the code that the model keeps as it is:

- A copy's replication count of 1 does not stop a second expansion from
  copying it: expanding twice would copy every copy once more
  (`Expansion.ExpandTwice`). Expansion runs only once, in the constructor.
- The -1 sentinel is kept as the code has it. A job with no tasks has
  execution time `-1 - -1 = 0`. Its deadline check reports `Within(deadline)`
  for a deadline of 0 or more and `Over` for a negative deadline
  (`Verdicts.EmptyJobDeadline`).
- A job whose tasks were all submitted at positive times but none has
  finished has execution time -1 minus the earliest submission, which is
  negative. For a deadline of 0 or more its deadline check reports `Within`
  with more slack than the deadline itself
  (`Verdicts.UnfinishedJobMeetsDeadline`). If one of its
  tasks still has submission time 0, the execution time is exactly -1 and the
  check reports `FailedToRun` (`Verdicts.UnassignedTaskFailsDeadline`).
- Machine resolution returns the first machine with the id, map-and-reduce
  pool first. It does not fail when the id occurs more than once.

## Model

| member | source | states |
|---|---|---|
| `Options.FirstIndex` | cloudsimex-mapreduce/src/main/java/org/cloudbus/cloudsim/ex/mapreduce/models/request/Request.java:313-316 | a first-hit linear search returns nothing exactly when no element matches; otherwise it returns a matching index with no match before it |
| `Expansion.FoldAppendsAllCopies` | cloudsimex-mapreduce/src/main/java/org/cloudbus/cloudsim/ex/mapreduce/models/request/Request.java:53-57 | iterating over the snapshot appends exactly the snapshot's copies to the live list; the live list's contents are kept and never visited |
| `Expansion.AllCopiesCount` | cloudsimex-mapreduce/src/main/java/org/cloudbus/cloudsim/ex/mapreduce/models/request/Request.java:53-57 | the number of copies is the sum of `max(extraTasks, 0)` over the loaded tasks |
| `Expansion.AllCopiesAreCopies` | cloudsimex-mapreduce/src/main/java/org/cloudbus/cloudsim/ex/mapreduce/models/request/Request.java:54-56 | each copy comes from a loaded task with `extraTasks > 0`, has replication count 1 and the original's `dSize`, `mi` and `intermediateData`; copy j has id `nextId + j` |
| `Expansion.AllCopiesLayout` | cloudsimex-mapreduce/src/main/java/org/cloudbus/cloudsim/ex/mapreduce/models/request/Request.java:53-57 | the copies of the i-th loaded task come after the copies of all earlier tasks, in order |
| `Expansion.Expand` | cloudsimex-mapreduce/src/main/java/org/cloudbus/cloudsim/ex/mapreduce/models/request/Request.java:53-57 | the expanded list is the loaded list, unchanged and in order, followed by exactly the copies `AllCopies` lists, so its length is the loaded count plus the sum of `max(extraTasks, 0)`: copies appended during the loop are not visited (the loop itself is `ExpandFold`, proved equal by `FoldAppendsAllCopies`) |
| `Expansion.ExpandAppendsOnlyCopies` | cloudsimex-mapreduce/src/main/java/org/cloudbus/cloudsim/ex/mapreduce/models/request/Request.java:53-57 | every task after that prefix is a copy, with replication count 1 and the original's sizes, of a loaded task that asked for copies |
| `Expansion.ExpandLayout` | cloudsimex-mapreduce/src/main/java/org/cloudbus/cloudsim/ex/mapreduce/models/request/Request.java:53-57 | the k-th copy of the i-th loaded task sits at position `n + SumExtras(tasks before i) + k` of the expanded list |
| `Expansion.ExpandNothingToCopy` | cloudsimex-mapreduce/src/main/java/org/cloudbus/cloudsim/ex/mapreduce/models/request/Request.java:55 | when no task has `extraTasks > 0`, expansion leaves the list unchanged |
| `Expansion.ExpandTwice` | cloudsimex-mapreduce/src/main/java/org/cloudbus/cloudsim/ex/mapreduce/models/request/Request.java:55-56 | a second expansion would add one more copy per copy: the count becomes the loaded count plus three times the number of extras |
| `Expansion.ExpandKeepsIdsDistinct` | cloudsimex-mapreduce/src/main/java/org/cloudbus/cloudsim/ex/mapreduce/models/request/Request.java:53-57 | if the loaded map-task ids are distinct and all below the next allocated id, the expanded list's ids are distinct too |
| `Expansion.AppendCopies` | cloudsimex-mapreduce/src/main/java/org/cloudbus/cloudsim/ex/mapreduce/models/request/Request.java:55-56 | the countdown loop appends `max(extraTasks, 0)` copies of the task to the live list and advances the id allocator by as many |
| `Expansion.ExpandMapTasks` | cloudsimex-mapreduce/src/main/java/org/cloudbus/cloudsim/ex/mapreduce/models/request/Request.java:53-57 | the outer loop over a copy of the list, calling the inner loop per task, computes exactly `Expand`: the loaded list followed by all of its copies |
| `Construction.StampMapTasks` | cloudsimex-mapreduce/src/main/java/org/cloudbus/cloudsim/ex/mapreduce/models/request/Request.java:59-62 | every map task gets the request id and the job's data-source name; no other field changes |
| `Construction.StampReduceTasks` | cloudsimex-mapreduce/src/main/java/org/cloudbus/cloudsim/ex/mapreduce/models/request/Request.java:64-67 | every reduce task gets the request id; its size is what the sizing routine returns for the stamped task, called once per task; id and timestamps are kept |
| `Construction.BuildJob` | cloudsimex-mapreduce/src/main/java/org/cloudbus/cloudsim/ex/mapreduce/models/request/Request.java:51-67 | the built job has the expanded map-task count and the loaded reduce-task count, keeps the loaded map tasks (stamped, otherwise unchanged) as its prefix, follows them with exactly the copies `AllCopies` allocates (ids, sizes and unrun timestamps kept, only stamped), keeps every reduce task's id and timestamps while stamping and sizing it, keeps the data-source name, and every map and reduce task carries the request id |
| `Views.AllTasks` | cloudsimex-mapreduce/src/main/java/org/cloudbus/cloudsim/ex/mapreduce/models/request/Request.java:295-303 | all map tasks in order, then all reduce tasks in order; the length is the sum of the two counts |
| `Views.NumberOfTasks` | cloudsimex-mapreduce/src/main/java/org/cloudbus/cloudsim/ex/mapreduce/models/request/Request.java:336-338 | the task count equals the length of the all-tasks view |
| `Views.NumberOfVMs` | cloudsimex-mapreduce/src/main/java/org/cloudbus/cloudsim/ex/mapreduce/models/request/Request.java:305-308 | the machine count equals the length of both pools together; it is 0 exactly when both pools are empty |
| `Lookup.GetTaskFromId` | cloudsimex-mapreduce/src/main/java/org/cloudbus/cloudsim/ex/mapreduce/models/request/Request.java:312-324 | null exactly when no map or reduce task has the id; otherwise a task of the job with that id; a map-task match wins, and the first one is returned |
| `Lookup.IsTaskInThisRequest` | cloudsimex-mapreduce/src/main/java/org/cloudbus/cloudsim/ex/mapreduce/models/request/Request.java:261-267 | true exactly when the lookup is non-null, which is exactly when some task of the request has the id |
| `Lookup.GetProvisionedVm` | cloudsimex-mapreduce/src/main/java/org/cloudbus/cloudsim/ex/mapreduce/models/request/Request.java:280-293 | null exactly when neither pool holds the id; otherwise a machine with that id: the first in the map-and-reduce pool, else the first in the reduce-only pool |
| `Lookup.GetProvisionedVmFromTaskId` | cloudsimex-mapreduce/src/main/java/org/cloudbus/cloudsim/ex/mapreduce/models/request/Request.java:269-278 | null when the task has no plan entry; otherwise the same as resolving the planned machine id |
| `Lookup.LookupFindsEveryTask` | cloudsimex-mapreduce/src/main/java/org/cloudbus/cloudsim/ex/mapreduce/models/request/Request.java:312-324 | with unique ids, looking up any task's own id returns that task |
| `Metrics.ScanFromSeen` | cloudsimex-mapreduce/src/main/java/org/cloudbus/cloudsim/ex/mapreduce/models/request/Request.java:186-200 | from a state whose earliest submission is not -1, and whose latest finish is -1 only when no finish time is below -1, the scan keeps the running minimum submission and maximum finish over tasks with no -1 submission whose finish times either avoid -1 or never go below it |
| `Metrics.ScanIsSpan` | cloudsimex-mapreduce/src/main/java/org/cloudbus/cloudsim/ex/mapreduce/models/request/Request.java:181-200 | over a non-empty list with those timestamps the scan from -1/-1 ends at the least submission time and the greatest finish time |
| `Metrics.ExecutionTime` | cloudsimex-mapreduce/src/main/java/org/cloudbus/cloudsim/ex/mapreduce/models/request/Request.java:181-203 | a job with no tasks reports 0; a job with tasks whose submissions are not -1 and whose finish times avoid -1 or never go below it (a partly finished job included) reports the greatest finish time minus the least submission time; a job none of whose tasks has run reports -1 (the scan is `Scan` over `Step`) |
| `Metrics.ScanLoop` | cloudsimex-mapreduce/src/main/java/org/cloudbus/cloudsim/ex/mapreduce/models/request/Request.java:186-200 | one of the two loops, applying the same update to each task in order, ends in the state the recursive scan `Scan` reaches |
| `Metrics.ComputeExecutionTime` | cloudsimex-mapreduce/src/main/java/org/cloudbus/cloudsim/ex/mapreduce/models/request/Request.java:181-203 | both fields start at -1, the loop runs over the map tasks and then over the reduce tasks, and the difference is exactly `ExecutionTime`; for measurable timestamps it is max finish minus min submission |
| `Metrics.GetCost` | cloudsimex-mapreduce/src/main/java/org/cloudbus/cloudsim/ex/mapreduce/models/request/Request.java:205-216 | -1 when both pools are empty; otherwise the sum of execution costs over both pools together |
| `Metrics.CostSentinelIffUnprovisioned` | cloudsimex-mapreduce/src/main/java/org/cloudbus/cloudsim/ex/mapreduce/models/request/Request.java:207-215 | with non-negative machine costs, the cost is -1 exactly when nothing was provisioned |
| `Metrics.ComputeCost` | cloudsimex-mapreduce/src/main/java/org/cloudbus/cloudsim/ex/mapreduce/models/request/Request.java:205-216 | the early return and the two summing loops give the cost: the total over both pools when any machine is provisioned |
| `Verdicts.Classify` | cloudsimex-mapreduce/src/main/java/org/cloudbus/cloudsim/ex/mapreduce/models/request/Request.java:218-237 | -1 means failed to run; otherwise over exactly when the figure exceeds the limit, with a positive margin; within otherwise, with a non-negative margin; figure = limit ± margin |
| `Verdicts.IsBudgetViolated` | cloudsimex-mapreduce/src/main/java/org/cloudbus/cloudsim/ex/mapreduce/models/request/Request.java:228-237 | failed to run exactly when the cost is -1, so always for an unprovisioned request and never for a provisioned one whose total is not -1; otherwise over budget exactly when the cost exceeds the budget, with the margin between them |
| `Verdicts.IsDeadlineViolated` | cloudsimex-mapreduce/src/main/java/org/cloudbus/cloudsim/ex/mapreduce/models/request/Request.java:218-226 | failed to run exactly when the execution time is -1; otherwise over exactly when the execution time exceeds the deadline, with the margin between them; for measurable timestamps that time is max finish minus min submission |
| `Verdicts.EmptyJobDeadline` | cloudsimex-mapreduce/src/main/java/org/cloudbus/cloudsim/ex/mapreduce/models/request/Request.java:218-226 | a job with no tasks is within a deadline of 0 or more, with the whole deadline as margin, and over a negative deadline by its magnitude |
| `Verdicts.UnrunJobFailsDeadline` | cloudsimex-mapreduce/src/main/java/org/cloudbus/cloudsim/ex/mapreduce/models/request/Request.java:218-226 | a job with tasks, none of which has run, failed to run |
| `Verdicts.UnfinishedJobMeetsDeadline` | cloudsimex-mapreduce/src/main/java/org/cloudbus/cloudsim/ex/mapreduce/models/request/Request.java:181-226 | a job all of whose tasks were submitted at positive times and none has finished has execution time -1 minus the earliest submission, and is within any deadline of 0 or more by the deadline plus 1 plus that submission time |
| `Verdicts.UnassignedTaskFailsDeadline` | cloudsimex-mapreduce/src/main/java/org/cloudbus/cloudsim/ex/mapreduce/models/request/Request.java:181-226 | an unfinished job with one task still at submission time 0 has execution time exactly -1 and so failed to run |
| `Log.AppendLog` | cloudsimex-mapreduce/src/main/java/org/cloudbus/cloudsim/ex/mapreduce/models/request/Request.java:166-171 | a write to an empty log gives the message; otherwise the old log is kept as prefix and followed by `" \| "` and the message; the result is empty only if both were |
| `Log.LogAllIsJoin` | cloudsimex-mapreduce/src/main/java/org/cloudbus/cloudsim/ex/mapreduce/models/request/Request.java:166-171 | a sequence of writes gives the messages from the first non-empty one on, joined by `" \| "` |
| `Log.LogEmptyIffAllEmpty` | cloudsimex-mapreduce/src/main/java/org/cloudbus/cloudsim/ex/mapreduce/models/request/Request.java:166-171 | the log stays empty exactly while every message written so far is empty |
| `Requests.NewRequest` | cloudsimex-mapreduce/src/main/java/org/cloudbus/cloudsim/ex/mapreduce/models/request/Request.java:40-68 | a new request has empty pools, plan and log; the expanded map-task count; the loaded tasks stamped in front; after them exactly the allocated copies, stamped and otherwise unchanged; every reduce task stamped and sized with its id and timestamps kept; every task owned by the request |
| `Requests.BuildJobIdsUnique` | cloudsimex-mapreduce/src/main/java/org/cloudbus/cloudsim/ex/mapreduce/models/request/Request.java:53-67 | if the loaded ids are unique and below the allocator's next id, the built job's ids are unique across map and reduce tasks, so every task, original or copy, is found by its own id |
| `Requests.NewRequestUnprovisioned` | cloudsimex-mapreduce/src/main/java/org/cloudbus/cloudsim/ex/mapreduce/models/request/Request.java:47-49 | a new request costs -1, fails the budget check as not run, has no machines and resolves no task to a machine |
| `Requests.SetLogMessage` | cloudsimex-mapreduce/src/main/java/org/cloudbus/cloudsim/ex/mapreduce/models/request/Request.java:166-171 | a log write changes only the log message, which becomes the appended log |

## Left out

- Loading the job description from YAML (`readJobYAML`) is file I/O through a third-party parser. The loaded `Job` is a parameter of `Requests.NewRequest`. A missing or unreadable file is not modelled.
- The request id from `Id.pollId` and the `SimEvent` superclass are simulation-engine plumbing. The id is a parameter.
- The cloudlet ids of appended copies come from the `MapTask` constructor's id allocator. `MapTask.java` is not part of this model. The model assumes the allocator hands out consecutive ids starting at the parameter `nextId`.
- The timestamps of a freshly built copy are not visible in `Request.java`. The model assumes the CloudSim cloudlet defaults: submission time 0.0 and finish time -1.0 (`Entities.InitialSubmissionTime`, `Entities.InitialFinishTime`).
- `ReduceTask.updateDSize(this)` is foreign code. It is the function parameter `size`, called once per reduce task. It sees the finished map tasks and the stamped reduce task, not the whole request.
- `VmInstance.getExecutionCost()` is foreign code. It is the field `Vm.executionCost`.
- The `synchronized` modifier on `setLogMessage` is a concurrency concern. Only the sequential append is modelled.
- Java `double` arithmetic is modelled with exact `real` numbers. Rounding is not modelled, and the summation order of the cost does not matter in the model.
- The messages of `getIsDeadlineViolated` and `getIsBudgetViolated`, and `getJ`, are string formatting. The verdicts are the `Verdict` datatype.
- Plain getters and setters are not modelled. The fields `userClass`, `policy`, `cloudDeploymentModel` and `experimentNumber` are not modelled either, because no computation reads them.
- Java `int` is 32 bits wide. Ids, counts and the deadline are unbounded integers here, so wrap-around of the id allocator is not modelled.
