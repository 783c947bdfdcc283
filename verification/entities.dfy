/** The data a request works on: map and reduce tasks, the job that owns them,
    provisioned virtual machines and the request itself.

    Everything here is an immutable value.  The fields that the Java
    `Request` class's collaborators write later (a task's timestamps, the
    provisioning pools, the scheduling plan) are ordinary fields: a
    collaborator's write is a functional update of the value. */
module Entities {

  /** A map task.  `extraTasks` is the number of additional copies the job
      description asks for; `dSize`, `mi` and `intermediateData` are the input
      size, the instruction count and the size of the output handed to the
      reduce phase. */
  datatype MapTask = MapTask(
    cloudletId: int,
    requestId: int,
    dataSourceName: string,
    extraTasks: int,
    dSize: int,
    mi: int,
    intermediateData: int,
    submissionTime: real,
    finishTime: real)

  /** A reduce task; its `dSize` is computed by the owning request's sizing
      routine when the request is built. */
  datatype ReduceTask = ReduceTask(
    cloudletId: int,
    requestId: int,
    dSize: int,
    submissionTime: real,
    finishTime: real)

  /** Either kind of task, seen through what the two have in common. */
  datatype Task = MapT(m: MapTask) | ReduceT(r: ReduceTask)
  {
    function CloudletId(): int {
      match this
      case MapT(m) => m.cloudletId
      case ReduceT(r) => r.cloudletId
    }

    function SubmissionTime(): real {
      match this
      case MapT(m) => m.submissionTime
      case ReduceT(r) => r.submissionTime
    }

    function FinishTime(): real {
      match this
      case MapT(m) => m.finishTime
      case ReduceT(r) => r.finishTime
    }
  }

  /** A job: its map tasks, then its reduce tasks, and the name of the data
      source all of its map tasks read. */
  datatype Job = Job(mapTasks: seq<MapTask>, reduceTasks: seq<ReduceTask>, dataSourceName: string)

  /** A provisioned virtual machine.  How a machine accrues its execution cost
      is the provisioning subsystem's business; the request only reads the
      figure. */
  datatype Vm = Vm(id: int, executionCost: real)

  /** A submitted request.  `schedulingPlan` maps a task's cloudlet id to the
      id of the machine the scheduling policy chose for it. */
  datatype Request = Request(
    id: int,
    submissionTime: real,
    budget: real,
    deadline: int,
    jobFile: string,
    job: Job,
    mapAndReduceVmProvisionList: seq<Vm>,
    reduceOnlyVmProvisionList: seq<Vm>,
    schedulingPlan: map<int, int>,
    logMessage: string)

  /** The submission time a freshly built task reports before the execution
      engine has run it. */
  const InitialSubmissionTime: real := 0.0

  /** The finish time a freshly built task reports before it has finished. */
  const InitialFinishTime: real := -1.0

  /** A map task as its four-argument constructor builds it: the cloudlet id
      comes from the id allocator, the owner and data source are not yet set
      and the task has not run. */
  function NewMapTask(cloudletId: int, extraTasks: int, dSize: int, mi: int, intermediateData: int): MapTask
  {
    MapTask(cloudletId, 0, "", extraTasks, dSize, mi, intermediateData,
            InitialSubmissionTime, InitialFinishTime)
  }
}
