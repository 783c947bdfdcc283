/** Expanding a request's map tasks: every loaded task asks for extra copies
    of itself, which are appended to the map-task list.  Stamping the tasks
    with their owner follows in `Construction`.

    The Java `Request` constructor iterates over a snapshot of the map-task
    list while appending to the live list.  `ExpandFold` keeps the two apart: the first argument is
    the snapshot still to be visited, the second the live list that only ever
    grows at its end, so an appended copy is never visited. */
module Expansion {
  import opened Entities

  /** How many copies the constructor appends for `t`: its `extraTasks`, or
      none when that count is zero or negative (the countdown loop does not
      run). */
  function Extras(t: MapTask): nat
  {
    if t.extraTasks > 0 then t.extraTasks else 0
  }

  /** Total number of copies a list of map tasks asks for. */
  function SumExtras(ts: seq<MapTask>): nat
  {
    if |ts| == 0 then 0 else Extras(ts[0]) + SumExtras(ts[1..])
  }

  /** The copy appended for `t` under the freshly allocated id `cid`: one
      extra task of its own, and the sizes of the task it copies. */
  function CopyOf(t: MapTask, cid: int): MapTask
  {
    NewMapTask(cid, 1, t.dSize, t.mi, t.intermediateData)
  }

  /** `c` is a copy of `t`: it carries `t`'s sizes and a replication count of
      one. */
  predicate IsCopyOf(c: MapTask, t: MapTask)
  {
    c.extraTasks == 1 && c.dSize == t.dSize && c.mi == t.mi && c.intermediateData == t.intermediateData
  }

  /** The copies the inner countdown loop appends for one snapshot task, the
      first one receiving id `nextId`. */
  function Copies(t: MapTask, nextId: int): (cs: seq<MapTask>)
    ensures |cs| == Extras(t)
    ensures forall k :: 0 <= k < |cs| ==> cs[k] == CopyOf(t, nextId + k)
  {
    seq(Extras(t), k => CopyOf(t, nextId + k))
  }

  /** The outer loop of the constructor: visit the snapshot in order and append
      each task's copies to the live list.  Copy ids are handed out
      consecutively from `nextId`. */
  function ExpandFold(snapshot: seq<MapTask>, live: seq<MapTask>, nextId: int): seq<MapTask>
  {
    if |snapshot| == 0 then live
    else ExpandFold(snapshot[1..], live + Copies(snapshot[0], nextId), nextId + Extras(snapshot[0]))
  }

  /** The map-task list after expansion: the snapshot is the loaded list
      itself, and so is the live list at the start.  The loaded tasks stay in
      front, unchanged and in order, followed by exactly the copies they ask
      for, `max(extraTasks, 0)` each: copies appended during the loop are not
      visited and so are not copied again. */
  function Expand(mapTasks: seq<MapTask>, nextId: int): (r: seq<MapTask>)
    ensures |r| == |mapTasks| + SumExtras(mapTasks)
    ensures r[..|mapTasks|] == mapTasks
    ensures r[|mapTasks|..] == AllCopies(mapTasks, nextId)
  {
    FoldAppendsAllCopies(mapTasks, mapTasks, nextId);
    AllCopiesCount(mapTasks, nextId);
    ExpandFold(mapTasks, mapTasks, nextId)
  }

  /** Reference definition: all copies the list asks for, in snapshot order. */
  function AllCopies(ts: seq<MapTask>, nextId: int): seq<MapTask>
  {
    if |ts| == 0 then [] else Copies(ts[0], nextId) + AllCopies(ts[1..], nextId + Extras(ts[0]))
  }

  /** Folding over a snapshot appends exactly the snapshot's copies to the
      live list, whatever the live list holds. */
  lemma {:induction false} FoldAppendsAllCopies(snapshot: seq<MapTask>, live: seq<MapTask>, nextId: int)
    ensures ExpandFold(snapshot, live, nextId) == live + AllCopies(snapshot, nextId)
    decreases |snapshot|
  {
    if |snapshot| > 0 {
      var cs := Copies(snapshot[0], nextId);
      FoldAppendsAllCopies(snapshot[1..], live + cs, nextId + Extras(snapshot[0]));
      assert live + cs + AllCopies(snapshot[1..], nextId + Extras(snapshot[0]))
          == live + (cs + AllCopies(snapshot[1..], nextId + Extras(snapshot[0])));
    }
  }

  lemma {:induction false} AllCopiesCount(ts: seq<MapTask>, nextId: int)
    ensures |AllCopies(ts, nextId)| == SumExtras(ts)
    decreases |ts|
  {
    if |ts| > 0 {
      AllCopiesCount(ts[1..], nextId + Extras(ts[0]));
    }
  }

  /** Every element of `AllCopies` is a copy of some task of the list that asked
      for at least one copy, and the j-th copy has id `nextId + j`. */
  lemma {:induction false} AllCopiesAreCopies(ts: seq<MapTask>, nextId: int)
    ensures forall j :: 0 <= j < |AllCopies(ts, nextId)| ==>
      AllCopies(ts, nextId)[j].cloudletId == nextId + j &&
      exists i :: 0 <= i < |ts| && ts[i].extraTasks > 0 && IsCopyOf(AllCopies(ts, nextId)[j], ts[i])
    decreases |ts|
  {
    if |ts| > 0 {
      var cs: seq<MapTask> := Copies(ts[0], nextId);
      var rest: seq<MapTask> := AllCopies(ts[1..], nextId + Extras(ts[0]));
      AllCopiesAreCopies(ts[1..], nextId + Extras(ts[0]));
      forall j | 0 <= j < |cs + rest|
        ensures (cs + rest)[j].cloudletId == nextId + j
        ensures exists i :: 0 <= i < |ts| && ts[i].extraTasks > 0 && IsCopyOf((cs + rest)[j], ts[i])
      {
        if j < |cs| {
          assert IsCopyOf((cs + rest)[j], ts[0]);
        } else {
          var i :| 0 <= i < |ts[1..]| && ts[1..][i].extraTasks > 0 && IsCopyOf(rest[j - |cs|], ts[1..][i]);
          assert ts[i + 1] == ts[1..][i];
        }
      }
    }
  }

  /** SumExtras splits over the snapshot: the copies of `ts[i]` start
      `SumExtras(ts[..i])` places into `AllCopies`. */
  lemma {:induction false} AllCopiesLayout(ts: seq<MapTask>, nextId: int, i: nat, k: nat)
    requires i < |ts| && k < Extras(ts[i])
    ensures SumExtras(ts[..i]) + k < |AllCopies(ts, nextId)|
    ensures AllCopies(ts, nextId)[SumExtras(ts[..i]) + k] == CopyOf(ts[i], nextId + SumExtras(ts[..i]) + k)
    decreases i
  {
    var cs := Copies(ts[0], nextId);
    var rest := AllCopies(ts[1..], nextId + Extras(ts[0]));
    AllCopiesCount(ts[1..], nextId + Extras(ts[0]));
    if i == 0 {
      assert ts[..0] == [];
    } else {
      AllCopiesLayout(ts[1..], nextId + Extras(ts[0]), i - 1, k);
      assert ts[..i][1..] == ts[1..][..i - 1];
      assert SumExtras(ts[..i]) == Extras(ts[0]) + SumExtras(ts[1..][..i - 1]);
    }
  }

  /** Every task past the prefix is a copy of a loaded task that asked for
      copies, with a replication count of one, that task's sizes and the next
      allocated id. */
  lemma ExpandAppendsOnlyCopies(ts: seq<MapTask>, nextId: int)
    ensures forall j :: |ts| <= j < |Expand(ts, nextId)| ==>
      Expand(ts, nextId)[j].cloudletId == nextId + (j - |ts|) &&
      exists i :: 0 <= i < |ts| && ts[i].extraTasks > 0 && IsCopyOf(Expand(ts, nextId)[j], ts[i])
  {
    FoldAppendsAllCopies(ts, ts, nextId);
    AllCopiesAreCopies(ts, nextId);
    var e := Expand(ts, nextId);
    forall j | |ts| <= j < |e|
      ensures e[j] == AllCopies(ts, nextId)[j - |ts|]
    {
    }
  }

  /** The copies of the i-th loaded task sit together, in order, at the place
      the tasks before it leave free. */
  lemma ExpandLayout(ts: seq<MapTask>, nextId: int, i: nat, k: nat)
    requires i < |ts| && k < Extras(ts[i])
    ensures |ts| + SumExtras(ts[..i]) + k < |Expand(ts, nextId)|
    ensures Expand(ts, nextId)[|ts| + SumExtras(ts[..i]) + k] == CopyOf(ts[i], nextId + SumExtras(ts[..i]) + k)
  {
    FoldAppendsAllCopies(ts, ts, nextId);
    AllCopiesLayout(ts, nextId, i, k);
  }

  /** A list in which no task asks for a copy is left as it is. */
  lemma ExpandNothingToCopy(ts: seq<MapTask>, nextId: int)
    requires forall i :: 0 <= i < |ts| ==> ts[i].extraTasks <= 0
    ensures Expand(ts, nextId) == ts
  {
    NoExtrasSumZero(ts);
  }

  lemma {:induction false} NoExtrasSumZero(ts: seq<MapTask>)
    requires forall i :: 0 <= i < |ts| ==> ts[i].extraTasks <= 0
    ensures SumExtras(ts) == 0
    decreases |ts|
  {
    if |ts| > 0 {
      NoExtrasSumZero(ts[1..]);
    }
  }

  lemma {:induction false} SumExtrasConcat(a: seq<MapTask>, b: seq<MapTask>)
    ensures SumExtras(a + b) == SumExtras(a) + SumExtras(b)
    decreases |a|
  {
    if |a| > 0 {
      assert (a + b)[0] == a[0];
      assert (a + b)[1..] == a[1..] + b;
      SumExtrasConcat(a[1..], b);
    } else {
      assert a + b == b;
    }
  }

  lemma {:induction false} SumExtrasOfCopies(cs: seq<MapTask>)
    requires forall j :: 0 <= j < |cs| ==> cs[j].extraTasks == 1
    ensures SumExtras(cs) == |cs|
    decreases |cs|
  {
    if |cs| > 0 {
      SumExtrasOfCopies(cs[1..]);
    }
  }

  /** A copy's replication count of one does not make it inert: were the
      expansion run a second time, every copy would be copied once more, so
      the second run appends twice as many tasks as the first. */
  lemma ExpandTwice(ts: seq<MapTask>, n: int, m: int)
    ensures |Expand(Expand(ts, n), m)| == |ts| + 3 * SumExtras(ts)
  {
    var e := Expand(ts, n);
    FoldAppendsAllCopies(ts, ts, n);
    AllCopiesCount(ts, n);
    AllCopiesAreCopies(ts, n);
    var cs := AllCopies(ts, n);
    SumExtrasOfCopies(cs);
    SumExtrasConcat(ts, cs);
  }

  /** Cloudlet ids are pairwise different. */
  predicate DistinctIds(ts: seq<MapTask>)
  {
    forall i, j :: 0 <= i < j < |ts| ==> ts[i].cloudletId != ts[j].cloudletId
  }

  /** Expansion keeps map-task ids unique when the allocator's next id lies
      above every loaded id. */
  lemma ExpandKeepsIdsDistinct(ts: seq<MapTask>, nextId: int)
    requires DistinctIds(ts)
    requires forall i :: 0 <= i < |ts| ==> ts[i].cloudletId < nextId
    ensures DistinctIds(Expand(ts, nextId))
  {
    ExpandAppendsOnlyCopies(ts, nextId);
    var e := Expand(ts, nextId);
    forall i, j | 0 <= i < j < |e|
      ensures e[i].cloudletId != e[j].cloudletId
    {
      if j < |ts| {
        assert e[i] == ts[i] && e[j] == ts[j];
      } else if i < |ts| {
        assert e[i] == ts[i];
      }
    }
  }

  /** The constructor's inner loop as written: count `extraTasks` down to one,
      appending one copy per step. */
  method AppendCopies(live: seq<MapTask>, mapTask: MapTask, nextId: int) returns (tasks: seq<MapTask>, next: int)
    ensures tasks == live + Copies(mapTask, nextId)
    ensures next == nextId + Extras(mapTask)
  {
    tasks := live;
    next := nextId;
    var i := mapTask.extraTasks;
    while i > 0
      invariant 0 <= Extras(mapTask) - (if i > 0 then i else 0) <= Extras(mapTask)
      invariant next == nextId + (Extras(mapTask) - (if i > 0 then i else 0))
      invariant tasks == live + Copies(mapTask, nextId)[..next - nextId]
    {
      tasks := tasks + [CopyOf(mapTask, next)];
      next := next + 1;
      i := i - 1;
    }
    assert Copies(mapTask, nextId)[..next - nextId] == Copies(mapTask, nextId);
  }

  /** The constructor's outer loop as written: iterate over a copy of the list,
      appending each task's copies to the live list. */
  method ExpandMapTasks(mapTasks: seq<MapTask>, nextId: int) returns (tasks: seq<MapTask>)
    ensures tasks == Expand(mapTasks, nextId)
  {
    var copyOfMapTasks := mapTasks;
    tasks := mapTasks;
    var next := nextId;
    var idx := 0;
    while idx < |copyOfMapTasks|
      invariant 0 <= idx <= |copyOfMapTasks|
      invariant ExpandFold(copyOfMapTasks[idx..], tasks, next) == Expand(mapTasks, nextId)
    {
      assert copyOfMapTasks[idx..][1..] == copyOfMapTasks[idx + 1..];
      tasks, next := AppendCopies(tasks, copyOfMapTasks[idx], next);
      idx := idx + 1;
    }
  }
}
