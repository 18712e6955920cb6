/**
 * The task index that buildTaskMap fills (src/core/ganttChart.ts:151-156):
 * rows in order, each row's tasks in order, Map.set on the task id, so a
 * later task with a repeated id replaces the earlier entry.
 */
module TaskIndex {
  import opened GanttTypes

  /** taskMap.set for each task of one row, in order. */
  function AddRowTasks(m: map<string, TaskEntry>, tasks: seq<Task>, row: int): map<string, TaskEntry>
    decreases |tasks|
  {
    if |tasks| == 0 then m
    else AddRowTasks(m, tasks[..|tasks| - 1], row)[tasks[|tasks| - 1].id := TaskEntry(row, tasks[|tasks| - 1])]
  }

  /** The index after processing every row of data. */
  function Index(data: GanttData): map<string, TaskEntry>
    decreases |data|
  {
    if |data| == 0 then map[]
    else AddRowTasks(Index(data[..|data| - 1]), data[|data| - 1].tasks, |data| - 1)
  }

  /** The ids of the tasks of one row. */
  function RowIds(tasks: seq<Task>): set<string>
    decreases |tasks|
  {
    if |tasks| == 0 then {} else RowIds(tasks[..|tasks| - 1]) + {tasks[|tasks| - 1].id}
  }

  /** The ids of all tasks of the data. */
  function TaskIds(data: GanttData): set<string>
    decreases |data|
  {
    if |data| == 0 then {} else TaskIds(data[..|data| - 1]) + RowIds(data[|data| - 1].tasks)
  }

  /** The position of the last task of a row with the given id. */
  function LastIndexWith(tasks: seq<Task>, id: string): (j: int)
    requires id in RowIds(tasks)
    ensures 0 <= j < |tasks| && tasks[j].id == id
    ensures forall j' :: j < j' < |tasks| ==> tasks[j'].id != id
    decreases |tasks|
  {
    if tasks[|tasks| - 1].id == id then |tasks| - 1 else LastIndexWith(tasks[..|tasks| - 1], id)
  }

  /** The last task of a row with the given id. */
  function LastWith(tasks: seq<Task>, id: string): (t: Task)
    requires id in RowIds(tasks)
    ensures t.id == id
  {
    tasks[LastIndexWith(tasks, id)]
  }

  /** The last row holding a task with the given id. */
  function LastRow(data: GanttData, id: string): (i: int)
    requires id in TaskIds(data)
    ensures 0 <= i < |data| && id in RowIds(data[i].tasks)
    decreases |data|
  {
    if id in RowIds(data[|data| - 1].tasks) then |data| - 1 else LastRow(data[..|data| - 1], id)
  }

  lemma {:induction false} RowIdsMembership(tasks: seq<Task>, id: string)
    ensures id in RowIds(tasks) <==> exists j :: 0 <= j < |tasks| && tasks[j].id == id
    decreases |tasks|
  {
    if |tasks| > 0 {
      var n := |tasks| - 1;
      RowIdsMembership(tasks[..n], id);
      if exists j :: 0 <= j < |tasks| && tasks[j].id == id {
        var j :| 0 <= j < |tasks| && tasks[j].id == id;
        if j < n { assert tasks[..n][j] == tasks[j]; }
      }
    }
  }

  /** LastRow is the last row holding that id. */
  lemma {:induction false} LastRowIsLast(data: GanttData, id: string)
    requires id in TaskIds(data)
    ensures forall i :: LastRow(data, id) < i < |data| ==> id !in RowIds(data[i].tasks)
    decreases |data|
  {
    var n := |data| - 1;
    if id !in RowIds(data[n].tasks) {
      LastRowIsLast(data[..n], id);
      assert forall i :: 0 <= i < n ==> data[..n][i] == data[i];
    }
  }

  lemma {:induction false} TaskIdsMembership(data: GanttData, id: string)
    ensures id in TaskIds(data) <==> exists i :: 0 <= i < |data| && id in RowIds(data[i].tasks)
    decreases |data|
  {
    if |data| > 0 {
      var n := |data| - 1;
      TaskIdsMembership(data[..n], id);
      assert forall i :: 0 <= i < n ==> data[..n][i] == data[i];
    }
  }

  /** One row's updates: the keys grow by the row's ids, and each of them maps to the row's last task with that id. */
  lemma {:induction false} AddRowTasksFacts(m: map<string, TaskEntry>, tasks: seq<Task>, row: int)
    ensures AddRowTasks(m, tasks, row).Keys == m.Keys + RowIds(tasks)
    ensures forall id :: id in RowIds(tasks) ==> AddRowTasks(m, tasks, row)[id] == TaskEntry(row, LastWith(tasks, id))
    ensures forall id :: id in m && id !in RowIds(tasks) ==> AddRowTasks(m, tasks, row)[id] == m[id]
    decreases |tasks|
  {
    if |tasks| > 0 {
      AddRowTasksFacts(m, tasks[..|tasks| - 1], row);
    }
  }

  /**
   * After buildTaskMap the keys of taskMap are exactly the task ids, and the
   * entry of an id holds the last row with that id and that row's last task
   * with that id.
   */
  lemma {:induction false} IndexEntries(data: GanttData)
    ensures Index(data).Keys == TaskIds(data)
    ensures forall id :: id in TaskIds(data) ==>
      Index(data)[id] == TaskEntry(LastRow(data, id), LastWith(data[LastRow(data, id)].tasks, id))
    decreases |data|
  {
    if |data| > 0 {
      var n := |data| - 1;
      IndexEntries(data[..n]);
      AddRowTasksFacts(Index(data[..n]), data[n].tasks, n);
    }
  }

  /** The same, stated without the helper functions: the index is keyed by every task id, and its entry for an id is the last task, in row and then task order, carrying that id. */
  lemma IndexIsLastOccurrence(data: GanttData, id: string)
    ensures id in Index(data) <==> exists i, j :: 0 <= i < |data| && 0 <= j < |data[i].tasks| && data[i].tasks[j].id == id
    ensures id in Index(data) ==>
      var e := Index(data)[id];
      && 0 <= e.row < |data|
      && (exists j :: 0 <= j < |data[e.row].tasks| && data[e.row].tasks[j] == e.task
            && forall j' :: j < j' < |data[e.row].tasks| ==> data[e.row].tasks[j'].id != id)
      && e.task.id == id
      && forall i, j :: e.row < i < |data| && 0 <= j < |data[i].tasks| ==> data[i].tasks[j].id != id
  {
    IndexEntries(data);
    TaskIdsMembership(data, id);
    if exists i, j :: 0 <= i < |data| && 0 <= j < |data[i].tasks| && data[i].tasks[j].id == id {
      var i, j :| 0 <= i < |data| && 0 <= j < |data[i].tasks| && data[i].tasks[j].id == id;
      RowIdsMembership(data[i].tasks, id);
    }
    if id in Index(data) {
      var r := LastRow(data, id);
      var j := LastIndexWith(data[r].tasks, id);
      LastRowIsLast(data, id);
      forall i, j | r < i < |data| && 0 <= j < |data[i].tasks|
        ensures data[i].tasks[j].id != id
      {
        RowIdsMembership(data[i].tasks, id);
      }
    } else {
      forall i | 0 <= i < |data| ensures id !in RowIds(data[i].tasks) { }
      forall i, j | 0 <= i < |data| && 0 <= j < |data[i].tasks|
        ensures data[i].tasks[j].id != id
      {
        RowIdsMembership(data[i].tasks, id);
      }
    }
  }
}
