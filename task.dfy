// Task control blocks, the pid counter, the descriptor table of a task, and the
// global task list and run queue that `spawn_task` appends to.

module Sched {
  import opened Words

  datatype TaskState = Ready | Running | Blocked | Terminated

  /** An open file: the inode it refers to (by identity), the current offset and the open flags. */
  datatype FileDescriptor = FileDescriptor(inode: nat, offset: u64, flags: nat)

  type FdTable = seq<Option<FileDescriptor>>

  /** A task control block. The pid and the parent's pid never change after creation. */
  class Task {
    const id: nat
    const parentId: nat
    var state: TaskState
    var stack: seq<u8>
    var stackTop: nat
    var fdTable: FdTable
    var savedRsp: u64
    var savedRip: u64
    var exitStatus: int

    constructor (id: nat, parentId: nat, stack: seq<u8>, stackTop: nat, fdTable: FdTable, savedRsp: u64, savedRip: u64)
      ensures this.id == id && this.parentId == parentId && state == Ready
      ensures this.stack == stack && this.stackTop == stackTop && this.fdTable == fdTable
      ensures this.savedRsp == savedRsp && this.savedRip == savedRip && exitStatus == 0
    {
      this.id := id;
      this.parentId := parentId;
      state := Ready;
      this.stack := stack;
      this.stackTop := stackTop;
      this.fdTable := fdTable;
      this.savedRsp := savedRsp;
      this.savedRip := savedRip;
      exitStatus := 0;
    }

    /** `add_file`: store `file` in the lowest empty slot, or append it when every slot is taken. */
    method AddFile(file: FileDescriptor) returns (fd: nat)
      modifies this
      ensures fd == FreeSlot(old(fdTable))
      ensures fdTable == WithFile(old(fdTable), file)
      ensures state == old(state) && stack == old(stack) && stackTop == old(stackTop)
      ensures savedRsp == old(savedRsp) && savedRip == old(savedRip) && exitStatus == old(exitStatus)
    {
      for i := 0 to |fdTable|
        invariant fdTable == old(fdTable)
        invariant forall j :: 0 <= j < i ==> fdTable[j].Some?
      {
        if fdTable[i].None? {
          fdTable := fdTable[i := Some(file)];
          FreeSlotIs(old(fdTable), i);
          return i;
        }
      }
      FreeSlotIs(fdTable, |fdTable|);
      fdTable := fdTable + [Some(file)];
      fd := |fdTable| - 1;
    }

    /** `get_file(fd)`: None past the end of the table and for an empty slot, the descriptor otherwise. */
    function GetFile(fd: nat): (r: Option<FileDescriptor>)
      reads this
      ensures r.None? <==> fd >= |fdTable| || fdTable[fd].None?
      ensures r.Some? ==> r == fdTable[fd]
    {
      LookupFd(fdTable, fd)
    }
  }

  /** The index `add_file` picks: the lowest empty slot, or the length of the table when there is none. */
  function FreeSlot(table: FdTable): (i: nat)
    ensures i <= |table|
    ensures forall j :: 0 <= j < i ==> table[j].Some?
    ensures i < |table| ==> table[i].None?
  {
    if |table| == 0 then 0
    else if table[0].None? then 0
    else 1 + FreeSlot(table[1..])
  }

  /** The lowest empty slot is the only index with the `FreeSlot` properties. */
  lemma FreeSlotIs(table: FdTable, i: nat)
    requires i <= |table|
    requires forall j :: 0 <= j < i ==> table[j].Some?
    requires i < |table| ==> table[i].None?
    ensures FreeSlot(table) == i
  {
  }

  /** The table after `add_file(file)`. */
  function WithFile(table: FdTable, file: FileDescriptor): (t: FdTable)
    ensures var i := FreeSlot(table);
            && |t| == (if i < |table| then |table| else |table| + 1)
            && t[i] == Some(file)
            && forall j :: 0 <= j < |table| && j != i ==> t[j] == table[j]
  {
    var i := FreeSlot(table);
    if i < |table| then table[i := Some(file)] else table + [Some(file)]
  }

  /** `get_file(fd)` on a table: None past the end and for an empty slot, the descriptor otherwise. */
  function LookupFd(table: FdTable, fd: nat): (r: Option<FileDescriptor>)
    ensures r.None? <==> fd >= |table| || table[fd].None?
    ensures r.Some? ==> r == table[fd]
  {
    if fd < |table| then table[fd] else None
  }

  /** After `add_file`, the returned descriptor finds the file and every other descriptor finds what it found before. */
  lemma AddThenGet(table: FdTable, file: FileDescriptor, g: nat)
    ensures LookupFd(WithFile(table, file), FreeSlot(table)) == Some(file)
    ensures g != FreeSlot(table) ==> LookupFd(WithFile(table, file), g) == LookupFd(table, g)
  {
  }

  /** The three stdio slots of a new task are empty, so its first `add_file` returns 0. */
  lemma FirstFdOfNewTask(file: FileDescriptor)
    ensures FreeSlot([None, None, None]) == 0
    ensures WithFile([None, None, None], file) == [Some(file), None, None]
  {
  }

  /** The first task in `tasks` whose pid is `pid`, if any. */
  function FindTask(tasks: seq<Task>, pid: nat): (r: Option<Task>)
    ensures r.None? <==> forall k :: 0 <= k < |tasks| ==> tasks[k].id != pid
    ensures r.Some? ==> exists k :: 0 <= k < |tasks| && tasks[k] == r.value && r.value.id == pid
                                    && forall j :: 0 <= j < k ==> tasks[j].id != pid
  {
    if |tasks| == 0 then None
    else if tasks[0].id == pid then Some(tasks[0])
    else
      var r := FindTask(tasks[1..], pid);
      assert forall k :: 1 <= k < |tasks| ==> tasks[k] == tasks[1..][k - 1];
      r
  }

  /** Appending a task does not change the answer for a pid that is already present. */
  lemma {:induction false} FindAfterAppend(tasks: seq<Task>, t: Task, pid: nat)
    ensures FindTask(tasks, pid).Some? ==> FindTask(tasks + [t], pid) == FindTask(tasks, pid)
    ensures FindTask(tasks, pid).None? ==> FindTask(tasks + [t], pid) == if t.id == pid then Some(t) else None
  {
    if |tasks| > 0 {
      assert (tasks + [t])[1..] == tasks[1..] + [t];
      FindAfterAppend(tasks[1..], t, pid);
    }
  }

  /** The kernel's task bookkeeping: the pid counter, every task ever spawned, and the run queue. */
  class Kernel {
    var nextPid: nat
    var allTasks: seq<Task>
    var runQueue: seq<Task>

    /** Every spawned task has a pid the counter has issued: at least 1 and below `nextPid`. */
    predicate Valid()
      reads this
    {
      1 <= nextPid && forall k :: 0 <= k < |allTasks| ==> 1 <= allTasks[k].id < nextPid
    }

    /** The state at boot: `NEXT_PID` is 1 and both lists are empty. */
    constructor ()
      ensures Valid() && nextPid == 1 && allTasks == [] && runQueue == []
    {
      nextPid := 1;
      allTasks := [];
      runQueue := [];
    }

    /** `Task::new(stack_size)`: take the next pid and build a Ready task with a zeroed stack and three empty stdio slots. */
    method NewTask(stackSize: nat) returns (t: Task)
      modifies this
      ensures fresh(t)
      ensures t.id == old(nextPid) && nextPid == old(nextPid) + 1
      ensures t.parentId == 0 && t.state == Ready && t.stack == Zeros(stackSize) && t.stackTop == 0
      ensures t.fdTable == [None, None, None] && t.savedRsp == 0 && t.savedRip == 0 && t.exitStatus == 0
      ensures allTasks == old(allTasks) && runQueue == old(runQueue)
      ensures old(Valid()) ==> Valid()
    {
      var pid := nextPid;
      nextPid := nextPid + 1;
      t := new Task(pid, 0, Zeros(stackSize), 0, [None, None, None], 0, 0);
    }

    /** `parent.fork(child_rsp, child_rip)`: a Ready copy of the parent under the next pid. */
    method Fork(parent: Task, childRsp: u64, childRip: u64) returns (child: Task)
      modifies this
      ensures fresh(child)
      ensures child.id == old(nextPid) && nextPid == old(nextPid) + 1
      ensures child.parentId == parent.id && child.state == Ready && child.exitStatus == 0
      ensures child.stack == parent.stack && child.stackTop == parent.stackTop && child.fdTable == parent.fdTable
      ensures child.savedRsp == childRsp && child.savedRip == childRip
      ensures unchanged(parent)
      ensures allTasks == old(allTasks) && runQueue == old(runQueue)
      ensures old(Valid()) ==> Valid()
    {
      var pid := nextPid;
      nextPid := nextPid + 1;
      child := new Task(pid, parent.id, parent.stack, parent.stackTop, parent.fdTable, childRsp, childRip);
    }

    /** `spawn_task(task)`: append to the tail of the task list and of the run queue; return the pid. */
    method SpawnTask(t: Task) returns (pid: nat)
      modifies this
      ensures pid == t.id
      ensures allTasks == old(allTasks) + [t] && runQueue == old(runQueue) + [t]
      ensures nextPid == old(nextPid)
      ensures old(Valid()) && 1 <= t.id < nextPid ==> Valid()
    {
      pid := t.id;
      allTasks := allTasks + [t];
      runQueue := runQueue + [t];
    }

    /** `get_task_by_pid(pid)`: the first listed task with that pid, None when no task has it. */
    function GetTaskByPid(pid: nat): (r: Option<Task>)
      reads this
      ensures r.None? <==> forall k :: 0 <= k < |allTasks| ==> allTasks[k].id != pid
      ensures r.Some? ==> r.value.id == pid && exists k :: 0 <= k < |allTasks| && allTasks[k] == r.value
    {
      FindTask(allTasks, pid)
    }
  }

  /** Pids are distinct: no two entries of `tasks` share one. */
  predicate UniquePids(tasks: seq<Task>)
  {
    forall i, j :: 0 <= i < j < |tasks| ==> tasks[i].id != tasks[j].id
  }

  /**
   * A task list whose pids are all below the counter, extended by a task that takes
   * the counter's value, keeps distinct pids; then looking the new pid up finds it.
   */
  lemma SpawnFresh(tasks: seq<Task>, t: Task, nextPid: nat)
    requires UniquePids(tasks)
    requires forall k :: 0 <= k < |tasks| ==> tasks[k].id < nextPid
    requires t.id == nextPid
    ensures UniquePids(tasks + [t])
    ensures FindTask(tasks + [t], t.id) == Some(t)
  {
    FindAfterAppend(tasks, t, t.id);
  }

  /** With distinct pids, every listed task is the one found for its pid. */
  lemma FindUnique(tasks: seq<Task>, k: nat)
    requires UniquePids(tasks) && k < |tasks|
    ensures FindTask(tasks, tasks[k].id) == Some(tasks[k])
  {
  }
}
