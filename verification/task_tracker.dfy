/** The task list of client/src/hooks/useWebSocketQueue.ts: tasks appended as
    `POST /api/queue-request` calls return, completed as `result` messages
    arrive over the WebSocket, and the sticky `allCompleted` flag. */
module TaskTracker {
  import opened Seqs

  datatype TaskStatus = Pending | Completed

  datatype Task = Task(id: string, status: TaskStatus, result: Option<string>, createdAt: int)

  /** A WebSocket frame after `JSON.parse`: a message with its `type` and `data`
      fields, or a frame that `JSON.parse` rejects, which throws inside the
      handler's `try` and is only logged. */
  datatype Frame = Message(kind: string, id: string, text: string) | Unparsable

  /** The task a result for `id` with `text` turns `t` into. */
  function Settle(t: Task, id: string, text: string): Task
  {
    if t.id == id then t.(status := Completed, result := Some(text)) else t
  }

  /** `currentTasks.map(...)` for a result message: every task with the message's
      id is completed with its text; nothing else moves or changes. */
  function ApplyResult(tasks: seq<Task>, id: string, text: string): (r: seq<Task>)
    ensures |r| == |tasks|
    ensures forall i :: 0 <= i < |tasks| ==> r[i].id == tasks[i].id && r[i].createdAt == tasks[i].createdAt
    ensures forall i :: 0 <= i < |tasks| && tasks[i].id == id ==>
      r[i].status == Completed && r[i].result == Some(text)
    ensures forall i :: 0 <= i < |tasks| && tasks[i].id != id ==> r[i] == tasks[i]
  {
    if tasks == [] then [] else [Settle(tasks[0], id, text)] + ApplyResult(tasks[1..], id, text)
  }

  /** `updatedTasks.every(task => task.status === 'completed')`. */
  predicate AllDone(tasks: seq<Task>)
  {
    forall i :: 0 <= i < |tasks| ==> tasks[i].status == Completed
  }

  predicate IsResult(frame: Frame)
  {
    frame.Message? && frame.kind == "result"
  }

  /** The task list after `onmessage` handles `frame`. */
  function Receive(tasks: seq<Task>, frame: Frame): seq<Task>
  {
    if IsResult(frame) then ApplyResult(tasks, frame.id, frame.text) else tasks
  }

  /** A result for an id no task has leaves the list as it was. */
  lemma UnknownIdUnchanged(tasks: seq<Task>, id: string, text: string)
    requires forall i :: 0 <= i < |tasks| ==> tasks[i].id != id
    ensures ApplyResult(tasks, id, text) == tasks
  {
  }

  /** Receiving the same result twice is the same as receiving it once. */
  lemma ApplyResultIdempotent(tasks: seq<Task>, id: string, text: string)
    ensures ApplyResult(ApplyResult(tasks, id, text), id, text) == ApplyResult(tasks, id, text)
  {
    var once := ApplyResult(tasks, id, text);
    var twice := ApplyResult(once, id, text);
    assert forall i :: 0 <= i < |tasks| ==> twice[i] == once[i];
  }

  /** After a result, every task is completed exactly when each task either has
      the result's id or was completed already. */
  lemma AllDoneAfterResult(tasks: seq<Task>, id: string, text: string)
    ensures AllDone(ApplyResult(tasks, id, text))
        <==> forall i :: 0 <= i < |tasks| ==> tasks[i].id == id || tasks[i].status == Completed
  {
    var r := ApplyResult(tasks, id, text);
    if AllDone(r) {
      forall i | 0 <= i < |tasks|
        ensures tasks[i].id == id || tasks[i].status == Completed
      {
        assert r[i].status == Completed;
      }
    }
  }

  /** The task list after the frames arrive one by one. */
  function ReceiveAll(tasks: seq<Task>, frames: seq<Frame>): (r: seq<Task>)
    ensures |r| == |tasks|
    decreases |frames|
  {
    if frames == [] then tasks else ReceiveAll(Receive(tasks, frames[0]), frames[1..])
  }

  /** Frames never reorder, drop or rename tasks, and never reopen a completed one. */
  lemma {:induction false} ReceiveAllKeeps(tasks: seq<Task>, frames: seq<Frame>)
    ensures forall i :: 0 <= i < |tasks| ==> ReceiveAll(tasks, frames)[i].id == tasks[i].id
    ensures forall i :: 0 <= i < |tasks| && tasks[i].status == Completed ==>
      ReceiveAll(tasks, frames)[i].status == Completed
    decreases |frames|
  {
    if frames != [] {
      ReceiveAllKeeps(Receive(tasks, frames[0]), frames[1..]);
    }
  }

  /** A task for which some result frame arrives ends up completed. */
  lemma {:induction false} ResultCompletes(tasks: seq<Task>, frames: seq<Frame>, i: int, k: int)
    requires 0 <= i < |tasks| && 0 <= k < |frames|
    requires IsResult(frames[k]) && frames[k].id == tasks[i].id
    ensures ReceiveAll(tasks, frames)[i].status == Completed
    decreases |frames|
  {
    ReceiveAllKeeps(tasks, frames);
    var next := Receive(tasks, frames[0]);
    if k == 0 {
      ReceiveAllKeeps(next, frames[1..]);
    } else {
      ResultCompletes(next, frames[1..], i, k - 1);
    }
  }

  /** Once a result has arrived for every task, every task is completed. */
  lemma ResultsForEveryTask(tasks: seq<Task>, frames: seq<Frame>)
    requires forall i :: 0 <= i < |tasks| ==>
      exists k :: 0 <= k < |frames| && IsResult(frames[k]) && frames[k].id == tasks[i].id
    ensures AllDone(ReceiveAll(tasks, frames))
  {
    ReceiveAllKeeps(tasks, frames);
    forall i | 0 <= i < |tasks|
      ensures ReceiveAll(tasks, frames)[i].status == Completed
    {
      var k :| 0 <= k < |frames| && IsResult(frames[k]) && frames[k].id == tasks[i].id;
      ResultCompletes(tasks, frames, i, k);
    }
  }

  /** The hook's state: `tasks` and `allCompleted`. */
  class TaskList {
    var tasks: seq<Task>
    var allCompleted: bool

    constructor()
      ensures tasks == [] && !allCompleted
    {
      tasks := [];
      allCompleted := false;
    }

    /** The `.then` of one `api.queue.create()`: a pending task with the returned
        id goes to the end of the list. */
    method Created(id: string, now: int)
      modifies this
      ensures tasks == old(tasks) + [Task(id, Pending, None, now)]
      ensures allCompleted == old(allCompleted)
    {
      tasks := tasks + [Task(id, Pending, None, now)];
    }

    /** `onopen`: the create requests issued there, of which `created` are the
        ids returned by those that succeed, in the order their responses arrive,
        each stamped with its `stamps` entry. */
    method Open(created: seq<string>, stamps: seq<int>)
      requires |stamps| == |created|
      modifies this
      ensures |tasks| == |old(tasks)| + |created|
      ensures tasks[..|old(tasks)|] == old(tasks)
      ensures forall k :: 0 <= k < |created| ==>
        tasks[|old(tasks)| + k] == Task(created[k], Pending, None, stamps[k])
      ensures allCompleted == old(allCompleted)
    {
      var i := 0;
      while i < |created|
        invariant 0 <= i <= |created|
        invariant |tasks| == |old(tasks)| + i
        invariant tasks[..|old(tasks)|] == old(tasks)
        invariant forall k :: 0 <= k < i ==> tasks[|old(tasks)| + k] == Task(created[k], Pending, None, stamps[k])
        invariant allCompleted == old(allCompleted)
      {
        Created(created[i], stamps[i]);
        i := i + 1;
      }
    }

    /** `onmessage`: a result message updates the list, and the flag is raised
        once every task is completed; it is never lowered again. */
    method OnMessage(frame: Frame)
      modifies this
      ensures tasks == Receive(old(tasks), frame)
      ensures allCompleted == (old(allCompleted) || (IsResult(frame) && AllDone(tasks)))
    {
      if IsResult(frame) {
        var updated := ApplyResult(tasks, frame.id, frame.text);
        if AllDone(updated) {
          allCompleted := true;
        }
        tasks := updated;
      }
    }
  }

  /** A result that arrives while the list is still empty raises the flag: an
      empty list counts as all completed. */
  method ResultBeforeAnyTask(id: string, text: string) returns (done: bool)
    ensures done
  {
    var list := new TaskList();
    list.OnMessage(Message("result", id, text));
    done := list.allCompleted;
  }

  /** Two tasks, one result each: the flag is raised by the second result only. */
  method TwoTasks(a: string, b: string, text: string) returns (afterFirst: bool, afterSecond: bool)
    requires a != b
    ensures !afterFirst && afterSecond
  {
    var list := new TaskList();
    list.Created(a, 0);
    list.Created(b, 1);
    list.OnMessage(Message("result", a, text));
    afterFirst := list.allCompleted;
    assert list.tasks[1].status == Pending;
    list.OnMessage(Message("result", b, text));
    afterSecond := list.allCompleted;
  }
}
