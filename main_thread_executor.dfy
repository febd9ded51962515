/** The main-thread task queue of MainThreadExecutor.hpp. The source queues
    closures; here each closure the engine queues is a `Task` value naming
    the deferred operation. `Spawn` stands for tasks queued while a drain
    runs: the drain loop re-checks the queue after every task, so they run
    in the same drain. No closure in this program queues tasks itself; the
    world thread's QueueTask calls can land mid-drain, and in the sequential
    model a Spawn task is where they land. Running the concrete operations
    needs the whole engine, so the drain loop lives next to the engine state
    (module World, method UpdateTasks); this module holds the queue and
    `Schedule`, the order in which a drain invokes tasks. */
module MainThreadExecutor {
  import opened Vectors
  import opened NameIDTag
  import opened Wrappers

  datatype Task =
    | Empty                       // an empty std::function: popped, never invoked
    | AttachAtlas(chunk: nat)     // Chunk::Initialize: mesh->RegisterTexture("atlas")
    | UploadMesh(chunk: nat)      // Chunk::Rebuild: RegisterData, Generate or ReGenerate, RegisterObject
    | ReleaseMesh(mesh: Tag)      // RenderableObject::CleanUp: delete the GL buffers, clean up the shader
    | EraseObject(name: Tag)      // Renderer::RemoveObject: registeredObjects.erase(name)
    | EraseChunk(key: IVec3)      // ThreadedChunkMap::RemoveChunk: loadedChunks.erase(key)
    | Spawn(tasks: seq<Task>)     // `tasks` queued while the drain runs, at this point

  /** A measure that drops by at least one whenever a task is popped, even
      when the popped task queues others. */
  function Size(t: Task): (n: nat)
    ensures n >= 1
  {
    match t
    case Spawn(ts) => 1 + SizeAll(ts)
    case _ => 1
  }

  function SizeAll(ts: seq<Task>): nat {
    if ts == [] then 0 else Size(ts[0]) + SizeAll(ts[1..])
  }

  lemma {:induction false} SizeAllAppend(a: seq<Task>, b: seq<Task>)
    ensures SizeAll(a + b) == SizeAll(a) + SizeAll(b)
    decreases |a|
  {
    if a == [] {
      assert a + b == b;
    } else {
      assert (a + b)[1..] == a[1..] + b;
      SizeAllAppend(a[1..], b);
    }
  }

  /** The tasks of `ts` that a drain invokes, in queue order. */
  function NonEmpty(ts: seq<Task>): seq<Task> {
    if ts == [] then []
    else if ts[0] == Empty then NonEmpty(ts[1..])
    else [ts[0]] + NonEmpty(ts[1..])
  }

  /** The tasks that the spawning tasks of `ts` queue when they run, in order. */
  function Children(ts: seq<Task>): seq<Task> {
    if ts == [] then []
    else (if ts[0].Spawn? then ts[0].tasks else []) + Children(ts[1..])
  }

  /** The tasks one UpdateTasks invokes, in order, starting from queue `ts`:
      the front is popped first; an empty task is dropped without being
      invoked; a spawning task runs and appends its tasks at the back. */
  function Schedule(ts: seq<Task>): seq<Task>
    decreases SizeAll(ts)
  {
    if ts == [] then []
    else
      var t, rest := ts[0], ts[1..];
      assert SizeAll(ts) == Size(t) + SizeAll(rest);
      match t
      case Empty => Schedule(rest)
      case Spawn(children) =>
        SizeAllAppend(rest, children);
        [t] + Schedule(rest + children)
      case _ => [t] + Schedule(rest)
  }

  /** One pop of the drain, as Schedule sees it. */
  lemma ScheduleStep(t: Task, rest: seq<Task>)
    ensures t == Empty ==> Schedule([t] + rest) == Schedule(rest)
    ensures t.Spawn? ==> Schedule([t] + rest) == [t] + Schedule(rest + t.tasks)
    ensures t != Empty && !t.Spawn? ==> Schedule([t] + rest) == [t] + Schedule(rest)
  {
    assert ([t] + rest)[0] == t && ([t] + rest)[1..] == rest;
  }

  /** FIFO: the tasks already queued run first, in queue order, before anything
      they queue; what they queue runs after everything queued before it. */
  lemma {:induction false} ScheduleAppend(a: seq<Task>, b: seq<Task>)
    ensures Schedule(a + b) == NonEmpty(a) + Schedule(b + Children(a))
    decreases |a|
  {
    if a == [] {
      assert a + b == b && b + Children(a) == b;
    } else {
      var t, r := a[0], a[1..];
      assert a == [t] + r;
      assert a + b == [t] + (r + b);
      ScheduleStep(t, r + b);
      ConsParts(t, r);
      if t == Empty {
        ScheduleAppend(r, b);
        assert NonEmpty(a) == NonEmpty(r) && Children(a) == Children(r);
      } else if t.Spawn? {
        assert r + b + t.tasks == r + (b + t.tasks);
        ScheduleAppend(r, b + t.tasks);
        assert NonEmpty(a) == [t] + NonEmpty(r) && Children(a) == t.tasks + Children(r);
        assert b + t.tasks + Children(r) == b + (t.tasks + Children(r));
      } else {
        ScheduleAppend(r, b);
        assert NonEmpty(a) == [t] + NonEmpty(r) && Children(a) == Children(r);
        assert [t] + (NonEmpty(r) + Schedule(b + Children(r))) == [t] + NonEmpty(r) + Schedule(b + Children(r));
      }
    }
  }

  /** NonEmpty and Children of a queue with `t` at its front. */
  lemma ConsParts(t: Task, r: seq<Task>)
    ensures NonEmpty([t] + r) == (if t == Empty then [] else [t]) + NonEmpty(r)
    ensures Children([t] + r) == (if t.Spawn? then t.tasks else []) + Children(r)
  {
    assert ([t] + r)[0] == t && ([t] + r)[1..] == r;
  }

  /** The queue before a drain runs first, in order and without its empty tasks. */
  lemma QueuedTasksRunFirst(ts: seq<Task>)
    ensures Schedule(ts) == NonEmpty(ts) + Schedule(Children(ts))
  {
    ScheduleAppend(ts, []);
    assert ts + [] == ts && [] + Children(ts) == Children(ts);
  }

  /** A drain never invokes an empty task. */
  lemma {:induction false} ScheduleHasNoEmpty(ts: seq<Task>)
    ensures forall i :: 0 <= i < |Schedule(ts)| ==> Schedule(ts)[i] != Empty
    decreases SizeAll(ts)
  {
    if ts != [] {
      var t, r := ts[0], ts[1..];
      assert ts == [t] + r;
      assert SizeAll(ts) == Size(t) + SizeAll(r);
      ScheduleStep(t, r);
      SizeAllAppend(r, if t.Spawn? then t.tasks else []);
      if t.Spawn? {
        ScheduleHasNoEmpty(r + t.tasks);
      } else {
        ScheduleHasNoEmpty(r);
      }
    }
  }

  /** A task that a queued task queues while it runs is invoked by the same
      drain, unless it is empty. */
  lemma SpawnedTasksRun(ts: seq<Task>, i: int)
    requires 0 <= i < |Children(ts)| && Children(ts)[i] != Empty
    ensures Children(ts)[i] in Schedule(ts)
  {
    QueuedTasksRunFirst(ts);
    QueuedTasksRunFirst(Children(ts));
    NonEmptyKeeps(Children(ts), i);
  }

  lemma {:induction false} NonEmptyKeeps(ts: seq<Task>, i: int)
    requires 0 <= i < |ts| && ts[i] != Empty
    ensures ts[i] in NonEmpty(ts)
    decreases |ts|
  {
    if i > 0 {
      NonEmptyKeeps(ts[1..], i - 1);
    }
  }

  /** Empty tasks are dropped and never invoked, wherever they sit in the queue. */
  lemma EmptyTasksAreSkipped(a: seq<Task>, b: seq<Task>)
    ensures Schedule(a + [Empty] + b) == NonEmpty(a) + Schedule(b + Children(a))
  {
    assert a + [Empty] + b == a + ([Empty] + b);
    ScheduleAppend(a, [Empty] + b);
    assert ([Empty] + b) + Children(a) == [Empty] + (b + Children(a));
    ScheduleStep(Empty, b + Children(a));
  }

  /** The tasks a drain invokes from a queue are its non-empty tasks. */
  lemma {:induction false} NonEmptyMembers(ts: seq<Task>, t: Task)
    ensures t in NonEmpty(ts) <==> t in ts && t != Empty
    decreases |ts|
  {
    if ts != [] {
      NonEmptyMembers(ts[1..], t);
      assert ts == [ts[0]] + ts[1..];
    }
  }

  /** A queue whose tasks spawn nothing. */
  predicate NoSpawn(ts: seq<Task>) {
    forall i :: 0 <= i < |ts| ==> !ts[i].Spawn?
  }

  lemma {:induction false} NoSpawnNoChildren(ts: seq<Task>)
    requires NoSpawn(ts)
    ensures Children(ts) == []
    decreases |ts|
  {
    if ts != [] {
      assert NoSpawn(ts[1..]) by {
        forall i | 0 <= i < |ts| - 1
          ensures !ts[1..][i].Spawn?
        {
          assert ts[1..][i] == ts[i + 1];
        }
      }
      NoSpawnNoChildren(ts[1..]);
    }
  }

  /** A drain of a queue that spawns nothing invokes its non-empty tasks, in
      queue order, and nothing else. */
  lemma ScheduleWithoutSpawn(ts: seq<Task>)
    requires NoSpawn(ts)
    ensures Schedule(ts) == NonEmpty(ts)
  {
    QueuedTasksRunFirst(ts);
    NoSpawnNoChildren(ts);
    assert Schedule([]) == [];
    assert NonEmpty(ts) + [] == NonEmpty(ts);
  }

  /** One pop of the drain: `t` is popped from `before`, invoked unless it
      is empty, and appends its children; what still has to run shrinks by
      `t` and the measure drops. */
  lemma DrainStep(ran: seq<Task>, before: seq<Task>, t: Task, rest: seq<Task>, goal: seq<Task>)
    requires before == [t] + rest
    requires ran + Schedule(before) == goal
    ensures (ran + (if t != Empty then [t] else [])) + Schedule(rest + (if t.Spawn? then t.tasks else [])) == goal
    ensures SizeAll(rest + (if t.Spawn? then t.tasks else [])) < SizeAll(before)
  {
    assert before[0] == t && before[1..] == rest;
    assert SizeAll(before) == Size(t) + SizeAll(rest);
    ScheduleStep(t, rest);
    if t == Empty {
      assert ran + [] == ran && rest + [] == rest;
    } else if t.Spawn? {
      SizeAllAppend(rest, t.tasks);
      assert (ran + [t]) + Schedule(rest + t.tasks) == ran + ([t] + Schedule(rest + t.tasks));
    } else {
      assert rest + [] == rest;
      assert (ran + [t]) + Schedule(rest) == ran + ([t] + Schedule(rest));
    }
  }

  /** MainThreadExecutor::taskQueue. */
  class TaskQueue {
    var tasks: seq<Task>

    constructor ()
      ensures tasks == []
    {
      tasks := [];
    }

    /** MainThreadExecutor::QueueTask: push at the back. */
    method QueueTask(t: Task)
      modifies this
      ensures tasks == old(tasks) + [t]
    {
      tasks := tasks + [t];
    }

    /** QueueTask for each of `ts`, in order. */
    method QueueAll(ts: seq<Task>)
      modifies this
      ensures tasks == old(tasks) + ts
    {
      var i := 0;
      while i < |ts|
        invariant 0 <= i <= |ts|
        invariant tasks == old(tasks) + ts[..i]
      {
        QueueTask(ts[i]);
        assert ts[..i + 1] == ts[..i] + [ts[i]];
        i := i + 1;
      }
      assert ts[..i] == ts;
    }

    /** The guarded block of UpdateTasks: nothing when the queue is empty,
        otherwise front() followed by pop(). */
    method Pop() returns (t: Option<Task>)
      modifies this
      ensures old(tasks) == [] ==> t == None && tasks == []
      ensures old(tasks) != [] ==> t == Some(old(tasks)[0]) && tasks == old(tasks)[1..]
    {
      if tasks == [] {
        t := None;
      } else {
        t := Some(tasks[0]);
        tasks := tasks[1..];
      }
    }
  }
}
