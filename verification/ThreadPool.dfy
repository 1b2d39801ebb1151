/**
 The thread pool object and the adaptor that hands it to the HTTP server. Each method is one
 critical section or one thread's own sequence of steps, and is tied to the transition system
 by the actions it performs on the ghost state `machine`.
 */
module ThreadPool {
  import opened Wrappers
  import opened ThreadPoolMachine

  /** What the queue stores besides the callable: the id and whether a completion callback was given. */
  datatype TaskMeta = TaskMeta(id: nat, hasCallback: bool)

  function QueuedIds(tasks: seq<TaskMeta>): (ids: seq<nat>)
    ensures |ids| == |tasks| && forall i :: 0 <= i < |tasks| ==> ids[i] == tasks[i].id
  {
    seq(|tasks|, i requires 0 <= i < |tasks| => tasks[i].id)
  }

  /** The two actions of one call of `add_task`. */
  function Admission(s: State): seq<Action> {
    [Number, if |s.queue| < s.capacity then Accept else Refuse]
  }

  /** The five actions of one pass of the worker loop that finds a task. */
  function Iteration(w: nat): seq<Action> {
    [LoopTest(w), Wake(w), Test(w), Pop(w), Count(w)]
  }

  lemma AdmissionAccepts(s: State)
    requires s.mutex.Free? && |s.queue| < s.capacity
    ensures Feasible(s, [Number, Accept])
    ensures Exec(s, [Number, Accept]) ==
            s.(lastId := s.lastId + 1, queue := s.queue + [s.lastId], accepted := s.accepted + [s.lastId])
  {
    var t := Apply(s, Number);
    Then(t, Accept, []);
    Then(s, Number, [Accept]);
    assert [Accept] + [] == [Accept] && [Number] + [Accept] == [Number, Accept];
  }

  lemma AdmissionRefuses(s: State)
    requires s.mutex.Free? && |s.queue| >= s.capacity
    ensures Feasible(s, [Number, Refuse])
    ensures Exec(s, [Number, Refuse]) ==
            s.(lastId := s.lastId + 1, refused := s.refused + 1, rejected := s.rejected + [s.lastId])
  {
    var t := Apply(s, Number);
    Then(t, Refuse, []);
    Then(s, Number, [Refuse]);
    assert [Refuse] + [] == [Refuse] && [Number] + [Refuse] == [Number, Refuse];
  }

  lemma AdmissionSteps(s: State)
    requires s.mutex.Free?
    ensures Feasible(s, Admission(s))
    ensures Exec(s, Admission(s)) ==
            if |s.queue| < s.capacity
            then s.(lastId := s.lastId + 1, queue := s.queue + [s.lastId], accepted := s.accepted + [s.lastId])
            else s.(lastId := s.lastId + 1, refused := s.refused + 1, rejected := s.rejected + [s.lastId])
  {
    if |s.queue| < s.capacity { AdmissionAccepts(s); } else { AdmissionRefuses(s); }
  }

  /** One more admission behind any history. */
  lemma AdmissionMoves(threads: nat, capacity: nat, history: seq<Action>, s: State)
    requires Reachable(s, threads, capacity, history) && s.mutex.Free?
    ensures s.capacity == capacity && Feasible(Init(threads, capacity), history + Admission(s))
    ensures Exec(Init(threads, capacity), history + Admission(s)) ==
            if |s.queue| < capacity
            then s.(lastId := s.lastId + 1, queue := s.queue + [s.lastId], accepted := s.accepted + [s.lastId])
            else s.(lastId := s.lastId + 1, refused := s.refused + 1, rejected := s.rejected + [s.lastId])
  {
    ReachableInv(s, threads, capacity, history);
    AdmissionSteps(s);
    ExecConcat(Init(threads, capacity), history, Admission(s));
  }

  lemma QueuedOneMore(tasks: seq<TaskMeta>, task: TaskMeta)
    ensures QueuedIds(tasks + [task]) == QueuedIds(tasks) + [task.id]
  {
  }

  lemma IterationSteps(s: State, w: nat)
    requires s.mutex.Free? && !s.stop && s.queue != [] && w < |s.workers| && s.workers[w].AtLoop?
    ensures Feasible(s, Iteration(w))
    ensures Exec(s, Iteration(w)) ==
            s.(queue := s.queue[1..], started := s.started + [s.queue[0]],
               done := s.done + [s.queue[0]], completed := s.completed + 1)
  {
    var s1 := Apply(s, LoopTest(w));
    var s2 := Apply(s1, Wake(w));
    var s3 := Apply(s2, Test(w));
    var s4 := Apply(s3, Pop(w));
    var s5 := Apply(s4, Count(w));
    assert s5.workers == s.workers;
    Then(s4, Count(w), []);
    Then(s3, Pop(w), [Count(w)]);
    Then(s2, Test(w), [Pop(w), Count(w)]);
    Then(s1, Wake(w), [Test(w), Pop(w), Count(w)]);
    Then(s, LoopTest(w), [Wake(w), Test(w), Pop(w), Count(w)]);
    assert [LoopTest(w)] + [Wake(w), Test(w), Pop(w), Count(w)] == Iteration(w);
  }

  lemma IterationRuns(s: State, w: nat)
    requires Inv(s) && s.mutex.Free? && !s.stop && s.queue != [] && w < |s.workers| && s.workers[w].AtLoop?
    ensures Feasible(s, Iteration(w)) && Inv(Exec(s, Iteration(w)))
    ensures Exec(s, Iteration(w)) ==
            s.(queue := s.queue[1..], started := s.started + [s.queue[0]],
               done := s.done + [s.queue[0]], completed := s.completed + 1)
  {
    IterationSteps(s, w);
    ExecInv(s, Iteration(w));
  }

  lemma RunsOn(threads: nat, capacity: nat, history: seq<Action>, acts: seq<Action>)
    requires Feasible(Init(threads, capacity), history)
    requires Feasible(Exec(Init(threads, capacity), history), acts)
    ensures Feasible(Init(threads, capacity), history + acts)
    ensures Exec(Init(threads, capacity), history + acts) == Exec(Exec(Init(threads, capacity), history), acts)
  {
    ExecConcat(Init(threads, capacity), history, acts);
  }

  class ThreadPool {
    const threadsMaxCount: nat
    const tasksMaxCapacity: nat
    var tasks: seq<TaskMeta>
    var tasksLastId: nat
    var tasksCompletedCount: nat
    var tasksRefusedCount: nat
    var threadsStop: bool
    ghost var history: seq<Action>  // everything that has happened to this pool

    /** The state of the transition system this object is in. */
    ghost function Machine(): State
      reads this
      requires Feasible(Init(threadsMaxCount, tasksMaxCapacity), history)
    {
      Exec(Init(threadsMaxCount, tasksMaxCapacity), history)
    }

    ghost predicate Valid()
      reads this
    {
      && Feasible(Init(threadsMaxCount, tasksMaxCapacity), history)
      && Machine().queue == QueuedIds(tasks)
      && Machine().lastId == tasksLastId
      && Machine().completed == tasksCompletedCount
      && Machine().refused == tasksRefusedCount
      && Machine().stop == threadsStop
    }

    /** The queue mutex can be taken. */
    ghost predicate Unlocked()
      reads this
    {
      Valid() && Machine().mutex.Free?
    }

    constructor (threadsCount: nat, tasksCapacity: nat)
      ensures Unlocked() && Machine() == Init(threadsCount, tasksCapacity)
      ensures threadsMaxCount == threadsCount && tasksMaxCapacity == tasksCapacity
    {
      threadsMaxCount, tasksMaxCapacity := threadsCount, tasksCapacity;
      tasks, tasksLastId, tasksCompletedCount, tasksRefusedCount, threadsStop := [], 0, 0, 0, false;
      history := [];
    }

    /** The id is drawn before the capacity test; a refusal is reported only to callers with a callback. */
    method AddTask(hasCallback: bool) returns (id: Option<nat>)
      requires Unlocked()
      modifies this`tasks, this`tasksLastId, this`tasksRefusedCount, this`history
      ensures Unlocked() && history == old(history + Admission(Machine()))
      ensures tasksLastId == old(tasksLastId) + 1
      ensures |old(tasks)| < tasksMaxCapacity ==>
                tasks == old(tasks) + [TaskMeta(old(tasksLastId), hasCallback)] &&
                tasksRefusedCount == old(tasksRefusedCount) && id == Some(old(tasksLastId))
      ensures |old(tasks)| >= tasksMaxCapacity ==>
                tasks == old(tasks) && tasksRefusedCount == old(tasksRefusedCount) + 1 &&
                id == if hasCallback then None else Some(old(tasksLastId))
    {
      AdmissionMoves(threadsMaxCount, tasksMaxCapacity, history, Machine());
      QueuedOneMore(tasks, TaskMeta(tasksLastId, hasCallback));
      history := history + Admission(Machine());

      var refused := false;
      var drawn := tasksLastId;
      tasksLastId := tasksLastId + 1;
      if |tasks| < tasksMaxCapacity {
        tasks := tasks + [TaskMeta(drawn, hasCallback)];
      } else {
        refused := true;
        tasksRefusedCount := tasksRefusedCount + 1;
      }
      if refused && hasCallback {
        return None;
      }
      return Some(drawn);
    }

    /**
     What worker `w` does on its own, with nobody else stepping in between: run the queue dry in
     order and block, or leave at once when the stop flag is up.
     */
    method Run(w: nat)
      requires Unlocked() && w < |Machine().workers| && Machine().workers[w].AtLoop?
      modifies this`tasks, this`tasksCompletedCount, this`history
      ensures Unlocked() && old(history) <= history && |Machine().workers| == old(|Machine().workers|)
      ensures threadsStop ==>
                tasks == old(tasks) && tasksCompletedCount == old(tasksCompletedCount) && Machine().workers[w].Exited?
      ensures !threadsStop ==>
                tasks == [] && tasksCompletedCount == old(tasksCompletedCount) + |old(tasks)| &&
                Machine().done == old(Machine().done) + QueuedIds(old(tasks)) && Machine().workers[w].Waiting?
    {
      while !threadsStop && tasks != []
        invariant Unlocked() && |Machine().workers| == old(|Machine().workers|) && Machine().workers[w].AtLoop?
        invariant old(history) <= history
        invariant tasksCompletedCount + |tasks| == old(tasksCompletedCount) + |old(tasks)|
        invariant Machine().done + QueuedIds(tasks) == old(Machine().done) + QueuedIds(old(tasks))
        invariant threadsStop ==> tasks == old(tasks)
        decreases |tasks|
      {
        RunIteration(w);
      }
      RunsOn(threadsMaxCount, tasksMaxCapacity, history, [LoopTest(w)]);
      history := history + [LoopTest(w)];
    }

    /** One pass of the worker loop that finds a task; the task returns or throws, and is counted either way. */
    method RunIteration(w: nat)
      requires Unlocked() && w < |Machine().workers| && Machine().workers[w].AtLoop?
      requires !threadsStop && tasks != []
      modifies this`tasks, this`tasksCompletedCount, this`history
      ensures Unlocked() && history == old(history) + Iteration(w)
      ensures Machine().workers == old(Machine().workers)
      ensures tasks == old(tasks)[1..] && tasksCompletedCount == old(tasksCompletedCount) + 1
      ensures Machine().done == old(Machine().done) + [old(tasks)[0].id]
    {
      ReachableInv(Machine(), threadsMaxCount, tasksMaxCapacity, history);
      IterationRuns(Machine(), w);
      RunsOn(threadsMaxCount, tasksMaxCapacity, history, Iteration(w));
      history := history + Iteration(w);

      tasks := tasks[1..];
      tasksCompletedCount := tasksCompletedCount + 1;
    }

    /** The predicate of `wait_all`, evaluated with no other thread in between. */
    method WaitAllCanReturn() returns (ready: bool)
      requires Valid()
      ensures ready <==> Quiescent(Machine())
    {
      var completed := tasksCompletedCount;
      var refused := tasksRefusedCount;
      ready := completed + refused == tasksLastId;
      ReachableInv(Machine(), threadsMaxCount, tasksMaxCapacity, history);
      CountersOf(Machine());
    }

    /** The part of the destructor before the joins. */
    method RequestStop()
      requires Valid()
      modifies this`threadsStop, this`history
      ensures Valid() && threadsStop && history == old(history) + [Stop]
    {
      RunsOn(threadsMaxCount, tasksMaxCapacity, history, [Stop]);
      threadsStop := true;
      history := history + [Stop];
    }
  }

  /** The task queue given to the HTTP server. */
  class ThreadPoolAdaptor {
    const pool: ThreadPool

    constructor (threadsCount: nat, tasksCapacity: nat)
      ensures fresh(pool) && pool.Unlocked() && pool.Machine() == Init(threadsCount, tasksCapacity)
    {
      pool := new ThreadPool(threadsCount, tasksCapacity);
    }

    /**
     Documented to return true only if the task was enqueued; as no callback is passed it always
     returns true, so the answer is right exactly when there was room.
     */
    method Enqueue() returns (ok: bool)
      requires pool.Unlocked()
      modifies pool
      ensures pool.Unlocked()
      ensures |pool.tasks| == |old(pool.tasks)| + 1 || pool.tasks == old(pool.tasks)
      ensures (ok <==> |pool.tasks| == |old(pool.tasks)| + 1) <==> |old(pool.tasks)| < pool.tasksMaxCapacity
      ensures ok
    {
      var id := pool.AddTask(false);
      ok := id.Some?;
    }
  }
}
