/**
 The thread pool as a transition system: one action per step that another thread can see
 between two others. The queue mutex is explicit, the three counters and the stop flag are
 read without it, and four history variables record which task ids went where.
 */
module ThreadPoolMachine {
  import opened Tallies

  /** Who holds `tasks_mutex_`. An admission holds it together with the id it has just drawn. */
  datatype Mutex = Free | Admitting(id: nat) | HeldBy(worker: nat)

  /** Where one worker is inside its loop. */
  datatype Worker =
    | AtLoop            // about to test `!threads_stop_`
    | Waiting           // in the condition wait, without the mutex
    | Holding           // woken with the mutex, about to evaluate the inner `if`
    | Popping           // the `if` held, about to take the front of the queue
    | Running(id: nat)  // mutex released, executing the task and its callback
    | Exited

  datatype State = State(
    capacity: nat, queue: seq<nat>,
    lastId: nat, completed: nat, refused: nat,
    mutex: Mutex, stop: bool, workers: seq<Worker>,
    // history
    accepted: seq<nat>, rejected: seq<nat>, started: seq<nat>, done: seq<nat>)

  datatype Action =
    | Number            // a caller locks the mutex and draws the next id
    | Accept            // ... finds room and enqueues
    | Refuse            // ... finds no room and counts a refusal
    | LoopTest(w: nat) | Wake(w: nat) | Test(w: nat) | Pop(w: nat)
    | Count(w: nat)     // the task has returned or thrown; its completion is counted
    | Stop              // the destructor raises the stop flag

  function Init(threads: nat, capacity: nat): State {
    State(capacity, [], 0, 0, 0, Free, false, seq(threads, _ => AtLoop), [], [], [], [])
  }

  predicate Enabled(s: State, a: Action) {
    match a
    case Number => s.mutex.Free?
    case Accept => s.mutex.Admitting? && |s.queue| < s.capacity
    case Refuse => s.mutex.Admitting? && |s.queue| >= s.capacity
    case LoopTest(w) => w < |s.workers| && s.workers[w].AtLoop?
    case Wake(w) => w < |s.workers| && s.workers[w].Waiting? && s.mutex.Free? && (s.queue != [] || s.stop)
    case Test(w) => w < |s.workers| && s.workers[w].Holding?
    case Pop(w) => w < |s.workers| && s.workers[w].Popping?
    case Count(w) => w < |s.workers| && s.workers[w].Running?
    case Stop => true
  }

  /** Taking the front of an empty queue is undefined; `PopFindsTask` shows it never happens. */
  function Front(s: State): nat {
    if s.queue == [] then s.lastId else s.queue[0]
  }

  function Apply(s: State, a: Action): State
    requires Enabled(s, a)
  {
    match a
    case Number => s.(lastId := s.lastId + 1, mutex := Admitting(s.lastId))
    case Accept => s.(queue := s.queue + [s.mutex.id], mutex := Free, accepted := s.accepted + [s.mutex.id])
    case Refuse => s.(refused := s.refused + 1, mutex := Free, rejected := s.rejected + [s.mutex.id])
    case LoopTest(w) => s.(workers := s.workers[w := if s.stop then Exited else Waiting])
    case Wake(w) => s.(mutex := HeldBy(w), workers := s.workers[w := Holding])
    case Test(w) =>
      if s.queue != [] && !s.stop then s.(workers := s.workers[w := Popping])
      else s.(mutex := Free, workers := s.workers[w := AtLoop])
    case Pop(w) =>
      s.(queue := if s.queue == [] then [] else s.queue[1..],
         mutex := Free,
         workers := s.workers[w := Running(Front(s))],
         started := s.started + [Front(s)])
    case Count(w) =>
      s.(completed := s.completed + 1, workers := s.workers[w := AtLoop], done := s.done + [s.workers[w].id])
    case Stop => s.(stop := true)
  }

  predicate Feasible(s: State, acts: seq<Action>)
    decreases |acts|
  {
    acts == [] || (Enabled(s, acts[0]) && Feasible(Apply(s, acts[0]), acts[1..]))
  }

  function Exec(s: State, acts: seq<Action>): State
    requires Feasible(s, acts)
    decreases |acts|
  {
    if acts == [] then s else Exec(Apply(s, acts[0]), acts[1..])
  }

  lemma Then(s: State, a: Action, rest: seq<Action>)
    requires Enabled(s, a) && Feasible(Apply(s, a), rest)
    ensures Feasible(s, [a] + rest) && Exec(s, [a] + rest) == Exec(Apply(s, a), rest)
  {
    assert ([a] + rest)[1..] == rest;
  }

  lemma {:induction false} ExecConcat(s: State, first: seq<Action>, second: seq<Action>)
    requires Feasible(s, first) && Feasible(Exec(s, first), second)
    ensures Feasible(s, first + second) && Exec(s, first + second) == Exec(Exec(s, first), second)
    decreases |first|
  {
    if first == [] {
      assert first + second == second;
    } else {
      ExecConcat(Apply(s, first[0]), first[1..], second);
      assert (first + second)[1..] == first[1..] + second;
    }
  }

  // ------------------------------------------------------------------ the invariant

  function IdsOf(w: Worker): multiset<nat> {
    if w.Running? then multiset{w.id} else multiset{}
  }

  function Busy(workers: seq<Worker>): multiset<nat> {
    Gather(workers, IdsOf)
  }

  function InAdmission(m: Mutex): multiset<nat> {
    if m.Admitting? then multiset{m.id} else multiset{}
  }

  /** Every id drawn so far is accounted for, once. */
  ghost predicate Accounted(s: State) {
    && IdsMatch(s)
    && BusyMatches(s)
    && s.refused == |s.rejected|
    && s.completed == |s.done|
  }

  /** Tasks start in the order they were accepted, and the queue is what has not started yet. */
  ghost predicate Ordered(s: State) {
    && s.started + s.queue == s.accepted
    && StrictlyIncreasing(s.accepted)
    && |s.queue| <= s.capacity
    && (forall i :: 0 <= i < |s.accepted| ==> s.accepted[i] < s.lastId)
    && (s.mutex.Admitting? ==>
          s.mutex.id + 1 == s.lastId && forall i :: 0 <= i < |s.accepted| ==> s.accepted[i] < s.mutex.id)
  }

  predicate InCriticalSection(w: Worker) {
    w.Holding? || w.Popping?
  }

  /** A worker is inside the critical section exactly when the mutex says so, and then sees a task to pop. */
  ghost predicate MutexMatches(s: State) {
    && (s.mutex.HeldBy? ==> s.mutex.worker < |s.workers|)
    && (forall w: nat :: w < |s.workers| ==> (InCriticalSection(s.workers[w]) <==> s.mutex == HeldBy(w)))
    && (forall w: nat :: w < |s.workers| && s.workers[w].Popping? ==> s.queue != [])
  }

  ghost predicate Inv(s: State) {
    Accounted(s) && Ordered(s) && MutexMatches(s)
  }

  lemma InitInv(threads: nat, capacity: nat)
    ensures Inv(Init(threads, capacity))
  {
    GatherEmpty(Init(threads, capacity).workers, IdsOf);
  }

  lemma StepMutex(s: State, a: Action)
    requires MutexMatches(s) && Enabled(s, a)
    ensures MutexMatches(Apply(s, a))
  {
  }

  lemma StepOrdered(s: State, a: Action)
    requires Ordered(s) && MutexMatches(s) && Enabled(s, a)
    ensures Ordered(Apply(s, a))
  {
    var t := Apply(s, a);
    if a.Accept? {
      assert t.started + t.queue == (s.started + s.queue) + [s.mutex.id];
    } else if a.Pop? {
      assert s.queue == [s.queue[0]] + s.queue[1..];
      assert t.started + t.queue == s.started + s.queue;
    }
  }

  lemma BusyUpdate(workers: seq<Worker>, w: nat, x: Worker)
    requires w < |workers|
    ensures Busy(workers[w := x]) + IdsOf(workers[w]) == Busy(workers) + IdsOf(x)
    ensures IdsOf(workers[w]) == multiset{} ==> Busy(workers[w := x]) == Busy(workers) + IdsOf(x)
  {
    GatherUpdate(workers, w, x, IdsOf);
  }

  /** Tasks taken from the queue and not yet counted as completed are exactly what the workers run. */
  ghost predicate BusyMatches(s: State) {
    multiset(s.started) == multiset(s.done) + Busy(s.workers)
  }

  lemma PopBusy(s: State, w: nat)
    requires BusyMatches(s) && Enabled(s, Pop(w))
    ensures BusyMatches(Apply(s, Pop(w)))
  {
    BusyUpdate(s.workers, w, Running(Front(s)));
  }

  lemma CountBusy(s: State, w: nat)
    requires BusyMatches(s) && Enabled(s, Count(w))
    ensures BusyMatches(Apply(s, Count(w)))
  {
    var t, ran := Apply(s, Count(w)), multiset{s.workers[w].id};
    BusyUpdate(s.workers, w, AtLoop);
    assert Busy(s.workers) == Busy(t.workers) + ran;
    assert multiset(t.done) == multiset(s.done) + ran;
  }

  lemma MoveBusy(s: State, w: nat, x: Worker)
    requires w < |s.workers| && !s.workers[w].Running? && !x.Running?
    ensures Busy(s.workers[w := x]) == Busy(s.workers)
  {
    BusyUpdate(s.workers, w, x);
  }

  lemma StepBusy(s: State, a: Action)
    requires BusyMatches(s) && Enabled(s, a)
    ensures BusyMatches(Apply(s, a))
  {
    if a.Pop? {
      PopBusy(s, a.w);
    } else if a.Count? {
      CountBusy(s, a.w);
    } else if a.LoopTest? || a.Wake? || a.Test? {
      MoveBusy(s, a.w, Apply(s, a).workers[a.w]);
    }
  }

  /** The ids a state has handed out, by what became of the admission. */
  function Drawn(s: State): multiset<nat> {
    multiset(s.accepted) + multiset(s.rejected) + InAdmission(s.mutex)
  }

  ghost predicate IdsMatch(s: State) {
    Ids(s.lastId) == Drawn(s)
  }

  lemma NumberIds(s: State)
    requires IdsMatch(s) && Enabled(s, Number)
    ensures IdsMatch(Apply(s, Number))
  {
  }

  lemma AcceptIds(s: State)
    requires IdsMatch(s) && Enabled(s, Accept)
    ensures IdsMatch(Apply(s, Accept))
  {
  }

  lemma RefuseIds(s: State)
    requires IdsMatch(s) && Enabled(s, Refuse)
    ensures IdsMatch(Apply(s, Refuse))
  {
  }

  lemma StepIds(s: State, a: Action)
    requires IdsMatch(s) && Enabled(s, a)
    requires a.Test? || a.Pop? ==> s.mutex.HeldBy?
    ensures IdsMatch(Apply(s, a))
  {
    if a.Number? {
      NumberIds(s);
    } else if a.Accept? {
      AcceptIds(s);
    } else if a.Refuse? {
      RefuseIds(s);
    } else {
      WorkerIds(s, a);
    }
  }

  /** A worker's step, or the stop, neither draws nor settles an id. */
  lemma WorkerIds(s: State, a: Action)
    requires Enabled(s, a) && !a.Number? && !a.Accept? && !a.Refuse? && (a.Test? || a.Pop? ==> s.mutex.HeldBy?)
    ensures Drawn(Apply(s, a)) == Drawn(s) && Apply(s, a).lastId == s.lastId
  {
    assert InAdmission(Apply(s, a).mutex) == InAdmission(s.mutex);
  }

  lemma StepInv(s: State, a: Action)
    requires Inv(s) && Enabled(s, a)
    ensures Inv(Apply(s, a))
  {
    assert a.Test? || a.Pop? ==> InCriticalSection(s.workers[a.w]);
    StepMutex(s, a);
    StepOrdered(s, a);
    StepBusy(s, a);
    StepIds(s, a);
  }

  lemma {:induction false} ExecInv(s: State, acts: seq<Action>)
    requires Inv(s) && Feasible(s, acts)
    ensures Inv(Exec(s, acts))
    decreases |acts|
  {
    if acts != [] {
      StepInv(s, acts[0]);
      ExecInv(Apply(s, acts[0]), acts[1..]);
    }
  }

  ghost predicate Reachable(s: State, threads: nat, capacity: nat, acts: seq<Action>) {
    Feasible(Init(threads, capacity), acts) && s == Exec(Init(threads, capacity), acts)
  }

  lemma ReachableInv(s: State, threads: nat, capacity: nat, acts: seq<Action>)
    requires Reachable(s, threads, capacity, acts)
    ensures Inv(s) && |s.workers| == threads && s.capacity == capacity
  {
    InitInv(threads, capacity);
    ExecInv(Init(threads, capacity), acts);
    ExecShape(Init(threads, capacity), acts);
  }

  /** Steps never change the capacity or the number of workers; counters and histories only grow. */
  ghost predicate Extends(s: State, t: State) {
    && t.capacity == s.capacity && |t.workers| == |s.workers|
    && s.lastId <= t.lastId && s.completed <= t.completed && s.refused <= t.refused
    && s.accepted <= t.accepted && s.rejected <= t.rejected && s.started <= t.started && s.done <= t.done
    && (s.stop ==> t.stop)
  }

  lemma {:induction false} ExecShape(s: State, acts: seq<Action>)
    requires Feasible(s, acts)
    ensures Extends(s, Exec(s, acts))
    decreases |acts|
  {
    if acts != [] {
      var t := Apply(s, acts[0]);
      assert Extends(s, t);
      ExecShape(t, acts[1..]);
    }
  }

  // ------------------------------------------------------------------ where every id is

  /** In how many of the five places id `x` is: refused, completed, queued, running, mid-admission. */
  function Places(s: State, x: nat): nat {
    multiset(s.rejected)[x] + multiset(s.done)[x] + multiset(s.queue)[x] + Busy(s.workers)[x] + InAdmission(s.mutex)[x]
  }

  /** Every id drawn so far is in exactly one place, and no other id is anywhere. */
  lemma EveryIdInOnePlace(s: State, threads: nat, capacity: nat, acts: seq<Action>, x: nat)
    requires Reachable(s, threads, capacity, acts)
    ensures Places(s, x) == if x < s.lastId then 1 else 0
  {
    ReachableInv(s, threads, capacity, acts);
    IdsOnce(s.lastId, x);
    assert multiset(s.started + s.queue) == multiset(s.started) + multiset(s.queue);
  }

  lemma StartedOnce(s: State, threads: nat, capacity: nat, acts: seq<Action>)
    requires Reachable(s, threads, capacity, acts)
    ensures forall i, j :: 0 <= i < j < |s.started| ==> s.started[i] != s.started[j]
  {
    TasksStartInOrder(s, threads, capacity, acts);
    forall i, j | 0 <= i < j < |s.started| ensures s.started[i] != s.started[j] {
      assert s.accepted[i] == s.started[i] && s.accepted[j] == s.started[j];
    }
  }

  /** No task is started twice, and so none is on two workers at once. */
  lemma NoTaskRunsTwice(s: State, threads: nat, capacity: nat, acts: seq<Action>, v: nat, w: nat)
    requires Reachable(s, threads, capacity, acts)
    requires v < w < threads
    ensures |s.workers| == threads
    ensures s.workers[v].Running? && s.workers[w].Running? ==> s.workers[v].id != s.workers[w].id
    ensures forall i, j :: 0 <= i < j < |s.started| ==> s.started[i] != s.started[j]
  {
    StartedOnce(s, threads, capacity, acts);
    ReachableInv(s, threads, capacity, acts);
    if s.workers[v].Running? && s.workers[w].Running? {
      var x := s.workers[v].id;
      EveryIdInOnePlace(s, threads, capacity, acts, x);
      GatherSeparates(s.workers, v, w, IdsOf);
      assert (IdsOf(s.workers[v]) + IdsOf(s.workers[w]))[x] <= 1;
    }
  }

  /** The counters add up at every instant, the queue is bounded and so is the number of running tasks. */
  lemma CountersAddUp(s: State, threads: nat, capacity: nat, acts: seq<Action>)
    requires Reachable(s, threads, capacity, acts)
    ensures s.lastId == s.refused + s.completed + |s.queue| + |Busy(s.workers)| + |InAdmission(s.mutex)|
    ensures |s.queue| <= capacity && |Busy(s.workers)| <= threads
  {
    ReachableInv(s, threads, capacity, acts);
    CountersOf(s);
    GatherBounded(s.workers, IdsOf);
  }

  lemma CountersOf(s: State)
    requires Inv(s)
    ensures s.lastId == s.refused + s.completed + |s.queue| + |Busy(s.workers)| + |InAdmission(s.mutex)|
  {
    IdsOnce(s.lastId, 0);
    assert |Drawn(s)| == |s.accepted| + |s.rejected| + |InAdmission(s.mutex)|;
    assert |multiset(s.started)| == |s.done| + |Busy(s.workers)|;
  }

  /** First in, first out: what has started, then what is queued, is what was accepted, in id order. */
  lemma TasksStartInOrder(s: State, threads: nat, capacity: nat, acts: seq<Action>)
    requires Reachable(s, threads, capacity, acts)
    ensures s.started + s.queue == s.accepted && StrictlyIncreasing(s.accepted)
  {
    ReachableInv(s, threads, capacity, acts);
  }

  /** A worker that reaches the pop always finds a task there, although the test was an earlier step. */
  lemma PopFindsTask(s: State, threads: nat, capacity: nat, acts: seq<Action>, w: nat)
    requires Reachable(s, threads, capacity, acts)
    requires Enabled(s, Pop(w))
    ensures s.queue != [] && s.mutex == HeldBy(w)
  {
    ReachableInv(s, threads, capacity, acts);
    assert InCriticalSection(s.workers[w]);
  }

  // ------------------------------------------------------------------ wait_all

  /** Nothing queued, nothing running and no id drawn without a verdict. */
  ghost predicate Quiescent(s: State) {
    s.queue == [] && Busy(s.workers) == multiset{} && !s.mutex.Admitting?
  }

  lemma BalancedIsQuiescent(s: State)
    requires Inv(s) && s.completed + s.refused >= s.lastId
    ensures Quiescent(s)
  {
    CountersOf(s);
  }

  /**
   `wait_all` compares three counters read one after the other, without the mutex. `c`, `r` and
   the last state are the moments of the three reads in one run; any actions may fall in between.
   If the last read is that of `tasks_last_id`, equality means that nothing is pending at it.
   */
  lemma SnapshotIsSound(s: State, beforeC: seq<Action>, beforeR: seq<Action>, beforeL: seq<Action>)
    requires Inv(s) && Feasible(s, beforeC)
    requires Feasible(Exec(s, beforeC), beforeR)
    requires Feasible(Exec(Exec(s, beforeC), beforeR), beforeL)
    ensures var atC := Exec(s, beforeC); var atR := Exec(atC, beforeR); var atL := Exec(atR, beforeL);
            (atC.completed + atR.refused == atL.lastId ==> Quiescent(atL)) &&
            (atC.refused + atR.completed == atL.lastId ==> Quiescent(atL))
  {
    var atC := Exec(s, beforeC);
    var atR := Exec(atC, beforeR);
    var atL := Exec(atR, beforeL);
    ExecConcat(s, beforeC, beforeR);
    ExecConcat(s, beforeC + beforeR, beforeL);
    ExecShape(atC, beforeR);
    ExecShape(atR, beforeL);
    if atC.completed + atR.refused == atL.lastId || atC.refused + atR.completed == atL.lastId {
      ExecInv(s, (beforeC + beforeR) + beforeL);
      BalancedIsQuiescent(atL);
    }
  }

  // ------------------------------------------------------------------ shutdown

  lemma NoneRunning(s: State)
    requires Busy(s.workers) == multiset{}
    ensures forall i :: 0 <= i < |s.workers| ==> !s.workers[i].Running?
  {
    forall i | 0 <= i < |s.workers| ensures !s.workers[i].Running? {
      GatherIncludes(s.workers, i, IdsOf);
    }
  }

  lemma QuietStep(s: State, a: Action)
    requires MutexMatches(s) && Quiescent(s) && Enabled(s, a) && a != Number
    ensures var t := Apply(s, a);
            Quiescent(t) && t.accepted == s.accepted && t.rejected == s.rejected && t.done == s.done
  {
    NoneRunning(s);
    if a.LoopTest? || a.Wake? || a.Test? {
      MoveBusy(s, a.w, Apply(s, a).workers[a.w]);
    }
  }

  lemma {:induction false} QuiescenceLasts(s: State, acts: seq<Action>)
    requires Inv(s) && Quiescent(s) && Feasible(s, acts) && Number !in acts
    ensures var t := Exec(s, acts);
            Quiescent(t) && t.accepted == s.accepted && t.rejected == s.rejected && t.done == s.done
    decreases |acts|
  {
    if acts != [] {
      StepInv(s, acts[0]);
      QuietStep(s, acts[0]);
      QuiescenceLasts(Apply(s, acts[0]), acts[1..]);
    }
  }

  /**
   If `wait_all` returned at `atL` and no further id is drawn, then at any later moment - the stop
   flag raised or not, the workers joined or not - nothing was dropped: each accepted task has been
   run and counted exactly once, and only accepted tasks have.
   */
  lemma StopAfterWaitDropsNothing(s: State, beforeC: seq<Action>, beforeR: seq<Action>, beforeL: seq<Action>,
                                  later: seq<Action>)
    requires Inv(s) && Feasible(s, beforeC)
    requires Feasible(Exec(s, beforeC), beforeR)
    requires Feasible(Exec(Exec(s, beforeC), beforeR), beforeL)
    requires Exec(s, beforeC).completed + Exec(Exec(s, beforeC), beforeR).refused
             == Exec(Exec(Exec(s, beforeC), beforeR), beforeL).lastId
    requires Feasible(Exec(Exec(Exec(s, beforeC), beforeR), beforeL), later) && Number !in later
    ensures var end := Exec(Exec(Exec(Exec(s, beforeC), beforeR), beforeL), later);
            end.queue == [] && multiset(end.done) == multiset(end.accepted) && end.started == end.accepted
            && StrictlyIncreasing(end.accepted)
  {
    var atL := Exec(Exec(Exec(s, beforeC), beforeR), beforeL);
    SnapshotIsSound(s, beforeC, beforeR, beforeL);
    ExecInv(s, beforeC);
    ExecInv(Exec(s, beforeC), beforeR);
    ExecInv(Exec(Exec(s, beforeC), beforeR), beforeL);
    QuiescenceLasts(atL, later);
    ExecInv(atL, later);
  }

  /** Without waiting: once every worker has exited, what was dropped is exactly the queue left over. */
  lemma StopDropsExactlyTheQueue(s: State, threads: nat, capacity: nat, acts: seq<Action>)
    requires Reachable(s, threads, capacity, acts)
    requires forall w :: 0 <= w < |s.workers| ==> s.workers[w].Exited?
    ensures multiset(s.accepted) == multiset(s.done) + multiset(s.queue)
    ensures s.accepted == s.started + s.queue && multiset(s.started) == multiset(s.done)
  {
    ReachableInv(s, threads, capacity, acts);
    GatherEmpty(s.workers, IdsOf);
  }

  /** Tasks a stopped pool can still start: one, if a worker is already between its test and its pop. */
  function Poised(s: State): (n: nat)
    ensures n <= 1
  {
    if s.mutex.HeldBy? && s.mutex.worker < |s.workers| && s.workers[s.mutex.worker].Popping? then 1 else 0
  }

  lemma StoppedStep(s: State, a: Action)
    requires MutexMatches(s) && s.stop && Enabled(s, a)
    ensures var t := Apply(s, a); t.stop && |t.started| + Poised(t) <= |s.started| + Poised(s)
  {
    if a.Pop? || a.Test? {
      assert InCriticalSection(s.workers[a.w]);
    }
  }

  /** Raising the stop flag lets at most one further task start, whatever is queued. */
  lemma {:induction false} StopStartsAtMostOne(s: State, acts: seq<Action>)
    requires MutexMatches(s) && s.stop && Feasible(s, acts)
    ensures |Exec(s, acts).started| <= |s.started| + Poised(s)
    decreases |acts|
  {
    if acts != [] {
      StepMutex(s, acts[0]);
      StoppedStep(s, acts[0]);
      StopStartsAtMostOne(Apply(s, acts[0]), acts[1..]);
    }
  }
}
