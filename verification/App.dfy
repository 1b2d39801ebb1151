/**
 The service as a whole: the HTTP task queue's worker threads and the database connection pool they
 lease from. A handler runs inside a task, so a worker can lease only while it runs one, and the
 scoped connection is destroyed before the task returns or throws.
 */
module App {
  import opened Tallies
  import opened ThreadPoolMachine
  import opened ConnectionLedger

  datatype Engine = Engine(tp: State, db: Ledger)

  datatype Step = Tasks(a: Action) | Leases(e: Event)

  predicate Ready(s: Engine, step: Step) {
    match step
    case Tasks(a) => Enabled(s.tp, a) && (a.Count? ==> a.w < |s.db.slots| && s.db.slots[a.w].None?)
    case Leases(e) => Can(s.db, e) && e.h < |s.tp.workers| && s.tp.workers[e.h].Running?
  }

  function Next(s: Engine, step: Step): Engine
    requires Ready(s, step)
  {
    match step
    case Tasks(a) => s.(tp := Apply(s.tp, a))
    case Leases(e) => s.(db := Do(s.db, e))
  }

  predicate Legal(s: Engine, steps: seq<Step>)
    decreases |steps|
  {
    steps == [] || (Ready(s, steps[0]) && Legal(Next(s, steps[0]), steps[1..]))
  }

  function Play(s: Engine, steps: seq<Step>): Engine
    requires Legal(s, steps)
    decreases |steps|
  {
    if steps == [] then s else Play(Next(s, steps[0]), steps[1..])
  }

  /** What decides the size of both pools. */
  datatype Deployment = Deployment(
    masters: seq<(string, string)>, replicas: seq<(string, string)>,
    threads: nat, capacity: nat, connectionsPerNode: nat)

  function Boot(d: Deployment): Engine {
    Engine(Init(d.threads, d.capacity), Start(d.masters, d.replicas, d.connectionsPerNode, d.threads))
  }

  function Built(d: Deployment): Pool {
    Build(d.masters, d.replicas, d.connectionsPerNode)
  }

  /** As `db_start` and `http_start` wire it: one master, and one thread count for both pools. */
  function Wiring(master: (string, string), replicas: seq<(string, string)>,
                  threadsCount: nat, queueCapacity: nat): Deployment {
    Deployment([master], replicas, threadsCount, queueCapacity, threadsCount)
  }

  // ------------------------------------------------------------------ the composed invariant

  ghost predicate Coupled(d: Deployment, s: Engine) {
    && |s.tp.workers| == |s.db.slots| == d.threads
    && Conserved(Built(d), s.db)
    && forall w: nat :: w < d.threads && s.db.slots[w].Some? ==> s.tp.workers[w].Running?
  }

  lemma BootCoupled(d: Deployment)
    ensures Coupled(d, Boot(d))
  {
    StartIsConserved(d.masters, d.replicas, d.connectionsPerNode, d.threads);
  }

  /** Only its own completion ends a worker's task. */
  lemma RunningContinues(tp: State, a: Action, w: nat)
    requires Enabled(tp, a) && w < |tp.workers| && tp.workers[w].Running? && !(a.Count? && a.w == w)
    ensures |Apply(tp, a).workers| == |tp.workers| && Apply(tp, a).workers[w].Running?
  {
  }

  lemma WorkersStay(tp: State, a: Action)
    requires Enabled(tp, a)
    ensures |Apply(tp, a).workers| == |tp.workers|
  {
  }

  lemma TaskStepCoupled(d: Deployment, s: Engine, a: Action)
    requires Coupled(d, s) && Ready(s, Tasks(a))
    ensures Coupled(d, Next(s, Tasks(a)))
  {
    WorkersStay(s.tp, a);
    forall w: nat | w < d.threads && s.db.slots[w].Some? ensures Apply(s.tp, a).workers[w].Running? {
      RunningContinues(s.tp, a, w);
    }
  }

  lemma LeaseStepCoupled(d: Deployment, s: Engine, e: Event)
    requires Coupled(d, s) && Ready(s, Leases(e))
    ensures Coupled(d, Next(s, Leases(e)))
  {
    match e
    case Acquire(h, preferred) => AcquireConserves(Built(d), s.db, h, preferred);
    case Drop(h) => DropConserves(Built(d), s.db, h);
  }

  lemma {:induction false} PlayCoupled(d: Deployment, s: Engine, steps: seq<Step>)
    requires Coupled(d, s) && Legal(s, steps)
    ensures Coupled(d, Play(s, steps))
    decreases |steps|
  {
    if steps != [] {
      match steps[0] {
        case Tasks(a) => TaskStepCoupled(d, s, a);
        case Leases(e) => LeaseStepCoupled(d, s, e);
      }
      PlayCoupled(d, Next(s, steps[0]), steps[1..]);
    }
  }

  /** The thread pool inside the service is a thread pool: its own invariant holds throughout. */
  lemma {:induction false} PlayInv(s: Engine, steps: seq<Step>)
    requires Inv(s.tp) && Legal(s, steps)
    ensures Inv(Play(s, steps).tp)
    decreases |steps|
  {
    if steps != [] {
      if steps[0].Tasks? { StepInv(s.tp, steps[0].a); }
      PlayInv(Next(s, steps[0]), steps[1..]);
    }
  }

  // ------------------------------------------------------------------ no handler is refused a connection

  /** In no run does a handler's `get_connection` throw. */
  ghost predicate NeverRefused(d: Deployment) {
    forall steps: seq<Step>, w: nat, preferred: NodeType ::
      Legal(Boot(d), steps) && Ready(Play(Boot(d), steps), Leases(Acquire(w, preferred))) ==>
        Get(Play(Boot(d), steps).db.pool, preferred).1.Some?
  }

  lemma EveryNodeHasThatMany(d: Deployment)
    ensures forall t: NodeType, i: nat ::
              i < |Built(d).Nodes(t)| ==> |Built(d).Nodes(t)[i].idle| == d.connectionsPerNode
  {
  }

  lemma EnoughConnections(d: Deployment)
    requires d.masters != [] && d.connectionsPerNode >= d.threads
    ensures NeverRefused(d)
  {
    forall steps: seq<Step>, w: nat, preferred: NodeType
      | Legal(Boot(d), steps) && Ready(Play(Boot(d), steps), Leases(Acquire(w, preferred)))
      ensures Get(Play(Boot(d), steps).db.pool, preferred).1.Some?
    {
      BootCoupled(d);
      PlayCoupled(d, Boot(d), steps);
      EveryNodeHasThatMany(d);
      EnoughForEveryHolder(Built(d), Play(Boot(d), steps).db, w, preferred);
    }
  }

  /** "No connections available" is unreachable in the service as wired, for every interleaving. */
  lemma WiringNeverRefuses(master: (string, string), replicas: seq<(string, string)>,
                           threadsCount: nat, queueCapacity: nat)
    ensures NeverRefused(Wiring(master, replicas, threadsCount, queueCapacity))
  {
    EnoughConnections(Wiring(master, replicas, threadsCount, queueCapacity));
  }

  /** When a correct `wait_all` lets go, every connection is back in the node it came from. */
  lemma QuietMeansAllReturned(d: Deployment, steps: seq<Step>, t: NodeType, i: nat)
    requires Legal(Boot(d), steps) && i < |Built(d).Nodes(t)|
    requires var tp := Play(Boot(d), steps).tp; tp.completed + tp.refused == tp.lastId
    ensures var pool := Play(Boot(d), steps).db.pool;
            i < |pool.Nodes(t)| && multiset(pool.Nodes(t)[i].idle) == multiset(Built(d).Nodes(t)[i].idle)
  {
    var s := Play(Boot(d), steps);
    BootCoupled(d);
    PlayCoupled(d, Boot(d), steps);
    InitInv(d.threads, d.capacity);
    PlayInv(Boot(d), steps);
    BalancedIsQuiescent(s.tp);
    NoneRunning(s.tp);
    GatherEmpty(s.db.slots, FromNode(t, i));
    assert NodeConserved(Built(d).Nodes(t)[i], s.db.pool.Nodes(t)[i], Leased(s.db.slots, t, i));
  }
}
