/**
 How many connections per node the service needs. One per worker thread is enough (module App);
 here: with fewer, some interleaving makes a handler's `get_connection` throw.
 */
module PoolSizing {
  import opened Wrappers
  import opened ThreadPoolMachine
  import opened ConnectionLedger
  import opened App

  /** One request admitted, started on worker `w` and given a master connection. */
  function Serve(w: nat): seq<Step> {
    Starting(w) + [Leases(Acquire(w, Master))]
  }

  function Starting(w: nat): seq<Step> {
    [Tasks(Number), Tasks(Accept), Tasks(LoopTest(w)), Tasks(Wake(w)), Tasks(Test(w)), Tasks(Pop(w))]
  }

  /** The first `n` workers, one after the other, each keeping its connection. */
  function ServeFirst(n: nat): seq<Step> {
    if n == 0 then [] else ServeFirst(n - 1) + Serve(n - 1)
  }

  function FirstIds(n: nat): seq<nat> {
    seq(n, i => i)
  }

  /** The first `n` workers run tasks 0..n-1; nothing is queued. */
  function Occupied(d: Deployment, n: nat): State {
    State(d.capacity, [], n, 0, 0, Free, false,
          seq(d.threads, k requires 0 <= k < d.threads => if k < n then Running(k) else AtLoop),
          FirstIds(n), [], FirstIds(n), [])
  }

  /** The first `n` workers hold the first `n` connections of the only master. */
  function Drained(d: Deployment, n: nat): Ledger
    requires |d.masters| == 1 && n <= d.connectionsPerNode
  {
    var master := Built(d).masters[0];
    Ledger(
      Built(d).(masters := [master.(idle := master.idle[n..])]),
      seq(d.threads, k requires 0 <= k < d.threads =>
        if k < n then Some(Lease(Master, 0, master.tag, master.idle[k])) else None))
  }

  lemma AndThen(s: Engine, step: Step, rest: seq<Step>)
    requires Ready(s, step) && Legal(Next(s, step), rest)
    ensures Legal(s, [step] + rest) && Play(s, [step] + rest) == Play(Next(s, step), rest)
  {
    assert ([step] + rest)[1..] == rest;
  }

  lemma {:induction false} PlayConcat(s: Engine, first: seq<Step>, second: seq<Step>)
    requires Legal(s, first) && Legal(Play(s, first), second)
    ensures Legal(s, first + second) && Play(s, first + second) == Play(Play(s, first), second)
    decreases |first|
  {
    if first == [] {
      assert first + second == second;
    } else {
      PlayConcat(Next(s, first[0]), first[1..], second);
      assert (first + second)[1..] == first[1..] + second;
    }
  }

  lemma Onward(s: Engine, first: seq<Step>, t: Engine, second: seq<Step>)
    requires Legal(s, first) && Play(s, first) == t && Legal(t, second)
    ensures Legal(s, first + second) && Play(s, first + second) == Play(t, second)
  {
    PlayConcat(s, first, second);
  }

  /** A free worker can always be given the next task, whatever the leases are. */
  lemma StartingOccupies(d: Deployment, db: Ledger, n: nat)
    requires n < d.threads && d.capacity > 0
    ensures var s := Engine(Occupied(d, n), db);
            Legal(s, Starting(n)) && Play(s, Starting(n)) == Engine(Occupied(d, n + 1), db)
  {
    var s0 := Occupied(d, n);
    var s1 := Apply(s0, Number);
    var s2 := Apply(s1, Accept);
    var s3 := Apply(s2, LoopTest(n));
    var s4 := Apply(s3, Wake(n));
    var s5 := Apply(s4, Test(n));
    var s6 := Apply(s5, Pop(n));
    assert s2.queue == [n] && s5.queue == [n] && s6.queue == [];
    assert s6.started == FirstIds(n + 1) && s6.accepted == FirstIds(n + 1);
    assert s6.workers == Occupied(d, n + 1).workers;
    AndThen(Engine(s5, db), Tasks(Pop(n)), []);
    AndThen(Engine(s4, db), Tasks(Test(n)), [Tasks(Pop(n))]);
    AndThen(Engine(s3, db), Tasks(Wake(n)), [Tasks(Test(n)), Tasks(Pop(n))]);
    AndThen(Engine(s2, db), Tasks(LoopTest(n)), [Tasks(Wake(n)), Tasks(Test(n)), Tasks(Pop(n))]);
    AndThen(Engine(s1, db), Tasks(Accept), [Tasks(LoopTest(n)), Tasks(Wake(n)), Tasks(Test(n)), Tasks(Pop(n))]);
    var behind := [Tasks(Accept), Tasks(LoopTest(n)), Tasks(Wake(n)), Tasks(Test(n)), Tasks(Pop(n))];
    AndThen(Engine(s0, db), Tasks(Number), behind);
    assert Starting(n) == [Tasks(Number)] + behind;
  }

  lemma AcquireDrains(d: Deployment, n: nat)
    requires |d.masters| == 1 && n < d.connectionsPerNode && n < d.threads
    ensures var s := Engine(Occupied(d, n + 1), Drained(d, n)); var step := Leases(Acquire(n, Master));
            Ready(s, step) && Next(s, step) == Engine(Occupied(d, n + 1), Drained(d, n + 1))
  {
    var l := Drained(d, n);
    var idle := Built(d).masters[0].idle;
    assert idle[n..][1..] == idle[n + 1..] && idle[n..][0] == idle[n];
    var m := Do(l, Acquire(n, Master));
    assert m.slots == Drained(d, n + 1).slots;
    assert m.pool.masters == Drained(d, n + 1).pool.masters;
  }

  lemma BootIsIdle(d: Deployment)
    requires |d.masters| == 1
    ensures Boot(d) == Engine(Occupied(d, 0), Drained(d, 0))
  {
    assert Boot(d).tp == Occupied(d, 0);
    assert Boot(d).db.slots == Drained(d, 0).slots;
    var master := Built(d).masters[0];
    assert master.idle[0..] == master.idle && Built(d).masters == [master];
  }

  lemma ServeDrains(d: Deployment, n: nat)
    requires |d.masters| == 1 && d.capacity > 0 && n < d.connectionsPerNode && n < d.threads
    ensures var s := Engine(Occupied(d, n), Drained(d, n));
            Legal(s, Serve(n)) && Play(s, Serve(n)) == Engine(Occupied(d, n + 1), Drained(d, n + 1))
  {
    StartingOccupies(d, Drained(d, n), n);
    AcquireDrains(d, n);
    AndThen(Engine(Occupied(d, n + 1), Drained(d, n)), Leases(Acquire(n, Master)), []);
    PlayConcat(Engine(Occupied(d, n), Drained(d, n)), Starting(n), [Leases(Acquire(n, Master))]);
  }

  lemma {:induction false} ServeFirstDrains(d: Deployment, n: nat)
    requires |d.masters| == 1 && d.capacity > 0 && n <= d.connectionsPerNode && n <= d.threads
    ensures Legal(Boot(d), ServeFirst(n))
    ensures Play(Boot(d), ServeFirst(n)) == Engine(Occupied(d, n), Drained(d, n))
  {
    if n == 0 {
      BootIsIdle(d);
    } else {
      ServeFirstDrains(d, n - 1);
      ServeDrains(d, n - 1);
      Onward(Boot(d), ServeFirst(n - 1), Engine(Occupied(d, n - 1), Drained(d, n - 1)), Serve(n - 1));
    }
  }

  /** With fewer connections per node than worker threads, a handler can be refused one. */
  lemma TooFewConnections(d: Deployment)
    requires |d.masters| == 1 && d.capacity > 0 && d.connectionsPerNode < d.threads
    ensures !NeverRefused(d)
  {
    var n := d.connectionsPerNode;
    ServeFirstDrains(d, n);
    StartingOccupies(d, Drained(d, n), n);
    PlayConcat(Boot(d), ServeFirst(n), Starting(n));
    var steps := ServeFirst(n) + Starting(n);
    assert Ready(Play(Boot(d), steps), Leases(Acquire(n, Master)));
    assert Get(Play(Boot(d), steps).db.pool, Master).1.None?;
  }

  /** The pool size the service chooses is the least that works. */
  lemma ConnectionsNeeded(d: Deployment)
    requires |d.masters| == 1 && d.capacity > 0
    ensures NeverRefused(d) <==> d.connectionsPerNode >= d.threads
  {
    if d.connectionsPerNode >= d.threads {
      EnoughConnections(d);
    } else {
      TooFewConnections(d);
    }
  }

  /** No run refuses a connection; with one fewer per node, some run does. */
  ghost predicate JustEnough(d: Deployment) {
    d.connectionsPerNode > 0 && NeverRefused(d) && !NeverRefused(d.(connectionsPerNode := d.connectionsPerNode - 1))
  }

  lemma WiringIsJustEnough(master: (string, string), replicas: seq<(string, string)>,
                           threadsCount: nat, queueCapacity: nat)
    requires threadsCount > 0 && queueCapacity > 0
    ensures JustEnough(Wiring(master, replicas, threadsCount, queueCapacity))
  {
    var d := Wiring(master, replicas, threadsCount, queueCapacity);
    ConnectionsNeeded(d);
    ConnectionsNeeded(d.(connectionsPerNode := threadsCount - 1));
  }
}
