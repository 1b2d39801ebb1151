/** The connection pool object and the scoped lease, proved against the value-level operations. */
module ConnectionPool {
  import opened Wrappers
  import opened ConnectionLedger

  /** The function-local static counters of `get_connection`: one pair for the whole process. */
  class TurnCounters {
    var lastMaster: nat
    var lastReplica: nat

    constructor ()
      ensures lastMaster == 0 && lastReplica == 0
    {
      lastMaster, lastReplica := 0, 0;
    }
  }

  class ConnectionPool {
    var masters: seq<Node>
    var replicas: seq<Node>
    const turns: TurnCounters

    function View(): Pool
      reads this, turns
    {
      Pool(masters, replicas, turns.lastMaster, turns.lastReplica)
    }

    constructor (masterConfs: seq<(string, string)>, replicaConfs: seq<(string, string)>,
                 poolSize: nat, turns: TurnCounters)
      ensures this.turns == turns
      ensures View() == Build(masterConfs, replicaConfs, poolSize)
                          .(lastMaster := turns.lastMaster, lastReplica := turns.lastReplica)
    {
      var openedMasters := OpenNodes(masterConfs, poolSize, 0);
      var openedReplicas := OpenNodes(replicaConfs, poolSize, |masterConfs| * poolSize);
      this.turns := turns;
      masters, replicas := openedMasters, openedReplicas;
    }

    method GetConnection(preferred: NodeType) returns (lease: Option<Lease>)
      modifies this, turns
      ensures View() == Get(old(View()), preferred).0
      ensures lease == Get(old(View()), preferred).1
      ensures lease.Some? ==>
                lease.value.num < |old(View()).Nodes(lease.value.nodeType)| &&
                var queue := old(View()).Nodes(lease.value.nodeType)[lease.value.num].idle;
                queue != [] && lease.value.conn == queue[0] &&
                View().Nodes(lease.value.nodeType)[lease.value.num].idle == queue[1..]
    {
      if replicas != [] && preferred == Replica {
        turns.lastReplica := (turns.lastReplica + 1) % |replicas|;
        var entry := replicas[turns.lastReplica];
        if entry.idle != [] {
          var conn := entry.idle[0];
          replicas := replicas[turns.lastReplica := entry.(idle := entry.idle[1..])];
          return Some(Lease(Replica, turns.lastReplica, entry.tag, conn));
        }
        return None;
      }
      if masters != [] {
        turns.lastMaster := (turns.lastMaster + 1) % |masters|;
        var entry := masters[turns.lastMaster];
        if entry.idle != [] {
          var conn := entry.idle[0];
          masters := masters[turns.lastMaster := entry.(idle := entry.idle[1..])];
          return Some(Lease(Master, turns.lastMaster, entry.tag, conn));
        }
        return None;
      }
      return None;
    }

    method ReleaseConnection(lease: Lease)
      modifies this
      ensures View() == Put(old(View()), lease)
      ensures lease.num < |old(View()).Nodes(lease.nodeType)| ==>
                View().Nodes(lease.nodeType)[lease.num].idle ==
                old(View()).Nodes(lease.nodeType)[lease.num].idle + [lease.conn]
    {
      if lease.nodeType == Master {
        if |masters| > lease.num {
          var entry := masters[lease.num];
          masters := masters[lease.num := entry.(idle := entry.idle + [lease.conn])];
        }
      } else {
        if |replicas| > lease.num {
          var entry := replicas[lease.num];
          replicas := replicas[lease.num := entry.(idle := entry.idle + [lease.conn])];
        }
      }
    }
  }

  /** The constructor's loops: each configured node gets `size` connections. */
  method OpenNodes(confs: seq<(string, string)>, size: nat, serial: nat) returns (nodes: seq<Node>)
    ensures nodes == Open(confs, size, serial)
  {
    nodes := [];
    var next := serial;
    for i := 0 to |confs|
      invariant |nodes| == i && next == serial + i * size
      invariant nodes == Open(confs, size, serial)[..i]
    {
      var idle := [];
      for k := 0 to size
        invariant |idle| == k && next == serial + i * size + k
        invariant forall j :: 0 <= j < k ==> idle[j] == Connection(serial + i * size + j, confs[i].0)
      {
        idle := idle + [Connection(next, confs[i].0)];
        next := next + 1;
      }
      ghost var all := Open(confs, size, serial);
      assert all[i].idle == idle && all[..i + 1] == all[..i] + [all[i]];
      nodes := nodes + [Node(confs[i].1, confs[i].0, idle)];
    }
  }

  /** Holds one connection from construction to destruction. */
  class ScopedConnection {
    const pool: ConnectionPool
    var lease: Lease

    constructor Holding(pool: ConnectionPool, lease: Lease)
      ensures this.pool == pool && this.lease == lease
    {
      this.pool := pool;
      this.lease := lease;
    }

    /** The throwing constructor: null stands for the exception, after which nothing is left to destroy. */
    static method Acquire(pool: ConnectionPool, preferred: NodeType) returns (scoped: ScopedConnection?)
      modifies pool, pool.turns
      ensures pool.View() == Get(old(pool.View()), preferred).0
      ensures scoped == null <==> Get(old(pool.View()), preferred).1.None?
      ensures scoped != null ==>
                fresh(scoped) && scoped.pool == pool && Some(scoped.lease) == Get(old(pool.View()), preferred).1
    {
      var got := pool.GetConnection(preferred);
      if got.None? {
        return null;
      }
      scoped := new ScopedConnection.Holding(pool, got.value);
    }

    /** The destructor. */
    method Destroy()
      modifies pool
      ensures pool.View() == Put(old(pool.View()), lease)
    {
      pool.ReleaseConnection(lease);
    }
  }
}
