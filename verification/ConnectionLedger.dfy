/**
 The connection pool as a value, together with the holders its connections are leased to: what one
 `get_connection` or `release_connection` does, and what every sequence of them keeps.
 */
module ConnectionLedger {
  import opened Wrappers
  import opened Tallies

  datatype NodeType = Master | Replica

  /** A connection object; `serial` stands for its address, `connStr` is what it was opened with. */
  datatype Connection = Connection(serial: nat, connStr: string)

  datatype Node = Node(tag: string, connStr: string, idle: seq<Connection>)

  /** What `get_connection` hands out. */
  datatype Lease = Lease(nodeType: NodeType, num: nat, tag: string, conn: Connection)

  datatype Pool = Pool(masters: seq<Node>, replicas: seq<Node>, lastMaster: nat, lastReplica: nat) {
    function Nodes(t: NodeType): seq<Node> {
      if t.Master? then masters else replicas
    }

    function WithNode(t: NodeType, i: nat, n: Node): Pool
      requires i < |Nodes(t)|
    {
      if t.Master? then this.(masters := masters[i := n]) else this.(replicas := replicas[i := n])
    }
  }

  // ------------------------------------------------------------------ operations

  /** The node a request is directed at: round robin over the replicas, or over the masters. */
  function Target(p: Pool, preferred: NodeType): Option<(NodeType, nat)> {
    if p.replicas != [] && preferred.Replica? then Some((Replica, (p.lastReplica + 1) % |p.replicas|))
    else if p.masters != [] then Some((Master, (p.lastMaster + 1) % |p.masters|))
    else None
  }

  /** The turn is taken even if the node then turns out to have no idle connection. */
  function Advance(p: Pool, target: (NodeType, nat)): Pool {
    if target.0.Master? then p.(lastMaster := target.1) else p.(lastReplica := target.1)
  }

  /** `get_connection`: None is the exception "No connections available". */
  function Get(p: Pool, preferred: NodeType): (r: (Pool, Option<Lease>)) {
    match Target(p, preferred)
    case None => (p, None)
    case Some((t, i)) =>
      var q := Advance(p, (t, i));
      var node := q.Nodes(t)[i];
      if node.idle == [] then (q, None)
      else (q.WithNode(t, i, node.(idle := node.idle[1..])), Some(Lease(t, i, node.tag, node.idle[0])))
  }

  /** `release_connection`: a lease naming a node that does not exist is dropped silently. */
  function Put(p: Pool, lease: Lease): Pool {
    if lease.num < |p.Nodes(lease.nodeType)| then
      var node := p.Nodes(lease.nodeType)[lease.num];
      p.WithNode(lease.nodeType, lease.num, node.(idle := node.idle + [lease.conn]))
    else p
  }

  // ------------------------------------------------------------------ construction

  /** Nodes as the constructor opens them: `size` new connections each, numbered from `serial`. */
  function Open(confs: seq<(string, string)>, size: nat, serial: nat): seq<Node> {
    seq(|confs|, i requires 0 <= i < |confs| =>
      Node(confs[i].1, confs[i].0,
           seq(size, k requires 0 <= k < size => Connection(serial + i * size + k, confs[i].0))))
  }

  function Build(masters: seq<(string, string)>, replicas: seq<(string, string)>, size: nat): Pool {
    Pool(Open(masters, size, 0), Open(replicas, size, |masters| * size), 0, 0)
  }

  // ------------------------------------------------------------------ leases in the hands of holders

  /** A pool and its holders; each holder has at most one scoped connection. */
  datatype Ledger = Ledger(pool: Pool, slots: seq<Option<Lease>>)

  datatype Event = Acquire(h: nat, preferred: NodeType) | Drop(h: nat)

  predicate Can(l: Ledger, e: Event) {
    match e
    case Acquire(h, _) => h < |l.slots| && l.slots[h].None?
    case Drop(h) => h < |l.slots| && l.slots[h].Some?
  }

  /** A failed acquisition throws out of the `ScopedConnection` constructor, so its destructor never runs. */
  function Do(l: Ledger, e: Event): Ledger
    requires Can(l, e)
  {
    match e
    case Acquire(h, preferred) =>
      var (p, lease) := Get(l.pool, preferred);
      Ledger(p, l.slots[h := lease])
    case Drop(h) => Ledger(Put(l.pool, l.slots[h].value), l.slots[h := None])
  }

  predicate Possible(l: Ledger, es: seq<Event>)
    decreases |es|
  {
    es == [] || (Can(l, es[0]) && Possible(Do(l, es[0]), es[1..]))
  }

  function After(l: Ledger, es: seq<Event>): Ledger
    requires Possible(l, es)
    decreases |es|
  {
    if es == [] then l else After(Do(l, es[0]), es[1..])
  }

  // ------------------------------------------------------------------ conservation

  /** What a slot holds of node `i` of type `t`. */
  function FromNode(t: NodeType, i: nat): Option<Lease> -> multiset<Connection> {
    (slot: Option<Lease>) =>
      if slot.Some? && slot.value.nodeType == t && slot.value.num == i then multiset{slot.value.conn} else multiset{}
  }

  function Leased(slots: seq<Option<Lease>>, t: NodeType, i: nat): multiset<Connection> {
    Gather(slots, FromNode(t, i))
  }

  /** A lease names an existing node and carries its tag. */
  predicate Fits(p: Pool, slot: Option<Lease>) {
    slot.Some? ==>
      slot.value.num < |p.Nodes(slot.value.nodeType)| &&
      slot.value.tag == p.Nodes(slot.value.nodeType)[slot.value.num].tag
  }

  /** Idle connections plus outstanding leases of one node are what that node was built with. */
  ghost predicate NodeConserved(built: Node, now: Node, leased: multiset<Connection>) {
    && now.tag == built.tag && now.connStr == built.connStr
    && multiset(now.idle) + leased == multiset(built.idle)
  }

  ghost predicate SideConserved(built: Pool, l: Ledger, t: NodeType) {
    && |l.pool.Nodes(t)| == |built.Nodes(t)|
    && forall i: nat :: i < |built.Nodes(t)| ==>
         NodeConserved(built.Nodes(t)[i], l.pool.Nodes(t)[i], Leased(l.slots, t, i))
  }

  ghost predicate Conserved(built: Pool, l: Ledger) {
    && SideConserved(built, l, Master)
    && SideConserved(built, l, Replica)
    && forall h: nat :: h < |l.slots| ==> Fits(l.pool, l.slots[h])
  }

  lemma SlotUpdate(slots: seq<Option<Lease>>, h: nat, x: Option<Lease>, t: NodeType, i: nat,
                   from: multiset<Connection>, to: multiset<Connection>)
    requires h < |slots| && FromNode(t, i)(slots[h]) == from && FromNode(t, i)(x) == to
    ensures Leased(slots[h := x], t, i) + from == Leased(slots, t, i) + to
    ensures from == to ==> Leased(slots[h := x], t, i) == Leased(slots, t, i)
  {
    GatherUpdate(slots, h, x, FromNode(t, i));
    if from == to { Cancel(Leased(slots[h := x], t, i), Leased(slots, t, i), to); }
  }

  /** The target node of a successful acquisition: its first idle connection moves into the slot. */
  lemma TakeFirst(built: Node, now: Node, slots: seq<Option<Lease>>, h: nat, t: NodeType, i: nat)
    requires h < |slots| && slots[h].None? && now.idle != []
    requires NodeConserved(built, now, Leased(slots, t, i))
    ensures NodeConserved(built, now.(idle := now.idle[1..]),
                          Leased(slots[h := Some(Lease(t, i, now.tag, now.idle[0]))], t, i))
  {
    var conn, slots' := multiset{now.idle[0]}, slots[h := Some(Lease(t, i, now.tag, now.idle[0]))];
    SlotUpdate(slots, h, slots'[h], t, i, multiset{}, conn);
    assert Leased(slots', t, i) == Leased(slots, t, i) + conn;
    assert now.idle == [now.idle[0]] + now.idle[1..];
    assert multiset(now.idle) == conn + multiset(now.idle[1..]);
  }

  /** The home node of a released lease: the connection moves from the slot to the back of the queue. */
  lemma GiveBack(built: Node, now: Node, slots: seq<Option<Lease>>, h: nat, t: NodeType, i: nat)
    requires h < |slots| && slots[h].Some? && slots[h].value.nodeType == t && slots[h].value.num == i
    requires NodeConserved(built, now, Leased(slots, t, i))
    ensures NodeConserved(built, now.(idle := now.idle + [slots[h].value.conn]), Leased(slots[h := None], t, i))
  {
    var conn := slots[h].value.conn;
    SlotUpdate(slots, h, None, t, i, multiset{conn}, multiset{});
    assert Leased(slots, t, i) == Leased(slots[h := None], t, i) + multiset{conn};
    assert multiset(now.idle + [conn]) == multiset(now.idle) + multiset{conn};
  }

  /** A node the event does not concern. */
  lemma Elsewhere(slots: seq<Option<Lease>>, h: nat, x: Option<Lease>, t: NodeType, i: nat)
    requires h < |slots|
    requires slots[h].Some? ==> (slots[h].value.nodeType, slots[h].value.num) != (t, i)
    requires x.Some? ==> (x.value.nodeType, x.value.num) != (t, i)
    ensures Leased(slots[h := x], t, i) == Leased(slots, t, i)
  {
    SlotUpdate(slots, h, x, t, i, multiset{}, multiset{});
  }

  /** Nodes keep their number, tag and connection string, so that leases keep fitting. */
  lemma StepKeepsShape(l: Ledger, e: Event)
    requires Can(l, e) && forall h: nat :: h < |l.slots| ==> Fits(l.pool, l.slots[h])
    ensures var m := Do(l, e);
            |m.slots| == |l.slots| && |m.pool.masters| == |l.pool.masters| && |m.pool.replicas| == |l.pool.replicas| &&
            forall h: nat :: h < |m.slots| ==> Fits(m.pool, m.slots[h])
  {
  }

  /** One node in an acquisition, successful or not. */
  lemma AcquireConservesNode(built: Node, l: Ledger, h: nat, preferred: NodeType, t: NodeType, i: nat)
    requires Can(l, Acquire(h, preferred)) && i < |l.pool.Nodes(t)|
    requires NodeConserved(built, l.pool.Nodes(t)[i], Leased(l.slots, t, i))
    ensures var m := Do(l, Acquire(h, preferred));
            i < |m.pool.Nodes(t)| && NodeConserved(built, m.pool.Nodes(t)[i], Leased(m.slots, t, i))
  {
    var m := Do(l, Acquire(h, preferred));
    if m.slots[h].None? {
      assert m.slots == l.slots;
    } else if (m.slots[h].value.nodeType, m.slots[h].value.num) == (t, i) {
      TakeFirst(built, l.pool.Nodes(t)[i], l.slots, h, t, i);
    } else {
      Elsewhere(l.slots, h, m.slots[h], t, i);
    }
  }

  lemma AcquireConserves(built: Pool, l: Ledger, h: nat, preferred: NodeType)
    requires Conserved(built, l) && Can(l, Acquire(h, preferred))
    ensures Conserved(built, Do(l, Acquire(h, preferred)))
  {
    var m := Do(l, Acquire(h, preferred));
    StepKeepsShape(l, Acquire(h, preferred));
    forall t: NodeType, i: nat | i < |built.Nodes(t)|
      ensures NodeConserved(built.Nodes(t)[i], m.pool.Nodes(t)[i], Leased(m.slots, t, i))
    {
      AcquireConservesNode(built.Nodes(t)[i], l, h, preferred, t, i);
    }
  }

  /** One node in a release. */
  lemma DropConservesNode(built: Node, l: Ledger, h: nat, t: NodeType, i: nat)
    requires Can(l, Drop(h)) && i < |l.pool.Nodes(t)| && Fits(l.pool, l.slots[h])
    requires NodeConserved(built, l.pool.Nodes(t)[i], Leased(l.slots, t, i))
    ensures var m := Do(l, Drop(h));
            i < |m.pool.Nodes(t)| && NodeConserved(built, m.pool.Nodes(t)[i], Leased(m.slots, t, i))
  {
    if (l.slots[h].value.nodeType, l.slots[h].value.num) == (t, i) {
      GiveBack(built, l.pool.Nodes(t)[i], l.slots, h, t, i);
    } else {
      Elsewhere(l.slots, h, None, t, i);
    }
  }

  lemma DropConserves(built: Pool, l: Ledger, h: nat)
    requires Conserved(built, l) && Can(l, Drop(h))
    ensures Conserved(built, Do(l, Drop(h)))
  {
    var m := Do(l, Drop(h));
    StepKeepsShape(l, Drop(h));
    forall t: NodeType, i: nat | i < |built.Nodes(t)|
      ensures NodeConserved(built.Nodes(t)[i], m.pool.Nodes(t)[i], Leased(m.slots, t, i))
    {
      DropConservesNode(built.Nodes(t)[i], l, h, t, i);
    }
  }

  /** Every sequence of acquisitions (failing or not) and releases conserves every node's connections. */
  lemma {:induction false} ConnectionsAreConserved(built: Pool, l: Ledger, es: seq<Event>)
    requires Conserved(built, l) && Possible(l, es)
    ensures Conserved(built, After(l, es))
    decreases |es|
  {
    if es != [] {
      match es[0] {
        case Acquire(h, preferred) => AcquireConserves(built, l, h, preferred);
        case Drop(h) => DropConserves(built, l, h);
      }
      ConnectionsAreConserved(built, Do(l, es[0]), es[1..]);
    }
  }

  // ------------------------------------------------------------------ ledgers of a freshly built pool

  function Start(masters: seq<(string, string)>, replicas: seq<(string, string)>, size: nat, holders: nat): Ledger {
    Ledger(Build(masters, replicas, size), seq(holders, _ => None))
  }

  lemma StartIsConserved(masters: seq<(string, string)>, replicas: seq<(string, string)>, size: nat, holders: nat)
    ensures Conserved(Build(masters, replicas, size), Start(masters, replicas, size, holders))
  {
    var l := Start(masters, replicas, size, holders);
    forall t: NodeType, i: nat ensures Leased(l.slots, t, i) == multiset{} {
      GatherEmpty(l.slots, FromNode(t, i));
    }
  }

  /** The serial numbers a node's connections are drawn from. */
  lemma SerialRange(confs: seq<(string, string)>, size: nat, serial: nat, i: nat, c: Connection)
    requires i < |confs| && c in Open(confs, size, serial)[i].idle
    ensures serial + i * size <= c.serial < serial + (i + 1) * size
    ensures c.serial < serial + |confs| * size
    ensures c.connStr == confs[i].0
  {
    assert (i + 1) * size <= |confs| * size by { Monotone(i + 1, |confs|, size); }
  }

  /** Each configured pair becomes a node: its first part opens the connections, its second is the tag. */
  lemma BuiltAsConfigured(masters: seq<(string, string)>, replicas: seq<(string, string)>, size: nat,
                          t: NodeType, i: nat)
    requires i < |Build(masters, replicas, size).Nodes(t)|
    ensures |Build(masters, replicas, size).Nodes(t)| == if t.Master? then |masters| else |replicas|
    ensures var node := Build(masters, replicas, size).Nodes(t)[i];
            (node.connStr, node.tag) == (if t.Master? then masters[i] else replicas[i]) && |node.idle| == size &&
            forall k :: 0 <= k < size ==> node.idle[k].connStr == node.connStr
  {
  }

  lemma Monotone(a: nat, b: nat, c: nat)
    requires a <= b
    ensures a * c <= b * c
  {
  }

  /** A connection belongs to one node of the pool as built, and occurs in it once. */
  lemma BuiltDistinct(masters: seq<(string, string)>, replicas: seq<(string, string)>, size: nat,
                      t: NodeType, i: nat, u: NodeType, j: nat, c: Connection)
    requires var p := Build(masters, replicas, size);
             i < |p.Nodes(t)| && j < |p.Nodes(u)| && c in p.Nodes(t)[i].idle && c in p.Nodes(u)[j].idle
    ensures t == u && i == j
    ensures multiset(Build(masters, replicas, size).Nodes(t)[i].idle)[c] == 1
  {
    var p := Build(masters, replicas, size);
    if t.Master? {
      SerialRange(masters, size, 0, i, c);
    } else {
      SerialRange(replicas, size, |masters| * size, i, c);
    }
    if u.Master? {
      SerialRange(masters, size, 0, j, c);
    } else {
      SerialRange(replicas, size, |masters| * size, j, c);
    }
    if i < j { Monotone(i + 1, j, size); } else if j < i { Monotone(j + 1, i, size); }
    OnceInDistinct(p.Nodes(t)[i].idle, c);
  }

  lemma {:induction false} OnceInDistinct(cs: seq<Connection>, c: Connection)
    requires c in cs && forall a, b :: 0 <= a < b < |cs| ==> cs[a] != cs[b]
    ensures multiset(cs)[c] == 1
  {
    var rest := cs[1..];
    assert cs == [cs[0]] + rest;
    if cs[0] != c {
      OnceInDistinct(rest, c);
    }
  }

  /** A held connection is one its node was built with: it has not migrated. */
  lemma HeldIsHome(built: Pool, l: Ledger, h: nat)
    requires Conserved(built, l) && h < |l.slots| && l.slots[h].Some?
    ensures var lease := l.slots[h].value;
            lease.num < |built.Nodes(lease.nodeType)| && lease.conn in built.Nodes(lease.nodeType)[lease.num].idle
  {
    var lease := l.slots[h].value;
    var t, i := lease.nodeType, lease.num;
    assert Fits(l.pool, l.slots[h]);
    assert NodeConserved(built.Nodes(t)[i], l.pool.Nodes(t)[i], Leased(l.slots, t, i));
    GatherIncludes(l.slots, h, FromNode(t, i));
    assert lease.conn in FromNode(t, i)(l.slots[h]);
    assert lease.conn in multiset(built.Nodes(t)[i].idle);
  }

  lemma IdleIsBuilt(built: Pool, l: Ledger, t: NodeType, i: nat, c: Connection)
    requires Conserved(built, l) && i < |l.pool.Nodes(t)| && c in l.pool.Nodes(t)[i].idle
    ensures i < |built.Nodes(t)| && c in built.Nodes(t)[i].idle
  {
    assert NodeConserved(built.Nodes(t)[i], l.pool.Nodes(t)[i], Leased(l.slots, t, i));
    assert c in multiset(built.Nodes(t)[i].idle);
  }

  /**
   Over every run of a pool as built: two holders never have the same connection, a held connection
   is idle in no node, it was opened with the connection string of the node it was leased from, and
   releasing it returns it there (the branch that drops it silently is not taken).
   */
  lemma ConnectionsAreNeverShared(masters: seq<(string, string)>, replicas: seq<(string, string)>, size: nat,
                                  holders: nat, es: seq<Event>, h: nat, g: nat)
    requires Possible(Start(masters, replicas, size, holders), es)
    ensures var l := After(Start(masters, replicas, size, holders), es);
            h < |l.slots| && l.slots[h].Some? ==>
              var lease := l.slots[h].value;
              lease.num < |l.pool.Nodes(lease.nodeType)|
              && lease.conn.connStr == l.pool.Nodes(lease.nodeType)[lease.num].connStr
              && (forall t: NodeType, i: nat :: i < |l.pool.Nodes(t)| ==> lease.conn !in l.pool.Nodes(t)[i].idle)
              && (g < |l.slots| && g != h && l.slots[g].Some? ==> l.slots[g].value.conn != lease.conn)
  {
    var built := Build(masters, replicas, size);
    var l := After(Start(masters, replicas, size, holders), es);
    StartIsConserved(masters, replicas, size, holders);
    ConnectionsAreConserved(built, Start(masters, replicas, size, holders), es);
    if h < |l.slots| && l.slots[h].Some? {
      var lease := l.slots[h].value;
      var t, i, c := lease.nodeType, lease.num, lease.conn;
      HeldIsHome(built, l, h);
      BuiltDistinct(masters, replicas, size, t, i, t, i, c);
      SerialOf(masters, replicas, size, t, i, c);
      assert NodeConserved(built.Nodes(t)[i], l.pool.Nodes(t)[i], Leased(l.slots, t, i));
      GatherIncludes(l.slots, h, FromNode(t, i));
      assert Leased(l.slots, t, i)[c] >= FromNode(t, i)(l.slots[h])[c] == 1;
      forall u: NodeType, j: nat | j < |l.pool.Nodes(u)| ensures c !in l.pool.Nodes(u)[j].idle {
        if c in l.pool.Nodes(u)[j].idle {
          IdleIsBuilt(built, l, u, j, c);
          BuiltDistinct(masters, replicas, size, t, i, u, j, c);
        }
      }
      if g < |l.slots| && g != h && l.slots[g].Some? && l.slots[g].value.conn == c {
        HeldIsHome(built, l, g);
        BuiltDistinct(masters, replicas, size, t, i, l.slots[g].value.nodeType, l.slots[g].value.num, c);
        GatherSeparates(l.slots, if g < h then g else h, if g < h then h else g, FromNode(t, i));
      }
    }
  }

  lemma SerialOf(masters: seq<(string, string)>, replicas: seq<(string, string)>, size: nat,
                 t: NodeType, i: nat, c: Connection)
    requires i < |Build(masters, replicas, size).Nodes(t)| && c in Build(masters, replicas, size).Nodes(t)[i].idle
    ensures c.connStr == Build(masters, replicas, size).Nodes(t)[i].connStr
  {
  }

  // ------------------------------------------------------------------ the queue of a node

  /** Does a slot hold a lease of node `i` of type `t`? */
  predicate IsOf(slot: Option<Lease>, t: NodeType, i: nat) {
    slot.Some? && slot.value.nodeType == t && slot.value.num == i
  }

  /** The connections of a node that a run leases, in order, as they appear in the holders' hands. */
  function Leases(l: Ledger, es: seq<Event>, t: NodeType, i: nat): seq<Connection>
    requires Possible(l, es)
    decreases |es|
  {
    if es == [] then []
    else
      var m := Do(l, es[0]);
      (if es[0].Acquire? && IsOf(m.slots[es[0].h], t, i) then [m.slots[es[0].h].value.conn] else [])
      + Leases(m, es[1..], t, i)
  }

  /** The connections of a node that a run returns, in order, as they leave the holders' hands. */
  function Returns(l: Ledger, es: seq<Event>, t: NodeType, i: nat): seq<Connection>
    requires Possible(l, es)
    decreases |es|
  {
    if es == [] then []
    else
      (if es[0].Drop? && IsOf(l.slots[es[0].h], t, i) then [l.slots[es[0].h].value.conn] else [])
      + Returns(Do(l, es[0]), es[1..], t, i)
  }

  /** One event takes from the front of a node's queue, or puts at its back, or leaves it. */
  lemma EventMovesQueue(l: Ledger, e: Event, t: NodeType, i: nat)
    requires Can(l, e) && i < |l.pool.Nodes(t)|
    ensures var m := Do(l, e);
            |m.pool.Nodes(t)| == |l.pool.Nodes(t)| &&
            var before, after := l.pool.Nodes(t)[i].idle, m.pool.Nodes(t)[i].idle;
            if e.Acquire? && IsOf(m.slots[e.h], t, i) then before == [m.slots[e.h].value.conn] + after
            else if e.Drop? && IsOf(l.slots[e.h], t, i) then after == before + [l.slots[e.h].value.conn]
            else after == before
  {
  }

  lemma QueueStep(taken: seq<Connection>, rest: seq<Connection>, after: seq<Connection>,
                  before: seq<Connection>, next: seq<Connection>, given: seq<Connection>, later: seq<Connection>)
    requires rest + after == next + later && taken + next == before + given
    ensures (taken + rest) + after == before + (given + later)
  {
    assert (taken + rest) + after == taken + (rest + after);
    assert taken + (next + later) == (taken + next) + later;
  }

  /**
   First in, first out: over every run, what is leased from a node, followed by what is idle in it at
   the end, is what was idle in it at the start, followed by what is returned to it.
   */
  lemma {:induction false} ConnectionsQueueUp(l: Ledger, es: seq<Event>, t: NodeType, i: nat)
    requires Possible(l, es) && i < |l.pool.Nodes(t)|
    ensures |After(l, es).pool.Nodes(t)| == |l.pool.Nodes(t)|
    ensures Leases(l, es, t, i) + After(l, es).pool.Nodes(t)[i].idle == l.pool.Nodes(t)[i].idle + Returns(l, es, t, i)
    decreases |es|
  {
    if es != [] {
      var e := es[0];
      var m := Do(l, e);
      var taken := if e.Acquire? && IsOf(m.slots[e.h], t, i) then [m.slots[e.h].value.conn] else [];
      var given := if e.Drop? && IsOf(l.slots[e.h], t, i) then [l.slots[e.h].value.conn] else [];
      EventMovesQueue(l, e, t, i);
      ConnectionsQueueUp(m, es[1..], t, i);
      QueueStep(taken, Leases(m, es[1..], t, i), After(m, es[1..]).pool.Nodes(t)[i].idle,
                l.pool.Nodes(t)[i].idle, m.pool.Nodes(t)[i].idle, given, Returns(m, es[1..], t, i));
    }
  }

  /** With two connections idle, returning the first one and asking again gives the second. */
  lemma ReturnedGoesLast(tag: string, conf: string, a: Connection, b: Connection, last: nat)
    ensures var l := Ledger(Pool([Node(tag, conf, [a, b])], [], last, 0), [None]);
            var es := [Acquire(0, Master), Drop(0), Acquire(0, Master)];
            Possible(l, es) && After(l, es).slots[0].Some? && After(l, es).slots[0].value.conn == b
  {
    var l := Ledger(Pool([Node(tag, conf, [a, b])], [], last, 0), [None]);
    var m := Do(l, Acquire(0, Master));
    var n := Do(m, Drop(0));
    assert m.pool.masters[0].idle == [b] && n.pool.masters[0].idle == [b, a];
    var es := [Acquire(0, Master), Drop(0), Acquire(0, Master)];
    assert es[1..] == [Drop(0), Acquire(0, Master)] && es[1..][1..] == [Acquire(0, Master)];
  }

  /**
   What is granted is the first idle connection of the node whose turn it is, under that node's tag;
   nothing is if that node has none, whatever others have.
   */
  lemma TurnIsServed(p: Pool, preferred: NodeType)
    ensures var lease := Get(p, preferred).1;
            lease.Some? ==>
              Target(p, preferred) == Some((lease.value.nodeType, lease.value.num)) &&
              lease.value.num < |p.Nodes(lease.value.nodeType)| &&
              var node := p.Nodes(lease.value.nodeType)[lease.value.num];
              lease.value.tag == node.tag && node.idle != [] && lease.value.conn == node.idle[0]
    ensures Get(p, preferred).1.None? <==>
              Target(p, preferred).None? ||
              var (t, i) := Target(p, preferred).value; i < |p.Nodes(t)| && p.Nodes(t)[i].idle == []
  {
  }

  // ------------------------------------------------------------------ availability

  lemma NodeHasIdle(built: Node, now: Node, slots: seq<Option<Lease>>, h: nat, t: NodeType, i: nat)
    requires NodeConserved(built, now, Leased(slots, t, i))
    requires h < |slots| && slots[h].None? && |built.idle| >= |slots|
    ensures now.idle != []
  {
    GatherLeavesOne(slots, h, FromNode(t, i));
    assert |multiset(now.idle)| + |Leased(slots, t, i)| == |multiset(built.idle)|;
  }

  /** Whatever node is next, it has an idle connection if each node was built with one per holder. */
  lemma EnoughForEveryHolder(built: Pool, l: Ledger, h: nat, preferred: NodeType)
    requires Conserved(built, l) && h < |l.slots| && l.slots[h].None? && built.masters != []
    requires forall t: NodeType, i: nat :: i < |built.Nodes(t)| ==> |built.Nodes(t)[i].idle| >= |l.slots|
    ensures Get(l.pool, preferred).1.Some?
  {
    assert l.pool.Nodes(Master) != [];
    var target := Target(l.pool, preferred).value;
    var t, i := target.0, target.1;
    NodeHasIdle(built.Nodes(t)[i], l.pool.Nodes(t)[i], l.slots, h, t, i);
  }
}
