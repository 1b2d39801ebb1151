/** Fairness of the connection pool's node selection over any sequence of acquisitions and releases. */
module RoundRobin {
  import opened Arithmetic
  import opened ConnectionLedger

  function Last(p: Pool, t: NodeType): nat {
    if t.Master? then p.lastMaster else p.lastReplica
  }

  /** The nodes of type `t` that the acquisitions of a run are directed at, in order, failed ones included. */
  function Turns(l: Ledger, es: seq<Event>, t: NodeType): seq<nat>
    requires Possible(l, es)
    decreases |es|
  {
    if es == [] then []
    else
      var rest := Turns(Do(l, es[0]), es[1..], t);
      if es[0].Acquire? then
        match Target(l.pool, es[0].preferred)
        case Some((u, i)) => if u == t then [i] + rest else rest
        case None => rest
      else rest
  }

  lemma DoKeepsShape(l: Ledger, e: Event)
    requires Can(l, e)
    ensures forall t: NodeType :: |Do(l, e).pool.Nodes(t)| == |l.pool.Nodes(t)|
    ensures forall t: NodeType :: Last(Do(l, e).pool, t) ==
              if e.Acquire? && Target(l.pool, e.preferred).Some? && Target(l.pool, e.preferred).value.0 == t
              then Target(l.pool, e.preferred).value.1 else Last(l.pool, t)
  {
  }

  /** One event takes at most one turn of a type, the one after the last. */
  lemma TurnsStep(l: Ledger, es: seq<Event>, t: NodeType)
    requires Possible(l, es) && es != []
    ensures var m := Do(l, es[0]); var n := |l.pool.Nodes(t)|;
            |m.pool.Nodes(t)| == n &&
            if Turns(l, es, t) == Turns(m, es[1..], t) then Last(m.pool, t) == Last(l.pool, t)
            else n > 0 && Last(m.pool, t) == (Last(l.pool, t) + 1) % n
                 && Turns(l, es, t) == [Last(m.pool, t)] + Turns(m, es[1..], t)
  {
    DoKeepsShape(l, es[0]);
  }

  lemma ModStep(a: nat, k: nat, n: nat)
    requires n > 0
    ensures ((a + 1) % n + 1 + k) % n == (a + 1 + (k + 1)) % n
  {
    var q := (a + 1) / n;
    assert a + 1 + (k + 1) == q * n + ((a + 1) % n + 1 + k);
    ModShift(q, (a + 1) % n + 1 + k, n);
  }

  lemma CyclicStep(a: nat, n: nat, x: nat, rest: seq<nat>, k: nat)
    requires n > 0 && x == (a + 1) % n && k <= |rest|
    requires k > 0 ==> rest[k - 1] == (x + 1 + (k - 1)) % n
    ensures ([x] + rest)[k] == (a + 1 + k) % n
  {
    if k > 0 { ModStep(a, k - 1, n); }
  }

  /**
   Whatever is leased, released or failing in between, the k-th turn of a type goes to the node k
   places after the last one used, cyclically.
   */
  lemma {:induction false} TurnsAreCyclic(l: Ledger, es: seq<Event>, t: NodeType, k: nat)
    requires Possible(l, es) && k < |Turns(l, es, t)|
    ensures l.pool.Nodes(t) != []
    ensures Turns(l, es, t)[k] == (Last(l.pool, t) + 1 + k) % |l.pool.Nodes(t)|
    decreases |es|
  {
    var m := Do(l, es[0]);
    TurnsStep(l, es, t);
    if Turns(l, es, t) == Turns(m, es[1..], t) {
      TurnsAreCyclic(m, es[1..], t, k);
    } else {
      if k > 0 { TurnsAreCyclic(m, es[1..], t, k - 1); }
      CyclicStep(Last(l.pool, t), |l.pool.Nodes(t)|, Last(m.pool, t), Turns(m, es[1..], t), k);
    }
  }

  /** Acquisitions in a run that may be served by a replica. */
  function WantReplica(es: seq<Event>): nat {
    if es == [] then 0
    else (if es[0].Acquire? && es[0].preferred.Replica? then 1 else 0) + WantReplica(es[1..])
  }

  function Acquisitions(es: seq<Event>): nat {
    if es == [] then 0 else (if es[0].Acquire? then 1 else 0) + Acquisitions(es[1..])
  }

  /** A master preference, or the lack of replicas, only ever takes turns of masters. */
  lemma {:induction false} TurnsBySide(l: Ledger, es: seq<Event>)
    requires Possible(l, es) && l.pool.masters != []
    ensures |Turns(l, es, Replica)| == if l.pool.replicas == [] then 0 else WantReplica(es)
    ensures |Turns(l, es, Master)| + |Turns(l, es, Replica)| == Acquisitions(es)
    decreases |es|
  {
    if es != [] {
      DoKeepsShape(l, es[0]);
      assert |Do(l, es[0]).pool.Nodes(Master)| == |l.pool.Nodes(Master)|;
      assert |Do(l, es[0]).pool.Nodes(Replica)| == |l.pool.Nodes(Replica)|;
      TurnsBySide(Do(l, es[0]), es[1..]);
    }
  }

  function Count(s: seq<nat>, x: nat): nat {
    if s == [] then 0 else Count(s[..|s| - 1], x) + (if s[|s| - 1] == x then 1 else 0)
  }

  /** How often j occurs among (a + 0) % n, ..., (a + m - 1) % n. */
  lemma {:induction false} CountCyclic(s: seq<nat>, a: nat, n: nat, j: nat)
    requires n > 0 && j < n
    requires forall k: nat :: k < |s| ==> s[k] == (a + k) % n
    ensures Count(s, j) == (a + |s| + n - 1 - j) / n - (a + n - 1 - j) / n
  {
    if s != [] {
      var m := |s| - 1;
      CountCyclic(s[..m], a, n, j);
      NextMultiple(a + m, n, j);
      assert s[m] == (a + m) % n;
    }
  }

  lemma NextMultiple(x: nat, n: nat, j: nat)
    requires n > 0 && j < n
    ensures (x + 1 + n - 1 - j) / n == (x + n - 1 - j) / n + (if x % n == j then 1 else 0)
  {
    var q, r := x / n, x % n;
    QuotientAbove(x + n - j, q, r + n - j, n);
    QuotientAbove(x + n - 1 - j, q, r + n - 1 - j, n);
  }

  lemma QuotientAbove(x: nat, q: nat, r: nat, n: nat)
    requires n > 0 && x == q * n + r && r < 2 * n
    ensures x / n == q + (if r < n then 0 else 1)
  {
    assert (q + 1) * n == q * n + n;
    if r < n { DivUnique(x, q, r, n); } else { DivUnique(x, q + 1, r - n, n); }
  }

  /** Within any window of w consecutive turns of a type, each node gets floor(w/n) or ceil(w/n) of them. */
  lemma EveryWindowIsFair(l: Ledger, es: seq<Event>, t: NodeType, from: nat, w: nat, j: nat)
    requires Possible(l, es) && from + w <= |Turns(l, es, t)| && j < |l.pool.Nodes(t)|
    ensures var n := |l.pool.Nodes(t)|;
            w / n <= Count(Turns(l, es, t)[from..from + w], j) <= (w + n - 1) / n
  {
    var n := |l.pool.Nodes(t)|;
    var window := Turns(l, es, t)[from..from + w];
    var a := Last(l.pool, t) + 1 + from;
    forall k: nat | k < |window| ensures window[k] == (a + k) % n {
      TurnsAreCyclic(l, es, t, from + k);
    }
    CountCyclic(window, a, n, j);
    FloorDifference(a + n - 1 - j, w, n);
  }

  lemma SumOfQuotients(x: nat, w: nat, n: nat)
    requires n > 0
    ensures x % n + w % n < n ==> (x + w) / n == x / n + w / n
    ensures x % n + w % n >= n ==> (x + w) / n == x / n + w / n + 1
  {
    var q := x / n + w / n;
    assert q * n == (x / n) * n + (w / n) * n && (q + 1) * n == q * n + n;
    if x % n + w % n < n {
      DivUnique(x + w, q, x % n + w % n, n);
    } else {
      DivUnique(x + w, q + 1, x % n + w % n - n, n);
    }
  }

  lemma FloorDifference(x: nat, w: nat, n: nat)
    requires n > 0
    ensures w / n <= (x + w) / n - x / n <= (w + n - 1) / n
  {
    DivUnique(n - 1, 0, n - 1, n);
    SumOfQuotients(x, w, n);
    SumOfQuotients(n - 1, w, n);
  }
}
