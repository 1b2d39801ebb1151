/**
 `wait_all` evaluates `completed + refused == last_id` with three separate atomic reads. C++ leaves
 the order of those reads open; this module decides which orders make the comparison meaningful.
 */
module WaitAll {
  import opened ThreadPoolMachine

  datatype Counter = Completed | Refused | LastId

  function Read(s: State, c: Counter): nat {
    match c
    case Completed => s.completed
    case Refused => s.refused
    case LastId => s.lastId
  }

  /** An order in which each of the three counters is read once. */
  predicate IsOrder(order: seq<Counter>) {
    |order| == 3 && order[0] != order[1] && order[1] != order[2] && order[0] != order[2]
  }

  /** What the reads yield for counter `c` when they are made in states `s0`, `s1`, `s2`. */
  function Seen(order: seq<Counter>, s0: State, s1: State, s2: State, c: Counter): nat
    requires IsOrder(order)
  {
    if order[0] == c then Read(s0, c) else if order[1] == c then Read(s1, c) else Read(s2, c)
  }

  predicate Balanced(order: seq<Counter>, s0: State, s1: State, s2: State)
    requires IsOrder(order)
  {
    Seen(order, s0, s1, s2, Completed) + Seen(order, s0, s1, s2, Refused) == Seen(order, s0, s1, s2, LastId)
  }

  /** A run cut at the moments of the three reads. */
  datatype Watch = Watch(threads: nat, capacity: nat, first: seq<Action>, second: seq<Action>, third: seq<Action>) {
    predicate Valid() {
      && Feasible(Init(threads, capacity), first)
      && Feasible(At0(), second)
      && Feasible(At1(), third)
    }

    function At0(): State
      requires Feasible(Init(threads, capacity), first)
    {
      Exec(Init(threads, capacity), first)
    }

    function At1(): State
      requires Feasible(Init(threads, capacity), first) && Feasible(At0(), second)
    {
      Exec(At0(), second)
    }

    function At2(): State
      requires Valid()
    {
      Exec(At1(), third)
    }
  }

  /** Reading in this order, `wait_all` never returns while something is pending at its last read. */
  ghost predicate SoundOrder(order: seq<Counter>)
    requires IsOrder(order)
  {
    forall w: Watch :: w.Valid() && Balanced(order, w.At0(), w.At1(), w.At2()) ==> Quiescent(w.At2())
  }

  /** One task runs and one is queued when the total is read; two refusals afterwards balance it. */
  const REFUSALS_LAST := Watch(1, 1, StartOne() + [Number, Accept], [], [Number, Refuse, Number, Refuse])

  /** One task runs when the total is read; it completes after a second one has been queued. */
  const COMPLETIONS_LAST := Watch(1, 1, StartOne(), [], [Number, Accept, Count(0)])

  function StartOne(): seq<Action> {
    [Number, Accept, LoopTest(0), Wake(0), Test(0), Pop(0)]
  }

  const ONE_RUNNING := Init(1, 1).(lastId := 1, workers := [Running(0)], accepted := [0], started := [0])

  /** A worker takes the only task of a queue. */
  lemma OnePops(s: State)
    requires s == Init(1, 1).(lastId := 1, queue := [0], accepted := [0])
    ensures var acts := [LoopTest(0), Wake(0), Test(0), Pop(0)]; Feasible(s, acts) && Exec(s, acts) == ONE_RUNNING
  {
    var s3 := Apply(s, LoopTest(0));
    var s4 := Apply(s3, Wake(0));
    var s5 := Apply(s4, Test(0));
    var s6 := Apply(s5, Pop(0));
    assert s6.queue == [] && s6.workers == [Running(0)] && s6 == ONE_RUNNING;
    Then(s5, Pop(0), []);
    Then(s4, Test(0), [Pop(0)]);
    Then(s3, Wake(0), [Test(0), Pop(0)]);
    Then(s, LoopTest(0), [Wake(0), Test(0), Pop(0)]);
    assert [LoopTest(0)] + [Wake(0), Test(0), Pop(0)] == [LoopTest(0), Wake(0), Test(0), Pop(0)];
  }

  lemma OneStarts()
    ensures Feasible(Init(1, 1), StartOne()) && Exec(Init(1, 1), StartOne()) == ONE_RUNNING
  {
    var s := Init(1, 1);
    var s1 := Apply(s, Number);
    var s2 := Apply(s1, Accept);
    var rest := [LoopTest(0), Wake(0), Test(0), Pop(0)];
    assert s2 == Init(1, 1).(lastId := 1, queue := [0], accepted := [0]);
    OnePops(s2);
    Then(s1, Accept, rest);
    Then(s, Number, [Accept] + rest);
    assert [Number] + ([Accept] + rest) == StartOne();
  }

  lemma StartOneRuns(rest: seq<Action>)
    requires Feasible(ONE_RUNNING, rest)
    ensures Feasible(Init(1, 1), StartOne() + rest)
    ensures Exec(Init(1, 1), StartOne() + rest) == Exec(ONE_RUNNING, rest)
  {
    OneStarts();
    ExecConcat(Init(1, 1), StartOne(), rest);
  }

  lemma RefusalsLastRuns()
    ensures REFUSALS_LAST.Valid()
    ensures REFUSALS_LAST.At0() == REFUSALS_LAST.At1()
    ensures REFUSALS_LAST.At1().completed == 0 && REFUSALS_LAST.At1().lastId == 2
    ensures REFUSALS_LAST.At2().refused == 2 && REFUSALS_LAST.At2().queue == [1]
  {
    var s := ONE_RUNNING;
    var s1 := Apply(s, Number);
    var t := Apply(s1, Accept);
    Then(s1, Accept, []);
    Then(s, Number, [Accept]);
    assert [Number] + [Accept] == [Number, Accept];
    StartOneRuns([Number, Accept]);
    var t1 := Apply(t, Number);
    var t2 := Apply(t1, Refuse);
    var t3 := Apply(t2, Number);
    Then(t3, Refuse, []);
    Then(t2, Number, [Refuse]);
    Then(t1, Refuse, [Number, Refuse]);
    Then(t, Number, [Refuse, Number, Refuse]);
    assert [Number] + [Refuse, Number, Refuse] == [Number, Refuse, Number, Refuse];
  }

  lemma CompletionsLastRuns()
    ensures COMPLETIONS_LAST.Valid()
    ensures COMPLETIONS_LAST.At0() == COMPLETIONS_LAST.At1()
    ensures COMPLETIONS_LAST.At1().refused == 0 && COMPLETIONS_LAST.At1().lastId == 1
    ensures COMPLETIONS_LAST.At2().completed == 1 && COMPLETIONS_LAST.At2().queue == [1]
  {
    var s := ONE_RUNNING;
    StartOneRuns([]);
    assert StartOne() + [] == StartOne();
    var s1 := Apply(s, Number);
    var s2 := Apply(s1, Accept);
    Then(s2, Count(0), []);
    Then(s1, Accept, [Count(0)]);
    Then(s, Number, [Accept, Count(0)]);
    assert [Number] + [Accept, Count(0)] == [Number, Accept, Count(0)];
  }

  /** The comparison means "nothing is pending" exactly when `tasks_last_id` is the last counter read. */
  lemma SoundExactlyWhenTotalIsReadLast(order: seq<Counter>)
    requires IsOrder(order)
    ensures SoundOrder(order) <==> order[2] == LastId
  {
    if order[2] == LastId {
      forall w: Watch | w.Valid() && Balanced(order, w.At0(), w.At1(), w.At2()) ensures Quiescent(w.At2()) {
        InitInv(w.threads, w.capacity);
        SnapshotIsSound(Init(w.threads, w.capacity), w.first, w.second, w.third);
      }
    } else if order[2] == Refused {
      RefusalsLastRuns();
      var w := REFUSALS_LAST;
      assert Balanced(order, w.At0(), w.At1(), w.At2()) && !Quiescent(w.At2());
    } else {
      CompletionsLastRuns();
      var w := COMPLETIONS_LAST;
      assert Balanced(order, w.At0(), w.At1(), w.At2()) && !Quiescent(w.At2());
    }
  }
}
