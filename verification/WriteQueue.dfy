/**
 serializeDatabaseWrite: one queue of promises per database. A call chains on the tail it finds, becomes the tail,
 waits for the tail before it, runs, and takes its own tail away if nobody chained on it.
 */
module WriteQueue {
  import opened Wrappers

  datatype Phase = Waiting | Running | Done(ok: bool)

  /** A call: `prev` is the tail it found, named by the call that made it. */
  datatype Call = Call(key: string, prev: Option<nat>, phase: Phase)

  /** `started` lists the calls in the order their operations started. */
  datatype State = State(queues: map<string, nat>, calls: seq<Call>, started: seq<nat>)

  const START := State(map[], [], [])

  /** The tail of a call settles once the tail before it has and the call has released its own promise. */
  predicate Settled(calls: seq<Call>, i: nat)
    decreases i
  {
    i < |calls| && calls[i].phase.Done? &&
    (calls[i].prev.None? || (calls[i].prev.value < i && Settled(calls, calls[i].prev.value)))
  }

  datatype Event = Arrive(key: string) | Begin(i: nat) | Finish(i: nat, ok: bool)

  predicate Enabled(s: State, e: Event) {
    match e
    case Arrive(_) => true
    case Begin(i) => i < |s.calls| && s.calls[i].phase == Waiting && (s.calls[i].prev.None? || Settled(s.calls, s.calls[i].prev.value))
    case Finish(i, _) => i < |s.calls| && s.calls[i].phase == Running
  }

  function Next(s: State, e: Event): State
    requires Enabled(s, e)
  {
    match e
    case Arrive(key) =>
      s.(queues := s.queues[key := |s.calls|],
         calls := s.calls + [Call(key, if key in s.queues then Some(s.queues[key]) else None, Waiting)])
    case Begin(i) => s.(calls := s.calls[i := s.calls[i].(phase := Running)], started := s.started + [i])
    case Finish(i, ok) =>
      var key := s.calls[i].key;
      State(if key in s.queues && s.queues[key] == i then s.queues - {key} else s.queues,
            s.calls[i := s.calls[i].(phase := Done(ok))], s.started)
  }

  /******* The invariant *******/

  /** Every earlier call of the same database is done. */
  predicate FirstInLine(calls: seq<Call>, i: nat)
    requires i < |calls|
  {
    forall j :: 0 <= j < i && calls[j].key == calls[i].key ==> calls[j].phase.Done?
  }

  /** `p` is the last call of its database before `i`. */
  predicate Before(calls: seq<Call>, p: nat, i: nat)
    requires i <= |calls|
  {
    p < i && forall j :: p < j < i ==> calls[j].key != calls[p].key
  }

  ghost predicate CallOk(calls: seq<Call>, i: nat)
    requires i < |calls|
  {
    && (calls[i].phase != Waiting ==> FirstInLine(calls, i))
    && match calls[i].prev
       case None => FirstInLine(calls, i)
       case Some(p) => p < i && calls[p].key == calls[i].key && Before(calls, p, i)
  }

  /** The entry of a database is its last call, which is not done; without an entry all its calls are. */
  ghost predicate QueueOk(s: State, key: string) {
    if key in s.queues then
      var q := s.queues[key];
      q < |s.calls| && s.calls[q].key == key && !s.calls[q].phase.Done? && Before(s.calls, q, |s.calls|)
    else forall i :: 0 <= i < |s.calls| && s.calls[i].key == key ==> s.calls[i].phase.Done?
  }

  ghost predicate StartedOk(s: State) {
    && (forall a :: 0 <= a < |s.started| ==> s.started[a] < |s.calls| && s.calls[s.started[a]].phase != Waiting)
    && (forall a, b :: 0 <= a < b < |s.started| && s.calls[s.started[a]].key == s.calls[s.started[b]].key ==> s.started[a] < s.started[b])
  }

  ghost predicate InOrder(s: State) {
    && (forall i :: 0 <= i < |s.calls| ==> CallOk(s.calls, i))
    && (forall key :: QueueOk(s, key))
    && StartedOk(s)
  }

  ghost predicate CallsOk(calls: seq<Call>) { forall i :: 0 <= i < |calls| ==> CallOk(calls, i) }

  /** A tail has settled exactly when its call and every earlier call of the database are done, well or badly. */
  lemma {:induction false} SettledIff(calls: seq<Call>, i: nat)
    requires CallsOk(calls) && i < |calls|
    ensures Settled(calls, i) <==> calls[i].phase.Done? && FirstInLine(calls, i)
    decreases i
  {
    assert CallOk(calls, i);
    if calls[i].prev.Some? {
      SettledIff(calls, calls[i].prev.value);
    }
  }

  /** An operation may begin exactly when it waits and everything that arrived before it on its database is done. */
  lemma BeginsIff(s: State, i: nat)
    requires InOrder(s) && i < |s.calls|
    ensures Enabled(s, Begin(i)) <==> s.calls[i].phase == Waiting && FirstInLine(s.calls, i)
  {
    assert CallOk(s.calls, i);
    if s.calls[i].prev.Some? {
      SettledIff(s.calls, s.calls[i].prev.value);
    }
  }

  lemma ArriveKeeps(s: State, key: string)
    requires InOrder(s)
    ensures InOrder(Next(s, Arrive(key)))
  {
    var t := Next(s, Arrive(key));
    assert QueueOk(s, key);
    forall i | 0 <= i < |t.calls| ensures CallOk(t.calls, i) {
      if i < |s.calls| {
        assert CallOk(s.calls, i);
      }
    }
    forall k ensures QueueOk(t, k) {
      assert QueueOk(s, k);
    }
  }

  lemma BeginKeeps(s: State, i: nat)
    requires InOrder(s) && Enabled(s, Begin(i))
    ensures InOrder(Next(s, Begin(i)))
  {
    var t := Next(s, Begin(i));
    BeginsIff(s, i);
    forall j | 0 <= j < |t.calls| ensures CallOk(t.calls, j) {
      assert CallOk(s.calls, j);
    }
    forall k ensures QueueOk(t, k) {
      assert QueueOk(s, k);
    }
    forall a | 0 <= a < |s.started| && s.calls[s.started[a]].key == s.calls[i].key ensures s.started[a] < i {
      assert CallOk(s.calls, s.started[a]);
    }
  }

  lemma FinishKeeps(s: State, i: nat, ok: bool)
    requires InOrder(s) && Enabled(s, Finish(i, ok))
    ensures InOrder(Next(s, Finish(i, ok)))
  {
    var t := Next(s, Finish(i, ok));
    forall j | 0 <= j < |t.calls| ensures CallOk(t.calls, j) {
      assert CallOk(s.calls, j);
    }
    forall k ensures QueueOk(t, k) {
      assert QueueOk(s, k);
      if k == s.calls[i].key {
        assert CallOk(s.calls, i);
        FinishedQueue(s, i, ok);
      }
    }
  }

  /** The entry of the finished call's database: taken away if it was the last call, else still somebody else's. */
  lemma FinishedQueue(s: State, i: nat, ok: bool)
    requires InOrder(s) && Enabled(s, Finish(i, ok))
    ensures QueueOk(Next(s, Finish(i, ok)), s.calls[i].key)
  {
    var key := s.calls[i].key;
    assert QueueOk(s, key) && CallOk(s.calls, i);
    var q := s.queues[key];
    if q != i {
      assert q > i;
    }
  }

  /******* Runs *******/

  predicate CanRun(events: seq<Event>)
    decreases |events|, 0
  {
    events == [] || (CanRun(events[..|events| - 1]) && Enabled(Run(events[..|events| - 1]), events[|events| - 1]))
  }

  function Run(events: seq<Event>): State
    requires CanRun(events)
    decreases |events|, 1
  {
    if events == [] then START else Next(Run(events[..|events| - 1]), events[|events| - 1])
  }

  lemma {:induction false} RunsKeep(events: seq<Event>)
    requires CanRun(events)
    ensures InOrder(Run(events))
  {
    if events == [] {
      forall k ensures QueueOk(START, k) {}
    } else {
      var s, e := Run(events[..|events| - 1]), events[|events| - 1];
      RunsKeep(events[..|events| - 1]);
      match e
      case Arrive(key) => ArriveKeeps(s, key);
      case Begin(i) => BeginKeeps(s, i);
      case Finish(i, ok) => FinishKeeps(s, i, ok);
    }
  }

  /** At most one operation of a database runs at a time. */
  lemma OneAtATime(events: seq<Event>, i: nat, j: nat)
    requires CanRun(events) && i < |Run(events).calls| && j < |Run(events).calls|
    requires var calls := Run(events).calls; calls[i].key == calls[j].key && calls[i].phase == Running && calls[j].phase == Running
    ensures i == j
  {
    RunsKeep(events);
    assert CallOk(Run(events).calls, i) && CallOk(Run(events).calls, j);
  }

  /** Operations of a database start in the order they arrived, whether earlier ones succeed or fail. */
  lemma InArrivalOrder(events: seq<Event>, a: nat, b: nat)
    requires CanRun(events) && a < b < |Run(events).started|
    ensures var s := Run(events);
      && s.started[a] < |s.calls| && s.started[b] < |s.calls|
      && (s.calls[s.started[a]].key == s.calls[s.started[b]].key ==> s.started[a] < s.started[b])
  {
    RunsKeep(events);
  }

  /** An entry is removed only when no call, waiting or not, has chained on it; afterwards the database is idle. */
  lemma RemovalIsSafe(events: seq<Event>, i: nat, ok: bool)
    requires CanRun(events) && Enabled(Run(events), Finish(i, ok))
    requires var s := Run(events); s.calls[i].key in s.queues && s.calls[i].key !in Next(s, Finish(i, ok)).queues
    ensures var s := Run(events);
      && (forall j :: 0 <= j < |s.calls| ==> s.calls[j].prev != Some(i))
      && (forall j :: 0 <= j < |s.calls| && j != i && s.calls[j].key == s.calls[i].key ==> s.calls[j].phase.Done?)
  {
    RunsKeep(events);
    var s := Run(events);
    assert QueueOk(s, s.calls[i].key) && CallOk(s.calls, i);
    forall j | 0 <= j < |s.calls| ensures s.calls[j].prev != Some(i) {
      assert CallOk(s.calls, j);
    }
  }

  /** The queue never stalls: while some call of a database is not done, one of them runs or may begin. */
  lemma NeverStalls(events: seq<Event>, i: nat) returns (j: nat)
    requires CanRun(events) && i < |Run(events).calls| && !Run(events).calls[i].phase.Done?
    ensures j <= i && Run(events).calls[j].key == Run(events).calls[i].key
    ensures Run(events).calls[j].phase == Running || Enabled(Run(events), Begin(j))
  {
    RunsKeep(events);
    var s := Run(events);
    j := 0;
    while s.calls[j].key != s.calls[i].key || s.calls[j].phase.Done?
      invariant j <= i
      invariant forall k :: 0 <= k < j && s.calls[k].key == s.calls[i].key ==> s.calls[k].phase.Done?
      decreases i - j
    {
      j := j + 1;
    }
    BeginsIff(s, j);
  }

  /******* The shared map *******/

  class DatabaseWriteQueues {
    var queues: map<string, nat>
    var calls: seq<Call>
    ghost var started: seq<nat>

    ghost function View(): State
      reads this
    {
      State(queues, calls, started)
    }

    constructor ()
      ensures View() == START && InOrder(View())
    {
      queues, calls, started := map[], [], [];
      new;
      forall k ensures QueueOk(START, k) {}
    }

    /** Up to the first await: find the tail, chain on it, become the tail. */
    method Enqueue(key: string) returns (i: nat)
      requires InOrder(View())
      modifies this
      ensures View() == Next(old(View()), Arrive(key)) && i == |old(calls)| && InOrder(View())
    {
      ArriveKeeps(View(), key);
      i := |calls|;
      var previous := if key in queues then Some(queues[key]) else None;
      queues := queues[key := i];
      calls := calls + [Call(key, previous, Waiting)];
    }

    /** The tail before has settled: the operation runs. */
    method Start(i: nat)
      requires InOrder(View()) && Enabled(View(), Begin(i))
      modifies this
      ensures View() == Next(old(View()), Begin(i)) && InOrder(View())
    {
      BeginKeeps(View(), i);
      calls := calls[i := calls[i].(phase := Running)];
      started := started + [i];
    }

    /** The `finally` block, whether the operation returned or threw. */
    method Release(i: nat, ok: bool)
      requires InOrder(View()) && Enabled(View(), Finish(i, ok))
      modifies this
      ensures View() == Next(old(View()), Finish(i, ok)) && InOrder(View())
    {
      FinishKeeps(View(), i, ok);
      var key := calls[i].key;
      calls := calls[i := calls[i].(phase := Done(ok))];
      if key in queues && queues[key] == i {
        queues := queues - {key};
      }
    }
  }
}
