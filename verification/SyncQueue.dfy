/**
 The queue that starts mirror runs. Each segment of code between two awaits is one event; requests, promises, sync
 results, flag writes and the timer interleave in any order.
 */
module SyncQueue {
  const RETRY_BASE_MS := 5000
  const RETRY_MAX_MS := 300000

  /** Where an instance of the loop waits: for the promise it was given, for a sync, after a refused sync, or for the pending flag. */
  datatype Waiting = Promised | Syncing | Refused | Clearing

  /**
   `calls` counts the requests that are still writing the pending flag, `promised` those among them that carry a
   promise to wait for. `loops` are the live instances of the loop. `owed` is bookkeeping of the proof: a request was
   queued, or a sync failed, and no sync has started since.
   */
  datatype State = State(queued: bool, running: bool, timer: bool, failures: nat, calls: nat, promised: nat, loops: seq<Waiting>, owed: bool)

  const START := State(false, false, false, 0, 0, 0, [], false)

  datatype Event =
    | Request(promise: bool)
    | FlagWritten(promise: bool)
    | CallFails(promise: bool)
    | PromiseDone(i: nat, ok: bool)
    | SyncRefused(i: nat)
    | SyncDone(i: nat, ok: bool)
    | FlagCleared(i: nat)
    | TimerFires
    | Throws(i: nat)

  /******* Segments *******/

  /** scheduleRemoteSyncRetry. */
  function Schedule(s: State): State {
    if s.timer then s else s.(timer := true, failures := s.failures + 1)
  }

  /** The `finally` block: the loop is gone, and a request that came late is queued again. */
  function Leave(s: State, i: nat): State
    requires i < |s.loops|
  {
    var t := s.(running := false, loops := s.loops[..i] + s.loops[i + 1..]);
    if t.queued then t.(calls := t.calls + 1) else t
  }

  /** The head of the loop: take the request, then start a sync or give up. */
  function LoopHead(s: State, i: nat, previousOk: bool): State
    requires i < |s.loops|
  {
    if !s.queued then Leave(s, i)
    else if !previousOk then Leave(Schedule(s.(queued := false)), i)
    else s.(queued := false, owed := false, loops := s.loops[i := Syncing])
  }

  predicate Enabled(s: State, e: Event) {
    match e
    case Request(_) => true
    case FlagWritten(promise) => if promise then s.promised > 0 else s.calls > 0
    case CallFails(promise) => if promise then s.promised > 0 else s.calls > 0
    case PromiseDone(i, _) => i < |s.loops| && s.loops[i] == Promised
    case SyncRefused(i) => i < |s.loops| && s.loops[i] == Syncing
    case SyncDone(i, ok) => i < |s.loops| && (s.loops[i] == Syncing || (s.loops[i] == Refused && !ok))
    case FlagCleared(i) => i < |s.loops| && s.loops[i] == Clearing
    case TimerFires => s.timer
    case Throws(i) => i < |s.loops|
  }

  function Next(s: State, e: Event): State
    requires Enabled(s, e)
  {
    match e
    case Request(promise) => if promise then s.(promised := s.promised + 1) else s.(calls := s.calls + 1)
    case FlagWritten(promise) =>
      var t := (if promise then s.(promised := s.promised - 1) else s.(calls := s.calls - 1)).(timer := false, queued := true, owed := true);
      if t.running then t
      else
        var u := t.(running := true, loops := t.loops + [Promised]);
        if promise then u else LoopHead(u, |t.loops|, true)
    case CallFails(promise) => if promise then s.(promised := s.promised - 1) else s.(calls := s.calls - 1)
    case PromiseDone(i, ok) => LoopHead(s, i, ok)
    case SyncRefused(i) => Schedule(s.(loops := s.loops[i := Refused]))
    case SyncDone(i, ok) =>
      if !ok then Leave(Schedule(s.(owed := true)), i)
      else if !s.queued then s.(failures := 0, loops := s.loops[i := Clearing])
      else LoopHead(s.(failures := 0), i, true)
    case FlagCleared(i) => LoopHead(s, i, true)
    case TimerFires => s.(timer := false, calls := s.calls + 1)
    case Throws(i) => Leave(if s.loops[i] == Clearing then s else s.(owed := true), i)
  }

  /** The event starts a sync. */
  predicate Starts(s: State, e: Event) {
    match e
    case FlagWritten(promise) => !s.running && !promise
    case PromiseDone(_, ok) => ok && s.queued
    case SyncDone(_, ok) => ok && s.queued
    case FlagCleared(_) => s.queued
    case _ => false
  }

  /******* The invariant *******/

  ghost predicate Ok(s: State) {
    && |s.loops| == (if s.running then 1 else 0)
    && (s.running && s.loops[0] == Promised ==> s.queued)
    && (s.queued ==> s.owed && (s.running || s.calls + s.promised > 0))
    && (s.owed ==> s.queued || s.timer || s.calls + s.promised > 0)
  }

  /**
   What can be forgotten, and only then. A loop throws after it took the request, with nothing else on its way. Or the only
   call on its way throws while it writes the pending flag, before it queues anything: the restart of a request that came
   late, or of a failed sync whose timer has fired.
   */
  predicate ThrowsAway(s: State, e: Event) {
    match e
    case Throws(i) => i < |s.loops| && s.loops[i] != Clearing && !s.queued && !s.timer && s.calls + s.promised == 0
    case CallFails(_) => s.calls + s.promised == 1 && (if s.queued then !s.running else s.owed && !s.timer)
    case _ => false
  }

  /** Every event keeps the invariant, except exactly a throw that leaves nothing behind. */
  lemma NextKeepsIff(s: State, e: Event)
    requires Ok(s) && Enabled(s, e)
    ensures Ok(Next(s, e)) <==> !ThrowsAway(s, e)
  {
  }

  /** The retry count: a success forgets it, arming the timer adds one, nothing else changes it; a failure leaves the timer armed. */
  lemma FailuresCountArmings(s: State, e: Event)
    requires Ok(s) && Enabled(s, e)
    ensures var t := Next(s, e);
      && t.failures == (if e.SyncDone? && e.ok then 0 else if t.timer && !s.timer then s.failures + 1 else s.failures)
      && (e.SyncRefused? || (e.SyncDone? && !e.ok) || (e.PromiseDone? && !e.ok && s.queued) ==> t.timer)
      && (e.FlagWritten? || e.TimerFires? ==> !t.timer) && (s.timer && !e.FlagWritten? && !e.TimerFires? ==> t.timer)
  {
  }

  /** A sync starts exactly when what was owed is paid; until then nothing forgets it. */
  lemma OwedUntilStarted(s: State, e: Event)
    requires Ok(s) && Enabled(s, e) && s.owed
    ensures Next(s, e).owed <==> !Starts(s, e)
  {
  }

  /******* Runs *******/

  predicate CanRun(s: State, events: seq<Event>)
    decreases |events|, 0
  {
    events == [] || (CanRun(s, events[..|events| - 1]) && Enabled(Run(s, events[..|events| - 1]), events[|events| - 1]))
  }

  function Run(s: State, events: seq<Event>): State
    requires CanRun(s, events)
    decreases |events|, 1
  {
    if events == [] then s else Next(Run(s, events[..|events| - 1]), events[|events| - 1])
  }

  /** No throw of the run leaves a request behind. */
  predicate Careful(s: State, events: seq<Event>)
    requires CanRun(s, events)
  {
    events == [] || (Careful(s, events[..|events| - 1]) && !ThrowsAway(Run(s, events[..|events| - 1]), events[|events| - 1]))
  }

  /**
   No lost wake-up. After every interleaving, throws included: at most one loop runs; a queued request has a running loop or a restart
   in flight; and while a request or a failed sync is owed a sync, a request is queued, a retry timer is armed, or a
   call is on its way.
   */
  lemma {:induction false} RunsKeep(events: seq<Event>)
    requires CanRun(START, events) && Careful(START, events)
    ensures Ok(Run(START, events))
  {
    if events != [] {
      RunsKeep(events[..|events| - 1]);
      NextKeepsIff(Run(START, events[..|events| - 1]), events[|events| - 1]);
    }
  }

  lemma OneMore(s: State, events: seq<Event>, e: Event)
    requires CanRun(s, events) && Enabled(Run(s, events), e)
    ensures CanRun(s, events + [e]) && Run(s, events + [e]) == Next(Run(s, events), e)
  {
    assert (events + [e])[..|events|] == events;
  }

  /** The exception happens: a request is taken, its sync throws, and then nothing internal is left that could start one. */
  lemma ThrowForgetsARequest()
    ensures var events := [Request(false), FlagWritten(false)];
      && CanRun(START, events) && Careful(START, events) && ThrowsAway(Run(START, events), Throws(0))
      && CanRun(START, events + [Throws(0)]) && Run(START, events + [Throws(0)]).owed
      && forall e :: Internal(e) ==> !Enabled(Run(START, events + [Throws(0)]), e)
  {
    hide *;
    var two := [Request(false), FlagWritten(false)];
    StartedRun();
    FirstThrow();
    WithoutThrows(START, two);
    OneMore(START, two, Throws(0));
    forall e | Internal(e) ensures !Enabled(FORGOTTEN, e) { NothingLeft(e); }
  }

  /** So it does with a restart: a sync fails, its timer fires, and the call throws before it queues anything. */
  lemma FailedRestartForgetsASync()
    ensures var events := [Request(false), FlagWritten(false), SyncDone(0, false), TimerFires];
      && CanRun(START, events) && Careful(START, events) && ThrowsAway(Run(START, events), CallFails(false))
      && CanRun(START, events + [CallFails(false)]) && Run(START, events + [CallFails(false)]).owed
      && forall e :: Internal(e) ==> !Enabled(Run(START, events + [CallFails(false)]), e)
  {
    hide *;
    var two := [Request(false), FlagWritten(false)];
    var three := two + [SyncDone(0, false)];
    var four := three + [TimerFires];
    StartedRun();
    FailedSync();
    OneMore(START, two, SyncDone(0, false));
    OneMore(START, three, TimerFires);
    assert four == [Request(false), FlagWritten(false), SyncDone(0, false), TimerFires];
    WithoutThrows(START, four);
    OneMore(START, four, CallFails(false));
    forall e | Internal(e) ensures !Enabled(LEFT_OWED, e) { NothingOwed(e); }
  }

  /** And with a late request: the loop throws while one is queued, and the restart from its `finally` block throws too. */
  lemma FailedRestartForgetsARequest()
    ensures var events := [Request(false), FlagWritten(false), Request(false), FlagWritten(false), Throws(0)];
      && CanRun(START, events) && Careful(START, events) && ThrowsAway(Run(START, events), CallFails(false))
      && CanRun(START, events + [CallFails(false)]) && Run(START, events + [CallFails(false)]).queued
      && forall e :: Internal(e) ==> !Enabled(Run(START, events + [CallFails(false)]), e)
  {
    hide *;
    var two := [Request(false), FlagWritten(false)];
    var three := two + [Request(false)];
    var four := three + [FlagWritten(false)];
    var five := four + [Throws(0)];
    StartedRun();
    LateRequest();
    LateThrow();
    LateFailure();
    OneMore(START, two, Request(false));
    OneMore(START, three, FlagWritten(false));
    WithoutThrows(START, four);
    OneMore(START, four, Throws(0));
    assert five == [Request(false), FlagWritten(false), Request(false), FlagWritten(false), Throws(0)];
    CarefulMore(START, four, Throws(0));
    OneMore(START, five, CallFails(false));
    forall e | Internal(e) ensures !Enabled(LEFT_QUEUED, e) { NothingQueued(e); }
  }

  lemma CarefulMore(s: State, events: seq<Event>, e: Event)
    requires CanRun(s, events) && Enabled(Run(s, events), e) && Careful(s, events) && !ThrowsAway(Run(s, events), e)
    ensures CanRun(s, events + [e]) && Careful(s, events + [e])
  {
    OneMore(s, events, e);
    assert (events + [e])[..|events|] == events;
  }

  /** A first request and the start of its sync. */
  lemma StartedRun()
    ensures CanRun(START, [Request(false), FlagWritten(false)]) && Run(START, [Request(false), FlagWritten(false)]) == STARTED
  {
    hide *;
    NoEvents();
    FirstRequest();
    OneMore(START, [], Request(false));
    assert [] + [Request(false)] == [Request(false)];
    FirstSyncStarts();
    OneMore(START, [Request(false)], FlagWritten(false));
    assert [Request(false)] + [FlagWritten(false)] == [Request(false), FlagWritten(false)];
  }

  const ARMED := State(false, false, true, 1, 0, 0, [], true)
  const RESTARTING := State(false, false, false, 1, 1, 0, [], true)
  const LEFT_OWED := State(false, false, false, 1, 0, 0, [], true)

  lemma FailedSync()
    ensures Enabled(STARTED, SyncDone(0, false)) && Next(STARTED, SyncDone(0, false)) == ARMED
    ensures Enabled(ARMED, TimerFires) && Next(ARMED, TimerFires) == RESTARTING
    ensures Enabled(RESTARTING, CallFails(false)) && ThrowsAway(RESTARTING, CallFails(false))
    ensures Next(RESTARTING, CallFails(false)) == LEFT_OWED && LEFT_OWED.owed
  {
    var loops := STARTED.loops;
    assert loops[..0] + loops[1..] == [];
    hide LoopHead;
  }

  lemma NothingOwed(e: Event)
    ensures Internal(e) ==> !Enabled(LEFT_OWED, e)
  {
  }

  const ASKED_AGAIN := State(false, true, false, 0, 1, 0, [Syncing], false)
  const QUEUED := State(true, true, false, 0, 0, 0, [Syncing], true)
  const REQUEUED := State(true, false, false, 0, 1, 0, [], true)
  const LEFT_QUEUED := State(true, false, false, 0, 0, 0, [], true)

  lemma LateRequest()
    ensures Enabled(STARTED, Request(false)) && Next(STARTED, Request(false)) == ASKED_AGAIN
    ensures Enabled(ASKED_AGAIN, FlagWritten(false)) && Next(ASKED_AGAIN, FlagWritten(false)) == QUEUED
  {
    hide LoopHead, Leave;
  }

  lemma LateThrow()
    ensures Enabled(QUEUED, Throws(0)) && !ThrowsAway(QUEUED, Throws(0)) && Next(QUEUED, Throws(0)) == REQUEUED
  {
    var loops := QUEUED.loops;
    assert loops[..0] + loops[1..] == [];
    hide LoopHead;
  }

  lemma LateFailure()
    ensures Enabled(REQUEUED, CallFails(false)) && ThrowsAway(REQUEUED, CallFails(false))
    ensures Next(REQUEUED, CallFails(false)) == LEFT_QUEUED && LEFT_QUEUED.queued
  {
    hide LoopHead, Leave;
  }

  lemma NothingQueued(e: Event)
    ensures Internal(e) ==> !Enabled(LEFT_QUEUED, e)
  {
  }

  const ASKED := State(false, false, false, 0, 1, 0, [], false)
  const STARTED := State(false, true, false, 0, 0, 0, [Syncing], false)
  const FORGOTTEN := State(false, false, false, 0, 0, 0, [], true)

  lemma FirstRequest()
    ensures Enabled(START, Request(false)) && Next(START, Request(false)) == ASKED
  {
  }

  lemma FirstThrow()
    ensures Enabled(STARTED, Throws(0)) && ThrowsAway(STARTED, Throws(0)) && Next(STARTED, Throws(0)) == FORGOTTEN && FORGOTTEN.owed
  {
    var loops := STARTED.loops;
    assert loops[..0] + loops[1..] == [];
    hide LoopHead;
  }

  lemma FirstSyncStarts()
    ensures Enabled(ASKED, FlagWritten(false)) && Next(ASKED, FlagWritten(false)) == STARTED
  {
    var loops := [] + [Promised];
    assert loops[0 := Syncing] == [Syncing];
  }

  lemma NothingLeft(e: Event)
    ensures Internal(e) ==> !Enabled(FORGOTTEN, e)
  {
  }

  lemma {:induction false} WithoutThrows(s: State, events: seq<Event>)
    requires CanRun(s, events) && forall e :: e in events ==> !e.Throws? && !e.CallFails?
    ensures Careful(s, events)
  {
    if events != [] {
      WithoutThrows(s, events[..|events| - 1]);
    }
  }

  lemma NoEvents()
    ensures CanRun(START, []) && Run(START, []) == START
  {
  }

  /******* Progress *******/

  predicate Internal(e: Event) { !e.Request? && !e.Throws? && !e.CallFails? }

  function LoopWeight(s: State): nat {
    if s.loops == [] then 0
    else match s.loops[0] { case Syncing => 3 case Refused => 2 case Clearing => 1 case Promised => 1 }
  }

  /** How many internal events can pass before a sync starts. */
  function Patience(s: State): nat {
    20 * LoopWeight(s) + (if s.timer then 6 else 0) + 3 * s.calls + 40 * s.promised + (if s.queued then 1 else 0)
  }

  lemma EveryEventCounts(s: State, e: Event)
    requires Ok(s) && Enabled(s, e) && Internal(e) && !Starts(s, e)
    ensures Patience(Next(s, e)) < Patience(s)
  {
  }

  /** While a sync is owed, some internal event can happen. */
  lemma NeverStuck(s: State)
    requires Ok(s) && s.owed
    ensures exists e :: Internal(e) && Enabled(s, e)
  {
    if s.timer {
      assert Enabled(s, TimerFires);
    } else if s.calls > 0 {
      assert Enabled(s, FlagWritten(false));
    } else if s.promised > 0 {
      assert Enabled(s, FlagWritten(true));
    } else {
      match s.loops[0]
      case Promised => assert Enabled(s, PromiseDone(0, true));
      case Syncing => assert Enabled(s, SyncDone(0, true));
      case Refused => assert Enabled(s, SyncDone(0, false));
      case Clearing => assert Enabled(s, FlagCleared(0));
    }
  }

  /** A run of internal events in which no sync starts. */
  ghost predicate Waits(s: State, events: seq<Event>)
    requires CanRun(s, events)
  {
    events == [] ||
      (var front, e := events[..|events| - 1], events[|events| - 1];
       Waits(s, front) && Internal(e) && !Starts(Run(s, front), e))
  }

  /** Whatever is owed a sync gets one: no run of internal events without a start is longer than `Patience`. */
  lemma {:induction false} SyncStartsInTime(s: State, events: seq<Event>)
    requires Ok(s) && s.owed && CanRun(s, events) && Waits(s, events)
    ensures Ok(Run(s, events)) && Run(s, events).owed
    ensures Patience(Run(s, events)) + |events| <= Patience(s)
  {
    if events != [] {
      var front, e := events[..|events| - 1], events[|events| - 1];
      SyncStartsInTime(s, front);
      var t := Run(s, front);
      NextKeepsIff(t, e);
      OwedUntilStarted(t, e);
      EveryEventCounts(t, e);
    }
  }

  /******* Delays *******/

  function Pow2(n: nat): nat { if n == 0 then 1 else 2 * Pow2(n - 1) }

  function RetryDelay(failures: nat): nat
    requires failures >= 1
  {
    if RETRY_BASE_MS * Pow2(failures - 1) < RETRY_MAX_MS then RETRY_BASE_MS * Pow2(failures - 1) else RETRY_MAX_MS
  }

  lemma {:induction false} Pow2Grows(m: nat, n: nat)
    requires m <= n
    ensures 1 <= Pow2(m) <= Pow2(n)
    decreases n
  {
    if m < n {
      Pow2Grows(m, n - 1);
    } else if n > 0 {
      Pow2Grows(m - 1, n - 1);
    }
  }

  /** Delays double up to the ceiling, stay between it and the base, and reach it with the seventh failure. */
  lemma DelaysGrow(m: nat, n: nat)
    requires 1 <= m <= n
    ensures RetryDelay(1) == RETRY_BASE_MS
    ensures RetryDelay(n + 1) == if 2 * RetryDelay(n) < RETRY_MAX_MS then 2 * RetryDelay(n) else RETRY_MAX_MS
    ensures RETRY_BASE_MS <= RetryDelay(m) <= RetryDelay(n) <= RETRY_MAX_MS
    ensures n >= 7 ==> RetryDelay(n) == RETRY_MAX_MS
  {
    Pow2Grows(0, m - 1);
    Pow2Grows(m - 1, n - 1);
    if n >= 7 {
      Pow2Grows(6, n - 1);
      assert Pow2(6) == 64;
    }
  }

  /******* The module variables *******/

  class Worker {
    var queued: bool
    var running: bool
    var timer: bool
    var failures: nat
    var calls: nat
    var promised: nat
    var loops: seq<Waiting>
    ghost var owed: bool

    ghost function View(): State
      reads this
    {
      State(queued, running, timer, failures, calls, promised, loops, owed)
    }

    constructor ()
      ensures View() == START
    {
      queued, running, timer, failures, calls, promised, loops, owed := false, false, false, 0, 0, 0, [], false;
    }

    /** One timer at most: it is armed after every failure, and only an arming counts and lengthens the delay. */
    method ScheduleRetry() returns (delay: nat)
      modifies this
      ensures View() == Schedule(old(View()))
      ensures timer && failures == old(failures) + (if old(timer) then 0 else 1)
      ensures !old(timer) ==> delay == RetryDelay(failures) && RETRY_BASE_MS <= delay <= RETRY_MAX_MS
    {
      delay := 0;
      if !timer {
        failures := failures + 1;
        DelaysGrow(failures, failures);
        delay := RetryDelay(failures);
        timer := true;
      }
    }

    /** The `finally` block of the only loop: no loop is left, and a request that came late is on its way again. */
    method LeaveLoop()
      requires running && |loops| == 1 && (queued ==> owed)
      modifies this
      ensures View() == Leave(old(View()), 0)
      ensures !running && (queued ==> calls > 0)
      ensures Ok(View()) <==> (owed ==> queued || timer || calls + promised > 0)
    {
      running := false;
      loops := [];
      if queued {
        calls := calls + 1;
      }
    }

    /** The head of the loop: whatever is queued is taken by a sync that starts now, or a retry is armed for it. */
    method Continue(previousOk: bool)
      requires Ok(View()) && running
      modifies this
      ensures View() == LoopHead(old(View()), 0, previousOk)
      ensures Ok(View())
      ensures old(queued) ==> !queued && (if previousOk then loops == [Syncing] && !owed else timer && owed)
    {
      if queued {
        queued := false;
        if !previousOk {
          var _ := ScheduleRetry();
          LeaveLoop();
          return;
        }
        loops := loops[0 := Syncing];
        owed := false;
      } else {
        LeaveLoop();
      }
    }

    /** queueRemoteSyncAfter up to its first await. */
    method OnRequest(promise: bool)
      requires Ok(View())
      modifies this
      ensures View() == Next(old(View()), Request(promise)) && Ok(View())
    {
      if promise { promised := promised + 1; } else { calls := calls + 1; }
    }

    /** queueRemoteSyncAfter after its first await: a loop runs, and the request waits for it or is being synced. */
    method OnFlagWritten(promise: bool)
      requires Ok(View()) && Enabled(View(), FlagWritten(promise))
      modifies this
      ensures View() == Next(old(View()), FlagWritten(promise)) && Ok(View())
      ensures running && !timer && (queued || loops == [Syncing])
      ensures failures == old(failures)
    {
      if promise { promised := promised - 1; } else { calls := calls - 1; }
      timer := false;
      queued := true;
      owed := true;
      if running {
        return;
      }
      running := true;
      loops := loops + [Promised];
      if !promise {
        Continue(true);
      }
    }

    /** The loop after the promise it was given. */
    method OnPromise(ok: bool)
      requires Ok(View()) && Enabled(View(), PromiseDone(0, ok))
      modifies this
      ensures View() == Next(old(View()), PromiseDone(0, ok)) && Ok(View())
      ensures if ok then loops == [Syncing] else timer && owed
    {
      Continue(ok);
    }

    /** Another process holds the mirror lease: a retry is armed before the sync reports failure. */
    method OnRefused()
      requires Ok(View()) && Enabled(View(), SyncRefused(0))
      modifies this
      ensures View() == Next(old(View()), SyncRefused(0)) && Ok(View()) && timer
    {
      loops := loops[0 := Refused];
      var _ := ScheduleRetry();
    }

    method OnFlagCleared()
      requires Ok(View()) && Enabled(View(), FlagCleared(0))
      modifies this
      ensures View() == Next(old(View()), FlagCleared(0)) && Ok(View())
      ensures old(queued) ==> loops == [Syncing]
    {
      Continue(true);
    }

    /** The loop after a sync: a failure arms a retry; after a success the next request is synced, or none is owed. */
    method OnSyncDone(ok: bool)
      requires Ok(View()) && Enabled(View(), SyncDone(0, ok))
      modifies this
      ensures View() == Next(old(View()), SyncDone(0, ok)) && Ok(View())
      ensures !ok ==> timer && owed && !running
      ensures ok && old(queued) ==> loops == [Syncing] && !queued
      ensures ok && !old(queued) ==> loops == [Clearing] && failures == 0 && owed == old(owed)
    {
      if !ok {
        owed := true;
        var _ := ScheduleRetry();
        LeaveLoop();
        return;
      }
      failures := 0;
      if !queued {
        loops := loops[0 := Clearing];
      } else {
        Continue(true);
      }
    }

    /** A call that throws while it writes the flag queues nothing; that is harmless exactly but in the one case. */
    method OnCallFails(promise: bool)
      requires Ok(View()) && Enabled(View(), CallFails(promise))
      modifies this
      ensures View() == Next(old(View()), CallFails(promise))
      ensures Ok(View()) <==> !ThrowsAway(old(View()), CallFails(promise))
    {
      if promise { promised := promised - 1; } else { calls := calls - 1; }
    }

    /** Anything that throws leaves through the `finally` block, and nothing is forgotten but in the one case. */
    method OnThrow()
      requires Ok(View()) && Enabled(View(), Throws(0))
      modifies this
      ensures View() == Next(old(View()), Throws(0)) && !running
      ensures Ok(View()) <==> !ThrowsAway(old(View()), Throws(0))
    {
      if loops[0] != Clearing {
        owed := true;
      }
      LeaveLoop();
    }

    method OnTimer()
      requires Ok(View()) && timer
      modifies this
      ensures View() == Next(old(View()), TimerFires) && Ok(View())
    {
      timer := false;
      calls := calls + 1;
    }
  }
}
