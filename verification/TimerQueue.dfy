/** The timer queue's own methods, over its fields. */
module TimerQueue {
  import opened CppInt
  import opened TimerMachine
  import M = TimerMachine
  import R = TimerRuns

  class TimerQueue {
    var timers: seq<Entry>
    var activeTimers: set<ActiveTimer>
    var callingExpiredTimers: bool
    var cancelingTimers: set<ActiveTimer>

    /** The live timers by address, the count of timers made, the clock and the timerfd. */
    var heap: map<Addr, Timer>
    var created: int
    var clock: Time
    var timerfd: Alarm

    ghost var transit: set<Addr>
    ghost var resetting: bool
    ghost var batch: seq<Entry>
    ghost var next: nat
    ghost var now: Time
    ghost var runs: seq<int>
    ghost var deleted: seq<int>

    ghost function View(): State
      reads this
    {
      State(timers, activeTimers, callingExpiredTimers, cancelingTimers, heap, created, transit,
            resetting, batch, next, now, clock, timerfd, runs, deleted)
    }

    constructor (clock: Time)
      ensures View() == Initial(clock)
    {
      timers, activeTimers, callingExpiredTimers, cancelingTimers := [], {}, false, {};
      heap, timerfd := map[], Disarmed;
      this.clock := clock;
      created, transit, resetting, batch, next, now, runs, deleted := 0, {}, false, [], 0, 0, [], [];
    }

    method ResetTimerfd(expiration: Time)
      modifies this`timerfd
      ensures View() == M.ResetTimerfd(old(View()), expiration)
    {
      var microseconds := expiration - clock;
      if microseconds < 100 {
        microseconds := 100;
      }
      var seconds := Quot(microseconds, MICROS_PER_SECOND);
      var nanoseconds := Rem(microseconds, MICROS_PER_SECOND) * 1000;
      timerfd := Armed(clock + seconds * MICROS_PER_SECOND + nanoseconds / 1000, clock);
    }

    /** `new Timer`, at the address `a`; the timer is on its way to the loop. */
    method Construct(a: Addr, when: Time, delta: nat, repeat: bool)
      requires a !in heap
      modifies this`heap, this`created, this`transit
      ensures View() == ConstructTimer(old(View()), a, when, delta, repeat)
    {
      created := created + 1;
      heap := heap[a := Timer(when, delta, repeat, created)];
      transit := transit + {a};
    }

    /** `addTimer`.  In the loop thread the timer is scheduled at once; from
        another thread it is left in transit, for the loop to take it. */
    method AddTimer(a: Addr, when: Time, delta: nat, repeat: bool, inLoop: bool) returns (id: ActiveTimer)
      requires Inv(View()) && a !in heap
      modifies this`timers, this`activeTimers, this`timerfd, this`heap, this`created, this`transit
      ensures Inv(View())
      ensures View() == var s := ConstructTimer(old(View()), a, when, delta, repeat);
                        if inLoop then M.AddTimerInLoop(s, a) else s
      ensures a in heap && heap[a].sequence == created == old(created) + 1
      ensures id == ActiveTimer(a, heap[a].sequence)
    {
      ConstructKeeps(View(), a, when, delta, repeat);
      hide Inv;
      Construct(a, when, delta, repeat);
      if inLoop {
        AddTimerInLoop(a);
      }
      id := ActiveTimer(a, heap[a].sequence);
    }

    /** Reading the timerfd clears its expiry. */
    method ReadTimerfd()
      modifies this`timerfd
      ensures timerfd == if old(timerfd).Fired? then Disarmed else old(timerfd)
    {
      if timerfd.Fired? {
        timerfd := Disarmed;
      }
    }

    /** The assertions are those of `TimerQueue.cpp`. */
    method Insert(timer: Addr) returns (earliestChanged: bool)
      requires Indexed(timers, activeTimers, heap) && timer in heap && timer !in Addrs(timers)
      modifies this`timers, this`activeTimers
      ensures View() == M.Insert(old(View()), timer)
      ensures earliestChanged == EarliestChanges(old(View()), heap[timer].expiration)
      ensures Indexed(timers, activeTimers, heap)
    {
      InsertIndexed(View(), timer);
      IndexedSizes(timers, activeTimers, heap);
      assert |timers| == |activeTimers|;
      earliestChanged := false;
      var when := heap[timer].expiration;
      if timers == [] || when < timers[0].when {
        earliestChanged := true;
      }
      assert Entry(when, timer) !in timers;
      timers := InsertEntry(timers, Entry(when, timer));
      assert ActiveTimer(timer, heap[timer].sequence) !in activeTimers;
      activeTimers := activeTimers + {ActiveTimer(timer, heap[timer].sequence)};
      IndexedSizes(timers, activeTimers, heap);
      assert |timers| == |activeTimers|;
    }

    method AddTimerInLoop(timer: Addr)
      requires Inv(View()) && timer in transit
      modifies this`timers, this`activeTimers, this`timerfd, this`transit
      ensures timer in heap && View() == M.AddTimerInLoop(old(View()), timer) && Inv(View())
    {
      AddKeeps(View(), timer);
      var earliestChanged := Insert(timer);
      transit := transit - {timer};
      if earliestChanged {
        ResetTimerfd(heap[timer].expiration);
      }
    }

    method Delete(timer: Addr)
      requires timer in heap
      modifies this`heap, this`deleted
      ensures View() == M.Delete(old(View()), timer)
    {
      deleted := deleted + [heap[timer].sequence];
      heap := heap - {timer};
    }

    /** Between the deletion and the second `erase` the sizes differ: the
        destructor of the callback must not call back into the queue. */
    method CancelInLoop(timerId: ActiveTimer)
      requires Inv(View())
      modifies this`timers, this`activeTimers, this`cancelingTimers, this`heap, this`deleted
      ensures old(Safe(View(), Cancel(timerId)))
      ensures View() == M.CancelInLoop(old(View()), timerId) && Inv(View())
    {
      CancelKeeps(View(), timerId);
      ghost var done := M.CancelInLoop(View(), timerId);
      IndexedSizes(timers, activeTimers, heap);
      assert Indexed(done.timers, done.active, done.heap);
      if timerId in activeTimers {
        EraseIndexed(View(), timerId);
        hide Inv, Indexed, Safe, EraseEntry;
        ghost var n := |timers|;
        timers := EraseEntry(timers, Entry(heap[timerId.timer].expiration, timerId.timer));
        assert |timers| == n - 1;
        Delete(timerId.timer);
        assert |timers| + 1 == |activeTimers|;
        activeTimers := activeTimers - {timerId};
      } else if callingExpiredTimers {
        cancelingTimers := cancelingTimers + {timerId};
      }
      assert View() == done;
      IndexedSizes(timers, activeTimers, heap);
      assert |timers| == |activeTimers|;
    }

    /** The loop of `getExpired`: each expired timer is found in the other index too. */
    method EraseActive(expired: seq<Entry>)
      requires Distinct(expired) && (forall e | e in expired :: e.timer in heap)
      requires Keys(heap, expired) <= activeTimers
      modifies this`activeTimers
      ensures activeTimers == old(activeTimers) - Keys(heap, expired)
    {
      for i := 0 to |expired|
        invariant activeTimers == old(activeTimers) - Keys(heap, expired[..i])
      {
        var timer := ActiveTimer(expired[i].timer, heap[expired[i].timer].sequence);
        assert timer in activeTimers by { StillActive(expired, heap, i); }
        activeTimers := activeTimers - {timer};
        assert expired[..i + 1] == expired[..i] + [expired[i]];
      }
      assert expired[..|expired|] == expired;
    }

    method GetExpired(now: Time) returns (expired: seq<Entry>)
      requires Indexed(timers, activeTimers, heap)
      modifies this`timers, this`activeTimers
      ensures expired == old(timers)[..DueCount(old(timers), now)]
      ensures timers == old(timers)[DueCount(old(timers), now)..]
      ensures forall e | e in expired :: e.timer in heap
      ensures activeTimers == old(activeTimers) - Keys(heap, expired)
      ensures Indexed(timers, activeTimers, heap)
    {
      IndexedSizes(timers, activeTimers, heap);
      assert |timers| == |activeTimers|;
      var end := DueCount(timers, now);
      assert end == |timers| || now < timers[end].when;
      SplitIndexed(timers, activeTimers, heap, end);
      assert Keys(heap, timers[..end]) <= activeTimers;
      hide Indexed, Distinct, Keys;
      expired := timers[..end];
      timers := timers[end..];
      EraseActive(expired);
      IndexedSizes(timers, activeTimers, heap);
      assert |timers| == |activeTimers|;
    }

    /** The loop of `reset` and the alarm after it.  `destroyed[i]` is what happens
        once the `i`-th timer has been restarted or deleted, such as what the
        destructor of its callback does. */
    method Reset(expired: seq<Entry>, now: Time, destroyed: seq<seq<Step>>)
      requires Inv(View()) && resetting && expired == batch && now == this.now && |destroyed| == |expired|
      requires forall ops | ops in destroyed :: forall step | step in ops :: InCallback(step)
      requires Execution(View(), Rounds(M.Reset, destroyed) + [Finish])
      modifies this
      ensures View() == After(old(View()), Rounds(M.Reset, destroyed) + [Finish])
      ensures !InRead(View()) && batch == []
    {
      hide Inv, Execution, After, InCallback;
      ghost var last := After(View(), Rounds(M.Reset, destroyed) + [Finish]);
      assert destroyed[0..] == destroyed && expired[0..] == expired;
      for i := 0 to |expired|
        invariant Inv(View()) && resetting && batch == expired[i..] && now == this.now
        invariant Execution(View(), Rounds(M.Reset, destroyed[i..]) + [Finish])
        invariant After(View(), Rounds(M.Reset, destroyed[i..]) + [Finish]) == last
      {
        RoundsFrom(M.Reset, destroyed, i, [Finish]);
        ghost var rest := Rounds(M.Reset, destroyed[i + 1..]) + [Finish];
        TakeStep(View(), M.Reset, destroyed[i] + rest);
        ResetTimer(expired[i], now);
        assert destroyed[i] in destroyed;
        PerformAll(destroyed[i], rest);
      }
      assert Rounds(M.Reset, destroyed[|expired|..]) + [Finish] == [Finish];
      EndsHere(View());
      SetAlarm();
    }

    /** The body of the loop in `reset`: a repeating timer that was not cancelled
        is restarted and put back, any other is deleted. */
    method ResetTimer(it: Entry, now: Time)
      requires Inv(View()) && Taken(View(), M.Reset) && it == batch[0] && now == this.now
      modifies this`timers, this`activeTimers, this`heap, this`deleted, this`batch, this`next
      ensures old(Safe(View(), M.Reset)) && View() == Next(old(View()), M.Reset)
      ensures batch == old(batch)[1..]
    {
      ResetKeeps(View());
      ResetHead(View());
      ghost var done := Next(View(), M.Reset);
      assert done == ResetOne(View(), it.timer).(batch := batch[1..], next := next - 1);
      hide Inv, Indexed, Addrs, Next, Safe, Taken, M.Insert, M.Delete, M.Restart;
      var timer := it.timer;
      if heap[timer].repeat && ActiveTimer(timer, heap[timer].sequence) !in cancelingTimers {
        Restart(timer, now);
        var _ := Insert(timer);
      } else {
        Delete(timer);
      }
      batch, next := batch[1..], next - 1;
    }

    /** The end of `reset`: the alarm is set for the earliest timer. */
    method SetAlarm()
      requires Inv(View()) && Taken(View(), Finish)
      modifies this`timerfd, this`resetting
      ensures old(Safe(View(), Finish)) && View() == Next(old(View()), Finish)
      ensures !InRead(View()) && batch == []
    {
      FinishKeeps(View());
      assert !callingExpiredTimers && batch == [];
      hide Inv;
      if timers != [] {
        var nextExpire := heap[timers[0].timer].expiration;
        if nextExpire > INVALID {
          ResetTimerfd(nextExpire);
        }
      }
      resetting := false;
    }

    /** `Timer::restart` of a timer that is in neither index. */
    method Restart(timer: Addr, now: Time)
      requires Indexed(timers, activeTimers, heap) && timer in heap && timer !in Addrs(timers)
      requires now == this.now
      modifies this`heap
      ensures View() == M.Restart(old(View()), timer)
      ensures Indexed(timers, activeTimers, heap)
    {
      var restarted := heap[timer].(expiration := if heap[timer].repeat then now + heap[timer].delta else INVALID);
      IndexedFrame(timers, activeTimers, heap, heap[timer := restarted]);
      heap := heap[timer := restarted];
    }

    /** One thing a callback, or another thread meanwhile, can do. */
    method Perform(step: Step)
      requires Inv(View()) && Taken(View(), step) && InCallback(step)
      modifies this
      ensures old(Safe(View(), step)) && View() == Next(old(View()), step) && Inv(View())
    {
      StepKeeps(View(), step);
      ghost var done := Next(View(), step);
      hide Inv, Safe, Taken, M.AddTimerInLoop, M.CancelInLoop, ConstructTimer;
      match step
      case Construct(a, when, delta, repeat) =>
        Construct(a, when, delta, repeat);
      case Add(a) => AddTimerInLoop(a);
      case Cancel(id) => CancelInLoop(id);
      case Tick(elapsed) => clock := clock + elapsed;
      case Fire => timerfd := Fired;
      assert View() == done;
    }

    method EnterCallback(it: Entry)
      requires Inv(View()) && Taken(View(), RunOne) && it == batch[next]
      modifies this`runs, this`next
      ensures old(Safe(View(), RunOne)) && View() == Next(old(View()), RunOne) && Inv(View())
      ensures next == old(next) + 1
    {
      RunOneKeeps(View());
      runs := runs + [heap[it.timer].sequence];
      next := next + 1;
    }

    method PerformAll(ops: seq<Step>, ghost rest: seq<Step>)
      requires Inv(View()) && Execution(View(), ops + rest)
      requires forall step | step in ops :: InCallback(step)
      modifies this
      ensures Inv(View()) && Execution(View(), rest) && After(View(), rest) == After(old(View()), ops + rest)
      ensures callingExpiredTimers == old(callingExpiredTimers) && resetting == old(resetting)
      ensures batch == old(batch) && now == old(now) && next == old(next)
    {
      hide Inv, Execution, After, Next, Safe, Taken, InCallback;
      ghost var last := After(View(), ops + rest);
      assert ops[0..] == ops;
      for i := 0 to |ops|
        invariant Inv(View()) && Execution(View(), ops[i..] + rest)
        invariant After(View(), ops[i..] + rest) == last
        invariant callingExpiredTimers == old(callingExpiredTimers) && resetting == old(resetting)
        invariant batch == old(batch) && now == old(now) && next == old(next)
      {
        assert ops[i..] + rest == [ops[i]] + (ops[i + 1..] + rest);
        TakeStep(View(), ops[i], ops[i + 1..] + rest);
        assert ops[i] in ops;
        CallbackFrame(View(), ops[i]);
        Perform(ops[i]);
      }
      assert ops[|ops|..] + rest == rest;
    }

    /** One callback is run, and does what `ops` say. */
    method RunCallback(it: Entry, ops: seq<Step>, ghost rest: seq<Step>)
      requires Inv(View()) && callingExpiredTimers && next < |batch| && it == batch[next]
      requires forall step | step in ops :: InCallback(step)
      requires Execution(View(), [RunOne] + (ops + rest))
      modifies this
      ensures Inv(View()) && Execution(View(), rest)
      ensures After(View(), rest) == After(old(View()), [RunOne] + (ops + rest))
      ensures callingExpiredTimers && batch == old(batch) && now == old(now) && next == old(next) + 1
    {
      hide Inv, Execution, After, Next, Safe, Taken, InCallback;
      TakeStep(View(), RunOne, ops + rest);
      EnterCallback(it);
      PerformAll(ops, rest);
    }

    /** `handleRead` up to the callbacks. */
    method StartRead() returns (readAt: Time, expired: seq<Entry>)
      requires Inv(View()) && !InRead(View())
      modifies this
      ensures old(Safe(View(), Begin)) && View() == BeginRead(old(View())) && Inv(View())
      ensures expired == batch && readAt == now && |expired| == DueCount(old(timers), old(clock))
    {
      BeginKeeps(View());
      BeginFields(View());
      hide Inv, Indexed, Safe, BeginRead, DueCount, Keys;
      readAt := clock;
      ReadTimerfd();
      expired := GetExpired(readAt);
      EnterBatch(readAt, expired);
    }

    /** The callbacks of a batch are about to run. */
    method EnterBatch(readAt: Time, expired: seq<Entry>)
      modifies this`now, this`batch, this`next, this`callingExpiredTimers, this`cancelingTimers
      ensures View() == old(View()).(now := readAt, batch := expired, next := 0, calling := true, canceling := {})
      ensures now == readAt && batch == expired
    {
      now, batch, next := readAt, expired, 0;
      callingExpiredTimers := true;
      cancelingTimers := {};
    }

    /** The loop over the callbacks. */
    method RunCallbacks(expired: seq<Entry>, callbacks: seq<seq<Step>>, ghost end: seq<Step>)
      requires Inv(View()) && callingExpiredTimers && batch == expired && next == 0 && |callbacks| == |expired|
      requires forall ops | ops in callbacks :: forall step | step in ops :: InCallback(step)
      requires Execution(View(), Rounds(RunOne, callbacks) + end)
      modifies this
      ensures Inv(View()) && callingExpiredTimers && batch == expired && next == |expired| && now == old(now)
      ensures Execution(View(), end) && After(View(), end) == After(old(View()), Rounds(RunOne, callbacks) + end)
    {
      hide Inv, Execution, After, InCallback;
      ghost var last := After(View(), Rounds(RunOne, callbacks) + end);
      assert callbacks[0..] == callbacks;
      for i := 0 to |expired|
        invariant Inv(View()) && callingExpiredTimers && batch == expired && next == i && now == old(now)
        invariant Execution(View(), Rounds(RunOne, callbacks[i..]) + end)
        invariant After(View(), Rounds(RunOne, callbacks[i..]) + end) == last
      {
        RoundsFrom(RunOne, callbacks, i, end);
        assert callbacks[i] in callbacks;
        RunCallback(expired[i], callbacks[i], Rounds(RunOne, callbacks[i + 1..]) + end);
      }
      assert Rounds(RunOne, callbacks[|expired|..]) + end == end;
    }

    method EndCallbacks()
      requires Inv(View()) && Taken(View(), EndCalls)
      modifies this`callingExpiredTimers, this`resetting
      ensures View() == Next(old(View()), EndCalls)
      ensures !callingExpiredTimers && resetting && next == |batch|
    {
      callingExpiredTimers := false;
      resetting := true;
    }

    /** `callbacks[i]` is what happens while the callback of the `i`-th expired
        timer runs, and `destroyed[i]` after that timer has been reset. */
    method HandleRead(callbacks: seq<seq<Step>>, destroyed: seq<seq<Step>>)
      requires Inv(View()) && Execution(View(), ReadSteps(callbacks, destroyed))
      requires |callbacks| == |destroyed| == DueCount(timers, clock)
      requires forall ops | ops in callbacks + destroyed :: forall step | step in ops :: InCallback(step)
      modifies this
      ensures View() == After(old(View()), ReadSteps(callbacks, destroyed))
      ensures !InRead(View()) && batch == []
    {
      ghost var resets := Rounds(M.Reset, destroyed) + [Finish];
      ghost var end := [EndCalls] + resets;
      TakeStep(View(), Begin, Rounds(RunOne, callbacks) + end);
      assert forall ops | ops in callbacks || ops in destroyed :: ops in callbacks + destroyed;
      hide Inv, Execution, After, InCallback, ReadSteps;
      var readAt, expired := StartRead();
      RunCallbacks(expired, callbacks, end);
      TakeStep(View(), EndCalls, resets);
      EndCallbacks();
      Reset(expired, readAt, destroyed);
    }
  }

  /** The queue as `getExpired` leaves it. */
  lemma BeginFields(s: State)
    requires Inv(s)
    ensures Indexed(s.timers, s.active, s.heap) && Safe(s, Begin)
    ensures var n := DueCount(s.timers, s.clock);
            BeginRead(s) == s.(now := s.clock, alarm := if s.alarm.Fired? then Disarmed else s.alarm,
                               batch := s.timers[..n], next := 0, timers := s.timers[n..],
                               active := s.active - Keys(s.heap, s.timers[..n]),
                               calling := true, canceling := {})
  {
  }

  /** What a callback can do itself, or find done by another thread or the clock. */
  predicate InCallback(step: Step) {
    step.Construct? || step.Add? || step.Cancel? || step.Tick? || step.Fire?
  }

  /** Such a step leaves `handleRead` where it is. */
  lemma CallbackFrame(s: State, step: Step)
    requires Inv(s) && Taken(s, step) && InCallback(step)
    ensures Safe(s, step)
    ensures var s' := Next(s, step);
            && s'.calling == s.calling && s'.resetting == s.resetting
            && s'.batch == s.batch && s'.now == s.now && s'.next == s.next
  {
    StepKeeps(s, step);
  }

  /** A step of `handleRead` for each timer of the batch, with what happens after each. */
  function Rounds(step: Step, after: seq<seq<Step>>): seq<Step> {
    if after == [] then [] else [step] + after[0] + Rounds(step, after[1..])
  }

  /** The steps of one `handleRead`. */
  function ReadSteps(callbacks: seq<seq<Step>>, destroyed: seq<seq<Step>>): seq<Step> {
    [Begin] + (Rounds(RunOne, callbacks) + ([EndCalls] + (Rounds(M.Reset, destroyed) + [Finish])))
  }

  lemma RoundsFrom(step: Step, after: seq<seq<Step>>, i: nat, rest: seq<Step>)
    requires i < |after|
    ensures Rounds(step, after[i..]) + rest == [step] + (after[i] + (Rounds(step, after[i + 1..]) + rest))
  {
    assert after[i..][1..] == after[i + 1..];
  }

  lemma {:induction false} RunsOn(s: State, steps: seq<Step>, rest: seq<Step>)
    requires Inv(s) && Execution(s, steps + rest)
    ensures Execution(s, steps) && Execution(After(s, steps), rest)
    ensures After(s, steps + rest) == After(After(s, steps), rest)
    decreases |steps|
  {
    if steps == [] {
      assert steps + rest == rest;
    } else {
      assert (steps + rest)[1..] == steps[1..] + rest;
      StepKeeps(s, steps[0]);
      hide Inv, Next, Safe, Taken;
      RunsOn(Next(s, steps[0]), steps[1..], rest);
    }
  }

  lemma {:induction false} ManyRunsGrow(s: State, steps: seq<Step>)
    requires Inv(s) && Execution(s, steps)
    ensures s.runs <= After(s, steps).runs
    decreases |steps|
  {
    if steps != [] {
      StepKeeps(s, steps[0]);
      R.RunsGrow(s, steps[0]);
      hide Inv, Next, Safe, Taken;
      ManyRunsGrow(Next(s, steps[0]), steps[1..]);
    }
  }

  lemma {:induction false} NoEndInRounds(callbacks: seq<seq<Step>>)
    requires forall ops | ops in callbacks :: forall step | step in ops :: InCallback(step)
    ensures EndCalls !in Rounds(RunOne, callbacks)
  {
    if callbacks != [] {
      assert callbacks[0] in callbacks && forall ops | ops in callbacks[1..] :: ops in callbacks;
      NoEndInRounds(callbacks[1..]);
    }
  }

  /** The steps of a read run the timers due when it begins, in order. */
  lemma ReadStepsRunDue(s: State, callbacks: seq<seq<Step>>, destroyed: seq<seq<Step>>)
    requires Inv(s) && Execution(s, ReadSteps(callbacks, destroyed))
    requires forall ops | ops in callbacks :: forall step | step in ops :: InCallback(step)
    ensures forall e | e in s.timers :: e.timer in s.heap
    ensures s.runs + R.Sequences(s.heap, s.timers[..DueCount(s.timers, s.clock)])
            <= After(s, ReadSteps(callbacks, destroyed)).runs
  {
    var calls, resets := Rounds(RunOne, callbacks), Rounds(M.Reset, destroyed) + [Finish];
    assert ReadSteps(callbacks, destroyed) == ([Begin] + calls) + ([EndCalls] + resets);
    NoEndInRounds(callbacks);
    hide Inv, Execution, After, InCallback, R.Sequences, ReadSteps, DueCount;
    RunsOn(s, [Begin] + calls, [EndCalls] + resets);
    var s1 := After(s, [Begin] + calls);
    TakeStep(s1, EndCalls, resets);
    R.ReadRunsDueTimers(s, calls);
    ManyRunsGrow(s1, [EndCalls] + resets);
  }

  /** Left to itself a read can always be gone through. */
  lemma ReadCanRun(s: State)
    requires Inv(s) && !InRead(s)
    ensures var n := DueCount(s.timers, s.clock);
            Execution(s, ReadSteps(seq(n, _ => []), seq(n, _ => [])))
  {
    var n := DueCount(s.timers, s.clock);
    BeginKeeps(s);
    var s0 := BeginRead(s);
    assert s0.next == 0 && |s0.batch| == n && s0.calling;
    assert Taken(s, Begin) && Safe(s, Begin) && s0 == Next(s, Begin);
    assert ReadSteps(seq(n, _ => []), seq(n, _ => []))
        == [Begin] + QuietRounds(RunOne, n, [EndCalls] + QuietRounds(M.Reset, n, [Finish]));
    hide Inv, BeginRead, DueCount, Execution, Next, Safe, Taken, QuietRounds, ReadSteps;
    CallsCanRun(s0, n);
    CanStep(s, Begin, s0, QuietRounds(RunOne, n, [EndCalls] + QuietRounds(M.Reset, n, [Finish])));
  }

  /** Rounds in which nothing else happens. */
  function QuietRounds(step: Step, n: nat, rest: seq<Step>): seq<Step> {
    Rounds(step, seq(n, _ => [])) + rest
  }

  lemma QuietRoundsFrom(step: Step, n: nat, rest: seq<Step>)
    ensures QuietRounds(step, n, rest) == if n == 0 then rest else [step] + QuietRounds(step, n - 1, rest)
  {
    var none: seq<seq<Step>> := seq(n, _ => []);
    if n > 0 {
      assert none[1..] == seq(n - 1, _ => []);
      assert none[0] == [];
    }
  }

  lemma {:induction false} CallsCanRun(s: State, n: nat)
    requires Inv(s) && s.calling && s.next + n == |s.batch|
    ensures Execution(s, QuietRounds(RunOne, n, [EndCalls] + QuietRounds(M.Reset, |s.batch|, [Finish])))
    decreases n
  {
    var m := |s.batch|;
    var end := [EndCalls] + QuietRounds(M.Reset, m, [Finish]);
    var step := if n == 0 then EndCalls else RunOne;
    QuietRoundsFrom(RunOne, n, end);
    StepKeeps(s, step);
    var s' := Next(s, step);
    assert |s'.batch| == m && (if n == 0 then s'.resetting else s'.calling && s'.next + (n - 1) == m);
    hide Inv, Next, Safe, Taken, Execution, QuietRounds;
    if n == 0 {
      ResetsCanRun(s', m);
      CanStep(s, EndCalls, s', QuietRounds(M.Reset, m, [Finish]));
    } else {
      CallsCanRun(s', n - 1);
      CanStep(s, RunOne, s', QuietRounds(RunOne, n - 1, end));
    }
  }

  lemma CanStep(s: State, step: Step, s': State, rest: seq<Step>)
    requires Inv(s) && Taken(s, step) && Safe(s, step) && s' == Next(s, step) && Inv(s') && Execution(s', rest)
    ensures Execution(s, [step] + rest)
  {
    R.Prepend(s, step, rest);
  }

  lemma {:induction false} ResetsCanRun(s: State, n: nat)
    requires Inv(s) && s.resetting && |s.batch| == n
    ensures Execution(s, QuietRounds(M.Reset, n, [Finish]))
    decreases n
  {
    QuietRoundsFrom(M.Reset, n, [Finish]);
    if n == 0 {
      hide QuietRounds;
      R.OneStep(s, Finish);
    } else {
      R.ResetHeap(s);
      var s' := Next(s, M.Reset);
      assert Taken(s, M.Reset) && Safe(s, M.Reset) && Inv(s') && s'.resetting && |s'.batch| == n - 1;
      hide Inv, Next, Safe, Taken, ResetNext, Execution, QuietRounds;
      ResetsCanRun(s', n - 1);
      CanStep(s, M.Reset, s', QuietRounds(M.Reset, n - 1, [Finish]));
    }
  }

  /** The timer to be reset is in neither index. */
  lemma ResetHead(s: State)
    requires Inv(s) && Taken(s, M.Reset)
    ensures var a := s.batch[0].timer;
            a in s.heap && a !in Addrs(s.timers) && Indexed(s.timers, s.active, s.heap) && s.next > 0
  {
    OwnedHead(s, s.batch);
  }

  lemma EndsHere(s: State)
    requires Inv(s) && Execution(s, [Finish])
    ensures Safe(s, Finish) && Taken(s, Finish) && After(s, [Finish]) == Next(s, Finish)
  {
    assert [Finish] + [] == [Finish];
    TakeStep(s, Finish, []);
  }

  lemma StillActive(entries: seq<Entry>, heap: map<Addr, Timer>, i: nat)
    requires Distinct(entries) && i < |entries|
    requires forall e | e in entries :: e.timer in heap
    ensures ActiveTimer(entries[i].timer, heap[entries[i].timer].sequence)
            in Keys(heap, entries) - Keys(heap, entries[..i])
  {
    assert entries[i] in entries;
    forall e | e in entries[..i] ensures e.timer != entries[i].timer {
      var j :| 0 <= j < i && entries[j] == e;
    }
  }
}
